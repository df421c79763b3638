/**
  The test whether an interactive line is complete, and the tokenizer that then reads it (PostScript/Adobe/scanner.c).

  LineComplete runs the transition tables over the text and counts braces; StreamToken runs them over the line
  buffer, with a loop of its own for strings that understands escapes and pushes characters back.  Both are proved
  against one description of where lexemes end.
 */
module Scanner {
  import opened ScannerTables
  import opened Wrappers

  // ---------------------------------------------------------------- where a lexeme ends

  function ClassAt(text: seq<char>, i: nat): (k: Class)
    ensures k == EOS <==> i >= |text|
  {
    if i < |text| then ClassOf(text[i]) else EOS
  }

  /** What becomes of a string: it is closed before next, or never, or nests deeper than the limit. */
  datatype Span = Closed(next: nat) | Open | TooDeep

  /**
    A string from i on, with depth parentheses open besides its own; none nest as deep as the limit, if there is one.
   */
  function StringEnd(text: seq<char>, i: nat, depth: nat, limit: Option<nat>): (r: Span)
    ensures r.Closed? ==> i < r.next <= |text|
    decreases |text| - i
  {
    if i >= |text| then Open
    else match text[i]
      case '\\' => if i + 1 >= |text| then Open else StringEnd(text, i + 2, depth, limit)
      case '(' => if limit == Some(depth + 1) then TooDeep else StringEnd(text, i + 1, depth + 1, limit)
      case ')' => if depth == 0 then Closed(i + 1) else StringEnd(text, i + 1, depth - 1, limit)
      case _ => StringEnd(text, i + 1, depth, limit)
  }

  /** A lexeme: the final state, and where the next one starts. */
  datatype Lexeme = Lexeme(state: nat, next: nat)

  /** The lexeme that is being scanned in the given state, from i on. */
  function Lex(text: seq<char>, i: nat, state: Inner, limit: Option<nat>): (r: Lexeme)
    requires i <= |text|
    ensures r.state < START && i <= r.next <= |text|
    ensures state == START && r.state != SNULL && r.state != PART ==> i < r.next
    decreases |text| - i
  {
    var class_ := ClassAt(text, i);
    var s := NewState(state, class_);
    var a := NewAction(state, class_);
    if a.Nothing? || a.Back? then Lexeme(s, i)
    else if s == PAREN then StringLexeme(text, StringEnd(text, i + 1, 0, limit))
    else if s < START then Lexeme(s, i + 1)
    else Lex(text, i + 1, s, limit)
  }

  /** A string that nests too deep wraps the state around to that of an empty source. */
  function StringLexeme(text: seq<char>, span: Span): Lexeme {
    match span
    case Closed(next) => Lexeme(STRG, next)
    case Open => Lexeme(PART, |text|)
    case TooDeep => Lexeme(SNULL, |text|)
  }

  /** No string and no brace is left open by the lexemes from i on. */
  predicate Complete(text: seq<char>, i: nat, nest: nat, limit: Option<nat>)
    requires i <= |text|
    decreases |text| - i
  {
    var lex := Lex(text, i, START, limit);
    if lex.state == SNULL then nest == 0
    else if lex.state == PART then false
    else if lex.state == AXBEG then Complete(text, lex.next, nest + 1, limit)
    else if lex.state == AXEND then Complete(text, lex.next, if nest == 0 then 0 else nest - 1, limit)
    else Complete(text, lex.next, nest, limit)
  }

  // ---------------------------------------------------------------- the test

  /** The state of LineComplete is an unsigned character. */
  const STATE_RANGE := 256

  /** At this many parentheses the state wraps around. */
  const WRAP := Some(STATE_RANGE - PAREN)

  const MAX_CARDINAL := 0xFFFF

  lemma StringClasses(c: char)
    ensures ClassOf(c) == QOT <==> c == '\\'
    ensures ClassOf(c) == LPR <==> c == '('
    ensures ClassOf(c) == RPR <==> c == ')'
  {
  }

  /** The inner loop of LineComplete: one lexeme. */
  method SkipLexeme(text: seq<char>, from: nat) returns (state: nat, i: nat)
    requires from <= |text|
    ensures state == Lex(text, from, START, WRAP).state
    ensures state != SNULL && state != PART ==> i == Lex(text, from, START, WRAP).next
  {
    hide NewState, NewAction, ClassOf;
    state, i := START, from;
    ghost var lex := Lex(text, i, START, WRAP);
    while state >= START
      invariant from <= i <= |text| && 0 <= state < STATE_RANGE
      invariant START <= state < PAREN ==> Lex(text, i, state, WRAP) == lex
      invariant state >= PAREN ==> StringLexeme(text, StringEnd(text, i, state - PAREN, WRAP)) == lex
      invariant state < START ==> state == lex.state && (state == SNULL || state == PART || i == lex.next)
      decreases if state < START then 0 else 1, |text| - i
    {
      var class_ := EOS;
      if i < |text| {
        StringClasses(text[i]);
        class_ := ClassOf(text[i]);
        i := i + 1;
      }
      if state >= PAREN {
        if class_ == EOS {
          state := PART;
        } else if class_ == QOT {
          if i >= |text| { state := PART; } else { i := i + 1; }
        } else if class_ == LPR {
          state := (state + 1) % STATE_RANGE;
        } else if class_ == RPR {
          if state == PAREN { state := STRG; } else { state := state - 1; }
        }
      } else {
        var action := NewAction(state, class_);
        state := NewState(state, class_);
        if action.Back? { i := i - 1; }
      }
    }
  }

  method LineComplete(text: seq<char>) returns (r: bool)
    requires |text| <= MAX_CARDINAL && '\0' !in text
    ensures r <==> Complete(text, 0, 0, WRAP)
    ensures r <==> Accepts(text, 0, 0, Plain)
  {
    hide Lex;
    CompleteAccepts(text, 0, 0);
    var nest, i := 0, 0;
    while true
      invariant 0 <= i <= |text| && 0 <= nest <= i
      invariant Complete(text, i, nest, WRAP) == Complete(text, 0, 0, WRAP)
      decreases |text| - i
    {
      var state;
      state, i := SkipLexeme(text, i);
      if state == SNULL { return nest == 0; }
      if state == PART { return false; }
      if state == AXBEG { nest := nest + 1; }
      if state == AXEND && nest != 0 { nest := nest - 1; }
    }
  }

  // ---------------------------------------------------------------- the test in characters

  /** Where a character stands: in the program, in a comment, or in a string with so many parentheses open besides. */
  datatype Mode = Plain | InComment | InString(depth: nat)

  /**
    What the test accepts, without tables: it counts braces outside comments and strings, never below 0, and accepts
    when none is open at the end.  A string still open at the end fails; one with 232 parentheses open ends the test.
   */
  predicate Accepts(text: seq<char>, i: nat, nest: nat, mode: Mode)
    requires i <= |text|
    decreases |text| - i
  {
    if i == |text| then !mode.InString? && nest == 0
    else
      var c := text[i];
      match mode
      case Plain =>
        if c == '{' then Accepts(text, i + 1, nest + 1, Plain)
        else if c == '}' then Accepts(text, i + 1, if nest == 0 then 0 else nest - 1, Plain)
        else Accepts(text, i + 1, nest, if c == '%' then InComment else if c == '(' then InString(0) else Plain)
      case InComment =>
        Accepts(text, i + 1, nest, if c == '\n' || c == '\r' || c == FORM_FEED then Plain else InComment)
      case InString(depth) =>
        if c == '\\' then i + 1 < |text| && Accepts(text, i + 2, nest, mode)
        else if c == '(' then if depth == 230 then nest == 0 else Accepts(text, i + 1, nest, InString(depth + 1))
        else if c == ')' then Accepts(text, i + 1, nest, if depth == 0 then Plain else InString(depth - 1))
        else Accepts(text, i + 1, nest, mode)
  }

  /** What the tables do with a character, as far as it matters to the test. */
  lemma TableFacts(state: Inner, c: char)
    ensures var s, a := NewState(state, ClassOf(c)), NewAction(state, ClassOf(c));
            && !a.Nothing?
            && (state == COMNT ==> a.Skip? && s == if c == '\n' || c == '\r' || c == FORM_FEED then START else COMNT)
            && (state != COMNT && state != START ==>
                  if a.Back? then s in {LNAME, XNAME, INUM, ONUM, RNUM}
                  else START < s < PAREN && s != COMNT && c !in {'{', '}', '(', '%'})
            && (state == START ==>
                  && !a.Back?
                  && (s == AXBEG <==> c == '{') && (s == AXEND <==> c == '}')
                  && (s == PAREN <==> c == '(') && (s == COMNT <==> c == '%') && s != SNULL && s != PART)
  {
  }

  lemma {:induction false} StringAccepts(text: seq<char>, i: nat, depth: nat, nest: nat)
    requires i <= |text| && depth <= 230
    ensures var end := StringEnd(text, i, depth, WRAP);
            Accepts(text, i, nest, InString(depth))
            == if end.Closed? then Accepts(text, end.next, nest, Plain) else end.TooDeep? && nest == 0
    decreases |text| - i
  {
    if i < |text| {
      match text[i]
      case '\\' => if i + 1 < |text| { StringAccepts(text, i + 2, depth, nest); }
      case '(' => if depth < 230 { StringAccepts(text, i + 1, depth + 1, nest); }
      case ')' => if depth > 0 { StringAccepts(text, i + 1, depth - 1, nest); }
      case _ => StringAccepts(text, i + 1, depth, nest);
    }
  }

  /** The test after a lexeme. */
  predicate CompleteAfter(text: seq<char>, lex: Lexeme, nest: nat)
    requires lex.next <= |text|
  {
    if lex.state == SNULL then nest == 0
    else lex.state != PART && Complete(text, lex.next, Nested(lex.state, nest), WRAP)
  }

  lemma CompleteNow(text: seq<char>, i: nat, nest: nat)
    requires i <= |text|
    ensures Complete(text, i, nest, WRAP) == CompleteAfter(text, Lex(text, i, START, WRAP), nest)
  {
    hide Lex;
  }

  lemma LexNow(text: seq<char>, i: nat, state: Inner)
    requires i <= |text|
    ensures var s, a := NewState(state, ClassAt(text, i)), NewAction(state, ClassAt(text, i));
            Lex(text, i, state, WRAP)
            == if a.Nothing? || a.Back? then Lexeme(s, i)
               else if s == PAREN then StringLexeme(text, StringEnd(text, i + 1, 0, WRAP))
               else if s < START then Lexeme(s, i + 1)
               else Lex(text, i + 1, s, WRAP)
  {
    hide NewState, NewAction, StringEnd;
  }

  lemma {:induction false} LexAccepts(text: seq<char>, i: nat, state: Inner, nest: nat)
    requires i <= |text|
    ensures CompleteAfter(text, Lex(text, i, state, WRAP), nest)
            == Accepts(text, i, nest, if state == COMNT then InComment else Plain)
    decreases |text| - i, state
  {
    hide NewState, NewAction, ClassOf, StringEnd, Lex, Complete, Accepts;
    LexNow(text, i, state);
    var lex := Lex(text, i, state, WRAP);
    AcceptsNow(text, i, nest, if state == COMNT then InComment else Plain);
    if i == |text| {
      EndFacts(state);
      if state != START && state != COMNT {
        CompleteNow(text, i, nest);
        LexNow(text, i, START);
        EndFacts(START);
      }
    } else {
      var s := NewState(state, ClassOf(text[i]));
      TableFacts(state, text[i]);
      if NewAction(state, ClassOf(text[i])).Back? {
        CompleteNow(text, i, nest);
        LexAccepts(text, i, START, nest);
        AcceptsNow(text, i, nest, Plain);
      } else if s == PAREN {
        StringAccepts(text, i + 1, 0, nest);
        var end := StringEnd(text, i + 1, 0, WRAP);
        if end.Closed? {
          CompleteNow(text, end.next, nest);
          LexAccepts(text, end.next, START, nest);
        }
      } else if s < START {
        CompleteNow(text, i + 1, Nested(s, nest));
        LexAccepts(text, i + 1, START, Nested(s, nest));
      } else {
        LexAccepts(text, i + 1, s, nest);
      }
    }
  }

  lemma EndFacts(state: Inner)
    ensures NewAction(state, EOS).Nothing?
    ensures state == START || state == COMNT ==> NewState(state, EOS) == SNULL
    ensures state != START && state != COMNT ==> NewState(state, EOS) in {LNAME, XNAME, INUM, ONUM, RNUM}
  {
  }

  lemma AcceptsNow(text: seq<char>, i: nat, nest: nat, mode: Mode)
    requires i <= |text| && !mode.InString?
    ensures i == |text| ==> (Accepts(text, i, nest, mode) <==> nest == 0)
    ensures i < |text| && mode.InComment? ==>
              Accepts(text, i, nest, mode)
              == Accepts(text, i + 1, nest,
                         if text[i] == '\n' || text[i] == '\r' || text[i] == FORM_FEED then Plain else InComment)
    ensures i < |text| && mode.Plain? ==>
              Accepts(text, i, nest, mode)
              == match text[i]
                 case '{' => Accepts(text, i + 1, nest + 1, Plain)
                 case '}' => Accepts(text, i + 1, if nest == 0 then 0 else nest - 1, Plain)
                 case '%' => Accepts(text, i + 1, nest, InComment)
                 case '(' => Accepts(text, i + 1, nest, InString(0))
                 case _ => Accepts(text, i + 1, nest, Plain)
  {
  }

  /** The test by lexemes is the test by characters. */
  lemma CompleteAccepts(text: seq<char>, i: nat, nest: nat)
    requires i <= |text|
    ensures Complete(text, i, nest, WRAP) == Accepts(text, i, nest, Plain)
  {
    hide Lex, Complete, Accepts;
    CompleteNow(text, i, nest);
    LexAccepts(text, i, START, nest);
  }

  /** The count that goes up at an opening brace, and down to no less than 0 at a closing one. */
  function BracesOpen(text: seq<char>, i: nat, nest: nat): nat
    requires i <= |text|
    decreases |text| - i
  {
    if i == |text| then nest
    else
      var c := text[i];
      BracesOpen(text, i + 1, if c == '{' then nest + 1 else if c == '}' && nest > 0 then nest - 1 else nest)
  }

  /** A line without strings and comments is complete if and only if that count ends at 0. */
  lemma {:induction false} BracesDecide(text: seq<char>, i: nat, nest: nat)
    requires i <= |text| && '(' !in text && '%' !in text
    ensures Complete(text, i, nest, WRAP) <==> BracesOpen(text, i, nest) == 0
    decreases |text| - i
  {
    hide Complete;
    CompleteAccepts(text, i, nest);
    if i < |text| {
      assert text[i] in text;
      var next := if text[i] == '{' then nest + 1 else if text[i] == '}' && nest > 0 then nest - 1 else nest;
      BracesDecide(text, i + 1, next);
      CompleteAccepts(text, i + 1, next);
    }
  }

  /** A comment counts for nothing up to the first newline, carriage return or form feed after it. */
  lemma {:induction false} CommentSkipped(text: seq<char>, i: nat, j: nat, nest: nat)
    requires i <= j < |text| && (text[j] == '\n' || text[j] == '\r' || text[j] == FORM_FEED)
    requires forall k :: i <= k < j ==> text[k] != '\n' && text[k] != '\r' && text[k] != FORM_FEED
    ensures Accepts(text, i, nest, InComment) == Accepts(text, j + 1, nest, Plain)
    decreases j - i
  {
    if i < j {
      CommentSkipped(text, i + 1, j, nest);
    }
  }

  /** A string without nested parentheses and escapes counts for nothing up to its closing parenthesis. */
  lemma {:induction false} StringSkipped(text: seq<char>, i: nat, j: nat, nest: nat)
    requires i <= j < |text| && text[j] == ')'
    requires forall k :: i <= k < j ==> text[k] != '(' && text[k] != ')' && text[k] != '\\'
    ensures Accepts(text, i, nest, InString(0)) == Accepts(text, j + 1, nest, Plain)
    decreases j - i
  {
    if i < j {
      StringSkipped(text, i + 1, j, nest);
    }
  }

  // ---------------------------------------------------------------- tokens

  /** The characters that the lexeme puts into the token buffer; those of a string are left out. */
  function Taken(text: seq<char>, i: nat, state: Inner): seq<char>
    requires i <= |text|
    decreases |text| - i
  {
    var class_ := ClassAt(text, i);
    var s := NewState(state, class_);
    var a := NewAction(state, class_);
    if a.Nothing? || a.Back? || s == PAREN then []
    else
      var rest := if s < START then [] else Taken(text, i + 1, s);
      if a.Take? then [text[i]] + rest else rest
  }

  lemma LexStep(text: seq<char>, i: nat, state: Inner)
    requires i <= |text|
    ensures var s, a := NewState(state, ClassAt(text, i)), NewAction(state, ClassAt(text, i));
            Lex(text, i, state, None)
            == if a.Nothing? || a.Back? then Lexeme(s, i)
               else if s == PAREN then StringLexeme(text, StringEnd(text, i + 1, 0, None))
               else if s < START then Lexeme(s, i + 1)
               else Lex(text, i + 1, s, None)
    ensures var s, a := NewState(state, ClassAt(text, i)), NewAction(state, ClassAt(text, i));
            RunsOut(text, i, state)
            <==> !a.Nothing? && !a.Back?
                 && if s == PAREN then i + 1 < |text| && StringEnd(text, i + 1, 0, None).Open?
                    else s >= START && RunsOut(text, i + 1, s)
  {
  }

  lemma TakenStep(text: seq<char>, i: nat, state: Inner, taken: seq<char>)
    requires i <= |text|
    ensures var s, a := NewState(state, ClassAt(text, i)), NewAction(state, ClassAt(text, i));
            var taken' := if a.Take? then taken + [text[i]] else taken;
            taken + Taken(text, i, state) == if s < START || s == PAREN then taken' else taken' + Taken(text, i + 1, s)
  {
  }

  /**
    The lexeme is a string that never closes, and something follows its opening parenthesis.  The tokenizer then
    meets the end of the line inside its loop for strings, where it asks feof of a stream that is null.
   */
  predicate RunsOut(text: seq<char>, i: nat, state: Inner)
    requires i <= |text|
    decreases |text| - i
  {
    var class_ := ClassAt(text, i);
    var s := NewState(state, class_);
    var a := NewAction(state, class_);
    !a.Nothing? && !a.Back?
    && if s == PAREN then i + 1 < |text| && StringEnd(text, i + 1, 0, None).Open?
       else s >= START && RunsOut(text, i + 1, s)
  }

  const MAX_NAME_LENGTH := 31

  function Unsigned(s: seq<char>): seq<char> {
    if s != [] && (s[0] == '-' || s[0] == '+') then s[1..] else s
  }

  /** MakeOctal, as far as its error goes: all but the B at the end is digits. */
  method MakeOctal(text: seq<char>) returns (ok: bool)
    ensures ok <==> Legal(ONUM, text)
  {
    var s := text;
    if |s| > 0 && (s[0] == '-' || s[0] == '+') { s := s[1..]; }
    assert s == Unsigned(text);
    var i := 0;
    while i < |s| - 1
      invariant 0 <= i && forall k :: 0 <= k < i && k < |s| ==> s[k] <= '7'
    {
      if s[i] > '7' {
        assert Unsigned(text)[i] > '7';
        return false;
      }
      i := i + 1;
    }
    ok := true;
  }

  /** MakeOctal and MakeName raise no error. */
  predicate Legal(state: nat, taken: seq<char>) {
    if state == ONUM then forall k :: 0 <= k < |Unsigned(taken)| - 1 ==> Unsigned(taken)[k] <= '7'
    else if state in {LNAME, XNAME, OOPS} then |taken| <= MAX_NAME_LENGTH
    else true
  }

  /** NullStream is a call of feof with a null stream, which the C library does not allow. */
  datatype Outcome = TokenTo(next: nat) | EndOfSource | Unfinished | NullStream | Illegal

  /** The token that starts at i, when nest braces are open: a lexeme, or a procedure up to its closing brace. */
  function Token(text: seq<char>, i: nat, nest: nat): (r: Outcome)
    requires i <= |text|
    ensures r.TokenTo? ==> i < r.next <= |text|
    decreases |text| - i
  {
    var lex := Lex(text, i, START, None);
    if lex.state == SNULL then if nest == 0 then EndOfSource else Unfinished
    else if lex.state == PART then if RunsOut(text, i, START) then NullStream else Unfinished
    else if !Legal(lex.state, Taken(text, i, START)) then Illegal
    else if lex.state == AXBEG then Token(text, lex.next, nest + 1)
    else if lex.state == AXEND && nest > 1 then Token(text, lex.next, nest - 1)
    else if lex.state == AXEND || nest == 0 then TokenTo(lex.next)
    else Token(text, lex.next, nest)
  }

  /** The line buffer. */
  class LineReader {
    var line: seq<char>
    var lineIndex: nat

    constructor (text: seq<char>)
      ensures line == text && lineIndex == 0
    {
      line, lineIndex := text, 0;
    }

    /** The position in the text; reading past the end advances the index all the same. */
    function Pos(): (i: nat)
      reads this
      ensures i <= |line|
    {
      if lineIndex <= |line| then lineIndex else |line|
    }

    method Getc() returns (c: Option<char>)
      modifies `lineIndex
      ensures lineIndex == old(lineIndex) + 1
      ensures c == if old(lineIndex) < |line| then Some(line[old(lineIndex)]) else None
    {
      lineIndex := lineIndex + 1;
      if lineIndex > |line| { return None; }
      c := Some(line[lineIndex - 1]);
    }

    method Ungetc(c: char)
      requires 0 < lineIndex <= |line|
      modifies this
      ensures lineIndex == old(lineIndex) - 1 && line == old(line)[lineIndex := c]
    {
      lineIndex := lineIndex - 1;
      line := line[lineIndex := c];
    }

    /**
      The loop over an escape, after its backslash.  Fewer than three octal digits end at another character, which
      is pushed back; but if it is one of n, t, b, r and f, what is pushed back is what it stands for.
     */
    method ScanEscape() returns (c: Option<char>)
      requires lineIndex <= |line|
      modifies this
      ensures |line| == |old(line)|
      ensures c.None? ==> lineIndex > |line|
                          && forall depth: nat :: AfterEscape(old(line), old(lineIndex), depth) == Open
      ensures c.Some? ==>
                && old(lineIndex) < lineIndex <= |line|
                && var digits := OctalDigits(old(line), old(lineIndex), 3);
                   && lineIndex == old(lineIndex) + (if digits == 0 then 1 else digits)
                   && line == if 0 < digits < 3 then PushedBack(old(line), lineIndex) else old(line)
      ensures c.Some? ==> forall depth: nat ::
                AfterEscape(old(line), old(lineIndex), depth) == StringEnd(line, lineIndex, depth, None)
    {
      var dc := 0;
      ghost var k := lineIndex;
      while true
        invariant 0 <= dc < 3 && lineIndex == k + dc <= |line| && line == old(line)
        invariant OctalDigits(line, k, 3) == dc + OctalDigits(line, lineIndex, 3 - dc)
        invariant dc > 0 ==> forall depth: nat :: AfterEscape(line, k, depth) == StringEnd(line, lineIndex, depth, None)
        decreases 3 - dc
      {
        c := Getc();
        if c.None? { return; }
        if '0' <= c.value <= '7' {
          dc := dc + 1;
          if dc >= 3 { return; }
        } else {
          c := Some(Escaped(c.value));
          break;
        }
      }
      if dc != 0 {
        ghost var was := line;
        Ungetc(c.value);
        forall depth: nat ensures StringEnd(line, lineIndex, depth, None) == StringEnd(was, lineIndex, depth, None) {
          Retouched(was, line, lineIndex, depth);
        }
      }
    }

    /**
      The rest of a string, after its opening parenthesis.  The first character is read at the head of the lexical
      loop, which knows the end of the line; all others are read in the loop for strings, which does not.
     */
    method ScanString() returns (r: Rest)
      requires lineIndex <= |line|
      modifies this
      ensures |line| == |old(line)|
      ensures r.Shut? <==> StringEnd(old(line), old(lineIndex), 0, None).Closed?
      ensures r.Lost? <==> !r.Shut? && old(lineIndex) < |line|
      ensures r.Shut? ==> lineIndex == StringEnd(old(line), old(lineIndex), 0, None).next
                          && SameFrom(line, old(line), lineIndex)
      ensures !r.Shut? ==> lineIndex > |line|
    {
      ghost var end := StringEnd(line, lineIndex, 0, None);
      NeverTooDeep(line, lineIndex, 0);
      var state, head := PAREN, true;
      while true
        invariant state >= PAREN && lineIndex <= |line| == |old(line)|
        invariant head <==> lineIndex == old(lineIndex)
        invariant lineIndex >= old(lineIndex)
        invariant StringEnd(line, lineIndex, state - PAREN, None) == end
        invariant SameFrom(line, old(line), lineIndex + 1)
        decreases |line| - lineIndex
      {
        ghost var i, depth := lineIndex, state - PAREN;
        var c := Getc();
        if c.None? { return if head then AtEnd else Lost; }
        head := false;
        StringClasses(c.value);
        var class_ := ClassOf(c.value);
        if class_ == QOT {
          assert end == AfterEscape(line, lineIndex, depth);
          c := ScanEscape();
          if c.None? { return Lost; }
        } else if class_ == LPR {
          state := state + 1;
        } else if class_ == RPR {
          if state == PAREN { return Shut; }
          state := state - 1;
        }
      }
    }

    /** One lexeme, with what it puts into the token buffer unless it is a string; lost in a call of feof or not. */
    method ScanLexeme() returns (state: nat, taken: seq<char>, lost: bool)
      modifies this
      ensures |line| == |old(line)|
      ensures state == Lex(old(line), old(Pos()), START, None).state
      ensures state != SNULL && state != PART ==>
                Pos() == Lex(old(line), old(Pos()), START, None).next && SameFrom(line, old(line), Pos())
      ensures state == SNULL || state == PART ==> Pos() == |line|
      ensures taken == Taken(old(line), old(Pos()), START)
      ensures lost <==> RunsOut(old(line), old(Pos()), START)
    {
      hide NewState, NewAction, ClassOf, StringEnd, Lex, Taken, RunsOut;
      state, taken, lost := START, [], false;
      ghost var out := RunsOut(line, Pos(), START);
      ghost var lex := Lex(line, Pos(), START, None);
      ghost var all := Taken(line, Pos(), START);
      while state >= START
        invariant |line| == |old(line)|
        invariant state >= START ==> state < PAREN && line == old(line)
        invariant state >= START ==> Lex(line, Pos(), state, None) == lex && all == taken + Taken(line, Pos(), state)
        invariant state < START ==> state == lex.state && taken == all && lost == out
        invariant state >= START ==> RunsOut(line, Pos(), state) == out && !lost
        invariant state < START && state != SNULL && state != PART ==>
                    Pos() == lex.next && SameFrom(line, old(line), Pos())
        invariant state == SNULL || state == PART ==> Pos() == |line|
        decreases if state < START then 0 else 1, |line| - Pos()
      {
        ghost var i := Pos();
        var c := Getc();
        var class_ := if c.None? then EOS else ClassOf(c.value);
        assert class_ == ClassAt(line, i);
        LexStep(line, i, state);
        TakenStep(line, i, state, taken);
        var action := NewAction(state, class_);
        state := NewState(state, class_);
        match action {
          case Nothing =>
          case Skip =>
          case Take => taken := taken + [c.value];
          case Back => Ungetc(c.value);
        }
        assert state == SNULL ==> Pos() == |line|;
        if state == PAREN {
          NeverTooDeep(line, lineIndex, 0);
          var rest := ScanString();
          state := if rest.Shut? then STRG else PART;
          lost := rest.Lost?;
        }
      }
    }

    /**
      StreamToken: a token, the end of the source, a brace or string that is not closed, or an error.  At a string that
      is not closed, and at the end of the source when braces are open, it notes the error, closes the braces itself
      and returns what it has as a token: whenever error is set, so is found.
     */
    method StreamToken() returns (found: bool, error: bool, r: Outcome)
      modifies this
      ensures |line| == |old(line)|
      ensures r == Token(old(line), old(Pos()), 0)
      ensures found <==> r.TokenTo? || r.Unfinished?
      ensures error <==> r.Unfinished?
      ensures r.TokenTo? ==> Pos() == r.next && SameFrom(line, old(line), r.next)
      ensures r.Unfinished? ==> Pos() == |line|
    {
      hide Lex, Taken, RunsOut;
      var nest := 0;
      found, error := false, false;
      ghost var whole := Token(line, Pos(), 0);
      while true
        invariant |line| == |old(line)| && !found
        invariant !error ==> Token(line, Pos(), nest) == whole && SameFrom(line, old(line), Pos())
        invariant error ==> whole.Unfinished? && Pos() == |line| && nest != 0
        decreases if error then 0 else 1, |line| - Pos(), nest
      {
        var state := AXEND;
        if !error {
          ghost var was, i := line, Pos();
          var taken, lost;
          state, taken, lost := ScanLexeme();
          if lost && state == PART { return found, error, NullStream; }
          if state == SNULL && nest == 0 { return found, error, EndOfSource; }
          if state == SNULL || state == PART {
            error := true;
          } else {
            if state == ONUM {
              var ok := MakeOctal(taken);
              if !ok { return found, error, Illegal; }
            }
            if (state == XNAME || state == LNAME || state == OOPS) && |taken| > MAX_NAME_LENGTH {
              return found, error, Illegal;
            }
            SameToken(line, was, Pos(), Nested(state, nest));
          }
        }
        if state == SNULL { continue; }
        if state == AXBEG { nest := nest + 1; }
        if state == AXEND && nest != 0 { nest := nest - 1; }
        if nest == 0 {
          found := true;
          return found, error, if error then Unfinished else TokenTo(Pos());
        }
      }
    }

    /**
      The stream is executed: every token found is used, whether or not the error was noted, and only when none is
      found does the error count.  So a last token that is not finished is used, and its syntax error never raised.
     */
    method ReadLine() returns (unfinished: bool, raised: bool, r: Outcome)
      modifies this
      ensures unfinished <==> Tokens(old(line), old(Pos())) == Unfinished
      ensures r == if unfinished then EndOfSource else Tokens(old(line), old(Pos()))
      ensures !raised
    {
      hide Token;
      ghost var whole := Tokens(line, Pos());
      unfinished := false;
      while true
        invariant |line| == |old(line)|
        invariant if unfinished then whole == Unfinished && Pos() == |line| else Tokens(line, Pos()) == whole
        decreases if unfinished then 0 else 1, |line| - Pos()
      {
        ghost var was := line;
        AtTheEnd(line);
        var found, error;
        found, error, r := StreamToken();
        if !found { return unfinished, error, r; }
        if error {
          unfinished := true;
        } else {
          SameTokens(line, was, Pos());
        }
      }
    }
  }

  /** At the end of the text there is nothing more. */
  lemma AtTheEnd(text: seq<char>)
    ensures Token(text, |text|, 0) == EndOfSource
  {
    assert Lex(text, |text|, START, None) == Lexeme(SNULL, |text|);
  }

  /** How reading token after token from i on ends. */
  function Tokens(text: seq<char>, i: nat): (r: Outcome)
    requires i <= |text|
    ensures !r.TokenTo?
    decreases |text| - i
  {
    var r := Token(text, i, 0);
    if r.TokenTo? then Tokens(text, r.next) else r
  }

  lemma {:induction false} SameLex(a: seq<char>, b: seq<char>, i: nat, state: Inner)
    requires i <= |a| && SameFrom(a, b, i)
    ensures Lex(a, i, state, None) == Lex(b, i, state, None) && Taken(a, i, state) == Taken(b, i, state)
    ensures RunsOut(a, i, state) == RunsOut(b, i, state)
    decreases |a| - i
  {
    hide NewState, NewAction, ClassOf, StringEnd;
    if i < |a| {
      var s := NewState(state, ClassAt(a, i));
      if s == PAREN {
        SameEnd(a, b, i + 1, 0);
      } else if s >= START {
        SameLex(a, b, i + 1, s);
      }
    }
  }

  lemma {:induction false} SameToken(a: seq<char>, b: seq<char>, i: nat, nest: nat)
    requires i <= |a| && SameFrom(a, b, i)
    ensures Token(a, i, nest) == Token(b, i, nest)
    decreases |a| - i
  {
    hide Lex, Taken, Legal, RunsOut;
    SameLex(a, b, i, START);
    var lex := Lex(a, i, START, None);
    if lex.state != SNULL && lex.state != PART {
      SameToken(a, b, lex.next, Nested(lex.state, nest));
    }
  }

  lemma {:induction false} SameTokens(a: seq<char>, b: seq<char>, i: nat)
    requires i <= |a| && SameFrom(a, b, i)
    ensures Tokens(a, i) == Tokens(b, i)
    decreases |a| - i
  {
    hide Token;
    SameToken(a, b, i, 0);
    if Token(a, i, 0).TokenTo? {
      SameTokens(a, b, Token(a, i, 0).next);
    }
  }

  /** The string from k on, where a backslash stands before k. */
  function AfterEscape(text: seq<char>, k: nat, depth: nat): Span {
    if k >= |text| then Open else StringEnd(text, k + 1, depth, None)
  }

  /** What reading the rest of a string comes to. */
  datatype Rest = Shut | AtEnd | Lost

  /** How many octal digits, of at most limit, stand at i. */
  function OctalDigits(text: seq<char>, i: nat, limit: nat): (n: nat)
    ensures n <= limit && (n > 0 ==> i + n <= |text|)
    decreases limit
  {
    if limit > 0 && i < |text| && '0' <= text[i] <= '7' then 1 + OctalDigits(text, i + 1, limit - 1) else 0
  }

  /** The line with the character at i replaced by what it stands for in an escape. */
  function PushedBack(line: seq<char>, i: nat): seq<char> {
    if i < |line| then line[i := Escaped(line[i])] else line
  }

  /** The character an escape stands for, octal digits aside. */
  function Escaped(c: char): char {
    match c
    case 'n' => '\n'
    case 't' => '\t'
    case 'b' => BACKSPACE
    case 'r' => '\r'
    case 'f' => FORM_FEED
    case _ => c
  }

  ghost predicate SameFrom(a: seq<char>, b: seq<char>, i: nat) {
    |a| == |b| && forall k :: i <= k < |a| ==> a[k] == b[k]
  }

  lemma {:induction false} SameEnd(a: seq<char>, b: seq<char>, i: nat, depth: nat)
    requires SameFrom(a, b, i)
    ensures StringEnd(a, i, depth, None) == StringEnd(b, i, depth, None)
    decreases |a| - i
  {
    if i < |a| {
      match a[i]
      case '\\' => if i + 1 < |a| { SameEnd(a, b, i + 2, depth); }
      case '(' => SameEnd(a, b, i + 1, depth + 1);
      case ')' => if depth > 0 { SameEnd(a, b, i + 1, depth - 1); }
      case _ => SameEnd(a, b, i + 1, depth);
    }
  }

  /** The character pushed back ends nothing that the one read did not. */
  lemma Retouched(was: seq<char>, line: seq<char>, i: nat, depth: nat)
    requires i < |was| && line == was[i := Escaped(was[i])]
    ensures StringEnd(line, i, depth, None) == StringEnd(was, i, depth, None)
  {
    if Escaped(was[i]) == was[i] {
      assert line == was;
    } else {
      SameEnd(line, was, i + 1, depth);
    }
  }

  lemma {:induction false} NeverTooDeep(text: seq<char>, i: nat, depth: nat)
    ensures !StringEnd(text, i, depth, None).TooDeep?
    decreases |text| - i
  {
    if i < |text| {
      match text[i]
      case '\\' => if i + 1 < |text| { NeverTooDeep(text, i + 2, depth); }
      case '(' => NeverTooDeep(text, i + 1, depth + 1);
      case ')' => if depth > 0 { NeverTooDeep(text, i + 1, depth - 1); }
      case _ => NeverTooDeep(text, i + 1, depth);
    }
  }

  // ---------------------------------------------------------------- what the test predicts

  /** Every lexeme from i on is one that the tokenizer can make a token of. */
  predicate AllLegal(text: seq<char>, i: nat)
    requires i <= |text|
    decreases |text| - i
  {
    var lex := Lex(text, i, START, None);
    lex.state == SNULL || lex.state == PART || (Legal(lex.state, Taken(text, i, START)) && AllLegal(text, lex.next))
  }

  /** The lexeme is a string that nests so deep that the state of LineComplete wraps around. */
  predicate LexTooDeep(text: seq<char>, i: nat, state: Inner)
    requires i <= |text|
    decreases |text| - i
  {
    var class_ := ClassAt(text, i);
    var s := NewState(state, class_);
    var a := NewAction(state, class_);
    !a.Nothing? && !a.Back?
    && if s == PAREN then StringEnd(text, i + 1, 0, WRAP).TooDeep? else s >= START && LexTooDeep(text, i + 1, s)
  }

  /** No string from i on nests that deep. */
  predicate Shallow(text: seq<char>, i: nat)
    requires i <= |text|
    decreases |text| - i
  {
    var lex := Lex(text, i, START, None);
    !LexTooDeep(text, i, START) && (lex.state == SNULL || lex.state == PART || Shallow(text, lex.next))
  }

  lemma {:induction false} StringLimit(text: seq<char>, i: nat, depth: nat)
    requires !StringEnd(text, i, depth, WRAP).TooDeep?
    ensures StringEnd(text, i, depth, WRAP) == StringEnd(text, i, depth, None)
    decreases |text| - i
  {
    if i < |text| {
      match text[i]
      case '\\' => if i + 1 < |text| { StringLimit(text, i + 2, depth); }
      case '(' => StringLimit(text, i + 1, depth + 1);
      case ')' => if depth > 0 { StringLimit(text, i + 1, depth - 1); }
      case _ => StringLimit(text, i + 1, depth);
    }
  }

  lemma {:induction false} LexLimit(text: seq<char>, i: nat, state: Inner)
    requires i <= |text|
    ensures !LexTooDeep(text, i, state) ==> Lex(text, i, state, WRAP) == Lex(text, i, state, None)
    ensures LexTooDeep(text, i, state) ==> Lex(text, i, state, WRAP).state == SNULL
    decreases |text| - i
  {
    hide NewState, NewAction, ClassOf, StringEnd;
    if i < |text| {
      var s := NewState(state, ClassAt(text, i));
      if s == PAREN {
        if !StringEnd(text, i + 1, 0, WRAP).TooDeep? { StringLimit(text, i + 1, 0); }
      } else if s >= START {
        LexLimit(text, i + 1, s);
      }
    }
  }

  /** The braces open after a lexeme. */
  function Nested(state: nat, nest: nat): nat {
    if state == AXBEG then nest + 1 else if state == AXEND && nest > 0 then nest - 1 else nest
  }

  /** The braces that are open where the first string begins that nests too deep, if there is one. */
  function DeepNest(text: seq<char>, i: nat, nest: nat): (d: Option<nat>)
    requires i <= |text|
    ensures d.None? <==> Shallow(text, i)
    decreases |text| - i
  {
    var lex := Lex(text, i, START, None);
    if LexTooDeep(text, i, START) then Some(nest)
    else if lex.state == SNULL || lex.state == PART then None
    else DeepNest(text, lex.next, Nested(lex.state, nest))
  }

  /**
    At the first string that nests too deep the test ends, and calls the line complete if no brace is open before it.
   */
  lemma {:induction false} DeepComplete(text: seq<char>, i: nat, nest: nat)
    requires i <= |text|
    ensures var d := DeepNest(text, i, nest);
            Complete(text, i, nest, WRAP) <==> if d.Some? then d.value == 0 else Complete(text, i, nest, None)
    decreases |text| - i
  {
    hide Lex, LexTooDeep;
    LexLimit(text, i, START);
    var lex := Lex(text, i, START, None);
    if !LexTooDeep(text, i, START) && lex.state != SNULL && lex.state != PART {
      DeepComplete(text, lex.next, Nested(lex.state, nest));
    }
  }

  /** Reading on with nest braces open: first to the end of the token, then token by token. */
  function ReadOn(text: seq<char>, i: nat, nest: nat): Outcome
    requires i <= |text|
  {
    var r := Token(text, i, nest);
    if r.TokenTo? then Tokens(text, r.next) else r
  }

  /** The last lexeme is a string that never closes, and something follows its opening parenthesis. */
  predicate OpenString(text: seq<char>, i: nat)
    requires i <= |text|
    decreases |text| - i
  {
    var lex := Lex(text, i, START, None);
    lex.state != SNULL && if lex.state == PART then RunsOut(text, i, START) else OpenString(text, lex.next)
  }

  lemma {:induction false} ReadOnMeans(text: seq<char>, i: nat, nest: nat)
    requires i <= |text|
    ensures ReadOn(text, i, nest).Illegal? <==> !AllLegal(text, i)
    ensures ReadOn(text, i, nest).EndOfSource? <==> AllLegal(text, i) && Complete(text, i, nest, None)
    ensures ReadOn(text, i, nest).NullStream? <==> AllLegal(text, i) && OpenString(text, i)
    ensures OpenString(text, i) ==> !Complete(text, i, nest, None)
    decreases |text| - i
  {
    hide Lex, Taken, Legal, RunsOut;
    var lex := Lex(text, i, START, None);
    if lex.state != SNULL && lex.state != PART {
      ReadOnMeans(text, lex.next, Nested(lex.state, nest));
    }
  }

  /** How reading any line ends, and what the test says of it. */
  lemma LineOutcome(text: seq<char>)
    ensures Tokens(text, 0) == EndOfSource <==> AllLegal(text, 0) && Complete(text, 0, 0, None)
    ensures Tokens(text, 0) == NullStream <==> AllLegal(text, 0) && OpenString(text, 0)
    ensures Tokens(text, 0) == Illegal <==> !AllLegal(text, 0)
    ensures Tokens(text, 0) == Unfinished <==> AllLegal(text, 0) && !Complete(text, 0, 0, None) && !OpenString(text, 0)
    ensures var d := DeepNest(text, 0, 0);
            Complete(text, 0, 0, WRAP) <==> if d.Some? then d.value == 0 else Complete(text, 0, 0, None)
  {
    DeepComplete(text, 0, 0);
    ReadOnMeans(text, 0, 0);
  }

  /**
    Of a line in which no string nests too deep: the tokenizer reads it to its end, leaving nothing open and raising
    no error, just when the test calls it complete and its lexemes are legal.  A line that the test accepts never
    leads to a null stream.
   */
  lemma LinePredicts(text: seq<char>)
    requires Shallow(text, 0)
    ensures Tokens(text, 0) == EndOfSource <==> Complete(text, 0, 0, WRAP) && AllLegal(text, 0)
    ensures Tokens(text, 0) == Unfinished || Tokens(text, 0) == NullStream
            <==> !Complete(text, 0, 0, WRAP) && AllLegal(text, 0)
    ensures Tokens(text, 0) == Illegal <==> !AllLegal(text, 0)
    ensures Complete(text, 0, 0, WRAP) ==> Tokens(text, 0) != NullStream
  {
    LineOutcome(text);
    ReadOnMeans(text, 0, 0);
  }

  /**
    Of a line in which a string nests too deep: the test is right about the tokenizer, if the lexemes are legal, just
    when the line is complete exactly if no brace is open before the first such string.
   */
  lemma DeepPredicts(text: seq<char>)
    requires !Shallow(text, 0) && AllLegal(text, 0)
    ensures (Tokens(text, 0) == EndOfSource <==> Complete(text, 0, 0, WRAP))
       <==> (Complete(text, 0, 0, None) <==> DeepNest(text, 0, 0) == Some(0))
  {
    LineOutcome(text);
  }

  // ---------------------------------------------------------------- what the test misses

  lemma {:induction false} AllOpening(text: seq<char>, i: nat, depth: nat)
    requires i <= |text| && forall k :: 0 <= k < |text| ==> text[k] == '('
    ensures StringEnd(text, i, depth, None) == Open
    ensures depth < STATE_RANGE - PAREN <= depth + (|text| - i) ==> StringEnd(text, i, depth, WRAP) == TooDeep
    decreases |text| - i
  {
    if i < |text| {
      AllOpening(text, i + 1, depth + 1);
    }
  }

  /** A line that ends inside a string, as the last line of a file may: what comes of it depends on one character. */
  lemma OpenStringRead()
    ensures Tokens("(a", 0) == NullStream && Tokens("(", 0) == Unfinished
  {
    assert StringEnd("(a", 2, 0, None) == Open && StringEnd("(a", 1, 0, None) == Open;
    assert RunsOut("(a", 0, START) && !RunsOut("(", 0, START);
  }

  /** Such a line is executed: the open string is a token, and no syntax error is raised. */
  method OpenStringUsed() returns (unfinished: bool, raised: bool)
    ensures unfinished && !raised
  {
    var reader := new LineReader("(");
    OpenStringRead();
    var r;
    unfinished, raised, r := reader.ReadLine();
  }

  /** An escape of one digit before an n leaves a newline in the line, after the escape; and so on. */
  method EscapeChangesLine(c: char) returns (line: seq<char>, next: nat)
    requires c in {'n', 't', 'b', 'r', 'f'}
    ensures next == 3 && |line| == 5 && line[..3] == "(\\1" && line[4] == ')'
    ensures line[3] as int == match c case 'n' => 10 case 't' => 9 case 'b' => 8 case 'r' => 13 case 'f' => 12
  {
    var reader := new LineReader("(\\1" + [c] + ")");
    var first := reader.Getc();
    first := reader.Getc();
    assert AfterEscape(reader.line, 2, 0) == StringEnd(reader.line, 3, 0, None) == Closed(5);
    assert OctalDigits(reader.line, 3, 2) == 0 && OctalDigits(reader.line, 2, 3) == 1;
    first := reader.ScanEscape();
    line, next := reader.line, reader.lineIndex;
  }

  /** From 232 opening parentheses on the test calls a line complete that is one open string. */
  lemma DeepStringMissed(n: nat)
    requires n >= 232
    ensures var text := seq(n, i => '('); Complete(text, 0, 0, WRAP) && Tokens(text, 0) == NullStream
  {
    var text := seq(n, i => '(');
    AllOpening(text, 1, 0);
  }
}
