/**
  What the tables of the scanner take for a number or a name (PostScript/Adobe/scanner.c), as a grammar of characters:
  an integer is digits after an optional sign, an octal number an integer followed by a B, and a real number has a point
  or an exponent; any other run of regular characters is a name.
 */
module ScannerNumbers {
  import opened Scanner
  import opened ScannerTables
  import opened Wrappers

  /** Characters that end a name or number: blanks, and those that have a meaning of their own. */
  predicate Breaks(c: char) {
    c in {'\0', ' ', '\t', '\n', '\r', FORM_FEED, '(', ')', '{', '}', '[', ']', '/', '%', '\\'}
  }

  /** The end of the run of other characters from i on. */
  function RunEnd(text: seq<char>, i: nat): (j: nat)
    requires i <= |text|
    ensures i <= j <= |text| && (j < |text| ==> Breaks(text[j])) && forall k :: i <= k < j ==> !Breaks(text[k])
    decreases |text| - i
  {
    if i == |text| || Breaks(text[i]) then i else RunEnd(text, i + 1)
  }

  predicate IsDigit(c: char) {
    '0' <= c <= '9'
  }

  /** The end of the digits from k on, before j. */
  function Digits(text: seq<char>, k: nat, j: nat): (e: nat)
    requires k <= j <= |text|
    ensures k <= e <= j && (e < j ==> !IsDigit(text[e])) && forall m :: k <= m < e ==> IsDigit(text[m])
    decreases j - k
  {
    if k < j && IsDigit(text[k]) then Digits(text, k + 1, j) else k
  }

  /** The place after a sign, if there is one at k. */
  function AfterSign(text: seq<char>, k: nat, j: nat): (e: nat)
    requires k <= j <= |text|
    ensures k <= e <= j && e <= k + 1
  {
    if k < j && (text[k] == '+' || text[k] == '-') then k + 1 else k
  }

  /** The characters from k to j are an exponent: E, an optional sign, and digits. */
  predicate IsExponent(text: seq<char>, k: nat, j: nat)
    requires k <= j <= |text|
  {
    k < j && (text[k] == 'E' || text[k] == 'e')
    && var e := AfterSign(text, k + 1, j);
       e < j && Digits(text, e, j) == j
  }

  predicate IsInteger(text: seq<char>, i: nat, j: nat)
    requires i <= j <= |text|
  {
    var k := AfterSign(text, i, j);
    k < j && Digits(text, k, j) == j
  }

  predicate IsOctal(text: seq<char>, i: nat, j: nat)
    requires i <= j <= |text|
  {
    i < j && (text[j - 1] == 'B' || text[j - 1] == 'b') && IsInteger(text, i, j - 1)
  }

  /** Digits, with a point before, among or after them, and an exponent; one of the two may be missing. */
  predicate IsReal(text: seq<char>, i: nat, j: nat)
    requires i <= j <= |text|
  {
    var a := AfterSign(text, i, j);
    var b := Digits(text, a, j);
    if b < j && text[b] == '.' then
      var c := Digits(text, b + 1, j);
      (b > a || c > b + 1) && (c == j || IsExponent(text, c, j))
    else b > a && IsExponent(text, b, j)
  }

  // ---------------------------------------------------------------- the tables read the grammar

  /** What follows the digits of a number's whole part. */
  function AfterWhole(text: seq<char>, b: nat, j: nat): nat
    requires b <= j <= |text|
  {
    if b == j then INUM
    else if b + 1 == j && (text[b] == 'B' || text[b] == 'b') then ONUM
    else if text[b] == '.' then AfterFraction(text, Digits(text, b + 1, j), j)
    else if IsExponent(text, b, j) then RNUM
    else XNAME
  }

  function AfterFraction(text: seq<char>, c: nat, j: nat): nat
    requires c <= j <= |text|
  {
    if c == j || IsExponent(text, c, j) then RNUM else XNAME
  }

  /** What the run becomes from k on, for each state a number can be in. */
  function KindFrom(text: seq<char>, k: nat, j: nat, state: Inner): nat
    requires k <= j <= |text|
  {
    if state == MSIGN then
      var b := Digits(text, k, j);
      if b > k then AfterWhole(text, b, j)
      else if b < j && text[b] == '.' && Digits(text, b + 1, j) > b + 1 then
        AfterFraction(text, Digits(text, b + 1, j), j)
      else XNAME
    else if state == IPART then AfterWhole(text, Digits(text, k, j), j)
    else if state == OCTAL then if k == j then ONUM else XNAME
    else if state == POINT then
      if Digits(text, k, j) > k then AfterFraction(text, Digits(text, k, j), j) else XNAME
    else if state == FPART then AfterFraction(text, Digits(text, k, j), j)
    else if state == EXPON then
      var e := AfterSign(text, k, j);
      if e < j && Digits(text, e, j) == j then RNUM else XNAME
    else if state == ESIGN then if k < j && Digits(text, k, j) == j then RNUM else XNAME
    else if state == EPART then if Digits(text, k, j) == j then RNUM else XNAME
    else if state == LDENT then LNAME
    else XNAME
  }

  /** The state that a regular character leads to, in a run. */
  lemma RunStep(state: Inner, c: char)
    requires state != START && state != COMNT && !Breaks(c)
    ensures var s := NewState(state, ClassOf(c));
            && NewAction(state, ClassOf(c)).Take?
            && s == if state == IDENT || state == LDENT then state
                    else if state == MSIGN then if IsDigit(c) then IPART else if c == '.' then POINT else IDENT
                    else if state == IPART then
                      if IsDigit(c) then IPART else if c == '.' then FPART
                      else if c == 'E' || c == 'e' then EXPON else if c == 'B' || c == 'b' then OCTAL else IDENT
                    else if state == POINT then if IsDigit(c) then FPART else IDENT
                    else if state == FPART then
                      if IsDigit(c) then FPART else if c == 'E' || c == 'e' then EXPON else IDENT
                    else if state == EXPON then
                      if IsDigit(c) then EPART else if c == '+' || c == '-' then ESIGN else IDENT
                    else if state == ESIGN || state == EPART then if IsDigit(c) then EPART else IDENT
                    else IDENT
  {
  }

  /** The end of a run, at a character that breaks it or at the end of the text. */
  lemma RunStops(state: Inner, class_: Class)
    requires state != START && state != COMNT && Ends(class_)
    ensures NewAction(state, class_).Nothing? || NewAction(state, class_).Back?
    ensures NewState(state, class_)
            == if state == IPART then INUM else if state == OCTAL then ONUM
               else if state == FPART || state == EPART then RNUM else if state == LDENT then LNAME else XNAME
  {
  }

  lemma BreakEnds(c: char)
    ensures Ends(ClassOf(c)) <==> Breaks(c)
  {
  }

  lemma KindAtEnd(text: seq<char>, j: nat, state: Inner)
    requires j <= |text| && state != START && state != COMNT
    ensures KindFrom(text, j, j, state)
            == if state == IPART then INUM else if state == OCTAL then ONUM
               else if state == FPART || state == EPART then RNUM else if state == LDENT then LNAME else XNAME
  {
  }

  /** One character of the grammar is one step of the tables. */
  lemma KindStep(text: seq<char>, k: nat, j: nat, state: Inner)
    requires k < j <= |text| && state != START && state != COMNT && !Breaks(text[k])
    ensures var s := NewState(state, ClassOf(text[k]));
            START < s < PAREN && s != COMNT && KindFrom(text, k, j, state) == KindFrom(text, k + 1, j, s)
  {
    hide NewState, NewAction, ClassOf, Breaks;
    RunStep(state, text[k]);
  }

  lemma LexNext(text: seq<char>, k: nat, state: Inner)
    requires k <= |text|
    ensures var s, a := NewState(state, ClassAt(text, k)), NewAction(state, ClassAt(text, k));
            && (a.Nothing? || a.Back? ==> Lex(text, k, state, None) == Lexeme(s, k) && Taken(text, k, state) == [])
            && (!a.Nothing? && !a.Back? && START <= s < PAREN ==>
                  && k < |text| && Lex(text, k, state, None) == Lex(text, k + 1, s, None)
                  && Taken(text, k, state) == (if a.Take? then [text[k]] else []) + Taken(text, k + 1, s))
            && (!a.Nothing? && !a.Back? && s < START ==>
                  k < |text| && Lex(text, k, state, None) == Lexeme(s, k + 1)
                  && Taken(text, k, state) == if a.Take? then [text[k]] else [])
  {
    hide NewState, NewAction, ClassOf, StringEnd;
  }

  /** The tables end where the run ends, with what the grammar says, and take all its characters. */
  lemma {:induction false} RunLexed(text: seq<char>, k: nat, j: nat, state: Inner)
    requires k <= |text| && j == RunEnd(text, k) && state != START && state != COMNT
    ensures Lex(text, k, state, None) == Lexeme(KindFrom(text, k, j, state), j)
    ensures Taken(text, k, state) == text[k..j]
    decreases j - k
  {
    hide NewState, NewAction, ClassOf, Lex, Taken, KindFrom, Breaks;
    LexNext(text, k, state);
    if k == j {
      if k < |text| { BreakEnds(text[k]); }
      RunStops(state, ClassAt(text, k));
      KindAtEnd(text, j, state);
    } else {
      RunStep(state, text[k]);
      KindStep(text, k, j, state);
      RunLexed(text, k + 1, j, NewState(state, ClassOf(text[k])));
      assert text[k..j] == [text[k]] + text[k + 1..j];
    }
  }

  /** What a run of regular characters is: an integer, an octal number, a real number, or a name. */
  function Kind(text: seq<char>, i: nat, j: nat): nat
    requires i <= j <= |text|
  {
    if IsInteger(text, i, j) then INUM
    else if IsOctal(text, i, j) then ONUM
    else if IsReal(text, i, j) then RNUM
    else XNAME
  }

  /** The state after the first character of a run. */
  lemma FirstStep(c: char)
    requires !Breaks(c)
    ensures NewAction(START, ClassOf(c)).Take?
    ensures NewState(START, ClassOf(c))
            == if IsDigit(c) then IPART else if c == '+' || c == '-' then MSIGN else if c == '.' then POINT else IDENT
  {
  }

  lemma {:induction false} DigitsBefore(text: seq<char>, k: nat, b: nat, j: nat)
    requires k <= b <= j <= |text| && Digits(text, k, j) == b
    ensures forall m :: b <= m <= j ==> Digits(text, k, m) == b
    ensures forall m :: k <= m <= b ==> Digits(text, k, m) == m
    decreases b - k
  {
    if k < b {
      DigitsBefore(text, k + 1, b, j);
    }
  }

  /** An integer, octal or real number is told by what follows the digits of its whole part. */
  lemma WholeFirst(text: seq<char>, i: nat, a: nat, b: nat, j: nat)
    requires i < j <= |text| && a == AfterSign(text, i, j) && b == Digits(text, a, j)
    ensures b > a ==> Kind(text, i, j) == AfterWhole(text, b, j)
    ensures b == a ==>
              Kind(text, i, j)
              == if b < j && text[b] == '.' && Digits(text, b + 1, j) > b + 1 then
                   AfterFraction(text, Digits(text, b + 1, j), j)
                 else XNAME
  {
    hide Breaks;
    DigitsBefore(text, a, b, j);
    if j - 1 >= a {
      assert AfterSign(text, i, j - 1) == if i < j - 1 then a else i;
    }
  }

  lemma FirstKind(text: seq<char>, i: nat, j: nat)
    requires i < j <= |text|
    ensures var c := text[i];
            var s := if IsDigit(c) then IPART else if c == '+' || c == '-' then MSIGN
                     else if c == '.' then POINT else IDENT;
            Kind(text, i, j) == KindFrom(text, i + 1, j, s)
  {
    hide Breaks, Kind, AfterWhole, AfterFraction;
    var a := AfterSign(text, i, j);
    WholeFirst(text, i, a, Digits(text, a, j), j);
  }

  /** The lexeme of a run that starts a token. */
  lemma NumbersAndNames(text: seq<char>, i: nat, j: nat)
    requires i < |text| && !Breaks(text[i]) && j == RunEnd(text, i)
    ensures Lex(text, i, START, None) == Lexeme(Kind(text, i, j), j)
    ensures Taken(text, i, START) == text[i..j]
  {
    hide NewState, NewAction, ClassOf, Lex, Taken, Breaks, Kind, KindFrom;
    LexNext(text, i, START);
    FirstStep(text[i]);
    RunLexed(text, i + 1, j, NewState(START, ClassOf(text[i])));
    assert text[i..j] == [text[i]] + text[i + 1..j];
    FirstKind(text, i, j);
  }

  /** Without its sign an octal number is digits and the B. */
  lemma OctalDigits(text: seq<char>, i: nat, j: nat)
    requires i <= j <= |text| && IsOctal(text, i, j)
    ensures var a := AfterSign(text, i, j - 1);
            a < j - 1 && Unsigned(text[i..j]) == text[a..j] && forall k :: a <= k < j - 1 ==> IsDigit(text[k])
  {
    var a := AfterSign(text, i, j - 1);
    assert IsDigit(text[a]);
    assert text[i..j][0] == text[i] && text[i..j][1..] == text[i + 1..j];
  }

  /** An octal number is accepted just if it has no 8 and no 9; a name just if it has no more than 31 characters. */
  lemma LegalTexts(text: seq<char>, i: nat, j: nat)
    requires i <= j <= |text|
    ensures IsOctal(text, i, j) ==> (Legal(ONUM, text[i..j]) <==> '8' !in text[i..j] && '9' !in text[i..j])
    ensures Legal(XNAME, text[i..j]) <==> j - i <= 31
    ensures Legal(LNAME, text[i..j]) <==> j - i <= 31
    ensures Legal(INUM, text[i..j]) && Legal(RNUM, text[i..j])
  {
    if IsOctal(text, i, j) {
      var run, a := text[i..j], AfterSign(text, i, j - 1);
      var digits := Unsigned(run);
      assert digits == text[a..j] by { OctalDigits(text, i, j); }
      assert forall k :: 0 <= k < |digits| - 1 ==> digits[k] == text[a + k] && IsDigit(text[a + k]);
      if c :| c in run && (c == '8' || c == '9') {
        var m :| 0 <= m < |run| && run[m] == c;
        assert text[i + m] == c && a <= i + m < j - 1;
        assert digits[i + m - a] == c;
      }
      forall k | 0 <= k < |digits| - 1 && digits[k] > '7' ensures '8' in run || '9' in run {
        assert run[a + k - i] == digits[k];
      }
    }
  }

  /** A literal name: a slash, and the run after it, which may be empty. */
  lemma LiteralNames(text: seq<char>, i: nat, j: nat)
    requires i < |text| && text[i] == '/' && j == RunEnd(text, i + 1)
    ensures Lex(text, i, START, None) == Lexeme(LNAME, j)
    ensures Taken(text, i, START) == text[i + 1..j]
  {
    hide Lex, Taken;
    LexNext(text, i, START);
    RunLexed(text, i + 1, j, LDENT);
    assert [] + text[i + 1..j] == text[i + 1..j];
  }

  /** A backslash outside strings begins a name. */
  lemma BackslashNames(text: seq<char>, i: nat, j: nat)
    requires i < |text| && text[i] == '\\' && j == RunEnd(text, i + 1)
    ensures Lex(text, i, START, None) == Lexeme(XNAME, j)
    ensures Taken(text, i, START) == text[i..j]
  {
    hide Lex, Taken;
    LexNext(text, i, START);
    RunLexed(text, i + 1, j, IDENT);
    assert text[i..j] == [text[i]] + text[i + 1..j];
  }

  /** Blanks are skipped, and brackets, braces and a lone closing parenthesis are tokens of one character. */
  lemma OtherCharacters(text: seq<char>, i: nat)
    requires i < |text|
    ensures text[i] in {'\0', ' ', '\t', '\n', '\r', FORM_FEED} ==>
              Lex(text, i, START, None) == Lex(text, i + 1, START, None)
    ensures text[i] == '[' ==> Lex(text, i, START, None) == Lexeme(ADBEG, i + 1)
    ensures text[i] == ']' ==> Lex(text, i, START, None) == Lexeme(ADEND, i + 1)
    ensures text[i] == '{' ==> Lex(text, i, START, None) == Lexeme(AXBEG, i + 1)
    ensures text[i] == '}' ==> Lex(text, i, START, None) == Lexeme(AXEND, i + 1)
    ensures text[i] == ')' ==> Lex(text, i, START, None) == Lexeme(OOPS, i + 1)
  {
    hide Lex, Taken;
    LexNext(text, i, START);
  }

  // ---------------------------------------------------------------- what the test misses

  /** A line that is one run of regular characters is complete for the test; the tokenizer goes by its kind. */
  lemma OneRun(text: seq<char>)
    requires text != [] && forall c :: c in text ==> !Breaks(c)
    ensures Complete(text, 0, 0, WRAP)
    ensures Tokens(text, 0) == if Legal(Kind(text, 0, |text|), text) then EndOfSource else Illegal
  {
    hide Lex, Taken, Kind, Legal, Complete;
    assert text[0] in text && RunEnd(text, 0) == |text|;
    NumbersAndNames(text, 0, |text|);
    KindIs(text);
    assert text[0..|text|] == text;
    NoBraces(text, 0);
    BracesDecide(text, 0, 0);
    AtTheEnd(text);
  }

  lemma KindIs(text: seq<char>)
    ensures Kind(text, 0, |text|) in {INUM, ONUM, RNUM, XNAME}
  {
  }

  lemma {:induction false} NoBraces(text: seq<char>, i: nat)
    requires i <= |text| && forall c :: c in text ==> !Breaks(c)
    ensures BracesOpen(text, i, 0) == 0 && '(' !in text && '%' !in text
    decreases |text| - i
  {
    if i < |text| {
      assert text[i] in text;
      NoBraces(text, i + 1);
    }
  }

  /** An octal number with an 8 or a 9 is complete for the test, and MakeOctal refuses it. */
  lemma OctalMissed(text: seq<char>)
    requires text != [] && (forall c :: c in text ==> !Breaks(c)) && IsOctal(text, 0, |text|)
    requires '8' in text || '9' in text
    ensures Complete(text, 0, 0, WRAP) && Tokens(text, 0) == Illegal
  {
    OneRun(text);
    LegalTexts(text, 0, |text|);
    assert text[0..|text|] == text;
    OctalDigits(text, 0, |text|);
    assert !IsDigit(text[|text| - 1]);
  }

  /** For instance 8B. */
  lemma EightMissed()
    ensures Complete("8B", 0, 0, WRAP) && Tokens("8B", 0) == Illegal
  {
    assert Digits("8B", 1, 1) == 1 && Digits("8B", 0, 1) == 1;
    OctalMissed("8B");
  }

  /** A name of more than 31 characters is complete for the test, and MakeName refuses it; a shorter one is read. */
  lemma LongNameMissed(text: seq<char>)
    requires text != [] && (forall c :: c in text ==> !Breaks(c)) && Kind(text, 0, |text|) == XNAME
    ensures Complete(text, 0, 0, WRAP) && Tokens(text, 0) == if |text| > 31 then Illegal else EndOfSource
  {
    hide Kind;
    OneRun(text);
  }

  /** For instance n letters. */
  lemma LettersMissed(n: nat)
    requires n > 31
    ensures var text := seq(n, i => 'a'); Complete(text, 0, 0, WRAP) && Tokens(text, 0) == Illegal
  {
    var text := seq(n, i => 'a');
    assert AfterSign(text, 0, n) == 0 && Digits(text, 0, n) == 0 && AfterSign(text, 0, n - 1) == 0;
    LongNameMissed(text);
  }
}
