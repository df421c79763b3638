/** Character classes, states and transition tables of the PostScript scanner (PostScript/Adobe/scanner.c). */
module ScannerTables {

  // Classes.
  const EOS := 0
  const CRT := 1
  const DLM := 2
  const COM := 3
  const QOT := 4
  const LPR := 5
  const RPR := 6
  const LBR := 7
  const RBR := 8
  const LBK := 9
  const RBK := 10
  const NME := 11
  const NUM := 12
  const SGN := 13
  const DOT := 14
  const EXP := 15
  const OCT := 16
  const OTH := 17

  type Class = c: nat | c <= OTH

  // Final states.
  const SNULL := 0
  const LNAME := 1
  const XNAME := 2
  const STRG := 3
  const INUM := 4
  const ONUM := 5
  const RNUM := 6
  const AXBEG := 7
  const AXEND := 8
  const ADBEG := 9
  const ADEND := 10
  const OOPS := 11
  const PART := 12
  // States on the way.
  const START := 13
  const COMNT := 14
  const IDENT := 15
  const MSIGN := 16
  const IPART := 17
  const OCTAL := 18
  const POINT := 19
  const FPART := 20
  const EXPON := 21
  const ESIGN := 22
  const EPART := 23
  const LDENT := 24
  /** Inside one level of parentheses; every further level adds one. */
  const PAREN := 25

  /** The states with a row in the tables. */
  type Inner = s: nat | START <= s < PAREN witness START

  datatype Action = Nothing | Skip | Take | Back

  function ClassOf(c: char): (k: Class)
    ensures k != EOS
  {
    if '0' <= c <= '9' then NUM
    else match c
      case '\0' => DLM
      case ' ' => DLM
      case '\t' => DLM
      case '\n' => CRT
      case '\r' => CRT
      case '\\' => QOT
      case '.' => DOT
      case '+' => SGN
      case '-' => SGN
      case 'B' => OCT
      case 'b' => OCT
      case 'E' => EXP
      case 'e' => EXP
      case '(' => LPR
      case ')' => RPR
      case '{' => LBR
      case '}' => RBR
      case '[' => LBK
      case ']' => RBK
      case '/' => NME
      case '%' => COM
      case _ => if c == FORM_FEED then CRT else OTH
  }

  const FORM_FEED: char := 12 as char
  const BACKSPACE: char := 8 as char

  /** The class that ends an identifier or a number. */
  predicate Ends(class_: Class) {
    class_ <= NME
  }

  function NewState(state: Inner, class_: Class): (s: nat)
    ensures s <= PAREN
    ensures class_ == EOS ==> s < START
    ensures s == PAREN ==> state == START && class_ == LPR
    ensures s != PART && (s == SNULL ==> class_ == EOS)
  {
    if state == START then
      match class_
      case 0 => SNULL
      case 1 => START
      case 2 => START
      case 3 => COMNT
      case 4 => IDENT
      case 5 => PAREN
      case 6 => OOPS
      case 7 => AXBEG
      case 8 => AXEND
      case 9 => ADBEG
      case 10 => ADEND
      case 11 => LDENT
      case 12 => IPART
      case 13 => MSIGN
      case 14 => POINT
      case _ => IDENT
    else if state == COMNT then
      if class_ == EOS then SNULL else if class_ == CRT then START else COMNT
    else if state == IDENT then
      if Ends(class_) then XNAME else IDENT
    else if state == MSIGN then
      if Ends(class_) then XNAME else if class_ == NUM then IPART else if class_ == DOT then POINT else IDENT
    else if state == IPART then
      if Ends(class_) then INUM else if class_ == NUM then IPART else if class_ == DOT then FPART
      else if class_ == EXP then EXPON else if class_ == OCT then OCTAL else IDENT
    else if state == OCTAL then
      if Ends(class_) then ONUM else IDENT
    else if state == POINT then
      if Ends(class_) then XNAME else if class_ == NUM then FPART else IDENT
    else if state == FPART then
      if Ends(class_) then RNUM else if class_ == NUM then FPART else if class_ == EXP then EXPON else IDENT
    else if state == EXPON then
      if Ends(class_) then XNAME else if class_ == NUM then EPART else if class_ == SGN then ESIGN else IDENT
    else if state == ESIGN then
      if Ends(class_) then XNAME else if class_ == NUM then EPART else IDENT
    else if state == EPART then
      if Ends(class_) then RNUM else if class_ == NUM then EPART else IDENT
    else
      if Ends(class_) then LNAME else LDENT
  }

  function NewAction(state: Inner, class_: Class): (a: Action)
    ensures a.Back? ==> class_ != EOS && NewState(state, class_) < START && state != START
    ensures class_ == EOS ==> a.Nothing?
    ensures NewState(state, class_) < START && !a.Back? && class_ != EOS ==> state == START
    ensures a.Nothing? ==> class_ == EOS
  {
    if class_ == EOS then Nothing
    else if state == START then
      if class_ in {CRT, DLM, COM, LPR, NME} then Skip else Take
    else if state == COMNT then Skip
    else if Ends(class_) then Back
    else Take
  }
}
