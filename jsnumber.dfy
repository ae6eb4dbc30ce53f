/** Whether `Number(key)` is a number rather than NaN: the test `setByPath`
    uses to choose between creating an array and creating a plain object for a
    missing key. This follows the ECMAScript StringNumericLiteral grammar
    (section 7.1.4.1 of ECMA-262): surrounding white space and line
    terminators are ignored, an empty or blank string converts to 0, and the
    rest must be a signed or unsigned decimal literal, `Infinity`, or a
    `0b`/`0o`/`0x` integer. */
module JsNumber {

  /** StrWhiteSpaceChar: white space (including the Zs category) and line terminators. */
  predicate IsStrWhiteSpaceChar(c: char) {
    c == '\t' || c == '\U{000B}' || c == '\U{000C}' || c == ' ' || c == '\U{00A0}' || c == '\U{FEFF}' ||
    c == '\n' || c == '\r' || c == '\U{2028}' || c == '\U{2029}' ||
    c == '\U{1680}' || ('\U{2000}' <= c <= '\U{200A}') || c == '\U{202F}' || c == '\U{205F}' || c == '\U{3000}'
  }

  /** Drops leading white space. */
  function TrimStart(s: string): (t: string)
    ensures |t| <= |s| && t == s[|s| - |t|..]
    ensures t == [] || !IsStrWhiteSpaceChar(t[0])
    ensures forall i :: 0 <= i < |s| - |t| ==> IsStrWhiteSpaceChar(s[i])
  {
    if s != [] && IsStrWhiteSpaceChar(s[0]) then TrimStart(s[1..]) else s
  }

  /** Drops trailing white space. */
  function TrimEnd(s: string): (t: string)
    ensures |t| <= |s| && t == s[..|t|]
    ensures t == [] || !IsStrWhiteSpaceChar(t[|t| - 1])
    ensures forall i :: |t| <= i < |s| ==> IsStrWhiteSpaceChar(s[i])
  {
    if s != [] && IsStrWhiteSpaceChar(s[|s| - 1]) then TrimEnd(s[..|s| - 1]) else s
  }

  function Trim(s: string): string {
    TrimEnd(TrimStart(s))
  }

  predicate IsDecimalDigit(c: char) {
    '0' <= c <= '9'
  }

  /** Length of the run of decimal digits that starts the string. */
  function DigitRun(s: string): (n: nat)
    ensures n <= |s|
    ensures forall i :: 0 <= i < n ==> IsDecimalDigit(s[i])
    ensures n == |s| || !IsDecimalDigit(s[n])
  {
    if s != [] && IsDecimalDigit(s[0]) then 1 + DigitRun(s[1..]) else 0
  }

  predicate IsDigits(s: string) {
    |s| > 0 && DigitRun(s) == |s|
  }

  /** ExponentPart: `e` or `E`, an optional sign, then digits. */
  predicate IsExponentPart(s: string) {
    |s| >= 2 && (s[0] == 'e' || s[0] == 'E') &&
    var t := s[1..];
    if t[0] == '+' || t[0] == '-' then IsDigits(t[1..]) else IsDigits(t)
  }

  predicate IsOptionalExponent(s: string) {
    s == [] || IsExponentPart(s)
  }

  /** StrUnsignedDecimalLiteral: `Infinity`, `digits[.digits][exp]` or `.digits[exp]`. */
  predicate IsUnsignedDecimal(s: string) {
    s == "Infinity" ||
    var a := DigitRun(s);
    var rest := s[a..];
    if rest != [] && rest[0] == '.' then
      var frac := rest[1..];
      var b := DigitRun(frac);
      (a > 0 || b > 0) && IsOptionalExponent(frac[b..])
    else
      a > 0 && IsOptionalExponent(rest)
  }

  /** StrDecimalLiteral: an unsigned decimal literal with an optional sign. */
  predicate IsDecimalLiteral(s: string) {
    IsUnsignedDecimal(s) || (s != [] && (s[0] == '+' || s[0] == '-') && IsUnsignedDecimal(s[1..]))
  }

  predicate AllIn(s: string, lo: char, hi: char) {
    forall i :: 0 <= i < |s| ==> lo <= s[i] <= hi
  }

  /** NonDecimalIntegerLiteral: `0b`, `0o` or `0x` and at least one digit of that base. */
  predicate IsNonDecimalInteger(s: string) {
    |s| >= 3 && s[0] == '0' &&
    var ds := s[2..];
    ((s[1] == 'b' || s[1] == 'B') && AllIn(ds, '0', '1')) ||
    ((s[1] == 'o' || s[1] == 'O') && AllIn(ds, '0', '7')) ||
    ((s[1] == 'x' || s[1] == 'X') && forall i :: 0 <= i < |ds| ==>
       '0' <= ds[i] <= '9' || 'a' <= ds[i] <= 'f' || 'A' <= ds[i] <= 'F')
  }

  /** `!Number.isNaN(Number(key))`. */
  predicate IsNumericKey(key: string) {
    var t := Trim(key);
    t == [] || IsDecimalLiteral(t) || IsNonDecimalInteger(t)
  }

  /** An empty or blank key converts to 0, so it counts as numeric. */
  lemma BlankKeyIsNumeric(key: string)
    requires forall i :: 0 <= i < |key| ==> IsStrWhiteSpaceChar(key[i])
    ensures IsNumericKey(key)
  {
    BlankTrimsToEmpty(key);
  }

  lemma {:induction false} BlankTrimsToEmpty(s: string)
    requires forall i :: 0 <= i < |s| ==> IsStrWhiteSpaceChar(s[i])
    ensures TrimStart(s) == []
  {
    if s != [] {
      BlankTrimsToEmpty(s[1..]);
    }
  }

  /** Trimming leaves a string that starts and ends with non-blank characters unchanged. */
  lemma TrimUnchanged(s: string)
    requires s != [] && !IsStrWhiteSpaceChar(s[0]) && !IsStrWhiteSpaceChar(s[|s| - 1])
    ensures Trim(s) == s
  {
    assert TrimStart(s) == s;
  }

  /** Trimming keeps a leading non-blank character in front. */
  lemma TrimKeepsFirst(s: string)
    requires s != [] && !IsStrWhiteSpaceChar(s[0])
    ensures Trim(s) != [] && Trim(s)[0] == s[0]
  {
    assert TrimStart(s) == s;
  }

  /** An array index such as `0` or `12` is numeric. */
  lemma DigitKeyIsNumeric(key: string)
    requires IsDigits(key)
    ensures IsNumericKey(key)
  {
    TrimUnchanged(key);
    assert key[DigitRun(key)..] == [];
    assert IsUnsignedDecimal(key);
  }

  /** A key that starts with a letter other than `I` (which could begin
      `Infinity`) is not numeric, so a missing key such as `title` gets a
      plain object. */
  lemma WordKeyIsNotNumeric(key: string)
    requires key != [] && key[0] != 'I'
    requires 'a' <= key[0] <= 'z' || 'A' <= key[0] <= 'Z'
    ensures !IsNumericKey(key)
  {
    TrimKeepsFirst(key);
    LetterIsNotNumber(Trim(key));
  }

  lemma LetterIsNotNumber(t: string)
    requires t != [] && t[0] != 'I'
    requires 'a' <= t[0] <= 'z' || 'A' <= t[0] <= 'Z'
    ensures !IsDecimalLiteral(t) && !IsNonDecimalInteger(t)
  {
    assert DigitRun(t) == 0;
    assert t[0..] == t;
  }
}
