/**
 * `Int16.Parse(string)` as the controller's `enter` command uses it, and the
 * decimal formatting of an integer that the controller's prompt shows.
 */
module Int16Text {
  import opened Optional

  const MinInt16: int := -32768
  const MaxInt16: int := 32767

  predicate InInt16Range(n: int) { MinInt16 <= n <= MaxInt16 }

  /** The white space `NumberStyles.Integer` allows before and after the number. */
  predicate IsNumberWhite(c: char) { ('\t' <= c <= '\r') || c == ' ' }

  predicate IsDigit(c: char) { '0' <= c <= '9' }

  predicate AllDigits(s: string) { forall i :: 0 <= i < |s| ==> IsDigit(s[i]) }

  function DigitValue(c: char): nat
    requires IsDigit(c)
  {
    c as int - '0' as int
  }

  function DigitChar(d: nat): char
    requires d < 10
  {
    ('0' as int + d) as char
  }

  /** The value of a string of decimal digits, most significant first. */
  function DigitsValue(s: string): nat
    requires AllDigits(s)
  {
    if s == [] then 0 else DigitsValue(s[..|s| - 1]) * 10 + DigitValue(s[|s| - 1])
  }

  function StripLeadingWhite(s: string): string {
    if s != [] && IsNumberWhite(s[0]) then StripLeadingWhite(s[1..]) else s
  }

  function StripTrailingWhite(s: string): string {
    if s != [] && IsNumberWhite(s[|s| - 1]) then StripTrailingWhite(s[..|s| - 1]) else s
  }

  /**
   * `Int16.Parse(s)`: optional white space, an optional sign, one or more
   * decimal digits, optional white space. `None` stands for the
   * `FormatException` (not a number) and the `OverflowException` (a number
   * outside -32768..32767) that the parse throws.
   */
  function ParseInt16(s: string): (r: Option<int>)
    ensures r.Some? ==> InInt16Range(r.value)
  {
    var t := StripTrailingWhite(StripLeadingWhite(s));
    var signed := |t| > 0 && (t[0] == '-' || t[0] == '+');
    var digits := if signed then t[1..] else t;
    if digits == [] || !AllDigits(digits) then None
    else
      var magnitude: int := DigitsValue(digits);
      var n: int := if signed && t[0] == '-' then -magnitude else magnitude;
      if InInt16Range(n) then Some(n) else None
  }

  /** The decimal digits of a natural number, without leading zeros. */
  function Decimal(n: nat): (r: string)
    ensures |r| >= 1 && AllDigits(r) && DigitsValue(r) == n
    ensures r[0] != '0' || n == 0
  {
    if n < 10 then [DigitChar(n)]
    else
      var front := Decimal(n / 10);
      var r := front + [DigitChar(n % 10)];
      assert r[..|r| - 1] == front;
      r
  }

  /** `Int32.ToString()`: a minus sign for negative numbers, then the digits. */
  function FormatInt(n: int): (r: string)
    ensures r != [] && (r[0] == '-' <==> n < 0)
    ensures AllDigits(if n < 0 then r[1..] else r)
  {
    if n < 0 then
      var r := "-" + Decimal(-n);
      assert r[1..] == Decimal(-n);
      r
    else Decimal(n)
  }

  /** Parsing what the prompt shows for a 16-bit number gives that number back. */
  lemma ParseFormat(n: int)
    requires InInt16Range(n)
    ensures ParseInt16(FormatInt(n)) == Some(n)
  {
    var s := FormatInt(n);
    assert StripLeadingWhite(s) == s;
    assert StripTrailingWhite(s) == s;
    if n < 0 {
      assert s[1..] == Decimal(-n);
    }
  }

  /**
   * A magnitude beyond 32767 is refused without a sign or with '+', and with
   * '-' it is refused beyond 32768; "-32768" itself is the one accepted.
   */
  lemma ParseRefusesOverflow(s: string)
    requires AllDigits(s) && s != []
    requires DigitsValue(s) > MaxInt16
    ensures ParseInt16(s) == None && ParseInt16("+" + s) == None
    ensures ParseInt16("-" + s) == if DigitsValue(s) == -MinInt16 then Some(MinInt16) else None
  {
    assert StripLeadingWhite(s) == s && StripTrailingWhite(s) == s;
    assert StripLeadingWhite("-" + s) == "-" + s && StripTrailingWhite("-" + s) == "-" + s;
    assert StripLeadingWhite("+" + s) == "+" + s && StripTrailingWhite("+" + s) == "+" + s;
    assert ("-" + s)[1..] == s && ("+" + s)[1..] == s;
  }
}
