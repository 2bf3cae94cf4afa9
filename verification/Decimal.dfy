/** Decimal numerals as strconv prints and reads them, and the digit counter of the size functions. */
module Decimal {
  import opened Octets
  import opened Text

  const MIN_INT64: int := -0x8000_0000_0000_0000
  const MAX_INT64: int := 0x7FFF_FFFF_FFFF_FFFF

  type int64 = x: int | MIN_INT64 <= x <= MAX_INT64

  predicate IsDigit(c: char) {
    '0' <= c <= '9'
  }

  predicate AllDigits(s: string) {
    forall i :: 0 <= i < |s| ==> IsDigit(s[i])
  }

  function Digit(d: nat): (c: char)
    requires d < 10
    ensures IsDigit(c)
  {
    '0' + d as char
  }

  function Numeral(n: nat): (s: string)
    ensures |s| >= 1 && AllDigits(s)
  {
    if n < 10 then [Digit(n)] else Numeral(n / 10) + [Digit(n % 10)]
  }

  /** strconv.AppendInt(..., 10). */
  function Dec(n: int): (s: string)
    ensures s != "" && '!' <= s[0] <= '~' && '!' <= s[|s| - 1] <= '~'
    ensures forall i :: 0 <= i < |s| ==> IsDigit(s[i]) || s[i] == '-'
  {
    if n < 0 then "-" + Numeral(-n) else Numeral(n)
  }

  function Value(s: string): (n: nat)
    requires AllDigits(s)
  {
    if s == "" then 0 else 10 * Value(s[..|s| - 1]) + (s[|s| - 1] - '0') as nat
  }

  /** strconv.Atoi and ParseInt(..., 10, 64) on a 64-bit platform: an optional sign, then digits, in range. */
  function Atoi(s: string): (r: Option<int64>) {
    var neg := s != "" && s[0] == '-';
    var digits := if neg || (s != "" && s[0] == '+') then s[1..] else s;
    if digits == "" || !AllDigits(digits) then None
    else
      var v: int := if neg then 0 - Value(digits) as int else Value(digits) as int;
      if MIN_INT64 <= v <= MAX_INT64 then Some(v) else None
  }

  lemma {:induction false} NumeralReadsBack(n: nat)
    ensures Value(Numeral(n)) == n
  {
    var s := Numeral(n);
    if n < 10 {
      assert s[..|s| - 1] == "";
    } else {
      NumeralReadsBack(n / 10);
      assert s[..|s| - 1] == Numeral(n / 10);
    }
  }

  lemma DecReadsBack(n: int64)
    ensures Atoi(Dec(n)) == Some(n)
    ensures Trimmed(Dec(n))
  {
    var m: nat := if n < 0 then -(n as int) else n as int;
    NumeralReadsBack(m);
    assert n < 0 ==> Dec(n)[1..] == Numeral(m);
    assert Numeral(m)[0] != '-' && Numeral(m)[0] != '+';
    PlainEndsTrimmed(Dec(n));
  }

  /** strconv.Atoi reads a sign, or none, and digits, where the number is in range. */
  lemma AtoiReads(sign: string, digits: string)
    requires sign == "" || sign == "+" || sign == "-"
    requires digits != "" && AllDigits(digits)
    ensures var n: int := if sign == "-" then 0 - Value(digits) as int else Value(digits) as int;
      Atoi(sign + digits) == if -0x8000_0000_0000_0000 <= n <= 0x7FFF_FFFF_FFFF_FFFF then Some(n) else None
  {
    hide Value;
    var s := sign + digits;
    assert IsDigit(digits[0]);
    assert sign != "" ==> s[1..] == digits;
    assert sign == "" ==> s == digits;
  }

  /** It reads nothing else. */
  lemma AtoiOnly(s: string)
    requires Atoi(s).Some?
    ensures s != ""
    ensures var digits := if s[0] == '-' || s[0] == '+' then s[1..] else s; digits != "" && AllDigits(digits)
  {
  }

  /** Zeros in front of digits do not count. */
  lemma {:induction false} LeadingZero(s: string)
    requires AllDigits(s)
    ensures AllDigits("0" + s) && Value("0" + s) == Value(s)
    decreases |s|
  {
    var t := "0" + s;
    if s == "" {
      assert t[..0] == "";
    } else {
      assert t[..|t| - 1] == "0" + s[..|s| - 1];
      LeadingZero(s[..|s| - 1]);
    }
  }

  /** Digits counted by intLen. */
  function DigitCount(n: int): (k: nat) {
    if n == 0 then 1 else if n < 0 then 0 else |Numeral(n)|
  }

  /** intLen, which loops over the quotients. */
  method IntLen(n: int64) returns (count: nat)
    ensures count == DigitCount(n)
  {
    if n == 0 { return 1; }
    count := 0;
    var m: int := n;
    while m > 0
      invariant n < 0 ==> m == n && count == 0
      invariant n > 0 ==> m >= 0 && count + (if m == 0 then 0 else |Numeral(m)|) == |Numeral(n)|
      decreases m
    {
      count := count + 1;
      m := m / 10;
    }
  }
}
