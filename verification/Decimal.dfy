/** Decimal numerals as byte strings.

    A numeral's value is an unbounded natural number, so comparing numerals by length and
    first difference can be compared with comparing numbers. Printing and parsing are those
    of Go's 64-bit integers: an optional sign, at least one digit, and an error outside the
    range. */
module Decimal {
  import opened Wrappers

  type Byte = c: char | c as int < 256

  type Bytes = seq<Byte>

  predicate IsDigit(c: Byte) {
    '0' <= c <= '9'
  }

  function DigitRun(s: Bytes): (n: nat)
    ensures n <= |s| && (n < |s| ==> !IsDigit(s[n]))
    ensures forall i :: 0 <= i < n ==> IsDigit(s[i])
  {
    if s != [] && IsDigit(s[0]) then 1 + DigitRun(s[1..]) else 0
  }

  predicate Digits(s: Bytes) {
    forall i :: 0 <= i < |s| ==> IsDigit(s[i])
  }

  function Value(s: Bytes): nat
    requires Digits(s)
  {
    if s == [] then 0 else 10 * Value(s[..|s| - 1]) + (s[|s| - 1] as int - '0' as int)
  }

  function Sign(n: int): int {
    if n < 0 then -1 else if n > 0 then 1 else 0
  }

  function Pow10(n: nat): (p: nat)
    ensures p >= 1
  {
    if n == 0 then 1 else 10 * Pow10(n - 1)
  }

  lemma {:induction false} ValueBound(s: Bytes)
    requires Digits(s)
    ensures Value(s) < Pow10(|s|)
    ensures s != [] && s[0] != '0' ==> Value(s) >= Pow10(|s| - 1)
  {
    if s != [] { ValueBound(s[..|s| - 1]); }
  }

  lemma {:induction false} Pow10Grows(m: nat, n: nat)
    requires m <= n
    ensures Pow10(m) <= Pow10(n)
  {
    if m < n { Pow10Grows(m, n - 1); }
  }

  lemma LongerNumberIsLarger(x: Bytes, y: Bytes)
    requires Digits(x) && Digits(y) && |x| > |y| && x[0] != '0'
    ensures Value(x) > Value(y)
  {
    ValueBound(x);
    ValueBound(y);
    Pow10Grows(|y|, |x| - 1);
  }

  lemma {:induction false} LeadingZero(s: Bytes)
    requires Digits(s) && s != [] && s[0] == '0'
    ensures Value(s) == Value(s[1..])
  {
    if |s| > 1 {
      LeadingZero(s[..|s| - 1]);
      assert s[1..][..|s| - 2] == s[..|s| - 1][1..];
    } else {
      assert s[..0] == s[1..] == [];
    }
  }

  /** Position `k` of a digit run holds a digit exactly when the run reaches past it. */
  lemma InsideRun(s: Bytes, k: nat)
    requires k <= DigitRun(s)
    ensures k < DigitRun(s) <==> k < |s| && IsDigit(s[k])
  {
  }

  lemma ExtendValue(s: Bytes, k: nat)
    requires k < |s| && Digits(s[..k]) && IsDigit(s[k])
    ensures Digits(s[..k + 1]) && Value(s[..k + 1]) == 10 * Value(s[..k]) + (s[k] as int - '0' as int)
  {
    assert s[..k + 1][..k] == s[..k];
  }

  // ----- printing and parsing -----

  function Digit(n: nat): Byte
    requires n < 10
  {
    ('0' as int + n) as char
  }

  function FormatNat(n: nat): (s: Bytes)
    ensures Digits(s) && s != []
  {
    if n < 10 then [Digit(n)] else FormatNat(n / 10) + [Digit(n % 10)]
  }

  function FormatInt(n: int): Bytes {
    if n < 0 then ['-'] + FormatNat(-n) else FormatNat(n)
  }

  const MIN_INT64: int := -0x8000_0000_0000_0000
  const MAX_INT64: int := 0x7fff_ffff_ffff_ffff

  predicate IsInt64(n: int) {
    MIN_INT64 <= n <= MAX_INT64
  }

  predicate IsSign(c: Byte) {
    c == '+' || c == '-'
  }

  /** An optional sign and at least one digit, in the range of an int64. */
  function ParseInt(s: Bytes): Option<int> {
    var digits := if s != [] && IsSign(s[0]) then s[1..] else s;
    if digits == [] || !Digits(digits) then None
    else
      var n: int := if s[0] == '-' then 0 - Value(digits) else Value(digits);
      if IsInt64(n) then Some(n) else None
  }

  /** Exactly the texts that stand for a number of the range. */
  lemma ParseIntIff(s: Bytes, n: int)
    ensures ParseInt(s) == Some(n) <==>
      IsInt64(n) && exists d: Bytes :: Numeral(d) && ((s in {d, ['+'] + d} && n == Value(d)) || (s == ['-'] + d && -n == Value(d)))
  {
    hide Value;
    if ParseInt(s) == Some(n) {
      var d := if IsSign(s[0]) then s[1..] else s;
      assert IsSign(s[0]) ==> s == [s[0]] + d;
      assert Numeral(d);
    }
    if d: Bytes :| Numeral(d) && ((s in {d, ['+'] + d} && n == Value(d)) || (s == ['-'] + d && -n == Value(d))) {
      assert s != d ==> s[1..] == d;
      assert s == d ==> s[0] == d[0] && IsDigit(d[0]);
    }
  }

  predicate Numeral(d: Bytes) {
    d != [] && Digits(d)
  }

  lemma {:induction false} FormatNatValue(n: nat)
    ensures Value(FormatNat(n)) == n
  {
    if n >= 10 { FormatNatValue(n / 10); }
    var s := FormatNat(n);
    assert n >= 10 ==> s[..|s| - 1] == FormatNat(n / 10);
  }

  lemma ParseFormat(n: int)
    requires IsInt64(n)
    ensures ParseInt(FormatInt(n)) == Some(n)
  {
    var s := FormatInt(n);
    FormatNatValue(if n < 0 then -n else n);
    if n < 0 { assert s[1..] == FormatNat(-n); }
  }

  lemma {:induction false} FormatNatLength(n: nat, k: nat)
    requires n < Pow10(k) && k > 0
    ensures |FormatNat(n)| <= k
  {
    if n >= 10 { FormatNatLength(n / 10, k - 1); }
  }

  /** No int64 takes more than 20 columns, sign included. */
  lemma Int64FitsTwentyColumns(n: int)
    requires IsInt64(n)
    ensures |FormatInt(n)| <= 20
  {
    assert Pow10(10) == 10_000_000_000;
    assert Pow10(19) == 10_000_000_000_000_000_000 by {
      assert Pow10(13) == 10_000_000_000_000 && Pow10(16) == 10_000_000_000_000_000;
    }
    FormatNatLength(if n < 0 then -n else n, 19);
  }
}
