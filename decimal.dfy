/**
 * Decimal text of unsigned 64-bit integers: what `UInt64.Parse` accepts (restricted to
 * plain digit strings) and what `UInt64.TryFormat` / string interpolation produce.
 */
module Decimal {
  import opened Wrappers

  /** `UInt64.MaxValue`. */
  const UInt64Max: nat := 18446744073709551615
  /** Number of distinct `ulong` values; increments wrap modulo this. */
  const UInt64Modulus: nat := 18446744073709551616

  predicate IsDigit(c: char) { '0' <= c <= '9' }

  predicate AllDigits(s: string) { forall i :: 0 <= i < |s| ==> IsDigit(s[i]) }

  function DigitChar(d: nat): (c: char)
    requires d < 10
    ensures IsDigit(c) && (c as int) - ('0' as int) == d
  {
    (('0' as int) + d) as char
  }

  /** Value of a digit string, most significant digit first. */
  function DigitsValue(s: string): nat
    requires AllDigits(s)
  {
    if s == [] then 0
    else DigitsValue(s[..|s| - 1]) * 10 + ((s[|s| - 1] as int) - ('0' as int))
  }

  /** Decimal digits of `n` without leading zeros (`"0"` for zero). */
  function ToDigits(n: nat): (s: string)
    ensures |s| >= 1 && AllDigits(s)
  {
    if n < 10 then [DigitChar(n)] else ToDigits(n / 10) + [DigitChar(n % 10)]
  }

  /** `UInt64.Parse` on a digit string: empty or non-digit text is a format error, a value above
      `UInt64.MaxValue` an overflow. */
  function Parse(s: string): (r: Result<nat>)
    ensures r.Ok? <==> s != [] && AllDigits(s) && DigitsValue(s) <= UInt64Max
    ensures r.Ok? ==> r.value == DigitsValue(s) && r.value <= UInt64Max
    ensures r == Err(Overflow) <==> s != [] && AllDigits(s) && DigitsValue(s) > UInt64Max
  {
    if s == [] || !AllDigits(s) then Err(Format)
    else if DigitsValue(s) > UInt64Max then Err(Overflow)
    else Ok(DigitsValue(s))
  }

  function Pow10(k: nat): (p: nat)
    ensures p >= 1
  {
    if k == 0 then 1 else 10 * Pow10(k - 1)
  }

  lemma {:induction false} FormatValue(n: nat)
    ensures DigitsValue(ToDigits(n)) == n
  {
    var s := ToDigits(n);
    if n >= 10 {
      FormatValue(n / 10);
      assert s[..|s| - 1] == ToDigits(n / 10);
    } else {
      assert s[..|s| - 1] == [];
    }
  }

  /** Formatting then parsing gives the number back, for every `ulong`. */
  lemma ParseFormat(n: nat)
    requires n <= UInt64Max
    ensures Parse(ToDigits(n)) == Ok(n)
  {
    FormatValue(n);
  }

  /** A number has exactly `k` decimal digits when it lies in `[10^(k-1), 10^k)`. */
  lemma {:induction false} FormatLength(n: nat, k: nat)
    requires k >= 1 && (k == 1 || Pow10(k - 1) <= n) && n < Pow10(k)
    ensures |ToDigits(n)| == k
  {
    if n >= 10 {
      if k - 1 >= 2 {
        assert Pow10(k - 2) <= n / 10 by {
          assert Pow10(k - 1) == 10 * Pow10(k - 2);
        }
      }
      FormatLength(n / 10, k - 1);
    }
  }

  /** Every `ulong` has at most 20 digits, and `UInt64.MaxValue` has exactly 20. */
  lemma FormatUInt64Length(n: nat)
    requires n <= UInt64Max
    ensures 1 <= |ToDigits(n)| <= 20
    ensures n == UInt64Max ==> |ToDigits(n)| == 20
  {
    assert Pow10(10) == 10000000000;
    Pow10Add(10, 10);
    Pow10Add(9, 10);
    var k := Pow10Bracket(n, 20);
    FormatLength(n, k);
  }

  lemma {:induction false} Pow10Add(a: nat, b: nat)
    ensures Pow10(a + b) == Pow10(a) * Pow10(b)
  {
    if a > 0 {
      Pow10Add(a - 1, b);
    }
  }

  lemma {:induction false} Pow10Bracket(n: nat, m: nat) returns (k: nat)
    requires m >= 1 && n < Pow10(m)
    ensures 1 <= k <= m && (k == 1 || Pow10(k - 1) <= n) && n < Pow10(k)
    ensures n >= Pow10(m - 1) ==> k == m
  {
    if m > 1 && n < Pow10(m - 1) {
      k := Pow10Bracket(n, m - 1);
    } else {
      k := m;
    }
  }
}
