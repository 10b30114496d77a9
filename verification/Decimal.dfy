/** Unsigned decimals: what the emitter writes and the parsers accept. */
module Decimal {
  import opened Wrappers
  import opened Bytes

  const U64_MAX: nat := 0xFFFF_FFFF_FFFF_FFFF

  /** `usize` on the supported 64-bit targets. */
  const USIZE_MAX: nat := U64_MAX

  /** No slice is longer than this. */
  const ISIZE_MAX: nat := 0x7FFF_FFFF_FFFF_FFFF

  const U64_DIGITS_MAX: nat := 20

  predicate IsDigit(b: Byte) {
    ZERO <= b <= ZERO + 9
  }

  predicate AllDigits(s: Bytes) {
    forall i | 0 <= i < |s| :: IsDigit(s[i])
  }

  function Value(s: Bytes): nat
    requires AllDigits(s)
  {
    if s == [] then 0 else 10 * Value(s[..|s| - 1]) + (s[|s| - 1] - ZERO)
  }

  function Digits(n: nat): (s: Bytes)
    ensures s != []
  {
    if n < 10 then [ZERO + n] else Digits(n / 10) + [ZERO + n % 10]
  }

  /** A number exactly when the bytes are a non-empty run of digits whose value fits 64 bits. */
  function ParseDecimal(s: Bytes): Option<nat> {
    if s != [] && AllDigits(s) && Value(s) <= U64_MAX then Some(Value(s)) else None
  }

  // -------------------------------------------------------------- properties

  lemma {:induction false} DigitsValue(n: nat)
    ensures AllDigits(Digits(n)) && Value(Digits(n)) == n
  {
    if n >= 10 {
      DigitsValue(n / 10);
      assert Digits(n)[..|Digits(n)| - 1] == Digits(n / 10);
    } else {
      assert Digits(n)[..0] == [];
    }
  }

  /** Printing then parsing is the identity on all of u64. */
  lemma DecimalRoundTrip(n: nat)
    requires n <= U64_MAX
    ensures ParseDecimal(Digits(n)) == Some(n)
  {
    DigitsValue(n);
  }

  function Pow10(k: nat): nat {
    if k == 0 then 1 else 10 * Pow10(k - 1)
  }

  lemma {:induction false} DigitCount(n: nat, k: nat)
    requires k >= 1 && n < Pow10(k)
    ensures |Digits(n)| <= k
  {
    if n >= 10 {
      assert Pow10(1) == 10;
      DigitCount(n / 10, k - 1);
    }
  }

  /** The digit buffer of 20 bytes is large enough for every u64. */
  lemma TwentyDigits(n: nat)
    requires n <= U64_MAX
    ensures |Digits(n)| <= U64_DIGITS_MAX
  {
    assert Pow10(5) == 100000;
    assert Pow10(10) == 100000 * 100000;
    assert Pow10(15) == 100000 * Pow10(10);
    assert Pow10(20) == 100000 * Pow10(15);
    DigitCount(n, 20);
  }

  lemma {:induction false} ValueBound(s: Bytes)
    requires AllDigits(s)
    ensures Value(s) < Pow10(|s|)
  {
    if s != [] {
      ValueBound(s[..|s| - 1]);
    }
  }

  /** A decimal with leading zeros is never shorter than the number printed. */
  lemma DigitsShortest(s: Bytes)
    requires s != [] && AllDigits(s)
    ensures |Digits(Value(s))| <= |s|
  {
    ValueBound(s);
    DigitCount(Value(s), |s|);
  }

  lemma {:induction false} ValueGrows(s: Bytes, n: nat)
    requires AllDigits(s) && n <= |s|
    ensures AllDigits(s[..n]) && Value(s[..n]) <= Value(s)
  {
    if n < |s| {
      ValueGrows(s[..|s| - 1], n);
      assert s[..|s| - 1][..n] == s[..n];
    } else {
      assert s[..n] == s;
    }
  }

  /** `parse_u64` and `parse_usize`: one pass with checked arithmetic. */
  method ParseU64(s: Bytes) returns (r: Option<nat>)
    ensures r == ParseDecimal(s)
  {
    if s == [] {
      return None;
    }
    var n := 0;
    for i := 0 to |s|
      invariant AllDigits(s[..i]) && n == Value(s[..i]) <= U64_MAX
    {
      if !IsDigit(s[i]) {
        return None;
      }
      assert s[..i + 1][..i] == s[..i];
      if 10 * n > U64_MAX || 10 * n + (s[i] - ZERO) > U64_MAX {
        if AllDigits(s) {
          ValueGrows(s, i + 1);
        }
        return None;
      }
      n := 10 * n + (s[i] - ZERO);
    }
    assert s[..|s|] == s;
    r := Some(n);
  }
}
