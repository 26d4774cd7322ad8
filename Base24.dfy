/**
 * The arithmetic behind the product-key codec: a little-endian byte string read
 * as one unsigned integer, and its base-24 expansion.
 */
module Base24 {

  /** An unsigned 8-bit value, as C#'s `byte`. */
  newtype byte = x: int | 0 <= x < 256

  /** The unsigned integer a byte string denotes, `s[0]` least significant: the sum of s[j]*256^j. */
  function Val(s: seq<byte>): nat
  {
    if |s| == 0 then 0 else s[0] as nat + 256 * Val(s[1..])
  }

  function Pow(b: nat, n: nat): (p: nat)
    ensures b > 0 ==> p > 0
  {
    if n == 0 then 1 else b * Pow(b, n - 1)
  }

  /** `v` with its `n` lowest base-24 digits shifted out, that is `v / 24^n` (lemma ShiftIsDiv). */
  function Shift(v: nat, n: nat): nat
  {
    if n == 0 then v else Shift(v / 24, n - 1)
  }

  /** The `n` lowest base-24 digits of `v`, most significant first. */
  function Expand(v: nat, n: nat): (ds: seq<nat>)
    ensures |ds| == n
    ensures forall k :: 0 <= k < n ==> ds[k] < 24
  {
    if n == 0 then [] else Expand(v / 24, n - 1) + [v % 24]
  }

  /** The number a most-significant-first base-24 digit string denotes. */
  function FromDigits(ds: seq<nat>): nat
  {
    if |ds| == 0 then 0 else FromDigits(ds[..|ds| - 1]) * 24 + ds[|ds| - 1]
  }

  /** Val reads the string from its low end: peeling off position j. */
  lemma ValAt(s: seq<byte>, j: nat)
    requires j < |s|
    ensures Val(s[j..]) == s[j] as nat + 256 * Val(s[j + 1..])
  {
    assert s[j..][1..] == s[j + 1..];
  }

  /** Shifting out one more digit divides by 24 once more. */
  lemma {:induction false} ShiftStep(v: nat, n: nat)
    ensures Shift(v, n + 1) == Shift(v, n) / 24
  {
    if n > 0 {
      ShiftStep(v / 24, n - 1);
    }
  }

  /** Digit k of the n-digit expansion (0 = most significant) is digit n-1-k counted from the low end. */
  lemma {:induction false} DigitAt(v: nat, n: nat, k: nat)
    requires k < n
    ensures Expand(v, n)[k] == Shift(v, n - 1 - k) % 24
  {
    if k < n - 1 {
      DigitAt(v / 24, n - 1, k);
    }
  }

  /** Euclidean division is unique. */
  lemma DivModUnique(v: int, d: int, q: int, r: int)
    requires d > 0 && 0 <= r < d && v == d * q + r
    ensures v / d == q && v % d == r
  {
    var q', r' := v / d, v % d;
    assert v == d * q' + r';
    if q > q' {
      MulAtLeast(d, q - q');
    } else if q < q' {
      MulAtLeast(d, q' - q);
    }
  }

  lemma MulAtLeast(d: int, k: int)
    requires d > 0 && k >= 1
    ensures d * k >= d
  {
    assert d * k == d + d * (k - 1);
  }

  /** Dividing by 24 and then by 24^n is dividing by 24^(n+1). */
  lemma DivDiv24(v: nat, n: nat)
    ensures v / 24 / Pow(24, n) == v / Pow(24, n + 1)
  {
    var p := Pow(24, n);
    var q := v / 24;
    var r := v % 24;
    var q2 := q / p;
    var r2 := q % p;
    assert q == p * q2 + r2;
    assert v == 24 * q + r;
    assert v == (24 * p) * q2 + (24 * r2 + r) by {
      assert 24 * q == 24 * (p * q2) + 24 * r2;
      assert 24 * (p * q2) == (24 * p) * q2;
    }
    assert 24 * r2 + r < 24 * p by {
      assert r2 <= p - 1;
      assert 24 * r2 <= 24 * (p - 1);
    }
    DivModUnique(v, 24 * p, q2, 24 * r2 + r);
  }

  /** The remainder counterpart of DivDiv24: v mod 24^(n+1) from v/24 mod 24^n and v mod 24. */
  lemma ModMod24(v: nat, n: nat)
    ensures (v / 24) % Pow(24, n) * 24 + v % 24 == v % Pow(24, n + 1)
  {
    var p := Pow(24, n);
    var q := v / 24;
    var r := v % 24;
    var q2 := q / p;
    var r2 := q % p;
    assert q == p * q2 + r2;
    assert v == (24 * p) * q2 + (24 * r2 + r) by {
      assert 24 * q == 24 * (p * q2) + 24 * r2;
      assert 24 * (p * q2) == (24 * p) * q2;
    }
    assert 24 * r2 + r < 24 * p by {
      assert r2 <= p - 1;
      assert 24 * r2 <= 24 * (p - 1);
    }
    DivModUnique(v, 24 * p, q2, 24 * r2 + r);
    assert r2 * 24 == 24 * r2;
  }

  /** Shift is repeated division: Shift(v, n) == v / 24^n. */
  lemma {:induction false} ShiftIsDiv(v: nat, n: nat)
    ensures Shift(v, n) == v / Pow(24, n)
  {
    if n > 0 {
      ShiftIsDiv(v / 24, n - 1);
      DivDiv24(v, n - 1);
    }
  }

  /** The n-digit expansion denotes v reduced mod 24^n: it keeps exactly the n lowest digits. */
  lemma {:induction false} ExpandValue(v: nat, n: nat)
    ensures FromDigits(Expand(v, n)) == v % Pow(24, n)
  {
    if n > 0 {
      var ds := Expand(v, n);
      assert ds[..n - 1] == Expand(v / 24, n - 1);
      ExpandValue(v / 24, n - 1);
      ModMod24(v, n - 1);
    }
  }

  /** The all-zero byte string denotes 0. */
  lemma {:induction false} ValZero(s: seq<byte>)
    requires forall j :: 0 <= j < |s| ==> s[j] == 0
    ensures Val(s) == 0
  {
    if |s| > 0 {
      ValZero(s[1..]);
    }
  }

  /** Every digit of 0 is 0. */
  lemma {:induction false} ExpandZero(n: nat)
    ensures forall k :: 0 <= k < n ==> Expand(0, n)[k] == 0
  {
    if n > 0 {
      ExpandZero(n - 1);
    }
  }
}
