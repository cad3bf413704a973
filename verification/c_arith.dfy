/** C/C++ arithmetic as the firmware sees it on a 32-bit microcontroller:
    truncating division, float-to-int conversion, `unsigned long` clocks that
    wrap at 2^32, and the "if below min / if above max" clamp idiom. */
module CArith {

  const ULongModulus: int := 0x1_0000_0000

  /** `unsigned long` (and `uint32_t`) on the ESP32: 32 bits. */
  type ULong = x: int | 0 <= x < ULongModulus

  /** Conversion of a signed value to `unsigned long` (wraps modulo 2^32). */
  function ToULong(x: int): (r: ULong)
    ensures 0 <= x < ULongModulus ==> r == x
    ensures (r - x) % ULongModulus == 0
  {
    x % ULongModulus
  }

  /** `a - b` on `unsigned long`: the time elapsed from `b` to `a` even when
      the millisecond clock has wrapped in between. */
  function Elapsed(a: ULong, b: ULong): (r: ULong)
    ensures b <= a ==> r == a - b
    ensures a < b ==> r == a - b + ULongModulus
  {
    (a - b) % ULongModulus
  }

  /** `a * k` on `uint32_t`. */
  function Mul32(a: ULong, k: nat): (r: ULong)
    ensures a * k < ULongModulus ==> r == a * k
  {
    (a * k) % ULongModulus
  }

  function Abs(x: int): nat
  {
    if x < 0 then -x else x
  }

  /** C's integer `/`: the quotient is truncated toward zero, unlike Dafny's
      Euclidean `/`. */
  function TruncDiv(a: int, b: int): (q: int)
    requires b != 0
    ensures Abs(q * b) <= Abs(a) < Abs(q * b) + Abs(b)
    ensures q != 0 ==> ((q > 0) <==> ((a > 0) == (b > 0)))
    ensures a >= 0 && b > 0 ==> q == a / b
  {
    var k := Abs(a) / Abs(b);
    DivBounds(Abs(a), Abs(b));
    assert Abs(k * b) == k * Abs(b) by { MulAbs(k, b); }
    assert Abs(-k * b) == k * Abs(b) by { MulAbs(-k, b); }
    if (a >= 0) == (b > 0) then k else -k
  }

  lemma DivBounds(n: nat, d: nat)
    requires d > 0
    ensures (n / d) * d <= n < (n / d) * d + d
    ensures n / d >= 0
  {
    assert n == d * (n / d) + n % d;
  }

  lemma MulAbs(x: int, y: int)
    ensures Abs(x * y) == Abs(x) * Abs(y)
  {
    if x < 0 && y < 0 {
      assert x * y == (-x) * (-y);
    } else if x < 0 {
      assert x * y == -((-x) * y);
    } else if y < 0 {
      assert x * y == -(x * (-y));
    }
  }

  /** Assignment of a `float` to an `int`: the fraction is discarded
      (truncation toward zero). Rounding of the float operations themselves
      is not modelled: the argument is the exact real value. */
  function FloatToInt(x: real): (r: int)
    ensures Abs(r) as real <= (if x < 0.0 then -x else x) < Abs(r) as real + 1.0
    ensures r != 0 ==> ((r > 0) <==> (x > 0.0))
  {
    if x >= 0.0 then x.Floor else -((-x).Floor)
  }

  /** The source's two-statement clamp `if (v < lo) v = lo; if (v > hi) v = hi;`.
      When `lo > hi` the second statement wins, as in the source. */
  function Clamp(v: int, lo: int, hi: int): (r: int)
    ensures lo <= hi ==> lo <= r <= hi
    ensures lo <= v <= hi ==> r == v
    ensures lo <= hi && v < lo ==> r == lo
    ensures v > hi ==> r == hi
  {
    var w := if v < lo then lo else v;
    if w > hi then hi else w
  }

  /** Sum of a sequence, accumulated left to right as the source's loops do. */
  function Sum(s: seq<int>): int
  {
    if |s| == 0 then 0 else Sum(s[..|s| - 1]) + s[|s| - 1]
  }

  lemma {:induction false} SumNonNegative(s: seq<int>)
    requires forall i :: 0 <= i < |s| ==> s[i] >= 0
    ensures Sum(s) >= 0
  {
    if |s| > 0 {
      SumNonNegative(s[..|s| - 1]);
    }
  }

  /** A five-element sum written out, the shape of the source's
      `for (i = 0; i < 5; i++) sum += h[i]` loops. */
  lemma SumOfFive(s: seq<int>)
    requires |s| == 5
    ensures Sum(s) == s[0] + s[1] + s[2] + s[3] + s[4]
  {
    assert s[..4][..3] == s[..3];
    assert s[..3][..2] == s[..2];
    assert s[..2][..1] == s[..1];
    assert s[..1][..0] == [];
    assert Sum(s[..1]) == s[0];
    assert Sum(s[..2]) == s[0] + s[1];
    assert Sum(s[..3]) == s[0] + s[1] + s[2];
    assert Sum(s[..4]) == s[0] + s[1] + s[2] + s[3];
    assert s[..5] == s;
  }
}
