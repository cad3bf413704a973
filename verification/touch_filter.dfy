/** The resistive touch input of the bench display: the validity test of a
    raw reading, the mapping to screen coordinates with a five-slot history
    per axis, and the trimmed mean that smooths the history. The panel driver
    is an input: whether it reports a touch and the raw X/Y it returns. */
module TouchFilter {
  import opened CArith

  const CalMin: int := 200
  const CalMax: int := 3800
  const TouchThreshold: int := 100
  const FilterSamples: int := 5

  type U16 = x: int | 0 <= x < 0x1_0000

  /** The largest screen side modelled: up to here the product inside
      `map()` fits the 32-bit `long` it is computed in (`MapProductFits`). */
  const MaxScreen: int := 0x8000

  /** A slot of the five-entry history. */
  type Slot = i: int | 0 <= i < FilterSamples

  /** The five most recent coordinates of one axis. */
  type Ring = s: seq<U16> | |s| == FilterSamples witness [0, 0, 0, 0, 0]

  /** `ir_derigs_pieskariens`: the reading is accepted unless Y lies beyond
      the calibrated range plus the threshold, or X below the threshold. */
  predicate IsValidTouch(x: U16, y: U16)
  {
    !(y > CalMax + TouchThreshold || x < TouchThreshold)
  }

  lemma ValidTouchBounds(x: U16, y: U16)
    ensures IsValidTouch(x, y) <==> y <= 3900 && x >= 100
  {
  }

  /** Arduino `map(v, inMin, inMax, outMin, outMax)` in `long` arithmetic. */
  function Map(v: int, inMin: int, inMax: int, outMin: int, outMax: int): int
    requires inMax != inMin
  {
    TruncDiv((v - inMin) * (outMax - outMin), inMax - inMin) + outMin
  }

  /** For every 16-bit raw reading, `(raw - 200) * (0 - size)` lies in the
      range of a 32-bit `long` when the side is at most `MaxScreen`; a side
      of 32869 or more overflows for the largest readings. */
  lemma MapProductFits(raw: U16, size: int)
    requires 0 < size <= MaxScreen
    ensures -0x8000_0000 <= (raw - CalMin) * (0 - size) <= 0x7FFF_FFFF
  {
    if raw >= CalMin {
      assert (raw - CalMin) * size <= 65335 * size by { MulMonotone(raw - CalMin, 65335, size); }
    } else {
      assert (CalMin - raw) * size <= CalMin * size by { MulMonotone(CalMin - raw, CalMin, size); }
      assert (raw - CalMin) * (0 - size) == (CalMin - raw) * size;
    }
  }

  lemma MulMonotone(a: int, b: int, c: int)
    requires 0 <= a <= b && c >= 0
    ensures a * c <= b * c
  {
  }

  /** The product overflows a `long` for a side just above the bound. */
  lemma MapProductOverflowsAbove()
    ensures (65535 - CalMin) * (0 - 32869) < -0x8000_0000
  {
  }

  /** Raw reading to screen coordinate: the axis is mirrored (200 maps to
      `size`, 3800 to 0), then constrained to the screen. */
  function ToScreen(raw: U16, size: int): (r: int)
    requires 0 < size <= MaxScreen
    ensures 0 <= r < size
  {
    Clamp(Map(raw, CalMin, CalMax, size, 0), 0, size - 1)
  }

  /** The mapped value before the constraint: `size - floor((raw - 200) * size / 3600)`
      for readings right of the calibration minimum, at least `size` left of it. */
  lemma MapMirrors(raw: U16, size: int)
    requires 0 < size <= MaxScreen
    ensures raw >= CalMin ==> Map(raw, CalMin, CalMax, size, 0) == size - ((raw - CalMin) * size) / 3600
    ensures raw <= CalMin ==> Map(raw, CalMin, CalMax, size, 0) >= size
  {
    var p := (raw - CalMin) * size;
    assert (raw - CalMin) * (0 - size) == -p;
    if raw >= CalMin {
      assert p >= 0 by { MulNonNegative(raw - CalMin, size); }
      TruncDivNegate(p, 3600);
    } else {
      assert -p >= 0 by { MulNonNegative(CalMin - raw, size); assert -p == (CalMin - raw) * size; }
    }
  }

  lemma MulNonNegative(a: int, b: int)
    requires a >= 0 && b >= 0
    ensures a * b >= 0
  {
  }

  /** The two ends of the calibrated range land on the two screen edges. */
  lemma ToScreenEnds(raw: U16, size: int)
    requires 0 < size <= MaxScreen
    ensures raw <= CalMin ==> ToScreen(raw, size) == size - 1
    ensures raw >= CalMax ==> ToScreen(raw, size) == 0
  {
    MapMirrors(raw, size);
    if raw >= CalMax {
      var p := (raw - CalMin) * size;
      assert p >= 3600 * size by {
        assert p - 3600 * size == (raw - CalMax) * size;
        MulNonNegative(raw - CalMax, size);
      }
      DivAtLeast(p, size);
    }
  }

  lemma DivAtLeast(p: int, size: int)
    requires size > 0 && p >= 3600 * size
    ensures p / 3600 >= size
  {
  }

  /** The mirrored mapping never increases: a larger raw reading is further
      left (or up). */
  lemma ToScreenMonotone(a: U16, b: U16, size: int)
    requires 0 < size <= MaxScreen
    requires CalMin <= a <= b
    ensures ToScreen(b, size) <= ToScreen(a, size)
  {
    MapMirrors(a, size);
    MapMirrors(b, size);
    var p, q := (a - CalMin) * size, (b - CalMin) * size;
    assert p <= q by {
      assert q - p == (b - a) * size;
      MulNonNegative(b - a, size);
    }
  }

  lemma TruncDivNegate(p: nat, d: int)
    requires d > 0
    ensures TruncDiv(-(p as int), d) == -(p / d)
  {
    DivBounds(p, d);
  }

  /** The reader's state: the last point, whether the last read was a valid
      touch, both histories, the next slot and the `history_initialized`
      static. */
  datatype Reader = Reader(lastX: U16, lastY: U16, lastTouched: bool, xs: Ring, ys: Ring, index: Slot, initialized: bool)

  const Boot: Reader := Reader(0, 0, false, [0, 0, 0, 0, 0], [0, 0, 0, 0, 0], 0, false)

  /** One driver reading: touched or not, and the raw coordinates. */
  datatype Raw = Raw(touched: bool, x: U16, y: U16)

  /** `mans_pieskariens_read` on a `width` x `height` screen. */
  function Read(s: Reader, raw: Raw, width: int, height: int): (r: Reader)
    requires 0 < width <= MaxScreen && 0 < height <= MaxScreen
    ensures r.lastTouched <==> raw.touched && IsValidTouch(raw.x, raw.y)
    // a rejected reading only clears the touched state
    ensures !r.lastTouched ==> r == s.(lastTouched := false)
    ensures r.lastTouched ==>
      && r.lastX == ToScreen(raw.x, width) && r.lastY == ToScreen(raw.y, height)
      && r.index == (s.index + 1) % FilterSamples
      && r.initialized
    // the first accepted reading fills the whole history with its point
    ensures r.lastTouched && !s.initialized ==>
      forall k :: 0 <= k < FilterSamples ==> r.xs[k] == r.lastX && r.ys[k] == r.lastY
    // afterwards each accepted reading overwrites exactly the current slot
    ensures r.lastTouched && s.initialized ==>
      r.xs == s.xs[s.index := r.lastX] && r.ys == s.ys[s.index := r.lastY]
  {
    if !(raw.touched && IsValidTouch(raw.x, raw.y)) then s.(lastTouched := false)
    else
      var x: U16 := ToScreen(raw.x, width);
      var y: U16 := ToScreen(raw.y, height);
      var xs: Ring := if s.initialized then s.xs else [x, x, x, x, x];
      var ys: Ring := if s.initialized then s.ys else [y, y, y, y, y];
      Reader(x, y, true, xs[s.index := x], ys[s.index := y], (s.index + 1) % FilterSamples, true)
  }

  /** The number of accepted readings in a sequence. */
  function Accepted(raws: seq<Raw>): nat
    decreases |raws|
  {
    if |raws| == 0 then 0
    else (if raws[0].touched && IsValidTouch(raws[0].x, raws[0].y) then 1 else 0) + Accepted(raws[1..])
  }

  function ReadAll(s: Reader, raws: seq<Raw>, width: int, height: int): Reader
    requires 0 < width <= MaxScreen && 0 < height <= MaxScreen
    decreases |raws|
  {
    if |raws| == 0 then s else ReadAll(Read(s, raws[0], width, height), raws[1..], width, height)
  }

  /** The ring index advances by one slot, modulo five, per accepted reading
      and by nothing otherwise. */
  lemma {:induction false} IndexCountsAcceptedReadings(s: Reader, raws: seq<Raw>, width: int, height: int)
    requires 0 < width <= MaxScreen && 0 < height <= MaxScreen
    ensures ReadAll(s, raws, width, height).index == (s.index + Accepted(raws)) % FilterSamples
    decreases |raws|
  {
    if |raws| > 0 {
      var s1 := Read(s, raws[0], width, height);
      var one := if raws[0].touched && IsValidTouch(raws[0].x, raws[0].y) then 1 else 0;
      ReadAdvancesIndex(s, raws[0], width, height);
      IndexCountsAcceptedReadings(s1, raws[1..], width, height);
      assert ReadAll(s, raws, width, height) == ReadAll(s1, raws[1..], width, height);
      assert Accepted(raws) == one + Accepted(raws[1..]);
      ModShift(s.index + one, Accepted(raws[1..]));
    }
  }

  /** One reading advances the index by one slot if accepted, else not at all. */
  lemma ReadAdvancesIndex(s: Reader, raw: Raw, width: int, height: int)
    requires 0 < width <= MaxScreen && 0 < height <= MaxScreen
    ensures Read(s, raw, width, height).index ==
      (s.index + (if raw.touched && IsValidTouch(raw.x, raw.y) then 1 else 0)) % FilterSamples
  {
  }

  lemma ModShift(a: nat, n: nat)
    ensures (a % FilterSamples + n) % FilterSamples == (a + n) % FilterSamples
  {
  }

  /** The smallest entry of a non-empty sequence (reference definition). */
  function SeqMin(s: seq<int>): (m: int)
    requires |s| > 0
    ensures forall k :: 0 <= k < |s| ==> m <= s[k]
    ensures exists k :: 0 <= k < |s| && m == s[k]
    decreases |s|
  {
    if |s| == 1 then s[0]
    else
      var m := SeqMin(s[..|s| - 1]);
      if s[|s| - 1] < m then s[|s| - 1] else m
  }

  /** The largest entry of a non-empty sequence (reference definition). */
  function SeqMax(s: seq<int>): (m: int)
    requires |s| > 0
    ensures forall k :: 0 <= k < |s| ==> s[k] <= m
    ensures exists k :: 0 <= k < |s| && m == s[k]
    decreases |s|
  {
    if |s| == 1 then s[0]
    else
      var m := SeqMax(s[..|s| - 1]);
      if s[|s| - 1] > m then s[|s| - 1] else m
  }

  /** `pielietot_filteri`: the mean of the five samples without the smallest
      and the largest, truncated. The `uint32_t` sum cannot wrap (at most five
      16-bit values) and the subtraction cannot underflow; the mean lies
      between the smallest and the largest sample, so it fits a `uint16_t`. */
  method TrimmedMean(h: Ring) returns (filtered: U16)
    ensures Sum(h) >= SeqMin(h) + SeqMax(h)
    ensures filtered == (Sum(h) - SeqMin(h) - SeqMax(h)) / (FilterSamples - 2)
    ensures SeqMin(h) <= filtered <= SeqMax(h)
  {
    var lo := h[0];
    var hi := h[0];
    var sum := h[0];
    assert h[..1] == [h[0]];
    assert Sum(h[..1]) == h[0] by { assert h[..1][..0] == []; }
    var i := 1;
    while i < FilterSamples
      invariant 1 <= i <= FilterSamples
      invariant lo == SeqMin(h[..i]) && hi == SeqMax(h[..i])
      invariant sum == Sum(h[..i])
      invariant 0 <= sum <= i * 0xFFFF
    {
      assert h[..i + 1][..i] == h[..i];
      if h[i] < lo {
        lo := h[i];
      }
      if h[i] > hi {
        hi := h[i];
      }
      sum := sum + h[i];
      i := i + 1;
    }
    assert h[..FilterSamples] == h;
    MiddleThree(h);
    filtered := (sum - lo - hi) / (FilterSamples - 2);
  }

  /** Without its extremes, five samples sum to between three times the
      smallest and three times the largest. */
  lemma MiddleThree(h: Ring)
    ensures 3 * SeqMin(h) <= Sum(h) - SeqMin(h) - SeqMax(h) <= 3 * SeqMax(h)
  {
    SumOfFive(h);
    var lo, hi := SeqMin(h), SeqMax(h);
    var i :| 0 <= i < 5 && h[i] == lo;
    var j :| 0 <= j < 5 && h[j] == hi;
    OthersBetween(h[0], h[1], h[2], h[3], h[4], j, lo, hi);
    OthersBetween(h[0], h[1], h[2], h[3], h[4], i, lo, hi);
  }

  /** Without any one of five values in [lo, hi], the other four sum to
      between four times lo and four times hi. */
  lemma OthersBetween(a: int, b: int, c: int, d: int, e: int, j: int, lo: int, hi: int)
    requires 0 <= j < 5
    requires lo <= a <= hi && lo <= b <= hi && lo <= c <= hi && lo <= d <= hi && lo <= e <= hi
    ensures var x := [a, b, c, d, e][j];
            4 * lo <= a + b + c + d + e - x <= 4 * hi
  {
    if j == 0 {
      assert [a, b, c, d, e][j] == a;
    } else if j == 1 {
      assert [a, b, c, d, e][j] == b;
    } else if j == 2 {
      assert [a, b, c, d, e][j] == c;
    } else if j == 3 {
      assert [a, b, c, d, e][j] == d;
    } else {
      assert [a, b, c, d, e][j] == e;
    }
  }

  /** A steady finger: five equal samples filter to that sample. */
  lemma SteadySamplesPassThrough(v: U16)
    ensures var h: Ring := [v, v, v, v, v];
            (Sum(h) - SeqMin(h) - SeqMax(h)) / (FilterSamples - 2) == v
  {
    var h: Ring := [v, v, v, v, v];
    SumOfFive(h);
    assert SeqMin(h) == v && SeqMax(h) == v;
  }
}
