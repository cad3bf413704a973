/** The integer normalisers of the settings screen: the clamp-and-round
    expressions applied to the stored settings when the screen is built or
    shown, and to slider values in the slider callbacks. Slider values lie in
    the slider's range (LVGL keeps them there); the stored settings may hold
    anything. The widgets themselves are not modelled. */
module SettingsNormalise {
  import opened CArith

  /** `((v + step/2) / step) * step` in C integer arithmetic: for a
      non-negative `v`, the nearest multiple of `step`, halves rounded up. */
  function RoundToStep(v: int, step: int): (r: int)
    requires step > 0
    ensures v + step / 2 >= 0 ==> r <= v + step / 2 < r + step
  {
    var x := v + step / 2;
    NonNegativeDivBounds(x, step);
    TruncDiv(x, step) * step
  }

  lemma NonNegativeDivBounds(x: int, step: int)
    requires step > 0
    ensures x >= 0 ==> (x / step) * step <= x < (x / step) * step + step
  {
    if x >= 0 {
      DivBounds(x, step);
    }
  }

  // ---- target temperature: 62..80 in steps of 2 ----

  const TargetMin: int := 62
  const TargetMax: int := 80

  /** The stored target as the screen corrects it: clamp to 62..80, then round
      to an even value. */
  function NormaliseTarget(t: int): (r: int)
    ensures TargetMin <= r <= TargetMax && r % 2 == 0
    ensures TargetMin <= t <= TargetMax && t % 2 == 0 ==> r == t
    ensures TargetMin <= t <= TargetMax && t % 2 == 1 ==> r == t + 1
    ensures t < TargetMin ==> r == TargetMin
    ensures t > TargetMax ==> r == TargetMax
  {
    var c := Clamp(t, TargetMin, TargetMax);
    var r := RoundToStep(c, 2);
    assert c <= r + 1 && r <= c + 1;
    r
  }

  lemma NormaliseTargetIdempotent(t: int)
    ensures NormaliseTarget(NormaliseTarget(t)) == NormaliseTarget(t)
  {
  }

  /** The target slider callbacks: the released or dragged value rounded to
      an even number, which stays on the slider. */
  function SliderTarget(v: int): (r: int)
    ensures TargetMin <= v <= TargetMax ==> TargetMin <= r <= TargetMax && r % 2 == 0 && v <= r <= v + 1
  {
    RoundToStep(v, 2)
  }

  /** `settings_screen_show` on the target: the corrected value, and whether
      the main screen's target label is redrawn (only when the value moved). */
  function ShowTarget(t: int): (r: (int, bool))
    ensures r.0 == NormaliseTarget(t)
    ensures r.1 <==> !(TargetMin <= t <= TargetMax && t % 2 == 0)
  {
    var c := NormaliseTarget(t);
    (c, c != t)
  }

  /** Showing the screen twice corrects at most once. */
  lemma ShowTargetSettles(t: int)
    ensures !ShowTarget(ShowTarget(t).0).1
  {
  }

  // ---- temperature read interval: 2..10 s in steps of 2 s ----

  const ReadMin: int := 2000
  const ReadMax: int := 10000

  /** The stored read interval as the screen corrects it: clamp, then round. */
  function NormaliseReadInterval(v: int): (r: int)
    ensures ReadMin <= r <= ReadMax && r % 2000 == 0
    ensures ReadMin <= v <= ReadMax ==> v - 1000 < r <= v + 1000
  {
    RoundToStep(Clamp(v, ReadMin, ReadMax), 2000)
  }

  /** The read-interval slider callback: round, then clamp. */
  function SliderReadInterval(v: int): (r: int)
    ensures ReadMin <= r <= ReadMax
  {
    Clamp(RoundToStep(v, 2000), ReadMin, ReadMax)
  }

  /** Both orders give the same value, for every input. */
  lemma ReadIntervalOrderIrrelevant(v: int)
    ensures SliderReadInterval(v) == NormaliseReadInterval(v)
  {
  }

  // ---- low-temperature timeout: 1..10 min in whole minutes ----

  const TimeoutMin: int := 60000
  const TimeoutMax: int := 600000

  /** The stored timeout as the screen corrects it: clamp, then round. */
  function NormaliseLowTempTimeout(v: int): (r: int)
    ensures TimeoutMin <= r <= TimeoutMax && r % 60000 == 0
    ensures TimeoutMin <= v <= TimeoutMax ==> v - 30000 < r <= v + 30000
  {
    RoundToStep(Clamp(v, TimeoutMin, TimeoutMax), 60000)
  }

  /** The timeout slider callback rounds only; slider values stay in range. */
  function SliderLowTempTimeout(v: int): (r: int)
    ensures r % 60000 == 0
    ensures TimeoutMin <= v <= TimeoutMax ==> r == NormaliseLowTempTimeout(v)
  {
    RoundToStep(v, 60000)
  }

  // ---- display refresh intervals ----

  /** The touch-interval slider callback: nearest multiple of 5 ms, at least
      20 ms. */
  function SliderTouchInterval(v: int): (r: int)
    ensures r >= 20 && r % 5 == 0
    ensures v <= 100 ==> r <= 100
    ensures v + 2 >= 20 ==> r <= v + 2 < r + 5
  {
    var w := RoundToStep(v, 5);
    if w < 20 then 20 else w
  }

  /** The time-interval slider callback: nearest multiple of 10 s, which
      stays on the 10..60 s slider. */
  function SliderTimeInterval(v: int): (r: int)
    ensures r % 10000 == 0
    ensures 10000 <= v <= 60000 ==> 10000 <= r <= 60000 && v - 5000 < r <= v + 5000
  {
    RoundToStep(v, 10000)
  }

  /** The brightness label: `value * 100 / 255` percent. */
  function BrightnessPercent(value: int): (r: int)
    ensures 0 <= value <= 255 ==> 0 <= r <= 100
    ensures value == 255 ==> r == 100
    ensures value == 0 ==> r == 0
    ensures 0 <= value ==> r * 255 <= value * 100 < r * 255 + 255
  {
    TruncDiv(value * 100, 255)
  }
}
