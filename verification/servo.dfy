/** `moveServoToDamper`: the stepping plan that walks the damper servo from
    the last commanded position to a new one, one percent per pulse. The servo
    driver calls (attach, writeMicroseconds, detach) and the 50 ms pacing are
    left out; the plan is the list of pulse widths written. */
module ServoPlan {
  import opened CArith

  /** Moves of at most this many percent are ignored. */
  const Deadband: int := 8

  const ServoAngle: int := 35
  const MaxDamperX: int := 100
  const ServoCalibration: real := 1.5
  const ServoOffset: int := 29
  const MinUs: int := 500
  const MaxUs: int := 2500
  const MinAngle: int := 0
  const MaxAngle: int := 180

  /** Percent position to servo angle:
      `p * servoAngle / (maxDamperx * servoCalibration) + servoOffset`,
      evaluated in float and assigned to an `int`. For non-negative
      positions this is the integer expression `p*35/150 + 29`. */
  function Angle(p: int): (a: int)
    ensures p >= 0 ==> a == p * 35 / 150 + 29
  {
    var x := (p * ServoAngle) as real / (MaxDamperX as real * ServoCalibration) + ServoOffset as real;
    var r := FloatToInt(x);
    if p >= 0 then
      var q := p * 35 / 150;
      assert p * 35 == 150 * q + (p * 35) % 150;
      assert (q + 29) as real <= x < (q + 30) as real;
      r
    else r
  }

  /** Angle to pulse width in microseconds (integer arithmetic). */
  function PulseWidth(p: int): (us: int)
    // the angle's linear image on [minUs, maxUs], rounded down
    ensures p >= 0 ==>
      (us - MinUs) * (MaxAngle - MinAngle) <= (Angle(p) - MinAngle) * (MaxUs - MinUs)
                                           < (us - MinUs + 1) * (MaxAngle - MinAngle)
  {
    MinUs + TruncDiv((Angle(p) - MinAngle) * (MaxUs - MinUs), MaxAngle - MinAngle)
  }

  /** Pulse widths never decrease as the position grows over 0..100. */
  lemma PulseWidthMonotone(p: int, q: int)
    requires 0 <= p <= q
    ensures PulseWidth(p) <= PulseWidth(q)
  {
    assert Angle(p) <= Angle(q);
  }

  /** Every position of the damper's 0..100 stroke maps to a pulse inside the
      servo's [minUs, maxUs] window: the stroke spans 822..1077 us. */
  lemma PulseWidthInWindow(p: int)
    requires 0 <= p <= 100
    ensures PulseWidth(0) == 822 && PulseWidth(100) == 1077
    ensures 822 <= PulseWidth(p) <= 1077
    ensures MinUs <= PulseWidth(p) <= MaxUs
  {
    assert Angle(0) == 29;
    assert Angle(100) == 52;
    PulseWidthMonotone(0, p);
    PulseWidthMonotone(p, 100);
  }

  /** The position commanded by the k-th pulse (k from 0) of a move. */
  function Position(oldDamper: int, damper: int, k: int): int
  {
    if damper > oldDamper then oldDamper + k + 1 else oldDamper - k - 1
  }

  /** The pulses of an upward move of `n` percent from `from`
      (the `diff > 0` loop). */
  method StepUp(from: int, n: nat) returns (pulses: seq<int>)
    ensures |pulses| == n
    ensures forall k :: 0 <= k < n ==> pulses[k] == PulseWidth(from + k + 1)
  {
    pulses := [];
    var i := 0;
    while i < n
      invariant 0 <= i <= n
      invariant |pulses| == i
      invariant forall k :: 0 <= k < i ==> pulses[k] == PulseWidth(from + k + 1)
    {
      var angle := Angle(from + i + 1);
      var us := MinUs + TruncDiv((angle - MinAngle) * (MaxUs - MinUs), MaxAngle - MinAngle);
      pulses := pulses + [us];
      i := i + 1;
    }
  }

  /** The pulses of a downward move of `n` percent from `from`
      (the `diff < 0` loop). */
  method StepDown(from: int, n: nat) returns (pulses: seq<int>)
    ensures |pulses| == n
    ensures forall k :: 0 <= k < n ==> pulses[k] == PulseWidth(from - k - 1)
  {
    pulses := [];
    var i := 0;
    while i < n
      invariant 0 <= i <= n
      invariant |pulses| == i
      invariant forall k :: 0 <= k < i ==> pulses[k] == PulseWidth(from - k - 1)
    {
      var angle := Angle(from - i - 1);
      var us := MinUs + TruncDiv((angle - MinAngle) * (MaxUs - MinUs), MaxAngle - MinAngle);
      pulses := pulses + [us];
      i := i + 1;
    }
  }

  /** `moveServoToDamper(damper)` against the remembered `oldDamper`:
      no pulses and no change inside the deadband; otherwise one pulse per
      percent, visiting oldDamper +- 1, +- 2, ... up to `damper`, after which
      `damper` is remembered. */
  method MoveServoToDamper(oldDamper: int, damper: int) returns (pulses: seq<int>, newOld: int)
    ensures Abs(damper - oldDamper) <= Deadband ==> pulses == [] && newOld == oldDamper
    ensures Abs(damper - oldDamper) > Deadband ==>
      && |pulses| == Abs(damper - oldDamper)
      && newOld == damper
      && Position(oldDamper, damper, |pulses| - 1) == damper
    ensures forall k :: 0 <= k < |pulses| ==> pulses[k] == PulseWidth(Position(oldDamper, damper, k))
    ensures 0 <= oldDamper < damper ==> forall i, j :: 0 <= i <= j < |pulses| ==> pulses[i] <= pulses[j]
    ensures 0 <= damper < oldDamper ==> forall i, j :: 0 <= i <= j < |pulses| ==> pulses[i] >= pulses[j]
    ensures 0 <= oldDamper <= 100 && 0 <= damper <= 100 ==>
      forall k :: 0 <= k < |pulses| ==> MinUs <= pulses[k] <= MaxUs
  {
    var diff := damper - oldDamper;
    pulses := [];
    newOld := oldDamper;
    if Abs(diff) > Deadband {
      if diff > 0 {
        pulses := StepUp(oldDamper, diff);
      } else if diff < 0 {
        pulses := StepDown(oldDamper, -diff);
      }
      newOld := damper;
    }
    PlanShape(oldDamper, damper, pulses);
  }

  /** Monotonicity and range of a plan, from its pointwise description. */
  lemma PlanShape(oldDamper: int, damper: int, pulses: seq<int>)
    requires forall k :: 0 <= k < |pulses| ==> pulses[k] == PulseWidth(Position(oldDamper, damper, k))
    requires |pulses| <= Abs(damper - oldDamper)
    ensures 0 <= oldDamper < damper ==> forall i, j :: 0 <= i <= j < |pulses| ==> pulses[i] <= pulses[j]
    ensures 0 <= damper < oldDamper ==> forall i, j :: 0 <= i <= j < |pulses| ==> pulses[i] >= pulses[j]
    ensures 0 <= oldDamper <= 100 && 0 <= damper <= 100 ==>
      forall k :: 0 <= k < |pulses| ==> MinUs <= pulses[k] <= MaxUs
  {
    if 0 <= oldDamper < damper {
      forall i, j | 0 <= i <= j < |pulses|
        ensures pulses[i] <= pulses[j]
      {
        PulseWidthMonotone(oldDamper + i + 1, oldDamper + j + 1);
      }
    }
    if 0 <= damper < oldDamper {
      forall i, j | 0 <= i <= j < |pulses|
        ensures pulses[i] >= pulses[j]
      {
        PulseWidthMonotone(oldDamper - j - 1, oldDamper - i - 1);
      }
    }
    if 0 <= oldDamper <= 100 && 0 <= damper <= 100 {
      forall k | 0 <= k < |pulses|
        ensures MinUs <= pulses[k] <= MaxUs
      {
        PulseWidthInWindow(Position(oldDamper, damper, k));
      }
    }
  }
}
