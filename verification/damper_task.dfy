/** The body of the damper task: each iteration runs one PID step and then
    walks the servo to the resulting damper position. The FreeRTOS task, its
    100 ms pacing and the unsynchronised sharing of `temperature` and `damper`
    with the main loop are not modelled; iterations are taken one after the
    other with their inputs given. */
module DamperTask {
  import opened CArith
  import opened DamperControl
  import opened ServoPlan

  datatype Task = Task(pid: PidState, damper: int, oldDamper: int)

  /** One start: zero PID state, damper 0 and the servo remembered at 0. The
      definition of the `damper` global is not part of this model, and
      `damperControlInit` writes 50 degrees to the servo without changing
      `oldDamper`; `RunTask` therefore admits any start inside the stroke. */
  const Boot: Task := Task(Start, 0, 0)

  /** Damper and remembered servo position both inside the 0..100 stroke. */
  predicate InStroke(t: Task)
  {
    0 <= t.damper <= 100 && 0 <= t.oldDamper <= 100
  }

  /** A variant whose damper range lies inside the servo stroke. */
  predicate FitsStroke(v: Variant)
  {
    WellFormed(v) && 0 <= v.minDamper && v.maxDamper <= 100
  }

  /** One iteration of the task loop:
      `damperControlLoop(targetTempC, temperature, damper); moveServoToDamper(damper);` */
  method Iterate(v: Variant, pid: PidOutput, t: Task, target: int, temperature: int) returns (t': Task, pulses: seq<int>)
    ensures t'.pid == ControlStep(v, pid, t.pid, target, temperature, t.damper).state
    ensures t'.damper == ControlStep(v, pid, t.pid, target, temperature, t.damper).damper
    ensures t'.oldDamper == t.oldDamper || t'.oldDamper == t'.damper
    ensures Abs(t'.damper - t.oldDamper) <= Deadband ==> pulses == [] && t'.oldDamper == t.oldDamper
    ensures Abs(t'.damper - t.oldDamper) > Deadband ==> |pulses| == Abs(t'.damper - t.oldDamper) && t'.oldDamper == t'.damper
    ensures FitsStroke(v) && InStroke(t) ==> InStroke(t')
    ensures FitsStroke(v) && InStroke(t) ==> forall k :: 0 <= k < |pulses| ==> MinUs <= pulses[k] <= MaxUs
  {
    var r := ControlStep(v, pid, t.pid, target, temperature, t.damper);
    var newOld;
    pulses, newOld := MoveServoToDamper(t.oldDamper, r.damper);
    t' := Task(r.state, r.damper, newOld);
  }

  /** The task over a whole trace of inputs with the firmware's constants,
      from any start inside the stroke with a non-negative integral: every
      pulse ever written lies inside the servo's [minUs, maxUs] window, and
      the damper never leaves 0..100. */
  method RunTask(t0: Task, pid: PidOutput, ticks: seq<Tick>) returns (t: Task, pulses: seq<int>)
    requires InStroke(t0) && t0.pid.errI >= 0
    ensures InStroke(t)
    ensures forall k :: 0 <= k < |pulses| ==> MinUs <= pulses[k] <= MaxUs
    ensures t.pid.errI >= 0
  {
    t := t0;
    pulses := [];
    var i := 0;
    while i < |ticks|
      invariant 0 <= i <= |ticks|
      invariant InStroke(t)
      invariant t.pid.errI >= 0
      invariant forall k :: 0 <= k < |pulses| ==> MinUs <= pulses[k] <= MaxUs
    {
      var more;
      t, more := Iterate(Live, pid, t, ticks[i].target, ticks[i].temperature);
      pulses := pulses + more;
      i := i + 1;
    }
  }
}
