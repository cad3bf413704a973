/** The combustion PID step and the wood-refill detector.

    Three versions of this code exist: the one the firmware runs
    (lib/damper_control/damper_control.cpp) and two earlier bench versions
    (test/damper_control.cpp, test/Untitled-1.cpp). They share one shape and
    differ in constants, in the rule that resets the integral, and in a
    non-negativity floor on the integral; `Variant` carries those choices.

    The PID output `kP*errP + kI*errI + kD*errD` is kept abstract (`PidOutput`):
    the clamp, reset and end-of-burn properties hold for any output function.
    `RealPid` gives the concrete float formula, and `LiveDamperFormula` and
    `BenchDamperFormula` instantiate the step with it. */
module DamperControl {
  import opened CArith

  const HistLen: nat := 10
  const Half: nat := 5

  /** How the integral reset is decided after the history shift. */
  datatype ResetRule =
    | AveragedAtLeast    // `sum_recent / 5 >= sum_old / 5` (firmware)
    | StrictSumGreater   // `sum_recent > sum_old` (bench versions)

  datatype Variant = Variant(
    minDamper: int,
    maxDamper: int,
    zeroDamper: int,
    endTrigger: int,
    temperatureMin: int,
    reset: ResetRule,
    floorIntegral: bool)   // `if (errI < 0) errI = 0;` after the step

  /** Constants of lib/damper_control/damper_control.cpp. */
  const Live: Variant := Variant(0, 100, 0, 100000, 30, AveragedAtLeast, true)

  /** Constants shared by test/damper_control.cpp and test/Untitled-1.cpp. */
  const Bench: Variant := Variant(0, 180, 0, 1000, 30, StrictSumGreater, false)

  predicate WellFormed(v: Variant)
  {
    v.minDamper <= v.zeroDamper <= v.maxDamper
  }

  /** The 10-sample temperature history, newest first. */
  type History = h: seq<int> | |h| == HistLen witness [0, 0, 0, 0, 0, 0, 0, 0, 0, 0]

  datatype PidState = PidState(hist: History, errP: int, errI: int, errD: int, errOld: int)

  /** All accumulators and the history start at zero. */
  const Start: PidState := PidState([0, 0, 0, 0, 0, 0, 0, 0, 0, 0], 0, 0, 0, 0)

  /** `kP*errP + kI*errI + kD*errD`, already converted to `int`. */
  type PidOutput = (int, int, int) -> int

  function Recent(h: History): int
  {
    Sum(h[..Half])
  }

  function Older(h: History): int
  {
    Sum(h[Half..])
  }

  /** Shift-and-insert: the new sample goes to index 0, the oldest is dropped. */
  function Shift(h: History, t: int): (r: History)
    ensures r[0] == t
    ensures forall i :: 1 <= i < HistLen ==> r[i] == h[i - 1]
  {
    [t] + h[..HistLen - 1]
  }

  datatype Observation = Observation(hist: History, filled: bool)

  /** `WoodFilled`: records the sample and reports whether the newer half of
      the history sums to more than the older half. In terms of the history
      before the call, the newer half is the new sample plus the four newest
      old samples, and the older half is old samples 4 to 8 (old sample 9 is
      evicted). */
  function WoodFilled(h: History, t: int): (r: Observation)
    ensures r.hist == Shift(h, t)
    ensures r.filled <==> t + h[0] + h[1] + h[2] + h[3] > h[4] + h[5] + h[6] + h[7] + h[8]
  {
    var h' := Shift(h, t);
    SumOfFive(h'[..Half]);
    SumOfFive(h'[Half..]);
    Observation(h', Recent(h') > Older(h'))
  }

  /** Whether the integral is reset, judged on the history after the shift. */
  predicate ResetFires(rule: ResetRule, h: History)
  {
    match rule
    case AveragedAtLeast => TruncDiv(Recent(h), Half) >= TruncDiv(Older(h), Half)
    case StrictSumGreater => Recent(h) > Older(h)
  }

  /** The firmware's averaged rule fires whenever the bench rule does. */
  lemma StrictResetImpliesAveragedReset(h: History)
    ensures ResetFires(StrictSumGreater, h) ==> ResetFires(AveragedAtLeast, h)
  {
    var a, b := Recent(h), Older(h);
    if a > b {
      TruncDivMonotone5(b, a);
    }
  }

  lemma TruncDivMonotone5(a: int, b: int)
    requires a <= b
    ensures TruncDiv(a, 5) <= TruncDiv(b, 5)
  {
  }

  /** On a steady temperature the two rules part ways: the firmware resets the
      integral on every step, the bench versions never do. */
  lemma SteadyTemperatureResetsOnlyLive(h: History, c: int)
    requires forall i :: 0 <= i < HistLen ==> h[i] == c
    ensures ResetFires(AveragedAtLeast, h)
    ensures !ResetFires(StrictSumGreater, h)
  {
    SumOfFive(h[..Half]);
    SumOfFive(h[Half..]);
  }

  datatype StepResult = StepResult(state: PidState, damper: int)

  predicate Active(v: Variant, s: PidState)
  {
    s.errI < v.endTrigger
  }

  /** `damperControlLoop(targetTempC, temperature, damper)`: one PID step.
      While the integral is below `endTrigger` the errors are updated, the
      history is shifted, the integral may be reset, and the damper is the
      clamped PID output. Once the integral reaches `endTrigger` the PID state
      is frozen and the damper is only closed when the fire is cold. */
  function ControlStep(v: Variant, pid: PidOutput, s: PidState, target: int, temperature: int, damper: int): (r: StepResult)
    // active branch: error terms and history
    ensures Active(v, s) ==>
      && r.state.hist == Shift(s.hist, temperature)
      && r.state.errP == target - temperature
      && r.state.errD == r.state.errP - s.errOld
      && r.state.errOld == r.state.errP
    // active branch: the damper is always within the physical range
    ensures Active(v, s) && v.minDamper <= v.maxDamper ==> v.minDamper <= r.damper <= v.maxDamper
    // active branch, refill detected: the damper is computed with errI == 0
    ensures Active(v, s) && ResetFires(v.reset, r.state.hist) ==>
      && r.state.errI == 0
      && r.damper == Clamp(pid(r.state.errP, 0, r.state.errD), v.minDamper, v.maxDamper)
    // active branch, no refill: the integral accumulates errP
    ensures Active(v, s) && !ResetFires(v.reset, r.state.hist) ==>
      && r.damper == Clamp(pid(r.state.errP, s.errI + r.state.errP, r.state.errD), v.minDamper, v.maxDamper)
      && r.state.errI == (if v.floorIntegral && s.errI + r.state.errP < 0 then 0 else s.errI + r.state.errP)
    // end branch: PID state frozen, damper closed only below temperatureMin
    ensures !Active(v, s) ==>
      && r.state == s.(errI := r.state.errI)
      && r.state.errI == (if v.floorIntegral && s.errI < 0 then 0 else s.errI)
      && r.damper == (if temperature < v.temperatureMin then v.zeroDamper else damper)
    ensures v.floorIntegral ==> r.state.errI >= 0
  {
    var r0 :=
      if s.errI < v.endTrigger then
        var errP := target - temperature;
        var errI := s.errI + errP;
        var errD := errP - s.errOld;
        var obs := WoodFilled(s.hist, temperature);
        var errI' := if ResetFires(v.reset, obs.hist) then 0 else errI;
        StepResult(PidState(obs.hist, errP, errI', errD, errP),
                   Clamp(pid(errP, errI', errD), v.minDamper, v.maxDamper))
      else
        StepResult(s, if temperature < v.temperatureMin then v.zeroDamper else damper);
    if v.floorIntegral && r0.state.errI < 0 then r0.(state := r0.state.(errI := 0)) else r0
  }

  /** The bench versions reset the integral exactly when `WoodFilled` reports
      a refill and otherwise let it accumulate with no floor (it may go
      negative); their damper stays within 0..180. */
  lemma BenchStep(pid: PidOutput, s: PidState, target: int, temperature: int, damper: int)
    requires Active(Bench, s)
    ensures var r := ControlStep(Bench, pid, s, target, temperature, damper);
            && (WoodFilled(s.hist, temperature).filled ==> r.state.errI == 0)
            && (!WoodFilled(s.hist, temperature).filled ==> r.state.errI == s.errI + target - temperature)
            && 0 <= r.damper <= 180
  {
  }

  /** The firmware's averaged rule resets the integral at least whenever
      `WoodFilled` reports a refill; its damper stays within 0..100. */
  lemma LiveStep(pid: PidOutput, s: PidState, target: int, temperature: int, damper: int)
    requires Active(Live, s)
    ensures var r := ControlStep(Live, pid, s, target, temperature, damper);
            && (WoodFilled(s.hist, temperature).filled ==> r.state.errI == 0)
            && 0 <= r.damper <= 100
  {
    StrictResetImpliesAveragedReset(Shift(s.hist, temperature));
  }

  /** One control-loop input: the target and the measured temperature. */
  datatype Tick = Tick(target: int, temperature: int)

  /** Successive `damperControlLoop` calls over a trace of inputs. */
  function Run(v: Variant, pid: PidOutput, s: PidState, damper: int, ticks: seq<Tick>): StepResult
    decreases |ticks|
  {
    if |ticks| == 0 then StepResult(s, damper)
    else
      var r := ControlStep(v, pid, s, ticks[0].target, ticks[0].temperature, damper);
      Run(v, pid, r.state, r.damper, ticks[1..])
  }

  /** End of burn is absorbing: whatever temperatures follow, the PID state
      never changes again and the damper is either left alone or closed, and
      it is closed exactly when some later temperature dropped below
      `temperatureMin`. */
  lemma {:induction false} EndIsAbsorbing(v: Variant, pid: PidOutput, s: PidState, damper: int, ticks: seq<Tick>)
    requires v.endTrigger <= s.errI
    requires 0 <= s.errI || !v.floorIntegral
    ensures Run(v, pid, s, damper, ticks).state == s
    ensures (exists k :: 0 <= k < |ticks| && ticks[k].temperature < v.temperatureMin) ==>
      Run(v, pid, s, damper, ticks).damper == v.zeroDamper
    ensures (forall k :: 0 <= k < |ticks| ==> ticks[k].temperature >= v.temperatureMin) ==>
      Run(v, pid, s, damper, ticks).damper == damper
    decreases |ticks|
  {
    if |ticks| > 0 {
      var r := ControlStep(v, pid, s, ticks[0].target, ticks[0].temperature, damper);
      assert r.state == s;
      EndIsAbsorbing(v, pid, s, r.damper, ticks[1..]);
      if ticks[0].temperature < v.temperatureMin {
        ZeroDamperStaysClosed(v, pid, s, ticks[1..]);
      } else {
        assert r.damper == damper;
        if exists k :: 0 <= k < |ticks| && ticks[k].temperature < v.temperatureMin {
          var k :| 0 <= k < |ticks| && ticks[k].temperature < v.temperatureMin;
          assert ticks[1..][k - 1] == ticks[k];
        }
        if forall k :: 0 <= k < |ticks| ==> ticks[k].temperature >= v.temperatureMin {
          forall k | 0 <= k < |ticks[1..]|
            ensures ticks[1..][k].temperature >= v.temperatureMin
          {
            assert ticks[1..][k] == ticks[k + 1];
          }
        }
      }
    }
  }

  /** After end of burn, a closed damper stays closed. */
  lemma {:induction false} ZeroDamperStaysClosed(v: Variant, pid: PidOutput, s: PidState, ticks: seq<Tick>)
    requires v.endTrigger <= s.errI
    requires 0 <= s.errI || !v.floorIntegral
    ensures Run(v, pid, s, v.zeroDamper, ticks) == StepResult(s, v.zeroDamper)
    decreases |ticks|
  {
    if |ticks| > 0 {
      ZeroDamperStaysClosed(v, pid, s, ticks[1..]);
    }
  }

  /** Over any trace, a well-formed variant keeps the damper within
      [minDamper, maxDamper], and the firmware's floor keeps the integral
      non-negative. */
  lemma {:induction false} RunKeepsInvariants(v: Variant, pid: PidOutput, s: PidState, damper: int, ticks: seq<Tick>)
    requires WellFormed(v)
    requires v.minDamper <= damper <= v.maxDamper
    requires v.floorIntegral ==> s.errI >= 0
    ensures v.minDamper <= Run(v, pid, s, damper, ticks).damper <= v.maxDamper
    ensures v.floorIntegral ==> Run(v, pid, s, damper, ticks).state.errI >= 0
    decreases |ticks|
  {
    if |ticks| > 0 {
      var r := ControlStep(v, pid, s, ticks[0].target, ticks[0].temperature, damper);
      RunKeepsInvariants(v, pid, r.state, r.damper, ticks[1..]);
    }
  }

  /** `average(arr, start, count)`: the C quotient of the sum of
      `arr[start .. start + count)` by `count`; for non-negative entries that
      is the floor of the mean. */
  method Average(arr: seq<int>, start: int, count: int) returns (r: int)
    requires 0 <= start && 0 < count && start + count <= |arr|
    ensures r == TruncDiv(Sum(arr[start..start + count]), count)
    ensures (forall i :: start <= i < start + count ==> arr[i] >= 0) ==>
      r * count <= Sum(arr[start..start + count]) < (r + 1) * count
  {
    var sum := 0;
    var i := start;
    while i < start + count
      invariant start <= i <= start + count
      invariant sum == Sum(arr[start..i])
    {
      assert arr[start..i + 1][..i - start] == arr[start..i];
      sum := sum + arr[i];
      i := i + 1;
    }
    r := TruncDiv(sum, count);
    if forall i :: start <= i < start + count ==> arr[i] >= 0 {
      SumNonNegative(arr[start..start + count]);
      DivBounds(sum, count);
    }
  }

  /** Which formula derives kD from kP and tauD. The firmware file uses
      `kP / tauD`; the settings screen and settings loader use `kP * tauD`. */
  datatype DerivativeRule = KpOverTauD | KpTimesTauD

  datatype Coefficients = Coefficients(kP: real, kI: real, kD: real)

  /** `kI = kP / tauI` and kD by the chosen rule. */
  function Derive(kP: real, tauI: real, tauD: real, rule: DerivativeRule): (c: Coefficients)
    requires tauI != 0.0 && tauD != 0.0
    ensures c.kP == kP && c.kI * tauI == kP
    ensures rule == KpOverTauD ==> c.kD * tauD == kP
    ensures rule == KpTimesTauD ==> c.kD == kP * tauD
  {
    Coefficients(kP, kP / tauI, match rule case KpOverTauD => kP / tauD case KpTimesTauD => kP * tauD)
  }

  /** The two kD conventions agree only when tauD is 1. */
  lemma DerivativeRulesAgreeOnlyAtUnitTau(kP: real, tauI: real, tauD: real)
    requires kP != 0.0 && tauI != 0.0 && tauD > 0.0
    ensures Derive(kP, tauI, tauD, KpOverTauD).kD == Derive(kP, tauI, tauD, KpTimesTauD).kD <==> tauD == 1.0
  {
    var over, times := kP / tauD, kP * tauD;
    if over == times {
      calc {
        kP * (tauD * tauD);
        (kP * tauD) * tauD;
        times * tauD;
        over * tauD;
        kP;
      }
      assert kP * (tauD * tauD - 1.0) == 0.0;
      assert tauD * tauD == 1.0;
    }
  }

  /** The concrete PID output: the real-valued sum assigned to an `int`
      (truncated). Float rounding of the sum is not modelled. */
  function RealPid(c: Coefficients): (f: PidOutput)
    // no error, no opening
    ensures f(0, 0, 0) == 0
    // non-negative gains and errors never ask for a negative opening
    ensures c.kP >= 0.0 && c.kI >= 0.0 && c.kD >= 0.0 ==>
      forall p: int, i: int, d: int :: p >= 0 && i >= 0 && d >= 0 ==> f(p, i, d) >= 0
  {
    (p: int, i: int, d: int) => Output(c, p, i, d)
  }

  /** `kP*errP + kI*errI + kD*errD` assigned to an `int`. */
  function Output(c: Coefficients, p: int, i: int, d: int): (r: int)
    ensures p == 0 && i == 0 && d == 0 ==> r == 0
    ensures c.kP >= 0.0 && c.kI >= 0.0 && c.kD >= 0.0 && p >= 0 && i >= 0 && d >= 0 ==> r >= 0
  {
    var x := c.kP * p as real + c.kI * i as real + c.kD * d as real;
    if c.kP >= 0.0 && c.kI >= 0.0 && c.kD >= 0.0 && p >= 0 && i >= 0 && d >= 0 then
      ProductNonNegative(c.kP, p as real);
      ProductNonNegative(c.kI, i as real);
      ProductNonNegative(c.kD, d as real);
      FloatToInt(x)
    else FloatToInt(x)
  }

  lemma ProductNonNegative(a: real, b: real)
    requires a >= 0.0 && b >= 0.0
    ensures a * b >= 0.0
  {
  }

  /** Gains of lib/damper_control/damper_control.cpp (kP 15, tauI 1000, tauD 5, kD = kP/tauD). */
  const LiveGains: Coefficients := Coefficients(15.0, 15.0 / 1000.0, 15.0 / 5.0)

  /** Gains of the bench versions (given directly). */
  const BenchGains: Coefficients := Coefficients(1.0, 0.1, 0.01)

  /** The firmware's damper while active: `15*errP + 0.015*errI + 3*errD`
      truncated and clamped to 0..100, where errI is the integral before the
      non-negativity floor (0 after a detected refill). */
  lemma LiveDamperFormula(s: PidState, target: int, temperature: int, damper: int)
    requires Active(Live, s)
    ensures var r := ControlStep(Live, RealPid(LiveGains), s, target, temperature, damper);
            var errI := if ResetFires(Live.reset, r.state.hist) then 0 else s.errI + r.state.errP;
            r.damper == Clamp(FloatToInt(15.0 * r.state.errP as real + 0.015 * errI as real + 3.0 * r.state.errD as real), 0, 100)
  {
  }

  /** The bench damper while active: `errP + 0.1*errI + 0.01*errD` truncated
      and clamped to 0..180. */
  lemma BenchDamperFormula(s: PidState, target: int, temperature: int, damper: int)
    requires Active(Bench, s)
    ensures var r := ControlStep(Bench, RealPid(BenchGains), s, target, temperature, damper);
            r.damper == Clamp(FloatToInt(1.0 * r.state.errP as real + 0.1 * r.state.errI as real + 0.01 * r.state.errD as real), 0, 180)
  {
  }

  lemma LiveGainsAreDerivedWithKpOverTauD()
    ensures LiveGains == Derive(15.0, 1000.0, 5.0, KpOverTauD)
    ensures LiveGains.kD == 3.0
  {
  }
}
