/** The display refresh scheduler `display_manager_update`: which parts of the
    screen are redrawn on one call, from force flags, change inputs and
    interval fallbacks. The drawing calls are outputs (a `Refresh` record);
    `millis()` and `hasTemperatureChanged()` are inputs; the one-shot
    `targetTempChanged` flag of the chat handler is passed in and out, since
    `isTargetTempChanged()` reads and clears it. */
module DisplayManager {
  import opened CArith

  /** Refresh intervals in ms (`uint32_t`); 0 switches a fallback off. */
  datatype Intervals = Intervals(temp: ULong, damper: ULong, time: ULong, touch: ULong)

  /** The DEFAULT_*_UPDATE_INTERVAL values of the pure event-driven
      configuration, also installed by `display_manager_apply_config_preset`. */
  const Defaults: Intervals := Intervals(0, 0, 30000, 50)

  datatype Flags = Flags(temp: bool, damper: bool, damperStatus: bool, time: bool, all: bool)

  const NoFlags: Flags := Flags(false, false, false, false, false)

  datatype Manager = Manager(
    lastTemp: ULong, lastDamper: ULong, lastTime: ULong, lastTouch: ULong,
    intervals: Intervals, flags: Flags, initialized: bool)

  /** The zero-initialised static state before `display_manager_init`. */
  const Zero: Manager := Manager(0, 0, 0, 0, Intervals(0, 0, 0, 0), NoFlags, false)

  /** `display_manager_init()` at time `now`: every timer restarts, default
      intervals, every pending notice dropped. */
  function Init(m: Manager, now: ULong): (r: Manager)
    ensures r.initialized && r.intervals == Defaults && r.flags == NoFlags
    ensures r.lastTemp == now && r.lastDamper == now && r.lastTime == now && r.lastTouch == now
  {
    Manager(now, now, now, now, Defaults, NoFlags, true)
  }

  /** The drawing calls made by one update. */
  datatype Refresh = Refresh(touch: bool, bars: bool, targetLabel: bool, damper: bool, damperStatus: bool, time: bool)

  const Nothing: Refresh := Refresh(false, false, false, false, false, false)

  /** The clock at self-initialisation, the clock afterwards, and what
      `hasTemperatureChanged()` answers. */
  datatype Inputs = Inputs(initNow: ULong, now: ULong, tempChanged: bool)

  datatype Outcome = Outcome(manager: Manager, refresh: Refresh, targetFlag: bool)

  /** The manager an update works on: initialised on first use. */
  function Ready(m: Manager, io: Inputs): Manager
  {
    if m.initialized then m else Init(m, io.initNow)
  }

  /** Temperature fallback: interval > 0 and more than three intervals since
      the last temperature refresh (the product is a `uint32_t` and wraps). */
  predicate TempFallback(m: Manager, now: ULong)
  {
    m.intervals.temp > 0 && Elapsed(now, m.lastTemp) > Mul32(m.intervals.temp, 3)
  }

  /** Damper fallback: interval > 0 and more than five intervals. */
  predicate DamperFallback(m: Manager, now: ULong)
  {
    m.intervals.damper > 0 && Elapsed(now, m.lastDamper) > Mul32(m.intervals.damper, 5)
  }

  /** One update. With `readFlagOnce` false this is the code as written: the
      target flag is evaluated by the short-circuit `||` of the refresh decision
      (consuming it there unless an earlier operand already held) and read a
      second time for the label. With `readFlagOnce` true the flag is read
      once and that value serves both decisions. */
  function Schedule(m0: Manager, targetFlag: bool, io: Inputs, readFlagOnce: bool): Outcome
  {
    var m := Ready(m0, io);
    var f := m.flags;
    var now := io.now;
    var touch := Elapsed(now, m.lastTouch) >= m.intervals.touch || f.all;
    var early := f.temp || f.all || io.tempChanged;
    // the flag as the label decision sees it
    var flagAtLabel := if readFlagOnce then targetFlag else early && targetFlag;
    var bars := early || targetFlag || TempFallback(m, now);
    var relabel := bars && (flagAtLabel || f.temp);
    var damper := f.damper || f.all || DamperFallback(m, now);
    var status := f.damperStatus || f.all;
    var time := Elapsed(now, m.lastTime) >= m.intervals.time || f.time || f.all;
    var m' := Manager(
      if bars then now else m.lastTemp,
      if damper then now else m.lastDamper,
      if time then now else m.lastTime,
      if touch then now else m.lastTouch,
      m.intervals,
      Flags(
        if bars then false else f.temp,
        if damper then false else f.damper,
        if status then false else f.damperStatus,
        if time then false else f.time,
        false),
      true);
    // whichever branch ran, `isTargetTempChanged()` was called at least once
    Outcome(m', Refresh(touch, bars, relabel, damper, status, time), false)
  }

  /** `display_manager_update()` with the target flag read once: the refresh
      rules of the firmware, the target label redrawn whenever the target
      changed or a temperature refresh was forced. */
  function Update(m: Manager, targetFlag: bool, io: Inputs): (r: Outcome)
    ensures r.manager.initialized
    ensures r.manager.intervals == Ready(m, io).intervals
    // every notice is served: all force flags end cleared, and so does the target flag
    ensures r.manager.flags == NoFlags && !r.targetFlag
    ensures r.refresh.touch <==> Elapsed(io.now, Ready(m, io).lastTouch) >= Ready(m, io).intervals.touch || Ready(m, io).flags.all
    ensures r.refresh.bars <==>
      Ready(m, io).flags.temp || Ready(m, io).flags.all || io.tempChanged || targetFlag || TempFallback(Ready(m, io), io.now)
    ensures r.refresh.targetLabel <==> targetFlag || Ready(m, io).flags.temp
    ensures r.refresh.targetLabel ==> r.refresh.bars
    ensures r.refresh.damper <==> Ready(m, io).flags.damper || Ready(m, io).flags.all || DamperFallback(Ready(m, io), io.now)
    ensures r.refresh.damperStatus <==> Ready(m, io).flags.damperStatus || Ready(m, io).flags.all
    ensures r.refresh.time <==>
      Elapsed(io.now, Ready(m, io).lastTime) >= Ready(m, io).intervals.time || Ready(m, io).flags.time || Ready(m, io).flags.all
    // a timer restarts exactly when its part is redrawn
    ensures r.manager.lastTemp == if r.refresh.bars then io.now else Ready(m, io).lastTemp
    ensures r.manager.lastDamper == if r.refresh.damper then io.now else Ready(m, io).lastDamper
    ensures r.manager.lastTime == if r.refresh.time then io.now else Ready(m, io).lastTime
    ensures r.manager.lastTouch == if r.refresh.touch then io.now else Ready(m, io).lastTouch
  {
    Schedule(m, targetFlag, io, true)
  }

  /** `display_manager_update()` as written. It differs from `Update` only in
      the target label, which is redrawn when a temperature refresh was forced,
      or when the target changed AND the first call of `isTargetTempChanged()`
      was skipped by the short circuit (force_all or a temperature change). */
  function UpdateAsWritten(m: Manager, targetFlag: bool, io: Inputs): (r: Outcome)
    ensures r.refresh.targetLabel <==>
      Ready(m, io).flags.temp || (targetFlag && (Ready(m, io).flags.all || io.tempChanged))
    ensures r.manager == Update(m, targetFlag, io).manager
    ensures r.targetFlag == Update(m, targetFlag, io).targetFlag
    ensures r.refresh == Update(m, targetFlag, io).refresh.(targetLabel := r.refresh.targetLabel)
  {
    Schedule(m, targetFlag, io, false)
  }

  /** The defect: a target change with no other reason to refresh redraws the
      bars, but the target label only in the corrected scheduler. */
  lemma AsWrittenMissesTargetLabel()
    ensures var m := Init(Zero, 0);
            var io := Inputs(0, 10, false);
            && UpdateAsWritten(m, true, io).refresh.bars
            && !UpdateAsWritten(m, true, io).refresh.targetLabel
            && Update(m, true, io).refresh.targetLabel
  {
  }

  /** In the firmware the only writer of the target flag also raises the
      temperature notice, which masks the defect: after that notice the
      as-written scheduler redraws the label too. */
  lemma NotifiedTargetChangeRelabels(m: Manager, io: Inputs)
    requires m.initialized
    ensures UpdateAsWritten(Notify(m, TargetTempChanged), true, io).refresh.targetLabel
    ensures Update(Notify(m, TargetTempChanged), true, io).refresh.targetLabel
  {
  }

  /** Pure event-driven intervals: with temperature and damper intervals 0,
      those parts are redrawn only for a flag or a change input, however much
      time passes. */
  lemma {:induction false} ZeroIntervalsMeanNoFallback(m: Manager, targetFlag: bool, io: Inputs)
    requires Ready(m, io).intervals.temp == 0 && Ready(m, io).intervals.damper == 0
    ensures UpdateAsWritten(m, targetFlag, io).refresh.bars <==>
      Ready(m, io).flags.temp || Ready(m, io).flags.all || io.tempChanged || targetFlag
    ensures UpdateAsWritten(m, targetFlag, io).refresh.damper <==> Ready(m, io).flags.damper || Ready(m, io).flags.all
  {
    assert !TempFallback(Ready(m, io), io.now);
    assert !DamperFallback(Ready(m, io), io.now);
  }

  /** A second update at the same instant, with nothing changed and no notice
      in between, redraws nothing (when the time and touch intervals are
      positive). */
  lemma SecondUpdateIsQuiet(m: Manager, targetFlag: bool, io: Inputs)
    requires Ready(m, io).intervals.time > 0 && Ready(m, io).intervals.touch > 0
    ensures var r := UpdateAsWritten(m, targetFlag, io);
            UpdateAsWritten(r.manager, r.targetFlag, Inputs(io.now, io.now, false)).refresh == Nothing
  {
    var r := UpdateAsWritten(m, targetFlag, io);
    assert Elapsed(io.now, io.now) == 0;
  }

  /** A manager used before `display_manager_init` initialises itself, and
      anything noticed before that first update is forgotten. */
  lemma SelfInitDropsEarlyNotices(m: Manager, m': Manager, targetFlag: bool, io: Inputs)
    requires !m.initialized && !m'.initialized
    ensures UpdateAsWritten(m, targetFlag, io) == UpdateAsWritten(m', targetFlag, io)
    ensures UpdateAsWritten(m, targetFlag, io).manager.initialized
  {
    assert Ready(m, io) == Ready(m', io);
  }

  /** The setters of the display manager. */
  datatype Notice =
    | ForceAll              // display_manager_force_update_all
    | ForceTemperature      // display_manager_force_update_temperature
    | ForceDamper           // display_manager_force_update_damper
    | ForceTime             // display_manager_force_update_time
    | TemperatureChanged    // display_manager_notify_temperature_changed
    | DamperChanged         // display_manager_notify_damper_changed
    | DamperPositionChanged // display_manager_notify_damper_position_changed
    | TargetTempChanged     // display_manager_notify_target_temp_changed
    | TimeSynced            // display_manager_notify_time_synced

  /** Each setter raises exactly one flag and changes nothing else. */
  function Notify(m: Manager, n: Notice): (r: Manager)
    ensures r == m.(flags := r.flags)
    ensures n == ForceAll ==> r.flags == m.flags.(all := true)
    ensures n in {ForceTemperature, TemperatureChanged, TargetTempChanged} ==> r.flags == m.flags.(temp := true)
    ensures n in {ForceDamper, DamperPositionChanged} ==> r.flags == m.flags.(damper := true)
    ensures n == DamperChanged ==> r.flags == m.flags.(damperStatus := true)
    ensures n in {ForceTime, TimeSynced} ==> r.flags == m.flags.(time := true)
  {
    var f := m.flags;
    m.(flags := match n
      case ForceAll => f.(all := true)
      case ForceTemperature | TemperatureChanged | TargetTempChanged => f.(temp := true)
      case ForceDamper | DamperPositionChanged => f.(damper := true)
      case DamperChanged => f.(damperStatus := true)
      case ForceTime | TimeSynced => f.(time := true))
  }

  /** The part of the screen a notice asks for. */
  predicate Serves(n: Notice, r: Refresh)
  {
    match n
    case ForceAll => r.touch && r.bars && r.damper && r.damperStatus && r.time
    case ForceTemperature | TemperatureChanged | TargetTempChanged => r.bars && r.targetLabel
    case ForceDamper | DamperPositionChanged => r.damper
    case DamperChanged => r.damperStatus
    case ForceTime | TimeSynced => r.time
  }

  /** Every notice given to an initialised manager is served by the next
      update, whatever the clock and the change inputs say. */
  lemma NoticeServedByNextUpdate(m: Manager, n: Notice, targetFlag: bool, io: Inputs)
    requires m.initialized
    ensures Serves(n, UpdateAsWritten(Notify(m, n), targetFlag, io).refresh)
    ensures Serves(n, Update(Notify(m, n), targetFlag, io).refresh)
  {
  }

  /** `display_manager_set_update_intervals`: only the four intervals change. */
  function SetUpdateIntervals(m: Manager, temp: ULong, damper: ULong, time: ULong, touch: ULong): (r: Manager)
    ensures r.intervals == Intervals(temp, damper, time, touch)
    ensures r.(intervals := m.intervals) == m
  {
    m.(intervals := Intervals(temp, damper, time, touch))
  }

  /** `display_manager_apply_config_preset`: the configured intervals. */
  function ApplyConfigPreset(m: Manager): (r: Manager)
    ensures r == SetUpdateIntervals(m, Defaults.temp, Defaults.damper, Defaults.time, Defaults.touch)
  {
    m.(intervals := Defaults)
  }
}
