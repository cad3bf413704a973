# ESP32 stove controller: a Dafny model of the combustion core

This project models the logic of an ESP32 firmware that regulates the air
damper of a wood-burning stove. The model covers these parts:

- **The combustion PID step** (`damperControlLoop`) and the wood-refill
  detector (`WoodFilled`).
  - The firmware version and the two bench versions share one function. A
    `Variant` record carries the differences: constants, the integral-reset
    rule and the floor on the integral.
  - The PID output `kP*errP + kI*errI + kD*errD` is an abstract function
    parameter. Every clamp, reset and end-of-burn property therefore holds
    for any gains. `RealPid` gives the concrete formula.
- **The servo stepping plan** (`moveServoToDamper`): the list of pulse widths
  written while walking the damper from its last position to the new one.
- **The damper task**: one PID step followed by one servo move, repeated over
  a trace of inputs.
- **The two-phase temperature poll** (`updateTemperature`): request a
  conversion, read it 100 ms later, and substitute 10 °C for negative
  readings.
- **The capacitive touch button** (`touchButtonPressed`, `touchButtonHandle`):
  edge-triggered and debounced.
- **The display refresh scheduler** (`display_manager_*`): force flags,
  change notices and interval fallbacks, with `unsigned long` clocks that
  wrap.
- **The Telegram chat handler** (`handleTelegramMessages`,
  `isTargetTempChanged`): the three "waiting for a reply" prompts and the
  digit answers that set the target temperature, kP or the minimum
  temperature.
- **The settings-screen normalisers**: clamp-and-round of the stored target,
  read interval and low-temperature timeout, and the slider callbacks.
- **The bench touch-panel filter**: validity test, mapping to the screen, the
  five-slot history and the trimmed mean.

C semantics are written out in `CArith`:

- Truncating `/`.
- `float` to `int` by truncation.
- 32-bit `unsigned long` subtraction and multiplication that wrap.
- The two-statement clamp `if (v < lo) v = lo; if (v > hi) v = hi;`.

Clocks, sensor readings, panel readings, `hasTemperatureChanged()` and the
outcome of NTP synchronisation are inputs of the functions that use them.

Three facts of the firmware shape the model:

- The firmware resets the integral when the truncated mean of the newer half
  of the history is *at least* that of the older half. The bench versions
  reset only when the newer half's sum is strictly greater.
- A negative sensor reading is replaced by 10 °C.
- kD is `kP / tauD` in the control loop but `kP * tauD` in the settings
  screen and the settings loader. The model records both conventions
  (`Derive`) and proves that they disagree unless tauD is 1. It does not pick
  one.

## Model

| member | source | states |
|---|---|---|
| DamperControl.Shift | lib/damper_control/damper_control.cpp:59-62 | the new sample becomes the newest entry; every older entry moves one place back and the oldest is dropped |
| DamperControl.WoodFilled | lib/damper_control/damper_control.cpp:58-74 | a refill is reported iff the new sample plus the four newest old samples sum to more than old samples 4..8 (old sample 9 is evicted first) |
| DamperControl.StrictResetImpliesAveragedReset | lib/damper_control/damper_control.cpp:84-94 | the firmware's averaged reset (`sum_recent/5 >= sum_old/5`) fires whenever the bench rule (`sum_recent > sum_old`) fires |
| DamperControl.SteadyTemperatureResetsOnlyLive | test/Untitled-1.cpp:87-94 | on a constant temperature history the firmware resets the integral and the bench rule does not |
| DamperControl.ControlStep | lib/damper_control/damper_control.cpp:76-107 | below endTrigger: errP, errD and errOld are updated, the history is shifted, and the damper is the clamped PID output. After a detected refill that output is computed with errI = 0; otherwise errI accumulates errP. At or above endTrigger the PID state is frozen and the damper is closed only below temperatureMin. The firmware's floor keeps errI >= 0 |
| DamperControl.BenchStep | test/damper_control.cpp:53-77 | the bench loop resets the integral exactly when `WoodFilled` reports a refill. Otherwise errI accumulates with no floor, so it can go negative. The damper stays in 0..180 |
| DamperControl.LiveStep | lib/damper_control/damper_control.cpp:82-97 | whenever `WoodFilled` reports a refill, the firmware step resets the integral too; its damper stays in 0..100 |
| DamperControl.EndIsAbsorbing | lib/damper_control/damper_control.cpp:98-102 | once errI reaches endTrigger, no later input changes the PID state; the damper ends closed iff some later temperature was below temperatureMin, and otherwise keeps its value |
| DamperControl.ZeroDamperStaysClosed | lib/damper_control/damper_control.cpp:99-101 | after end of burn a closed damper stays closed whatever temperatures follow |
| DamperControl.RunKeepsInvariants | lib/damper_control/damper_control.cpp:95-106 | over any trace of inputs the damper stays within [minDamper, maxDamper], and with the floor errI is never negative |
| DamperControl.Average | lib/damper_control/damper_control.cpp:50-56 | the result is the C quotient of the window's sum by count; for non-negative entries it is the floor of the mean |
| DamperControl.Derive | lib/damper_control/damper_control.cpp:22-26 | kI·tauI = kP; kD·tauD = kP under the control loop's rule; kD = kP·tauD under the settings rule |
| DamperControl.DerivativeRulesAgreeOnlyAtUnitTau | lib/lvgl_display/settings_screen.cpp:264-267 | the settings screen's kD = kP·tauD equals the control loop's kP/tauD iff tauD = 1 |
| DamperControl.RealPid | lib/damper_control/damper_control.cpp:95 | the concrete PID output: zero errors give a zero opening, and non-negative gains and errors never ask for a negative opening |
| DamperControl.Output | lib/damper_control/damper_control.cpp:95 | the float sum assigned to `int`: zero for zero errors, non-negative for non-negative gains and errors |
| DamperControl.LiveDamperFormula | lib/damper_control/damper_control.cpp:95-97 | with the firmware gains an active step sets the damper to 15·errP + 0.015·errI + 3·errD truncated and clamped to 0..100, with errI taken before the floor of line 104 (0 after a refill) |
| DamperControl.BenchDamperFormula | test/damper_control.cpp:69-71 | with the bench gains an active step sets the damper to errP + 0.1·errI + 0.01·errD truncated and clamped to 0..180 |
| DamperControl.LiveGainsAreDerivedWithKpOverTauD | lib/damper_control/damper_control.cpp:25-26 | the firmware's gains come from kP 15, tauI 1000 and tauD 5 by the kP/tauD rule, so kD is 3 |
| ServoPlan.Angle | lib/damper_control/damper_control.cpp:117 | the float angle expression, assigned to `int`, equals `p*35/150 + 29` in integer arithmetic for every non-negative position |
| ServoPlan.PulseWidth | lib/damper_control/damper_control.cpp:118 | for every non-negative position the pulse is the linear image of the angle on [minUs, maxUs] over [minAngle, maxAngle], rounded down |
| ServoPlan.PulseWidthMonotone | lib/damper_control/damper_control.cpp:117-118 | a larger non-negative position never gets a shorter pulse |
| ServoPlan.PulseWidthInWindow | lib/damper_control/damper_control.cpp:38-41 | the 0..100 % stroke maps into 822..1077 µs, inside the servo's [minUs, maxUs] = [500, 2500] window |
| ServoPlan.StepUp | lib/damper_control/damper_control.cpp:115-121 | an upward move of n % writes n pulses; the k-th is for position from+k+1 |
| ServoPlan.StepDown | lib/damper_control/damper_control.cpp:122-128 | a downward move of n % writes n pulses; the k-th is for position from−k−1 |
| ServoPlan.MoveServoToDamper | lib/damper_control/damper_control.cpp:111-133 | a move of at most 8 % writes nothing and keeps oldDamper. A larger move writes one pulse per percent and ends exactly at the target, which becomes oldDamper. The pulses are monotone in the direction of travel and all inside [minUs, maxUs] on the 0..100 stroke |
| ServoPlan.PlanShape | lib/damper_control/damper_control.cpp:113-129 | any plan that visits the positions one percent at a time is monotone in its direction and stays inside the pulse window |
| DamperTask.Iterate | lib/damper_control/damper_control.cpp:137-143 | one task iteration is the PID step followed by the servo move for the new damper; with the damper range inside the stroke, the damper and oldDamper stay in 0..100 and every pulse is inside the window |
| DamperTask.RunTask | lib/damper_control/damper_control.cpp:137-143 | with the firmware constants, from any start inside the stroke with a non-negative integral and over any input trace, the damper and oldDamper stay in 0..100, every pulse ever written lies in [500, 2500] µs and errI stays non-negative |
| TemperaturePoll.Update | lib/temperature/temperature.cpp:23-38 | a conversion is requested iff none is pending and 3000 ms have elapsed since the last read (wrap-safe). A pending one is read iff 100 ms have elapsed since its request. Both never happen in one call. A read stores the reading, or 10 for a negative one, and restarts the read timer. A call that neither requests nor reads changes nothing |
| TemperaturePoll.RequestsAndReadsAlternate | lib/temperature/temperature.cpp:24-37 | over any sequence of calls requests and reads strictly alternate; whether a request is pending afterwards follows from the parity of the events |
| TemperaturePoll.TemperatureStaysNonNegative | lib/temperature/temperature.cpp:31-34 | the published temperature never becomes negative over any run |
| TouchButton.Pressed | lib/touch_button/touch_button.cpp:20-34 | a press is reported iff the first reading is strictly above the threshold, the pad was released, and more than debounceMs have elapsed since the last press (wrap-safe). A press records the time and marks the pad held. Otherwise the pad is released iff the second reading is strictly below the threshold |
| TouchButton.Handle | lib/touch_button/touch_button.cpp:36-41 | a press adds step to the target, wrapping to minTemp past maxTemp; no press leaves the target alone; a target in [minTemp, maxTemp] stays there |
| TouchButton.HeldPadNeverRepeats | lib/touch_button/touch_button.cpp:22-32 | while the pad is held and never read below the threshold, no further press is reported, however much time passes |
| TouchButton.ReleaseBetweenPresses | lib/touch_button/touch_button.cpp:22-32 | between any two reported presses there is a call whose second reading was below the threshold |
| TouchButton.FinalAfterPress | lib/touch_button/touch_button.cpp:25-27 | right after a reported press the pad counts as held |
| DisplayManager.Init | lib/display_manager/display_manager.cpp:38-60 | every timer restarts at now, the default intervals are installed and every pending flag is dropped |
| DisplayManager.Update | lib/display_manager/display_manager.cpp:62-139 | corrected scheduler. Touch is redrawn on its interval or force_all. Bars are redrawn on a temperature flag, force_all, a temperature change, a target change or the 3× fallback. The target label is redrawn iff the target changed or a temperature refresh was forced. The damper is redrawn on its flag, force_all or the 5× fallback. The status is redrawn on its flag or force_all. The time is redrawn on its interval, its flag or force_all. Each timer restarts iff its part was redrawn. All flags and the target flag end cleared |
| DisplayManager.UpdateAsWritten | lib/display_manager/display_manager.cpp:78-95 | the code as written redraws the target label iff a temperature refresh was forced, or the target changed and the first `isTargetTempChanged()` call was skipped by the short circuit; everything else equals the corrected scheduler |
| DisplayManager.AsWrittenMissesTargetLabel | lib/display_manager/display_manager.cpp:81-93 | a concrete state where a target change redraws the bars but, as written, not the target label |
| DisplayManager.NotifiedTargetChangeRelabels | lib/wifi/wifi1.cpp:214-215 | when the target flag comes with the target-changed notice, as the chat handler raises them, both schedulers redraw the label |
| DisplayManager.ZeroIntervalsMeanNoFallback | lib/display_manager/display_manager.cpp:83-87 | with temperature and damper intervals 0 those parts are redrawn only on a flag or a change, however long it has been |
| DisplayManager.SecondUpdateIsQuiet | lib/display_manager/display_manager.cpp:97-139 | with positive time and touch intervals, a second update at the same instant with no new notice or change redraws nothing |
| DisplayManager.SelfInitDropsEarlyNotices | lib/display_manager/display_manager.cpp:63-65 | an update on an uninitialised manager initialises it first, so flags raised before it are forgotten |
| DisplayManager.Notify | lib/display_manager/display_manager.cpp:142-189 | each setter raises exactly its own flag (force_all, temperature, damper position, damper status or time) and changes nothing else |
| DisplayManager.NoticeServedByNextUpdate | lib/display_manager/display_manager.cpp:89-134 | every notice given to an initialised manager is served by the next update in both schedulers, whatever the clock says |
| DisplayManager.SetUpdateIntervals | lib/display_manager/display_manager.cpp:158-168 | only the four intervals change, to the given values |
| DisplayManager.ApplyConfigPreset | lib/display_manager/display_manager.cpp:191-197 | the preset is the interval setter applied to the configured 0/0/30000/50 ms |
| ChatControl.LeadingDigits | lib/wifi/wifi1.cpp:213 | the digit prefix `toInt` reads: a prefix of the text, all digits, and followed by a non-digit or the end |
| ChatControl.ToInt | lib/wifi/wifi1.cpp:213 | `toInt` reads the leading digits only; a text not led by a digit reads 0, and one led by a non-zero digit never reads 0 |
| ChatControl.Decimal | lib/wifi/wifi1.cpp:216 | `String(n)` is non-empty, all digits and without a leading zero |
| ChatControl.DecimalRoundTrip | lib/wifi/wifi1.cpp:213-216 | `toInt` of `String(n)` followed by any non-digit tail gives n back |
| ChatControl.Handle | lib/wifi/wifi1.cpp:175-278 | see the list below this table |
| ChatControl.IsTargetTempChanged | lib/wifi/wifi1.cpp:280-286 | reports the flag and leaves it cleared |
| ChatControl.TargetChangeReportedOnce | lib/wifi/wifi1.cpp:280-286 | a second call right after the first reports no change |
| ChatControl.RunKeepsOnePrompt | lib/wifi/wifi1.cpp:252-271 | over any sequence of updates at most one prompt is ever open |
| ChatControl.PromptThenAnswerSetsTarget | lib/wifi/wifi1.cpp:212-218 | pressing "change temperature" and answering with the digits of n sets the target to n, raises the flag and the display notice, and closes every prompt |
| SettingsNormalise.RoundToStep | lib/lvgl_display/settings_screen.cpp:150 | for a non-negative argument `((v + step/2)/step)*step` lies within half a step of v, halves rounded up |
| SettingsNormalise.NormaliseTarget | lib/lvgl_display/settings_screen.cpp:148-150 | the stored target becomes an even value in 62..80. An even in-range value is kept; an odd one is raised by 1. Values below the range become 62 and values above become 80 |
| SettingsNormalise.NormaliseTargetIdempotent | lib/lvgl_display/settings_screen.cpp:525-528 | correcting a corrected target changes nothing |
| SettingsNormalise.SliderTarget | lib/lvgl_display/settings_screen.cpp:156-193 | a slider value in 62..80 becomes the even value at or just above it, still in 62..80 |
| SettingsNormalise.ShowTarget | lib/lvgl_display/settings_screen.cpp:525-536 | the shown target is the corrected one, and the main screen's label is redrawn iff the stored value was odd or out of range |
| SettingsNormalise.ShowTargetSettles | lib/lvgl_display/settings_screen.cpp:525-536 | showing the screen a second time corrects nothing |
| SettingsNormalise.NormaliseReadInterval | lib/lvgl_display/settings_screen.cpp:218-221 | the read interval becomes a multiple of 2000 ms in 2000..10000, within 1000 ms of an in-range value |
| SettingsNormalise.SliderReadInterval | lib/lvgl_display/settings_screen.cpp:235-237 | the slider callback's round-then-clamp always yields 2000..10000 ms |
| SettingsNormalise.ReadIntervalOrderIrrelevant | lib/lvgl_display/settings_screen.cpp:230-246 | the slider's round-then-clamp equals the screen's clamp-then-round for every input |
| SettingsNormalise.NormaliseLowTempTimeout | lib/lvgl_display/settings_screen.cpp:321-324 | the timeout becomes a whole number of minutes in 1..10, within 30 s of an in-range value |
| SettingsNormalise.SliderLowTempTimeout | lib/lvgl_display/settings_screen.cpp:332-337 | the slider yields whole minutes and, on the slider's range, the same value as the stored-value correction |
| SettingsNormalise.SliderTouchInterval | lib/lvgl_display/settings_screen.cpp:471-473 | the touch interval is a multiple of 5 ms, at least 20, at most 100 on the slider, and the nearest such multiple above 20 |
| SettingsNormalise.SliderTimeInterval | lib/lvgl_display/settings_screen.cpp:437-438 | the time interval is a multiple of 10 s within 5 s of the slider value and stays on the 10..60 s slider |
| SettingsNormalise.BrightnessPercent | lib/lvgl_display/settings_screen.cpp:416 | the label is the floor of value·100/255: 0..100 for a byte, 0 at 0 and 100 at 255 |
| TouchFilter.ValidTouchBounds | test/lvgl_display.cpp:47-52 | a raw reading is accepted iff Y ≤ 3900 and X ≥ 100 |
| TouchFilter.MapProductFits | test/lvgl_display.cpp:67-68 | for every 16-bit raw reading and a screen side of at most 32768, the product inside `map()` fits the 32-bit `long` it is computed in |
| TouchFilter.ToScreen | test/lvgl_display.cpp:67-68 | the mapped coordinate always lies on the screen, 0..size−1 |
| TouchFilter.MapMirrors | test/lvgl_display.cpp:67-68 | the axis is mirrored: right of the calibration minimum the coordinate is size − floor((raw−200)·size/3600); left of it the value is at least size |
| TouchFilter.ToScreenEnds | test/lvgl_display.cpp:67-68 | readings at or before 200 land on the last pixel, readings at or after 3800 on pixel 0 |
| TouchFilter.ToScreenMonotone | test/lvgl_display.cpp:67-68 | a larger raw reading never maps further right (or down) |
| TouchFilter.Read | test/lvgl_display.cpp:54-87 | the touch state is set iff the driver reports a touch and the reading is valid. A rejected reading only clears it. An accepted one stores the mapped point and, the first time, fills the whole history with it. Afterwards it overwrites exactly the current slot. The index advances modulo 5 |
| TouchFilter.IndexCountsAcceptedReadings | test/lvgl_display.cpp:80-82 | after any run of readings the slot index has advanced by the number of accepted readings, modulo 5 |
| TouchFilter.SeqMin | test/lvgl_display.cpp:90-95 | the minimum is at most every entry and is one of them |
| TouchFilter.SeqMax | test/lvgl_display.cpp:90-96 | the maximum is at least every entry and is one of them |
| TouchFilter.TrimmedMean | test/lvgl_display.cpp:89-101 | the filter is the truncated mean of the five samples without the smallest and the largest; the subtraction cannot underflow and the result lies between the smallest and the largest sample, so it fits `uint16_t` |
| TouchFilter.MiddleThree | test/lvgl_display.cpp:98 | without its extremes, the five samples sum to between three times the minimum and three times the maximum |
| TouchFilter.SteadySamplesPassThrough | test/lvgl_display.cpp:89-101 | five equal samples filter to that sample |

`ChatControl.Handle` states the following:

- Every update keeps "at most one prompt open".
- The four commands are recognised first, whatever is awaited, and leave the
  chat unchanged.
- `/reset_time_display` forces a time refresh. `/sync_time` notifies the
  display only when NTP synchronised.
- A digit-led text answering the open prompt stores the leading digits' value
  in the awaited setting and closes that prompt. The prompts are tried in the
  order target, kP, minimum. Only the target answer raises the flag and the
  display notice.
- Any other text gets the error reply and changes nothing.
- Each `change_*` button opens exactly its own prompt.
- Other buttons and other updates change nothing.

## Left out

- The FreeRTOS task, its 100 ms pacing and the 50 ms servo pacing are not modelled. `damper` and `temperature` are shared between tasks without synchronisation; the model takes the task's iterations one after another with their inputs given.
- The servo driver calls (attach, writeMicroseconds, detach) are left out. The plan is the list of pulse widths.
- Float rounding is not modelled. The PID output is abstract, and `RealPid` and `Angle` use exact reals before truncation. errP and errI are kept as integers because the callers pass integer temperatures.
- DamperControl.RealPid: the assignment of a float outside the `int` range (undefined in C) is not modelled.
- `damperControlInit`, the settings storage (NVS), telnet, WiFi, OTA, NTP and the Telegram transport are I/O. Keyboards and reply texts are left out; a reply is named by its meaning.
- The LVGL widgets, `lvgl_display.cpp`, and the drawing done by the display-manager refreshes are left out. The refreshes are outputs.
- Spelling the setting as text for the reply is not modelled, apart from `ChatControl.Decimal` for non-negative values.
- `display_manager_get_config_name` only returns a configuration name, so it is not modelled.
- `display_manager.h` also declares `display_manager_get_stats`, `display_manager_get_efficiency_stats` and `display_manager_reset_stats`, but no definition exists, so they are not modelled.
- `display_manager.h` declares `display_manager_force_update_damper_status`, but no definition exists, so it is not modelled.
- `hasTemperatureChanged()` is not defined in the code modelled here. Its answer is an input of the display update.
- TemperaturePoll.Update: the source reads `millis()` up to four times per call; the model uses one clock value for the whole call.
- ChatControl.ToInt: `toInt` returns a `long`; overflow above 2^31−1 is not modelled. A text that does not start with a digit never reaches it.
- TouchFilter.ToScreen: TFT_WIDTH and TFT_HEIGHT are parameters of at most 32768. From 32869 up, `map()` overflows its 32-bit `long` product for the largest raw readings (`MapProductOverflowsAbove`), which is undefined in C and is not modelled.
- Header mismatches are not modelled: `damper_control.h` and `touch_button.h` declare signatures that differ from the definitions. The definitions are modelled.
- SettingsNormalise.RoundToStep: the generic contract states only the half-step bounds. The multiple-of-step facts are stated on each instance (2, 2000, 60000, 5 and 10000).
- The kD convention is recorded, not resolved. The firmware's gains use kP/tauD (`LiveGains`); the settings screen's kP·tauD is `Derive` with `KpTimesTauD`.
- The main loop (`src/main.cpp`) is not modelled. It calls the modelled pieces and also `lv_timer_handler`, `ota_loop`, `lv_tick_inc` and `delay`, which are LVGL, OTA and timing I/O.
- DamperTask.RunTask: the start is a parameter. The definition of the `damper` global is not part of this model, and `damperControlInit` writes 50° to the servo while `oldDamper` stays 0.

## Findings

| source | as written | input that shows it | evidently intended | confidence | as-written member | corrected member |
|---|---|---|---|---|---|---|
| lib/display_manager/display_manager.cpp:81-93 | `isTargetTempChanged()` clears the flag it reports. Line 81 consumes it in the refresh decision, so the second call on line 93 reads false and the target label is not redrawn | initialised manager, no force flags, no temperature change, target flag set: the bars are redrawn but the target label is not | read the flag once and use that value for both the bars and the label | not executed; in the firmware the only writer of the flag (lib/wifi/wifi1.cpp:214-215) also raises the temperature notice, which redraws the label anyway | DisplayManager.UpdateAsWritten, DisplayManager.AsWrittenMissesTargetLabel | DisplayManager.Update |
