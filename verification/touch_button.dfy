/** The capacitive touch button that cycles the target temperature.
    `touchButtonPressed` reads the pad twice (once for the press test, once
    for the release test); both readings and the clock are inputs here. */
module TouchButton {
  import opened CArith

  datatype Config = Config(threshold: int, debounceMs: int)

  /** TOUCH_THRESHOLD and TOUCH_DEBOUNCE_MS of touch_button.h. */
  const Default: Config := Config(30000, 75)

  datatype Button = Button(lastTouchTime: ULong, lastTouch: bool)

  const Boot: Button := Button(0, false)

  /** One call's inputs: the two `touchRead` values and `millis()`. */
  datatype Sample = Sample(first: int, second: int, now: ULong)

  datatype Press = Press(button: Button, pressed: bool)

  /** `touchButtonPressed()`: true on a rising edge above the threshold that
      comes more than `debounceMs` after the previous press; a reading
      strictly below the threshold re-arms the edge detector. */
  function Pressed(cfg: Config, b: Button, s: Sample): (r: Press)
    ensures r.pressed <==>
      s.first > cfg.threshold && !b.lastTouch && Elapsed(s.now, b.lastTouchTime) > ToULong(cfg.debounceMs)
    ensures r.pressed ==> r.button == Button(s.now, true)
    ensures !r.pressed ==> r.button.lastTouchTime == b.lastTouchTime
    ensures !r.pressed ==> (r.button.lastTouch <==> b.lastTouch && s.second >= cfg.threshold)
    // a reading exactly at the threshold neither presses nor releases
    ensures s.first == cfg.threshold ==> !r.pressed
    ensures s.first == cfg.threshold && s.second == cfg.threshold ==> r.button == b
  {
    if s.first > cfg.threshold && !b.lastTouch && Elapsed(s.now, b.lastTouchTime) > ToULong(cfg.debounceMs) then
      Press(Button(s.now, true), true)
    else
      Press(if s.second < cfg.threshold then b.(lastTouch := false) else b, false)
  }

  /** `touchButtonHandle(targetTempC, minTemp, maxTemp, step)`: a press adds
      `step`, wrapping to `minTemp` past `maxTemp`. */
  function Handle(cfg: Config, b: Button, s: Sample, target: int, minTemp: int, maxTemp: int, step: int): (r: (Button, int))
    ensures r.0 == Pressed(cfg, b, s).button
    ensures !Pressed(cfg, b, s).pressed ==> r.1 == target
    ensures Pressed(cfg, b, s).pressed && target + step <= maxTemp ==> r.1 == target + step
    ensures Pressed(cfg, b, s).pressed && target + step > maxTemp ==> r.1 == minTemp
    ensures minTemp <= target <= maxTemp && 0 <= step ==> minTemp <= r.1 <= maxTemp
  {
    var p := Pressed(cfg, b, s);
    if p.pressed then
      var t := target + step;
      (p.button, if t > maxTemp then minTemp else t)
    else (p.button, target)
  }

  /** The press results of successive calls. */
  function Presses(cfg: Config, b: Button, samples: seq<Sample>): (r: seq<bool>)
    ensures |r| == |samples|
    decreases |samples|
  {
    if |samples| == 0 then []
    else
      var p := Pressed(cfg, b, samples[0]);
      [p.pressed] + Presses(cfg, p.button, samples[1..])
  }

  function Final(cfg: Config, b: Button, samples: seq<Sample>): Button
    decreases |samples|
  {
    if |samples| == 0 then b else Final(cfg, Pressed(cfg, b, samples[0]).button, samples[1..])
  }

  /** Edge triggering: while the pad is held (no second reading strictly below
      the threshold), no further press is reported, however long it is held
      and however much time passes. */
  lemma {:induction false} HeldPadNeverRepeats(cfg: Config, b: Button, samples: seq<Sample>)
    requires b.lastTouch
    requires forall k :: 0 <= k < |samples| ==> samples[k].second >= cfg.threshold
    ensures forall k :: 0 <= k < |samples| ==> !Presses(cfg, b, samples)[k]
    ensures Final(cfg, b, samples) == b
    decreases |samples|
  {
    if |samples| > 0 {
      var p := Pressed(cfg, b, samples[0]);
      assert p.button == b;
      forall k | 0 <= k < |samples[1..]|
        ensures samples[1..][k].second >= cfg.threshold
      {
        assert samples[1..][k] == samples[k + 1];
      }
      HeldPadNeverRepeats(cfg, b, samples[1..]);
      var rest := Presses(cfg, b, samples[1..]);
      assert Presses(cfg, b, samples) == [false] + rest;
      forall k | 0 <= k < |samples|
        ensures !Presses(cfg, b, samples)[k]
      {
        if k > 0 {
          assert Presses(cfg, b, samples)[k] == rest[k - 1];
        }
      }
    }
  }

  /** Two presses always have a release between them: a call strictly after
      the first press and strictly before the second whose second reading is
      below the threshold. */
  lemma ReleaseBetweenPresses(cfg: Config, b: Button, samples: seq<Sample>, i: int, j: int)
    requires 0 <= i < j < |samples|
    requires Presses(cfg, b, samples)[i] && Presses(cfg, b, samples)[j]
    ensures exists k :: i < k < j && samples[k].second < cfg.threshold
  {
    var before := Final(cfg, b, samples[..i + 1]);
    FinalAfterPress(cfg, b, samples, i);
    assert before.lastTouch;
    var mid := samples[i + 1..j];
    if forall k :: 0 <= k < |mid| ==> mid[k].second >= cfg.threshold {
      assert Presses(cfg, b, samples)[j] == Presses(cfg, before, samples[i + 1..])[j - i - 1] by {
        PressesSplit(cfg, b, samples, i + 1);
      }
      HeldPrefixBlocksPress(cfg, before, samples[i + 1..], j - i - 1);
      assert false;
    } else {
      var k :| 0 <= k < |mid| && mid[k].second < cfg.threshold;
      assert samples[i + 1 + k] == mid[k];
    }
  }

  /** Running a prefix then the rest is running the whole. */
  lemma {:induction false} PressesSplit(cfg: Config, b: Button, samples: seq<Sample>, n: int)
    requires 0 <= n <= |samples|
    ensures Presses(cfg, b, samples) == Presses(cfg, b, samples[..n]) + Presses(cfg, Final(cfg, b, samples[..n]), samples[n..])
    decreases n
  {
    if n > 0 {
      var p := Pressed(cfg, b, samples[0]);
      PressesSplit(cfg, p.button, samples[1..], n - 1);
      assert samples[1..][..n - 1] == samples[..n][1..];
      assert samples[1..][n - 1..] == samples[n..];
    } else {
      assert samples[..0] == [];
      assert samples[0..] == samples;
    }
  }

  /** After a press, the pad counts as held. */
  lemma FinalAfterPress(cfg: Config, b: Button, samples: seq<Sample>, i: int)
    requires 0 <= i < |samples|
    requires Presses(cfg, b, samples)[i]
    ensures Final(cfg, b, samples[..i + 1]).lastTouch
  {
    PressesSplit(cfg, b, samples, i);
    var mid := Final(cfg, b, samples[..i]);
    assert Presses(cfg, mid, samples[i..])[0] == Pressed(cfg, mid, samples[i]).pressed;
    FinalSplit(cfg, b, samples[..i + 1], i);
    assert samples[..i + 1][..i] == samples[..i];
    assert samples[..i + 1][i..] == [samples[i]];
  }

  lemma {:induction false} FinalSplit(cfg: Config, b: Button, samples: seq<Sample>, n: int)
    requires 0 <= n <= |samples|
    ensures Final(cfg, b, samples) == Final(cfg, Final(cfg, b, samples[..n]), samples[n..])
    decreases n
  {
    if n > 0 {
      FinalSplit(cfg, Pressed(cfg, b, samples[0]).button, samples[1..], n - 1);
      assert samples[1..][..n - 1] == samples[..n][1..];
      assert samples[1..][n - 1..] == samples[n..];
    } else {
      assert samples[0..] == samples;
    }
  }

  /** A held pad blocks a press at position `m` if no release came before it. */
  lemma {:induction false} HeldPrefixBlocksPress(cfg: Config, b: Button, samples: seq<Sample>, m: int)
    requires b.lastTouch
    requires 0 <= m < |samples|
    requires forall k :: 0 <= k < m ==> samples[k].second >= cfg.threshold
    ensures !Presses(cfg, b, samples)[m]
    decreases m
  {
    var p := Pressed(cfg, b, samples[0]);
    assert Presses(cfg, b, samples) == [p.pressed] + Presses(cfg, p.button, samples[1..]);
    if m > 0 {
      assert p.button == b;
      forall k | 0 <= k < m - 1
        ensures samples[1..][k].second >= cfg.threshold
      {
        assert samples[1..][k] == samples[k + 1];
      }
      HeldPrefixBlocksPress(cfg, b, samples[1..], m - 1);
    }
  }
}
