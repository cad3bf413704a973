/** The reply-awaiting logic of the Telegram chat handler
    (`handleTelegramMessages`): inline buttons arm one of three "waiting for"
    flags, and the next message starting with a digit sets the awaited
    setting. The transport, the keyboards and the reply texts are left out;
    a reply is named by what it says, and the display manager notices the
    handler raises are outputs. */
module ChatControl {
  import opened DisplayManager

  datatype Waiting = Waiting(temp: bool, kP: bool, tempMin: bool)

  const NotWaiting: Waiting := Waiting(false, false, false)

  /** The globals the chat may change: `targetTempC`, `kP`, `temperatureMin`. */
  datatype Settings = Settings(targetTempC: int, kP: int, temperatureMin: int)

  datatype Chat = Chat(waiting: Waiting, settings: Settings, targetTempChanged: bool)

  /** At power-up nothing is awaited and the target flag is clear. */
  function Boot(s: Settings): Chat
  {
    Chat(NotWaiting, s, false)
  }

  /** At most one of the three prompts is open. */
  predicate AtMostOneWaiting(w: Waiting)
  {
    (if w.temp then 1 else 0) + (if w.kP then 1 else 0) + (if w.tempMin then 1 else 0) <= 1
  }

  /** A received update: a text message, a button press (its callback data),
      or anything else. */
  datatype Message = Text(text: string) | Query(data: string) | Other

  datatype Field = TargetTemp | Gain | MinTemp

  datatype Reply =
    | Menu                  // "/info": the inline keyboard
    | TimeNow               // "/time"
    | TimeSyncReport        // "/sync_time": the two progress messages
    | TimeDisplayReset      // "/reset_time_display"
    | Updated(f: Field, value: int)
    | InvalidInput
    | Status                // "refresh": the status report
    | Prompt(f: Field)      // a change_* button: the forced-reply prompt
    | NoReply

  datatype Handled = Handled(chat: Chat, reply: Reply, notices: seq<Notice>)

  /** Arduino `isDigit`: an ASCII decimal digit. */
  predicate IsDigit(c: char)
  {
    '0' <= c <= '9'
  }

  /** `isDigit(msg.text[0])`: an empty text reads its terminating NUL there. */
  predicate StartsWithDigit(s: string)
  {
    |s| > 0 && IsDigit(s[0])
  }

  predicate AllDigits(s: string)
  {
    forall i :: 0 <= i < |s| ==> IsDigit(s[i])
  }

  /** The run of digits a string starts with. */
  function LeadingDigits(s: string): (r: string)
    ensures |r| <= |s| && r == s[..|r|]
    ensures AllDigits(r)
    ensures |r| < |s| ==> !IsDigit(s[|r|])
    decreases |s|
  {
    if |s| == 0 || !IsDigit(s[0]) then [] else [s[0]] + LeadingDigits(s[1..])
  }

  /** The decimal value of a string of digits, most significant first. */
  function Value(ds: string): nat
    decreases |ds|
  {
    if |ds| == 0 then 0
    else Value(ds[..|ds| - 1]) * 10 + ((ds[|ds| - 1] as int - '0' as int) % 10)
  }

  /** `String::toInt` on a text that starts with a digit: the value of its
      leading digits, any trailing characters ignored. */
  function ToInt(s: string): (n: nat)
    ensures !StartsWithDigit(s) ==> n == 0
    // a text led by a non-zero digit never reads as zero
    ensures StartsWithDigit(s) && s[0] != '0' ==> n > 0
  {
    var ds := LeadingDigits(s);
    if StartsWithDigit(s) then
      assert ds[0] == s[0];
      ValuePositive(ds);
      Value(ds)
    else Value(ds)
  }

  /** A digit string whose first digit is not zero has a positive value. */
  lemma {:induction false} ValuePositive(ds: string)
    requires |ds| > 0 && AllDigits(ds)
    ensures ds[0] != '0' ==> Value(ds) > 0
    decreases |ds|
  {
    if |ds| > 1 {
      var front := ds[..|ds| - 1];
      assert front[0] == ds[0];
      ValuePositive(front);
    }
  }

  /** `String(n)` for a non-negative `n`: its decimal digits. */
  function Decimal(n: nat): (r: string)
    ensures |r| > 0 && AllDigits(r)
    ensures |r| > 1 ==> r[0] != '0'
    decreases n
  {
    if n < 10 then [('0' as int + n) as char]
    else Decimal(n / 10) + [('0' as int + n % 10) as char]
  }

  /** One received update. `ntpSynced` is whether `sync_time()` reached the
      time server (it notifies the display only then). */
  function Handle(c: Chat, m: Message, ntpSynced: bool): (r: Handled)
    // the one-prompt invariant is kept by every update
    ensures AtMostOneWaiting(c.waiting) ==> AtMostOneWaiting(r.chat.waiting)
    // the commands are recognised first, whatever is awaited, and change nothing
    ensures m.Text? && IsCommand(m.text) ==> r.chat == c
    ensures m == Text("/reset_time_display") ==> r.notices == [ForceTime]
    ensures m == Text("/sync_time") ==> r.notices == (if ntpSynced then [TimeSynced] else [])
    // an awaited target temperature
    ensures Answers(c, m, TargetTemp) ==>
      && r.chat == Chat(c.waiting.(temp := false), c.settings.(targetTempC := ToInt(m.text)), true)
      && r.reply == Updated(TargetTemp, ToInt(m.text))
      && r.notices == [TargetTempChanged]
    // an awaited gain or minimum temperature: the target flag is untouched
    ensures Answers(c, m, Gain) ==>
      && r.chat == c.(waiting := c.waiting.(kP := false), settings := c.settings.(kP := ToInt(m.text)))
      && r.reply == Updated(Gain, ToInt(m.text)) && r.notices == []
    ensures Answers(c, m, MinTemp) ==>
      && r.chat == c.(waiting := c.waiting.(tempMin := false), settings := c.settings.(temperatureMin := ToInt(m.text)))
      && r.reply == Updated(MinTemp, ToInt(m.text)) && r.notices == []
    // any other text changes nothing and is answered with an error
    ensures m.Text? && !IsCommand(m.text) && !Answers(c, m, TargetTemp) && !Answers(c, m, Gain) && !Answers(c, m, MinTemp) ==>
      r == Handled(c, InvalidInput, [])
    // a change_* button opens exactly its own prompt
    ensures m == Query("change_temp") ==> r.chat == c.(waiting := Waiting(true, false, false)) && r.reply == Prompt(TargetTemp)
    ensures m == Query("change_kp") ==> r.chat == c.(waiting := Waiting(false, true, false)) && r.reply == Prompt(Gain)
    ensures m == Query("change_temp_min") ==> r.chat == c.(waiting := Waiting(false, false, true)) && r.reply == Prompt(MinTemp)
    // other buttons and other updates change nothing
    ensures m.Query? && m.data !in {"change_temp", "change_kp", "change_temp_min"} ==> r.chat == c && r.notices == []
    ensures m == Other ==> r == Handled(c, NoReply, [])
  {
    match m
    case Text(t) =>
      if t == "/info" then Handled(c, Menu, [])
      else if t == "/time" then Handled(c, TimeNow, [])
      else if t == "/sync_time" then Handled(c, TimeSyncReport, if ntpSynced then [TimeSynced] else [])
      else if t == "/reset_time_display" then Handled(c, TimeDisplayReset, [ForceTime])
      else if c.waiting.temp && StartsWithDigit(t) then
        var v := ToInt(t);
        Handled(Chat(c.waiting.(temp := false), c.settings.(targetTempC := v), true), Updated(TargetTemp, v), [TargetTempChanged])
      else if c.waiting.kP && StartsWithDigit(t) then
        var v := ToInt(t);
        Handled(c.(waiting := c.waiting.(kP := false), settings := c.settings.(kP := v)), Updated(Gain, v), [])
      else if c.waiting.tempMin && StartsWithDigit(t) then
        var v := ToInt(t);
        Handled(c.(waiting := c.waiting.(tempMin := false), settings := c.settings.(temperatureMin := v)), Updated(MinTemp, v), [])
      else Handled(c, InvalidInput, [])
    case Query(d) =>
      if d == "refresh" then Handled(c, Status, [])
      else if d == "change_temp" then Handled(c.(waiting := Waiting(true, false, false)), Prompt(TargetTemp), [])
      else if d == "change_kp" then Handled(c.(waiting := Waiting(false, true, false)), Prompt(Gain), [])
      else if d == "change_temp_min" then Handled(c.(waiting := Waiting(false, false, true)), Prompt(MinTemp), [])
      else Handled(c, NoReply, [])
    case Other => Handled(c, NoReply, [])
  }

  predicate IsCommand(t: string)
  {
    t in {"/info", "/time", "/sync_time", "/reset_time_display"}
  }

  /** `m` is a digit text that answers the open prompt for `f` (the prompts
      are tried in the order target, gain, minimum). */
  predicate Answers(c: Chat, m: Message, f: Field)
  {
    && m.Text? && !IsCommand(m.text) && StartsWithDigit(m.text)
    && match f
       case TargetTemp => c.waiting.temp
       case Gain => !c.waiting.temp && c.waiting.kP
       case MinTemp => !c.waiting.temp && !c.waiting.kP && c.waiting.tempMin
  }

  /** `isTargetTempChanged()`: reports the flag and clears it. */
  function IsTargetTempChanged(c: Chat): (r: (Chat, bool))
    ensures r.1 == c.targetTempChanged
    ensures r.0 == c.(targetTempChanged := false)
  {
    (c.(targetTempChanged := false), c.targetTempChanged)
  }

  /** A change is reported once: an immediate second call answers false. */
  lemma TargetChangeReportedOnce(c: Chat)
    ensures !IsTargetTempChanged(IsTargetTempChanged(c).0).1
  {
  }

  /** The chat after a sequence of updates. */
  function Run(c: Chat, msgs: seq<Message>, ntp: seq<bool>): Chat
    requires |ntp| == |msgs|
    decreases |msgs|
  {
    if |msgs| == 0 then c else Run(Handle(c, msgs[0], ntp[0]).chat, msgs[1..], ntp[1..])
  }

  /** From power-up, at most one prompt is ever open. */
  lemma {:induction false} RunKeepsOnePrompt(c: Chat, msgs: seq<Message>, ntp: seq<bool>)
    requires |ntp| == |msgs|
    requires AtMostOneWaiting(c.waiting)
    ensures AtMostOneWaiting(Run(c, msgs, ntp).waiting)
    decreases |msgs|
  {
    if |msgs| > 0 {
      RunKeepsOnePrompt(Handle(c, msgs[0], ntp[0]).chat, msgs[1..], ntp[1..]);
    }
  }

  /** Appending a digit to a digit string shifts its value by one place. */
  lemma ValueSnoc(ds: string, d: char)
    requires IsDigit(d)
    ensures Value(ds + [d]) == Value(ds) * 10 + (d as int - '0' as int)
  {
    assert (ds + [d])[..|ds|] == ds;
  }

  /** Parsing the decimal rendering of `n` gives `n` back. */
  lemma {:induction false} ValueOfDecimal(n: nat)
    ensures Value(Decimal(n)) == n
    decreases n
  {
    if n < 10 {
      assert Decimal(n) == [] + [('0' as int + n) as char];
      ValueSnoc([], ('0' as int + n) as char);
    } else {
      ValueOfDecimal(n / 10);
      ValueSnoc(Decimal(n / 10), ('0' as int + n % 10) as char);
    }
  }

  /** The leading digits of a digit string followed by a non-digit (or
      nothing) are that digit string. */
  lemma {:induction false} LeadingDigitsOfDigits(ds: string, rest: string)
    requires AllDigits(ds)
    requires |rest| == 0 || !IsDigit(rest[0])
    ensures LeadingDigits(ds + rest) == ds
    decreases |ds|
  {
    if |ds| == 0 {
      assert ds + rest == rest;
    } else {
      assert (ds + rest)[1..] == ds[1..] + rest;
      LeadingDigitsOfDigits(ds[1..], rest);
    }
  }

  /** `toInt` inverts `String(n)`, also with a non-numeric tail such as " °C". */
  lemma DecimalRoundTrip(n: nat, rest: string)
    requires |rest| == 0 || !IsDigit(rest[0])
    ensures ToInt(Decimal(n) + rest) == n
  {
    LeadingDigitsOfDigits(Decimal(n), rest);
    ValueOfDecimal(n);
  }

  /** Pressing "change temperature" and answering with a number sets the
      target to that number, raises the target flag and the display notice,
      and closes the prompt, from any state. */
  lemma PromptThenAnswerSetsTarget(c: Chat, n: nat, ntp: bool, ntp': bool)
    ensures var c1 := Handle(c, Query("change_temp"), ntp).chat;
            var r := Handle(c1, Text(Decimal(n)), ntp');
            && r.chat.settings == c.settings.(targetTempC := n)
            && r.chat.waiting == NotWaiting
            && r.chat.targetTempChanged
            && r.notices == [TargetTempChanged]
  {
    var d := Decimal(n);
    assert d == d + [];
    DecimalRoundTrip(n, []);
    assert !IsCommand(d) by {
      assert d[0] != '/';
    }
  }
}
