/** `updateTemperature`: a two-phase poll of the DS18B20 probe. A conversion is
    requested when none is pending and 3000 ms have passed since the last
    read; the value is read 100 ms after the request. The probe itself is an
    input: `reading` is what `getTempC` returned, already truncated to `int`.
    One clock value `now` is used for the whole call. */
module TemperaturePoll {
  import opened CArith

  const TempReadInterval: int := 3000
  const ConversionDelay: int := 100
  /** Substituted for negative readings. */
  const Sentinel: int := 10

  datatype Poll = Poll(temperature: int, lastTempRead: ULong, tempRequestTime: ULong, tempRequested: bool)

  const Boot: Poll := Poll(0, 0, 0, false)

  datatype Outcome = Outcome(poll: Poll, requested: bool, read: bool)

  /** One call of `updateTemperature()` at time `now`. */
  function Update(p: Poll, now: ULong, reading: int): (o: Outcome)
    // request phase
    ensures o.requested <==> !p.tempRequested && Elapsed(now, p.lastTempRead) >= TempReadInterval
    // read phase: only for a pending request, 100 ms after it was issued
    ensures o.read <==> p.tempRequested && Elapsed(now, p.tempRequestTime) >= ConversionDelay
    ensures !(o.requested && o.read)
    ensures o.requested ==> o.poll == p.(tempRequested := true, tempRequestTime := now)
    ensures o.read ==>
      && o.poll.temperature == (if reading < 0 then Sentinel else reading)
      && o.poll.lastTempRead == now
      && !o.poll.tempRequested
      && o.poll.tempRequestTime == p.tempRequestTime
    ensures !o.requested && !o.read ==> o.poll == p
    ensures o.read ==> o.poll.temperature >= 0
    ensures !o.read ==> o.poll.temperature == p.temperature
  {
    var requested := !p.tempRequested && Elapsed(now, p.lastTempRead) >= TempReadInterval;
    var p1 := if requested then p.(tempRequestTime := now, tempRequested := true) else p;
    var read := p1.tempRequested && Elapsed(now, p1.tempRequestTime) >= ConversionDelay;
    var t := if reading < 0 then Sentinel else reading;
    var p2 := if read then p1.(temperature := t, lastTempRead := now, tempRequested := false) else p1;
    Outcome(p2, requested, read)
  }

  datatype Sample = Sample(now: ULong, reading: int)

  datatype Event = Requested | Read

  /** The request/read events of a sequence of calls, in order. */
  function Events(p: Poll, samples: seq<Sample>): seq<Event>
    decreases |samples|
  {
    if |samples| == 0 then []
    else
      var o := Update(p, samples[0].now, samples[0].reading);
      var e := if o.requested then [Requested] else if o.read then [Read] else [];
      e + Events(o.poll, samples[1..])
  }

  /** The state after a sequence of calls. */
  function Final(p: Poll, samples: seq<Sample>): Poll
    decreases |samples|
  {
    if |samples| == 0 then p
    else Final(Update(p, samples[0].now, samples[0].reading).poll, samples[1..])
  }

  /** Requests and reads strictly alternate; the first event is a read
      exactly when a request was already pending. */
  predicate Alternating(events: seq<Event>, pending: bool)
    decreases |events|
  {
    |events| == 0 ||
    (events[0] == (if pending then Read else Requested) && Alternating(events[1..], !pending))
  }

  lemma {:induction false} RequestsAndReadsAlternate(p: Poll, samples: seq<Sample>)
    ensures Alternating(Events(p, samples), p.tempRequested)
    ensures Final(p, samples).tempRequested == (p.tempRequested != (|Events(p, samples)| % 2 == 1))
    decreases |samples|
  {
    if |samples| > 0 {
      var o := Update(p, samples[0].now, samples[0].reading);
      RequestsAndReadsAlternate(o.poll, samples[1..]);
      var rest := Events(o.poll, samples[1..]);
      if o.requested {
        assert Events(p, samples) == [Requested] + rest;
        assert ([Requested] + rest)[1..] == rest;
      } else if o.read {
        assert Events(p, samples) == [Read] + rest;
        assert ([Read] + rest)[1..] == rest;
      } else {
        assert Events(p, samples) == rest;
      }
    }
  }

  /** A non-negative temperature stays non-negative over any run. */
  lemma {:induction false} TemperatureStaysNonNegative(p: Poll, samples: seq<Sample>)
    requires p.temperature >= 0
    ensures Final(p, samples).temperature >= 0
    decreases |samples|
  {
    if |samples| > 0 {
      TemperatureStaysNonNegative(Update(p, samples[0].now, samples[0].reading).poll, samples[1..]);
    }
  }
}
