/** The event handlers and polling loops as functions on the node's observable
    state: the LEDs, everything the LEDs and the buzzer did, every publish call
    and every write that reached the sink. The `Station` class runs the same
    steps in place; the lemmas here say what they mean. */
module Handlers {
  import opened Wrappers
  import opened Telemetry
  import opened Capture
  import opened Events
  import opened Triggers

  /** What the outside world answers during one poll: the clock, the camera run
      (if the handler captures) and which entries of a publish the sink refuses. */
  datatype Env = Env(ts: string, camera: Camera, failing: set<nat>)

  /** One poll of a sensor: its reading and the outside world's answers. */
  datatype Sample<R> = Sample(reading: R, env: Env)

  /** The values of the green, yellow and red LEDs. */
  datatype Leds = Leds(green: int, yellow: int, red: int)

  /** One buzzer pulse: 0.2 s for "short", 1 s for "long". */
  datatype Buzz = Short | Long

  /** The node's observable state: the LEDs now, every LED setting and buzzer
      pulse so far, every publish call and every write that reached the sink. */
  datatype State = State(leds: Leds, ledLog: seq<Leds>, buzzes: seq<Buzz>,
                         calls: seq<PublishCall>, writes: seq<Write>)

  const GreenOnly := Leds(1, 0, 0)
  const YellowOnly := Leds(0, 1, 0)
  const RedOnly := Leds(0, 0, 1)
  const AllOff := Leds(0, 0, 0)

  /** The value an LED is given for a flag. */
  function LedValue(on: bool): (v: int)
    ensures v == 1 <==> on
    ensures v == 0 <==> !on
  {
    if on then 1 else 0
  }

  /** The LED state after setting the three flags. */
  function LedsFor(green: bool, yellow: bool, red: bool): Leds
  {
    Leds(LedValue(green), LedValue(yellow), LedValue(red))
  }

  /** The LED a detection lights while it is handled. */
  function Alert(d: Detection): Leds
  {
    match d
    case Sound => RedOnly
    case Motion => YellowOnly
  }

  /** The readings of a trace of polls. */
  function Readings<R>(ss: seq<Sample<R>>): seq<R>
  {
    seq(|ss|, i requires 0 <= i < |ss| => ss[i].reading)
  }

  // ---------------------------------------------------------------- steps

  /** `led_set`: the LEDs become `l`, the setting is logged after the earlier
      ones, and the buzzer and the sink are untouched. */
  function SetLeds(s: State, l: Leds): (t: State)
    ensures t.leds == l
    ensures t.ledLog == s.ledLog + [l]
    ensures t.buzzes == s.buzzes && t.calls == s.calls && t.writes == s.writes
  {
    s.(leds := l, ledLog := s.ledLog + [l])
  }

  /** `beep`: a pulse for "short" or "long", nothing for any other pattern; the
      LEDs and the sink are untouched. */
  function Beeped(s: State, pattern: string): (t: State)
    ensures t.buzzes == s.buzzes + (if pattern == "short" then [Short] else if pattern == "long" then [Long] else [])
    ensures t.leds == s.leds && t.ledLog == s.ledLog && t.calls == s.calls && t.writes == s.writes
  {
    if pattern == "short" then s.(buzzes := s.buzzes + [Short])
    else if pattern == "long" then s.(buzzes := s.buzzes + [Long])
    else s
  }

  /** `publish_to_blynk`: the call is logged, the writes its entries are routed
      to are appended to the earlier writes, and the LEDs and the buzzer are
      untouched. */
  function Published(s: State, r: Record, failing: set<nat>): (t: State)
    ensures t.calls == s.calls + [PublishCall(r, failing)]
    ensures t.writes == s.writes + Routed(r, failing)
    ensures t.leds == s.leds && t.ledLog == s.ledLog && t.buzzes == s.buzzes
  {
    s.(calls := s.calls + [PublishCall(r, failing)], writes := s.writes + Routed(r, failing))
  }

  /** The publish a sound or motion handler makes when run in `env`. */
  function DetectionCall(d: Detection, env: Env): PublishCall
  {
    PublishCall(DetectionRecord(d, CaptureImageWithFace(Tag(d), env.ts, env.camera)), env.failing)
  }

  /** A sound or motion handler whose publish is `c`: alert LED, short beep,
      publish, green LED. */
  function Handled(s: State, alert: Leds, c: PublishCall): State
  {
    SetLeds(Published(Beeped(SetLeds(s, alert), "short"), c.record, c.failing), GreenOnly)
  }

  /** `handle_sound_event` / `handle_motion_event`: only the green LED is left
      on, one short beep, and one publish. */
  function DetectionEvent(s: State, d: Detection, env: Env): (t: State)
    ensures t.leds == GreenOnly
    ensures t.buzzes == s.buzzes + [Short]
    ensures |t.calls| == |s.calls| + 1
  {
    Handled(s, Alert(d), DetectionCall(d, env))
  }

  /** `handle_smoke_event`: one publish per poll; state 1 leaves only the red LED
      on, any other state leaves the LEDs as they were. */
  function SmokeEvent(s: State, state: int, failing: set<nat>): (t: State)
    ensures t.calls == s.calls + [PublishCall(SmokeRecord(state), failing)]
    ensures t.leds == if state == 1 then RedOnly else s.leds
  {
    if state == 1 then Published(Beeped(SetLeds(s, RedOnly), "long"), SmokeRecord(state), failing)
    else Published(s, SmokeRecord(state), failing)
  }

  /** `handle_dht_event`: one publish for a valid reading, no change at all for
      a failed or incomplete one; never touches the LEDs or the buzzer. */
  function ClimateEvent(s: State, read: DhtRead, failing: set<nat>): (t: State)
    ensures DhtRecord(read).Some? ==>
              && t.calls == s.calls + [PublishCall(DhtRecord(read).value, failing)]
              && t.writes == s.writes + Routed(DhtRecord(read).value, failing)
    ensures DhtRecord(read).None? ==> t == s
    ensures t.leds == s.leds && t.ledLog == s.ledLog && t.buzzes == s.buzzes
  {
    match DhtRecord(read)
    case Some(r) => Published(s, r, failing)
    case None => s
  }

  // ---------------------------------------------------------------- loops

  /** A detection handler run once per publish of `cs`, in order. */
  function DetectionRun(s: State, alert: Leds, cs: seq<PublishCall>): State
  {
    if cs == [] then s
    else Handled(DetectionRun(s, alert, cs[..|cs| - 1]), alert, cs[|cs| - 1])
  }

  /** The smoke handler run at every poll of `ss`, in order. */
  function SmokeRun(s: State, ss: seq<Sample<int>>): State
  {
    if ss == [] then s
    else
      var last := ss[|ss| - 1];
      SmokeEvent(SmokeRun(s, ss[..|ss| - 1]), last.reading, last.env.failing)
  }

  /** Publishes `cs`, in order: the climate loop at the polls with a valid reading. */
  function PublishRun(s: State, cs: seq<PublishCall>): State
  {
    if cs == [] then s
    else
      var c := cs[|cs| - 1];
      Published(PublishRun(s, cs[..|cs| - 1]), c.record, c.failing)
  }

  // ---------------------------------------------------------------- what the loops publish

  /** The publishes of a detection handler run at the polls `fired` of `ss`. */
  function DetectionCalls<R>(d: Detection, ss: seq<Sample<R>>, fired: seq<nat>): seq<PublishCall>
    requires forall k :: 0 <= k < |fired| ==> fired[k] < |ss|
  {
    if fired == [] then []
    else DetectionCalls(d, ss, fired[..|fired| - 1]) + [DetectionCall(d, ss[fired[|fired| - 1]].env)]
  }

  /** The publishes of the smoke handler, one per poll of `ss`. */
  function SmokeCalls(ss: seq<Sample<int>>): seq<PublishCall>
  {
    seq(|ss|, i requires 0 <= i < |ss| => PublishCall(SmokeRecord(ss[i].reading), ss[i].env.failing))
  }

  /** The publishes of the climate handler at the polls `published` of `ss`. */
  function ClimateCalls(ss: seq<Sample<DhtRead>>, published: seq<nat>): seq<PublishCall>
    requires forall k :: 0 <= k < |published| ==>
      published[k] < |ss| && DhtRecord(ss[published[k]].reading).Some?
  {
    if published == [] then []
    else
      var j := published[|published| - 1];
      ClimateCalls(ss, published[..|published| - 1])
        + [PublishCall(DhtRecord(ss[j].reading).value, ss[j].env.failing)]
  }

  function Repeat<T>(x: T, n: nat): seq<T>
  {
    if n == 0 then [] else Repeat(x, n - 1) + [x]
  }

  /** The LED settings of `n` handled detections: the alert LED, then green. */
  function Flashes(alert: Leds, n: nat): seq<Leds>
  {
    if n == 0 then [] else Flashes(alert, n - 1) + [alert, GreenOnly]
  }

  // ---------------------------------------------------------------- one more poll

  /** A detection loop publishes once per firing. */
  lemma {:induction false} DetectionCallsLength<R>(d: Detection, ss: seq<Sample<R>>, fired: seq<nat>)
    requires forall k :: 0 <= k < |fired| ==> fired[k] < |ss|
    ensures |DetectionCalls(d, ss, fired)| == |fired|
  {
    if fired != [] {
      DetectionCallsLength(d, ss, fired[..|fired| - 1]);
    }
  }

  /** One more firing adds that poll's publish after the earlier ones. */
  lemma {:induction false} DetectionCallsStep<R>(d: Detection, ss: seq<Sample<R>>, fired: seq<nat>, i: nat)
    requires forall k :: 0 <= k < |fired| ==> fired[k] < |ss|
    requires i < |ss|
    ensures DetectionCalls(d, ss, fired + [i]) == DetectionCalls(d, ss, fired) + [DetectionCall(d, ss[i].env)]
  {
    assert (fired + [i])[..|fired|] == fired;
  }

  /** One more valid reading adds that poll's publish after the earlier ones. */
  lemma {:induction false} ClimateCallsStep(ss: seq<Sample<DhtRead>>, published: seq<nat>, i: nat)
    requires forall k :: 0 <= k < |published| ==>
      published[k] < |ss| && DhtRecord(ss[published[k]].reading).Some?
    requires i < |ss| && DhtRecord(ss[i].reading).Some?
    ensures ClimateCalls(ss, published + [i])
      == ClimateCalls(ss, published) + [PublishCall(DhtRecord(ss[i].reading).value, ss[i].env.failing)]
  {
    assert (published + [i])[..|published|] == published;
  }

  /** One more handled detection runs the handler after the earlier ones. */
  lemma {:induction false} DetectionRunStep(s: State, alert: Leds, cs: seq<PublishCall>, c: PublishCall)
    ensures DetectionRun(s, alert, cs + [c]) == Handled(DetectionRun(s, alert, cs), alert, c)
  {
    assert (cs + [c])[..|cs|] == cs;
  }

  /** One more firing of a detection loop runs its handler after the earlier ones. */
  lemma {:induction false} DetectionRunNext<R>(s: State, d: Detection, ss: seq<Sample<R>>, fired: seq<nat>, i: nat)
    requires forall k :: 0 <= k < |fired| ==> fired[k] < |ss|
    requires i < |ss|
    ensures DetectionRun(s, Alert(d), DetectionCalls(d, ss, fired + [i]))
      == DetectionEvent(DetectionRun(s, Alert(d), DetectionCalls(d, ss, fired)), d, ss[i].env)
  {
    DetectionCallsStep(d, ss, fired, i);
    DetectionRunStep(s, Alert(d), DetectionCalls(d, ss, fired), DetectionCall(d, ss[i].env));
  }

  /** One more publish runs after the earlier ones. */
  lemma {:induction false} PublishRunStep(s: State, cs: seq<PublishCall>, c: PublishCall)
    ensures PublishRun(s, cs + [c]) == Published(PublishRun(s, cs), c.record, c.failing)
  {
    assert (cs + [c])[..|cs|] == cs;
  }

  /** One more smoke poll runs the handler after the earlier ones. */
  lemma {:induction false} SmokeRunStep(s: State, ss: seq<Sample<int>>, i: nat)
    requires i < |ss|
    ensures SmokeRun(s, ss[..i + 1]) == SmokeEvent(SmokeRun(s, ss[..i]), ss[i].reading, ss[i].env.failing)
  {
    assert ss[..i + 1][..i] == ss[..i];
  }

  // ---------------------------------------------------------------- lemmas

  /** A sound or motion handler leaves only the green LED on, after lighting its
      alert LED; it beeps once, short; it publishes once, and of that publish
      only the event string reaches the sink. */
  lemma {:induction false} DetectionEventEffect(s: State, d: Detection, env: Env)
    ensures DetectionEvent(s, d, env) == s.(
      leds := GreenOnly,
      ledLog := s.ledLog + [Alert(d), GreenOnly],
      buzzes := s.buzzes + [Short],
      calls := s.calls + [DetectionCall(d, env)],
      writes := s.writes + if 0 in env.failing then [] else [Write(EventPin, Text(EventName(d)))])
  {
    var shot := CaptureImageWithFace(Tag(d), env.ts, env.camera);
    DetectionRouting(d, shot, env.failing);
    assert s.ledLog + [Alert(d)] + [GreenOnly] == s.ledLog + [Alert(d), GreenOnly];
  }

  /** A smoke alert sets only the red LED and beeps long; any other state leaves
      the LEDs and the buzzer alone. Every state publishes exactly once. */
  lemma {:induction false} SmokeEventEffect(s: State, state: int, failing: set<nat>)
    ensures SmokeEvent(s, state, failing).calls == s.calls + [PublishCall(SmokeRecord(state), failing)]
    ensures SmokeEvent(s, state, failing).writes == s.writes + Routed(SmokeRecord(state), failing)
    ensures state == 1 ==>
              && SmokeEvent(s, state, failing).leds == RedOnly
              && SmokeEvent(s, state, failing).ledLog == s.ledLog + [RedOnly]
              && SmokeEvent(s, state, failing).buzzes == s.buzzes + [Long]
    ensures state != 1 ==>
              && SmokeEvent(s, state, failing).leds == s.leds
              && SmokeEvent(s, state, failing).ledLog == s.ledLog
              && SmokeEvent(s, state, failing).buzzes == s.buzzes
  {
  }

  /** One handled detection: the alert LED, then green; one short beep; its
      publish and exactly that publish's writes. */
  lemma {:induction false} HandledEffect(s: State, alert: Leds, c: PublishCall)
    ensures Handled(s, alert, c).leds == GreenOnly
    ensures Handled(s, alert, c).ledLog == s.ledLog + [alert, GreenOnly]
    ensures Handled(s, alert, c).buzzes == s.buzzes + [Short]
    ensures Handled(s, alert, c).calls == s.calls + [c]
    ensures Handled(s, alert, c).writes == s.writes + WritesOf([c])
  {
    assert s.ledLog + [alert] + [GreenOnly] == s.ledLog + [alert, GreenOnly];
    assert [c][..0] == [];
  }

  /** The detection loop's LEDs and buzzer: per handled detection, the alert
      LED then green and one short beep; the LEDs end green if anything was
      handled and are untouched otherwise. */
  lemma {:induction false} DetectionRunAlarms(s: State, alert: Leds, cs: seq<PublishCall>)
    ensures DetectionRun(s, alert, cs).leds == if cs == [] then s.leds else GreenOnly
    ensures DetectionRun(s, alert, cs).ledLog == s.ledLog + Flashes(alert, |cs|)
    ensures DetectionRun(s, alert, cs).buzzes == s.buzzes + Repeat(Short, |cs|)
  {
    if cs != [] {
      var init := cs[..|cs| - 1];
      DetectionRunAlarms(s, alert, init);
      HandledEffect(DetectionRun(s, alert, init), alert, cs[|cs| - 1]);
      assert s.ledLog + Flashes(alert, |init|) + [alert, GreenOnly] == s.ledLog + Flashes(alert, |cs|);
    }
  }

  /** The detection loop's publishes: exactly the handled detections' calls, in
      order, and exactly their writes. */
  lemma {:induction false} DetectionRunPublishes(s: State, alert: Leds, cs: seq<PublishCall>)
    ensures DetectionRun(s, alert, cs).calls == s.calls + cs
    ensures DetectionRun(s, alert, cs).writes == s.writes + WritesOf(cs)
  {
    if cs != [] {
      var init := cs[..|cs| - 1];
      var c := cs[|cs| - 1];
      DetectionRunPublishes(s, alert, init);
      HandledEffect(DetectionRun(s, alert, init), alert, c);
      assert init + [c] == cs;
      WritesOfAppend(init, [c]);
    }
  }

  /** What the last poll of a smoke trace adds to its alerts. */
  lemma {:induction false} LastSmokePoll(ss: seq<Sample<int>>)
    requires ss != []
    ensures var n := |ss| - 1;
      LevelFirings(Readings(ss))
        == LevelFirings(Readings(ss[..n])) + (if ss[n].reading == 1 then [n] else [])
  {
    var n := |ss| - 1;
    assert Readings(ss)[..n] == Readings(ss[..n]);
    LevelStep(Readings(ss), n);
    assert Readings(ss)[..n + 1] == Readings(ss);
  }

  /** The calls and writes the last poll of a smoke trace adds. */
  lemma {:induction false} SmokeCallsStep(ss: seq<Sample<int>>)
    requires ss != []
    ensures var n := |ss| - 1;
      var c := PublishCall(SmokeRecord(ss[n].reading), ss[n].env.failing);
      && SmokeCalls(ss) == SmokeCalls(ss[..n]) + [c]
      && WritesOf(SmokeCalls(ss)) == WritesOf(SmokeCalls(ss[..n])) + Routed(c.record, c.failing)
  {
    var n := |ss| - 1;
    var c := PublishCall(SmokeRecord(ss[n].reading), ss[n].env.failing);
    assert SmokeCalls(ss) == SmokeCalls(ss[..n]) + [c];
    WritesOfAppend(SmokeCalls(ss[..n]), [c]);
    assert WritesOf([c]) == Routed(c.record, c.failing) by {
      assert [c][..0] == [];
    }
  }

  /** The smoke loop's publishes: one per poll, in order, and exactly their
      writes. */
  lemma {:induction false} SmokeRunPublishes(s: State, ss: seq<Sample<int>>)
    ensures SmokeRun(s, ss).calls == s.calls + SmokeCalls(ss)
    ensures SmokeRun(s, ss).writes == s.writes + WritesOf(SmokeCalls(ss))
  {
    if ss != [] {
      var n := |ss| - 1;
      var last := ss[n];
      SmokeRunPublishes(s, ss[..n]);
      SmokeEventEffect(SmokeRun(s, ss[..n]), last.reading, last.env.failing);
      SmokeCallsStep(ss);
    }
  }

  /** The smoke loop's alarms: per alert, the red LED and a long beep; the LEDs
      end red if any poll alerted and are untouched otherwise (a later clear
      poll does not turn the red LED off). */
  lemma {:induction false} SmokeRunAlarms(s: State, ss: seq<Sample<int>>)
    ensures var alerts := LevelFirings(Readings(ss));
      && SmokeRun(s, ss).leds == (if alerts == [] then s.leds else RedOnly)
      && SmokeRun(s, ss).ledLog == s.ledLog + Repeat(RedOnly, |alerts|)
      && SmokeRun(s, ss).buzzes == s.buzzes + Repeat(Long, |alerts|)
  {
    if ss != [] {
      var n := |ss| - 1;
      var last := ss[n];
      var t := SmokeRun(s, ss[..n]);
      var a := LevelFirings(Readings(ss[..n]));
      SmokeRunAlarms(s, ss[..n]);
      SmokeEventEffect(t, last.reading, last.env.failing);
      LastSmokePoll(ss);
      if last.reading == 1 {
        assert t.ledLog + [RedOnly] == s.ledLog + Repeat(RedOnly, |a| + 1);
        assert t.buzzes + [Long] == s.buzzes + Repeat(Long, |a| + 1);
      }
    }
  }

  /** A run of publishes adds exactly those calls, and exactly their writes, and
      touches no LED or buzzer. */
  lemma {:induction false} PublishRunEffect(s: State, cs: seq<PublishCall>)
    ensures PublishRun(s, cs) == s.(calls := s.calls + cs, writes := s.writes + WritesOf(cs))
  {
    if cs != [] {
      var init := cs[..|cs| - 1];
      var c := cs[|cs| - 1];
      PublishRunEffect(s, init);
      assert PublishRun(s, cs) == Published(PublishRun(s, init), c.record, c.failing);
      assert WritesOf(cs) == WritesOf(init) + Routed(c.record, c.failing) by {
        assert init + [c] == cs;
        WritesOfAppend(init, [c]);
        assert WritesOf([c]) == Routed(c.record, c.failing) by {
          assert [c][..0] == [];
        }
      }
    }
  }

  /** Of one detection publish only the event string reaches the sink, unless
      that write fails. */
  lemma {:induction false} DetectionCallWrites(d: Detection, env: Env)
    ensures WritesOf([DetectionCall(d, env)])
      == if 0 in env.failing then [] else [Write(EventPin, Text(EventName(d)))]
  {
    var c := DetectionCall(d, env);
    assert WritesOf([c]) == Routed(c.record, c.failing) by {
      assert [c][..0] == [];
    }
    DetectionRouting(d, CaptureImageWithFace(Tag(d), env.ts, env.camera), env.failing);
  }

  /** The writes of one more firing of a detection loop. */
  lemma {:induction false} DetectionWritesStep<R>(d: Detection, ss: seq<Sample<R>>, fired: seq<nat>)
    requires forall k :: 0 <= k < |fired| ==> fired[k] < |ss|
    requires fired != []
    ensures var env := ss[fired[|fired| - 1]].env;
      WritesOf(DetectionCalls(d, ss, fired)) == WritesOf(DetectionCalls(d, ss, fired[..|fired| - 1]))
        + if 0 in env.failing then [] else [Write(EventPin, Text(EventName(d)))]
  {
    var f := fired[..|fired| - 1];
    var env := ss[fired[|fired| - 1]].env;
    var c := DetectionCall(d, env);
    var cs := DetectionCalls(d, ss, f);
    calc {
      WritesOf(DetectionCalls(d, ss, fired));
      { assert DetectionCalls(d, ss, fired) == cs + [c]; }
      WritesOf(cs + [c]);
      { WritesOfAppend(cs, [c]); }
      WritesOf(cs) + WritesOf([c]);
      { DetectionCallWrites(d, env); }
      WritesOf(cs) + if 0 in env.failing then [] else [Write(EventPin, Text(EventName(d)))];
    }
  }

  /** Over a whole detection loop the sink receives nothing but the event string,
      on the event pin: the face flag and the photo path of the capture never
      reach it. */
  lemma {:induction false} DetectionLoopWritesOnlyEvents<R>(d: Detection, ss: seq<Sample<R>>, fired: seq<nat>)
    requires forall k :: 0 <= k < |fired| ==> fired[k] < |ss|
    ensures forall w :: w in WritesOf(DetectionCalls(d, ss, fired)) ==> w == Write(EventPin, Text(EventName(d)))
  {
    if fired != [] {
      DetectionLoopWritesOnlyEvents(d, ss, fired[..|fired| - 1]);
      DetectionWritesStep(d, ss, fired);
    }
  }

  /** When no write fails, the event string reaches the sink once per firing. */
  lemma {:induction false} DetectionLoopWriteCount<R>(d: Detection, ss: seq<Sample<R>>, fired: seq<nat>)
    requires forall k :: 0 <= k < |fired| ==> fired[k] < |ss| && ss[fired[k]].env.failing == {}
    ensures |WritesOf(DetectionCalls(d, ss, fired))| == |fired|
  {
    if fired != [] {
      DetectionLoopWriteCount(d, ss, fired[..|fired| - 1]);
      DetectionWritesStep(d, ss, fired);
    }
  }

  /** A whole detection loop: one short beep per firing, and nothing but that
      detection's event string reaches the sink. */
  lemma {:induction false} DetectionLoopEffect<R>(s: State, d: Detection, ss: seq<Sample<R>>, fired: seq<nat>)
    requires forall k :: 0 <= k < |fired| ==> fired[k] < |ss|
    ensures var t := DetectionRun(s, Alert(d), DetectionCalls(d, ss, fired));
      && t.buzzes == s.buzzes + Repeat(Short, |fired|)
      && |t.writes| >= |s.writes|
      && forall w :: w in t.writes[|s.writes|..] ==> w == Write(EventPin, Text(EventName(d)))
  {
    var cs := DetectionCalls(d, ss, fired);
    DetectionCallsLength(d, ss, fired);
    DetectionRunAlarms(s, Alert(d), cs);
    DetectionRunPublishes(s, Alert(d), cs);
    DetectionLoopWritesOnlyEvents(d, ss, fired);
    var t := DetectionRun(s, Alert(d), cs);
    assert t.writes[|s.writes|..] == WritesOf(cs);
  }
}
