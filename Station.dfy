/** The node as the program runs it: the three LEDs, the buzzer and the
    telemetry sink are state updated in place, and the event handlers and the
    four polling loops (over finite traces of readings) update it. Every method
    ties the new state to the function of the old state in `Handlers` that
    says what the step does. */
module Station {
  import opened Telemetry
  import opened Events
  import opened Capture
  import opened Triggers
  import opened Handlers

  class Station {
    var green: int
    var yellow: int
    var red: int
    /** Every LED setting made, in order. */
    var ledLog: seq<Leds>
    /** Every buzzer pulse, in order. */
    var buzzes: seq<Buzz>
    /** Every call of `publish_to_blynk`, in order. */
    var calls: seq<PublishCall>
    /** Every write that reached the sink, in order. */
    var writes: seq<Write>

    /** The node's observable state. */
    function Now(): State
      reads this
    {
      State(Leds(green, yellow, red), ledLog, buzzes, calls, writes)
    }

    /** Start-up: the LEDs come up off and the program turns the green one on. */
    constructor ()
      ensures Now() == SetLeds(State(AllOff, [], [], [], []), GreenOnly)
      ensures green == 1 && yellow == 0 && red == 0
    {
      green, yellow, red := 0, 0, 0;
      ledLog, buzzes, calls, writes := [], [], [], [];
      new;
      LedSet(green := true);
    }

    /** `led_set`: each LED is set to 1 exactly when its flag is true. */
    method LedSet(green: bool := false, yellow: bool := false, red: bool := false)
      modifies this`green, this`yellow, this`red, this`ledLog
      ensures Now() == SetLeds(old(Now()), LedsFor(green, yellow, red))
      ensures (this.green == 1 <==> green) && (this.yellow == 1 <==> yellow) && (this.red == 1 <==> red)
    {
      this.green := LedValue(green);
      this.yellow := LedValue(yellow);
      this.red := LedValue(red);
      ledLog := ledLog + [Leds(this.green, this.yellow, this.red)];
    }

    /** `beep`. */
    method Beep(pattern: string := "short")
      modifies this`buzzes
      ensures Now() == Beeped(old(Now()), pattern)
    {
      if pattern == "short" {
        buzzes := buzzes + [Short];
      } else if pattern == "long" {
        buzzes := buzzes + [Long];
      }
    }

    /** `publish_to_blynk`: one write per entry whose key has a pin, in order; a
        write the sink refuses is skipped and the loop goes on, and nothing
        escapes the call. */
    method Publish(record: Record, failing: set<nat>)
      modifies this`calls, this`writes
      ensures Now() == Published(old(Now()), record, failing)
    {
      var i := 0;
      while i < |record|
        invariant 0 <= i <= |record|
        invariant calls == old(calls)
        invariant writes == old(writes) + Routed(record[..i], failing)
      {
        match PinFor(record[i].key) {
          case Some(pin) =>
            if i !in failing {
              writes := writes + [Write(pin, record[i].value)];
            }
          case None =>
        }
        assert record[..i + 1][..i] == record[..i];
        i := i + 1;
      }
      assert record[..i] == record;
      calls := calls + [PublishCall(record, failing)];
    }

    /** `handle_sound_event`: red LED, short beep, capture tagged "noise",
        publish the event, then only the green LED. */
    method HandleSoundEvent(env: Env)
      modifies this
      ensures Now() == DetectionEvent(old(Now()), Sound, env)
      ensures green == 1 && yellow == 0 && red == 0
    {
      LedSet(red := true);
      Beep("short");
      var shot := CaptureImageWithFace("noise", env.ts, env.camera);
      var event := [Entry("event", Text("sound_detected")),
                    Entry("face_detected", Flag(shot.hasFace)),
                    Entry("photo", Text(shot.photo))];
      Publish(event, env.failing);
      LedSet(green := true);
    }

    /** `handle_motion_event`: yellow LED, short beep, capture tagged "motion",
        publish the event, then only the green LED. */
    method HandleMotionEvent(env: Env)
      modifies this
      ensures Now() == DetectionEvent(old(Now()), Motion, env)
      ensures green == 1 && yellow == 0 && red == 0
    {
      LedSet(yellow := true);
      Beep("short");
      var shot := CaptureImageWithFace("motion", env.ts, env.camera);
      var event := [Entry("event", Text("motion_detected")),
                    Entry("face_detected", Flag(shot.hasFace)),
                    Entry("photo", Text(shot.photo))];
      Publish(event, env.failing);
      LedSet(green := true);
    }

    /** `handle_smoke_event`: state 1 sets only the red LED, beeps long and
        publishes the alert; any other state only publishes a zero smoke level. */
    method HandleSmokeEvent(state: int, failing: set<nat>)
      modifies this
      ensures Now() == SmokeEvent(old(Now()), state, failing)
    {
      if state == 1 {
        LedSet(red := true);
        Beep("long");
        Publish([Entry("event", Text("smoke_alert")), Entry("smoke", Int(1))], failing);
      } else {
        Publish([Entry("smoke", Int(0))], failing);
      }
    }

    /** `handle_dht_event`: publishes temperature and humidity only when the read
        succeeded and both are present; a failed read is swallowed. */
    method HandleDhtEvent(read: DhtRead, failing: set<nat>)
      modifies this`calls, this`writes
      ensures Now() == ClimateEvent(old(Now()), read, failing)
    {
      match read {
        case ReadError =>
        case Reading(t, h) =>
          if t.Some? && h.Some? {
            Publish([Entry("temperature", t.value), Entry("humidity", h.value)], failing);
          }
      }
    }

    /** Shutdown: all LEDs off. Buzzer pulses are logged whole, so the model has
        no buzzer level for the final `buzzer.off()` to change. */
    method Shutdown()
      modifies this`green, this`yellow, this`red, this`ledLog
      ensures Now() == SetLeds(old(Now()), AllOff)
      ensures green == 0 && yellow == 0 && red == 0
    {
      LedSet();
    }

    /** `loop_sound` over a finite trace: the sound handler runs at the polls
        reading 1, once each, in order. */
    method LoopSound(samples: array<Sample<int>>) returns (fired: seq<nat>)
      modifies this
      ensures fired == LevelFirings(Readings(samples[..]))
      ensures Now() == DetectionRun(old(Now()), Alert(Sound), DetectionCalls(Sound, samples[..], fired))
      ensures buzzes == old(buzzes) + Repeat(Short, |fired|)
      ensures |writes| >= |old(writes)|
      ensures forall w :: w in writes[|old(writes)|..] ==> w == Write(EventPin, Text(EventName(Sound)))
    {
      ghost var ss := samples[..];
      ghost var rs := Readings(ss);
      fired := [];
      var i := 0;
      while i < samples.Length
        invariant 0 <= i <= samples.Length
        invariant fired == LevelFirings(rs[..i])
        invariant Now() == DetectionRun(old(Now()), Alert(Sound), DetectionCalls(Sound, ss, fired))
      {
        LevelStep(rs, i);
        if samples[i].reading == 1 {
          DetectionRunNext(old(Now()), Sound, ss, fired, i);
          HandleSoundEvent(samples[i].env);
          fired := fired + [i];
        }
        i := i + 1;
      }
      assert rs[..i] == rs;
      DetectionLoopEffect(old(Now()), Sound, ss, fired);
    }

    /** One poll of `loop_ir`: the motion handler runs when the reading is truthy
        and `last` is falsy. */
    method PollIr(sample: Sample<int>, last: int) returns (fires: bool)
      modifies this
      ensures fires <==> Truthy(sample.reading) && !Truthy(last)
      ensures Now() == if fires then DetectionEvent(old(Now()), Motion, sample.env) else old(Now())
    {
      fires := Truthy(sample.reading) && !Truthy(last);
      if fires {
        HandleMotionEvent(sample.env);
      }
    }

    /** `loop_ir` over a finite trace: starting from `last = 0`, the motion
        handler runs at the polls whose reading is truthy while `last` is falsy,
        `last` then taking the reading. */
    method LoopIr(samples: array<Sample<int>>) returns (fired: seq<nat>, last: int)
      modifies this
      ensures fired == EdgeFirings(Readings(samples[..]))
      ensures last == Prev(Readings(samples[..]), samples.Length)
      ensures Now() == DetectionRun(old(Now()), Alert(Motion), DetectionCalls(Motion, samples[..], fired))
      ensures buzzes == old(buzzes) + Repeat(Short, |fired|)
      ensures |writes| >= |old(writes)|
      ensures forall w :: w in writes[|old(writes)|..] ==> w == Write(EventPin, Text(EventName(Motion)))
    {
      ghost var s0 := Now();
      ghost var ss := samples[..];
      ghost var rs := Readings(ss);
      fired := [];
      last := 0;
      var i := 0;
      while i < samples.Length
        invariant 0 <= i <= samples.Length
        invariant last == Prev(rs, i)
        invariant fired == EdgeFirings(rs[..i])
        invariant Now() == DetectionRun(s0, Alert(Motion), DetectionCalls(Motion, ss, fired))
      {
        EdgeStep(rs, i);
        var fires := PollIr(samples[i], last);
        if fires {
          DetectionRunNext(s0, Motion, ss, fired, i);
          fired := fired + [i];
        }
        last := samples[i].reading;
        i := i + 1;
      }
      assert rs[..i] == rs;
      DetectionLoopEffect(s0, Motion, ss, fired);
    }

    /** `loop_smoke` over a finite trace: the smoke handler runs at every poll;
        `alerts` are the polls that took the alarm branch. */
    method LoopSmoke(samples: array<Sample<int>>) returns (alerts: seq<nat>)
      modifies this
      ensures alerts == LevelFirings(Readings(samples[..]))
      ensures Now() == SmokeRun(old(Now()), samples[..])
    {
      ghost var ss := samples[..];
      ghost var rs := Readings(ss);
      alerts := [];
      var i := 0;
      while i < samples.Length
        invariant 0 <= i <= samples.Length
        invariant alerts == LevelFirings(rs[..i])
        invariant Now() == SmokeRun(old(Now()), ss[..i])
      {
        LevelStep(rs, i);
        SmokeRunStep(old(Now()), ss, i);
        var state := samples[i].reading;
        HandleSmokeEvent(state, samples[i].env.failing);
        if state == 1 {
          alerts := alerts + [i];
        }
        i := i + 1;
      }
      assert rs[..i] == rs;
      assert ss[..i] == ss;
    }

    /** `loop_dht` over a finite trace: the climate handler runs at every poll and
        publishes at the polls with a valid reading. */
    method LoopDht(samples: array<Sample<DhtRead>>) returns (published: seq<nat>)
      modifies this`calls, this`writes
      ensures published == ClimatePublishes(Readings(samples[..]))
      ensures Now() == PublishRun(old(Now()), ClimateCalls(samples[..], published))
    {
      ghost var ss := samples[..];
      ghost var rs := Readings(ss);
      published := [];
      var i := 0;
      while i < samples.Length
        invariant 0 <= i <= samples.Length
        invariant published == ClimatePublishes(rs[..i])
        invariant Now() == PublishRun(old(Now()), ClimateCalls(ss, published))
      {
        ClimateStep(rs, i);
        var read := samples[i].reading;
        if DhtRecord(read).Some? {
          var c := PublishCall(DhtRecord(read).value, samples[i].env.failing);
          PublishRunStep(old(Now()), ClimateCalls(ss, published), c);
          ClimateCallsStep(ss, published, i);
        }
        HandleDhtEvent(read, samples[i].env.failing);
        if DhtRecord(read).Some? {
          published := published + [i];
        }
        i := i + 1;
      }
      assert rs[..i] == rs;
    }
  }
}
