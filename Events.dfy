/** The dictionaries the event handlers publish, and what each of them writes to
    the sink. */
module Events {
  import opened Wrappers
  import opened Telemetry
  import opened Capture

  /** The two detections that trigger a capture. */
  datatype Detection = Sound | Motion

  /** The capture tag of a detection. */
  function Tag(d: Detection): string
  {
    match d
    case Sound => "noise"
    case Motion => "motion"
  }

  /** The event string a detection publishes. */
  function EventName(d: Detection): string
  {
    match d
    case Sound => "sound_detected"
    case Motion => "motion_detected"
  }

  /** The dictionary a sound or motion handler publishes after its capture. */
  function DetectionRecord(d: Detection, shot: CaptureResult): (r: Record)
    ensures DistinctKeys(r) && |r| == 3
    ensures r[0] == Entry("event", Text(EventName(d)))
    ensures forall j :: 0 <= j < |r| ==> (r[j].key in RecognisedKeys <==> j == 0)
    ensures r[1] == Entry("face_detected", Flag(shot.hasFace)) && r[2] == Entry("photo", Text(shot.photo))
  {
    [Entry("event", Text(EventName(d))),
     Entry("face_detected", Flag(shot.hasFace)),
     Entry("photo", Text(shot.photo))]
  }

  /** The dictionary the smoke handler publishes for one polled state. */
  function SmokeRecord(state: int): (r: Record)
    ensures DistinctKeys(r) && |r| == if state == 1 then 2 else 1
    ensures forall j :: 0 <= j < |r| ==> r[j].key in RecognisedKeys
    ensures r[|r| - 1] == Entry("smoke", Int(if state == 1 then 1 else 0))
    ensures state == 1 ==> r[0] == Entry("event", Text("smoke_alert"))
  {
    if state == 1 then [Entry("event", Text("smoke_alert")), Entry("smoke", Int(1))]
    else [Entry("smoke", Int(0))]
  }

  /** One attempt to read the DHT11: either the driver raised, or it returned a
      temperature and a humidity, each possibly `None`. */
  datatype DhtRead = ReadError | Reading(temperature: Option<Value>, humidity: Option<Value>)

  /** The dictionary the climate handler publishes, if any. */
  function DhtRecord(read: DhtRead): (r: Option<Record>)
    ensures r.Some? <==> read.Reading? && read.temperature.Some? && read.humidity.Some?
  {
    match read
    case ReadError => None
    case Reading(t, h) =>
      if t.Some? && h.Some? then Some([Entry("temperature", t.value), Entry("humidity", h.value)])
      else None
  }

  /** Of a sound or motion event only the event string reaches the sink, on the
      event pin: the face flag and the photo path have no pin and are dropped. */
  lemma {:induction false} DetectionRouting(d: Detection, shot: CaptureResult, failing: set<nat>)
    ensures Routed(DetectionRecord(d, shot), failing)
      == if 0 in failing then [] else [Write(EventPin, Text(EventName(d)))]
  {
    var r := DetectionRecord(d, shot);
    assert r[..2][..1] == r[..1] && r[..1][..0] == [];
    assert Routed(r[..1], failing) == if 0 in failing then [] else [Write(EventPin, Text(EventName(d)))];
    assert Routed(r[..2], failing) == Routed(r[..1], failing);
  }

  /** A smoke alert writes the alert string to the event pin and 1 to the smoke
      pin; any other state writes only 0 to the smoke pin. */
  lemma {:induction false} SmokeRouting(state: int, failing: set<nat>)
    ensures Routed(SmokeRecord(state), failing)
      == if state == 1 then
           (if 0 in failing then [] else [Write(EventPin, Text("smoke_alert"))])
           + (if 1 in failing then [] else [Write(SmokePin, Int(1))])
         else if 0 in failing then [] else [Write(SmokePin, Int(0))]
  {
    var r := SmokeRecord(state);
    assert r[..|r| - 1][..0] == [];
  }

  /** A valid climate reading writes the temperature to V1 and the humidity to V2. */
  lemma {:induction false} DhtRouting(read: DhtRead, failing: set<nat>)
    requires DhtRecord(read).Some?
    ensures Routed(DhtRecord(read).value, failing)
      == (if 0 in failing then [] else [Write(TemperaturePin, read.temperature.value)])
         + (if 1 in failing then [] else [Write(HumidityPin, read.humidity.value)])
  {
    var r := DhtRecord(read).value;
    assert r[..1][..0] == [];
  }
}
