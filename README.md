# Museum monitoring node

A Dafny model of the monitoring node of a public area (a museum room) running
on a Raspberry Pi (`Museum_Main.py`). The node has four digital or climate
sensors: sound, infrared motion, smoke and a DHT11. It also has a buzzer,
three LEDs (green, yellow, red), a camera with face detection, and a Blynk
telemetry sink.

The model covers:

- **Telemetry routing** (`Telemetry`): `publish_to_blynk` sends each entry
  of a dictionary, in insertion order, to the virtual pin of its key.
  - `temperature` goes to V1, `humidity` to V2, `smoke` to V3 and `event`
    to V4.
  - Every other key is dropped.
  - A write that raises is caught, and the loop goes on with the next entry.
  - The sink's behaviour is an input: for each call, the set of entry
    positions whose `virtual_write` raises. The writes that do reach the sink
    are recorded in a log.
- **Captures** (`Capture`): `capture_image_with_face` returns the filename
  `captures/<tag>_<timestamp>.jpg` in every case. It reports a face only when
  the camera command succeeded, the image could be read back, and the
  classifier found at least one face.
- **Published dictionaries** (`Events`): what each handler publishes, and
  which of those entries reach the sink. Of a sound or motion event only the
  event string does: `face_detected` and `photo` have no pin.
- **Trigger rules** (`Triggers`): which polls of a finite trace of readings
  make each loop act.
  - The sound loop is level-triggered: it fires on every poll reading 1.
  - The IR loop is edge-triggered: a truthy reading while `last` is falsy,
    with `last` starting at 0.
  - The smoke loop alerts on every poll reading 1.
  - The DHT loop publishes only when the read did not raise and both values
    are present.
- **Handler semantics** (`Handlers`): the node's observable state is a
  value. It holds:
  - the LEDs and every LED setting;
  - every buzzer pulse;
  - every publish call and every write that reached the sink.

  Each handler, and each loop over a finite trace, is a function of the old
  state, with lemmas saying what it does:
  - sound and motion light their alert LED, beep short, publish once and end
    on the green LED only;
  - a smoke alert sets the red LED and beeps long, and a clear poll touches
    neither;
  - the loops add exactly their calls and writes, in order.
- **The node** (`Station`): a class whose fields are that state. It has:
  - `led_set`, `beep` and `publish_to_blynk` as methods that update the
    fields in place;
  - the four handlers;
  - the four polling loops, over arrays of samples;
  - start-up and shutdown.

  Every method's postcondition ties the new state to the matching function in
  `Handlers` of the old state. Each loop returns the polls at which it acted,
  and proves them equal to the trigger rule in `Triggers`.

The program has four polling loops, each in its own thread, and each calls
its handler directly. There is no event queue, no dispatcher, no cooldown, no
sound-level threshold and no high-temperature event. The model follows the
program. Note that the red LED set by a smoke alert stays on after the smoke
clears: only a sound or motion handler turns the green LED back on
(`Handlers.SmokeRunAlarms`).

## Model

| member | source | states |
|---|---|---|
| Telemetry.PinFor | Museum_Main.py:63-70 | exactly the four keys temperature, humidity, smoke, event have a pin; that pin is in 1..4 and maps back to the key |
| Telemetry.KeyFor | Museum_Main.py:63-70 | exactly the pins 1..4 are fed by a key |
| Telemetry.EveryPinHasOneKey | Museum_Main.py:63-70 | the routing table is a bijection between the four keys and pins 1..4 |
| Telemetry.Routed | Museum_Main.py:59-72 | one call delivers at most one write per dictionary entry |
| Telemetry.DeliveredExactly | Museum_Main.py:61-72 | the entries that reach the sink are exactly those with a recognised key whose write did not raise, each once, in increasing position |
| Telemetry.RoutedFollowsDelivered | Museum_Main.py:61-70 | the k-th write goes to the pin of the k-th delivered entry's key, with that entry's value unchanged |
| Telemetry.FailuresAreIsolated | Museum_Main.py:61-72 | a raising write removes only its own entry: the delivered entries are those of a failure-free call minus the failing ones |
| Telemetry.UnknownKeysAreDropped | Museum_Main.py:61-70 | a dictionary with no recognised key writes nothing |
| Telemetry.WritesOfAppend | Museum_Main.py:59-72 | the writes of consecutive publish calls are each call's writes, in call order |
| Capture.CaptureFilename | Museum_Main.py:80 | the filename's length is the directory, tag and timestamp lengths plus the six separator and extension characters |
| Capture.CaptureImageWithFace | Museum_Main.py:78-107 | the photo is always the capture filename; a face is reported iff the capture command succeeded, the image was read back and at least one face was found |
| Capture.FilenameRoundTrip | Museum_Main.py:80 | the filename starts with `captures/`, has `_` after the tag and ends with `.jpg`; the tag and the timestamp can be read back from it |
| Capture.FilenameDeterminesTagAndTime | Museum_Main.py:75-80 | with fixed-width timestamps, two captures share a filename only if they share tag and timestamp |
| Events.DhtRecord | Museum_Main.py:158-166 | the climate handler publishes iff the read did not raise and both temperature and humidity are present |
| Events.DetectionRecord | Museum_Main.py:125-129 | the sound dictionary, and the motion one at lines 139-143, has three distinct keys; the first is `event` with the detection's event string and is the only one with a pin; then `face_detected` with the face flag and `photo` with the photo path |
| Events.SmokeRecord | Museum_Main.py:153 | an alert's dictionary is `event: smoke_alert` then `smoke: 1`; any other state's (line 156) is the single entry `smoke: 0`; keys are distinct and all have a pin |
| Events.DetectionRouting | Museum_Main.py:125-130 | of a sound or motion event only the event string reaches the sink, on V4; the face flag and photo path are dropped |
| Events.SmokeRouting | Museum_Main.py:149-156 | an alert writes `smoke_alert` to V4 and 1 to V3; any other state writes only 0 to V3 |
| Events.DhtRouting | Museum_Main.py:162-163 | a valid reading writes the temperature to V1 and the humidity to V2 |
| Triggers.LevelFirings | Museum_Main.py:169-173 | the sound loop's firings are positions inside the trace |
| Triggers.EdgeFirings | Museum_Main.py:175-182 | the IR loop's firings are positions inside the trace |
| Triggers.ClimatePublishes | Museum_Main.py:190-193 | every climate publish is at a poll with a valid reading |
| Triggers.LevelFiringsExactly | Museum_Main.py:169-173 | the sound loop fires, once each and in order, exactly at the polls reading 1 |
| Triggers.EdgeFiringsExactly | Museum_Main.py:175-182 | the IR loop fires, once each and in order, exactly at truthy readings whose previous reading (0 before the first) is falsy |
| Triggers.ClimatePublishesExactly | Museum_Main.py:158-166 | the DHT loop publishes, once each and in order, exactly at the polls with a valid reading |
| Triggers.SteadyInputNeverFires | Museum_Main.py:179-181 | an IR reading with the same truthiness as `last` (the previous reading, 0 at the first poll) never fires |
| Triggers.EdgeFiringsAreLevelFirings | Museum_Main.py:169-182 | on 0/1 readings every IR firing is at a poll the level rule also fires at |
| Triggers.HeldInput | Museum_Main.py:169-182 | an input held at 1 for n polls fires the level rule n times and the edge rule once |
| Handlers.LedValue | Museum_Main.py:115-118 | an LED is 1 iff its flag is true and 0 iff it is false |
| Handlers.SetLeds | Museum_Main.py:115-118 | the state after `led_set`: the LEDs become the setting, which is appended to the LED log; buzzer and sink untouched |
| Handlers.Beeped | Museum_Main.py:109-113 | the state after `beep`: a short pulse appended for "short", a long one for "long", none otherwise; LEDs and sink untouched |
| Handlers.Published | Museum_Main.py:59-72 | the state after `publish_to_blynk`: the call is logged and the routed writes are appended; LEDs and buzzer untouched |
| Handlers.DetectionEvent | Museum_Main.py:121-147 | the state after a sound or motion event: only the green LED on, one short beep appended, one publish |
| Handlers.SmokeEvent | Museum_Main.py:149-156 | the state after one smoke poll: its dictionary published once; only the red LED on for state 1, LEDs unchanged otherwise |
| Handlers.ClimateEvent | Museum_Main.py:158-166 | the state after one DHT poll: a valid reading logs its record's call and appends that record's routed writes; a failed or incomplete one leaves the state unchanged; LEDs and buzzer untouched |
| Handlers.HandledEffect | Museum_Main.py:121-147 | one detection handler logs its alert LED then green, ends green only, beeps short once and publishes its call once |
| Handlers.DetectionEventEffect | Museum_Main.py:121-147 | the whole new state after a sound or motion event: green LED only, alert LED then green logged, one short beep, one publish, and only the event string written unless that write raises |
| Handlers.SmokeEventEffect | Museum_Main.py:149-156 | every smoke poll publishes once; an alert sets only the red LED and beeps long; any other state leaves LEDs and buzzer alone |
| Handlers.DetectionCallWrites | Museum_Main.py:124-130 | one detection publish writes only its event string to V4, or nothing if that write raises |
| Handlers.DetectionRunAlarms | Museum_Main.py:169-182 | a detection loop logs alert-then-green per firing and one short beep each; the LEDs end green if it fired and are untouched otherwise |
| Handlers.DetectionRunPublishes | Museum_Main.py:169-182 | a detection loop adds exactly its calls, in order, and exactly their writes |
| Handlers.DetectionLoopWritesOnlyEvents | Museum_Main.py:169-182 | everything a detection loop writes is its event string on V4 |
| Handlers.DetectionLoopWriteCount | Museum_Main.py:169-182 | with no raising writes, a detection loop writes once per firing |
| Handlers.DetectionLoopEffect | Museum_Main.py:169-182 | a detection loop adds one short beep per firing, and only its event string to the write log |
| Handlers.LastSmokePoll | Museum_Main.py:184-188 | the last smoke poll adds itself to the alerts iff it reads 1 |
| Handlers.SmokeRunPublishes | Museum_Main.py:184-188 | the smoke loop publishes once per poll, in order, and adds exactly those writes |
| Handlers.SmokeRunAlarms | Museum_Main.py:184-188 | the smoke loop sets red and beeps long once per poll reading 1; the LEDs end red if any poll alerted and are untouched otherwise |
| Handlers.PublishRunEffect | Museum_Main.py:190-193 | a run of publishes adds exactly those calls and their writes and touches no LED or buzzer |
| Station.Station.constructor | Museum_Main.py:197 | the node starts with its LEDs off, turns only the green LED on and logs that setting; the buzzer, publish and write logs are empty |
| Station.Station.LedSet | Museum_Main.py:115-118 | each LED becomes 1 iff its flag is true (all flags default to false), and the setting is logged |
| Station.Station.Beep | Museum_Main.py:109-113 | "short" and "long" log one pulse of that kind; any other pattern does nothing |
| Station.Station.Publish | Museum_Main.py:59-72 | the loop appends exactly the routed writes of the dictionary and logs the call |
| Station.Station.HandleSoundEvent | Museum_Main.py:121-133 | the new state is the sound event's, ending with only the green LED on |
| Station.Station.HandleMotionEvent | Museum_Main.py:135-147 | the new state is the motion event's, ending with only the green LED on |
| Station.Station.HandleSmokeEvent | Museum_Main.py:149-156 | the new state is the smoke event's for that state |
| Station.Station.HandleDhtEvent | Museum_Main.py:158-166 | the new state publishes the reading iff it is valid and is unchanged otherwise |
| Station.Station.Shutdown | Museum_Main.py:215-216 | all LEDs off |
| Station.Station.LoopSound | Museum_Main.py:169-173 | fires exactly at the level rule's polls; the new state is the detection run of those polls; one short beep per firing; only `sound_detected` is written |
| Station.Station.PollIr | Museum_Main.py:178-180 | one IR poll runs the motion handler iff the reading is truthy and `last` is falsy, and otherwise changes nothing |
| Station.Station.LoopIr | Museum_Main.py:175-182 | fires exactly at the edge rule's polls, `last` ends as the last reading; the new state is the detection run of those polls; only `motion_detected` is written |
| Station.Station.LoopSmoke | Museum_Main.py:184-188 | alerts exactly at the polls reading 1; the new state is the smoke run of the trace |
| Station.Station.LoopDht | Museum_Main.py:190-193 | publishes exactly at the polls with a valid reading; the new state is the publish run of those readings |

## Left out

- Threads: the four loops run concurrently in the program. Here each loop is a method run on its own, so interleavings, including interleaved LED settings, are not modelled.
- The loops are infinite; the model runs each over a finite trace of samples.
- The Blynk client, `blynk.run()` and the auth token are left out. A write that raises is an input (the failing entry positions), and a successful write is a log entry.
- GPIO and the DHT11 driver are left out. A reading is an input: an integer for the digital sensors, and a `DhtRead` that either raised `RuntimeError` or returned two optional values.
- Events.DhtRead: only `RuntimeError` from the driver is modelled, because it is the only exception `handle_dht_event` catches. Any other exception would escape the handler and end the `loop_dht` thread; `DhtRead` has no such outcome.
- The camera command and OpenCV are left out. Their outcome is an input: the command exited successfully, the image was readable, and the number of faces. Only the `CalledProcessError` failure path is modelled. Any other exception from the command (a missing executable, for example) would escape the program's handler and is not modelled. Neither is an OpenCV exception, such as `detectMultiScale` raising `cv2.error` at Museum_Main.py:104 when the cascade loaded at lines 52-54 is empty; it too escapes and ends the loop's thread.
- `timestamp_utc` is left out: the timestamp is an opaque string supplied with each sample.
- `time.sleep` and all timing are left out, including the buzzer's pulse lengths. A pulse is logged whole, by its kind.
- Station.Station.Shutdown: models `led_set()` only. In the program, `KeyboardInterrupt` reaches only the main thread, and the loop threads keep running. One of them can be inside `beep()`, between `buzzer.on()` and `buzzer.off()` (a smoke alarm holds the buzzer on for one second of each cycle). The final `buzzer.off()` silences such an interrupted pulse. The model has no threads and logs pulses whole, so that call has nothing to act on here.
- `print` and all console output are left out.
- Temperature and humidity values are passed to the sink unchanged as opaque values; their floating-point form is not modelled.
- Configuration constants for the hardware pins, capture resolution and classifier parameters are left out, because nothing in the modelled logic depends on them.
- `os.makedirs` of the capture directory is left out.
