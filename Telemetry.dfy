/** What `publish_to_blynk` does with one telemetry dictionary: the table from
    dictionary keys to Blynk virtual pins, the writes that reach the sink, and the
    isolation of a failed write to its own key. The Blynk client itself is not
    modelled: a call of `virtual_write` becomes an entry of a write log, and the
    sink's failures are an input. */
module Telemetry {
  import opened Wrappers

  /** A value in a telemetry dictionary, passed to the sink unchanged. */
  datatype Value = Int(i: int) | Number(r: real) | Text(s: string) | Flag(b: bool)

  /** One key/value pair of a dictionary. */
  datatype Entry = Entry(key: string, value: Value)

  /** A Python dictionary, as its items in insertion order. */
  type Record = seq<Entry>

  /** One successful `virtual_write(pin, value)`. */
  datatype Write = Write(pin: nat, value: Value)

  /** One call of `publish_to_blynk`: the dictionary and the positions of the
      entries whose write the sink refused (raised an exception). */
  datatype PublishCall = PublishCall(record: Record, failing: set<nat>)

  const TemperaturePin: nat := 1
  const HumidityPin: nat := 2
  const SmokePin: nat := 3
  const EventPin: nat := 4

  /** The only keys that reach the sink. */
  const RecognisedKeys: set<string> := {"temperature", "humidity", "smoke", "event"}

  /** The virtual pin a key is written to; `None` for a key the table does not know. */
  function PinFor(key: string): (pin: Option<nat>)
    ensures pin.Some? <==> key in RecognisedKeys
    ensures pin.Some? ==> 1 <= pin.value <= 4 && KeyFor(pin.value) == Some(key)
  {
    if key == "temperature" then Some(TemperaturePin)
    else if key == "humidity" then Some(HumidityPin)
    else if key == "smoke" then Some(SmokePin)
    else if key == "event" then Some(EventPin)
    else None
  }

  /** The inverse of the table: which key feeds a virtual pin. */
  function KeyFor(pin: nat): (key: Option<string>)
    ensures key.Some? <==> 1 <= pin <= 4
  {
    if pin == TemperaturePin then Some("temperature")
    else if pin == HumidityPin then Some("humidity")
    else if pin == SmokePin then Some("smoke")
    else if pin == EventPin then Some("event")
    else None
  }

  /** The write an entry with a recognised key asks for. */
  function WriteOf(e: Entry): Write
    requires e.key in RecognisedKeys
  {
    Write(PinFor(e.key).value, e.value)
  }

  /** Entry `i` of `r` reaches the sink: its key has a pin and its write did not fail. */
  predicate Reaches(r: Record, failing: set<nat>, i: nat)
    requires i < |r|
  {
    i !in failing && r[i].key in RecognisedKeys
  }

  /** The writes one call of `publish_to_blynk` delivers, in the order the loop makes them. */
  function Routed(r: Record, failing: set<nat>): (ws: seq<Write>)
    ensures |ws| <= |r|
  {
    if r == [] then []
    else
      var i := |r| - 1;
      Routed(r[..i], failing) + if Reaches(r, failing, i) then [WriteOf(r[i])] else []
  }

  /** The positions of the entries whose write reaches the sink. */
  function Delivered(r: Record, failing: set<nat>): (d: seq<nat>)
  {
    if r == [] then []
    else
      var i := |r| - 1;
      Delivered(r[..i], failing) + if Reaches(r, failing, i) then [i] else []
  }

  /** The writes of a sequence of publish calls, one call after the other. */
  function WritesOf(calls: seq<PublishCall>): (ws: seq<Write>)
  {
    if calls == [] then []
    else
      var c := calls[|calls| - 1];
      WritesOf(calls[..|calls| - 1]) + Routed(c.record, c.failing)
  }

  /** `s` keeps only the elements of `s` outside `drop`, in order. */
  function Without(s: seq<nat>, drop: set<nat>): (t: seq<nat>)
  {
    if s == [] then []
    else
      Without(s[..|s| - 1], drop) + if s[|s| - 1] in drop then [] else [s[|s| - 1]]
  }

  /** No key occurs twice, as in a Python dictionary. */
  predicate DistinctKeys(r: Record)
  {
    forall i, j :: 0 <= i < j < |r| ==> r[i].key != r[j].key
  }

  predicate Increasing(s: seq<nat>)
  {
    forall i, j :: 0 <= i < j < |s| ==> s[i] < s[j]
  }

  /** The routing table is a bijection between the four keys and the pins 1 to 4. */
  lemma {:induction false} EveryPinHasOneKey(pin: nat)
    requires 1 <= pin <= 4
    ensures KeyFor(pin).Some? && PinFor(KeyFor(pin).value) == Some(pin)
  {
  }

  /** The delivered positions are exactly the recognised, non-failing entries, in
      increasing order, so each reaches the sink once. */
  lemma {:induction false} DeliveredExactly(r: Record, failing: set<nat>)
    ensures Increasing(Delivered(r, failing))
    ensures forall j: nat :: j in Delivered(r, failing) <==> j < |r| && Reaches(r, failing, j)
  {
    if r != [] {
      var i := |r| - 1;
      DeliveredExactly(r[..i], failing);
      var d := Delivered(r[..i], failing);
      forall k | 0 <= k < |d|
        ensures d[k] < i
      {
        assert d[k] in d;
      }
      forall j: nat | j < i
        ensures Reaches(r[..i], failing, j) == Reaches(r, failing, j)
      {
      }
    }
  }

  /** The k-th write is the write of the k-th delivered entry: writes happen in
      input order, one per delivered entry, to that entry's pin with its value. */
  lemma {:induction false} RoutedFollowsDelivered(r: Record, failing: set<nat>)
    ensures |Routed(r, failing)| == |Delivered(r, failing)|
    ensures forall k :: 0 <= k < |Delivered(r, failing)| ==>
      Delivered(r, failing)[k] < |r| && r[Delivered(r, failing)[k]].key in RecognisedKeys &&
      Routed(r, failing)[k] == WriteOf(r[Delivered(r, failing)[k]])
  {
    if r != [] {
      var i := |r| - 1;
      RoutedFollowsDelivered(r[..i], failing);
    }
  }

  /** A failing write removes only its own entry: the delivered positions under any
      set of failures are those of a failure-free call minus the failing ones. */
  lemma {:induction false} FailuresAreIsolated(r: Record, failing: set<nat>)
    ensures Delivered(r, failing) == Without(Delivered(r, {}), failing)
  {
    if r != [] {
      var i := |r| - 1;
      FailuresAreIsolated(r[..i], failing);
      var d := Delivered(r[..i], {});
      if r[i].key in RecognisedKeys {
        assert (d + [i])[..|d + [i]| - 1] == d;
      } else {
        assert d + [] == d;
      }
    }
  }

  /** A dictionary none of whose keys is in the table produces no write at all. */
  lemma {:induction false} UnknownKeysAreDropped(r: Record, failing: set<nat>)
    requires forall j :: 0 <= j < |r| ==> r[j].key !in RecognisedKeys
    ensures Routed(r, failing) == []
  {
    if r != [] {
      UnknownKeysAreDropped(r[..|r| - 1], failing);
    }
  }

  /** The writes of consecutive publish calls are the writes of each, in call order. */
  lemma {:induction false} WritesOfAppend(a: seq<PublishCall>, b: seq<PublishCall>)
    ensures WritesOf(a + b) == WritesOf(a) + WritesOf(b)
  {
    if b != [] {
      var n := |b| - 1;
      WritesOfAppend(a, b[..n]);
      assert (a + b)[..|a + b| - 1] == a + b[..n];
    } else {
      assert a + b == a;
    }
  }
}
