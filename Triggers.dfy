/** The trigger rule of each polling loop, as a function from a finite trace of
    readings to the positions at which the loop's handler fires or publishes. */
module Triggers {
  import opened Telemetry
  import opened Events

  /** Python truthiness of a digital reading. */
  predicate Truthy(x: int)
  {
    x != 0
  }

  /** The value the IR loop's `last` holds when it examines poll `i`: 0 before the
      first poll, the previous reading afterwards. */
  function Prev(rs: seq<int>, i: nat): int
    requires i <= |rs|
  {
    if i == 0 then 0 else rs[i - 1]
  }

  /** Poll `i` of the IR loop sees `state and not last`. */
  predicate Rising(rs: seq<int>, i: nat)
    requires i < |rs|
  {
    Truthy(rs[i]) && !Truthy(Prev(rs, i))
  }

  /** Level rule: the polls whose reading equals 1 (sound handler, smoke alert). */
  function LevelFirings(rs: seq<int>): (f: seq<nat>)
    ensures forall k :: 0 <= k < |f| ==> f[k] < |rs|
  {
    if rs == [] then []
    else
      var i := |rs| - 1;
      LevelFirings(rs[..i]) + if rs[i] == 1 then [i] else []
  }

  /** Edge rule: the polls at which the IR loop calls the motion handler. */
  function EdgeFirings(rs: seq<int>): (f: seq<nat>)
    ensures forall k :: 0 <= k < |f| ==> f[k] < |rs|
  {
    if rs == [] then []
    else
      var i := |rs| - 1;
      EdgeFirings(rs[..i]) + if Rising(rs, i) then [i] else []
  }

  /** Validity gate: the polls at which the climate handler publishes. */
  function ClimatePublishes(polls: seq<DhtRead>): (f: seq<nat>)
    ensures forall k :: 0 <= k < |f| ==> f[k] < |polls| && DhtRecord(polls[f[k]]).Some?
  {
    if polls == [] then []
    else
      var i := |polls| - 1;
      ClimatePublishes(polls[..i]) + if DhtRecord(polls[i]).Some? then [i] else []
  }

  /** One more poll extends the level firings by that poll, if it reads 1. */
  lemma {:induction false} LevelStep(rs: seq<int>, i: nat)
    requires i < |rs|
    ensures LevelFirings(rs[..i + 1]) == LevelFirings(rs[..i]) + if rs[i] == 1 then [i] else []
  {
    assert rs[..i + 1][..i] == rs[..i];
  }

  /** One more poll extends the edge firings by that poll, if it is a rising edge. */
  lemma {:induction false} EdgeStep(rs: seq<int>, i: nat)
    requires i < |rs|
    ensures EdgeFirings(rs[..i + 1]) == EdgeFirings(rs[..i]) + if Rising(rs, i) then [i] else []
  {
    assert rs[..i + 1][..i] == rs[..i];
  }

  /** One more poll extends the climate publishes by that poll, if its reading is valid. */
  lemma {:induction false} ClimateStep(polls: seq<DhtRead>, i: nat)
    requires i < |polls|
    ensures ClimatePublishes(polls[..i + 1])
      == ClimatePublishes(polls[..i]) + if DhtRecord(polls[i]).Some? then [i] else []
  {
    assert polls[..i + 1][..i] == polls[..i];
  }

  /** The sound handler fires, once each, exactly at the polls reading 1, consecutive
      ones included, and never at a poll reading anything else. */
  lemma {:induction false} LevelFiringsExactly(rs: seq<int>)
    ensures Increasing(LevelFirings(rs))
    ensures forall i: nat :: i in LevelFirings(rs) <==> i < |rs| && rs[i] == 1
  {
    if rs != [] {
      var i := |rs| - 1;
      LevelFiringsExactly(rs[..i]);
      var f := LevelFirings(rs[..i]);
      assert forall k :: 0 <= k < |f| ==> f[k] < i;
    }
  }

  /** The motion handler fires, once each, exactly at the polls whose reading is
      truthy while the previous one (0 before the first poll) is falsy. */
  lemma {:induction false} EdgeFiringsExactly(rs: seq<int>)
    ensures Increasing(EdgeFirings(rs))
    ensures forall i: nat :: i in EdgeFirings(rs) <==> i < |rs| && Rising(rs, i)
  {
    if rs != [] {
      var i := |rs| - 1;
      EdgeFiringsExactly(rs[..i]);
      var f := EdgeFirings(rs[..i]);
      assert forall k :: 0 <= k < |f| ==> f[k] < i;
      forall j: nat | j < i
        ensures Rising(rs[..i], j) == Rising(rs, j)
      {
      }
    }
  }

  /** The climate handler publishes, once each, exactly at the polls with a valid reading. */
  lemma {:induction false} ClimatePublishesExactly(polls: seq<DhtRead>)
    ensures Increasing(ClimatePublishes(polls))
    ensures forall i: nat :: i in ClimatePublishes(polls) <==> i < |polls| && DhtRecord(polls[i]).Some?
  {
    if polls != [] {
      var i := |polls| - 1;
      ClimatePublishesExactly(polls[..i]);
    }
  }

  /** A steady IR input never fires: a poll whose reading has the same truthiness
      as `last` (the reading before it, or 0 at the first poll) is not a firing. */
  lemma {:induction false} SteadyInputNeverFires(rs: seq<int>, i: nat)
    requires i < |rs| && Truthy(Prev(rs, i)) == Truthy(rs[i])
    ensures i !in EdgeFirings(rs)
  {
    EdgeFiringsExactly(rs);
  }

  /** On 0/1 readings the edge rule fires only where the level rule does. */
  lemma {:induction false} EdgeFiringsAreLevelFirings(rs: seq<int>)
    requires forall i :: 0 <= i < |rs| ==> rs[i] == 0 || rs[i] == 1
    ensures forall i: nat :: i in EdgeFirings(rs) ==> i in LevelFirings(rs)
  {
    EdgeFiringsExactly(rs);
    LevelFiringsExactly(rs);
  }

  /** `n` polls all reading 1. */
  function Ones(n: nat): seq<int>
  {
    seq(n, _ => 1)
  }

  /** The positions `0 .. n-1`. */
  function Upto(n: nat): seq<nat>
  {
    seq(n, i => i)
  }

  /** A held input: the level rule fires at every one of `n` polls reading 1, the
      edge rule only at the first. */
  lemma {:induction false} HeldInput(n: nat)
    ensures LevelFirings(Ones(n)) == Upto(n)
    ensures EdgeFirings(Ones(n)) == if n == 0 then [] else [0]
  {
    if n > 0 {
      HeldInput(n - 1);
      assert Ones(n)[..n - 1] == Ones(n - 1);
      assert Upto(n - 1) + [n - 1] == Upto(n);
    }
  }
}
