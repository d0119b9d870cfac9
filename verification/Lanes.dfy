/** Rollouts of independent lanes: a barrier after every step, or chunks per lane. */
module Lanes {

  /** What one lane owns: simulator, policy, digest input and event count. */
  datatype Lane<S, P> = Lane(simulator: S, policy: P, digest: seq<nat>, events: nat)

  /** One step of a lane: the policy acts on the lane's own observation and the
      simulator answers with a payload and a number of events. */
  datatype Kernel<!S, !P> = Kernel(act: (P, S) -> (P, nat), step: (S, nat) -> (S, nat, nat))

  function Advance<S, P>(k: Kernel<S, P>, lane: Lane<S, P>): Lane<S, P> {
    var (policy, action) := k.act(lane.policy, lane.simulator);
    var (simulator, payload, events) := k.step(lane.simulator, action);
    Lane(simulator, policy, lane.digest + [payload], lane.events + events)
  }

  /** The lane on its own, `n` steps later. */
  function Rollout<S, P>(k: Kernel<S, P>, lane: Lane<S, P>, n: nat): Lane<S, P> {
    if n == 0 then lane else Advance(k, Rollout(k, lane, n - 1))
  }

  lemma {:induction false} RolloutAdds<S, P>(k: Kernel<S, P>, lane: Lane<S, P>, m: nat, n: nat)
    ensures Rollout(k, Rollout(k, lane, m), n) == Rollout(k, lane, m + n)
    decreases n
  {
    if n > 0 { RolloutAdds(k, lane, m, n - 1); }
  }

  /** Any interleaving of lane steps. */
  function Interleaved<S, P>(k: Kernel<S, P>, lanes: seq<Lane<S, P>>, schedule: seq<nat>): (r: seq<Lane<S, P>>)
    requires forall i <- schedule :: i < |lanes|
    ensures |r| == |lanes|
  {
    if schedule == [] then lanes
    else
      var most := schedule[..|schedule| - 1];
      assert forall i <- most :: i in schedule;
      var before := Interleaved(k, lanes, most);
      var lane := schedule[|schedule| - 1];
      assert lane in schedule;
      before[lane := Advance(k, before[lane])]
  }

  /** Whatever the interleaving, a lane ends where its own number of steps takes it. */
  lemma {:induction false} InterleavingIsPrivate<S,
      P>(k: Kernel<S, P>, lanes: seq<Lane<S, P>>, schedule: seq<nat>, i: nat)
    requires (forall j <- schedule :: j < |lanes|) && i < |lanes|
    ensures Interleaved(k, lanes, schedule)[i] == Rollout(k, lanes[i], multiset(schedule)[i])
    decreases |schedule|
  {
    if schedule != [] {
      var most := schedule[..|schedule| - 1];
      assert forall j <- most :: j in schedule;
      assert schedule == most + [schedule[|schedule| - 1]];
      InterleavingIsPrivate(k, lanes, most, i);
    }
  }

  /** Two schedules that give every lane the same number of steps agree on everything. */
  lemma SchedulesAgree<S, P>(k: Kernel<S, P>, lanes: seq<Lane<S, P>>, a: seq<nat>, b: seq<nat>)
    requires multiset(a) == multiset(b) && forall j <- a :: j < |lanes|
    ensures (forall j <- b :: j < |lanes|) && Interleaved(k, lanes, a) == Interleaved(k, lanes, b)
  {
    forall j <- b ensures j < |lanes| { assert j in multiset(b) && j in multiset(a) && j in a; }
    forall i | 0 <= i < |lanes| ensures Interleaved(k, lanes, a)[i] == Interleaved(k, lanes, b)[i] {
      InterleavingIsPrivate(k, lanes, a, i);
      InterleavingIsPrivate(k, lanes, b, i);
    }
  }

  /** `synchronous`: all policies act, then all simulators step, `steps` times. */
  method Synchronous<S, P>(k: Kernel<S, P>, lanes: seq<Lane<S, P>>, steps: nat) returns (result: seq<Lane<S, P>>)
    ensures |result| == |lanes| && forall i :: 0 <= i < |lanes| ==> result[i] == Rollout(k, lanes[i], steps)
  {
    result := lanes;
    for t := 0 to steps
      invariant |result| == |lanes| && forall i :: 0 <= i < |lanes| ==> result[i] == Rollout(k, lanes[i], t)
    {
      var decided: seq<(P, nat)> := seq(|lanes|,
          i requires 0 <= i < |lanes| => k.act(result[i].policy, result[i].simulator));
      ghost var before := result;
      for i := 0 to |lanes|
        invariant |result| == |lanes|
        invariant forall j :: 0 <= j < i ==> result[j] == Advance(k, before[j])
        invariant forall j :: i <= j < |lanes| ==> result[j] == before[j]
      {
        var (simulator, payload, events) := k.step(result[i].simulator, decided[i].1);
        result := result[i := Lane(simulator, decided[i].0, result[i].digest + [payload], result[i].events + events)];
      }
    }
  }

  /** `actor`: each lane plays a chunk of `min(remaining, horizon)` steps on its own
      before the next lane does. */
  method Actor<S, P>(k: Kernel<S, P>, lanes: seq<Lane<S, P>>, steps: nat, horizon: nat)
      returns (result: seq<Lane<S, P>>)
    requires horizon > 0
    ensures |result| == |lanes| && forall i :: 0 <= i < |lanes| ==> result[i] == Rollout(k, lanes[i], steps)
  {
    result := lanes;
    var remaining: nat := steps;
    ghost var done := 0;
    while remaining > 0
      invariant done + remaining == steps && |result| == |lanes|
      invariant forall i :: 0 <= i < |lanes| ==> result[i] == Rollout(k, lanes[i], done)
    {
      var count := if remaining < horizon then remaining else horizon;
      ghost var before := result;
      for i := 0 to |lanes|
        invariant |result| == |lanes|
        invariant forall j :: 0 <= j < i ==> result[j] == Rollout(k, before[j], count)
        invariant forall j :: i <= j < |lanes| ==> result[j] == before[j]
      {
        var lane := result[i];
        for t := 0 to count
          invariant lane == Rollout(k, before[i], t)
        {
          lane := Advance(k, lane);
        }
        result := result[i := lane];
      }
      forall i | 0 <= i < |lanes| ensures result[i] == Rollout(k, lanes[i], done + count) {
        RolloutAdds(k, lanes[i], done, count);
      }
      remaining, done := remaining - count, done + count;
    }
  }

  /** The comparison the benchmark makes: both executors give the same lanes. */
  method Compare<S(==), P(==)>(k: Kernel<S, P>, lanes: seq<Lane<S, P>>, steps: nat, horizon: nat) returns (same: bool)
    requires horizon > 0
    ensures same
  {
    var synchronous := Synchronous(k, lanes, steps);
    var actor := Actor(k, lanes, steps, horizon);
    assert synchronous == actor;
    same := synchronous == actor;
  }
}
