/** The label collector: WAITs are played tick by tick up to a manual horizon, and
    at scheduled shots an exact oracle is consulted on the live environment. */
module Shadow {
  import opened Simulation
  import opened Prefix

  const QUERY_STRIDE: nat := 6
  const MAXIMUM_QUERIES: nat := 4

  predicate IsShot(actions: seq<Action>) {
    actions != [] && actions[0].Shot?
  }

  /** Shots 1, 7, 13 and 19 ask. */
  predicate Asks(shotsBefore: nat) {
    shotsBefore < 24 && shotsBefore % 6 == 0
  }

  /** Each query was made at the tick of its own shot. */
  ghost predicate AtShots(queries: seq<Query>, ticks: seq<nat>) {
    forall k :: 0 <= k < |queries| ==> 6 * k < |ticks| && queries[k].tick == ticks[6 * k]
  }

  lemma AtShotsNext(shots: nat, queries: seq<Query>, ticks: seq<nat>, tick: nat)
    requires OnSchedule(shots, queries) && AtShots(queries, ticks) && |ticks| == shots
    ensures AtShots(queries + (if Asks(shots) then [Query(|queries|, shots + 1, tick)] else []), ticks + [tick])
  {
    if Asks(shots) {
      assert shots == QUERY_STRIDE * |queries|;
      assert (ticks + [tick])[shots] == tick;
    }
    assert forall k :: 0 <= k < shots ==> (ticks + [tick])[k] == ticks[k];
  }

  /** A query row: its index, the number of the shot it was made at, and the tick. */
  datatype Query = Query(index: nat, shot: nat, tick: nat)

  /** After `shots` shots there was a query at shots 1, 7, 13 and 19, as far as they
      have come, and at no other. */
  ghost predicate OnSchedule(shots: nat, queries: seq<Query>) {
    && |queries| == (if (shots + 5) / 6 < 4 then (shots + 5) / 6 else 4)
    && forall k :: 0 <= k < |queries| ==> queries[k].index == k && queries[k].shot == 6 * k + 1
  }

  /** Queries were made one after another, before `tick`. */
  ghost predicate InTime(queries: seq<Query>, tick: nat) {
    && (forall k :: 0 <= k < |queries| ==> queries[k].tick < tick)
    && forall j, k :: 0 <= j < k < |queries| ==> queries[j].tick < queries[k].tick
  }

  /** The schedule test at lines 1763-1768, shot by shot. */
  lemma ScheduleStep(shots: nat, queries: seq<Query>, tick: nat)
    requires OnSchedule(shots, queries)
    ensures var due := shots % QUERY_STRIDE == 0 && |queries| < MAXIMUM_QUERIES;
      OnSchedule(shots + 1, if due then queries + [Query(|queries|, shots + 1, tick)] else queries)
  {
    if shots % QUERY_STRIDE == 0 && |queries| < MAXIMUM_QUERIES {
      assert shots == QUERY_STRIDE * |queries|;
    }
  }

  /** The collector's world fits: it starts somewhere, and the simulator itself
      does not truncate before the manual horizon. */
  ghost predicate Censored<E(!new), P(!new), O(!new)>(sim: Sim<E, O>, pol: Policy<P, O>, cut: nat) {
    && TimeLaw(sim) && WaitLaw(sim) && Decisive(pol)
    && forall x :: sim.truncated(x) ==> sim.tick(x) >= cut
  }

  /** A unit of a primitive: one tick of a WAIT, or the whole of a shot. */
  function Unit(a: Action): Action {
    if a.Wait? then Wait(1) else a
  }

  /** After one unit of `head` the rest of it is still to be played. */
  lemma UnitPlayed<E(!new), P(!new), O(!new)>(
      sim: Sim<E, O>, pol: Policy<P, O>, cut: nat, x0: E, p0: P, now: View<E, P>, head: Action, rest: seq<Action>)
    requires Censored(sim, pol, cut)
    requires OnTrack(sim, pol, cut, x0, p0, now, true, [head] + rest)
    requires !sim.Over(now.state) && sim.tick(now.state) < cut
    requires now.due >= sim.tick(now.state) + Duration(head)
    ensures var left := Duration(head) - 1;
      OnTrack(sim, pol, cut, x0, p0, Stepped(sim, now, Unit(head)), left > 0, if left > 0 then [Wait(left)] + rest
          else rest)
    ensures var y := sim.step(now.state, Unit(head)).state; sim.tick(y) == sim.tick(now.state) + 1
  {
    assert Punctual(sim, now.state, Unit(head));
    if Duration(head) > 1 {
      assert head == Wait(1 + (Duration(head) - 1));
      PlayedPart(sim, pol, cut, x0, p0, now, 1, Duration(head) - 1, rest);
    } else {
      PlayedWhole(sim, pol, cut, x0, p0, now, head, rest);
    }
  }

  /** The ticks of the shot decisions of a run cut at `cut`. */
  ghost function ShotTicks<E(!new), P(!new), O(!new)>(
      sim: Sim<E, O>, pol: Policy<P, O>, cut: nat, x: E, p: P, todo: seq<Action>): seq<nat>
    requires TimeLaw(sim) && Decisive(pol)
    decreases if sim.tick(x) < cut then cut - sim.tick(x) else 0, if todo == [] then 1 else 0
  {
    if sim.Over(x) || sim.tick(x) >= cut then []
    else if todo == [] then
      var (q, actions) := pol.predict(p, sim.observe(x));
      (if actions != [] && actions[0].Shot? then [sim.tick(x)] else []) + ShotTicks(sim, pol, cut, x, q, actions)
    else
      var act := Clip(todo[0], cut - sim.tick(x));
      assert Punctual(sim, x, act);
      ShotTicks(sim, pol, cut, sim.step(x, act).state, p, todo[1..])
  }

  /** Playing one unit of a primitive leaves the shot decisions still to come as they are. */
  lemma UnitTicks<E(!new), P(!new), O(!new)>(
      sim: Sim<E, O>, pol: Policy<P, O>, cut: nat, x: E, p: P, head: Action, rest: seq<Action>)
    requires TimeLaw(sim) && WaitLaw(sim) && Decisive(pol) && !sim.Over(x) && sim.tick(x) < cut
    ensures var left := Duration(head) - 1; var y := sim.step(x, Unit(head)).state;
      ShotTicks(sim, pol, cut, x, p, [head] + rest)
        == ShotTicks(sim, pol, cut, y, p, if left > 0 then [Wait(left)] + rest else rest)
  {
    assert ([head] + rest)[1..] == rest && ([head] + rest)[0] == head;
    var y := sim.step(x, Unit(head)).state;
    assert Punctual(sim, x, Unit(head));
    var act := Clip(head, cut - sim.tick(x));
    if Duration(head) > 1 {
      var left := Duration(head) - 1;
      assert ([Wait(left)] + rest)[1..] == rest && ([Wait(left)] + rest)[0] == Wait(left);
      if act.ticks > 1 {
        assert Composes(sim, x, 1, act.ticks - 1);
        if !sim.Over(y) { assert Clip(Wait(left), cut - sim.tick(y)) == Wait(act.ticks - 1); }
      }
    }
  }

  /** One primitive in unit steps, cut at the horizon. */
  method PlayUnits<E(!new), P(!new), O(!new)>(
      sim: Sim<E, O>, pol: Policy<P, O>, cut: nat, ghost x0: E, ghost p0: P,
      before: View<E, P>, action: Action, ghost rest: seq<Action>) returns (now: View<E, P>)
    requires Censored(sim, pol, cut)
    requires OnTrack(sim, pol, cut, x0, p0, before, false, [action] + rest)
    requires !sim.Over(before.state) && sim.tick(before.state) < cut
    ensures OnTrack(sim, pol, cut, x0, p0, now, false, rest)
    ensures sim.tick(before.state) < sim.tick(now.state) <= cut
    ensures now.policy == before.policy
    ensures ShotTicks(sim, pol, cut, before.state, before.policy, [action] + rest)
      == ShotTicks(sim, pol, cut, now.state, now.policy, rest)
  {
    Started(sim, pol, cut, x0, p0, before, [action] + rest);
    now := Begun(sim, before, action);
    var room := cut - sim.tick(before.state);
    var units := if Duration(action) < room then Duration(action) else room;
    ghost var head := action;
    var i := 0;
    while i < units && !sim.Over(now.state)
      invariant 0 <= i <= units && sim.tick(now.state) == sim.tick(before.state) + i
      invariant i == 0 ==> now.state == before.state
      invariant i < Duration(action) ==> Duration(head) == Duration(action) - i && Unit(head) == Unit(action)
      invariant now.due >= sim.tick(before.state) + Duration(action)
      invariant var mid := i < Duration(action);
        OnTrack(sim, pol, cut, x0, p0, now, mid, if mid then [head] + rest else rest)
      invariant now.policy == before.policy
      invariant ShotTicks(sim, pol, cut, before.state, before.policy, [action] + rest)
        == ShotTicks(sim, pol, cut, now.state, now.policy, if i < Duration(action) then [head] + rest else rest)
    {
      UnitTicks(sim, pol, cut, now.state, now.policy, head, rest);
      UnitPlayed(sim, pol, cut, x0, p0, now, head, rest);
      now := Stepped(sim, now, Unit(action));
      i := i + 1;
      if i < Duration(action) { head := Wait(Duration(action) - i); }
    }
    if i < Duration(action) { Dropped(sim, pol, cut, x0, p0, now, head, rest); }
  }

  /** At the end of the run what is left of a primitive does not matter. */
  lemma Dropped<E(!new), P(!new), O(!new)>(
      sim: Sim<E, O>, pol: Policy<P, O>, cut: nat, x0: E, p0: P, now: View<E, P>, head: Action, rest: seq<Action>)
    requires TimeLaw(sim) && Decisive(pol) && (sim.Over(now.state) || sim.tick(now.state) >= cut)
    requires OnTrack(sim, pol, cut, x0, p0, now, true, [head] + rest)
    ensures OnTrack(sim, pol, cut, x0, p0, now, false, rest)
  {}

  /** The primitives of one decision, until the episode ends or the horizon is reached. */
  method PlayDecision<E(!new), P(!new), O(!new)>(
      sim: Sim<E, O>, pol: Policy<P, O>, cut: nat, ghost x0: E, ghost p0: P,
      before: View<E, P>, actions: seq<Action>) returns (now: View<E, P>)
    requires Censored(sim, pol, cut) && actions != []
    requires OnTrack(sim, pol, cut, x0, p0, before, false, actions)
    requires !sim.Over(before.state) && sim.tick(before.state) < cut
    ensures OnTrack(sim, pol, cut, x0, p0, now, false, [])
    ensures sim.tick(before.state) < sim.tick(now.state) <= cut
    ensures ShotTicks(sim, pol, cut, before.state, before.policy, actions)
      == ShotTicks(sim, pol, cut, now.state, now.policy, [])
  {
    now := before;
    var todo := actions;
    while todo != [] && !sim.Over(now.state) && sim.tick(now.state) < cut
      invariant OnTrack(sim, pol, cut, x0, p0, now, false, todo)
      invariant ShotTicks(sim, pol, cut, before.state, before.policy, actions)
        == ShotTicks(sim, pol, cut, now.state, now.policy, todo)
      invariant sim.tick(now.state) <= cut
      invariant (todo == actions && now == before) || sim.tick(before.state) < sim.tick(now.state)
      decreases |todo|
    {
      ghost var rest := todo[1..];
      assert [todo[0]] + rest == todo;
      now := PlayUnits(sim, pol, cut, x0, p0, now, todo[0], rest);
      todo := todo[1..];
    }
  }

  /** A shot decision: if it is on schedule the oracle is consulted on the live
      environment, which it must hand back. */
  method Consult<E(==), P, O>(
      sim: Sim<E, O>, oracle: (E, P) -> (E, P), now: View<E, P>, shots0: nat, queries0: seq<Query>)
      returns (restored: bool, next: View<E, P>, shots: nat, queries: seq<Query>)
    requires OnSchedule(shots0, queries0) && InTime(queries0, sim.tick(now.state))
    requires oracle(now.state, now.policy).1 == now.policy
    ensures restored ==> next == now && OnSchedule(shots, queries) && InTime(queries, sim.tick(now.state) + 1)
    ensures shots == shots0 + 1
    ensures queries == queries0 + if Asks(shots0) then [Query(|queries0|, shots, sim.tick(now.state))] else []
    ensures !restored ==> oracle(now.state, now.policy).0 != now.state
  {
    restored, next, queries := true, now, queries0;
    ScheduleStep(shots0, queries0, sim.tick(now.state));
    shots := shots0 + 1;
    if (shots - 1) % QUERY_STRIDE == 0 && |queries| < MAXIMUM_QUERIES {
      var (state, live) := oracle(now.state, now.policy);
      restored, next := state == now.state, now.(state := state, policy := live);
      queries := queries + [Query(|queries|, shots, sim.tick(now.state))];
    }
  }

  /** What the decision loop keeps: the run is on track, and its queries are on schedule,
      at the ticks of their shots. */
  ghost predicate Kept<E(!new), P(!new), O(!new)>(
      sim: Sim<E, O>, pol: Policy<P, O>, cut: nat, x0: E, p0: P, now: View<E, P>, shots: nat, queries: seq<Query>,
      ticks: seq<nat>)
    requires TimeLaw(sim) && Decisive(pol)
  {
    && OnTrack(sim, pol, cut, x0, p0, now, false, [])
    && OnSchedule(shots, queries) && InTime(queries, sim.tick(now.state))
    && |ticks| == shots && AtShots(queries, ticks)
    && ShotTicks(sim, pol, cut, x0, p0, []) == ticks + ShotTicks(sim, pol, cut, now.state, now.policy, [])
  }

  lemma KeptStarts<E(!new), P(!new), O(!new)>(sim: Sim<E, O>, pol: Policy<P, O>, cut: nat, x0: E, p0: P)
    requires TimeLaw(sim) && Decisive(pol)
    ensures Kept(sim, pol, cut, x0, p0, View(x0, p0, 0, 0, 0, []), 0, [], [])
  {
    assert [] + Clipped(sim, pol, cut, x0, p0, []).events == Clipped(sim, pol, cut, x0, p0, []).events;
    assert [] + ShotTicks(sim, pol, cut, x0, p0, []) == ShotTicks(sim, pol, cut, x0, p0, []);
  }

  lemma KeptEnds<E(!new), P(!new), O(!new)>(
      sim: Sim<E, O>, pol: Policy<P, O>, cut: nat, x0: E, p0: P, now: View<E, P>, shots: nat, queries: seq<Query>,
      ticks: seq<nat>)
    requires TimeLaw(sim) && Decisive(pol) && (sim.Over(now.state) || sim.tick(now.state) >= cut)
    requires Kept(sim, pol, cut, x0, p0, now, shots, queries, ticks)
    ensures now == Clipped(sim, pol, cut, x0, p0, []) && ticks == ShotTicks(sim, pol, cut, x0, p0, [])
  {
    assert ticks + [] == ticks;
    Arrived(sim, pol, cut, x0, p0, now, false, []);
  }

  lemma TicksDecided<E(!new), P(!new), O(!new)>(
      sim: Sim<E, O>, pol: Policy<P, O>, cut: nat, whole: seq<nat>, ticks: seq<nat>, x: E, p: P)
      returns (grown: seq<nat>)
    requires TimeLaw(sim) && Decisive(pol) && !sim.Over(x) && sim.tick(x) < cut
    requires whole == ticks + ShotTicks(sim, pol, cut, x, p, [])
    ensures var (q, actions) := pol.predict(p, sim.observe(x));
      && grown == (if IsShot(actions) then ticks + [sim.tick(x)] else ticks)
      && whole == grown + ShotTicks(sim, pol, cut, x, q, actions)
  {
    var (q, actions) := pol.predict(p, sim.observe(x));
    grown := if IsShot(actions) then ticks + [sim.tick(x)] else ticks;
    var later := ShotTicks(sim, pol, cut, x, q, actions);
    assert ticks + ((if IsShot(actions) then [sim.tick(x)] else []) + later) == grown + later;
  }

  /** One decision: the oracle if it is a shot on schedule, then its primitives. */
  method Decide<E(==,!new), P(!new), O(!new)>(
      sim: Sim<E, O>, pol: Policy<P, O>, oracle: (E, P) -> (E, P), cut: nat, ghost x0: E, ghost p0: P,
      before: View<E, P>, shots0: nat, queries0: seq<Query>, ghost ticks0: seq<nat>)
      returns (restored: bool, now: View<E, P>, shots: nat, queries: seq<Query>, ghost ticks: seq<nat>)
    requires Censored(sim, pol, cut) && !sim.Over(before.state) && sim.tick(before.state) < cut
    requires forall x, p :: oracle(x, p).1 == p
    requires Kept(sim, pol, cut, x0, p0, before, shots0, queries0, ticks0)
    ensures restored ==> Kept(sim, pol, cut, x0, p0, now, shots, queries, ticks)
    ensures restored ==> sim.tick(before.state) < sim.tick(now.state) <= cut
    ensures (forall x, p :: oracle(x, p).0 == x) ==> restored
  {
    Decided(sim, pol, cut, x0, p0, before);
    ticks := TicksDecided(sim, pol, cut, ShotTicks(sim, pol, cut, x0, p0, []), ticks0, before.state, before.policy);
    var (q, actions) := pol.predict(before.policy, sim.observe(before.state));
    now := before.(policy := q, decisions := before.decisions + 1);
    restored, shots, queries := true, shots0, queries0;
    if IsShot(actions) {
      AtShotsNext(shots, queries, ticks0, sim.tick(before.state));
      restored, now, shots, queries := Consult(sim, oracle, now, shots, queries);
      if !restored { return; }
    }
    now := PlayDecision(sim, pol, cut, x0, p0, now, actions);
  }

  /** The decision loop. */
  method DecideAll<E(==,!new), P(!new), O(!new)>(
      sim: Sim<E, O>, pol: Policy<P, O>, oracle: (E, P) -> (E, P), cut: nat, x0: E, p0: P)
      returns (restored: bool, now: View<E, P>, shots: nat, queries: seq<Query>, ghost ticks: seq<nat>)
    requires Censored(sim, pol, cut) && sim.tick(x0) <= cut
    requires forall x, p :: oracle(x, p).1 == p
    ensures restored ==> Kept(sim, pol, cut, x0, p0, now, shots, queries, ticks)
    ensures restored ==> sim.tick(x0) <= sim.tick(now.state) <= cut
    ensures restored ==> sim.Over(now.state) || sim.tick(now.state) == cut
    ensures (forall x, p :: oracle(x, p).0 == x) ==> restored
  {
    restored, now, shots, queries, ticks := true, View(x0, p0, 0, 0, 0, []), 0, [], [];
    KeptStarts(sim, pol, cut, x0, p0);
    while !sim.Over(now.state) && sim.tick(now.state) < cut
      invariant Kept(sim, pol, cut, x0, p0, now, shots, queries, ticks)
      invariant sim.tick(x0) <= sim.tick(now.state) <= cut && restored
      decreases cut - sim.tick(now.state)
    {
      restored, now, shots, queries, ticks := Decide(sim, pol, oracle, cut, x0, p0, now, shots, queries, ticks);
      if !restored { return; }
    }
  }

  /** `collect_episode` as a trajectory.  Whatever the oracle does, if it hands back
      the environment and leaves the live policy alone, the trajectory is the
      plain run of whole WAITs cut at the horizon, and the queries are on
      schedule; an oracle that does not restore the environment is caught, and an
      episode without any query is rejected. */
  method Collect<E(==,!new), P(!new), O(!new)>(
      sim: Sim<E, O>, pol: Policy<P, O>, oracle: (E, P) -> (E, P), x0: E, p0: P, horizon: nat)
      returns (accepted: bool, last: View<E, P>, shots: nat, queries: seq<Query>, elapsed: nat)
    requires Censored(sim, pol, sim.tick(x0) + horizon)
    requires forall x, p :: oracle(x, p).1 == p
    ensures accepted ==> last == Clipped(sim, pol, sim.tick(x0) + horizon, x0, p0, [])
    ensures accepted ==> OnSchedule(shots, queries) && shots > 0
    ensures accepted ==> InTime(queries, sim.tick(last.state))
    ensures accepted ==>
      var ticks := ShotTicks(sim, pol, sim.tick(x0) + horizon, x0, p0, []);
      shots == |ticks| && AtShots(queries, ticks)
    ensures accepted ==> elapsed <= horizon && elapsed == sim.tick(last.state) - sim.tick(x0)
    ensures accepted ==> elapsed == horizon || sim.terminated(last.state)
    ensures (forall x, p :: oracle(x, p).0 == x) && !accepted ==>
      shots == 0 && last == Clipped(sim, pol, sim.tick(x0) + horizon, x0, p0, [])
  {
    var cut := sim.tick(x0) + horizon;
    var restored;
    ghost var ticks;
    restored, last, shots, queries, ticks := DecideAll(sim, pol, oracle, cut, x0, p0);
    if !restored { return false, last, shots, queries, 0; }
    KeptEnds(sim, pol, cut, x0, p0, last, shots, queries, ticks);
    elapsed := sim.tick(last.state) - sim.tick(x0);
    accepted := queries != [];
  }
}
