/** The checkpoint-splitting interpreter: WAITs are cut at checkpoint ticks so the
    run can be observed there, and the remainder is played afterwards. */
module Prefix {
  import opened Simulation

  /** One checkpoint record. */
  datatype Row<E, P> = Row(checkpoint: nat, carried: bool, view: View<E, P>, steps: int, splits: nat)

  /** The run so far, continued from here to tick `cut`, is the clipped plain run.
      A primitive under way (`started`) has been counted already. */
  ghost predicate OnTrack<E(!new), P(!new), O(!new)>(
      sim: Sim<E, O>, pol: Policy<P, O>, cut: nat, x0: E, p0: P, now: View<E, P>, started: bool, todo: seq<Action>)
    requires TimeLaw(sim) && Decisive(pol)
  {
    var x := now.state;
    var active := started && !sim.Over(x) && sim.tick(x) < cut;
    && (active ==> now.primitives > 0)
    && Clipped(sim, pol, cut, x0, p0, []) ==
         Plus(now.decisions, if active then now.primitives - 1 else now.primitives, now.due, now.events,
              Clipped(sim, pol, cut, x, now.policy, todo))
  }

  lemma Arrived<E(!new), P(!new), O(!new)>(
      sim: Sim<E, O>, pol: Policy<P, O>, cut: nat, x0: E, p0: P, now: View<E, P>, started: bool, todo: seq<Action>)
    requires TimeLaw(sim) && Decisive(pol)
    requires OnTrack(sim, pol, cut, x0, p0, now, started, todo)
    requires sim.Over(now.state) || sim.tick(now.state) >= cut
    ensures now == Clipped(sim, pol, cut, x0, p0, [])
  {
    assert now.events + [] == now.events;
  }

  lemma Decided<E(!new), P(!new), O(!new)>(
      sim: Sim<E, O>, pol: Policy<P, O>, cut: nat, x0: E, p0: P, now: View<E, P>)
    requires TimeLaw(sim) && Decisive(pol)
    requires OnTrack(sim, pol, cut, x0, p0, now, false, []) && !sim.Over(now.state) && sim.tick(now.state) < cut
    ensures var (q, actions) := pol.predict(now.policy, sim.observe(now.state));
      OnTrack(sim, pol, cut, x0, p0, now.(policy := q, decisions := now.decisions + 1), false, actions)
  {
    var (q, actions) := pol.predict(now.policy, sim.observe(now.state));
    var rest := Clipped(sim, pol, cut, now.state, q, actions);
    assert now.events + ([] + rest.events) == now.events + rest.events;
  }

  /** Counting a primitive as it starts. */
  function Begun<E, P, O>(sim: Sim<E, O>, now: View<E, P>, action: Action): View<E, P> {
    now.(primitives := now.primitives + 1, due := Latest(now.due, sim.tick(now.state) + Duration(action)))
  }

  lemma Started<E(!new), P(!new), O(!new)>(
      sim: Sim<E, O>, pol: Policy<P, O>, cut: nat, x0: E, p0: P, now: View<E, P>, todo: seq<Action>)
    requires TimeLaw(sim) && Decisive(pol)
    requires OnTrack(sim, pol, cut, x0, p0, now, false, todo) && !sim.Over(now.state) && sim.tick(now.state) < cut
    requires todo != []
    ensures OnTrack(sim, pol, cut, x0, p0, Begun(sim, now, todo[0]), true, todo)
  {}

  /** The view after one more environment step. */
  function Stepped<E, P, O>(sim: Sim<E, O>, now: View<E, P>, fragment: Action): View<E, P> {
    var s := sim.step(now.state, fragment);
    now.(state := s.state, events := now.events + s.events)
  }

  lemma PlayedWhole<E(!new), P(!new), O(!new)>(
      sim: Sim<E, O>, pol: Policy<P, O>, cut: nat, x0: E, p0: P, now: View<E, P>, head: Action, rest: seq<Action>)
    requires TimeLaw(sim) && WaitLaw(sim) && Decisive(pol)
    requires OnTrack(sim, pol, cut, x0, p0, now, true, [head] + rest)
    requires now.due >= sim.tick(now.state) + Duration(head)
    requires !sim.Over(now.state) && sim.tick(now.state) + Duration(head) <= cut
    ensures OnTrack(sim, pol, cut, x0, p0, Stepped(sim, now, head), false, rest)
  {
    assert head in [head] + rest;
    assert ([head] + rest)[1..] == rest;
    assert Punctual(sim, now.state, head);
    var s := sim.step(now.state, head);
    var tail := Clipped(sim, pol, cut, s.state, now.policy, rest);
    assert now.events + (s.events + tail.events) == (now.events + s.events) + tail.events;
  }

  lemma PlayedPart<E(!new), P(!new), O(!new)>(
      sim: Sim<E, O>, pol: Policy<P, O>, cut: nat, x0: E, p0: P, now: View<E, P>, a: nat, b: nat, rest: seq<Action>)
    requires TimeLaw(sim) && WaitLaw(sim) && Decisive(pol) && a > 0 && b > 0
    requires OnTrack(sim, pol, cut, x0, p0, now, true, [Wait(a + b)] + rest)
    requires now.due >= sim.tick(now.state) + a + b
    requires !sim.Over(now.state) && sim.tick(now.state) + a <= cut
    ensures OnTrack(sim, pol, cut, x0, p0, Stepped(sim, now, Wait(a)), true, [Wait(b)] + rest)
  {
    SplitWait(sim, pol, cut, now.state, now.policy, a, b, rest);
    var s := sim.step(now.state, Wait(a));
    var tail := Clipped(sim, pol, cut, s.state, now.policy, [Wait(b)] + rest);
    assert now.events + (s.events + tail.events) == (now.events + s.events) + tail.events;
  }

  /** A simulator, a policy, the checkpoints and the states both start from. */
  datatype Setup<!E(!new), !P(!new), !O(!new)> = Setup(
    sim: Sim<E, O>, pol: Policy<P, O>, checkpoints: seq<nat>, x0: E, p0: P)
  {
    predicate Earlier(i: nat, j: nat)
      requires i < |checkpoints| && j < |checkpoints|
    {
      checkpoints[i] < checkpoints[j]
    }

    ghost predicate Increasing() {
      forall i: nat, j: nat :: i < j < |checkpoints| ==> Earlier(i, j)
    }

    /** They fit each other: the run starts at tick zero and the last checkpoint is
        the simulator's horizon. */
    ghost predicate Fit() {
      && TimeLaw(sim) && WaitLaw(sim) && Decisive(pol)
      && |checkpoints| > 0 && Increasing() && checkpoints[0] > 0
      && HorizonLaw(sim, checkpoints[|checkpoints| - 1])
      && sim.tick(x0) == 0
    }

    /** The plain run cut at the `i`-th checkpoint alone. */
    ghost function Seen(i: nat): View<E, P>
      requires Fit() && i < |checkpoints|
    {
      Clipped(sim, pol, checkpoints[i], x0, p0, [])
    }

    ghost predicate OverBefore(i: nat)
      requires Fit() && i <= |checkpoints|
    {
      i > 0 && sim.Over(Seen(i - 1).state)
    }

    /** The run was still going at the checkpoint before, and the primitive on which
        the run meets this one was asked to end after it: that WAIT has to be cut. */
    ghost predicate Interior(i: nat)
      requires Fit() && i < |checkpoints|
    {
      !OverBefore(i) && Seen(i).due > checkpoints[i]
    }

    /** The cuts made for the first `k` checkpoints. */
    ghost function Cuts(k: nat): nat
      requires Fit() && k <= |checkpoints|
    {
      if k == 0 then 0 else Cuts(k - 1) + if Interior(k - 1) then 1 else 0
    }

    /** At this checkpoint, or where the run ended before it, the last step taken was
        a fragment that was not the last of its WAIT. */
    ghost predicate Broken(i: nat)
      requires Fit() && i < |checkpoints|
    {
      if OverBefore(i) then Broken(i - 1) else Seen(i).due > checkpoints[i]
    }

    /** The row of the `i`-th checkpoint: the plain run as it stands there, carried
        when the run ended before, with the splits of the checkpoints up to here and
        the steps that go with them. */
    ghost function Reference(i: nat): Row<E, P>
      requires Fit() && i < |checkpoints|
    {
      Row(checkpoints[i], sim.tick(Seen(i).state) < checkpoints[i], Seen(i),
          Seen(i).primitives + Cuts(i + 1) - (if Broken(i) then 1 else 0), Cuts(i + 1))
    }

    ghost function Rows(k: nat): seq<Row<E, P>>
      requires Fit() && k <= |checkpoints|
    {
      if k == 0 then [] else Rows(k - 1) + [Reference(k - 1)]
    }

    /** The run so far agrees with the plain run cut at the `i`-th checkpoint alone. */
    ghost predicate OnTrackTo(i: nat, now: View<E, P>, started: bool, todo: seq<Action>)
      requires Fit() && i < |checkpoints|
    {
      OnTrack(sim, pol, checkpoints[i], x0, p0, now, started, todo)
    }

    ghost predicate AllOnTrack(index: nat, now: View<E, P>, started: bool, todo: seq<Action>)
      requires Fit()
    {
      && (forall i: nat :: index <= i < |checkpoints| ==> OnTrackTo(i, now, started, todo))
      && OnTrackTo(|checkpoints| - 1, now, started, todo)
    }

    /** Steps and splits counted so far agree with the reference. */
    ghost predicate Tallied(index: nat, now: View<E, P>, started: bool, steps: nat, splits: nat)
      requires Fit() && index <= |checkpoints|
    {
      if sim.Over(now.state) then
        splits == Cuts(|checkpoints|) && steps + (if Broken(|checkpoints| - 1) then 1 else 0) == now.primitives + splits
      else
        splits == Cuts(index) && steps + (if started then 1 else 0) == now.primitives + splits && !OverBefore(index)
    }

    /** What every loop of the interpreter keeps. */
    ghost predicate Inv(
        now: View<E, P>, started: bool, todo: seq<Action>, rows: seq<Row<E, P>>, steps: nat, splits: nat)
      requires Fit()
    {
      && (started ==> todo != [])
      && |rows| <= |checkpoints|
      && rows == Rows(|rows|)
      && AllOnTrack(|rows|, now, started, todo)
      && Tallied(|rows|, now, started, steps, splits)
      && (if |rows| < |checkpoints| then sim.tick(now.state) < checkpoints[|rows|] else sim.Over(now.state))
      && (!sim.Over(now.state) ==>
            if started then now.due == sim.tick(now.state) + Duration(todo[0]) else now.due <= sim.tick(now.state))
    }
  }

  /** Once the episode is over every later checkpoint shows the same view. */
  lemma OverEverywhere<E(!new), P(!new), O(!new)>(
      t: Setup<E, P, O>, index: nat, now: View<E, P>, started: bool, todo: seq<Action>)
    requires t.Fit() && t.AllOnTrack(index, now, started, todo) && t.sim.Over(now.state)
    ensures forall i :: index <= i < |t.checkpoints| ==> t.Seen(i) == now
  {
    forall i | index <= i < |t.checkpoints| ensures t.Seen(i) == now {
      assert t.OnTrackTo(i, now, started, todo);
      Arrived(t.sim, t.pol, t.checkpoints[i], t.x0, t.p0, now, started, todo);
    }
  }

  /** After the end no more cuts are counted. */
  lemma {:induction false} NoMoreCuts<E(!new), P(!new), O(!new)>(t: Setup<E, P, O>, index: nat, k: nat, now: View<E, P>)
    requires t.Fit() && index < k <= |t.checkpoints| && t.sim.Over(now.state)
    requires forall i :: index <= i < |t.checkpoints| ==> t.Seen(i) == now
    ensures t.Cuts(k) == t.Cuts(index + 1) && (t.Broken(k - 1) <==> t.Broken(index))
  {
    if k > index + 1 { NoMoreCuts(t, index, k - 1, now); }
  }

  /** The accounts when a fragment aimed at checkpoint `index` ends the episode. */
  lemma EndTally<E(!new), P(!new), O(!new)>(
      t: Setup<E, P, O>, index: nat, now: View<E, P>, started: bool, todo: seq<Action>)
    requires t.Fit() && index < |t.checkpoints| && !t.OverBefore(index)
    requires t.AllOnTrack(index, now, started, todo) && t.sim.Over(now.state)
    ensures var cut := now.due > t.checkpoints[index];
      && t.Cuts(|t.checkpoints|) == t.Cuts(index) + (if cut then 1 else 0)
      && (t.Broken(|t.checkpoints| - 1) <==> cut)
  {
    OverEverywhere(t, index, now, started, todo);
    NoMoreCuts(t, index, |t.checkpoints|, now);
  }

  /** The row for a checkpoint the run has just arrived at. */
  lemma ArrivalRow<E(!new), P(!new), O(!new)>(
      t: Setup<E, P, O>, index: nat, now: View<E, P>, started: bool, todo: seq<Action>, steps: nat, splits: nat)
    requires t.Fit() && index < |t.checkpoints| && !t.OverBefore(index)
    requires t.AllOnTrack(index, now, started, todo)
    requires t.sim.tick(now.state) == t.checkpoints[index]
    requires splits == t.Cuts(index) + (if now.due > t.checkpoints[index] then 1 else 0)
    requires steps + (if now.due > t.checkpoints[index] then 1 else 0) == now.primitives + splits
    ensures t.Reference(index) == Row(t.checkpoints[index], false, now, steps, splits)
    ensures t.Cuts(index + 1) == splits && (t.OverBefore(index + 1) <==> t.sim.Over(now.state))
  {
    assert t.OnTrackTo(index, now, started, todo);
    Arrived(t.sim, t.pol, t.checkpoints[index], t.x0, t.p0, now, started, todo);
  }

  lemma BegunAll<E(!new), P(!new), O(!new)>(
      t: Setup<E, P, O>, now: View<E, P>, todo: seq<Action>, rows: seq<Row<E, P>>, steps: nat, splits: nat)
    requires t.Fit() && todo != [] && t.Inv(now, false, todo, rows, steps, splits) && !t.sim.Over(now.state)
    ensures t.Inv(Begun(t.sim, now, todo[0]), true, todo, rows, steps, splits)
  {
    forall i: nat | |rows| <= i < |t.checkpoints| ensures t.OnTrackTo(i, Begun(t.sim, now, todo[0]), true, todo) {
      assert t.OnTrackTo(i, now, false, todo) && (|rows| < i ==> t.Earlier(|rows|, i));
      Started(t.sim, t.pol, t.checkpoints[i], t.x0, t.p0, now, todo);
    }
  }

  lemma PartAll<E(!new), P(!new), O(!new)>(
      t: Setup<E, P, O>, index: nat, now: View<E, P>, a: nat, b: nat, rest: seq<Action>)
    requires t.Fit() && a > 0 && b > 0 && index < |t.checkpoints|
    requires t.AllOnTrack(index, now, true, [Wait(a + b)] + rest)
    requires !t.sim.Over(now.state) && t.sim.tick(now.state) + a <= t.checkpoints[index]
    requires now.due >= t.sim.tick(now.state) + a + b
    ensures t.AllOnTrack(index, Stepped(t.sim, now, Wait(a)), true, [Wait(b)] + rest)
  {
    forall i: nat | index <= i < |t.checkpoints|
        ensures t.OnTrackTo(i, Stepped(t.sim, now, Wait(a)), true, [Wait(b)] + rest) {
      assert t.OnTrackTo(i, now, true, [Wait(a + b)] + rest) && (index < i ==> t.Earlier(index, i));
      PlayedPart(t.sim, t.pol, t.checkpoints[i], t.x0, t.p0, now, a, b, rest);
    }
  }

  lemma WholeAll<E(!new), P(!new), O(!new)>(
      t: Setup<E, P, O>, index: nat, now: View<E, P>, head: Action, rest: seq<Action>)
    requires t.Fit() && index < |t.checkpoints|
    requires t.AllOnTrack(index, now, true, [head] + rest)
    requires !t.sim.Over(now.state) && t.sim.tick(now.state) + Duration(head) <= t.checkpoints[index]
    requires now.due >= t.sim.tick(now.state) + Duration(head)
    ensures t.AllOnTrack(index, Stepped(t.sim, now, head), false, rest)
  {
    forall i: nat | index <= i < |t.checkpoints| ensures t.OnTrackTo(i, Stepped(t.sim, now, head), false, rest) {
      assert t.OnTrackTo(i, now, true, [head] + rest) && (index < i ==> t.Earlier(index, i));
      PlayedWhole(t.sim, t.pol, t.checkpoints[i], t.x0, t.p0, now, head, rest);
    }
  }

  /** Once the episode is over, what was left to do does not matter. */
  lemma EndsHere<E(!new), P(!new), O(!new)>(
      t: Setup<E, P, O>, index: nat, now: View<E, P>, started: bool, todo: seq<Action>, rest: seq<Action>)
    requires t.Fit() && t.sim.Over(now.state) && t.AllOnTrack(index, now, started, todo)
    ensures t.AllOnTrack(index, now, false, rest)
  {
    forall i: nat | index <= i < |t.checkpoints| ensures t.OnTrackTo(i, now, false, rest) {
      assert t.OnTrackTo(i, now, started, todo);
    }
  }

  /** Rows, accounts and checkpoints just after a fragment aimed at checkpoint
      `index`, before the row it may have earned. */
  ghost predicate JustPlayed<E(!new), P(!new), O(!new)>(
      t: Setup<E, P, O>, index: nat, now: View<E, P>, part: bool, todo: seq<Action>, rows: seq<Row<E, P>>, steps: nat,
          splits: nat)
    requires t.Fit()
  {
    && (part ==> todo != [])
    && index == |rows| < |t.checkpoints| && !t.OverBefore(index)
    && rows == t.Rows(|rows|)
    && t.AllOnTrack(index, now, part, todo)
    && t.sim.tick(now.state) <= t.checkpoints[index]
    && splits == t.Cuts(index) + (if now.due > t.checkpoints[index] then 1 else 0)
    && steps + (if now.due > t.checkpoints[index] then 1 else 0) == now.primitives + splits
    && (!t.sim.Over(now.state) ==>
          if part then t.sim.tick(now.state) == t.checkpoints[index] && now.due == t.sim.tick(now.state)
              + Duration(todo[0])
          else now.due == t.sim.tick(now.state))
  }

  function Captured<E(!new), P(!new), O(!new)>(
      t: Setup<E, P, O>, now: View<E, P>, steps: nat, splits: nat, rows: seq<Row<E, P>>): seq<Row<E, P>>
  {
    if |rows| < |t.checkpoints| && t.sim.tick(now.state) == t.checkpoints[|rows|]
    then rows + [Row(t.checkpoints[|rows|], false, now, steps, splits)] else rows
  }

  lemma CapturedRows<E(!new), P(!new), O(!new)>(
      t: Setup<E, P, O>, index: nat, now: View<E, P>, part: bool, todo: seq<Action>, rows: seq<Row<E, P>>, steps: nat,
          splits: nat)
    requires t.Fit() && JustPlayed(t, index, now, part, todo, rows, steps, splits)
    ensures var grown := Captured(t, now, steps, splits, rows);
      && |grown| <= |t.checkpoints| && rows <= grown
      && grown == t.Rows(|grown|)
      && (|grown| > index ==> splits == t.Cuts(index + 1) && (t.OverBefore(index + 1) <==> t.sim.Over(now.state)))
  {
    if t.sim.tick(now.state) == t.checkpoints[index] {
      ArrivalRow(t, index, now, part, todo, steps, splits);
    }
  }

  lemma EndedInv<E(!new), P(!new), O(!new)>(
      t: Setup<E, P, O>, index: nat, now: View<E, P>, part: bool, todo: seq<Action>, rest: seq<Action>,
      rows: seq<Row<E, P>>, steps: nat, splits: nat)
    requires t.Fit() && JustPlayed(t, index, now, part, todo, rows, steps, splits) && t.sim.Over(now.state)
    ensures t.Inv(now, false, rest, Captured(t, now, steps, splits, rows), steps, splits)
  {
    CapturedRows(t, index, now, part, todo, rows, steps, splits);
    EndTally(t, index, now, part, todo);
    EndsHere(t, index, now, part, todo, rest);
    assert index + 1 < |t.checkpoints| ==> t.Earlier(index, index + 1);
  }

  lemma GoingInv<E(!new), P(!new), O(!new)>(
      t: Setup<E, P, O>, index: nat, now: View<E, P>, part: bool, todo: seq<Action>, rows: seq<Row<E, P>>, steps: nat,
          splits: nat)
    requires t.Fit() && JustPlayed(t, index, now, part, todo, rows, steps, splits) && !t.sim.Over(now.state)
    ensures t.Inv(now, part, todo, Captured(t, now, steps, splits, rows), steps, splits)
  {
    CapturedRows(t, index, now, part, todo, rows, steps, splits);
    assert index + 1 < |t.checkpoints| ==> t.Earlier(index, index + 1);
  }

  lemma PartPlayed<E(!new), P(!new), O(!new)>(
      t: Setup<E, P, O>, before: View<E, P>, a: nat, b: nat, rest: seq<Action>, rows: seq<Row<E, P>>, steps: nat,
          splits: nat)
    requires t.Fit() && !t.sim.Over(before.state) && a > 0 && b > 0
    requires t.Inv(before, true, [Wait(a + b)] + rest, rows, steps, splits)
    requires |rows| < |t.checkpoints| && t.sim.tick(before.state) + a == t.checkpoints[|rows|]
    ensures JustPlayed(t, |rows|, Stepped(t.sim, before, Wait(a)), true, [Wait(b)] + rest, rows, steps + 1, splits + 1)
  {
    assert ([Wait(a + b)] + rest)[0] == Wait(a + b);
    assert Punctual(t.sim, before.state, Wait(a));
    PartAll(t, |rows|, before, a, b, rest);
  }

  lemma WholePlayed<E(!new), P(!new), O(!new)>(
      t: Setup<E, P, O>, before: View<E, P>, head: Action, rest: seq<Action>, rows: seq<Row<E, P>>, steps: nat,
          splits: nat)
    requires t.Fit() && !t.sim.Over(before.state)
    requires t.Inv(before, true, [head] + rest, rows, steps, splits)
    requires |rows| < |t.checkpoints| && t.sim.tick(before.state) + Duration(head) <= t.checkpoints[|rows|]
    ensures JustPlayed(t, |rows|, Stepped(t.sim, before, head), false, rest, rows, steps + 1, splits)
  {
    assert ([head] + rest)[0] == head && head in [head] + rest;
    assert Punctual(t.sim, before.state, head);
    WholeAll(t, |rows|, before, head, rest);
  }

  lemma PlayedInv<E(!new), P(!new), O(!new)>(
      t: Setup<E, P, O>, index: nat, now: View<E, P>, part: bool, todo: seq<Action>, rest: seq<Action>,
      rows: seq<Row<E, P>>, steps: nat, splits: nat) returns (mid: bool, pending: seq<Action>)
    requires t.Fit() && JustPlayed(t, index, now, part, todo, rows, steps, splits)
    requires !part ==> todo == rest
    ensures mid == (part && !t.sim.Over(now.state)) && pending == if mid then todo else rest
    ensures t.Inv(now, mid, pending, Captured(t, now, steps, splits, rows), steps, splits)
  {
    mid := part && !t.sim.Over(now.state);
    pending := if mid then todo else rest;
    if t.sim.Over(now.state) {
      EndedInv(t, index, now, part, todo, rest, rows, steps, splits);
    } else {
      GoingInv(t, index, now, part, todo, rows, steps, splits);
    }
  }

  /** The part of `head` played in one environment step: a WAIT stops at checkpoint
      `index`. */
  function Fragment<E(!new), P(!new), O(!new)>(t: Setup<E, P, O>, index: nat, before: View<E, P>, head: Action): Action
    requires index < |t.checkpoints| && t.sim.tick(before.state) < t.checkpoints[index]
  {
    Clip(head, t.checkpoints[index] - t.sim.tick(before.state))
  }

  lemma PartInv<E(!new), P(!new), O(!new)>(
      t: Setup<E, P, O>, before: View<E, P>, a: nat, b: nat, rest: seq<Action>, rows: seq<Row<E, P>>, steps: nat,
          splits: nat)
      returns (mid: bool, pending: seq<Action>)
    requires t.Fit() && !t.sim.Over(before.state) && a > 0 && b > 0
    requires t.Inv(before, true, [Wait(a + b)] + rest, rows, steps, splits)
    requires |rows| < |t.checkpoints| && t.sim.tick(before.state) + a == t.checkpoints[|rows|]
    ensures var now := Stepped(t.sim, before, Wait(a));
      && mid == !t.sim.Over(now.state) && pending == (if mid then [Wait(b)] + rest else rest)
      && t.Inv(now, mid, pending, Captured(t, now, steps + 1, splits + 1, rows), steps + 1, splits + 1)
  {
    PartPlayed(t, before, a, b, rest, rows, steps, splits);
    var now := Stepped(t.sim, before, Wait(a));
    mid, pending := PlayedInv(t, |rows|, now, true, [Wait(b)] + rest, rest, rows, steps + 1, splits + 1);
  }

  lemma WholeInv<E(!new), P(!new), O(!new)>(
      t: Setup<E, P, O>, before: View<E, P>, head: Action, rest: seq<Action>, rows: seq<Row<E, P>>, steps: nat,
          splits: nat)
    requires t.Fit() && !t.sim.Over(before.state)
    requires t.Inv(before, true, [head] + rest, rows, steps, splits)
    requires |rows| < |t.checkpoints| && t.sim.tick(before.state) + Duration(head) <= t.checkpoints[|rows|]
    ensures var now := Stepped(t.sim, before, head);
      t.Inv(now, false, rest, Captured(t, now, steps + 1, splits, rows), steps + 1, splits)
  {
    WholePlayed(t, before, head, rest, rows, steps, splits);
    var now := Stepped(t.sim, before, head);
    var mid, pending := PlayedInv(t, |rows|, now, false, rest, rest, rows, steps + 1, splits);
  }

  /** A run still going has a next checkpoint ahead of it. */
  lemma Ahead<E(!new), P(!new), O(!new)>(
      t: Setup<E, P, O>, now: View<E, P>, todo: seq<Action>, rows: seq<Row<E, P>>, steps: nat, splits: nat)
    requires t.Fit() && !t.sim.Over(now.state) && t.Inv(now, true, todo, rows, steps, splits)
    ensures |rows| < |t.checkpoints| && t.sim.tick(now.state) < t.checkpoints[|rows|]
  {}

  lemma FragmentInv<E(!new), P(!new), O(!new)>(
      t: Setup<E, P, O>, before: View<E, P>, head: Action, rest: seq<Action>, rows: seq<Row<E, P>>, steps: nat,
          splits: nat)
      returns (now: View<E, P>, mid: bool, pending: seq<Action>, splits': nat)
    requires t.Fit() && !t.sim.Over(before.state)
    requires t.Inv(before, true, [head] + rest, rows, steps, splits)
    ensures |rows| < |t.checkpoints| && t.sim.tick(before.state) < t.checkpoints[|rows|]
    ensures var f := Fragment(t, |rows|, before, head);
      && now == Stepped(t.sim, before, f) && mid == (f != head && !t.sim.Over(now.state))
      && pending == (if mid then [Wait(Duration(head) - Duration(f))] + rest else rest)
      && splits' == splits + (if f != head then 1 else 0)
    ensures t.Inv(now, mid, pending, Captured(t, now, steps + 1, splits', rows), steps + 1, splits')
  {
    Ahead(t, before, [head] + rest, rows, steps, splits);
    var f := Fragment(t, |rows|, before, head);
    now := Stepped(t.sim, before, f);
    if f == head {
      mid, pending, splits' := false, rest, splits;
      WholeInv(t, before, head, rest, rows, steps, splits);
    } else {
      splits' := splits + 1;
      var a, b := Duration(f), Duration(head) - Duration(f);
      assert head == Wait(a + b) && f == Wait(a);
      mid, pending := PartInv(t, before, a, b, rest, rows, steps, splits);
    }
  }

  /** What a fragment leaves of its primitive. */
  lemma LeftOver<E, O>(sim: Sim<E, O>, x: E, head: Action, room: nat)
    requires room > 0 && Punctual(sim, x, Clip(head, room))
    ensures var f := Clip(head, room); var y := sim.step(x,
      f).state; var left := Duration(head) - (sim.tick(y) - sim.tick(x));
      0 <= left < Duration(head) && (!sim.Over(y) ==> left == Duration(head) - Duration(f) && (left > 0 <==> f != head))
  {}

  lemma DecidedAll<E(!new), P(!new), O(!new)>(
      t: Setup<E, P, O>, now: View<E, P>, rows: seq<Row<E, P>>, steps: nat, splits: nat)
    requires t.Fit() && !t.sim.Over(now.state) && t.Inv(now, false, [], rows, steps, splits)
    ensures var (q, actions) := t.pol.predict(now.policy, t.sim.observe(now.state));
      actions != [] && t.Inv(now.(policy := q, decisions := now.decisions + 1), false, actions, rows, steps, splits)
  {
    var (q, actions) := t.pol.predict(now.policy, t.sim.observe(now.state));
    var after := now.(policy := q, decisions := now.decisions + 1);
    forall i: nat | |rows| <= i < |t.checkpoints| ensures t.OnTrackTo(i, after, false, actions) {
      assert t.OnTrackTo(i, now, false, []) && (|rows| < i ==> t.Earlier(|rows|, i));
      Decided(t.sim, t.pol, t.checkpoints[i], t.x0, t.p0, now);
    }
  }

  lemma Finished<E(!new), P(!new), O(!new)>(
      t: Setup<E, P, O>, now: View<E, P>, todo: seq<Action>, rows: seq<Row<E, P>>, steps: nat, splits: nat)
    requires t.Fit() && t.Inv(now, false, todo, rows, steps, splits) && (todo == [] || t.sim.Over(now.state))
    ensures t.Inv(now, false, [], rows, steps, splits)
  {
    if t.sim.Over(now.state) { EndsHere(t, |rows|, now, false, todo, []); }
  }

  lemma StartsOnTrack<E(!new), P(!new), O(!new)>(t: Setup<E, P, O>)
    requires t.Fit()
    ensures t.Inv(View(t.x0, t.p0, 0, 0, 0, []), false, [], [], 0, 0)
  {
    var now := View(t.x0, t.p0, 0, 0, 0, []);
    forall i: nat | i < |t.checkpoints| ensures t.OnTrackTo(i, now, false, []) {
      var rest := Clipped(t.sim, t.pol, t.checkpoints[i], t.x0, t.p0, []);
      assert [] + rest.events == rest.events;
    }
    if t.sim.Over(t.x0) { EndTally(t, 0, now, false, []); }
  }

  /** The row of a checkpoint the run ended before. */
  lemma CarriedRow<E(!new), P(!new), O(!new)>(
      t: Setup<E, P, O>, index: nat, now: View<E, P>, rows: seq<Row<E, P>>, steps: nat, splits: nat)
    requires t.Fit() && t.sim.Over(now.state) && |rows| <= index < |t.checkpoints|
    requires t.Inv(now, false, [], rows, steps, splits)
    ensures t.sim.terminated(now.state)
    ensures t.Reference(index) == Row(t.checkpoints[index], true, now, steps, splits)
  {
    OverEverywhere(t, |rows|, now, false, []);
    NoMoreCuts(t, |rows|, |t.checkpoints|, now);
    NoMoreCuts(t, |rows|, index + 1, now);
    assert |rows| < index ==> t.Earlier(|rows|, index);
    assert index < |t.checkpoints| - 1 ==> t.Earlier(index, |t.checkpoints| - 1);
  }

  lemma EndsAsPlain<E(!new), P(!new), O(!new)>(
      t: Setup<E, P, O>, now: View<E, P>, rows: seq<Row<E, P>>, steps: nat, splits: nat)
    requires t.Fit() && t.sim.Over(now.state) && t.Inv(now, false, [], rows, steps, splits)
    ensures now == Plain(t.sim, t.pol, t.checkpoints[|t.checkpoints| - 1], t.x0, t.p0, [])
  {
    var horizon := t.checkpoints[|t.checkpoints| - 1];
    Arrived(t.sim, t.pol, horizon, t.x0, t.p0, now, false, []);
    PlainIsClipped(t.sim, t.pol, horizon, t.x0, t.p0, []);
  }

  /** A run cut at `cut` stops there or where the episode ends. */
  lemma {:induction false} ClippedEnds<E(!new), P(!new), O(!new)>(
      sim: Sim<E, O>, pol: Policy<P, O>, cut: nat, x: E, p: P, todo: seq<Action>)
    requires TimeLaw(sim) && Decisive(pol) && sim.tick(x) <= cut
    ensures var y := Clipped(sim, pol, cut, x, p, todo).state;
      sim.tick(y) <= cut && (sim.tick(y) < cut ==> sim.Over(y))
    decreases cut - sim.tick(x), if todo == [] then 1 else 0
  {
    if !sim.Over(x) && sim.tick(x) < cut {
      if todo == [] {
        var (q, actions) := pol.predict(p, sim.observe(x));
        ClippedEnds(sim, pol, cut, x, q, actions);
      } else {
        var act := Clip(todo[0], cut - sim.tick(x));
        assert Punctual(sim, x, act);
        ClippedEnds(sim, pol, cut, sim.step(x, act).state, p, todo[1..]);
      }
    }
  }

  /** One row for each checkpoint, in order, observed at that very tick unless it is
      carried from a run that had terminated earlier. */
  lemma {:induction false} RowMeaning<E(!new), P(!new), O(!new)>(t: Setup<E, P, O>, k: nat, i: nat)
    requires t.Fit() && i < k <= |t.checkpoints|
    ensures |t.Rows(k)| == k && t.Rows(k)[i].checkpoint == t.checkpoints[i]
    ensures var row := t.Rows(k)[i]; var tick := t.sim.tick(row.view.state);
      && row.view == Clipped(t.sim, t.pol, t.checkpoints[i], t.x0, t.p0, [])
      && (if row.carried then tick < row.checkpoint && t.sim.terminated(row.view.state) else tick == row.checkpoint)
  {
    if i < k - 1 {
      RowMeaning(t, k - 1, i);
    } else {
      if k > 1 { RowMeaning(t, k - 1, 0); }
      assert i > 0 ==> t.Earlier(0, i);
      assert i < |t.checkpoints| - 1 ==> t.Earlier(i, |t.checkpoints| - 1);
      ClippedEnds(t.sim, t.pol, t.checkpoints[i], t.x0, t.p0, []);
    }
  }

  /** Rows do not depend on later checkpoints. */
  lemma {:induction false} RowsLookBack<E(!new), P(!new), O(!new)>(t: Setup<E, P, O>, later: seq<nat>, k: nat)
    requires t.Fit() && t.(checkpoints := later).Fit()
    requires k <= |t.checkpoints| && k <= |later| && t.checkpoints[..k] == later[..k]
    ensures var u := t.(checkpoints := later);
      t.Rows(k) == u.Rows(k) && t.Cuts(k) == u.Cuts(k) && (k > 0 ==> (t.Broken(k - 1) <==> u.Broken(k - 1)))
  {
    if k > 0 {
      assert t.checkpoints[..k][k - 1] == later[..k][k - 1];
      assert t.checkpoints[..k - 1] == t.checkpoints[..k][..k - 1] == later[..k - 1];
      RowsLookBack(t, later, k - 1);
      var u := t.(checkpoints := later);
      assert t.Seen(k - 1) == u.Seen(k - 1);
      if k > 1 { assert t.checkpoints[..k][k - 2] == later[..k][k - 2]; }
    }
  }
}
