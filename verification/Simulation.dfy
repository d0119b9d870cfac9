/** Deterministic episodes of a policy in a simulator, and the reference
    interpreter that executes every primitive action whole. */
module Simulation {

  datatype RawAction = Wait(ticks: nat) | Shot(code: nat)

  function Duration(a: RawAction): nat {
    if a.Wait? then a.ticks else 1
  }

  /** A primitive action takes at least one tick. */
  type Action = a: RawAction | Duration(a) > 0 witness Shot(0)

  /** One `env.step`: the state reached and the events it produced. */
  datatype Step<E> = Step(state: E, events: seq<nat>)

  /** The simulator and what it shows of its states. */
  datatype Sim<!E, !O> = Sim(
    step: (E, Action) -> Step<E>, observe: E -> O, tick: E -> nat, terminated: E -> bool, truncated: E -> bool)
  {
    predicate Over(x: E) { terminated(x) || truncated(x) }
  }

  /** A stateful policy: it sees observations only. */
  datatype Policy<!P, !O> = Policy(predict: (P, O) -> (P, seq<Action>))

  /** A policy always answers with at least one primitive. */
  ghost predicate Decisive<P(!new), O(!new)>(pol: Policy<P, O>) {
    forall p, o :: pol.predict(p, o).1 != []
  }

  /** Public time: a primitive takes its duration, or less if the episode ends. */
  ghost predicate Punctual<E, O>(sim: Sim<E, O>, x: E, a: Action) {
    var y := sim.step(x, a).state;
    && sim.tick(x) < sim.tick(y) <= sim.tick(x) + Duration(a)
    && (!sim.Over(y) ==> sim.tick(y) == sim.tick(x) + Duration(a))
  }

  ghost predicate TimeLaw<E(!new), O>(sim: Sim<E, O>) {
    forall x: E, a: Action :: !sim.Over(x) ==> Punctual(sim, x, a)
  }

  /** Waiting `a + b` ticks is waiting `a` and then `b`, unless the episode ends
      first. */
  ghost predicate Composes<E, O>(sim: Sim<E, O>, x: E, a: nat, b: nat)
    requires a > 0 && b > 0
  {
    var y := sim.step(x, Wait(a));
    sim.step(x, Wait(a + b)) ==
      if sim.Over(y.state) then y
      else
        var z := sim.step(y.state, Wait(b));
        Step(z.state, y.events + z.events)
  }

  ghost predicate WaitLaw<E(!new), O>(sim: Sim<E, O>) {
    forall x: E, a: nat, b: nat :: !sim.Over(x) && a > 0 && b > 0 ==> Composes(sim, x, a, b)
  }

  /** The simulator truncates at `horizon` ticks and not before. */
  ghost predicate HorizonLaw<E(!new), O>(sim: Sim<E, O>, horizon: nat) {
    forall x: E :: (sim.tick(x) >= horizon ==> sim.Over(x)) && (sim.truncated(x) ==> sim.tick(x) >= horizon)
  }

  /** What an observer of the run has seen: where it stands and what it counted.
      `due` is the tick at which the latest primitive was asked to end. */
  datatype View<E, P> = View(state: E, policy: P, decisions: nat, primitives: nat, due: nat, events: seq<nat>)

  function Latest(a: nat, b: nat): nat { if a > b then a else b }

  function Plus<E, P>(decisions: nat, primitives: nat, due: nat, events: seq<nat>, v: View<E, P>): View<E, P> {
    v.(decisions := decisions + v.decisions, primitives := primitives + v.primitives,
       due := Latest(due, v.due), events := events + v.events)
  }

  /** The loop of `_run_episode`: each primitive whole, until the episode ends. */
  ghost function Plain<E(!new), P(!new), O(!new)>(
      sim: Sim<E, O>, pol: Policy<P, O>, horizon: nat, x: E, p: P, todo: seq<Action>): View<E, P>
    requires TimeLaw(sim) && HorizonLaw(sim, horizon) && Decisive(pol)
    decreases horizon - sim.tick(x), if todo == [] then 1 else 0
  {
    if sim.Over(x) then View(x, p, 0, 0, 0, [])
    else if todo == [] then
      var (q, actions) := pol.predict(p, sim.observe(x));
      Plus(1, 0, 0, [], Plain(sim, pol, horizon, x, q, actions))
    else
      assert Punctual(sim, x, todo[0]);
      var s := sim.step(x, todo[0]);
      Plus(0, 1, sim.tick(x) + Duration(todo[0]), s.events, Plain(sim, pol, horizon, s.state, p, todo[1..]))
  }

  function Clip(a: Action, room: nat): Action
    requires room > 0
  {
    if a.Wait? && a.ticks > room then Wait(room) else a
  }

  /** The same run cut at tick `cut`: the WAIT under way is shortened to end there. */
  ghost function Clipped<E(!new), P(!new), O(!new)>(
      sim: Sim<E, O>, pol: Policy<P, O>, cut: nat, x: E, p: P, todo: seq<Action>): View<E, P>
    requires TimeLaw(sim) && Decisive(pol)
    decreases if sim.tick(x) < cut then cut - sim.tick(x) else 0, if todo == [] then 1 else 0
  {
    if sim.Over(x) || sim.tick(x) >= cut then View(x, p, 0, 0, 0, [])
    else if todo == [] then
      var (q, actions) := pol.predict(p, sim.observe(x));
      Plus(1, 0, 0, [], Clipped(sim, pol, cut, x, q, actions))
    else
      var act := Clip(todo[0], cut - sim.tick(x));
      assert Punctual(sim, x, act);
      var s := sim.step(x, act);
      Plus(0, 1, sim.tick(x) + Duration(todo[0]), s.events, Clipped(sim, pol, cut, s.state, p, todo[1..]))
  }

  /** Cut at the simulator's own horizon, nothing is lost. */
  lemma {:induction false} PlainIsClipped<E(!new), P(!new), O(!new)>(
      sim: Sim<E, O>, pol: Policy<P, O>, horizon: nat, x: E, p: P, todo: seq<Action>)
    requires TimeLaw(sim) && WaitLaw(sim) && HorizonLaw(sim, horizon) && Decisive(pol)
    ensures Plain(sim, pol, horizon, x, p, todo) == Clipped(sim, pol, horizon, x, p, todo)
    decreases horizon - sim.tick(x), if todo == [] then 1 else 0
  {
    if sim.Over(x) {
    } else if todo == [] {
      var (q, actions) := pol.predict(p, sim.observe(x));
      PlainIsClipped(sim, pol, horizon, x, q, actions);
    } else {
      var room := horizon - sim.tick(x);
      assert Punctual(sim, x, todo[0]) && Punctual(sim, x, Clip(todo[0], room));
      if Clip(todo[0], room) != todo[0] {
        assert Composes(sim, x, room, todo[0].ticks - room);
      }
      PlainIsClipped(sim, pol, horizon, sim.step(x, todo[0]).state, p, todo[1..]);
    }
  }

  /** Playing the first `a` ticks of a WAIT and then the rest gives the same view;
      the primitive is counted once. */
  lemma SplitWait<E(!new), P(!new), O(!new)>(
      sim: Sim<E, O>, pol: Policy<P, O>, cut: nat, x: E, p: P, a: nat, b: nat, rest: seq<Action>)
    requires TimeLaw(sim) && WaitLaw(sim) && Decisive(pol)
    requires !sim.Over(x) && a > 0 && b > 0 && sim.tick(x) + a <= cut
    ensures var y := sim.step(x, Wait(a));
      && Clipped(sim, pol, cut, x, p, [Wait(a + b)] + rest) ==
           Plus(0, if sim.Over(y.state) || sim.tick(y.state) >= cut then 1 else 0, sim.tick(x) + a + b, y.events,
                Clipped(sim, pol, cut, y.state, p, [Wait(b)] + rest))
  {
    var y := sim.step(x, Wait(a));
    var room := cut - sim.tick(x);
    assert Punctual(sim, x, Wait(a));
    assert ([Wait(a + b)] + rest)[1..] == rest && ([Wait(b)] + rest)[1..] == rest;
    var act := Clip(Wait(a + b), room);
    if act.ticks > a {
      assert Composes(sim, x, a, act.ticks - a);
      if !sim.Over(y.state) {
        assert Clip(Wait(b), cut - sim.tick(y.state)) == Wait(act.ticks - a);
      }
    }
  }
}
