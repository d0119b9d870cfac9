/** The wrapper that notes when a policy consults its oracle, without changing
    what the policy does. */
module Tracking {
  import opened Simulation

  datatype Mark = Never | At(tick: nat)

  /** The wrapped policy's state, the tick of its latest query, and the tick at
      which its query cap was reached. */
  datatype Trace<P> = Trace(inner: P, lastQuery: Mark, capReached: Mark)

  /** A policy that counts its oracle queries, with an optional cap; observations
      show the tick. */
  datatype Counted<!P, !O> = Counted(policy: Policy<P, O>, queries: P -> nat, cap: nat, capped: bool, tick: O -> nat)
  {
    /** One decision makes no query or one; otherwise the wrapper raises. */
    predicate Steady(p: P, o: O) {
      queries(p) <= queries(policy.predict(p, o).0) <= queries(p) + 1
    }

    function Noted(trace: Trace<P>, o: O): Trace<P> {
      var q := policy.predict(trace.inner, o).0;
      if queries(q) > queries(trace.inner)
      then Trace(q, At(tick(o)), if capped && queries(q) == cap then At(tick(o)) else trace.capReached)
      else trace.(inner := q)
    }

    function Wrapped(): Policy<Trace<P>, O> {
      Policy((trace: Trace<P>, o: O) => (Noted(trace, o), policy.predict(trace.inner, o).1))
    }

    /** The marks say exactly whether a query was made and the cap was reached. */
    predicate Truthful(trace: Trace<P>) {
      && (trace.lastQuery.At? <==> queries(trace.inner) > 0)
      && (trace.capReached.At? <==> capped && 0 < cap <= queries(trace.inner))
      && (trace.capReached.At? && queries(trace.inner) == cap ==> trace.capReached == trace.lastQuery)
    }
  }

  class TrackedPolicy<P(!new), O(!new)> {
    const counted: Counted<P, O>
    var inner: P
    var lastQuery: Mark
    var capReached: Mark

    function Marks(): Trace<P> reads this { Trace(inner, lastQuery, capReached) }

    constructor (counted: Counted<P, O>, start: P)
      ensures this.counted == counted && Marks() == Trace(start, Never, Never)
    {
      this.counted, inner, lastQuery, capReached := counted, start, Never, Never;
    }

    /** `predict`: raises when the counter jumps, and otherwise decides as the
        wrapped policy does. */
    method Predict(o: O) returns (raised: bool, decision: seq<Action>)
      modifies this
      ensures raised <==> !counted.Steady(old(inner), o)
      ensures !raised ==> decision == counted.policy.predict(old(inner), o).1
      ensures !raised ==> Marks() == counted.Noted(old(Marks()), o)
      ensures !raised ==>
        && inner == counted.policy.predict(old(inner), o).0
        && var before, after := counted.queries(old(inner)), counted.queries(inner);
        && lastQuery == (if after == before + 1 then At(counted.tick(o)) else old(lastQuery))
        && capReached == if after == before + 1 && counted.capped && after == counted.cap then At(counted.tick(o))
                         else old(capReached)
      ensures !raised && counted.Truthful(old(Marks())) ==> counted.Truthful(Marks())
    {
      var before := counted.queries(inner);
      var (q, actions) := counted.policy.predict(inner, o);
      inner, decision := q, actions;
      var after := counted.queries(inner);
      raised := after < before || after > before + 1;
      if !raised && after > before {
        lastQuery := At(counted.tick(o));
        if counted.capped && after == counted.cap {
          capReached := At(counted.tick(o));
        }
      }
    }
  }

  function Unmarked<E, P>(v: View<E, Trace<P>>): View<E, P> {
    View(v.state, v.policy.inner, v.decisions, v.primitives, v.due, v.events)
  }

  lemma WrappedDecides<P(!new), O(!new)>(c: Counted<P, O>)
    requires Decisive(c.policy)
    ensures Decisive(c.Wrapped())
  {
    forall trace: Trace<P>, o: O ensures c.Wrapped().predict(trace, o).1 != [] {
      assert c.policy.predict(trace.inner, o).1 != [];
    }
  }

  /** Over a whole episode the wrapper changes nothing but the marks, and the marks
      stay truthful. */
  lemma {:induction false} TrackingIsTransparent<E(!new), P(!new), O(!new)>(
      sim: Sim<E, O>, c: Counted<P, O>, horizon: nat, x: E, trace: Trace<P>, todo: seq<Action>)
    requires TimeLaw(sim) && HorizonLaw(sim, horizon) && Decisive(c.policy)
    requires forall p, o :: c.Steady(p, o)
    ensures Decisive(c.Wrapped())
    ensures var end := Plain(sim, c.Wrapped(), horizon, x, trace, todo);
      && Unmarked(end) == Plain(sim, c.policy, horizon, x, trace.inner, todo)
      && (c.Truthful(trace) ==> c.Truthful(end.policy))
    decreases horizon - sim.tick(x), if todo == [] then 1 else 0
  {
    WrappedDecides(c);
    if sim.Over(x) {
    } else if todo == [] {
      var o := sim.observe(x);
      assert c.Steady(trace.inner, o);
      TrackingIsTransparent(sim, c, horizon, x, c.Noted(trace, o), c.policy.predict(trace.inner, o).1);
    } else {
      assert Punctual(sim, x, todo[0]);
      TrackingIsTransparent(sim, c, horizon, sim.step(x, todo[0]).state, trace, todo[1..]);
    }
  }

  /** The ticks of the decisions of an episode, of the policy itself, that consult the
      oracle. */
  ghost function Asked<E(!new), P(!new), O(!new)>(
      sim: Sim<E, O>, c: Counted<P, O>, horizon: nat, x: E, p: P, todo: seq<Action>): seq<nat>
    requires TimeLaw(sim) && HorizonLaw(sim, horizon) && Decisive(c.policy)
    decreases horizon - sim.tick(x), if todo == [] then 1 else 0
  {
    if sim.Over(x) then []
    else if todo == [] then
      var (q, actions) := c.policy.predict(p, sim.observe(x));
      (if c.queries(q) > c.queries(p) then [c.tick(sim.observe(x))] else [])
        + Asked(sim, c, horizon, x, q, actions)
    else
      assert Punctual(sim, x, todo[0]);
      Asked(sim, c, horizon, sim.step(x, todo[0]).state, p, todo[1..])
  }

  /** The marks a run leaves, given the ticks it asked at: the last of them, and the one
      that brought the counter to the cap. */
  ghost predicate Marked<P, O>(c: Counted<P, O>, trace: Trace<P>, asked: seq<nat>, end: Trace<P>) {
    var first := c.queries(trace.inner);
    && c.queries(end.inner) == first + |asked|
    && end.lastQuery == (if asked == [] then trace.lastQuery else At(asked[|asked| - 1]))
    && end.capReached == if c.capped && first < c.cap <= first + |asked| then At(asked[c.cap - first - 1])
                         else trace.capReached
  }

  lemma MarkedFirst<P, O>(c: Counted<P, O>, trace: Trace<P>, o: O, later: seq<nat>, end: Trace<P>)
    requires c.Steady(trace.inner, o) && Marked(c, c.Noted(trace, o), later, end)
    ensures var q := c.policy.predict(trace.inner, o).0;
      Marked(c, trace, (if c.queries(q) > c.queries(trace.inner) then [c.tick(o)] else []) + later, end)
  {
    var q := c.policy.predict(trace.inner, o).0;
    if c.queries(q) == c.queries(trace.inner) { assert [] + later == later; }
  }

  /** Over a whole episode the marks are the tick of its last query and the tick of the
      query that reached the cap. */
  lemma {:induction false} MarksExact<E(!new), P(!new), O(!new)>(
      sim: Sim<E, O>, c: Counted<P, O>, horizon: nat, x: E, trace: Trace<P>, todo: seq<Action>)
    requires TimeLaw(sim) && HorizonLaw(sim, horizon) && Decisive(c.policy)
    requires forall p, o :: c.Steady(p, o)
    ensures Decisive(c.Wrapped())
    ensures Marked(c, trace, Asked(sim, c, horizon, x, trace.inner, todo),
                   Plain(sim, c.Wrapped(), horizon, x, trace, todo).policy)
    decreases horizon - sim.tick(x), if todo == [] then 1 else 0
  {
    WrappedDecides(c);
    if sim.Over(x) {
    } else if todo == [] {
      var o := sim.observe(x);
      var (q, actions) := c.policy.predict(trace.inner, o);
      assert c.Steady(trace.inner, o);
      MarksExact(sim, c, horizon, x, c.Noted(trace, o), actions);
      MarkedFirst(c, trace, o, Asked(sim, c, horizon, x, q, actions),
                  Plain(sim, c.Wrapped(), horizon, x, c.Noted(trace, o), actions).policy);
    } else {
      assert Punctual(sim, x, todo[0]);
      MarksExact(sim, c, horizon, sim.step(x, todo[0]).state, trace, todo[1..]);
    }
  }
}
