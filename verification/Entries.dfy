/** What a transcript means, read as a plain sequence of entries: each entry is
    determined by the entries before it, and a transcript is the one sequence of
    such entries that goes on to its checkpoint. */
module Entries {
  import opened Simulation
  import opened Prefix
  import opened Transcripts

  type Log<E, P> = seq<Entry<E, P>>

  function Before<T>(log: seq<T>): seq<T>
    requires log != []
  {
    log[..|log| - 1]
  }

  function Last<T>(log: seq<T>): T
    requires log != []
  {
    log[|log| - 1]
  }

  /** The state that the last transition reached. */
  function StateAfter<E, P>(x0: E, log: Log<E, P>): E {
    if log == [] then x0
    else if Last(log).Transition? then Last(log).result.state else StateAfter(x0, Before(log))
  }

  /** The policy as the last decision left it. */
  function PolicyAfter<E, P>(p0: P, log: Log<E, P>): P {
    if log == [] then p0
    else if Last(log).Decision? then Last(log).policy else PolicyAfter(p0, Before(log))
  }

  /** The actions of the last decision. */
  function ActionsAfter<E, P>(log: Log<E, P>): seq<Action> {
    if log == [] then []
    else if Last(log).Decision? then Last(log).actions else ActionsAfter(Before(log))
  }

  /** How many of them have been begun. */
  function BegunAfter<E, P>(log: Log<E, P>): nat {
    if log == [] || Last(log).Decision? then 0
    else BegunAfter(Before(log)) + if Last(log).index == 0 then 1 else 0
  }

  /** What the fragments so far leave of the primitive under way. */
  function LeftAfter<E, P>(log: Log<E, P>): int {
    if log == [] || Last(log).Decision? then 0
    else (if Last(log).index == 0 then Duration(Last(log).original) else LeftAfter(Before(log)))
           - Duration(Last(log).fragment)
  }

  function Least(a: nat, b: nat): nat { if a < b then a else b }

  /** The first checkpoint after `tick`. */
  ghost predicate Next<E(!new), P(!new), O(!new)>(t: Setup<E, P, O>, tick: nat, c: nat) {
    c in t.checkpoints && tick < c && forall d <- t.checkpoints :: tick < d ==> c <= d
  }

  /** The fragment played at `tick` when `left` ticks of `original` are to be played:
      a WAIT goes on to the next checkpoint at most, anything else is played whole. */
  ghost predicate FragmentAt<E(!new), P(!new), O(!new)>(
      t: Setup<E, P, O>, tick: nat, original: Action, left: nat, fragment: Action)
  {
    if original.Wait? then exists c: nat :: Next(t, tick, c) && fragment == Wait(Least(left, c - tick))
    else fragment == original
  }

  /** `e` is what comes after `log`. */
  ghost predicate Follows<E(!new), P(!new), O(!new)>(t: Setup<E, P, O>, log: Log<E, P>, e: Entry<E, P>) {
    var x, left := StateAfter(t.x0, log), LeftAfter(log);
    && !t.sim.Over(x)
    && match e
       case Decision(tick, actions, policy) =>
         && left <= 0 && BegunAfter(log) >= |ActionsAfter(log)|
         && tick == t.sim.tick(x)
         && (policy, actions) == t.pol.predict(PolicyAfter(t.p0, log), t.sim.observe(x))
       case Transition(original, fragment, index, before, after, result) =>
         && (if left > 0
             then Last(log).Transition? && index == Last(log).index + 1 && original == Last(log).original
             else index == 0 && BegunAfter(log) < |ActionsAfter(log)| && original == ActionsAfter(log)[BegunAfter(log)])
         && before == t.sim.tick(x)
         && FragmentAt(t, before, original, if left > 0 then left else Duration(original), fragment)
         && result == t.sim.step(x, fragment)
         && after == t.sim.tick(result.state)
  }

  /** A sequence of entries each of which follows from those before it. */
  ghost predicate Chained<E(!new), P(!new), O(!new)>(t: Setup<E, P, O>, log: Log<E, P>) {
    forall k: nat :: k < |log| ==> FollowsAt(t, log, k)
  }

  ghost predicate FollowsAt<E(!new), P(!new), O(!new)>(t: Setup<E, P, O>, log: Log<E, P>, k: nat)
    requires k < |log|
  {
    Follows(t, log[..k], log[k])
  }

  /** The episode is over, or the `i`-th checkpoint has been met. */
  ghost predicate EndedBy<E(!new), P(!new), O(!new)>(t: Setup<E, P, O>, i: nat, log: Log<E, P>)
    requires i < |t.checkpoints|
  {
    var x := StateAfter(t.x0, log);
    t.sim.Over(x) || t.sim.tick(x) >= t.checkpoints[i]
  }

  /** It ends there and not before. */
  ghost predicate EndsAt<E(!new), P(!new), O(!new)>(t: Setup<E, P, O>, i: nat, log: Log<E, P>)
    requires i < |t.checkpoints|
  {
    EndedBy(t, i, log) && GoesOn(t, i, log)
  }

  ghost predicate GoesOn<E(!new), P(!new), O(!new)>(t: Setup<E, P, O>, i: nat, log: Log<E, P>)
    requires i < |t.checkpoints|
  {
    forall k: nat :: k < |log| ==> !EndedAt(t, i, log, k)
  }

  ghost predicate EndedAt<E(!new), P(!new), O(!new)>(t: Setup<E, P, O>, i: nat, log: Log<E, P>, k: nat)
    requires i < |t.checkpoints| && k <= |log|
  {
    EndedBy(t, i, log[..k])
  }

  /* Transcripts are such sequences. */

  /** The loop variables of the run agree with what the log says. */
  ghost predicate Agrees<E(!new), P(!new), O(!new)>(
      t: Setup<E, P, O>, index: nat, x: E, p: P, todo: seq<Action>, under: Under, log: Log<E, P>)
  {
    && x == StateAfter(t.x0, log) && p == PolicyAfter(t.p0, log)
    && (forall j :: 0 <= j < index && j < |t.checkpoints| ==> t.checkpoints[j] <= t.sim.tick(x))
    && BegunAfter(log) <= |ActionsAfter(log)|
    && var rest := ActionsAfter(log)[BegunAfter(log)..];
       if under.Fresh? then LeftAfter(log) == 0 && todo == rest
       else
         && log != [] && Last(log).Transition? && Last(log).original == under.original && under.original.Wait?
         && under.index == Last(log).index + 1
         && LeftAfter(log) > 0 && todo == [Wait(LeftAfter(log))] + rest
  }

  lemma Extended<T>(log: seq<T>, e: T)
    ensures Before(log + [e]) == log && Last(log + [e]) == e
  {}

  /** One more entry that follows, after a run not ended. */
  lemma ChainedOn<E(!new), P(!new), O(!new)>(t: Setup<E, P, O>, i: nat, log: Log<E, P>, e: Entry<E, P>)
    requires i < |t.checkpoints| && Chained(t, log) && Follows(t, log, e)
    requires GoesOn(t, i, log) && !EndedBy(t, i, log)
    ensures Chained(t, log + [e]) && GoesOn(t, i, log + [e])
  {
    var longer := log + [e];
    forall k: nat | k < |longer| ensures FollowsAt(t, longer, k) && !EndedAt(t, i, longer, k) {
      assert longer[..k] == log[..k];
      if k == |log| { assert log[..k] == log; } else { assert FollowsAt(t, log, k) && !EndedAt(t, i, log, k); }
    }
  }

  lemma NextIs<E(!new), P(!new), O(!new)>(t: Setup<E, P, O>, index: nat, tick: nat)
    requires t.Fit() && index < |t.checkpoints| && tick < t.checkpoints[index]
    requires forall j :: 0 <= j < index ==> t.checkpoints[j] <= tick
    ensures forall c: nat :: Next(t, tick, c) <==> c == t.checkpoints[index]
  {
    forall d | d in t.checkpoints && tick < d ensures t.checkpoints[index] <= d {
      var j :| 0 <= j < |t.checkpoints| && t.checkpoints[j] == d;
      assert j > index ==> t.Earlier(index, j);
    }
    assert t.checkpoints[index] in t.checkpoints;
    forall c: nat | Next(t, tick, c) ensures c == t.checkpoints[index] {}
  }

  lemma DecisionFollows<E(!new), P(!new), O(!new)>(
      t: Setup<E, P, O>, index: nat, x: E, p: P, under: Under, log: Log<E, P>)
    requires t.Fit() && !t.sim.Over(x) && Agrees(t, index, x, p, [], under, log)
    ensures var (q, actions) := t.pol.predict(p, t.sim.observe(x));
      var e := Decision(t.sim.tick(x), actions, q);
      Follows(t, log, e) && Agrees(t, index, x, q, actions, Fresh, log + [e])
  {
    var (q, actions) := t.pol.predict(p, t.sim.observe(x));
    Extended(log, Decision(t.sim.tick(x), actions, q));
  }

  lemma FragmentFollows<E(!new), P(!new), O(!new)>(
      t: Setup<E, P, O>, index: nat, x: E, p: P, todo: seq<Action>, under: Under, log: Log<E, P>, f: Action)
    requires t.Fit() && !t.sim.Over(x) && todo != [] && Agrees(t, index, x, p, todo, under, log)
    requires index < |t.checkpoints| && InFront(t, index, x) && f == Clip(todo[0], t.checkpoints[index] - t.sim.tick(x))
    ensures Follows(t, log, Noted(t.sim, x, todo[0], f, under))
    ensures var y := t.sim.step(x, f).state;
      Agrees(t, Met(t, index, y), y, p, Pending(todo[0], f, todo[1..]), Later(under, todo[0], f),
             log + [Noted(t.sim, x, todo[0], f, under)])
  {
    var e: Entry<E, P> := Noted(t.sim, x, todo[0], f, under);
    var tick := t.sim.tick(x);
    NextIs(t, index, tick);
    assert e.original.Wait? ==> Next(t, tick, t.checkpoints[index]);
    Extended(log, e);
    assert Punctual(t.sim, x, f);
  }

  lemma EndedIff<E(!new), P(!new), O(!new)>(
      t: Setup<E, P, O>, i: nat, index: nat, x: E, p: P, todo: seq<Action>, under: Under, log: Log<E, P>)
    requires t.Fit() && index <= i + 1 && i < |t.checkpoints| && InFront(t, index, x)
    requires Agrees(t, index, x, p, todo, under, log)
    ensures EndedBy(t, i, log) <==> t.sim.Over(x) || index > i
  {
    assert index < i ==> t.Earlier(index, i);
  }

  /** What the induction keeps of a log on its way to checkpoint `i`. */
  ghost predicate OnTheWay<E(!new), P(!new), O(!new)>(
      t: Setup<E, P, O>, i: nat, index: nat, x: E, p: P, todo: seq<Action>, under: Under, log: Log<E, P>)
    requires i < |t.checkpoints|
  {
    && index <= i + 1 && InFront(t, index, x) && Agrees(t, index, x, p, todo, under, log)
    && Chained(t, log) && GoesOn(t, i, log)
  }

  lemma DecisionOn<E(!new), P(!new), O(!new)>(
      t: Setup<E, P, O>, i: nat, index: nat, x: E, p: P, under: Under, log: Log<E, P>)
    requires t.Fit() && i < |t.checkpoints| && OnTheWay(t, i, index, x, p, [], under, log)
    requires !t.sim.Over(x) && index <= i
    ensures var (q, actions) := t.pol.predict(p, t.sim.observe(x));
      OnTheWay(t, i, index, x, q, actions, Fresh, log + [Decision(t.sim.tick(x), actions, q)])
  {
    var (q, actions) := t.pol.predict(p, t.sim.observe(x));
    EndedIff(t, i, index, x, p, [], under, log);
    DecisionFollows(t, index, x, p, under, log);
    ChainedOn(t, i, log, Decision(t.sim.tick(x), actions, q));
  }

  lemma FragmentOn<E(!new), P(!new), O(!new)>(
      t: Setup<E, P, O>, i: nat, index: nat, x: E, p: P, todo: seq<Action>, under: Under, log: Log<E, P>, f: Action)
    requires t.Fit() && i < |t.checkpoints| && OnTheWay(t, i, index, x, p, todo, under, log)
    requires !t.sim.Over(x) && index <= i && todo != [] && f == Clip(todo[0], t.checkpoints[index] - t.sim.tick(x))
    ensures var y := t.sim.step(x, f).state;
      OnTheWay(t, i, Met(t, index, y), y, p, Pending(todo[0], f, todo[1..]), Later(under, todo[0], f),
               log + [Noted(t.sim, x, todo[0], f, under)])
  {
    EndedIff(t, i, index, x, p, todo, under, log);
    FragmentFollows(t, index, x, p, todo, under, log, f);
    ChainedOn(t, i, log, Noted(t.sim, x, todo[0], f, under));
    StillInFront(t, index, x, todo[0]);
  }

  /** A whole log up to checkpoint `i`. */
  ghost predicate Complete<E(!new), P(!new), O(!new)>(t: Setup<E, P, O>, i: nat, log: Log<E, P>)
    requires i < |t.checkpoints|
  {
    Chained(t, log) && EndsAt(t, i, log)
  }

  lemma TraceDecided<E(!new), P(!new), O(!new)>(
      t: Setup<E, P, O>, i: nat, index: nat, x: E, p: P, under: Under, log: Log<E, P>)
    requires t.Fit() && index <= i < |t.checkpoints| && InFront(t, index, x) && !t.sim.Over(x)
    ensures var (q, actions) := t.pol.predict(p, t.sim.observe(x));
      Trace(t, i, index, x, p, [], under, log)
        == Trace(t, i, index, x, q, actions, Fresh, log + [Decision(t.sim.tick(x), actions, q)])
  {}

  lemma TraceEnded<E(!new), P(!new), O(!new)>(
      t: Setup<E, P, O>, i: nat, index: nat, x: E, p: P, todo: seq<Action>, under: Under, log: Log<E, P>)
    requires t.Fit() && i < |t.checkpoints| && OnTheWay(t, i, index, x, p, todo, under, log)
    requires t.sim.Over(x) || index > i
    ensures Trace(t, i, index, x, p, todo, under, log) == log && Complete(t, i, log)
  {
    EndedIff(t, i, index, x, p, todo, under, log);
  }

  /** The ticks still to go. */
  function Room<E(!new), P(!new), O(!new)>(t: Setup<E, P, O>, x: E): nat
    requires |t.checkpoints| > 0
  {
    var last := t.checkpoints[|t.checkpoints| - 1];
    if t.sim.tick(x) < last then last - t.sim.tick(x) else 0
  }

  lemma LessRoom<E(!new), P(!new), O(!new)>(t: Setup<E, P, O>, x: E, y: E)
    requires t.Fit() && !t.sim.Over(x) && t.sim.tick(x) < t.sim.tick(y)
    ensures Room(t, y) < Room(t, x)
  {}

  lemma {:induction false} TraceChained<E(!new), P(!new), O(!new)>(
      t: Setup<E, P, O>, i: nat, index: nat, x: E, p: P, todo: seq<Action>, under: Under, log: Log<E, P>,
      whole: Log<E, P>)
    requires t.Fit() && i < |t.checkpoints| && OnTheWay(t, i, index, x, p, todo, under, log)
    requires whole == Trace(t, i, index, x, p, todo, under, log)
    ensures Complete(t, i, whole)
    decreases Room(t, x), if todo == [] then 1 else 0, 1
  {
    if t.sim.Over(x) || index > i {
      TraceEnded(t, i, index, x, p, todo, under, log);
    } else if todo == [] {
      DecisionChained(t, i, index, x, p, under, log, whole);
    } else {
      FragmentChained(t, i, index, x, p, todo, under, log, whole);
    }
  }

  lemma {:induction false} DecisionChained<E(!new), P(!new), O(!new)>(
      t: Setup<E, P, O>, i: nat, index: nat, x: E, p: P, under: Under, log: Log<E, P>, whole: Log<E, P>)
    requires t.Fit() && i < |t.checkpoints| && OnTheWay(t, i, index, x, p, [], under, log)
    requires !t.sim.Over(x) && index <= i && whole == Trace(t, i, index, x, p, [], under, log)
    ensures Complete(t, i, whole)
    decreases Room(t, x), 1, 0
  {
    var (q, actions) := t.pol.predict(p, t.sim.observe(x));
    TraceDecided(t, i, index, x, p, under, log);
    DecisionOn(t, i, index, x, p, under, log);
    TraceChained(t, i, index, x, q, actions, Fresh, log + [Decision(t.sim.tick(x), actions, q)], whole);
  }

  lemma {:induction false} FragmentChained<E(!new), P(!new), O(!new)>(
      t: Setup<E, P, O>, i: nat, index: nat, x: E, p: P, todo: seq<Action>, under: Under, log: Log<E, P>,
      whole: Log<E, P>)
    requires t.Fit() && i < |t.checkpoints| && OnTheWay(t, i, index, x, p, todo, under, log)
    requires !t.sim.Over(x) && index <= i && todo != []
    requires whole == Trace(t, i, index, x, p, todo, under, log)
    ensures Complete(t, i, whole)
    decreases Room(t, x), 0, 0
  {
    var f := Clip(todo[0], t.checkpoints[index] - t.sim.tick(x));
    TraceSteps(t, i, index, x, p, todo, under, log, f);
    FragmentOn(t, i, index, x, p, todo, under, log, f);
    var y := t.sim.step(x, f).state;
    LessRoom(t, x, y);
    TraceChained(t, i, Met(t, index, y), y, p, Pending(todo[0], f, todo[1..]), Later(under, todo[0], f),
                 log + [Noted(t.sim, x, todo[0], f, under)], whole);
  }

  /** What follows is determined. */
  lemma FollowsOnce<E(!new), P(!new), O(!new)>(t: Setup<E, P, O>, log: Log<E, P>, d: Entry<E, P>, e: Entry<E, P>)
    requires Follows(t, log, d) && Follows(t, log, e)
    ensures d == e
  {
    assert d.Decision? <==> e.Decision?;
    if d.Transition? && d.original.Wait? {
      var left: nat := if LeftAfter(log) > 0 then LeftAfter(log) else Duration(d.original);
      var c: nat :| Next(t, d.before, c) && d.fragment == Wait(Least(left, c - d.before));
      var c': nat :| Next(t, d.before, c') && e.fragment == Wait(Least(left, c' - d.before));
      assert c == c';
    }
  }

  lemma NotYetEnded<E(!new), P(!new), O(!new)>(
      t: Setup<E, P, O>, i: nat, log: Log<E, P>, other: Log<E, P>, k: nat)
    requires i < |t.checkpoints| && k < |log| && k <= |other| && log[..k] == other[..k]
    requires GoesOn(t, i, log) && EndedBy(t, i, other)
    ensures k < |other|
  {
    assert !EndedAt(t, i, log, k);
    assert other[..|other|] == other;
  }

  lemma {:induction false} SameUpTo<E(!new), P(!new), O(!new)>(
      t: Setup<E, P, O>, i: nat, log: Log<E, P>, other: Log<E, P>, k: nat)
    requires i < |t.checkpoints| && k <= |log|
    requires Chained(t, log) && EndsAt(t, i, log) && Chained(t, other) && EndsAt(t, i, other)
    ensures k <= |other| && log[..k] == other[..k]
  {
    if k > 0 {
      SameUpTo(t, i, log, other, k - 1);
      NotYetEnded(t, i, log, other, k - 1);
      assert FollowsAt(t, log, k - 1) && FollowsAt(t, other, k - 1);
      FollowsOnce(t, log[..k - 1], log[k - 1], other[k - 1]);
      assert log[..k] == log[..k - 1] + [log[k - 1]] && other[..k] == other[..k - 1] + [other[k - 1]];
    }
  }

  /** The transcript of a checkpoint is the one sequence in which every entry follows
      from those before it and which ends at that checkpoint or with the episode. */
  lemma TranscriptExact<E(!new), P(!new), O(!new)>(t: Setup<E, P, O>, i: nat, log: Log<E, P>)
    requires t.Fit() && i < |t.checkpoints|
    ensures log == Transcript(t, i) <==> Chained(t, log) && EndsAt(t, i, log)
  {
    var whole := Transcript(t, i);
    TraceChained(t, i, 0, t.x0, t.p0, [], Fresh, [], whole);
    if Chained(t, log) && EndsAt(t, i, log) {
      SameUpTo(t, i, log, whole, |log|);
      SameUpTo(t, i, whole, log, |whole|);
      assert log[..|log|] == log && whole[..|whole|] == whole;
    }
  }

  /** So are the transcripts that the rows carry. */
  lemma SavedExact<E(!new), P(!new), O(!new)>(t: Setup<E, P, O>, i: nat)
    requires t.Fit() && i < |t.checkpoints|
    ensures
      var saved := Saved(t, |t.checkpoints|);
      |saved| == |t.checkpoints| && Chained(t, saved[i]) && EndsAt(t, i, saved[i])
  {
    SavedAt(t, |t.checkpoints|, i);
    TranscriptExact(t, i, Transcript(t, i));
  }

  /* What that means from one entry to the next. */

  lemma Shorter<T>(log: seq<T>, k: nat)
    requires k < |log|
    ensures Before(log[..k + 1]) == log[..k] && Last(log[..k + 1]) == log[k]
  {}

  /** Consecutive entries meet: each takes up where the last one stopped. */
  lemma EntriesMeet<E(!new), P(!new), O(!new)>(t: Setup<E, P, O>, log: Log<E, P>, k: nat)
    requires Decisive(t.pol) && Chained(t, log) && k + 1 < |log|
    ensures log[k].Decision? ==>
      && log[k + 1].Transition? && log[k + 1].index == 0
      && log[k].actions != [] && log[k + 1].original == log[k].actions[0]
      && log[k + 1].before == log[k].tick
    ensures log[k].Transition? ==>
      && log[k].after == (if log[k + 1].Decision? then log[k + 1].tick else log[k + 1].before)
      && (if LeftAfter(log[..k + 1]) > 0
          then log[k + 1].Transition? && log[k + 1].index == log[k].index + 1 && log[k + 1].original == log[k].original
          else log[k + 1].Transition? ==> log[k + 1].index == 0)
    ensures log[k + 1].Transition? ==>
      log[k + 1].result == t.sim.step(StateAfter(t.x0, log[..k + 1]), log[k + 1].fragment)
  {
    Shorter(log, k);
    assert FollowsAt(t, log, k) && FollowsAt(t, log, k + 1);
  }

  /** The ticks played by `count` entries from `from`. */
  function Played<E, P>(log: Log<E, P>, from: nat, count: nat): nat
    requires from + count <= |log|
  {
    if count == 0 then 0
    else
      var e := log[from + count - 1];
      Played(log, from, count - 1) + if e.Transition? then Duration(e.fragment) else 0
  }

  /** Fragments are numbered from zero without a gap, belong to one primitive, and
      with what is left of it add up to its duration. */
  lemma {:induction false} FragmentsAddUp<E(!new), P(!new), O(!new)>(t: Setup<E, P, O>, log: Log<E, P>, k: nat)
    requires Chained(t, log) && k < |log| && log[k].Transition?
    ensures var j := log[k].index;
      && j <= k
      && (forall n :: k - j <= n <= k ==>
            log[n].Transition? && log[n].index == n - (k - j) && log[n].original == log[k].original)
      && LeftAfter(log[..k + 1]) >= 0
      && Played(log, k - j, j + 1) + LeftAfter(log[..k + 1]) == Duration(log[k].original)
  {
    Shorter(log, k);
    assert FollowsAt(t, log, k);
    var j := log[k].index;
    if j > 0 {
      assert LeftAfter(log[..k]) > 0 && k > 0;
      Shorter(log, k - 1);
      FragmentsAddUp(t, log, k - 1);
      assert k - 1 - (j - 1) == k - j;
    } else {
      assert Played(log, k, 1) == Duration(log[k].fragment) + Played(log, k, 0);
    }
  }

  /** The fragments of a primitive that was played out add up to its duration. */
  lemma PlayedOut<E(!new), P(!new), O(!new)>(t: Setup<E, P, O>, log: Log<E, P>, k: nat)
    requires Chained(t, log) && k + 1 < |log| && log[k].Transition?
    requires log[k + 1].Transition? ==> log[k + 1].index == 0
    ensures log[k].index <= k && Played(log, k - log[k].index, log[k].index + 1) == Duration(log[k].original)
  {
    FragmentsAddUp(t, log, k);
    assert FollowsAt(t, log, k + 1);
  }

  /** The primitives begun since the last decision are its first actions, in order. */
  lemma {:induction false} OriginalsInOrder<E(!new), P(!new),
      O(!new)>(t: Setup<E, P, O>, log: Log<E, P>, d: nat, k: nat)
    requires Chained(t, log) && d < k < |log| && log[d].Decision?
    requires forall m :: d < m <= k ==> log[m].Transition?
    ensures 0 < BegunAfter(log[..k + 1]) <= |log[d].actions| && ActionsAfter(log[..k + 1]) == log[d].actions
    ensures log[k].original == log[d].actions[BegunAfter(log[..k + 1]) - 1]
  {
    Shorter(log, k);
    assert FollowsAt(t, log, k);
    Shorter(log, k - 1);
    if k > d + 1 { OriginalsInOrder(t, log, d, k - 1); }
  }

  /* What a row counts is what its transcript shows. */

  function Decisions<E, P>(log: Log<E, P>): nat {
    if log == [] then 0 else Decisions(Before(log)) + if Last(log).Decision? then 1 else 0
  }

  /** The primitives begun: their first fragments. */
  function Starts<E, P>(log: Log<E, P>): nat {
    if log == [] then 0
    else Starts(Before(log)) + if Last(log).Transition? && Last(log).index == 0 then 1 else 0
  }

  function EventsOf<E, P>(log: Log<E, P>): seq<nat> {
    if log == [] then [] else EventsOf(Before(log)) + if Last(log).Transition? then Last(log).result.events else []
  }

  /** A view of the run that counts what the log shows. */
  ghost predicate Shows<E(!new), P(!new), O(!new)>(t: Setup<E, P, O>, v: View<E, P>, log: Log<E, P>) {
    && v.state == StateAfter(t.x0, log) && v.policy == PolicyAfter(t.p0, log)
    && v.decisions == Decisions(log) && v.primitives == Starts(log) && v.events == EventsOf(log)
  }

  lemma DecisionShown<E(!new), P(!new), O(!new)>(t: Setup<E, P, O>, i: nat, now: View<E, P>, log: Log<E, P>)
    returns (next: View<E, P>, e: Entry<E, P>)
    requires t.Fit() && i < |t.checkpoints| && Shows(t, now, log) && t.OnTrackTo(i, now, false, [])
    requires !t.sim.Over(now.state) && t.sim.tick(now.state) < t.checkpoints[i]
    ensures var (q, actions) := t.pol.predict(now.policy, t.sim.observe(now.state));
      && e == Decision(t.sim.tick(now.state), actions, q)
      && next.state == now.state && next.policy == q && next.due == now.due
      && Shows(t, next, log + [e]) && t.OnTrackTo(i, next, false, actions)
  {
    var (q, actions) := t.pol.predict(now.policy, t.sim.observe(now.state));
    e := Decision(t.sim.tick(now.state), actions, q);
    next := now.(policy := q, decisions := now.decisions + 1);
    Decided(t.sim, t.pol, t.checkpoints[i], t.x0, t.p0, now);
    Extended(log, e);
  }

  /** The view once the fragment's primitive has been counted. */
  function Counted<E, P, O>(sim: Sim<E, O>, now: View<E, P>, head: Action, under: Under): View<E, P> {
    if under.Fresh? then Begun(sim, now, head) else now
  }

  lemma BegunOnTrack<E(!new), P(!new), O(!new)>(
      t: Setup<E, P, O>, i: nat, now: View<E, P>, head: Action, rest: seq<Action>, under: Under)
    requires t.Fit() && i < |t.checkpoints| && t.OnTrackTo(i, now, under.Under?, [head] + rest)
    requires under.Under? ==> now.due >= t.sim.tick(now.state) + Duration(head)
    requires !t.sim.Over(now.state) && t.sim.tick(now.state) < t.checkpoints[i]
    ensures t.OnTrackTo(i, Counted(t.sim, now, head, under), true, [head] + rest)
    ensures Counted(t.sim, now, head, under).due >= t.sim.tick(now.state) + Duration(head)
  {
    assert ([head] + rest)[0] == head;
    if under.Fresh? { Started(t.sim, t.pol, t.checkpoints[i], t.x0, t.p0, now, [head] + rest); }
  }

  /** The fragment `f` of `head` keeps the view on its way to the checkpoint. */
  lemma FragmentOnTrack<E(!new), P(!new), O(!new)>(
      t: Setup<E, P, O>, i: nat, now: View<E, P>, head: Action, rest: seq<Action>, f: Action, under: Under)
    returns (next: View<E, P>)
    requires t.Fit() && i < |t.checkpoints| && t.OnTrackTo(i, now, under.Under?, [head] + rest)
    requires under.Under? ==> under.index > 0 && now.due >= t.sim.tick(now.state) + Duration(head)
    requires !t.sim.Over(now.state) && t.sim.tick(now.state) + Duration(f) <= t.checkpoints[i]
    requires f == head || (head.Wait? && f.Wait? && f.ticks < head.ticks)
    ensures next == Stepped(t.sim, Counted(t.sim, now, head, under), f)
    ensures t.OnTrackTo(i, next, Later(under, head, f).Under?, Pending(head, f, rest))
  {
    BegunOnTrack(t, i, now, head, rest, under);
    var begun := Counted(t.sim, now, head, under);
    next := Stepped(t.sim, begun, f);
    if f == head {
      PlayedWhole(t.sim, t.pol, t.checkpoints[i], t.x0, t.p0, begun, head, rest);
    } else {
      PartOnTrack(t, i, begun, head.ticks, rest, f.ticks);
    }
  }

  lemma FragmentDue<E(!new), P(!new), O(!new)>(
      t: Setup<E, P, O>, now: View<E, P>, head: Action, f: Action, under: Under, next: View<E, P>)
    requires t.Fit() && !t.sim.Over(now.state) && Duration(f) <= Duration(head)
    requires under.Under? ==> now.due >= t.sim.tick(now.state) + Duration(head)
    requires next == Stepped(t.sim, Counted(t.sim, now, head, under), f)
    ensures !t.sim.Over(next.state) ==> next.due >= t.sim.tick(next.state) + (Duration(head) - Duration(f))
  {
    assert Punctual(t.sim, now.state, f);
  }

  lemma PartOnTrack<E(!new), P(!new), O(!new)>(
      t: Setup<E, P, O>, i: nat, begun: View<E, P>, whole: nat, rest: seq<Action>, part: nat)
    requires t.Fit() && i < |t.checkpoints| && 0 < part < whole
    requires t.OnTrackTo(i, begun, true, [Wait(whole)] + rest) && begun.due >= t.sim.tick(begun.state) + whole
    requires !t.sim.Over(begun.state) && t.sim.tick(begun.state) + part <= t.checkpoints[i]
    ensures t.OnTrackTo(i, Stepped(t.sim, begun, Wait(part)), true, [Wait(whole - part)] + rest)
  {
    PlayedPart(t.sim, t.pol, t.checkpoints[i], t.x0, t.p0, begun, part, whole - part, rest);
  }

  lemma FragmentShown<E(!new), P(!new), O(!new)>(
      t: Setup<E, P, O>, now: View<E, P>, head: Action, f: Action, under: Under, log: Log<E, P>)
    requires Shows(t, now, log) && (under.Under? ==> under.index > 0)
    ensures Shows(t, Stepped(t.sim, Counted(t.sim, now, head, under), f),
                  log + [Noted(t.sim, now.state, head, f, under)])
  {
    var e: Entry<E, P> := Noted(t.sim, now.state, head, f, under);
    Extended(log, e);
  }

  /** A view on its way to checkpoint `i` that counts what the log shows. */
  ghost predicate Showing<E(!new), P(!new), O(!new)>(
      t: Setup<E, P, O>, i: nat, index: nat, now: View<E, P>, todo: seq<Action>, under: Under, log: Log<E, P>)
    requires t.Fit() && i < |t.checkpoints|
  {
    && index <= i + 1 && InFront(t, index, now.state)
    && (index > i ==> t.sim.tick(now.state) >= t.checkpoints[i])
    && Shows(t, now, log) && t.OnTrackTo(i, now, under.Under?, todo)
    && (under.Under? ==> todo != [] && under.index > 0)
    && (under.Under? && !t.sim.Over(now.state) ==> now.due >= t.sim.tick(now.state) + Duration(todo[0]))
  }

  lemma FragmentShowing<E(!new), P(!new), O(!new)>(
      t: Setup<E, P, O>, i: nat, index: nat, now: View<E, P>, todo: seq<Action>, under: Under, log: Log<E, P>,
      f: Action)
    returns (next: View<E, P>)
    requires t.Fit() && index <= i < |t.checkpoints| && Showing(t, i, index, now, todo, under, log)
    requires !t.sim.Over(now.state) && todo != []
    requires f == Clip(todo[0], t.checkpoints[index] - t.sim.tick(now.state))
    ensures next.state == t.sim.step(now.state, f).state && next.policy == now.policy
    ensures Showing(t, i, Met(t, index, next.state), next, Pending(todo[0], f, todo[1..]), Later(under, todo[0], f),
                    log + [Noted(t.sim, now.state, todo[0], f, under)])
  {
    assert index < i ==> t.Earlier(index, i);
    assert [todo[0]] + todo[1..] == todo;
    StillInFront(t, index, now.state, todo[0]);
    next := FragmentOnTrack(t, i, now, todo[0], todo[1..], f, under);
    FragmentDue(t, now, todo[0], f, under, next);
    FragmentShown(t, now, todo[0], f, under, log);
  }

  lemma {:induction false} TraceShown<E(!new), P(!new), O(!new)>(
      t: Setup<E, P, O>, i: nat, index: nat, now: View<E, P>, todo: seq<Action>, under: Under, log: Log<E, P>,
      whole: Log<E, P>)
    requires t.Fit() && i < |t.checkpoints| && Showing(t, i, index, now, todo, under, log)
    requires whole == Trace(t, i, index, now.state, now.policy, todo, under, log)
    ensures Shows(t, t.Seen(i), whole)
    decreases Room(t, now.state), if todo == [] then 1 else 0
  {
    if t.sim.Over(now.state) || index > i {
      Arrived(t.sim, t.pol, t.checkpoints[i], t.x0, t.p0, now, under.Under?, todo);
    } else if todo == [] {
      var (q, actions) := t.pol.predict(now.policy, t.sim.observe(now.state));
      TraceDecided(t, i, index, now.state, now.policy, under, log);
      assert index < i ==> t.Earlier(index, i);
      var next, e := DecisionShown(t, i, now, log);
      TraceShown(t, i, index, next, actions, Fresh, log + [e], whole);
    } else {
      var f := Clip(todo[0], t.checkpoints[index] - t.sim.tick(now.state));
      TraceSteps(t, i, index, now.state, now.policy, todo, under, log, f);
      var next := FragmentShowing(t, i, index, now, todo, under, log, f);
      LessRoom(t, now.state, next.state);
      TraceShown(t, i, Met(t, index, next.state), next, Pending(todo[0], f, todo[1..]), Later(under, todo[0], f),
                 log + [Noted(t.sim, now.state, todo[0], f, under)], whole);
    }
  }

  /** The view in a row and the transcript it carries agree: the state and the policy the
      last entries reached, as many decisions as there are decision entries, as many
      primitives as first fragments, and the events of all transitions in order. */
  lemma RowShowsTranscript<E(!new), P(!new), O(!new)>(t: Setup<E, P, O>, i: nat)
    requires t.Fit() && i < |t.checkpoints|
    ensures t.Reference(i).view == t.Seen(i)
    ensures var log := Transcript(t, i); var v := t.Seen(i);
      && v.state == StateAfter(t.x0, log) && v.policy == PolicyAfter(t.p0, log)
      && v.decisions == Decisions(log) && v.primitives == Starts(log) && v.events == EventsOf(log)
  {
    var now := View(t.x0, t.p0, 0, 0, 0, []);
    assert [] + t.Seen(i).events == t.Seen(i).events;
    TraceShown(t, i, 0, now, [], Fresh, [], Transcript(t, i));
  }
}
