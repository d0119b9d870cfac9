/** The transcript of a checkpoint-split run: every decision and every fragment, as
    chained into the digests that the rows carry. */
module Transcripts {
  import opened Simulation
  import opened Prefix

  /** The primitive under way and how many of its fragments have been played. */
  datatype Under = Fresh | Under(original: Action, index: nat)

  /** A chained entry.  The state reached stands for the observation, reward and
      flags that are taken from it. */
  datatype Entry<E, P> =
    | Decision(tick: nat, actions: seq<Action>, policy: P)
    | Transition(original: Action, fragment: Action, index: nat, before: nat, after: nat, result: Step<E>)

  /** The transcript so far, and as it stood at each row captured. */
  datatype Tape<E, P> = Tape(log: seq<Entry<E, P>>, under: Under, saved: seq<seq<Entry<E, P>>>)

  function OriginalOf(under: Under, head: Action): Action {
    if under.Fresh? then head else under.original
  }

  function IndexOf(under: Under): nat {
    if under.Fresh? then 0 else under.index
  }

  /** After the fragment `f` of `head`: what is left to do, and under way. */
  function Pending(head: Action, f: Action, rest: seq<Action>): seq<Action> {
    if Duration(f) >= Duration(head) then rest else [Wait(Duration(head) - Duration(f))] + rest
  }

  function Later(under: Under, head: Action, f: Action): Under {
    if Duration(f) >= Duration(head) then Fresh else Under(OriginalOf(under, head), IndexOf(under) + 1)
  }

  function Noted<E, P, O>(sim: Sim<E, O>, x: E, head: Action, f: Action, under: Under): Entry<E, P> {
    var s := sim.step(x, f);
    Transition(OriginalOf(under, head), f, IndexOf(under), sim.tick(x), sim.tick(s.state), s)
  }

  /** The next checkpoint, if there is one, lies ahead. */
  ghost predicate InFront<E(!new), P(!new), O(!new)>(t: Setup<E, P, O>, index: nat, x: E) {
    index < |t.checkpoints| ==> t.sim.tick(x) < t.checkpoints[index]
  }

  /** The number of checkpoints met, after a step towards checkpoint `index`. */
  function Met<E(!new), P(!new), O(!new)>(t: Setup<E, P, O>, index: nat, x: E): nat {
    if index < |t.checkpoints| && t.sim.tick(x) == t.checkpoints[index] then index + 1 else index
  }

  lemma StillInFront<E(!new), P(!new), O(!new)>(t: Setup<E, P, O>, index: nat, x: E, head: Action)
    requires t.Fit() && index < |t.checkpoints| && !t.sim.Over(x) && InFront(t, index, x)
    ensures var y := t.sim.step(x, Clip(head, t.checkpoints[index] - t.sim.tick(x))).state;
      InFront(t, Met(t, index, y), y) && t.sim.tick(x) < t.sim.tick(y)
  {
    assert Punctual(t.sim, x, Clip(head, t.checkpoints[index] - t.sim.tick(x)));
    assert index + 1 < |t.checkpoints| ==> t.Earlier(index, index + 1);
  }

  /** The transcript of a run from here to checkpoint `i`, WAITs cut at the checkpoints
      on the way, when `log` has been chained so far. */
  ghost function Trace<E(!new), P(!new), O(!new)>(
      t: Setup<E, P, O>, i: nat, index: nat, x: E, p: P, todo: seq<Action>, under: Under, log: seq<Entry<E, P>>)
      : seq<Entry<E, P>>
    requires t.Fit() && i < |t.checkpoints| && InFront(t, index, x)
    decreases t.checkpoints[|t.checkpoints| - 1] - t.sim.tick(x), if todo == [] then 1 else 0
  {
    if t.sim.Over(x) || index > i then log
    else if todo == [] then
      var (q, actions) := t.pol.predict(p, t.sim.observe(x));
      Trace(t, i, index, x, q, actions, Fresh, log + [Decision(t.sim.tick(x), actions, q)])
    else
      var head := todo[0];
      var f := Clip(head, t.checkpoints[index] - t.sim.tick(x));
      StillInFront(t, index, x, head);
      var y := t.sim.step(x, f).state;
      Trace(t, i, Met(t, index, y), y, p, Pending(head, f, todo[1..]), Later(under, head, f),
            log + [Noted(t.sim, x, head, f, under)])
  }

  /** The transcript at checkpoint `i`. */
  ghost function Transcript<E(!new), P(!new), O(!new)>(t: Setup<E, P, O>, i: nat): seq<Entry<E, P>>
    requires t.Fit() && i < |t.checkpoints|
  {
    Trace(t, i, 0, t.x0, t.p0, [], Fresh, [])
  }

  ghost function Saved<E(!new), P(!new), O(!new)>(t: Setup<E, P, O>, k: nat): seq<seq<Entry<E, P>>>
    requires t.Fit() && k <= |t.checkpoints|
  {
    if k == 0 then [] else Saved(t, k - 1) + [Transcript(t, k - 1)]
  }

  /** The log so far, and the rest of the run, are the transcript at checkpoint `i`. */
  ghost predicate LoggedTo<E(!new), P(!new), O(!new)>(
      t: Setup<E, P, O>, i: nat, index: nat, now: View<E, P>, todo: seq<Action>, tape: Tape<E, P>)
    requires t.Fit() && i < |t.checkpoints| && InFront(t, index, now.state)
  {
    Trace(t, i, index, now.state, now.policy, todo, tape.under, tape.log) == Transcript(t, i)
  }

  /** What every loop of the interpreter keeps of the transcript. */
  ghost predicate Logs<E(!new), P(!new), O(!new)>(
      t: Setup<E, P, O>, now: View<E, P>, todo: seq<Action>, tape: Tape<E, P>)
    requires t.Fit()
  {
    var index := |tape.saved|;
    && index <= |t.checkpoints| && InFront(t, index, now.state)
    && tape.saved == Saved(t, index)
    && forall i: nat :: index <= i < |t.checkpoints| ==> LoggedTo(t, i, index, now, todo, tape)
  }

  lemma LogsStart<E(!new), P(!new), O(!new)>(t: Setup<E, P, O>)
    requires t.Fit()
    ensures Logs(t, View(t.x0, t.p0, 0, 0, 0, []), [], Tape([], Fresh, []))
  {
    var now, tape := View(t.x0, t.p0, 0, 0, 0, []), Tape([], Fresh, []);
    forall i: nat | i < |t.checkpoints| ensures LoggedTo(t, i, 0, now, [], tape) {}
  }

  /** The tape after a decision. */
  function Decreed<E, P, O>(sim: Sim<E, O>, x: E, q: P, actions: seq<Action>, tape: Tape<E, P>): Tape<E, P> {
    tape.(log := tape.log + [Decision(sim.tick(x), actions, q)], under := Fresh)
  }

  lemma DecisionLogged<E(!new), P(!new), O(!new)>(
      t: Setup<E, P, O>, i: nat, index: nat, now: View<E, P>, tape: Tape<E, P>)
    requires t.Fit() && index <= i < |t.checkpoints| && InFront(t, index, now.state) && !t.sim.Over(now.state)
    requires LoggedTo(t, i, index, now, [], tape)
    ensures var (q, actions) := t.pol.predict(now.policy, t.sim.observe(now.state));
      LoggedTo(t, i, index, now.(policy := q, decisions := now.decisions + 1), actions,
               Decreed(t.sim, now.state, q, actions, tape))
  {}

  lemma LogsDecided<E(!new), P(!new), O(!new)>(t: Setup<E, P, O>, now: View<E, P>, tape: Tape<E, P>)
    requires t.Fit() && Logs(t, now, [], tape) && !t.sim.Over(now.state)
    ensures var (q, actions) := t.pol.predict(now.policy, t.sim.observe(now.state));
      Logs(t, now.(policy := q, decisions := now.decisions + 1), actions, Decreed(t.sim, now.state, q, actions, tape))
  {
    var (q, actions) := t.pol.predict(now.policy, t.sim.observe(now.state));
    var after := now.(policy := q, decisions := now.decisions + 1);
    var longer := Decreed(t.sim, now.state, q, actions, tape);
    forall i: nat | |tape.saved| <= i < |t.checkpoints|
      ensures LoggedTo(t, i, |tape.saved|, after, actions, longer)
    {
      assert LoggedTo(t, i, |tape.saved|, now, [], tape);
      DecisionLogged(t, i, |tape.saved|, now, tape);
    }
  }

  /** The tape after a fragment, with the row it may have earned. */
  function Rolled<E(!new), P(!new), O(!new)>(
      t: Setup<E, P, O>, before: E, after: E, head: Action, f: Action, tape: Tape<E, P>): Tape<E, P>
  {
    var log := tape.log + [Noted(t.sim, before, head, f, tape.under)];
    Tape(log, Later(tape.under, head, f), SavedOn(t, after, log, tape.saved))
  }

  function SavedOn<E(!new), P(!new), O(!new)>(
      t: Setup<E, P, O>, x: E, log: seq<Entry<E, P>>, saved: seq<seq<Entry<E, P>>>): seq<seq<Entry<E, P>>>
  {
    if |saved| < |t.checkpoints| && t.sim.tick(x) == t.checkpoints[|saved|] then saved + [log] else saved
  }

  lemma FragmentLogged<E(!new), P(!new), O(!new)>(
      t: Setup<E, P, O>, i: nat, before: View<E, P>, head: Action, rest: seq<Action>, tape: Tape<E, P>)
    requires t.Fit() && !t.sim.Over(before.state) && |tape.saved| <= i < |t.checkpoints|
    requires InFront(t, |tape.saved|, before.state)
    requires LoggedTo(t, i, |tape.saved|, before, [head] + rest, tape)
    ensures var f := Fragment(t, |tape.saved|, before, head); var now := Stepped(t.sim, before, f);
      var met := Met(t, |tape.saved|, now.state);
      && InFront(t, met, now.state)
      && LoggedTo(t, i, met, now, Pending(head, f, rest), Rolled(t, before.state, now.state, head, f, tape))
  {
    StillInFront(t, |tape.saved|, before.state, head);
    assert ([head] + rest)[0] == head && ([head] + rest)[1..] == rest;
  }

  lemma LogsFragment<E(!new), P(!new), O(!new)>(
      t: Setup<E, P, O>, before: View<E, P>, head: Action, rest: seq<Action>, tape: Tape<E, P>)
    requires t.Fit() && !t.sim.Over(before.state) && |tape.saved| < |t.checkpoints|
    requires Logs(t, before, [head] + rest, tape)
    ensures var f := Fragment(t, |tape.saved|, before, head); var now := Stepped(t.sim, before, f);
      Logs(t, now, Pending(head, f, rest), Rolled(t, before.state, now.state, head, f, tape))
  {
    var index := |tape.saved|;
    var f := Fragment(t, index, before, head);
    var now := Stepped(t.sim, before, f);
    var rolled := Rolled(t, before.state, now.state, head, f, tape);
    StillInFront(t, index, before.state, head);
    forall i: nat | index <= i < |t.checkpoints|
      ensures LoggedTo(t, i, Met(t, index, now.state), now, Pending(head, f, rest), rolled)
    {
      assert LoggedTo(t, i, index, before, [head] + rest, tape);
      FragmentLogged(t, i, before, head, rest, tape);
    }
    if t.sim.tick(now.state) == t.checkpoints[index] {
      assert LoggedTo(t, index, index + 1, now, Pending(head, f, rest), rolled);
    }
  }

  /** Once the episode is over nothing more is logged. */
  lemma LogsOver<E(!new), P(!new), O(!new)>(
      t: Setup<E, P, O>, now: View<E, P>, todo: seq<Action>, tape: Tape<E, P>, rest: seq<Action>, under: Under)
    requires t.Fit() && t.sim.Over(now.state) && Logs(t, now, todo, tape)
    ensures Logs(t, now, rest, tape.(under := under))
    ensures forall i: nat :: |tape.saved| <= i < |t.checkpoints| ==> tape.log == Transcript(t, i)
  {
    forall i: nat | |tape.saved| <= i < |t.checkpoints|
      ensures LoggedTo(t, i, |tape.saved|, now, rest, tape.(under := under)) && tape.log == Transcript(t, i)
    {
      assert LoggedTo(t, i, |tape.saved|, now, todo, tape);
    }
  }

  /** Counting a primitive logs nothing. */
  lemma LogsBegun<E(!new), P(!new), O(!new)>(
      t: Setup<E, P, O>, now: View<E, P>, todo: seq<Action>, tape: Tape<E, P>, action: Action)
    requires t.Fit() && Logs(t, now, todo, tape)
    ensures Logs(t, Begun(t.sim, now, action), todo, tape)
  {
    forall i: nat | |tape.saved| <= i < |t.checkpoints|
      ensures LoggedTo(t, i, |tape.saved|, Begun(t.sim, now, action), todo, tape)
    {
      assert LoggedTo(t, i, |tape.saved|, now, todo, tape);
    }
  }

  lemma TraceSteps<E(!new), P(!new), O(!new)>(
      t: Setup<E, P, O>, i: nat, index: nat, x: E, p: P, todo: seq<Action>, under: Under, log: seq<Entry<E, P>>,
          f: Action)
    requires t.Fit() && index <= i < |t.checkpoints| && InFront(t, index, x) && !t.sim.Over(x) && todo != []
    requires f == Clip(todo[0], t.checkpoints[index] - t.sim.tick(x))
    ensures var y := t.sim.step(x, f).state; var met := Met(t, index, y);
      && InFront(t, met, y) && t.sim.tick(x) < t.sim.tick(y)
      && Trace(t, i, index, x, p, todo, under, log) ==
           Trace(t, i, met, y, p, Pending(todo[0], f, todo[1..]), Later(under, todo[0], f),
                 log + [Noted(t.sim, x, todo[0], f, under)])
  {
    StillInFront(t, index, x, todo[0]);
  }

  /** Two runs whose checkpoints agree up to the `i`-th, whatever comes later, log the
      same up to there. */
  lemma {:induction false} TraceLooksBack<E(!new), P(!new), O(!new)>(
      t: Setup<E, P, O>, u: Setup<E, P, O>, i: nat, index: nat, x: E, p: P, todo: seq<Action>, under: Under,
      log: seq<Entry<E, P>>)
    requires t.Fit() && u.Fit() && t.sim == u.sim && t.pol == u.pol
    requires i < |t.checkpoints| && i < |u.checkpoints|
    requires forall k :: 0 <= k <= i ==> t.checkpoints[k] == u.checkpoints[k]
    requires InFront(t, index, x) && InFront(u, index, x)
    ensures Trace(t, i, index, x, p, todo, under, log) == Trace(u, i, index, x, p, todo, under, log)
    decreases t.checkpoints[|t.checkpoints| - 1] - t.sim.tick(x), if todo == [] then 1 else 0
  {
    if !t.sim.Over(x) && index <= i {
      if todo == [] {
        var (q, actions) := t.pol.predict(p, t.sim.observe(x));
        TraceLooksBack(t, u, i, index, x, q, actions, Fresh, log + [Decision(t.sim.tick(x), actions, q)]);
      } else {
        var f := Clip(todo[0], t.checkpoints[index] - t.sim.tick(x));
        TraceSteps(t, i, index, x, p, todo, under, log, f);
        TraceSteps(u, i, index, x, p, todo, under, log, f);
        var y := t.sim.step(x, f).state;
        var met := Met(t, index, y);
        assert met == Met(u, index, y);
        TraceLooksBack(t, u, i, met, y, p, Pending(todo[0], f, todo[1..]), Later(under, todo[0], f),
                       log + [Noted(t.sim, x, todo[0], f, under)]);
      }
    }
  }

  /** The transcript a row carries does not depend on later checkpoints. */
  lemma TranscriptsLookBack<E(!new), P(!new), O(!new)>(t: Setup<E, P, O>, later: seq<nat>, i: nat)
    requires t.Fit() && t.(checkpoints := later).Fit()
    requires i < |t.checkpoints| && i < |later| && t.checkpoints[..i + 1] == later[..i + 1]
    ensures Transcript(t, i) == Transcript(t.(checkpoints := later), i)
  {
    forall k | 0 <= k <= i ensures t.checkpoints[k] == later[k] {
      assert t.checkpoints[..i + 1][k] == later[..i + 1][k];
    }
    TraceLooksBack(t, t.(checkpoints := later), i, 0, t.x0, t.p0, [], Fresh, []);
  }

  lemma {:induction false} SavedAt<E(!new), P(!new), O(!new)>(t: Setup<E, P, O>, k: nat, i: nat)
    requires t.Fit() && i < k <= |t.checkpoints|
    ensures |Saved(t, k)| == k && Saved(t, k)[i] == Transcript(t, i)
  {
    if i < k - 1 { SavedAt(t, k - 1, i); } else if k > 1 { SavedAt(t, k - 1, 0); }
  }
}
