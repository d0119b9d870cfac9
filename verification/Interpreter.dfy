/** The checkpoint-splitting interpreter itself. */
module Interpreter {
  import opened Simulation
  import opened Prefix
  import opened Transcripts
  import opened Entries

  /** `capture_due`: the next checkpoint, if its tick has come.  No checkpoint is ever
      passed over, so its loop runs at most once. */
  method CaptureDue<E(!new), P(!new), O(!new)>(
      t: Setup<E, P, O>, now: View<E, P>, steps: nat, splits: nat, rows: seq<Row<E, P>>, tape: Tape<E, P>)
      returns (grown: seq<Row<E, P>>, saved: seq<seq<Entry<E, P>>>)
    requires t.Fit() && |rows| == |tape.saved| <= |t.checkpoints|
    requires |rows| < |t.checkpoints| ==> t.sim.tick(now.state) <= t.checkpoints[|rows|]
    ensures grown == Captured(t, now, steps, splits, rows) && saved == SavedOn(t, now.state, tape.log, tape.saved)
    ensures |grown| == |saved|
  {
    grown, saved := rows, tape.saved;
    while |grown| < |t.checkpoints| && t.sim.tick(now.state) >= t.checkpoints[|grown|]
      invariant (grown == rows && saved == tape.saved)
        || (|rows| < |t.checkpoints| && t.sim.tick(now.state) == t.checkpoints[|rows|]
            && grown == Captured(t, now, steps, splits, rows) && saved == tape.saved + [tape.log])
      decreases |t.checkpoints| - |grown|
    {
      assert |rows| + 1 < |t.checkpoints| ==> t.Earlier(|rows|, |rows| + 1);
      grown := grown + [Row(t.checkpoints[|grown|], false, now, steps, splits)];
      saved := saved + [tape.log];
    }
  }

  /** One fragment: one environment step, its entry in the transcript, and the
      checkpoint it may arrive at. */
  method PlayFragment<E(!new), P(!new), O(!new)>(
      t: Setup<E, P, O>, before: View<E, P>, head: Action,
      rows0: seq<Row<E, P>>, steps0: nat, splits0: nat, tape0: Tape<E, P>)
      returns (now: View<E, P>, left: nat, rows: seq<Row<E, P>>, steps: nat, splits: nat, tape: Tape<E, P>)
    requires t.Fit() && |rows0| == |tape0.saved| < |t.checkpoints|
    requires t.sim.tick(before.state) < t.checkpoints[|rows0|]
    requires Punctual(t.sim, before.state, Fragment(t, |rows0|, before, head))
    ensures var f := Fragment(t, |rows0|, before, head);
      && now == Stepped(t.sim, before, f)
      && t.sim.tick(before.state) < t.sim.tick(now.state)
      && left == Duration(head) - (t.sim.tick(now.state) - t.sim.tick(before.state))
      && steps == steps0 + 1 && splits == splits0 + (if f != head then 1 else 0)
      && rows == Captured(t, now, steps, splits, rows0)
      && tape == Rolled(t, before.state, now.state, head, f, tape0)
    ensures |rows| == |tape.saved|
  {
    var remaining := Duration(head);
    var beforeTick := t.sim.tick(before.state);
    var duration := remaining;
    if head.Wait? {
      var boundary := t.checkpoints[|rows0|] - beforeTick;
      duration := if duration < boundary then duration else boundary;
    }
    var fragment := if head.Wait? then Wait(duration) else head;
    splits := splits0;
    if head.Wait? && duration < remaining {
      splits := splits + 1;
    }
    now := Stepped(t.sim, before, fragment);
    steps := steps0 + 1;
    var entry := Noted(t.sim, before.state, head, fragment, tape0.under);
    tape := Tape(tape0.log + [entry], Later(tape0.under, head, fragment), tape0.saved);
    left := remaining - (t.sim.tick(now.state) - beforeTick);
    var saved;
    rows, saved := CaptureDue(t, now, steps, splits, rows0, tape);
    tape := tape.(saved := saved);
  }

  lemma LogsAdvance<E(!new), P(!new), O(!new)>(
      t: Setup<E, P, O>, before: View<E, P>, head: Action, rest: seq<Action>, tape: Tape<E, P>,
      mid: bool, todo: seq<Action>)
      returns (rolled: Tape<E, P>)
    requires t.Fit() && !t.sim.Over(before.state) && |tape.saved| < |t.checkpoints|
    requires InFront(t, |tape.saved|, before.state) && Logs(t, before, [head] + rest, tape)
    requires var f := Fragment(t, |tape.saved|, before, head); var now := Stepped(t.sim, before, f);
      && mid == (f != head && !t.sim.Over(now.state))
      && todo == (if mid then [Wait(Duration(head) - Duration(f))] + rest else rest)
    ensures var f := Fragment(t, |tape.saved|, before, head); var now := Stepped(t.sim, before, f);
      rolled == Rolled(t, before.state, now.state, head, f, tape) && Logs(t, now, todo, rolled)
  {
    var f := Fragment(t, |tape.saved|, before, head);
    var now := Stepped(t.sim, before, f);
    rolled := Rolled(t, before.state, now.state, head, f, tape);
    LogsFragment(t, before, head, rest, tape);
    if t.sim.Over(now.state) {
      LogsOver(t, now, Pending(head, f, rest), rolled, todo, rolled.under);
    }
  }

  lemma AdvanceKeeps<E(!new), P(!new), O(!new)>(
      t: Setup<E, P, O>, before: View<E, P>, head: Action, rest: seq<Action>,
      rows: seq<Row<E, P>>, steps: nat, splits: nat, tape: Tape<E, P>)
      returns (mid: bool, todo: seq<Action>)
    requires t.Fit() && !t.sim.Over(before.state)
    requires t.Inv(before, true, [head] + rest, rows, steps, splits)
    requires |rows| == |tape.saved| && Logs(t, before, [head] + rest, tape)
    ensures |rows| < |t.checkpoints| && t.sim.tick(before.state) < t.checkpoints[|rows|]
    ensures var f := Fragment(t, |rows|, before, head); var now := Stepped(t.sim, before, f);
      var splits' := splits + if f != head then 1 else 0;
      && Punctual(t.sim, before.state, f)
      && mid == (f != head && !t.sim.Over(now.state))
      && todo == (if mid then [Wait(Duration(head) - Duration(f))] + rest else rest)
      && t.Inv(now, mid, todo, Captured(t, now, steps + 1, splits', rows), steps + 1, splits')
      && Logs(t, now, todo, Rolled(t, before.state, now.state, head, f, tape))
  {
    Ahead(t, before, [head] + rest, rows, steps, splits);
    assert Punctual(t.sim, before.state, Fragment(t, |rows|, before, head));
    var now, splits', rolled;
    now, mid, todo, splits' := FragmentInv(t, before, head, rest, rows, steps, splits);
    rolled := LogsAdvance(t, before, head, rest, tape, mid, todo);
  }

  /** The same, with what is left of the primitive counted in ticks. */
  lemma AdvanceLeaves<E(!new), P(!new), O(!new)>(
      t: Setup<E, P, O>, before: View<E, P>, head: Action, rest: seq<Action>,
      rows: seq<Row<E, P>>, steps: nat, splits: nat, tape: Tape<E, P>)
      returns (mid: bool, todo: seq<Action>)
    requires t.Fit() && !t.sim.Over(before.state)
    requires t.Inv(before, true, [head] + rest, rows, steps, splits)
    requires |rows| == |tape.saved| && Logs(t, before, [head] + rest, tape)
    ensures |rows| < |t.checkpoints| && t.sim.tick(before.state) < t.checkpoints[|rows|]
    ensures var f := Fragment(t, |rows|, before, head); var now := Stepped(t.sim, before, f);
      var splits' := splits + if f != head then 1 else 0;
      var left := Duration(head) - (t.sim.tick(now.state) - t.sim.tick(before.state));
      && Punctual(t.sim, before.state, f) && 0 <= left < Duration(head)
      && (mid <==> left > 0 && !t.sim.Over(now.state))
      && todo == (if mid then [Wait(left)] + rest else rest)
      && t.Inv(now, mid, todo, Captured(t, now, steps + 1, splits', rows), steps + 1, splits')
      && Logs(t, now, todo, Rolled(t, before.state, now.state, head, f, tape))
  {
    mid, todo := AdvanceKeeps(t, before, head, rest, rows, steps, splits, tape);
    LeftOver(t.sim, before.state, head, t.checkpoints[|rows|] - t.sim.tick(before.state));
  }

  /** One fragment keeps the run on track. */
  method Advance<E(!new), P(!new), O(!new)>(
      t: Setup<E, P, O>, before: View<E, P>, head: Action, ghost rest: seq<Action>,
      rows0: seq<Row<E, P>>, steps0: nat, splits0: nat, tape0: Tape<E, P>)
      returns (now: View<E, P>, left: nat, rows: seq<Row<E, P>>, steps: nat, splits: nat, tape: Tape<E, P>,
               ghost mid: bool, ghost todo: seq<Action>)
    requires t.Fit() && !t.sim.Over(before.state)
    requires t.Inv(before, true, [head] + rest, rows0, steps0, splits0)
    requires |rows0| == |tape0.saved| && Logs(t, before, [head] + rest, tape0)
    ensures t.sim.tick(before.state) < t.sim.tick(now.state) && left < Duration(head)
    ensures (mid <==> left > 0 && !t.sim.Over(now.state)) && todo == if mid then [Wait(left)] + rest else rest
    ensures t.Inv(now, mid, todo, rows, steps, splits)
    ensures |rows| == |tape.saved| && Logs(t, now, todo, tape)
  {
    mid, todo := AdvanceLeaves(t, before, head, rest, rows0, steps0, splits0, tape0);
    now, left, rows, steps, splits, tape := PlayFragment(t, before, head, rows0, steps0, splits0, tape0);
  }

  /** The fragments of one primitive. */
  method PlayPrimitive<E(!new), P(!new), O(!new)>(
      t: Setup<E, P, O>, before: View<E, P>, head: Action, ghost rest: seq<Action>,
      rows0: seq<Row<E, P>>, steps0: nat, splits0: nat, tape0: Tape<E, P>)
      returns (now: View<E, P>, rows: seq<Row<E, P>>, steps: nat, splits: nat, tape: Tape<E, P>)
    requires t.Fit() && !t.sim.Over(before.state)
    requires t.Inv(before, false, [head] + rest, rows0, steps0, splits0)
    requires |rows0| == |tape0.saved| && Logs(t, before, [head] + rest, tape0)
    ensures t.Inv(now, false, rest, rows, steps, splits)
    ensures |rows| == |tape.saved| && Logs(t, now, rest, tape)
    ensures t.sim.tick(before.state) < t.sim.tick(now.state)
  {
    BegunAll(t, before, [head] + rest, rows0, steps0, splits0);
    LogsBegun(t, before, [head] + rest, tape0, head);
    now, rows, steps, splits, tape := Begun(t.sim, before, head), rows0, steps0, splits0, tape0;
    var current, left := head, Duration(head);
    ghost var mid, todo := true, [head] + rest;
    while left > 0 && !t.sim.Over(now.state)
      invariant mid <==> left > 0 && !t.sim.Over(now.state)
      invariant todo == if mid then [current] + rest else rest
      invariant mid ==> Duration(current) == left
      invariant t.Inv(now, mid, todo, rows, steps, splits)
      invariant |rows| == |tape.saved| && Logs(t, now, todo, tape)
      invariant now.state == before.state || t.sim.tick(before.state) < t.sim.tick(now.state)
      invariant now.state == before.state ==> mid
      decreases left
    {
      now, left, rows, steps, splits, tape, mid, todo := Advance(t, now, current, rest, rows, steps, splits, tape);
      if left > 0 { current := Wait(left); }
    }
  }

  /** The primitives of one decision, until the episode ends. */
  method PlayActions<E(!new), P(!new), O(!new)>(
      t: Setup<E, P, O>, before: View<E, P>, actions: seq<Action>,
      rows0: seq<Row<E, P>>, steps0: nat, splits0: nat, tape0: Tape<E, P>)
      returns (now: View<E, P>, rows: seq<Row<E, P>>, steps: nat, splits: nat, tape: Tape<E, P>)
    requires t.Fit() && t.Inv(before, false, actions, rows0, steps0, splits0)
    requires |rows0| == |tape0.saved| && Logs(t, before, actions, tape0)
    requires actions != [] && !t.sim.Over(before.state)
    ensures t.Inv(now, false, [], rows, steps, splits)
    ensures |rows| == |tape.saved| && Logs(t, now, [], tape)
    ensures t.sim.tick(before.state) < t.sim.tick(now.state)
  {
    now, rows, steps, splits, tape := before, rows0, steps0, splits0, tape0;
    var i := 0;
    while i < |actions| && !t.sim.Over(now.state)
      invariant i <= |actions|
      invariant t.Inv(now, false, actions[i..], rows, steps, splits)
      invariant |rows| == |tape.saved| && Logs(t, now, actions[i..], tape)
      invariant if i == 0 then now == before else t.sim.tick(before.state) < t.sim.tick(now.state)
    {
      assert actions[i..] == [actions[i]] + actions[i + 1..];
      now, rows, steps, splits, tape :=
        PlayPrimitive(t, now, actions[i], actions[i + 1..], rows, steps, splits, tape);
      i := i + 1;
    }
    Finished(t, now, actions[i..], rows, steps, splits);
    if t.sim.Over(now.state) { LogsOver(t, now, actions[i..], tape, [], tape.under); }
  }

  /** The whole decision loop. */
  method PlayEpisode<E(!new), P(!new), O(!new)>(t: Setup<E, P, O>)
      returns (now: View<E, P>, rows: seq<Row<E, P>>, steps: nat, splits: nat, tape: Tape<E, P>)
    requires t.Fit()
    ensures t.Inv(now, false, [], rows, steps, splits) && t.sim.Over(now.state)
    ensures |rows| == |tape.saved| && Logs(t, now, [], tape)
  {
    StartsOnTrack(t);
    LogsStart(t);
    now, rows, steps, splits, tape := View(t.x0, t.p0, 0, 0, 0, []), [], 0, 0, Tape([], Fresh, []);
    var saved;
    rows, saved := CaptureDue(t, now, steps, splits, rows, tape);
    while !t.sim.Over(now.state) && |rows| < |t.checkpoints|
      invariant t.Inv(now, false, [], rows, steps, splits)
      invariant |rows| == |tape.saved| && Logs(t, now, [], tape)
      decreases t.checkpoints[|t.checkpoints| - 1] - t.sim.tick(now.state)
    {
      DecidedAll(t, now, rows, steps, splits);
      LogsDecided(t, now, tape);
      var (q, actions) := t.pol.predict(now.policy, t.sim.observe(now.state));
      tape := Decreed(t.sim, now.state, q, actions, tape);
      now := now.(policy := q, decisions := now.decisions + 1);
      now, rows, steps, splits, tape := PlayActions(t, now, actions, rows, steps, splits, tape);
    }
  }

  /** The checkpoints after the end: only a terminated episode has any. */
  method CarryRows<E(!new), P(!new), O(!new)>(
      t: Setup<E, P, O>, last: View<E, P>, seen: seq<Row<E, P>>, steps: nat, splits: nat, tape: Tape<E, P>)
      returns (rows: seq<Row<E, P>>, transcripts: seq<seq<Entry<E, P>>>)
    requires t.Fit() && t.Inv(last, false, [], seen, steps, splits) && t.sim.Over(last.state)
    requires |seen| == |tape.saved| && Logs(t, last, [], tape)
    ensures rows == t.Rows(|t.checkpoints|) && transcripts == Saved(t, |t.checkpoints|)
    ensures |seen| < |t.checkpoints| ==> t.sim.terminated(last.state)
  {
    LogsOver(t, last, [], tape, [], tape.under);
    rows, transcripts := seen, tape.saved;
    while |rows| < |t.checkpoints|
      invariant |seen| <= |rows| <= |t.checkpoints| && rows == t.Rows(|rows|)
      invariant |transcripts| == |rows| && transcripts == Saved(t, |rows|)
      invariant |rows| > |seen| ==> t.sim.terminated(last.state)
      decreases |t.checkpoints| - |rows|
    {
      CarriedRow(t, |rows|, last, seen, steps, splits);
      assert t.Rows(|rows| + 1) == t.Rows(|rows|) + [t.Reference(|rows|)];
      assert Saved(t, |rows| + 1) == Saved(t, |rows|) + [tape.log];
      rows := rows + [Row(t.checkpoints[|rows|], true, last, steps, splits)];
      transcripts := transcripts + [tape.log];
    }
  }

  /** The split run is the plain run: same end, and at every checkpoint the row of the
      plain run cut there, with the transcript of the split run cut there.  A step is
      counted for every primitive and one more for every split, less one when the last
      step was not the end of its WAIT. */
  method RunPrefix<E(!new), P(!new), O(!new)>(t: Setup<E, P, O>)
      returns (last: View<E, P>, rows: seq<Row<E, P>>, transcripts: seq<seq<Entry<E, P>>>, steps: nat, splits: nat)
    requires t.Fit()
    ensures last == Plain(t.sim, t.pol, t.checkpoints[|t.checkpoints| - 1], t.x0, t.p0, [])
    ensures rows == t.Rows(|t.checkpoints|)
    ensures transcripts == Saved(t, |t.checkpoints|) && |transcripts| == |t.checkpoints|
    ensures forall i: nat :: i < |t.checkpoints| ==> Chained(t, transcripts[i]) && EndsAt(t, i, transcripts[i])
    ensures splits == t.Cuts(|t.checkpoints|)
    ensures steps + (if t.Broken(|t.checkpoints| - 1) then 1 else 0) == last.primitives + splits
  {
    var seen, tape;
    last, seen, steps, splits, tape := PlayEpisode(t);
    EndsAsPlain(t, last, seen, steps, splits);
    rows, transcripts := CarryRows(t, last, seen, steps, splits, tape);
    SavedExact(t, 0);
    forall i: nat | i < |t.checkpoints| { SavedExact(t, i); }
  }
}
