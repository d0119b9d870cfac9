/** One invocation of `collect_episode` as the disk sees it. */
module Sessions {
  import opened Images
  import opened Law
  import opened Recovery
  import opened Safety
  import opened Convergence
  import opened Publication
  import opened Validators
  import opened Progress

  function DocOf(s: Session): Line {
    DocPayload(s.identity, s.seed, RowsPayload(s.identity, s.seed, s.rows))[0]
  }

  /** Validate, load, and if the pair is missing play the episode, commit it and
      validate again. */
  ghost function Collect(ls: Listing, schedule: Schedule, fs: Image, s: Session): Run {
    if !SplitOk(schedule, fs, s.split, true, false) then Run(Refused, [])
    else
      var load := Load(ls, fs, s);
      if load.outcome != Missing then load
      else
        var gs := End(fs, load.images);
        var commit := Commit(ls, gs, s);
        var hs := End(gs, commit.images);
        var valid := commit.outcome == Done && SplitOk(schedule, hs, s.split, true, false)
            && IncompleteOk(schedule, hs);
        Run(if valid then Complete(DocOf(s)) else Refused, load.images + commit.images)
  }

  /** Wherever `collect_episode` is cut short, the image is lawful and holds all
      earlier evidence. */
  lemma CollectSafe(schedule: Schedule, ls: Listing, fs: Image, s: Session)
    requires Lists(ls) && Lawful(schedule, fs) && s.Valid() && s.seed in schedule(s.split)
    ensures Safe(schedule, fs, Collect(ls, schedule, fs, s).images)
  {
    if SplitOk(schedule, fs, s.split, true, false) {
      LoadSettles(schedule, ls, fs, s);
      var load := Load(ls, fs, s);
      if load.outcome == Missing {
        var gs := End(fs, load.images);
        SafeEnd(schedule, fs, load.images);
        CommitSafe(schedule, ls, gs, s);
        SafeThen(schedule, fs, load.images, Commit(ls, gs, s).images);
      }
    }
  }

  /** A half-linked temp makes `collect_episode` refuse its whole split, before
      it could repair anything. */
  lemma CollectStuck(schedule: Schedule, ls: Listing, fs: Image, s: Session)
    requires Lawful(schedule, fs) && HalfAtomic(fs, s.split)
    ensures Collect(ls, schedule, fs, s) == Run(Refused, [])
  {
    SplitAccepts(schedule, fs, s.split);
  }

  /** A half-finished atomic move is a temp half linked. */
  lemma OtherHalfAtomic(schedule: Schedule, fs: Image, n: Name, split: Split)
    requires Lawful(schedule, fs) && OtherHalf(fs, n, AtomicDir(split))
    ensures HalfAtomic(fs, split)
  {
    var c :| Quarantined(fs, c) && DirOf(c) == AtomicDir(split) && Half(fs, c) && !SameFile(fs, c, n);
    var m :| m != c && SameFile(fs, c, m);
    assert SameFile(fs, m, c);
    assert Partners(m, c) || Partners(c, m);
  }

  lemma HalfWasThere(fs: Image, gs: Image, n: Name, c: Name)
    requires TempsSettled(fs, gs) && n.Temp? && c.Atomic? && SameFile(gs, n, c)
    ensures SameFile(fs, n, c)
  {
    assert SameFile(gs, c, n);
  }

  lemma NoHalfAfterRecovery(fs: Image, gs: Image, split: Split)
    requires TempsSettled(fs, gs) && !HalfAtomic(fs, split)
    ensures !HalfAtomic(gs, split)
  {
    if n: Name, c: Name :| n.Temp? && n.target.split == split && c.Atomic? && SameFile(gs, n, c) {
      HalfWasThere(fs, gs, n, c);
    }
  }

  lemma NoHalfAfterSettle(schedule: Schedule, ls: Listing, fs: Image, s: Session)
    requires Lists(ls) && Lawful(schedule, fs) && NoPairTemps(fs, s) && s.Valid() && !HalfAtomic(fs, s.split)
    requires Settle(ls, fs, s).outcome == Missing
    ensures !HalfAtomic(End(fs, Settle(ls, fs, s).images), s.split)
  {
    if Final(s.Queries()) in fs.names {
      SettleSafe(schedule, ls, fs, s);
      SettleLone(schedule, ls, fs, s);
      ParkSafe(schedule, ls, fs, Final(s.Queries()), PartialStemOf(fs, s), s.pid, s.stamp);
      ParkRefusal(schedule, ls, fs, Final(s.Queries()), PartialStemOf(fs, s), s.pid, s.stamp);
      NoHalfAfterMove(fs, End(fs, Settle(ls, fs, s).images), s.Queries(), s.split);
    }
  }

  lemma NoHalfAfterMove(fs: Image, gs: Image, t: Target, split: Split)
    requires Moved(fs, gs, Final(t)) && !HalfAtomic(fs, split)
    ensures !HalfAtomic(gs, split)
  {
    if n: Name, c: Name :| n.Temp? && n.target.split == split && c.Atomic? && SameFile(gs, n, c) {
      assert SameFile(fs, n, c);
    }
  }

  lemma NoHalfAfterLoad(schedule: Schedule, ls: Listing, fs: Image, s: Session)
    requires Lists(ls) && Lawful(schedule, fs) && s.Valid() && !HalfAtomic(fs, s.split)
    requires Load(ls, fs, s).outcome == Missing
    ensures !HalfAtomic(End(fs, Load(ls, fs, s).images), s.split)
  {
    RecoverPairExact(schedule, ls, fs, s);
    RecoverPairSafe(schedule, ls, fs, s);
    var pair := RecoverPair(ls, fs, s);
    var gs := End(fs, pair.images);
    SafeEnd(schedule, fs, pair.images);
    NoHalfAfterRecovery(fs, gs, s.split);
    NoHalfAfterSettle(schedule, ls, gs, s);
    SettleSafe(schedule, ls, gs, s);
    SafeThen(schedule, fs, pair.images, Settle(ls, gs, s).images);
  }

  lemma NoHalfAfterComplete(schedule: Schedule, ls: Listing, fs: Image, s: Session)
    requires Lists(ls) && Lawful(schedule, fs) && s.Valid() && !HalfAtomic(fs, s.split)
    requires Load(ls, fs, s).outcome.Complete?
    ensures !HalfAtomic(End(fs, Load(ls, fs, s).images), s.split)
  {
    RecoverPairExact(schedule, ls, fs, s);
    RecoverPairSafe(schedule, ls, fs, s);
    var pair := RecoverPair(ls, fs, s);
    var gs := End(fs, pair.images);
    SafeEnd(schedule, fs, pair.images);
    NoHalfAfterRecovery(fs, gs, s.split);
    SettleSafe(schedule, ls, gs, s);
    assert Load(ls, fs, s).images == pair.images + [];
    assert pair.images + [] == pair.images;
  }

  /** Publishing only adds a final name on an inode of its own. */
  lemma NoHalfAfterPublish(fs: Image, gs: Image, t: Target, payload: Bytes, split: Split)
    requires Published(fs, gs, t, payload) && !HalfAtomic(fs, split)
    ensures !HalfAtomic(gs, split)
  {
    if n: Name, c: Name :| n.Temp? && n.target.split == split && c.Atomic? && SameFile(gs, n, c) {
      assert SameFile(fs, n, c);
    }
  }

  lemma NoHalfAfterCommit(schedule: Schedule, ls: Listing, fs: Image, s: Session)
    requires Lists(ls) && Lawful(schedule, fs) && s.Valid() && s.seed in schedule(s.split)
    requires Absent(fs, s) && NoPairTemps(fs, s) && !HalfAtomic(fs, s.split)
    ensures !HalfAtomic(End(fs, Commit(ls, fs, s).images), s.split)
  {
    var rows := RowsPayload(s.identity, s.seed, s.rows);
    var doc := DocPayload(s.identity, s.seed, rows);
    PairTemps(fs, s);
    assert MayPublish(fs, s.Queries(), rows);
    WriteNewSafe(schedule, ls, fs, s.Queries(), rows, s.pid, s.stamp);
    var first := WriteNew(ls, fs, s.Queries(), rows, s.pid, s.stamp);
    var gs := End(fs, first.images);
    SafeEnd(schedule, fs, first.images);
    RowsPublished(fs, gs, s);
    WriteNewSafe(schedule, ls, gs, s.Episode(), doc, s.pid, s.stamp);
    var second := WriteNew(ls, gs, s.Episode(), doc, s.pid, s.stamp);
    NoHalfAfterPublish(fs, gs, s.Queries(), rows, s.split);
    NoHalfAfterPublish(gs, End(gs, second.images), s.Episode(), doc, s.split);
    SafeThen(schedule, fs, first.images, second.images);
  }

  /** `collect_episode` run to its end completes exactly when no temp of the split
      is half linked into the atomic quarantine, the rows on disk are its own, and
      neither an unpublished temp of the pair nor its lone query file is blocked.
      It then leaves a settled pair without temps, and no half-linked temp. */
  lemma CollectExact(schedule: Schedule, ls: Listing, fs: Image, s: Session)
    requires Lists(ls) && Lawful(schedule, fs) && s.Valid() && s.seed in schedule(s.split)
    ensures var run := Collect(ls, schedule, fs, s); var gs := End(fs, run.images);
      && (run.outcome.Complete? <==>
            && !HalfAtomic(fs, s.split) && Owned(fs, s) && !LoneBlocked(fs, s)
            && !TempBlocked(fs, s.Episode(), s) && !TempBlocked(fs, s.Queries(), s))
      && (run.outcome.Complete? ==>
            && Settled(gs, s) && NoPairTemps(gs, s) && !HalfAtomic(gs, s.split)
            && Contents(gs, Final(s.Episode())) == [run.outcome.doc])
  {
    SplitAccepts(schedule, fs, s.split);
    if !HalfAtomic(fs, s.split) {
      LoadExact(schedule, ls, fs, s);
      LoadSettles(schedule, ls, fs, s);
      var load := Load(ls, fs, s);
      if load.outcome == Missing {
        var gs := End(fs, load.images);
        SafeEnd(schedule, fs, load.images);
        NoHalfAfterLoad(schedule, ls, fs, s);
        CommitSafe(schedule, ls, gs, s);
        NoHalfAfterCommit(schedule, ls, gs, s);
        var commit := Commit(ls, gs, s);
        SafeEnd(schedule, gs, commit.images);
        SplitAccepts(schedule, End(gs, commit.images), s.split);
        SafeThen(schedule, fs, load.images, commit.images);
      } else if load.outcome.Complete? {
        NoHalfAfterComplete(schedule, ls, fs, s);
      }
    }
  }

  /** A temp of the pair is half linked into the atomic quarantine as `c`. */
  ghost predicate HalfLinked(fs: Image, s: Session, n: Name, c: Name) {
    n.Temp? && SamePair(n.target, s.Episode()) && c.Atomic? && SameFile(fs, n, c)
  }

  lemma OnlyHalf(schedule: Schedule, fs: Image, s: Session, n: Name, c: Name, k: Name)
    requires Lawful(schedule, fs) && HalfLinked(fs, s, n, c)
    requires Quarantined(fs, k) && DirOf(k) == AtomicDir(s.split) && Half(fs, k)
    ensures k == c
  {
    assert Partners(n, c) || Partners(c, n);
    assert SameFile(fs, c, n);
    assert Half(fs, c) && DirOf(c) == AtomicDir(s.split);
  }

  lemma OwnHalfUnblocked(schedule: Schedule, fs: Image, s: Session, n: Name, c: Name, t: Target)
    requires Lawful(schedule, fs) && HalfLinked(fs, s, n, c) && SamePair(t, s.Episode())
    ensures !TempBlocked(fs, t, s)
  {
    forall m | m in fs.names && m.Temp? && m.target == t
      ensures !MoveBlocked(fs, m, TempStem(fs, m), s.pid, s.stamp)
    {
      assert m == n && Quarantined(fs, c);
      forall k | Quarantined(fs, k) && DirOf(k) == AtomicDir(s.split) && Half(fs, k) ensures SameFile(fs, k, m) {
        OnlyHalf(schedule, fs, s, n, c, k);
      }
    }
  }

  lemma OwnHalfRepaired(schedule: Schedule, fs: Image, gs: Image, s: Session, n: Name, c: Name)
    requires Lawful(schedule, fs) && HalfLinked(fs, s, n, c) && TempsSettled(fs, gs) && NoPairTemps(gs, s)
    ensures !HalfAtomic(gs, s.split)
  {
    if m: Name, d: Name :| m.Temp? && m.target.split == s.split && d.Atomic? && SameFile(gs, m, d) {
      assert SameFile(gs, d, m);
      assert d in fs.names && m in fs.names;
      assert SameFile(fs, d, m);
      assert Partners(m, d) || Partners(d, m);
      OnlyHalf(schedule, fs, s, n, c, d);
    }
  }

  /** The refusal is needless: where the half-linked temp belongs to this pair,
      `collect_episode` refuses the split, yet the recovery it never reaches would
      have completed the move and left a split the validator accepts. */
  lemma RefusedYetRepairable(schedule: Schedule, ls: Listing, fs: Image, s: Session, n: Name, c: Name)
    requires Lists(ls) && Lawful(schedule, fs) && s.Valid() && HalfLinked(fs, s, n, c)
    ensures Collect(ls, schedule, fs, s) == Run(Refused, [])
    ensures var run := RecoverPair(ls, fs, s);
      run.outcome == Done && SplitOk(schedule, End(fs, run.images), s.split, true, false)
  {
    CollectStuck(schedule, ls, fs, s);
    OwnHalfUnblocked(schedule, fs, s, n, c, s.Episode());
    OwnHalfUnblocked(schedule, fs, s, n, c, s.Queries());
    RecoverPairExact(schedule, ls, fs, s);
    RecoverPairSafe(schedule, ls, fs, s);
    var gs := End(fs, RecoverPair(ls, fs, s).images);
    SafeEnd(schedule, fs, RecoverPair(ls, fs, s).images);
    OwnHalfRepaired(schedule, fs, gs, s, n, c);
    SplitAccepts(schedule, gs, s.split);
  }
}
