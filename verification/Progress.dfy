/** Exactly when recovery goes through: the only states that stop it are another
    move cut short in the same quarantine directory, and foreign rows. */
module Progress {
  import opened Images
  import opened Law
  import opened Recovery
  import opened Safety
  import opened Convergence

  /** No quarantine entry holds this file. */
  ghost predicate Unparked(fs: Image, n: Name) {
    forall m :: Quarantined(fs, m) ==> !SameFile(fs, n, m)
  }

  /** What stands in the way of a move: another one cut short in the same directory,
      or, for a move not yet begun, that every retry name is taken. */
  ghost predicate MoveBlocked(fs: Image, path: Name, stem: Stem, pid: nat, stamp: nat) {
    OtherHalf(fs, path, StemDir(stem)) || (Unparked(fs, path) && Exhausted(fs, stem, pid, stamp))
  }

  /** `t` has an unpublished temp that cannot be quarantined. */
  ghost predicate TempBlocked(fs: Image, t: Target, s: Session) {
    exists n :: n in fs.names && n.Temp? && n.target == t && Final(t) !in fs.names
      && MoveBlocked(fs, n, TempStem(fs, n), s.pid, s.stamp)
  }

  /** The query file is alone and cannot be quarantined. */
  ghost predicate LoneBlocked(fs: Image, s: Session) {
    && Final(s.Queries()) in fs.names && Final(s.Episode()) !in fs.names
    && MoveBlocked(fs, Final(s.Queries()), PartialStemOf(fs, s), s.pid, s.stamp)
  }

  /** A remnant is refused exactly when its move is blocked. */
  lemma RemnantRefusal(
      schedule: Schedule, ls: Listing, fs: Image, path: Name, stem: Stem, pid: nat, stamp: nat)
    requires Lists(ls) && Lawful(schedule, fs) && IsRemnant(fs, path, stem)
    ensures Park(ls, fs, path, stem, pid, stamp).outcome == Refused <==> MoveBlocked(fs, path, stem, pid, stamp)
  {
    ParkRefusal(schedule, ls, fs, path, stem, pid, stamp);
    if m :| m != path && SameFile(fs, path, m) {
      assert Partners(path, m) || Partners(m, path);
      assert Quarantined(fs, m);
    }
  }

  lemma RecoverExact(schedule: Schedule, ls: Listing, fs: Image, s: Session, t: Target)
    requires Lists(ls) && Lawful(schedule, fs) && s.Valid()
    ensures Recover(ls, fs, t, true, s.pid, s.stamp).outcome == Refused <==> TempBlocked(fs, t, s)
  {
    if NoTemps(fs, t) {
      RecoverNothing(schedule, ls, fs, t, true, s.pid, s.stamp);
    } else if Final(t) in fs.names {
      var _ := RecoverPublished(schedule, ls, fs, t, true, s.pid, s.stamp);
    } else {
      var temp := RecoverRemnant(schedule, ls, fs, t, true, s.pid, s.stamp);
      RemnantRefusal(schedule, ls, fs, temp, TempStem(fs, temp), s.pid, s.stamp);
      forall n | n in fs.names && n.Temp? && n.target == t ensures n == temp {}
    }
  }

  /** `gs` is `fs` with temps gone and atomic quarantine entries added. */
  ghost predicate TempsSettled(fs: Image, gs: Image) {
    && SameContents(fs, gs)
    && (forall n :: n in fs.names && !n.Temp? ==> n in gs.names)
    && (forall n :: n in gs.names && n !in fs.names ==> n.Atomic? && Sole(gs, n))
  }

  lemma RecoverPairExact(schedule: Schedule, ls: Listing, fs: Image, s: Session)
    requires Lists(ls) && Lawful(schedule, fs) && s.Valid()
    ensures var run := RecoverPair(ls, fs, s);
      && (run.outcome == Refused <==> TempBlocked(fs, s.Episode(), s) || TempBlocked(fs, s.Queries(), s))
      && (run.outcome == Refused ==> run.images == [])
      && (run.outcome != Refused ==> TempsSettled(fs, End(fs, run.images)))
  {
    RecoverExact(schedule, ls, fs, s, s.Episode());
    RecoverSafe(schedule, ls, fs, s.Episode(), true, s.pid, s.stamp);
    if NoTemps(fs, s.Episode()) {
      RecoverNothing(schedule, ls, fs, s.Episode(), true, s.pid, s.stamp);
      RecoverExact(schedule, ls, fs, s, s.Queries());
      RecoverSafe(schedule, ls, fs, s.Queries(), true, s.pid, s.stamp);
      var second := Recover(ls, fs, s.Queries(), true, s.pid, s.stamp);
      assert [] + second.images == second.images;
    } else if !TempBlocked(fs, s.Episode(), s) {
      var first := Recover(ls, fs, s.Episode(), true, s.pid, s.stamp);
      var gs := End(fs, first.images);
      SafeEnd(schedule, fs, first.images);
      assert NoTemps(fs, s.Queries()) by { OneTempPerPair(schedule, fs, s); }
      ClearedNoTemps(fs, gs, s.Episode(), s.Queries());
      RecoverNothing(schedule, ls, gs, s.Queries(), true, s.pid, s.stamp);
      assert first.images + [] == first.images;
    }
  }

  lemma OneTempPerPair(schedule: Schedule, fs: Image, s: Session)
    requires Lawful(schedule, fs) && !NoTemps(fs, s.Episode())
    ensures NoTemps(fs, s.Queries())
  {
    var n :| n in fs.names && n.Temp? && n.target == s.Episode();
    forall m | m in fs.names && m.Temp? ensures m.target != s.Queries() {
      assert SamePair(n.target, m.target) ==> n == m;
    }
  }

  lemma PartialHalfCarries(schedule: Schedule, fs: Image, gs: Image, n: Name)
    requires Lawful(schedule, fs) && Lawful(schedule, gs) && TempsSettled(fs, gs)
    requires n.Partial? && n in fs.names
    ensures Half(fs, n) <==> Half(gs, n)
  {
    if m :| m != n && SameFile(fs, n, m) {
      assert Partners(n, m) || Partners(m, n);
      assert SameFile(gs, n, m);
    }
    if m :| m != n && SameFile(gs, n, m) {
      assert Partners(n, m) || Partners(m, n);
      assert SameFile(fs, n, m);
    }
  }

  lemma LoneCarries(schedule: Schedule, fs: Image, gs: Image, s: Session)
    requires Lawful(schedule, fs) && Lawful(schedule, gs) && TempsSettled(fs, gs)
    ensures Owned(fs, s) <==> Owned(gs, s)
    ensures LoneBlocked(fs, s) <==> LoneBlocked(gs, s)
  {
    forall n: Name | n.Partial? && n in fs.names
      ensures n in gs.names && (Half(fs, n) <==> Half(gs, n))
      ensures SameFile(fs, n, Final(s.Queries())) <==> SameFile(gs, n, Final(s.Queries()))
    {
      PartialHalfCarries(schedule, fs, gs, n);
    }
    forall n | Quarantined(fs, n) && DirOf(n) == PartialDir(s.split) ensures n.Partial? {}
    forall n | Quarantined(gs, n) && DirOf(n) == PartialDir(s.split) ensures n.Partial? && n in fs.names {}
    UnparkedCarries(schedule, fs, gs, Final(s.Queries()));
    if Final(s.Queries()) in fs.names { ExhaustedCarries(fs, gs, PartialStemOf(fs, s), s.pid, s.stamp); }
  }

  lemma UnparkedCarries(schedule: Schedule, fs: Image, gs: Image, q: Name)
    requires Lawful(schedule, fs) && Lawful(schedule, gs) && TempsSettled(fs, gs) && q.Final?
    ensures q in fs.names ==> (Unparked(fs, q) <==> Unparked(gs, q))
  {
    if q in fs.names {
      if m :| Quarantined(fs, m) && SameFile(fs, q, m) {
        assert SameFile(gs, q, m);
      }
      if m :| Quarantined(gs, m) && SameFile(gs, q, m) {
        assert Partners(q, m) || Partners(m, q);
        assert SameFile(fs, q, m);
      }
    }
  }

  /** Recovering temps takes no name that a query file could be quarantined under. */
  lemma ExhaustedCarries(fs: Image, gs: Image, stem: Stem, pid: nat, stamp: nat)
    requires TempsSettled(fs, gs) && stem.PartialStem?
    ensures Exhausted(fs, stem, pid, stamp) <==> Exhausted(gs, stem, pid, stamp)
  {
    forall k ensures Entered(stem, Tag(pid, stamp, k)) in fs.names <==> Entered(stem, Tag(pid, stamp, k)) in gs.names {}
  }

  lemma SettleExact(schedule: Schedule, ls: Listing, fs: Image, s: Session)
    requires Lists(ls) && Lawful(schedule, fs) && NoPairTemps(fs, s) && s.Valid()
    ensures Settle(ls, fs, s).outcome == Refused <==> !Owned(fs, s) || LoneBlocked(fs, s)
  {
    if Final(s.Episode()) in fs.names {
      InspectMeaning(schedule, fs, s);
    } else if Final(s.Queries()) in fs.names {
      SettleLone(schedule, ls, fs, s);
      if Owned(fs, s) {
        RemnantRefusal(schedule, ls, fs, Final(s.Queries()), PartialStemOf(fs, s), s.pid, s.stamp);
      }
    }
  }

  /** `_load_complete` is refused exactly when an unpublished temp of the pair, or its
      lone query file, cannot be moved, because another move was cut short in the
      quarantine directory it must go to or no retry name is free there, or the rows
      on disk belong to another collector. */
  lemma LoadExact(schedule: Schedule, ls: Listing, fs: Image, s: Session)
    requires Lists(ls) && Lawful(schedule, fs) && s.Valid()
    ensures Load(ls, fs, s).outcome == Refused <==>
      TempBlocked(fs, s.Episode(), s) || TempBlocked(fs, s.Queries(), s) || LoneBlocked(fs, s) || !Owned(fs, s)
  {
    RecoverPairExact(schedule, ls, fs, s);
    RecoverPairSafe(schedule, ls, fs, s);
    var pair := RecoverPair(ls, fs, s);
    if pair.outcome != Refused {
      var gs := End(fs, pair.images);
      SafeEnd(schedule, fs, pair.images);
      LoneCarries(schedule, fs, gs, s);
      SettleExact(schedule, ls, gs, s);
    }
  }
}
