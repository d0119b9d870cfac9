/** Convergence of a whole split: one uncut invocation per seed settles every pair. */
module Splits {
  import opened Images
  import opened Law
  import opened Recovery
  import opened Safety
  import opened Convergence
  import opened Validators
  import opened Progress
  import opened Sessions
  import opened Locality

  /** One invocation that runs to its end. */
  datatype Call = Call(ls: Listing, session: Session)

  ghost function Finish(schedule: Schedule, fs: Image, c: Call): Image {
    End(fs, Collect(c.ls, schedule, fs, c.session).images)
  }

  ghost function FinishAll(schedule: Schedule, fs: Image, calls: seq<Call>): Image
    decreases |calls|
  {
    if calls == [] then fs else FinishAll(schedule, Finish(schedule, fs, calls[0]), calls[1..])
  }

  /** There is a retry name left for whatever of this pair has to be quarantined. */
  ghost predicate Roomy(fs: Image, s: Session) {
    && (forall n :: n in fs.names && n.Temp? && SamePair(n.target, s.Episode()) ==>
          !Exhausted(fs, TempStem(fs, n), s.pid, s.stamp))
    && (Final(s.Queries()) in fs.names ==> !Exhausted(fs, PartialStemOf(fs, s), s.pid, s.stamp))
  }

  ghost predicate Ready(schedule: Schedule, fs: Image, split: Split, c: Call) {
    && Lists(c.ls) && c.session.Valid() && c.session.split == split && c.session.seed in schedule(split)
    && Owned(fs, c.session) && Roomy(fs, c.session)
  }

  ghost predicate HalfPartial(fs: Image, split: Split, n: Name) {
    n in fs.names && n.Partial? && n.target.split == split && Half(fs, n)
  }

  /** Every query file that is half quarantined is that of `seed`. */
  ghost predicate HalvesOf(fs: Image, split: Split, seed: nat) {
    forall n :: HalfPartial(fs, split, n) ==> n.target.seed == seed
  }

  /** The pair is settled and has no temp. */
  ghost predicate PairDone(fs: Image, split: Split, seed: nat) {
    && PristinePair(fs, split, seed)
    && forall n :: n in fs.names && n.Temp? ==> !Beside(n, split, seed)
  }

  lemma HalfIsLone(schedule: Schedule, fs: Image, split: Split, n: Name)
    requires Lawful(schedule, fs) && HalfPartial(fs, split, n)
    ensures SameFile(fs, n, Final(n.target)) && n.target.kind == Kind.Queries
  {
    var m :| m != n && SameFile(fs, n, m);
    assert Partners(m, n) || Partners(n, m);
    assert NameLaw(schedule, fs, n);
  }

  /** With a retry name left, and the only half-finished query move its own, nothing
      blocks the pair. */
  lemma ReadyUnblocked(schedule: Schedule, fs: Image, split: Split, c: Call)
    requires Lawful(schedule, fs) && !HalfAtomic(fs, split) && Ready(schedule, fs, split, c)
    requires HalvesOf(fs, split, c.session.seed)
    ensures var s := c.session;
      !LoneBlocked(fs, s) && !TempBlocked(fs, s.Episode(), s) && !TempBlocked(fs, s.Queries(), s)
  {
    var s := c.session;
    forall n | n in fs.names && n.Temp? && SamePair(n.target, s.Episode())
      ensures !MoveBlocked(fs, n, TempStem(fs, n), s.pid, s.stamp)
    {
      if OtherHalf(fs, n, AtomicDir(split)) { OtherHalfAtomic(schedule, fs, n, split); }
    }
    var q := Final(s.Queries());
    if q in fs.names && OtherHalf(fs, q, PartialDir(split)) {
      var n :| Quarantined(fs, n) && DirOf(n) == PartialDir(split) && Half(fs, n) && !SameFile(fs, n, q);
      assert HalfPartial(fs, split, n);
      HalfIsLone(schedule, fs, split, n);
    }
  }

  /** One invocation settles its pair and leaves no move of the split half finished. */
  lemma FinishSettles(schedule: Schedule, fs: Image, split: Split, c: Call)
    requires Lawful(schedule, fs) && !HalfAtomic(fs, split) && Ready(schedule, fs, split, c)
    requires HalvesOf(fs, split, c.session.seed)
    ensures var gs := Finish(schedule, fs, c);
      && Lawful(schedule, gs) && !HalfAtomic(gs, split) && Reaches(fs, gs, c.session)
      && PairDone(gs, split, c.session.seed)
  {
    var s := c.session;
    ReadyUnblocked(schedule, fs, split, c);
    CollectExact(schedule, c.ls, fs, s);
    CollectSafe(schedule, c.ls, fs, s);
    CollectReaches(schedule, c.ls, fs, s);
    SameReaches(fs, s);
    var images := Collect(c.ls, schedule, fs, s).images;
    SafeEnd(schedule, fs, images);
    var gs := Finish(schedule, fs, c);
    assert s.Episode() == Target(split, s.seed, Kind.Episode) && s.Queries() == Target(split, s.seed, Kind.Queries);
    forall n | n in gs.names && n.Temp? ensures !Beside(n, split, s.seed) {
      assert n.target.kind == Kind.Episode || n.target.kind == Kind.Queries;
    }
  }

  lemma HalfWas(fs: Image, gs: Image, split: Split, seed: nat, n: Name)
    requires Elsewhere(fs, gs, split, seed) && HalfPartial(gs, split, n) && n.target.seed != seed
    requires SameFile(gs, n, Final(n.target))
    ensures HalfPartial(fs, split, n)
  {
    assert !Beside(n, split, seed) && !Beside(Final(n.target), split, seed);
    assert SameFile(fs, n, Final(n.target));
  }

  lemma NoHalfAfterFinish(schedule: Schedule, fs: Image, gs: Image, split: Split, seed: nat, n: Name)
    requires Lawful(schedule, fs) && Lawful(schedule, gs) && HalvesOf(fs, split, seed)
    requires Elsewhere(fs, gs, split, seed) && PairDone(gs, split, seed)
    ensures !HalfPartial(gs, split, n)
  {
    if HalfPartial(gs, split, n) {
      HalfIsLone(schedule, gs, split, n);
      var q := Final(n.target);
      assert SameFile(gs, q, n) && q == Final(Target(split, n.target.seed, Kind.Queries));
      if n.target.seed != seed { HalfWas(fs, gs, split, seed, n); }
    }
  }

  lemma SoleKept(fs: Image, gs: Image, s: Session, t: Target)
    requires LinksLaw(gs) && Elsewhere(fs, gs, s.split, s.seed) && t.seed != s.seed && Sole(fs, Final(t))
    ensures Sole(gs, Final(t))
  {
    forall m | SameFile(gs, Final(t), m) ensures m == Final(t) {
      assert m == Final(t) || Partners(Final(t), m) || Partners(m, Final(t));
      assert SameFile(fs, Final(t), m);
    }
  }

  /** Other pairs stay settled and stay ready. */
  lemma DoneKept(schedule: Schedule, fs: Image, gs: Image, s: Session, split: Split, seed: nat)
    requires Lawful(schedule, gs) && Reaches(fs, gs, s) && s.split == split && s.seed != seed
    requires PairDone(fs, split, seed)
    ensures PairDone(gs, split, seed)
  {
    SoleKept(fs, gs, s, Target(split, seed, Kind.Episode));
    SoleKept(fs, gs, s, Target(split, seed, Kind.Queries));
  }

  lemma ReadyKept(schedule: Schedule, fs: Image, gs: Image, s: Session, split: Split, c: Call)
    requires Reaches(fs, gs, s) && s.split == split && s.seed != c.session.seed
    requires Ready(schedule, fs, split, c)
    ensures Ready(schedule, gs, split, c)
  {
    var r := c.session;
    forall stem: Stem | Beside(Final(stem.target), split, r.seed)
      ensures Exhausted(gs, stem, r.pid, r.stamp) <==> Exhausted(fs, stem, r.pid, r.stamp)
    {
      forall k
          ensures Entered(stem, Tag(r.pid, r.stamp, k)) in gs.names
            <==> Entered(stem, Tag(r.pid, r.stamp, k)) in fs.names {
        assert !Beside(Entered(stem, Tag(r.pid, r.stamp, k)), split, s.seed);
      }
    }
    forall n | n in gs.names && n.Temp? && SamePair(n.target, r.Episode())
      ensures !Exhausted(gs, TempStem(gs, n), r.pid, r.stamp)
    {
      assert !Beside(n, split, s.seed);
      assert TempStem(gs, n) == TempStem(fs, n);
    }
    assert !Beside(Final(r.Queries()), split, s.seed);
  }

  ghost predicate AllReady(schedule: Schedule, fs: Image, split: Split, calls: seq<Call>) {
    && (forall i :: 0 <= i < |calls| ==> Ready(schedule, fs, split, calls[i]))
    && (forall i, j :: 0 <= i < j < |calls| ==> calls[i].session.seed != calls[j].session.seed)
  }

  /** The pair is settled, or one of the calls is for it. */
  ghost predicate Covered(fs: Image, split: Split, calls: seq<Call>, seed: nat) {
    PairDone(fs, split, seed) || exists i :: 0 <= i < |calls| && calls[i].session.seed == seed
  }

  ghost predicate Collectable(schedule: Schedule, fs: Image, split: Split, calls: seq<Call>) {
    && Lawful(schedule, fs) && !HalfAtomic(fs, split) && AllReady(schedule, fs, split, calls)
    && (calls != [] ==> HalvesOf(fs, split, calls[0].session.seed))
  }

  lemma FinishStep(schedule: Schedule, fs: Image, split: Split, calls: seq<Call>)
    requires calls != [] && Collectable(schedule, fs, split, calls)
    ensures Collectable(schedule, Finish(schedule, fs, calls[0]), split, calls[1..])
  {
    var c, rest := calls[0], calls[1..];
    var gs := Finish(schedule, fs, c);
    FinishSettles(schedule, fs, split, c);
    forall i | 0 <= i < |rest| ensures Ready(schedule, gs, split, rest[i]) {
      assert rest[i] == calls[i + 1];
      ReadyKept(schedule, fs, gs, c.session, split, rest[i]);
    }
    forall n ensures !HalfPartial(gs, split, n) { NoHalfAfterFinish(schedule, fs, gs, split, c.session.seed, n); }
  }

  lemma CoveredStep(schedule: Schedule, fs: Image, split: Split, calls: seq<Call>, seed: nat)
    requires calls != [] && Collectable(schedule, fs, split, calls) && Covered(fs, split, calls, seed)
    ensures Covered(Finish(schedule, fs, calls[0]), split, calls[1..], seed)
  {
    var c := calls[0];
    FinishSettles(schedule, fs, split, c);
    if c.session.seed != seed {
      if PairDone(fs, split, seed) {
        DoneKept(schedule, fs, Finish(schedule, fs, c), c.session, split, seed);
      } else {
        var i :| 0 <= i < |calls| && calls[i].session.seed == seed;
        assert calls[1..][i - 1].session.seed == seed;
      }
    }
  }

  /** One invocation after another: every pair called for ends settled, and so does
      every pair that was. */
  lemma {:induction false} FinishAllSettles(
      schedule: Schedule, fs: Image, split: Split, calls: seq<Call>, seeds: set<nat>)
    requires Collectable(schedule, fs, split, calls)
    requires forall seed <- seeds :: Covered(fs, split, calls, seed)
    ensures Lawful(schedule, FinishAll(schedule, fs, calls))
    ensures forall seed <- seeds :: PairDone(FinishAll(schedule, fs, calls), split, seed)
    decreases |calls|
  {
    if calls != [] {
      FinishStep(schedule, fs, split, calls);
      forall seed <- seeds ensures Covered(Finish(schedule, fs, calls[0]), split, calls[1..], seed) {
        CoveredStep(schedule, fs, split, calls, seed);
      }
      FinishAllSettles(schedule, Finish(schedule, fs, calls[0]), split, calls[1..], seeds);
    }
  }

  /** From any disk that crashes can leave, other than with a temp half linked into
      the atomic quarantine, one uncut invocation per seed makes the split complete:
      the pair whose query file is half quarantined goes first, and the rows on disk
      are the invocations' own.  The strict validator then accepts the split. */
  lemma SplitConverges(schedule: Schedule, fs: Image, split: Split, calls: seq<Call>)
    requires Collectable(schedule, fs, split, calls)
    requires forall seed <- schedule(split) :: exists i :: 0 <= i < |calls| && calls[i].session.seed == seed
    ensures var gs := FinishAll(schedule, fs, calls);
      Pristine(schedule, gs, split) && SplitOk(schedule, gs, split, false, true)
  {
    var gs := FinishAll(schedule, fs, calls);
    FinishAllSettles(schedule, fs, split, calls, schedule(split));
    forall n | n in gs.names && n.Temp? ensures n.target.split != split {
      assert NameLaw(schedule, gs, n);
      if n.target.split == split {
        assert PairDone(gs, split, n.target.seed);
        assert Beside(n, split, n.target.seed);
      }
    }
    CompleteAccepts(schedule, gs, split);
  }
}
