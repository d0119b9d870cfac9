/** The two validators that decide which on-disk states are legal, and exactly
    which states the collector can leave behind they accept. */
module Validators {
  import opened Images
  import opened Law
  import opened Recovery
  import opened Safety
  import opened Convergence

  /** The files of the split directory that share `c`'s inode. */
  function Sources(fs: Image, c: Name, split: Split): set<Name> {
    set n <- fs.names | DirOf(n) == SplitDir(split) && SameFile(fs, n, c)
  }

  /** The name a half-finished move must still have in the split directory. */
  predicate IsSourceOf(n: Name, c: Name) {
    match c
    case Atomic(t, _, _) => n.Temp? && n.target == t
    case Partial(t, _, _, _) => n == Final(t)
    case _ => false
  }

  /** The body of the inner loop of `_validate_collection_incomplete`. */
  predicate QuarantineOk(schedule: Schedule, fs: Image, c: Name)
    requires c in fs.names
  {
    && ValidEntry(fs, c)
    && c.target.seed in schedule(c.target.split)
    && (c.Partial? ==>
          if c.target.kind == Kind.Queries then OwnsPartial(Contents(fs, c), Kind.Queries, c.identity)
          else |Contents(fs, c)| == 1 && OwnedBy(Contents(fs, c)[0], c.identity))
    && (|| Nlink(fs, c) == 1
        || (&& Nlink(fs, c) == 2
            && |Sources(fs, c, c.target.split)| == 1
            && forall n <- Sources(fs, c, c.target.split) :: IsSourceOf(n, c)))
  }

  predicate InQuarantine(n: Name) { !DirOf(n).SplitDir? }

  /** `_validate_collection_incomplete` */
  ghost predicate IncompleteOk(schedule: Schedule, fs: Image) {
    forall c <- fs.names :: InQuarantine(c) ==> QuarantineOk(schedule, fs, c)
  }

  /** The writer temps of `t` that share its inode. */
  function TempsOfFinal(fs: Image, t: Target): set<Name> {
    set n <- fs.names | n.Temp? && n.target == t && SameFile(fs, n, Final(t))
  }

  function PartialsOfFinal(fs: Image, t: Target): set<Name> {
    set n <- fs.names | DirOf(n) == PartialDir(t.split) && SameFile(fs, n, Final(t))
  }

  predicate FinalOk(fs: Image, t: Target)
    requires Final(t) in fs.names
  {
    || Nlink(fs, Final(t)) == 1
    || (&& Nlink(fs, Final(t)) == 2
        && (|TempsOfFinal(fs, t)| == 1 || |PartialsOfFinal(fs, t)| == 1)
        && (TempsOfFinal(fs, t) == {} || PartialsOfFinal(fs, t) == {}))
  }

  predicate TempOk(fs: Image, n: Name)
    requires n in fs.names && n.Temp?
  {
    || Nlink(fs, n) == 1
    || (Nlink(fs, n) == 2 && SameFile(fs, n, Final(n.target)))
  }

  /** One directory entry, as the loops at lines 1431-1493 judge it. */
  predicate SplitEntryOk(schedule: Schedule, fs: Image, n: Name, allowTemps: bool)
    requires n in fs.names
  {
    match n
    case Final(t) => t.seed in schedule(t.split) && FinalOk(fs, t)
    case Temp(t, _, _) => t.seed in schedule(t.split) && allowTemps && TempOk(fs, n)
    case _ => false
  }

  ghost predicate CompleteSplit(schedule: Schedule, fs: Image, split: Split) {
    forall seed <- schedule(split) ::
      Final(Target(split, seed, Kind.Episode)) in fs.names && Final(Target(split, seed, Kind.Queries)) in fs.names
  }

  /** `_validate_collection_split` */
  ghost predicate SplitOk(schedule: Schedule, fs: Image, split: Split, allowTemps: bool, complete: bool) {
    && IncompleteOk(schedule, fs)
    && (forall n <- fs.names :: DirOf(n) == SplitDir(split) ==> SplitEntryOk(schedule, fs, n, allowTemps))
    && (complete ==> CompleteSplit(schedule, fs, split))
  }

  /** A writer temp has been linked into `_incomplete/_atomic` but still has its
      own name: the window between lines 1108 and 1115. */
  ghost predicate HalfAtomic(fs: Image, split: Split) {
    exists n: Name, c: Name :: n.Temp? && n.target.split == split && c.Atomic? && SameFile(fs, n, c)
  }

  /** `_validate_collection_incomplete` accepts every state a crash can leave. */
  lemma IncompleteAccepts(schedule: Schedule, fs: Image)
    requires Lawful(schedule, fs)
    ensures IncompleteOk(schedule, fs)
  {
    forall c <- fs.names | InQuarantine(c) ensures QuarantineOk(schedule, fs, c) {
      QuarantineAccepts(schedule, fs, c);
    }
  }

  lemma QuarantineAccepts(schedule: Schedule, fs: Image, c: Name)
    requires Lawful(schedule, fs) && c in fs.names && InQuarantine(c)
    ensures QuarantineOk(schedule, fs, c)
  {
    assert NameLaw(schedule, fs, c);
    LawLinks(schedule, fs, c);
    if !Sole(fs, c) {
      var m :| m != c && SameFile(fs, c, m);
      LawTwin(schedule, fs, c, m);
      assert SameFile(fs, m, c);
      SourceIs(schedule, fs, c, m);
    }
  }

  lemma SourceIs(schedule: Schedule, fs: Image, c: Name, m: Name)
    requires Lawful(schedule, fs) && Twin(fs, c, m) && (c.Atomic? || c.Partial?)
    ensures Sources(fs, c, c.target.split) == {m} && IsSourceOf(m, c)
  {
    assert NameLaw(schedule, fs, c);
    assert Partners(m, c) || Partners(c, m);
    forall n | n in Sources(fs, c, c.target.split) ensures n == m { assert SameFile(fs, c, n); }
    assert SameFile(fs, m, c);
  }

  /** A published artifact always passes, even half quarantined. */
  lemma FinalAccepts(schedule: Schedule, fs: Image, t: Target)
    requires Lawful(schedule, fs) && Final(t) in fs.names
    ensures FinalOk(fs, t)
  {
    var final := Final(t);
    LawLinks(schedule, fs, final);
    if !Sole(fs, final) {
      var m :| m != final && SameFile(fs, final, m);
      LawTwin(schedule, fs, final, m);
      assert NameLaw(schedule, fs, m);
      assert SameFile(fs, m, final);
      assert Partners(m, final) || Partners(final, m);
      forall n | SameFile(fs, n, final) ensures n in {m, final} { assert SameFile(fs, final, n); }
      if m.Temp? {
        assert TempsOfFinal(fs, t) == {m} && PartialsOfFinal(fs, t) == {};
      } else {
        assert TempsOfFinal(fs, t) == {} && PartialsOfFinal(fs, t) == {m};
      }
    }
  }

  /** A temp passes unless it is half linked into the atomic quarantine. */
  lemma TempAccepts(schedule: Schedule, fs: Image, n: Name)
    requires Lawful(schedule, fs) && n in fs.names && n.Temp?
    ensures TempOk(fs, n) <==> !exists c: Name :: c.Atomic? && SameFile(fs, n, c)
  {
    LawLinks(schedule, fs, n);
    if c: Name :| c.Atomic? && SameFile(fs, n, c) {
      LawTwin(schedule, fs, n, c);
    } else if !Sole(fs, n) {
      var m :| m != n && SameFile(fs, n, m);
      assert Partners(n, m) || Partners(m, n);
    }
  }

  /** With temps allowed and completeness not required,
      `_validate_collection_split` accepts exactly the states without a temp
      half linked into the atomic quarantine. */
  lemma SplitAccepts(schedule: Schedule, fs: Image, split: Split)
    requires Lawful(schedule, fs)
    ensures SplitOk(schedule, fs, split, true, false) <==> !HalfAtomic(fs, split)
  {
    IncompleteAccepts(schedule, fs);
    forall n <- fs.names | DirOf(n) == SplitDir(split)
      ensures SplitEntryOk(schedule, fs, n, true) <==> !(n.Temp? && exists c: Name :: c.Atomic? && SameFile(fs, n, c))
    {
      assert NameLaw(schedule, fs, n);
      if n.Final? { FinalAccepts(schedule, fs, n.target); } else { TempAccepts(schedule, fs, n); }
    }
  }

  /** Every pair of the split is committed, and nothing is half done. */
  ghost predicate Pristine(schedule: Schedule, fs: Image, split: Split) {
    && (forall n :: n in fs.names && n.Temp? ==> n.target.split != split)
    && forall seed <- schedule(split) :: PristinePair(fs, split, seed)
  }

  /** Without temps and with completeness required it accepts exactly the splits
      in which every seed has a settled pair. */
  lemma CompleteAccepts(schedule: Schedule, fs: Image, split: Split)
    requires Lawful(schedule, fs)
    ensures SplitOk(schedule, fs, split, false, true) <==> Pristine(schedule, fs, split)
  {
    IncompleteAccepts(schedule, fs);
    forall n <- fs.names | DirOf(n) == SplitDir(split) ensures SplitEntryOk(schedule, fs, n, false) <==> !n.Temp? {
      assert NameLaw(schedule, fs, n);
      if n.Final? { FinalAccepts(schedule, fs, n.target); }
    }
    if forall n :: n in fs.names && n.Temp? ==> n.target.split != split {
      forall seed <- schedule(split) | Final(Target(split, seed, Kind.Episode)) in fs.names
        ensures PristinePair(fs, split, seed)
      {
        CommittedPristine(schedule, fs, split, seed);
      }
    }
  }

  ghost predicate PristinePair(fs: Image, split: Split, seed: nat) {
    var e, q := Final(Target(split, seed, Kind.Episode)), Final(Target(split, seed, Kind.Queries));
    && Sole(fs, e) && Sole(fs, q)
    && IsRows(seed, Contents(fs, q))
    && Contents(fs, e) == DocPayload(Contents(fs, q)[0].owner, seed, Contents(fs, q))
  }

  lemma CommittedPristine(schedule: Schedule, fs: Image, split: Split, seed: nat)
    requires Lawful(schedule, fs) && Final(Target(split, seed, Kind.Episode)) in fs.names
    requires forall n :: n in fs.names && n.Temp? ==> n.target.split != split
    ensures PristinePair(fs, split, seed)
  {
    var e := Final(Target(split, seed, Kind.Episode));
    var q := Final(Target(split, seed, Kind.Queries));
    assert Committed(fs, e.target);
    assert QueriesOf(e.target) == q.target;
    var owner := Contents(fs, q)[0].owner;
    var s := Session(split, seed, owner, 1, 1, 1);
    assert s.Episode() == e.target && s.Queries() == q.target;
    InspectMeaning(schedule, fs, s);
  }
}
