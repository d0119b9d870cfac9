/** What the two validators accept and refuse, for every image, lawful or not:
    conditions on names, inodes and contents alone. */
module Verdicts {
  import opened Images
  import opened Law
  import opened Recovery
  import opened Validators

  lemma TwoOfTwo<T>(s: set<T>, a: T) returns (b: T)
    requires a in s && |s| == 2
    ensures a != b && s == {a, b}
  {
    var rest := s - {a};
    assert |rest| == 1;
    b :| b in rest;
    assert |rest - {b}| == 0;
    assert s == {a, b};
  }

  lemma OneOfOne<T>(s: set<T>, a: T)
    requires a in s && |s| == 1
    ensures s == {a}
  {
    assert |s - {a}| == 0;
  }

  /** A link count of two means exactly one other name. */
  lemma TwoNames(fs: Image, n: Name)
    requires n in fs.names
    ensures Nlink(fs, n) == 2 <==> exists m :: Twin(fs, n, m)
  {
    if Nlink(fs, n) == 2 {
      var s := NamesOf(fs, fs.names[n]);
      var m := TwoOfTwo(s, n);
      assert m in s;
      assert Twin(fs, n, m) by {
        forall k | SameFile(fs, n, k) ensures k == n || k == m { assert k in s; }
      }
    }
    if m :| Twin(fs, n, m) { TwinLinks(fs, n, m); }
  }

  /** The name that a half-finished move into quarantine has not yet lost. */
  ghost predicate StillNamed(fs: Image, c: Name, m: Name) {
    && Twin(fs, c, m)
    && if c.Atomic? then m.Temp? && m.target == c.target else c.Partial? && m == Final(c.target)
  }

  /** A whole piece of evidence: named after its bytes and after a scheduled
      artifact, owned by the collector it names, linked from nowhere else than
      the artifact it is being moved from. */
  ghost predicate Evidence(schedule: Schedule, fs: Image, c: Name)
    requires c in fs.names
  {
    && (c.Atomic? || c.Partial?)
    && c.tag.pid > 0 && c.tag.stamp > 0
    && c.digest == Sha256(Contents(fs, c))
    && c.target.seed in schedule(c.target.split)
    && (c.Partial? ==>
          && Contents(fs, c) != []
          && (c.target.kind == Kind.Episode ==> |Contents(fs, c)| == 1)
          && forall line <- Contents(fs, c) :: !line.Torn? && line.owner == c.identity)
    && (Sole(fs, c) || exists m :: StillNamed(fs, c, m))
  }

  lemma LinksExact(fs: Image, c: Name)
    requires c in fs.names && (c.Atomic? || c.Partial?)
    ensures (|| Nlink(fs, c) == 1
             || (&& Nlink(fs, c) == 2
                 && |Sources(fs, c, c.target.split)| == 1
                 && forall n <- Sources(fs, c, c.target.split) :: IsSourceOf(n, c)))
      <==> (Sole(fs, c) || exists m :: StillNamed(fs, c, m))
  {
    SoleLinks(fs, c);
    TwoNames(fs, c);
    if m :| Twin(fs, c, m) {
      SourcesOfTwin(fs, c, m);
      assert IsSourceOf(m, c) && DirOf(m) == SplitDir(c.target.split) <==> StillNamed(fs, c, m);
      forall k | StillNamed(fs, c, k) ensures k == m { assert SameFile(fs, c, k); }
    }
  }

  lemma SourcesOfTwin(fs: Image, c: Name, m: Name)
    requires Twin(fs, c, m) && (c.Atomic? || c.Partial?)
    ensures Sources(fs, c, c.target.split) == if DirOf(m) == SplitDir(c.target.split) then {m} else {}
  {
    forall n | SameFile(fs, n, c) ensures n == c || n == m { assert SameFile(fs, c, n); }
    assert SameFile(fs, m, c);
  }

  lemma EntryExact(schedule: Schedule, fs: Image, c: Name)
    requires c in fs.names
    ensures QuarantineOk(schedule, fs, c) <==> Evidence(schedule, fs, c)
  {
    if c.Atomic? || c.Partial? { LinksExact(fs, c); }
  }

  /** `_validate_collection_incomplete` accepts an image exactly when everything
      in quarantine is evidence. */
  lemma IncompleteExact(schedule: Schedule, fs: Image)
    ensures IncompleteOk(schedule, fs) <==>
      forall c <- fs.names :: !DirOf(c).SplitDir? ==> Evidence(schedule, fs, c)
  {
    forall c <- fs.names ensures QuarantineOk(schedule, fs, c) <==> Evidence(schedule, fs, c) {
      EntryExact(schedule, fs, c);
    }
  }

  /** A published artifact that is not in the middle of anything but its own
      publication or its own quarantine. */
  ghost predicate PublishedWell(fs: Image, t: Target) {
    var final := Final(t);
    || Sole(fs, final)
    || exists m :: Twin(fs, final, m) && ((m.Temp? && m.target == t) || DirOf(m) == PartialDir(t.split))
  }

  /** A writer temp that is unpublished, or the other name of the published artifact. */
  ghost predicate WrittenWell(fs: Image, n: Name) {
    Sole(fs, n) || (n.Temp? && Twin(fs, n, Final(n.target)))
  }

  /** An entry that belongs in a split directory. */
  ghost predicate Belongs(schedule: Schedule, fs: Image, n: Name, allowTemps: bool) {
    && (n.Final? || n.Temp?)
    && n.target.seed in schedule(n.target.split)
    && if n.Final? then PublishedWell(fs, n.target) else allowTemps && WrittenWell(fs, n)
  }

  lemma FinalExact(fs: Image, t: Target)
    requires Final(t) in fs.names
    ensures FinalOk(fs, t) <==> PublishedWell(fs, t)
  {
    var final := Final(t);
    SoleLinks(fs, final);
    TwoNames(fs, final);
    forall m | Twin(fs, final, m)
      ensures TempsOfFinal(fs, t) == if m.Temp? && m.target == t then {m} else {}
      ensures PartialsOfFinal(fs, t) == if DirOf(m) == PartialDir(t.split) then {m} else {}
    {
      forall n | SameFile(fs, n, final) ensures n == final || n == m { assert SameFile(fs, final, n); }
      assert SameFile(fs, m, final);
    }
  }

  lemma TempExact(fs: Image, n: Name)
    requires n in fs.names && n.Temp?
    ensures TempOk(fs, n) <==> WrittenWell(fs, n)
  {
    SoleLinks(fs, n);
    TwoNames(fs, n);
  }

  /** `_validate_collection_split` accepts an image exactly when everything in
      quarantine is evidence, every entry of the split belongs there, and, if
      completeness is required, both artifacts of every scheduled seed exist. */
  lemma SplitExact(schedule: Schedule, fs: Image, split: Split, allowTemps: bool, complete: bool)
    ensures SplitOk(schedule, fs, split, allowTemps, complete) <==>
      && (forall c <- fs.names :: !DirOf(c).SplitDir? ==> Evidence(schedule, fs, c))
      && (forall n <- fs.names :: DirOf(n) == SplitDir(split) ==> Belongs(schedule, fs, n, allowTemps))
      && (complete ==> forall seed <- schedule(split), kind: Kind :: Final(Target(split, seed, kind)) in fs.names)
  {
    IncompleteExact(schedule, fs);
    forall n <- fs.names ensures SplitEntryOk(schedule, fs, n, allowTemps) <==> Belongs(schedule, fs, n, allowTemps) {
      if n.Final? { FinalExact(fs, n.target); } else if n.Temp? { TempExact(fs, n); }
    }
    CompleteExact(schedule, fs, split);
  }

  lemma CompleteExact(schedule: Schedule, fs: Image, split: Split)
    ensures CompleteSplit(schedule, fs, split) <==>
      forall seed <- schedule(split), kind: Kind :: Final(Target(split, seed, kind)) in fs.names
  {
    if CompleteSplit(schedule, fs, split) {
      forall seed <- schedule(split), kind: Kind ensures Final(Target(split, seed, kind)) in fs.names {
        if kind == Kind.Episode {}
      }
    }
  }

  /** Named after its own bytes. */
  ghost predicate Named(fs: Image, c: Name) {
    && c in fs.names && (c.Atomic? || c.Partial?)
    && c.tag.pid > 0 && c.tag.stamp > 0
    && c.digest == Sha256(Contents(fs, c))
  }

  /** Evidence of something else, at rest. */
  ghost predicate Unrelated(fs: Image, c: Name, path: Name) {
    Named(fs, c) && Sole(fs, c) && !SameFile(fs, c, path)
  }

  /** The entry a move of `path` was cut short at. */
  ghost predicate CutShort(fs: Image, c: Name, path: Name, stem: Stem) {
    && Named(fs, c) && SameFile(fs, c, path) && (exists m :: Twin(fs, path, m))
    && c.target == stem.target && c.digest == stem.digest
    && if stem.AtomicStem? then c.Atomic? else c.Partial? && c.identity == stem.identity
  }

  /** The scan of a quarantine directory, for any image and any listing: it clears
      `path` exactly when all entries are unrelated. */
  lemma {:induction false} ScanClears(fs: Image, listing: seq<Name>, path: Name, stem: Stem)
    requires path in fs.names
    ensures Scan(fs, listing, path, stem) == Clear <==> forall c <- listing :: Unrelated(fs, c, path)
  {
    if listing != [] {
      var first, rest := listing[0], listing[1..];
      assert listing == [first] + rest;
      UnrelatedExact(fs, first, path);
      ScanClears(fs, rest, path, stem);
      if Unrelated(fs, first, path) && forall c <- rest :: Unrelated(fs, c, path) {
        forall c <- listing ensures Unrelated(fs, c, path) { assert c == first || c in rest; }
      }
    }
  }

  lemma UnrelatedExact(fs: Image, c: Name, path: Name)
    ensures Unrelated(fs, c, path) <==> ValidEntry(fs, c) && !SameFile(fs, c, path) && Nlink(fs, c) == 1
  {
    if c in fs.names { SoleLinks(fs, c); }
  }

  /** It resumes exactly at the first related entry, if that is where the move of
      `path` was cut short. */
  lemma {:induction false} ScanResumes(fs: Image, listing: seq<Name>, path: Name, stem: Stem, entry: Name)
    requires path in fs.names
    ensures Scan(fs, listing, path, stem) == Resume(entry) <==> ResumesAt(fs, listing, path, stem, entry)
  {
    if listing != [] {
      TwoNames(fs, path);
      UnrelatedExact(fs, listing[0], path);
      ScanResumes(fs, listing[1..], path, stem, entry);
      ResumesLater(fs, listing, path, stem, entry);
    }
  }

  ghost predicate Resumption(fs: Image, listing: seq<Name>, path: Name, stem: Stem, entry: Name, i: int) {
    && 0 <= i < |listing| && listing[i] == entry && CutShort(fs, entry, path, stem)
    && forall j :: 0 <= j < i ==> Unrelated(fs, listing[j], path)
  }

  /** The first related entry is `entry`, where the move of `path` was cut short. */
  ghost predicate ResumesAt(fs: Image, listing: seq<Name>, path: Name, stem: Stem, entry: Name) {
    exists i :: Resumption(fs, listing, path, stem, entry, i)
  }

  lemma ResumesLater(fs: Image, listing: seq<Name>, path: Name, stem: Stem, entry: Name)
    requires listing != []
    ensures ResumesAt(fs, listing, path, stem, entry) <==>
      if listing[0] == entry && CutShort(fs, entry, path, stem) then true
      else Unrelated(fs, listing[0], path) && ResumesAt(fs, listing[1..], path, stem, entry)
  {
    if listing[0] == entry && CutShort(fs, entry, path, stem) {
      assert Resumption(fs, listing, path, stem, entry, 0);
    } else {
      if i :| Resumption(fs, listing, path, stem, entry, i) { Earlier(fs, listing, path, stem, entry, i); }
      if i :| Resumption(fs, listing[1..], path, stem, entry, i) && Unrelated(fs, listing[0], path) {
        Earlier(fs, listing, path, stem, entry, i + 1);
      }
    }
  }

  lemma Earlier(fs: Image, listing: seq<Name>, path: Name, stem: Stem, entry: Name, i: int)
    requires listing != [] && i != 0
    ensures Resumption(fs, listing, path, stem, entry, i) <==>
      Unrelated(fs, listing[0], path) && Resumption(fs, listing[1..], path, stem, entry, i - 1)
  {
    var rest := listing[1..];
    assert forall j :: 0 <= j < |rest| ==> rest[j] == listing[j + 1];
    if Unrelated(fs, listing[0], path) && Resumption(fs, rest, path, stem, entry, i - 1) {
      assert forall j :: 0 < j < i ==> listing[j] == rest[j - 1];
    }
  }

  /** `_require_interrupted_quarantine_link`, for any image: the one other name of
      `path` is the entry its own move was cut short at. */
  lemma InterruptedExact(fs: Image, listing: seq<Name>, path: Name, stem: Stem)
    requires path in fs.names && DirOf(path).SplitDir? && Enumerates(listing, fs, StemDir(stem))
    ensures Interrupted(fs, listing, path, stem) <==>
      && (forall c <- fs.names :: DirOf(c) == StemDir(stem) ==> Named(fs, c))
      && exists m :: Twin(fs, path, m) && CutShort(fs, m, path, stem)
  {
    TwoNames(fs, path);
    if m :| Twin(fs, path, m) {
      OneMatch(fs, listing, path, m);
      forall k | Twin(fs, path, k) ensures k == m { assert SameFile(fs, path, k); }
      if Interrupted(fs, listing, path, stem) {
        assert m in listing;
        assert CutShort(fs, m, path, stem);
      } else if CutShort(fs, m, path, stem) && forall c <- fs.names :: DirOf(c) == StemDir(stem) ==> Named(fs, c) {
        assert DirOf(m) == StemDir(stem) && HasStem(m, stem);
        forall c <- listing | SameFile(fs, c, path) ensures c == m { assert SameFile(fs, path, c); }
        assert false;
      }
    }
  }

  lemma OneMatch(fs: Image, listing: seq<Name>, path: Name, m: Name)
    requires Twin(fs, path, m) && path !in listing
    ensures (set c <- listing | SameFile(fs, c, path)) == if m in listing then {m} else {}
  {
    forall c | c in listing && SameFile(fs, c, path) ensures c == m { assert SameFile(fs, path, c); }
    assert SameFile(fs, m, path);
  }

  /** The checks on a committed pair, for any image: two files at rest, the rows
      one collector's in order and the document the one that names them. */
  lemma InspectExact(fs: Image, s: Session)
    requires Final(s.Episode()) in fs.names && Final(s.Queries()) in fs.names
    ensures Inspect(fs, s) != Refused <==>
      && Sole(fs, Final(s.Episode())) && Sole(fs, Final(s.Queries()))
      && exists seed: nat, count: nat :: OnePair(fs, s, seed, count)
    ensures forall seed: nat, count: nat :: OnePair(fs, s, seed, count) && Inspect(fs, s) != Refused ==>
      Inspect(fs, s) == Complete(Doc(s.identity, seed, count, Sha256(RowsPayload(s.identity, seed, count))))
  {
    var e, q := Final(s.Episode()), Final(s.Queries());
    SoleLinks(fs, e);
    SoleLinks(fs, q);
    if Inspect(fs, s) != Refused {
      var doc, rows := Contents(fs, e), Contents(fs, q);
      assert rows == RowsPayload(s.identity, doc[0].seed, |rows|);
      assert doc == DocPayload(s.identity, doc[0].seed, rows);
      assert OnePair(fs, s, doc[0].seed, |rows|);
    }
  }

  ghost predicate OnePair(fs: Image, s: Session, seed: nat, count: nat)
    requires Final(s.Episode()) in fs.names && Final(s.Queries()) in fs.names
  {
    && count > 0
    && Contents(fs, Final(s.Queries())) == RowsPayload(s.identity, seed, count)
    && Contents(fs, Final(s.Episode())) == DocPayload(s.identity, seed, RowsPayload(s.identity, seed, count))
  }

  /** A lone artifact that is this collector's: one document that counts its rows, or
      whole rows. */
  ghost predicate Owned(bytes: Bytes, kind: Kind, identity: Identity) {
    match kind
    case Episode => exists seed, count, digest :: OneDoc(bytes, identity, seed, count, digest)
    case Queries => bytes != [] && forall line <- bytes :: !line.Torn? && line.owner == identity
  }

  ghost predicate OneDoc(bytes: Bytes, identity: Identity, seed: nat, count: nat, digest: Digest) {
    bytes == [Doc(identity, seed, count, digest)] && count >= 1
  }

  lemma OwnedExact(bytes: Bytes, kind: Kind, identity: Identity)
    ensures OwnsPartial(bytes, kind, identity) <==> Owned(bytes, kind, identity)
  {
    if kind == Kind.Episode && OwnsPartial(bytes, kind, identity) {
      var d := bytes[0];
      assert bytes == [Doc(identity, d.seed, d.rowCount, d.rowsDigest)];
      assert OneDoc(bytes, identity, d.seed, d.rowCount, d.rowsDigest);
    }
  }

  /** A lone artifact, for any image and either kind: it is quarantined exactly when it
      is this collector's, it is at rest or its own move was cut short, and the move
      itself is not refused. */
  lemma LoneExact(ls: Listing, fs: Image, t: Target, identity: Identity, pid: nat, stamp: nat)
    requires Lists(ls) && Final(t) in fs.names
    ensures var path := Final(t); var stem := PartialStem(t, identity, Sha256(Contents(fs, path)));
      SettlePartial(ls, fs, t, identity, pid, stamp).outcome != Refused <==>
        && Owned(Contents(fs, path), t.kind, identity)
        && (|| Sole(fs, path)
            || (&& (forall c <- fs.names :: DirOf(c) == PartialDir(t.split) ==> Named(fs, c))
                && exists m :: Twin(fs, path, m) && CutShort(fs, m, path, stem)))
        && Park(ls, fs, path, stem, pid, stamp).outcome != Refused
  {
    var path := Final(t);
    var stem := PartialStem(t, identity, Sha256(Contents(fs, path)));
    OwnedExact(Contents(fs, path), t.kind, identity);
    SoleLinks(fs, path);
    TwoNames(fs, path);
    assert Enumerates(ls(fs, StemDir(stem)), fs, StemDir(stem));
    InterruptedExact(fs, ls(fs, StemDir(stem)), path, stem);
  }
}
