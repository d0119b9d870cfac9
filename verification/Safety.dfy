/** Whatever the collector was doing when it crashed, the image it left is
    lawful and has lost no evidence. */
module Safety {
  import opened Images
  import opened Law
  import opened Recovery

  ghost predicate Safe(schedule: Schedule, fs: Image, images: seq<Image>) {
    forall k :: 0 <= k < |images| ==> Advances(schedule, fs, images[k])
  }

  lemma SafeEnd(schedule: Schedule, fs: Image, images: seq<Image>)
    requires Lawful(schedule, fs) && Safe(schedule, fs, images)
    ensures Advances(schedule, fs, End(fs, images))
  {
    assert Keeps(fs, fs);
  }

  lemma SafeThen(schedule: Schedule, fs: Image, a: seq<Image>, b: seq<Image>)
    requires Lawful(schedule, fs) && Safe(schedule, fs, a) && Safe(schedule, End(fs, a), b)
    ensures Safe(schedule, fs, a + b)
    ensures End(fs, a + b) == End(End(fs, a), b)
  {
    SafeEnd(schedule, fs, a);
    forall k | 0 <= k < |a + b| ensures Advances(schedule, fs, (a + b)[k]) {
      if k >= |a| {
        assert Advances(schedule, End(fs, a), b[k - |a|]);
        KeepsTransitive(fs, End(fs, a), b[k - |a|]);
      }
    }
  }

  lemma LawTwin(schedule: Schedule, fs: Image, n: Name, m: Name)
    requires Lawful(schedule, fs) && SameFile(fs, n, m) && n != m
    ensures Twin(fs, n, m)
    ensures Nlink(fs, n) == Nlink(fs, m) == 2
  {
    forall k | SameFile(fs, n, k) ensures k == n || k == m {
      assert SameFile(fs, m, k);
    }
    TwinLinks(fs, n, m);
  }

  /** In a lawful image a link count is one or two. */
  lemma LawLinks(schedule: Schedule, fs: Image, n: Name)
    requires Lawful(schedule, fs) && n in fs.names
    ensures if Sole(fs, n) then Nlink(fs, n) == 1 else Nlink(fs, n) == 2 && exists m :: m != n && SameFile(fs, n, m)
  {
    SoleLinks(fs, n);
    if !Sole(fs, n) {
      var m :| SameFile(fs, n, m) && m != n;
      LawTwin(schedule, fs, n, m);
    }
  }

  /** `path` is something the collector quarantines under `stem`. */
  ghost predicate IsRemnant(fs: Image, path: Name, stem: Stem) {
    && path in fs.names
    && (path.Temp? || path.Final?)
    && stem.target == path.target
    && stem.digest == Sha256(Contents(fs, path))
    && if path.Temp? then stem.AtomicStem? && Final(path.target) !in fs.names
       else
         && stem.PartialStem? && path.target.kind == Kind.Queries
         && Contents(fs, path) != [] && OwnerOf(Contents(fs, path)[0]) == stem.identity
         && Final(EpisodeOf(path.target)) !in fs.names
         && forall n :: n in fs.names && n.Temp? ==> n.target != path.target
  }

  lemma RemnantTwin(schedule: Schedule, fs: Image, path: Name, stem: Stem, entry: Name)
    requires Lawful(schedule, fs) && IsRemnant(fs, path, stem)
    requires SameFile(fs, entry, path) && entry != path
    ensures Twin(fs, path, entry) && Partners(path, entry) && HasStem(entry, stem)
    ensures Nlink(fs, path) == 2 && DirOf(entry) == StemDir(stem)
  {
    assert SameFile(fs, path, entry);
    LawTwin(schedule, fs, path, entry);
    assert NameLaw(schedule, fs, entry);
  }

  /** An entry in the middle of another move is listed before `path`'s own. */
  ghost predicate Blocked(fs: Image, listing: seq<Name>, path: Name) {
    exists i :: 0 <= i < |listing| && listing[i] in fs.names && Nlink(fs, listing[i]) != 1
      && forall j :: 0 <= j <= i ==> !SameFile(fs, listing[j], path)
  }

  lemma BlockedTail(fs: Image, listing: seq<Name>, path: Name)
    requires listing != [] && listing[0] in fs.names
    ensures Blocked(fs, listing, path) <==>
      !SameFile(fs, listing[0], path) && (Nlink(fs, listing[0]) != 1 || Blocked(fs, listing[1..], path))
  {
    if Blocked(fs, listing, path) {
      var i :| 0 <= i < |listing| && listing[i] in fs.names && Nlink(fs, listing[i]) != 1
        && forall j :: 0 <= j <= i ==> !SameFile(fs, listing[j], path);
      assert !SameFile(fs, listing[0], path);
      if i > 0 {
        assert listing[1..][i - 1] == listing[i];
        assert forall j :: 0 <= j <= i - 1 ==> listing[1..][j] == listing[j + 1];
      }
    }
    if !SameFile(fs, listing[0], path) && Blocked(fs, listing[1..], path) {
      var i :| 0 <= i < |listing[1..]| && listing[1..][i] in fs.names && Nlink(fs, listing[1..][i]) != 1
        && forall j :: 0 <= j <= i ==> !SameFile(fs, listing[1..][j], path);
      assert listing[i + 1] == listing[1..][i];
      assert forall j :: 0 < j <= i + 1 ==> listing[j] == listing[1..][j - 1];
    }
  }

  /** A move other than `path`'s own was cut short in the directory. */
  ghost predicate OtherHalf(fs: Image, path: Name, d: Dir) {
    exists n :: Quarantined(fs, n) && DirOf(n) == d && Half(fs, n) && !SameFile(fs, n, path)
  }

  /** What the scan of a quarantine directory finds, for any listing order. */
  lemma {:induction false} ScanMeaning(schedule: Schedule, fs: Image, listing: seq<Name>, path: Name, stem: Stem)
    requires Lawful(schedule, fs) && IsRemnant(fs, path, stem)
    requires forall n <- listing :: n in fs.names && DirOf(n) == StemDir(stem)
    ensures Scan(fs, listing, path, stem) == Unsound <==> Blocked(fs, listing, path)
    ensures Scan(fs, listing, path, stem) == Clear ==>
      forall n <- listing :: Nlink(fs, n) == 1 && !SameFile(fs, n, path)
    ensures Scan(fs, listing, path, stem).Resume? ==>
      var entry := Scan(fs, listing, path, stem).entry; entry in listing && SameFile(fs, entry, path) && entry != path
  {
    if listing != [] {
      assert listing[0] in listing && NameLaw(schedule, fs, listing[0]);
      BlockedTail(fs, listing, path);
      if SameFile(fs, listing[0], path) {
        RemnantTwin(schedule, fs, path, stem, listing[0]);
      } else {
        ScanMeaning(schedule, fs, listing[1..], path, stem);
      }
    }
  }

  /** All thousand quarantine names of this process and instant are taken. */
  ghost predicate Exhausted(fs: Image, stem: Stem, pid: nat, stamp: nat) {
    forall k :: 0 <= k < 1000 ==> Entered(stem, Tag(pid, stamp, k)) in fs.names
  }

  /** The inode that `path` named is, byte for byte, the quarantine entry `entry`. */
  ghost predicate Held(fs: Image, gs: Image, path: Name, entry: Name) {
    && path in fs.names && entry in gs.names
    && (path.Temp? || path.Final?)
    && (if path.Temp? then entry.Atomic? else entry.Partial?)
    && entry.target == path.target && entry.digest == Sha256(Contents(fs, path))
    && gs.names[entry] == fs.names[path] && Contents(gs, entry) == Contents(fs, path)
  }

  /** `gs` is `fs` with `path` moved into quarantine; nothing else is disturbed. */
  ghost predicate Moved(fs: Image, gs: Image, path: Name) {
    && path !in gs.names
    && (exists entry :: Held(fs, gs, path, entry))
    && SameContents(fs, gs)
    && (forall n :: n in fs.names && n != path ==> n in gs.names)
    && (forall n :: n in gs.names && n !in fs.names ==> Sole(gs, n) && if path.Temp? then n.Atomic? else n.Partial?)
  }

  lemma ExhaustedMeaning(fs: Image, stem: Stem, pid: nat, stamp: nat)
    ensures FreeSequence(fs, stem, pid, stamp, 0) == SEQUENCES <==> Exhausted(fs, stem, pid, stamp)
  {
    var r := FreeSequence(fs, stem, pid, stamp, 0);
    if r < SEQUENCES { assert Entered(stem, Tag(pid, stamp, r)) !in fs.names; }
  }

  lemma RemnantMayLink(schedule: Schedule, fs: Image, path: Name, stem: Stem, tag: Tag)
    requires Lawful(schedule, fs) && IsRemnant(fs, path, stem) && Sole(fs, path) && tag.pid > 0 && tag.stamp > 0
    requires Entered(stem, tag) !in fs.names && !OtherHalf(fs, path, StemDir(stem))
    ensures MayLink(fs, path, Entered(stem, tag))
  {
    forall k | Quarantined(fs, k) && DirOf(k) == StemDir(stem) ensures !Half(fs, k) {
      assert SameFile(fs, k, path) <==> SameFile(fs, path, k);
    }
  }

  lemma LinkUnlinkMoves(fs: Image, path: Name, stem: Stem, tag: Tag)
    requires IsRemnant(fs, path, stem) && Sole(fs, path) && Entered(stem, tag) !in fs.names
    ensures var entry := Entered(stem, tag); var gs := Unlinked(Linked(fs, path, entry), path);
      Moved(fs, gs, path) && Sole(gs, entry)
  {
    var entry := Entered(stem, tag);
    var gs := Unlinked(Linked(fs, path, entry), path);
    forall m | SameFile(gs, entry, m) ensures m == entry {
      assert m != entry ==> SameFile(fs, path, m);
    }
    assert Held(fs, gs, path, entry);
  }

  lemma ParkMoves(schedule: Schedule, fs: Image, path: Name, entry: Name)
    requires Lawful(schedule, fs) && MayLink(fs, path, entry)
    ensures var linked := Linked(fs, path, entry); Safe(schedule, fs, [linked, Unlinked(linked, path)])
  {
    LinkAdvances(schedule, fs, path, entry);
    var linked := Linked(fs, path, entry);
    UnlinkAdvances(schedule, linked, path, entry);
    KeepsTransitive(fs, linked, Unlinked(linked, path));
  }

  lemma ClearIsSole(schedule: Schedule, fs: Image, listing: seq<Name>, path: Name, stem: Stem)
    requires Lawful(schedule, fs) && IsRemnant(fs, path, stem) && Enumerates(listing, fs, StemDir(stem))
    requires Scan(fs, listing, path, stem) == Clear
    ensures Sole(fs, path)
  {
    ScanMeaning(schedule, fs, listing, path, stem);
    forall m | SameFile(fs, path, m) ensures m == path {
      if m != path { RemnantTwin(schedule, fs, path, stem, m); }
    }
  }

  /** With one move per directory, the order of the listing does not matter. */
  lemma BlockedMeaning(schedule: Schedule, fs: Image, listing: seq<Name>, path: Name, stem: Stem)
    requires Lawful(schedule, fs) && IsRemnant(fs, path, stem) && Enumerates(listing, fs, StemDir(stem))
    ensures Blocked(fs, listing, path) <==> OtherHalf(fs, path, StemDir(stem))
  {
    if Blocked(fs, listing, path) {
      var i :| 0 <= i < |listing| && listing[i] in fs.names && Nlink(fs, listing[i]) != 1
        && forall j :: 0 <= j <= i ==> !SameFile(fs, listing[j], path);
      assert listing[i] in listing && NameLaw(schedule, fs, listing[i]);
      SoleLinks(fs, listing[i]);
      assert Half(fs, listing[i]);
    }
    if n :| Quarantined(fs, n) && DirOf(n) == StemDir(stem) && Half(fs, n) && !SameFile(fs, n, path) {
      SoleLinks(fs, n);
      assert n in listing;
      var i :| 0 <= i < |listing| && listing[i] == n;
      forall j | 0 <= j <= i ensures !SameFile(fs, listing[j], path) {
        assert listing[j] in listing && NameLaw(schedule, fs, listing[j]);
        if SameFile(fs, listing[j], path) {
          assert Half(fs, listing[j]);
        }
      }
    }
  }

  lemma ClearMayLink(schedule: Schedule, ls: Listing, fs: Image, path: Name, stem: Stem, tag: Tag)
    requires Lists(ls) && Lawful(schedule, fs) && IsRemnant(fs, path, stem) && tag.pid > 0 && tag.stamp > 0
    requires Scan(fs, ls(fs, StemDir(stem)), path, stem) == Clear && Entered(stem, tag) !in fs.names
    ensures Sole(fs, path) && MayLink(fs, path, Entered(stem, tag))
  {
    var listing := ls(fs, StemDir(stem));
    assert Enumerates(listing, fs, StemDir(stem));
    ScanMeaning(schedule, fs, listing, path, stem);
    ClearIsSole(schedule, fs, listing, path, stem);
    BlockedMeaning(schedule, fs, listing, path, stem);
    RemnantMayLink(schedule, fs, path, stem, tag);
  }

  /** A clear directory, a single link and a free name: the move is made, and the
      link check after it passes. */
  lemma ParkLinks(schedule: Schedule, ls: Listing, fs: Image, path: Name, stem: Stem, pid: nat, stamp: nat)
    requires Lists(ls) && Lawful(schedule, fs) && IsRemnant(fs, path, stem)
    requires Scan(fs, ls(fs, StemDir(stem)), path, stem) == Clear && !Exhausted(fs, stem, pid, stamp)
    ensures Sole(fs, path)
    ensures var tag := Tag(pid, stamp, FreeSequence(fs, stem, pid, stamp, 0)); var entry := Entered(stem, tag);
      && entry !in fs.names
      && var linked := Linked(fs, path, entry);
      Park(ls, fs, path, stem, pid, stamp) == Run(Done, [linked, Unlinked(linked, path)])
  {
    var listing := ls(fs, StemDir(stem));
    assert Enumerates(listing, fs, StemDir(stem));
    ClearIsSole(schedule, fs, listing, path, stem);
    SoleLinks(fs, path);
    ExhaustedMeaning(fs, stem, pid, stamp);
    var tag := Tag(pid, stamp, FreeSequence(fs, stem, pid, stamp, 0));
    var entry := Entered(stem, tag);
    LinkUnlinkMoves(fs, path, stem, tag);
    SoleLinks(Unlinked(Linked(fs, path, entry), path), entry);
  }

  lemma ParkClear(schedule: Schedule, ls: Listing, fs: Image, path: Name, stem: Stem, pid: nat, stamp: nat)
    requires Lists(ls) && Lawful(schedule, fs) && IsRemnant(fs, path, stem) && pid > 0 && stamp > 0
    requires Scan(fs, ls(fs, StemDir(stem)), path, stem) == Clear && !Exhausted(fs, stem, pid, stamp)
    ensures var run := Park(ls, fs, path, stem, pid, stamp);
      run.outcome == Done && Safe(schedule, fs, run.images) && Moved(fs, End(fs, run.images), path)
  {
    var tag := Tag(pid, stamp, FreeSequence(fs, stem, pid, stamp, 0));
    var entry := Entered(stem, tag);
    ParkLinks(schedule, ls, fs, path, stem, pid, stamp);
    ClearMayLink(schedule, ls, fs, path, stem, tag);
    ParkMoves(schedule, fs, path, entry);
    LinkUnlinkMoves(fs, path, stem, tag);
  }

  lemma ResumeIsTwin(schedule: Schedule, ls: Listing, fs: Image, path: Name, stem: Stem) returns (entry: Name)
    requires Lists(ls) && Lawful(schedule, fs) && IsRemnant(fs, path, stem)
    requires Scan(fs, ls(fs, StemDir(stem)), path, stem).Resume?
    ensures entry == Scan(fs, ls(fs, StemDir(stem)), path, stem).entry
    ensures Twin(fs, path, entry) && Partners(path, entry) && HasStem(entry, stem)
  {
    var listing := ls(fs, StemDir(stem));
    assert Enumerates(listing, fs, StemDir(stem));
    ScanMeaning(schedule, fs, listing, path, stem);
    entry := Scan(fs, listing, path, stem).entry;
    RemnantTwin(schedule, fs, path, stem, entry);
  }

  lemma UnlinkMoves(fs: Image, path: Name, stem: Stem, entry: Name)
    requires IsRemnant(fs, path, stem) && Twin(fs, path, entry) && HasStem(entry, stem)
    ensures Moved(fs, Unlinked(fs, path), path)
  {
    assert Held(fs, Unlinked(fs, path), path, entry);
  }

  lemma ParkResume(schedule: Schedule, ls: Listing, fs: Image, path: Name, stem: Stem, pid: nat, stamp: nat)
    requires Lists(ls) && Lawful(schedule, fs) && IsRemnant(fs, path, stem)
    requires Scan(fs, ls(fs, StemDir(stem)), path, stem).Resume?
    ensures !Sole(fs, path)
    ensures Park(ls, fs, path, stem, pid, stamp) == Run(Done, [Unlinked(fs, path)])
    ensures Advances(schedule, fs, Unlinked(fs, path)) && Moved(fs, Unlinked(fs, path), path)
  {
    var entry := ResumeIsTwin(schedule, ls, fs, path, stem);
    UnlinkAdvances(schedule, fs, path, entry);
    SoleLinks(Unlinked(fs, path), entry);
    UnlinkMoves(fs, path, stem, entry);
  }

  /** `_quarantine_link` is refused exactly when another move in the directory
      was cut short, or no quarantine name is free. */
  lemma ParkRefusal(schedule: Schedule, ls: Listing, fs: Image, path: Name, stem: Stem, pid: nat, stamp: nat)
    requires Lists(ls) && Lawful(schedule, fs) && IsRemnant(fs, path, stem)
    ensures var run := Park(ls, fs, path, stem, pid, stamp);
      && run.outcome in {Done, Refused}
      && (run.outcome == Refused ==> run.images == [])
      && (run.outcome == Refused <==>
            OtherHalf(fs, path, StemDir(stem)) || (Sole(fs, path) && Exhausted(fs, stem, pid, stamp)))
  {
    var listing := ls(fs, StemDir(stem));
    assert Enumerates(listing, fs, StemDir(stem));
    ScanMeaning(schedule, fs, listing, path, stem);
    BlockedMeaning(schedule, fs, listing, path, stem);
    match Scan(fs, listing, path, stem)
    case Unsound =>
    case Resume(entry) => ParkResume(schedule, ls, fs, path, stem, pid, stamp);
    case Clear =>
      if Exhausted(fs, stem, pid, stamp) {
        ExhaustedMeaning(fs, stem, pid, stamp);
        ClearIsSole(schedule, fs, listing, path, stem);
      } else {
        ParkLinks(schedule, ls, fs, path, stem, pid, stamp);
      }
  }

  /** `_quarantine_link` is crash-safe and moves `path` alone. */
  lemma ParkSafe(schedule: Schedule, ls: Listing, fs: Image, path: Name, stem: Stem, pid: nat, stamp: nat)
    requires Lists(ls) && Lawful(schedule, fs) && IsRemnant(fs, path, stem) && pid > 0 && stamp > 0
    ensures var run := Park(ls, fs, path, stem, pid, stamp);
      && Safe(schedule, fs, run.images)
      && (run.outcome == Done ==> Moved(fs, End(fs, run.images), path))
  {
    match Scan(fs, ls(fs, StemDir(stem)), path, stem)
    case Unsound =>
    case Resume(entry) => ParkResume(schedule, ls, fs, path, stem, pid, stamp);
    case Clear =>
      if Exhausted(fs, stem, pid, stamp) {
        ExhaustedMeaning(fs, stem, pid, stamp);
      } else {
        ParkClear(schedule, ls, fs, path, stem, pid, stamp);
      }
  }
}
