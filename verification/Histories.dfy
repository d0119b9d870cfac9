/** Every history of invocations, each cut short anywhere or run to its end, in
    any listing orders: what is always true of the disk, and the one state from
    which the collector never recovers. */
module Histories {
  import opened Images
  import opened Law
  import opened Recovery
  import opened Safety
  import opened Convergence
  import opened Publication
  import opened Validators
  import opened Progress
  import opened Sessions
  import opened Locality

  /** One invocation: it makes `cut` system calls and dies, or ends before. */
  datatype Boot = Boot(ls: Listing, session: Session, cut: nat)

  type History = seq<Boot>

  ghost predicate Genuine(schedule: Schedule, b: Boot) {
    Lists(b.ls) && b.session.Valid() && b.session.seed in schedule(b.session.split)
  }

  ghost predicate GenuineHistory(schedule: Schedule, h: History) {
    forall k :: 0 <= k < |h| ==> Genuine(schedule, h[k])
  }

  ghost function After(schedule: Schedule, fs: Image, b: Boot): Image {
    var images := Collect(b.ls, schedule, fs, b.session).images;
    End(fs, if b.cut < |images| then images[..b.cut] else images)
  }

  /** The images one invocation after another leaves behind. */
  ghost function Fold(step: (Image, Boot) -> Image, fs: Image, h: History): Image
    decreases |h|
  {
    if h == [] then fs else Fold(step, step(fs, h[0]), h[1..])
  }

  lemma {:induction false} FoldAppend(step: (Image, Boot) -> Image, fs: Image, g: History, h: History)
    ensures Fold(step, fs, g + h) == Fold(step, Fold(step, fs, g), h)
    decreases |g|
  {
    if g == [] {
      assert g + h == h;
    } else {
      FoldAppend(step, step(fs, g[0]), g[1..], h);
      assert (g + h)[1..] == g[1..] + h;
    }
  }

  ghost function Replay(schedule: Schedule, fs: Image, h: History): Image {
    Fold((gs: Image, b: Boot) => After(schedule, gs, b), fs, h)
  }

  lemma AfterAdvances(schedule: Schedule, fs: Image, b: Boot)
    requires Lawful(schedule, fs) && Genuine(schedule, b)
    ensures Advances(schedule, fs, After(schedule, fs, b))
  {
    CollectSafe(schedule, b.ls, fs, b.session);
    var images := Collect(b.ls, schedule, fs, b.session).images;
    var done := if b.cut < |images| then images[..b.cut] else images;
    assert forall k :: 0 <= k < |done| ==> done[k] == images[k];
    SafeEnd(schedule, fs, done);
  }

  /** Over any continuation the disk stays lawful and keeps all its evidence. */
  lemma {:induction false} ReplayAdvances(schedule: Schedule, fs: Image, h: History)
    requires Lawful(schedule, fs) && GenuineHistory(schedule, h)
    ensures Advances(schedule, fs, Replay(schedule, fs, h))
    decreases |h|
  {
    if h == [] {
      SafeEnd(schedule, fs, []);
    } else {
      AfterAdvances(schedule, fs, h[0]);
      ReplayAdvances(schedule, After(schedule, fs, h[0]), h[1..]);
      KeepsTransitive(fs, After(schedule, fs, h[0]), Replay(schedule, fs, h));
    }
  }

  /** The disk after a history that starts from nothing. */
  ghost function Disk(schedule: Schedule, h: History): Image {
    Replay(schedule, EmptyImage, h)
  }

  lemma DiskLawful(schedule: Schedule, h: History)
    requires GenuineHistory(schedule, h)
    ensures Lawful(schedule, Disk(schedule, h))
  {
    EmptyIsLawful(schedule);
    ReplayAdvances(schedule, EmptyImage, h);
  }

  /** Link structure: an inode has one name or two, and two only as a temp with
      its final name, a temp with its atomic quarantine entry, or a published
      query file with its partial quarantine entry. */
  lemma LinkStructure(schedule: Schedule, h: History, n: Name)
    requires GenuineHistory(schedule, h) && n in Disk(schedule, h).names
    ensures var fs := Disk(schedule, h);
      || Nlink(fs, n) == 1
      || (Nlink(fs, n) == 2 && exists m :: m != n && SameFile(fs, n, m) && (Partners(n, m) || Partners(m, n)))
  {
    var fs := Disk(schedule, h);
    DiskLawful(schedule, h);
    LawLinks(schedule, fs, n);
    if !Sole(fs, n) {
      var m :| m != n && SameFile(fs, n, m);
      assert Partners(n, m) || Partners(m, n);
    }
  }

  /** A quarantine entry whose move was cut short. */
  ghost predicate CutShort(fs: Image, n: Name) {
    Quarantined(fs, n) && Nlink(fs, n) > 1
  }

  lemma OneOfEach(fs: Image, n: Name, m: Name)
    requires TempsLaw(fs) && HalfLaw(fs) && n in fs.names && m in fs.names
    ensures n.Temp? && m.Temp? && n.target == m.target ==> n == m
    ensures CutShort(fs, n) && CutShort(fs, m) && DirOf(n) == DirOf(m) ==> n == m
  {
    SoleLinks(fs, n);
    SoleLinks(fs, m);
    assert Nlink(fs, n) > 1 ==> Half(fs, n);
    assert Nlink(fs, m) > 1 ==> Half(fs, m);
  }

  /** Each target has at most one writer temp, and each quarantine directory at most
      one move that was cut short. */
  lemma OneWriterTemp(schedule: Schedule, h: History, n: Name, m: Name)
    requires GenuineHistory(schedule, h)
    requires n in Disk(schedule, h).names && m in Disk(schedule, h).names
    ensures n.Temp? && m.Temp? && n.target == m.target ==> n == m
    ensures var fs := Disk(schedule, h);
      CutShort(fs, n) && CutShort(fs, m) && DirOf(n) == DirOf(m) ==> n == m
  {
    DiskLawful(schedule, h);
    OneOfEach(Disk(schedule, h), n, m);
  }

  /** Conservation: no inode is ever left without a name, and what was bound to a
      final name keeps its bytes and stays there unless it is quarantined under
      its own digest. */
  lemma Conservation(schedule: Schedule, g: History, h: History)
    requires GenuineHistory(schedule, g + h)
    ensures Keeps(Disk(schedule, g), Disk(schedule, g + h))
    ensures forall i :: 0 <= i < |Disk(schedule, g).data| ==> Named(Disk(schedule, g + h), i)
  {
    assert GenuineHistory(schedule, g) by {
      forall k | 0 <= k < |g| ensures Genuine(schedule, g[k]) { assert g[k] == (g + h)[k]; }
    }
    assert GenuineHistory(schedule, h) by {
      forall k | 0 <= k < |h| ensures Genuine(schedule, h[k]) { assert h[k] == (g + h)[|g| + k]; }
    }
    DiskLawful(schedule, g);
    DiskLawful(schedule, g + h);
    FoldAppend((fs: Image, b: Boot) => After(schedule, fs, b), EmptyImage, g, h);
    ReplayAdvances(schedule, Disk(schedule, g), h);
  }

  /** The validators on every reachable disk. */
  lemma ReachableVerdicts(schedule: Schedule, h: History, split: Split)
    requires GenuineHistory(schedule, h)
    ensures var fs := Disk(schedule, h);
      && IncompleteOk(schedule, fs)
      && (SplitOk(schedule, fs, split, true, false) <==> !HalfAtomic(fs, split))
      && (SplitOk(schedule, fs, split, false, true) <==> Pristine(schedule, fs, split))
  {
    DiskLawful(schedule, h);
    IncompleteAccepts(schedule, Disk(schedule, h));
    SplitAccepts(schedule, Disk(schedule, h), split);
    CompleteAccepts(schedule, Disk(schedule, h), split);
  }

  /* The whole payload. */

  lemma AfterReaches(schedule: Schedule, fs: Image, b: Boot)
    ensures Reaches(fs, After(schedule, fs, b), b.session)
  {
    CollectReaches(schedule, b.ls, fs, b.session);
    SameReaches(fs, b.session);
  }

  /** One of the sessions of the history wrote everything that `t` is bound to. */
  ghost predicate PublishedIn(fs: Image, t: Target, h: History) {
    exists k :: 0 <= k < |h| && PublishedBy(fs, t, h[k].session)
  }

  /** A final name after a history is as it was before, or was published by one of the
      sessions, whole. */
  lemma {:induction false} ReplayPublishes(schedule: Schedule, fs: Image, h: History, t: Target)
    requires Final(t) in Replay(schedule, fs, h).names
    ensures Unchanged(fs, Replay(schedule, fs, h), t) || PublishedIn(Replay(schedule, fs, h), t, h)
    decreases |h|
  {
    if h != [] {
      var gs, hs := After(schedule, fs, h[0]), Replay(schedule, fs, h);
      AfterReaches(schedule, fs, h[0]);
      ReplayPublishes(schedule, gs, h[1..], t);
      if PublishedIn(hs, t, h[1..]) {
        var k :| 0 <= k < |h[1..]| && PublishedBy(hs, t, h[1..][k].session);
        assert PublishedBy(hs, t, h[k + 1].session);
      } else if PublishedBy(gs, t, h[0].session) {
        assert PublishedBy(hs, t, h[0].session);
      }
    }
  }

  /** A final name is only ever bound to a fully written payload: after every history
      each published artifact holds exactly what one of its sessions set out to
      write there, at whatever call any of them was cut. */
  lemma WholePayloads(schedule: Schedule, h: History, t: Target)
    requires Final(t) in Disk(schedule, h).names
    ensures PublishedIn(Disk(schedule, h), t, h)
  {
    ReplayPublishes(schedule, EmptyImage, h, t);
  }

  /** The episode document and the query file it names are those of one session. */
  ghost predicate CommittedBy(fs: Image, t: Target, s: Session) {
    PublishedBy(fs, t, s) && PublishedBy(fs, QueriesOf(t), s)
  }

  /** The document names the rows by digest and by number. */
  ghost predicate Binds(fs: Image, t: Target) {
    var e, q := Final(t), Final(QueriesOf(t));
    && e in fs.names && q in fs.names && |Contents(fs, e)| == 1
    && var doc := Contents(fs, e)[0];
    && doc.Doc? && doc.rowsDigest == Sha256(Contents(fs, q)) && doc.rowCount == |Contents(fs, q)| > 0
    && forall i :: 0 <= i < doc.rowCount ==> Contents(fs, q)[i] == Row(doc.owner, t.seed, i)
  }

  /** Commit order, after every history: whatever is bound to a final name is the whole
      payload of one of the sessions; and where an episode is bound its query file is
      bound too, is the whole query file of the same session, and has the digest and
      row count the episode names. */
  lemma CommitOrder(schedule: Schedule, h: History, t: Target)
    requires GenuineHistory(schedule, h) && Final(t) in Disk(schedule, h).names
    ensures var fs := Disk(schedule, h);
      && PublishedIn(fs, t, h)
      && (t.kind == Kind.Episode ==> Binds(fs, t) && exists k :: 0 <= k < |h| && CommittedBy(fs, t, h[k].session))
  {
    var fs := Disk(schedule, h);
    WholePayloads(schedule, h, t);
    if t.kind == Kind.Episode {
      DiskLawful(schedule, h);
      assert Committed(fs, t);
      var k :| 0 <= k < |h| && PublishedBy(fs, t, h[k].session);
      SameRows(fs, t, h[k].session);
    }
  }

  lemma SameRows(fs: Image, t: Target, s: Session)
    requires t.kind == Kind.Episode && Final(t) in fs.names && Committed(fs, t) && PublishedBy(fs, t, s)
    ensures CommittedBy(fs, t, s) && Binds(fs, t)
  {
    var q := Final(QueriesOf(t));
    assert Contents(fs, Final(t))[0].rowsDigest == Sha256(Contents(fs, q));
    assert Contents(fs, q) == RowsPayload(s.identity, s.seed, s.rows);
  }

  /* The state from which a split never recovers. */

  /** Inside `split` nothing changed: same names, same inodes, same bytes. */
  ghost predicate Frozen(fs: Image, gs: Image, split: Split) {
    forall n :: DirOf(n).split == split ==>
      && (n in fs.names <==> n in gs.names)
      && (n in fs.names ==> gs.names[n] == fs.names[n] && Contents(gs, n) == Contents(fs, n))
  }

  lemma FrozenOn(fs: Image, gs: Image, hs: Image, split: Split)
    requires Frozen(fs, gs, split) && Frozen(gs, hs, split)
    ensures Frozen(fs, hs, split)
  {}

  lemma OtherSplitFrozen(schedule: Schedule, fs: Image, b: Boot, split: Split)
    requires b.session.split != split
    ensures Frozen(fs, After(schedule, fs, b), split)
  {
    AfterReaches(schedule, fs, b);
    assert forall n :: DirOf(n).split == split ==> !Beside(n, b.session.split, b.session.seed);
  }

  lemma AfterFrozen(schedule: Schedule, fs: Image, b: Boot, split: Split)
    requires Lawful(schedule, fs) && HalfAtomic(fs, split)
    ensures Frozen(fs, After(schedule, fs, b), split) && HalfAtomic(After(schedule, fs, b), split)
  {
    if b.session.split == split {
      CollectStuck(schedule, b.ls, fs, b.session);
    } else {
      OtherSplitFrozen(schedule, fs, b, split);
    }
    FrozenHalf(fs, After(schedule, fs, b), split);
  }

  lemma FrozenHalf(fs: Image, gs: Image, split: Split)
    requires LinksLaw(fs) && HalfAtomic(fs, split) && Frozen(fs, gs, split)
    ensures HalfAtomic(gs, split)
  {
    var n: Name, c: Name :| n.Temp? && n.target.split == split && c.Atomic? && SameFile(fs, n, c);
    assert Partners(n, c) || Partners(c, n);
    assert DirOf(n).split == split && DirOf(c).split == split;
    assert SameFile(gs, n, c);
  }

  /** Once a temp of a split is half linked into the atomic quarantine, no history
      whatever changes that split again. */
  lemma {:induction false} StuckForever(schedule: Schedule, fs: Image, h: History, split: Split)
    requires Lawful(schedule, fs) && HalfAtomic(fs, split) && GenuineHistory(schedule, h)
    ensures Frozen(fs, Replay(schedule, fs, h), split) && HalfAtomic(Replay(schedule, fs, h), split)
    decreases |h|
  {
    if h != [] {
      var gs := After(schedule, fs, h[0]);
      AfterFrozen(schedule, fs, h[0], split);
      AfterAdvances(schedule, fs, h[0]);
      StuckForever(schedule, gs, h[1..], split);
      FrozenOn(fs, gs, Replay(schedule, gs, h[1..]), split);
    }
  }

  /** The stuck state is reached, whatever the schedule, by two crashes: one
      before a temp is published, one while the next invocation is moving that
      temp into quarantine. */
  lemma StuckReachable(schedule: Schedule, ls: Listing, s: Session)
    requires Genuine(schedule, Boot(ls, s, 1))
    ensures var h := [Boot(ls, s, 1), Boot(ls, s, 1)];
      GenuineHistory(schedule, h) && HalfAtomic(Disk(schedule, h), s.split)
  {
    FirstCrash(schedule, ls, s);
    SecondCrash(schedule, ls, s);
    FoldTwice((fs: Image, b: Boot) => After(schedule, fs, b), EmptyImage, Boot(ls, s, 1));
  }

  lemma FoldTwice(step: (Image, Boot) -> Image, fs: Image, b: Boot)
    ensures Fold(step, fs, [b, b]) == step(step(fs, b), b)
  {
    assert [b, b][1..] == [b] && [b][1..] == [];
    var gs := step(fs, b);
    assert Fold(step, gs, [b]) == Fold(step, step(gs, b), []);
  }

  lemma EmptyLoad(schedule: Schedule, ls: Listing, s: Session)
    requires Genuine(schedule, Boot(ls, s, 1))
    ensures Load(ls, EmptyImage, s) == Run(Missing, [])
  {
    EmptyIsLawful(schedule);
    RecoverNothing(schedule, ls, EmptyImage, s.Episode(), true, s.pid, s.stamp);
    RecoverNothing(schedule, ls, EmptyImage, s.Queries(), true, s.pid, s.stamp);
  }

  lemma EmptyCommit(schedule: Schedule, ls: Listing, s: Session)
    requires Genuine(schedule, Boot(ls, s, 1))
    ensures var images := Commit(ls, EmptyImage, s).images;
      |images| > 1 && images[0] == Created(EmptyImage, Temp(s.Queries(), s.pid, s.stamp))
  {
    EmptyIsLawful(schedule);
    RecoverNothing(schedule, ls, EmptyImage, s.Queries(), false, s.pid, s.stamp);
    var rows := RowsPayload(s.identity, s.seed, s.rows);
    var publish := Publish(EmptyImage, s.Queries(), rows, s.pid, s.stamp);
    var write := WriteNew(ls, EmptyImage, s.Queries(), rows, s.pid, s.stamp);
    assert write.images == [] + publish.images == publish.images;
    assert publish.images[0] == Created(EmptyImage, Temp(s.Queries(), s.pid, s.stamp));
    assert write.images <= Commit(ls, EmptyImage, s).images;
  }

  lemma FirstCrash(schedule: Schedule, ls: Listing, s: Session)
    requires Genuine(schedule, Boot(ls, s, 1))
    ensures After(schedule, EmptyImage, Boot(ls, s, 1)) == Created(EmptyImage, Temp(s.Queries(), s.pid, s.stamp))
  {
    var fs := EmptyImage;
    EmptyIsLawful(schedule);
    SplitAccepts(schedule, fs, s.split);
    EmptyLoad(schedule, ls, s);
    EmptyCommit(schedule, ls, s);
    var images := Collect(ls, schedule, fs, s).images;
    assert images == [] + Commit(ls, fs, s).images;
    assert images[..1] == [images[0]];
  }

  lemma SecondCrash(schedule: Schedule, ls: Listing, s: Session)
    requires Genuine(schedule, Boot(ls, s, 1))
    ensures HalfAtomic(After(schedule, Created(EmptyImage, Temp(s.Queries(), s.pid, s.stamp)), Boot(ls, s, 1)), s.split)
  {
    var temp := Temp(s.Queries(), s.pid, s.stamp);
    var fs := Created(EmptyImage, temp);
    EmptyIsLawful(schedule);
    CreateAdvances(schedule, EmptyImage, temp);
    assert !HalfAtomic(fs, s.split);
    SplitAccepts(schedule, fs, s.split);
    var linked := SecondLoad(schedule, ls, fs, s, temp);
    var load := Load(ls, fs, s);
    var images := Collect(ls, schedule, fs, s).images;
    assert load.images <= images;
    assert images[0] == load.images[0] && images[..1] == [linked];
  }

  lemma HeadListed(listing: seq<Name>)
    ensures listing == [] || exists n :: n in listing
  {
    if listing != [] { assert listing[0] in listing; }
  }

  /** Loading beside a lone unpublished temp starts by linking it into quarantine. */
  lemma SecondLoad(schedule: Schedule, ls: Listing, fs: Image, s: Session, temp: Name) returns (linked: Image)
    requires Genuine(schedule, Boot(ls, s, 1)) && Lawful(schedule, fs)
    requires temp == Temp(s.Queries(), s.pid, s.stamp) && fs == Created(EmptyImage, temp)
    ensures var images := Load(ls, fs, s).images; |images| > 1 && images[0] == linked
    ensures HalfAtomic(linked, s.split)
  {
    RecoverNothing(schedule, ls, fs, s.Episode(), true, s.pid, s.stamp);
    var found := RecoverRemnant(schedule, ls, fs, s.Queries(), true, s.pid, s.stamp);
    assert found == temp;
    linked := LonePark(ls, fs, s, temp);
    var park := Park(ls, fs, temp, TempStem(fs, temp), s.pid, s.stamp);
    LoadStarts(ls, fs, s, park);
  }

  /** With nothing to recover of the episode, loading starts as recovering the rows does. */
  lemma LoadStarts(ls: Listing, fs: Image, s: Session, run: Run)
    requires Recover(ls, fs, s.Episode(), true, s.pid, s.stamp) == Run(Done, [])
    requires Recover(ls, fs, s.Queries(), true, s.pid, s.stamp) == run && run.outcome == Done
    ensures run.images <= Load(ls, fs, s).images
  {
    var pair := RecoverPair(ls, fs, s);
    assert pair == Run(Done, [] + run.images);
    assert pair.images == run.images;
  }

  lemma LonePark(ls: Listing, fs: Image, s: Session, temp: Name) returns (linked: Image)
    requires Lists(ls)
    requires temp == Temp(s.Queries(), s.pid, s.stamp) && fs == Created(EmptyImage, temp)
    ensures temp in linked.names && HalfAtomic(linked, s.split)
    ensures Park(ls, fs, temp, TempStem(fs, temp), s.pid, s.stamp) == Run(Done, [linked, Unlinked(linked, temp)])
  {
    var stem := TempStem(fs, temp);
    var listing := ls(fs, StemDir(stem));
    assert Enumerates(listing, fs, StemDir(stem));
    HeadListed(listing);
    SoleLinks(fs, temp);
    var entry := Entered(stem, Tag(s.pid, s.stamp, 0));
    linked := Linked(fs, temp, entry);
    assert Sole(Unlinked(linked, temp), entry);
    SoleLinks(Unlinked(linked, temp), entry);
    assert SameFile(linked, temp, entry);
  }
}
