/** What every on-disk state of the collection satisfies, and that each system
    call the collector makes keeps it. */
module Law {
  import opened Images

  /** The preregistered seeds of each split. */
  type Schedule = Split -> set<nat>

  function RowsPayload(owner: Identity, seed: nat, count: nat): Bytes {
    seq(count, (i: nat) => Row(owner, seed, i))
  }

  function DocPayload(owner: Identity, seed: nat, rows: Bytes): Bytes {
    [Doc(owner, seed, |rows|, Sha256(rows))]
  }

  function QueriesOf(t: Target): Target { t.(kind := Queries) }

  function EpisodeOf(t: Target): Target { t.(kind := Episode) }

  /** Completely written rows of one collector. */
  ghost predicate IsRows(seed: nat, rows: Bytes) {
    |rows| > 0 && rows[0].Row? && rows == RowsPayload(rows[0].owner, seed, |rows|)
  }

  ghost predicate NameLaw(schedule: Schedule, fs: Image, n: Name)
    requires n in fs.names
  {
    match n
    case Final(t) => t.seed in schedule(t.split) && (t.kind == Queries ==> IsRows(t.seed, Contents(fs, n)))
    case Temp(t, _, _) => t.seed in schedule(t.split)
    case Atomic(t, digest, tag) =>
      t.seed in schedule(t.split) && digest == Sha256(Contents(fs, n)) && tag.pid > 0 && tag.stamp > 0
    case Partial(t, identity, digest, tag) =>
      && t.seed in schedule(t.split) && digest == Sha256(Contents(fs, n)) && tag.pid > 0 && tag.stamp > 0
      && t.kind == Queries && IsRows(t.seed, Contents(fs, n)) && Contents(fs, n)[0].owner == identity
    case Foreign(_, _) => false
  }

  /** The only ways one inode may carry two names. */
  ghost predicate Partners(n: Name, m: Name) {
    match n
    case Temp(t, _, _) => m == Final(t) || (m.Atomic? && m.target == t)
    case Final(t) => m.Partial? && m.target == t
    case _ => false
  }

  ghost predicate NamesLaw(schedule: Schedule, fs: Image) {
    forall n <- fs.names :: NameLaw(schedule, fs, n)
  }

  ghost predicate LinksLaw(fs: Image) {
    forall n, m :: SameFile(fs, n, m) && n != m ==> Partners(n, m) || Partners(m, n)
  }

  predicate SamePair(t: Target, u: Target) { t.split == u.split && t.seed == u.seed }

  /** Each pair of artifacts, so each target, has at most one writer temp, and
      beside a published artifact only the temp it was published from. */
  ghost predicate TempsLaw(fs: Image) {
    && (forall n, m :: n in fs.names && m in fs.names && n.Temp? && m.Temp? && SamePair(n.target, m.target) ==> n == m)
    && (forall n :: n in fs.names && n.Temp? && Final(n.target) in fs.names ==> SameFile(fs, n, Final(n.target)))
  }

  /** The episode document is the commit record of its query file. */
  ghost predicate CommitLaw(fs: Image) {
    forall t: Target :: t.kind == Episode && Final(t) in fs.names ==> Committed(fs, t)
  }

  ghost predicate Committed(fs: Image, t: Target)
    requires Final(t) in fs.names
  {
    var q := Final(QueriesOf(t));
    && q in fs.names
    && IsRows(t.seed, Contents(fs, q))
    && Contents(fs, Final(t)) == DocPayload(Contents(fs, q)[0].owner, t.seed, Contents(fs, q))
    && forall m :: SameFile(fs, q, m) ==> m == q || m.Temp?
  }

  /** No inode was ever left without a name. */
  ghost predicate EvidenceLaw(fs: Image) {
    forall i :: 0 <= i < |fs.data| ==> Named(fs, i)
  }

  ghost predicate Named(fs: Image, i: nat) {
    exists n :: n in fs.names && fs.names[n] == i
  }

  /** The name is one of two: a move was cut short. */
  ghost predicate Half(fs: Image, n: Name) {
    exists m :: m != n && SameFile(fs, n, m)
  }

  /** Each quarantine directory holds at most one half-finished move. */
  ghost predicate HalfLaw(fs: Image) {
    forall n, m ::
      Quarantined(fs, n) && Quarantined(fs, m) && DirOf(n) == DirOf(m) && Half(fs, n) && Half(fs, m) ==> n == m
  }

  ghost predicate Quarantined(fs: Image, n: Name) {
    n in fs.names && (n.Atomic? || n.Partial?)
  }

  ghost predicate Lawful(schedule: Schedule, fs: Image) {
    NamesLaw(schedule, fs) && LinksLaw(fs) && TempsLaw(fs) && CommitLaw(fs) && EvidenceLaw(fs) && HalfLaw(fs)
  }

  lemma EmptyIsLawful(schedule: Schedule)
    ensures Lawful(schedule, EmptyImage)
  {}

  /** What a later image still holds of an earlier one: no inode disappears,
      published and quarantined bytes are frozen, a quarantine name is
      permanent, and a published name is given up only for a quarantine name
      that carries its digest. */
  ghost predicate Keeps(a: Image, b: Image) {
    && |a.data| <= |b.data|
    && (forall n :: n in a.names && (n.Final? || n.Atomic? || n.Partial?) ==> b.data[a.names[n]] == Contents(a, n))
    && (forall n :: n in a.names && (n.Atomic? || n.Partial?) ==> n in b.names && b.names[n] == a.names[n])
    && (forall t :: Final(t) in a.names ==> KeptFinal(a, b, t))
  }

  ghost predicate KeptFinal(a: Image, b: Image, t: Target)
    requires Final(t) in a.names
  {
    || (Final(t) in b.names && b.names[Final(t)] == a.names[Final(t)])
    || exists m <- b.names :: Parked(a, b, t, m)
  }

  ghost predicate Parked(a: Image, b: Image, t: Target, m: Name)
    requires Final(t) in a.names
  {
    m in b.names && m.Partial? && m.target == t && m.digest == Sha256(Contents(a, Final(t)))
        && b.names[m] == a.names[Final(t)]
  }

  lemma KeepsTransitive(a: Image, b: Image, c: Image)
    requires Keeps(a, b) && Keeps(b, c)
    ensures Keeps(a, c)
  {
    forall n | n in a.names && (n.Final? || n.Atomic? || n.Partial?) ensures c.data[a.names[n]] == Contents(a, n) {
      if n.Final? {
        if !(n in b.names && b.names[n] == a.names[n]) {
          assert KeptFinal(a, b, n.target);
          var m :| m in b.names && Parked(a, b, n.target, m);
        }
      } else {
        assert n in b.names;
      }
    }
    forall t | Final(t) in a.names ensures KeptFinal(a, c, t) {
      if Final(t) in b.names && b.names[Final(t)] == a.names[Final(t)] {
        assert KeptFinal(b, c, t);
        if !(Final(t) in c.names && c.names[Final(t)] == b.names[Final(t)]) {
          var m :| m in c.names && Parked(b, c, t, m);
          assert Parked(a, c, t, m);
        }
      } else {
        var m :| m in b.names && Parked(a, b, t, m);
        assert Parked(a, c, t, m);
      }
    }
  }

  /** `b` is lawful and has lost nothing that `a` held. */
  ghost predicate Advances(schedule: Schedule, a: Image, b: Image) {
    Lawful(schedule, b) && Keeps(a, b)
  }

  /** `gs` carries over the contents of every name that both images bind. */
  ghost predicate SameContents(fs: Image, gs: Image) {
    forall n :: n in fs.names && n in gs.names ==> fs.names[n] == gs.names[n] && Contents(gs, n) == Contents(fs, n)
  }

  lemma CommitCarries(fs: Image, gs: Image, t: Target)
    requires t.kind == Episode && Final(t) in fs.names && Committed(fs, t)
    requires Final(t) in gs.names && Contents(gs, Final(t)) == Contents(fs, Final(t))
    requires var q := Final(QueriesOf(t)); q in gs.names && Contents(gs, q) == Contents(fs, q)
    requires var q := Final(QueriesOf(t)); forall m :: SameFile(gs, q, m) && m != q ==> SameFile(fs, q, m) || m.Temp?
    ensures Committed(gs, t)
  {}

  /** A call that doubles no other entry keeps the directories to one move each. */
  lemma HalfCarries(fs: Image, gs: Image)
    requires HalfLaw(fs)
    requires forall n :: Quarantined(gs, n) && Half(gs, n) ==> Quarantined(fs, n) && Half(fs, n)
    ensures HalfLaw(gs)
  {}

  lemma CreateCommits(schedule: Schedule, fs: Image, n: Name)
    requires NamesLaw(schedule, fs) && CommitLaw(fs) && EvidenceLaw(fs) && n.Temp? && n !in fs.names
    ensures CommitLaw(Created(fs, n)) && EvidenceLaw(Created(fs, n))
  {
    var gs := Created(fs, n);
    forall t: Target | t.kind == Episode && Final(t) in gs.names ensures Committed(gs, t) {
      assert Committed(fs, t);
      CommitCarries(fs, gs, t);
    }
    forall i | 0 <= i < |gs.data| ensures Named(gs, i) {
      if i == |fs.data| { assert gs.names[n] == i; } else {
        assert Named(fs, i);
        var m :| m in fs.names && fs.names[m] == i;
        assert gs.names[m] == i;
      }
    }
  }

  lemma CreateNames(schedule: Schedule, fs: Image, n: Name)
    requires NamesLaw(schedule, fs) && TempsLaw(fs)
    requires n.Temp? && n !in fs.names && n.target.seed in schedule(n.target.split)
    requires Final(n.target) !in fs.names
    requires forall m :: m in fs.names && m.Temp? ==> !SamePair(m.target, n.target)
    ensures NamesLaw(schedule, Created(fs, n)) && TempsLaw(Created(fs, n))
  {
    var gs := Created(fs, n);
    forall m <- gs.names ensures NameLaw(schedule, gs, m) {
      if m != n { assert NameLaw(schedule, fs, m) && Contents(gs, m) == Contents(fs, m); }
    }
  }

  lemma CreateAdvances(schedule: Schedule, fs: Image, n: Name)
    requires Lawful(schedule, fs)
    requires n.Temp? && n !in fs.names && n.target.seed in schedule(n.target.split)
    requires Final(n.target) !in fs.names
    requires forall m :: m in fs.names && m.Temp? ==> !SamePair(m.target, n.target)
    ensures Advances(schedule, fs, Created(fs, n))
    ensures Sole(Created(fs, n), n)
  {
    var gs := Created(fs, n);
    assert SameContents(fs, gs);
    assert forall m, k :: SameFile(gs, m, k) && m != k ==> SameFile(fs, m, k);
    CreateNames(schedule, fs, n);
    HalfCarries(fs, gs);
    CreateCommits(schedule, fs, n);
  }

  lemma RewriteAdvances(schedule: Schedule, fs: Image, n: Name, bytes: Bytes)
    requires Lawful(schedule, fs) && n.Temp? && Sole(fs, n)
    ensures Advances(schedule, fs, Rewritten(fs, n, bytes))
    ensures Sole(Rewritten(fs, n, bytes), n)
  {
    var gs := Rewritten(fs, n, bytes);
    forall m | m in fs.names && m != n ensures Contents(gs, m) == Contents(fs, m) {
      assert !SameFile(fs, n, m);
    }
    assert forall m, k :: SameFile(gs, m, k) <==> SameFile(fs, m, k);
    HalfCarries(fs, gs);
    assert CommitLaw(gs) by {
      forall t: Target | t.kind == Episode && Final(t) in gs.names ensures Committed(gs, t) {
        CommitCarries(fs, gs, t);
      }
    }
    assert EvidenceLaw(gs) by {
      forall i | 0 <= i < |gs.data| ensures Named(gs, i) { assert Named(fs, i); }
    }
  }

  function OwnerOf(line: Line): Identity {
    match line
    case Row(owner, _, _) => owner
    case Doc(owner, _, _, _) => owner
    case Torn => 0
  }

  /** The link may be made: either a complete payload is published, or a
      remnant is entered into quarantine under its digest. */
  ghost predicate MayLink(fs: Image, n: Name, m: Name) {
    && Sole(fs, n) && m !in fs.names
    && Partners(n, m)
    && (!m.Final? ==> forall k :: Quarantined(fs, k) && DirOf(k) == DirOf(m) ==> !Half(fs, k))
    && match m
       case Final(t) => MayPublish(fs, t, Contents(fs, n))
       case Atomic(t, digest, tag) => digest == Sha256(Contents(fs, n)) && tag.pid > 0 && tag.stamp > 0
       case Partial(t, identity, digest, tag) =>
         && digest == Sha256(Contents(fs, n)) && tag.pid > 0 && tag.stamp > 0
         && t.kind == Queries && Contents(fs, n) != [] && identity == OwnerOf(Contents(fs, n)[0])
         && Final(EpisodeOf(t)) !in fs.names
       case _ => false
  }

  /** Query rows go first; the episode document names the rows already there. */
  ghost predicate MayPublish(fs: Image, t: Target, payload: Bytes) {
    if t.kind == Queries then IsRows(t.seed, payload) && Final(EpisodeOf(t)) !in fs.names
    else
      var q := Final(QueriesOf(t));
      && Sole(fs, q) && IsRows(t.seed, Contents(fs, q))
      && payload == DocPayload(Contents(fs, q)[0].owner, t.seed, Contents(fs, q))
  }

  lemma LinkedSameFile(fs: Image, n: Name, m: Name, j: Name, k: Name)
    requires Sole(fs, n) && m !in fs.names && SameFile(Linked(fs, n, m), j, k) && j != k
    ensures SameFile(fs, j, k) || (j == n && k == m) || (j == m && k == n)
  {
    if j == m { assert SameFile(fs, n, k); } else if k == m { assert SameFile(fs, n, j); }
  }

  lemma LinkAdvances(schedule: Schedule, fs: Image, n: Name, m: Name)
    requires Lawful(schedule, fs) && MayLink(fs, n, m)
    ensures Advances(schedule, fs, Linked(fs, n, m))
    ensures Twin(Linked(fs, n, m), n, m)
  {
    var gs := Linked(fs, n, m);
    assert NameLaw(schedule, fs, n);
    assert SameContents(fs, gs);
    assert NameLaw(schedule, gs, m);
    forall j, k | SameFile(gs, j, k) && j != k ensures Partners(j, k) || Partners(k, j) {
      LinkedSameFile(fs, n, m, j, k);
    }
    forall k | SameFile(gs, n, k) ensures k == n || k == m {
      if k != n { LinkedSameFile(fs, n, m, n, k); }
    }
    LinkTemps(schedule, fs, n, m);
    LinkHalves(schedule, fs, n, m);
    LinkCommits(schedule, fs, n, m);
    assert EvidenceLaw(gs) by {
      forall i | 0 <= i < |gs.data| ensures Named(gs, i) {
        assert Named(fs, i);
        var k :| k in fs.names && fs.names[k] == i;
        assert gs.names[k] == i;
      }
    }
  }

  lemma LinkTemps(schedule: Schedule, fs: Image, n: Name, m: Name)
    requires Lawful(schedule, fs) && MayLink(fs, n, m)
    ensures TempsLaw(Linked(fs, n, m))
  {}

  lemma LinkHalves(schedule: Schedule, fs: Image, n: Name, m: Name)
    requires HalfLaw(fs) && MayLink(fs, n, m)
    ensures HalfLaw(Linked(fs, n, m))
  {
    var gs := Linked(fs, n, m);
    forall k | Quarantined(gs, k) && Half(gs, k) && k != m ensures Quarantined(fs, k) && Half(fs, k) {
      var j :| j != k && SameFile(gs, k, j);
      LinkedSameFile(fs, n, m, k, j);
    }
  }

  lemma LinkCommits(schedule: Schedule, fs: Image, n: Name, m: Name)
    requires Lawful(schedule, fs) && MayLink(fs, n, m)
    ensures CommitLaw(Linked(fs, n, m))
  {
    var gs := Linked(fs, n, m);
    assert SameContents(fs, gs);
    forall t: Target | t.kind == Episode && Final(t) in gs.names ensures Committed(gs, t) {
      var q := Final(QueriesOf(t));
      forall k | SameFile(gs, q, k) && k != q ensures SameFile(fs, q, k) || k.Temp? {
        LinkedSameFile(fs, n, m, q, k);
      }
      if Final(t) in fs.names {
        assert Committed(fs, t);
        CommitCarries(fs, gs, t);
      } else {
        assert m == Final(t);
        assert forall k :: SameFile(fs, q, k) ==> k == q;
      }
    }
  }

  /** A name may be dropped once its inode has another: the final name of a
      published temp, or the quarantine name of a remnant. */
  lemma UnlinkAdvances(schedule: Schedule, fs: Image, n: Name, m: Name)
    requires Lawful(schedule, fs) && Twin(fs, n, m) && Partners(n, m)
    ensures Advances(schedule, fs, Unlinked(fs, n))
    ensures Sole(Unlinked(fs, n), m)
  {
    var gs := Unlinked(fs, n);
    assert SameContents(fs, gs);
    assert forall j, k :: SameFile(gs, j, k) ==> SameFile(fs, j, k);
    UnlinkCommits(fs, n, m);
    HalfCarries(fs, gs);
    forall k | SameFile(gs, m, k) ensures k == m { assert SameFile(fs, n, k); }
    assert EvidenceLaw(gs) by {
      forall i | 0 <= i < |gs.data| ensures Named(gs, i) {
        assert Named(fs, i);
        var k :| k in fs.names && fs.names[k] == i;
        if k == n { assert gs.names[m] == i; } else { assert gs.names[k] == i; }
      }
    }
    assert NameLaw(schedule, fs, m);
    if n.Final? { assert Parked(fs, gs, n.target, m); }
    assert Lawful(schedule, gs);
    assert Keeps(fs, gs) by {
      forall t | Final(t) in fs.names ensures KeptFinal(fs, gs, t) {}
    }
  }

  lemma UnlinkCommits(fs: Image, n: Name, m: Name)
    requires CommitLaw(fs) && Twin(fs, n, m) && Partners(n, m)
    ensures CommitLaw(Unlinked(fs, n))
  {
    var gs := Unlinked(fs, n);
    forall t: Target | t.kind == Episode && Final(t) in gs.names ensures Committed(gs, t) {
      assert Committed(fs, t);
      var q := Final(QueriesOf(t));
      assert SameFile(fs, n, m);
      assert n != q;
      assert forall k :: SameFile(gs, q, k) ==> SameFile(fs, q, k);
      CommitCarries(fs, gs, t);
    }
  }
}
