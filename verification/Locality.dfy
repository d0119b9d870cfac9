/** How far an invocation reaches: it touches the names of its own pair only, and
    binds a final name only to the whole payload of its session. */
module Locality {
  import opened Images
  import opened Law
  import opened Recovery
  import opened Publication
  import opened Sessions

  /** A name of the pair. */
  predicate Beside(n: Name, split: Split, seed: nat) {
    !n.Foreign? && n.target.split == split && n.target.seed == seed
  }

  /** Other names are as they were: bound to the same inode with the same bytes. */
  ghost predicate Elsewhere(fs: Image, gs: Image, split: Split, seed: nat) {
    forall n :: !Beside(n, split, seed) ==>
      && (n in fs.names <==> n in gs.names)
      && (n in fs.names ==> gs.names[n] == fs.names[n] && Contents(gs, n) == Contents(fs, n))
  }

  function PayloadOf(s: Session, kind: Kind): Bytes {
    var rows := RowsPayload(s.identity, s.seed, s.rows);
    if kind == Kind.Queries then rows else DocPayload(s.identity, s.seed, rows)
  }

  /** `t` is bound to everything the session writes there. */
  ghost predicate PublishedBy(fs: Image, t: Target, s: Session) {
    && Final(t) in fs.names && SamePair(t, s.Episode())
    && Contents(fs, Final(t)) == PayloadOf(s, t.kind)
  }

  ghost predicate Unchanged(fs: Image, gs: Image, t: Target) {
    Final(t) in fs.names && Final(t) in gs.names && Contents(gs, Final(t)) == Contents(fs, Final(t))
  }

  /** What one session can have done by the time `gs`. */
  ghost predicate Reaches(fs: Image, gs: Image, s: Session) {
    && Elsewhere(fs, gs, s.split, s.seed)
    && forall t :: Final(t) in gs.names ==> Unchanged(fs, gs, t) || PublishedBy(gs, t, s)
  }

  ghost predicate AllReach(fs: Image, images: seq<Image>, s: Session) {
    forall k :: 0 <= k < |images| ==> Reaches(fs, images[k], s)
  }

  lemma ReachesTransitive(fs: Image, gs: Image, hs: Image, s: Session)
    requires Reaches(fs, gs, s) && Reaches(gs, hs, s)
    ensures Reaches(fs, hs, s)
  {
    forall t | Final(t) in hs.names ensures Unchanged(fs, hs, t) || PublishedBy(hs, t, s) {
      if !PublishedBy(hs, t, s) {
        assert Unchanged(gs, hs, t);
        assert !PublishedBy(gs, t, s);
        assert Unchanged(fs, gs, t);
      }
    }
  }

  lemma AllReachThen(fs: Image, a: seq<Image>, b: seq<Image>, s: Session)
    requires AllReach(fs, a, s) && AllReach(End(fs, a), b, s)
    ensures AllReach(fs, a + b, s)
  {
    forall k | 0 <= k < |a + b| ensures Reaches(fs, (a + b)[k], s) {
      if k >= |a| {
        if a == [] { assert End(fs, a) == fs; } else { ReachesTransitive(fs, End(fs, a), b[k - |a|], s); }
      }
    }
  }

  /* Loading writes nothing and publishes nothing. */

  ghost predicate Tidied(fs: Image, gs: Image, split: Split, seed: nat) {
    && gs.data == fs.data
    && (forall n :: !Beside(n, split, seed) ==>
          (n in fs.names <==> n in gs.names) && (n in fs.names ==> gs.names[n] == fs.names[n]))
    && (forall t: Target :: Final(t) in gs.names ==> Final(t) in fs.names && gs.names[Final(t)] == fs.names[Final(t)])
  }

  ghost predicate AllTidied(fs: Image, images: seq<Image>, split: Split, seed: nat) {
    forall k :: 0 <= k < |images| ==> Tidied(fs, images[k], split, seed)
  }

  lemma TidiedThen(fs: Image, a: seq<Image>, b: seq<Image>, split: Split, seed: nat)
    requires AllTidied(fs, a, split, seed) && AllTidied(End(fs, a), b, split, seed)
    ensures AllTidied(fs, a + b, split, seed)
  {}

  lemma ParkTidies(ls: Listing, fs: Image, path: Name, stem: Stem, pid: nat, stamp: nat)
    requires path in fs.names && Beside(path, stem.target.split, stem.target.seed)
    ensures AllTidied(fs, Park(ls, fs, path, stem, pid, stamp).images, stem.target.split, stem.target.seed)
  {}

  lemma {:induction false} RecoverEachTidies(
      ls: Listing, fs: Image, t: Target, linked: bool, temps: seq<Name>, pid: nat, stamp: nat)
    requires forall n <- temps :: n.Temp? && n.target == t
    ensures AllTidied(fs, RecoverEach(ls, fs, t, linked, temps, pid, stamp).images, t.split, t.seed)
    decreases |temps|
  {
    if temps != [] {
      assert temps[0] in temps;
      var first := RecoverOne(ls, fs, t, linked, temps[0], pid, stamp);
      if temps[0] in fs.names {
        ParkTidies(ls, fs, temps[0], AtomicStem(t, Sha256(Contents(fs, temps[0]))), pid, stamp);
      }
      assert AllTidied(fs, first.images, t.split, t.seed);
      var gs := End(fs, first.images);
      RecoverEachTidies(ls, gs, t, linked, temps[1..], pid, stamp);
      var rest := RecoverEach(ls, gs, t, linked, temps[1..], pid, stamp);
      TidiedThen(fs, first.images, rest.images, t.split, t.seed);
    }
  }

  lemma RecoverTidies(ls: Listing, fs: Image, t: Target, allow: bool, pid: nat, stamp: nat)
    ensures AllTidied(fs, Recover(ls, fs, t, allow, pid, stamp).images, t.split, t.seed)
  {
    var temps := TempsAmong(ls(fs, SplitDir(t.split)), t);
    RecoverEachTidies(ls, fs, t, Final(t) in fs.names, temps, pid, stamp);
  }

  lemma SettleTidies(ls: Listing, fs: Image, s: Session)
    ensures AllTidied(fs, Settle(ls, fs, s).images, s.split, s.seed)
  {
    forall t: Target | t in {s.Episode(), s.Queries()} && Final(t) in fs.names
      ensures AllTidied(fs, SettlePartial(ls, fs, t, s.identity, s.pid, s.stamp).images, s.split, s.seed)
    {
      ParkTidies(ls, fs, Final(t), PartialStem(t, s.identity, Sha256(Contents(fs, Final(t)))), s.pid, s.stamp);
    }
  }

  lemma RecoverPairTidies(ls: Listing, fs: Image, s: Session)
    ensures AllTidied(fs, RecoverPair(ls, fs, s).images, s.split, s.seed)
  {
    RecoverTidies(ls, fs, s.Episode(), true, s.pid, s.stamp);
    var first := Recover(ls, fs, s.Episode(), true, s.pid, s.stamp);
    if first.outcome != Refused {
      var gs := End(fs, first.images);
      RecoverTidies(ls, gs, s.Queries(), true, s.pid, s.stamp);
      TidiedThen(fs, first.images, Recover(ls, gs, s.Queries(), true, s.pid, s.stamp).images, s.split, s.seed);
    }
  }

  lemma LoadTidies(ls: Listing, fs: Image, s: Session)
    ensures AllTidied(fs, Load(ls, fs, s).images, s.split, s.seed)
  {
    RecoverPairTidies(ls, fs, s);
    var pair := RecoverPair(ls, fs, s);
    if pair.outcome != Refused {
      var gs := End(fs, pair.images);
      SettleTidies(ls, gs, s);
      TidiedThen(fs, pair.images, Settle(ls, gs, s).images, s.split, s.seed);
    }
  }

  lemma TidiedReaches(fs: Image, images: seq<Image>, s: Session)
    requires AllTidied(fs, images, s.split, s.seed)
    ensures AllReach(fs, images, s)
  {
    forall k | 0 <= k < |images| ensures Reaches(fs, images[k], s) {
      forall t | Final(t) in images[k].names ensures Unchanged(fs, images[k], t) {}
    }
  }

  /* Writing. */

  lemma PublishingReaches(fs: Image, gs: Image, t: Target, temp: Name, s: Session)
    requires temp.Temp? && temp.target == t && t in {s.Episode(), s.Queries()} && Final(t) !in fs.names
    requires Publishing(fs, gs, t, temp, PayloadOf(s, t.kind))
    ensures Reaches(fs, gs, s)
  {
    forall n | n in fs.names ensures n in gs.names && Contents(gs, n) == Contents(fs, n) {
      assert gs.data[..|fs.data|][fs.names[n]] == gs.data[gs.names[n]];
    }
    forall u | Final(u) in gs.names ensures Unchanged(fs, gs, u) || PublishedBy(gs, u, s) {
      if Final(u) !in fs.names { assert u == t; }
    }
  }

  lemma WriteNewReaches(ls: Listing, fs: Image, t: Target, s: Session)
    requires t in {s.Episode(), s.Queries()}
    ensures AllReach(fs, WriteNew(ls, fs, t, PayloadOf(s, t.kind), s.pid, s.stamp).images, s)
  {
    RecoverTidies(ls, fs, t, false, s.pid, s.stamp);
    var first := Recover(ls, fs, t, false, s.pid, s.stamp);
    TidiedReaches(fs, first.images, s);
    var gs := End(fs, first.images);
    if first.outcome != Refused {
      if Final(t) in gs.names {
        assert first.images + [] == first.images;
      } else {
        var publish := Publish(gs, t, PayloadOf(s, t.kind), s.pid, s.stamp);
        PublishWhole(gs, t, PayloadOf(s, t.kind), s.pid, s.stamp);
        forall k | 0 <= k < |publish.images| ensures Reaches(gs, publish.images[k], s) {
          PublishingReaches(gs, publish.images[k], t, Temp(t, s.pid, s.stamp), s);
        }
        AllReachThen(fs, first.images, publish.images, s);
      }
    }
  }

  lemma CommitReaches(ls: Listing, fs: Image, s: Session)
    ensures AllReach(fs, Commit(ls, fs, s).images, s)
  {
    WriteNewReaches(ls, fs, s.Queries(), s);
    var first := WriteNew(ls, fs, s.Queries(), PayloadOf(s, Kind.Queries), s.pid, s.stamp);
    if first.outcome != Refused {
      var gs := End(fs, first.images);
      WriteNewReaches(ls, gs, s.Episode(), s);
      var second := WriteNew(ls, gs, s.Episode(), PayloadOf(s, Kind.Episode), s.pid, s.stamp);
      AllReachThen(fs, first.images, second.images, s);
    }
  }

  /** At every point of an invocation the names of other pairs are untouched, bytes
      included, and every final name is as before or holds the whole payload of
      this session. */
  lemma CollectReaches(schedule: Schedule, ls: Listing, fs: Image, s: Session)
    ensures AllReach(fs, Collect(ls, schedule, fs, s).images, s)
  {
    LoadTidies(ls, fs, s);
    var load := Load(ls, fs, s);
    TidiedReaches(fs, load.images, s);
    var gs := End(fs, load.images);
    CommitReaches(ls, gs, s);
    AllReachThen(fs, load.images, Commit(ls, gs, s).images, s);
  }

  lemma SameReaches(fs: Image, s: Session)
    ensures Reaches(fs, fs, s)
  {
    forall t | Final(t) in fs.names ensures Unchanged(fs, fs, t) {}
  }
}
