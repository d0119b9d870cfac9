/** Recovery: every program of the collector is crash-safe, and loading a pair
    of artifacts leaves it either committed or absent, with nothing half done. */
module Convergence {
  import opened Images
  import opened Law
  import opened Recovery
  import opened Safety

  ghost predicate NoTemps(fs: Image, t: Target) {
    forall n :: n in fs.names && n.Temp? ==> n.target != t
  }

  /** `gs` is `fs` with the writer temps of `t` gone, and at most a quarantine
      entry more. */
  ghost predicate Cleared(fs: Image, gs: Image, t: Target) {
    && NoTemps(gs, t)
    && SameContents(fs, gs)
    && (forall n :: n in fs.names && !(n.Temp? && n.target == t) ==> n in gs.names)
    && (forall n :: n in gs.names && n !in fs.names ==> n.Atomic? && Sole(gs, n))
  }

  lemma {:induction false} TempsDistinct(listing: seq<Name>, t: Target)
    requires forall i, j :: 0 <= i < j < |listing| ==> listing[i] != listing[j]
    ensures var r := TempsAmong(listing, t); forall i, j :: 0 <= i < j < |r| ==> r[i] != r[j]
  {
    if listing != [] {
      TempsDistinct(listing[1..], t);
      assert listing[0] !in TempsAmong(listing[1..], t);
    }
  }

  /** A lawful directory holds no temp of `t`, or one. */
  lemma LawTemps(ls: Listing, fs: Image, t: Target)
    requires Lists(ls) && TempsLaw(fs)
    ensures var r := TempsAmong(ls(fs, SplitDir(t.split)), t);
      if NoTemps(fs, t) then r == [] else |r| == 1 && r[0] in fs.names && r[0].Temp? && r[0].target == t
  {
    var listing := ls(fs, SplitDir(t.split));
    assert Enumerates(listing, fs, SplitDir(t.split));
    var r := TempsAmong(listing, t);
    assert forall n :: n in r <==> n in fs.names && n.Temp? && n.target == t;
    if r == [] {
      forall n | n in fs.names && n.Temp? ensures n.target != t { assert n !in r; }
    } else {
      assert r[0] in r;
      if |r| > 1 {
        assert r[1] in r;
        assert r[0] == r[1];
        TempsDistinct(listing, t);
        assert false;
      }
    }
  }

  /** The quarantine stem of a torn or unlinked writer temp. */
  function TempStem(fs: Image, temp: Name): Stem
    requires temp in fs.names && temp.Temp?
  {
    AtomicStem(temp.target, Sha256(Contents(fs, temp)))
  }

  /** `_recover_writer_temps` with no temp to recover. */
  lemma RecoverNothing(schedule: Schedule, ls: Listing, fs: Image, t: Target, allow: bool, pid: nat, stamp: nat)
    requires Lists(ls) && Lawful(schedule, fs) && NoTemps(fs, t)
    ensures Recover(ls, fs, t, allow, pid, stamp) ==
      Run(if Final(t) in fs.names && !allow && !Sole(fs, Final(t)) then Refused else Done, [])
  {
    LawTemps(ls, fs, t);
    if Final(t) in fs.names { LawLinks(schedule, fs, Final(t)); }
  }

  lemma UnlinkClears(schedule: Schedule, fs: Image, temp: Name)
    requires Lawful(schedule, fs) && temp in fs.names && temp.Temp?
    ensures Cleared(fs, Unlinked(fs, temp), temp.target)
  {}

  /** `_recover_writer_temps` after a crash between publishing and unlinking. */
  lemma RecoverPublished(schedule: Schedule, ls: Listing, fs: Image, t: Target, allow: bool, pid: nat, stamp: nat)
    returns (temp: Name)
    requires Lists(ls) && Lawful(schedule, fs) && !NoTemps(fs, t) && Final(t) in fs.names
    ensures temp.Temp? && temp.target == t && Twin(fs, temp, Final(t))
    ensures Recover(ls, fs, t, allow, pid, stamp) == Run(Done, [Unlinked(fs, temp)])
    ensures Advances(schedule, fs, Unlinked(fs, temp))
    ensures Cleared(fs, Unlinked(fs, temp), t)
  {
    LawTemps(ls, fs, t);
    var temps := TempsAmong(ls(fs, SplitDir(t.split)), t);
    temp := temps[0];
    assert SameFile(fs, temp, Final(t));
    LawTwin(schedule, fs, temp, Final(t));
    UnlinkAdvances(schedule, fs, temp, Final(t));
    UnlinkClears(schedule, fs, temp);
    RecoverUnlinks(ls, fs, t, temps, allow, pid, stamp);
  }

  lemma RecoverUnlinks(ls: Listing, fs: Image, t: Target, temps: seq<Name>, allow: bool, pid: nat, stamp: nat)
    requires temps == TempsAmong(ls(fs, SplitDir(t.split)), t) && |temps| == 1
    requires SameFile(fs, temps[0], Final(t)) && Sole(Unlinked(fs, temps[0]), Final(t))
    ensures Recover(ls, fs, t, allow, pid, stamp) == Run(Done, [Unlinked(fs, temps[0])])
  {
    var gs := Unlinked(fs, temps[0]);
    SoleLinks(gs, Final(t));
    assert RecoverEach(ls, gs, t, true, temps[1..], pid, stamp) == Run(Done, []);
    assert [gs] + [] == [gs];
  }

  /** `_recover_writer_temps` after a crash before publishing. */
  lemma RecoverRemnant(schedule: Schedule, ls: Listing, fs: Image, t: Target, allow: bool, pid: nat, stamp: nat)
    returns (temp: Name)
    requires Lists(ls) && Lawful(schedule, fs) && !NoTemps(fs, t) && Final(t) !in fs.names && pid > 0 && stamp > 0
    ensures temp in fs.names && temp.Temp? && temp.target == t && IsRemnant(fs, temp, TempStem(fs, temp))
    ensures var run := Park(ls, fs, temp, TempStem(fs, temp), pid, stamp);
      && Recover(ls, fs, t, allow, pid, stamp) == run
      && Safe(schedule, fs, run.images)
      && (run.outcome == Done ==> Cleared(fs, End(fs, run.images), t))
  {
    LawTemps(ls, fs, t);
    var temps := TempsAmong(ls(fs, SplitDir(t.split)), t);
    temp := temps[0];
    ParkRefusal(schedule, ls, fs, temp, TempStem(fs, temp), pid, stamp);
    ParkSafe(schedule, ls, fs, temp, TempStem(fs, temp), pid, stamp);
    var run := Park(ls, fs, temp, TempStem(fs, temp), pid, stamp);
    assert temps[1..] == [];
    assert RecoverEach(ls, End(fs, run.images), t, false, [], pid, stamp) == Run(Done, []);
    assert run.images + [] == run.images;
    assert Recover(ls, fs, t, allow, pid, stamp) == run;
  }

  /** `_recover_writer_temps` is crash-safe; when it is not refused no temp is
      left, and when it is refused nothing was touched. */
  lemma RecoverSafe(schedule: Schedule, ls: Listing, fs: Image, t: Target, allow: bool, pid: nat, stamp: nat)
    requires Lists(ls) && Lawful(schedule, fs) && pid > 0 && stamp > 0
    ensures var run := Recover(ls, fs, t, allow, pid, stamp);
      && Safe(schedule, fs, run.images)
      && run.outcome in {Done, Refused}
      && (run.outcome == Done ==> Cleared(fs, End(fs, run.images), t))
      && (run.outcome == Refused ==> run.images == [])
  {
    if NoTemps(fs, t) {
      RecoverNothing(schedule, ls, fs, t, allow, pid, stamp);
    } else if Final(t) in fs.names {
      var _ := RecoverPublished(schedule, ls, fs, t, allow, pid, stamp);
    } else {
      var temp := RecoverRemnant(schedule, ls, fs, t, allow, pid, stamp);
      ParkRefusal(schedule, ls, fs, temp, TempStem(fs, temp), pid, stamp);
    }
  }

  /** The rows on disk, if any, are this session's own. */
  ghost predicate Owned(fs: Image, s: Session) {
    Final(s.Queries()) in fs.names ==>
      Contents(fs, Final(s.Queries())) != [] && OwnerOf(Contents(fs, Final(s.Queries()))[0]) == s.identity
  }

  /** Both artifacts are published, singly linked and bound to each other. */
  ghost predicate Settled(fs: Image, s: Session) {
    var e, q := Final(s.Episode()), Final(s.Queries());
    && Sole(fs, e) && Sole(fs, q)
    && IsRows(s.seed, Contents(fs, q)) && Contents(fs, q)[0].owner == s.identity
    && Contents(fs, e) == DocPayload(s.identity, s.seed, Contents(fs, q))
  }

  ghost predicate NoPairTemps(fs: Image, s: Session) {
    NoTemps(fs, s.Episode()) && NoTemps(fs, s.Queries())
  }

  ghost predicate Absent(fs: Image, s: Session) {
    Final(s.Episode()) !in fs.names && Final(s.Queries()) !in fs.names
  }

  function PartialStemOf(fs: Image, s: Session): Stem
    requires Final(s.Queries()) in fs.names
  {
    PartialStem(s.Queries(), s.identity, Sha256(Contents(fs, Final(s.Queries()))))
  }

  /** The pair on disk is committed, so `_load_complete` accepts it exactly when
      it is this collector's. */
  lemma InspectMeaning(schedule: Schedule, fs: Image, s: Session)
    requires Lawful(schedule, fs) && NoPairTemps(fs, s) && Final(s.Episode()) in fs.names
    ensures Final(s.Queries()) in fs.names
    ensures if Owned(fs, s) then Settled(fs, s) && Inspect(fs, s) == Complete(Contents(fs, Final(s.Episode()))[0])
            else Inspect(fs, s) == Refused
  {
    var e, q := Final(s.Episode()), Final(s.Queries());
    assert Committed(fs, s.Episode());
    assert QueriesOf(s.Episode()) == s.Queries();
    forall m | SameFile(fs, q, m) ensures m == q { assert Partners(q, m) || Partners(m, q) || m == q; }
    forall m | SameFile(fs, e, m) ensures m == e { assert NameLaw(schedule, fs, m); }
    SoleLinks(fs, e);
    SoleLinks(fs, q);
  }

  lemma LoneInterrupted(schedule: Schedule, ls: Listing, fs: Image, s: Session)
    requires Lists(ls) && Lawful(schedule, fs) && NoPairTemps(fs, s) && Owned(fs, s)
    requires Final(s.Queries()) in fs.names && Final(s.Episode()) !in fs.names
    requires Nlink(fs, Final(s.Queries())) == 2
    ensures var stem := PartialStemOf(fs, s); Interrupted(fs, ls(fs, StemDir(stem)), Final(s.Queries()), stem)
  {
    var q := Final(s.Queries());
    var stem := PartialStemOf(fs, s);
    var listing := ls(fs, StemDir(stem));
    assert Enumerates(listing, fs, StemDir(stem));
    assert EpisodeOf(s.Queries()) == s.Episode();
    LawLinks(schedule, fs, q);
    var m :| m != q && SameFile(fs, q, m);
    assert SameFile(fs, m, q);
    RemnantTwin(schedule, fs, q, stem, m);
    forall c <- listing ensures ValidEntry(fs, c) && (SameFile(fs, c, q) ==> c == m && HasStem(c, stem)) {
      assert NameLaw(schedule, fs, c);
      if SameFile(fs, c, q) { assert SameFile(fs, q, c); }
    }
    assert (set c <- listing | SameFile(fs, c, q)) == {m};
  }

  lemma LoneOwned(schedule: Schedule, fs: Image, s: Session)
    requires Lawful(schedule, fs) && Final(s.Queries()) in fs.names
    ensures OwnsPartial(Contents(fs, Final(s.Queries())), Kind.Queries, s.identity) <==> Owned(fs, s)
  {
    var rows := Contents(fs, Final(s.Queries()));
    assert NameLaw(schedule, fs, Final(s.Queries()));
    assert rows[0] in rows;
  }

  /** A lone query file is quarantined, unless it is foreign or the move is
      refused. */
  lemma SettleLone(schedule: Schedule, ls: Listing, fs: Image, s: Session)
    requires Lists(ls) && Lawful(schedule, fs) && NoPairTemps(fs, s) && s.Valid()
    requires Final(s.Queries()) in fs.names && Final(s.Episode()) !in fs.names
    ensures var stem := PartialStemOf(fs, s); var park := Park(ls, fs, Final(s.Queries()), stem, s.pid, s.stamp);
      && (Owned(fs, s) ==> IsRemnant(fs, Final(s.Queries()), stem))
      && Settle(ls, fs, s) ==
           if !Owned(fs, s) || park.outcome == Refused then Run(Refused, []) else Run(Missing, park.images)
  {
    LoneOwned(schedule, fs, s);
    LawLinks(schedule, fs, Final(s.Queries()));
    assert EpisodeOf(s.Queries()) == s.Episode();
    if Owned(fs, s) {
      if Nlink(fs, Final(s.Queries())) == 2 { LoneInterrupted(schedule, ls, fs, s); }
      ParkRefusal(schedule, ls, fs, Final(s.Queries()), PartialStemOf(fs, s), s.pid, s.stamp);
    }
  }

  /** Deciding what to do with the pair, once its temps are gone. */
  lemma SettleSafe(schedule: Schedule, ls: Listing, fs: Image, s: Session)
    requires Lists(ls) && Lawful(schedule, fs) && NoPairTemps(fs, s) && s.Valid()
    ensures var run := Settle(ls, fs, s);
      && Safe(schedule, fs, run.images)
      && NoPairTemps(End(fs, run.images), s)
      && match run.outcome
         case Done => false
         case Missing => Absent(End(fs, run.images), s)
         case Complete(doc) => run.images == [] && Settled(fs, s) && [doc] == Contents(fs, Final(s.Episode()))
         case Refused => run.images == []
  {
    if Final(s.Episode()) in fs.names {
      InspectMeaning(schedule, fs, s);
    } else if Final(s.Queries()) in fs.names {
      SettleLone(schedule, ls, fs, s);
      if Owned(fs, s) {
        ParkSafe(schedule, ls, fs, Final(s.Queries()), PartialStemOf(fs, s), s.pid, s.stamp);
        ParkRefusal(schedule, ls, fs, Final(s.Queries()), PartialStemOf(fs, s), s.pid, s.stamp);
      }
    }
  }

  lemma ClearedNoTemps(fs: Image, gs: Image, t: Target, u: Target)
    requires Cleared(fs, gs, t) && NoTemps(fs, u)
    ensures NoTemps(gs, u)
  {}

  lemma RecoverPairSafe(schedule: Schedule, ls: Listing, fs: Image, s: Session)
    requires Lists(ls) && Lawful(schedule, fs) && s.Valid()
    ensures var run := RecoverPair(ls, fs, s);
      && Safe(schedule, fs, run.images)
      && run.outcome in {Done, Refused}
      && (run.outcome == Done ==> NoPairTemps(End(fs, run.images), s))
  {
    RecoverSafe(schedule, ls, fs, s.Episode(), true, s.pid, s.stamp);
    var first := Recover(ls, fs, s.Episode(), true, s.pid, s.stamp);
    if first.outcome == Done {
      var gs := End(fs, first.images);
      SafeEnd(schedule, fs, first.images);
      RecoverSafe(schedule, ls, gs, s.Queries(), true, s.pid, s.stamp);
      var second := Recover(ls, gs, s.Queries(), true, s.pid, s.stamp);
      SafeThen(schedule, fs, first.images, second.images);
      if second.outcome == Done { ClearedNoTemps(gs, End(gs, second.images), s.Queries(), s.Episode()); }
    }
  }

  /** `_load_complete` is crash-safe.  When it is not refused the pair has no
      temps and is either absent or settled, and the document handed back is
      the one published. */
  lemma LoadSettles(schedule: Schedule, ls: Listing, fs: Image, s: Session)
    requires Lists(ls) && Lawful(schedule, fs) && s.Valid()
    ensures var run := Load(ls, fs, s); var gs := End(fs, run.images);
      && Safe(schedule, fs, run.images)
      && (run.outcome != Refused ==> NoPairTemps(gs, s))
      && match run.outcome
         case Done => false
         case Missing => Absent(gs, s)
         case Complete(doc) => Settled(gs, s) && [doc] == Contents(gs, Final(s.Episode()))
         case Refused => true
  {
    RecoverPairSafe(schedule, ls, fs, s);
    var pair := RecoverPair(ls, fs, s);
    if pair.outcome == Done {
      SafeEnd(schedule, fs, pair.images);
      var gs := End(fs, pair.images);
      SettleSafe(schedule, ls, gs, s);
      SafeThen(schedule, fs, pair.images, Settle(ls, gs, s).images);
    }
  }

  /** Loading again changes nothing and gives the same answer, at any later
      instant and in any listing order. */
  lemma LoadIdempotent(schedule: Schedule, ls: Listing, fs: Image, s: Session, ls': Listing, pid: nat, stamp: nat)
    requires Lists(ls) && Lists(ls') && Lawful(schedule, fs) && s.Valid() && pid > 0 && stamp > 0
    requires Load(ls, fs, s).outcome != Refused
    ensures var run := Load(ls, fs, s);
      Load(ls', End(fs, run.images), s.(pid := pid, stamp := stamp)) == Run(run.outcome, [])
  {
    LoadSettles(schedule, ls, fs, s);
    var run := Load(ls, fs, s);
    var gs := End(fs, run.images);
    SafeEnd(schedule, fs, run.images);
    var again := s.(pid := pid, stamp := stamp);
    RecoverNothing(schedule, ls', gs, s.Episode(), true, pid, stamp);
    RecoverNothing(schedule, ls', gs, s.Queries(), true, pid, stamp);
    if run.outcome.Complete? { InspectMeaning(schedule, gs, again); }
  }
}
