/** The store itself: directory state updated call by call, with every
    intermediate image logged as a possible crash point. */
module Store {
  import opened Images
  import opened Law
  import opened Recovery
  import opened Validators
  import opened Verdicts
  import opened Sessions

  class Disk {
    var names: map<Name, nat>
    var data: seq<Bytes>
    /** The image after every system call so far. */
    ghost var log: seq<Image>
    const ls: Listing

    ghost predicate Valid()
      reads this
    {
      Bound(RawImage.Image(names, data))
    }

    function Snapshot(): Image
      requires Valid()
      reads this
    {
      RawImage.Image(names, data)
    }

    constructor (ls: Listing)
      ensures Valid() && Snapshot() == EmptyImage && log == [] && this.ls == ls
    {
      names, data, log := map[], [], [];
      this.ls := ls;
    }

    /** A process started on what an earlier one left behind. */
    constructor Mount(ls: Listing, fs: Image)
      ensures Valid() && Snapshot() == fs && log == [] && this.ls == ls
    {
      names, data, log := fs.names, fs.data, [];
      this.ls := ls;
    }

    method Create(n: Name)
      requires Valid() && n !in names
      modifies this`names, this`data, this`log
      ensures Valid() && Snapshot() == Created(old(Snapshot()), n) && log == old(log) + [Snapshot()]
    {
      names, data := names[n := |data|], data + [[]];
      log := log + [Snapshot()];
    }

    method Write(n: Name, bytes: Bytes)
      requires Valid() && n in names
      modifies this`data, this`log
      ensures Valid() && Snapshot() == Rewritten(old(Snapshot()), n, bytes) && log == old(log) + [Snapshot()]
    {
      data := data[names[n] := bytes];
      log := log + [Snapshot()];
    }

    method Link(n: Name, m: Name)
      requires Valid() && n in names && m !in names
      modifies this`names, this`log
      ensures Valid() && Snapshot() == Linked(old(Snapshot()), n, m) && log == old(log) + [Snapshot()]
    {
      names := names[m := names[n]];
      log := log + [Snapshot()];
    }

    method Unlink(n: Name)
      requires Valid() && n in names
      modifies this`names, this`log
      ensures Valid() && Snapshot() == Unlinked(old(Snapshot()), n) && log == old(log) + [Snapshot()]
    {
      names := names - {n};
      log := log + [Snapshot()];
    }

    /** The disk went through exactly the images of `run`. */
    ghost predicate Followed(before: seq<Image>, fs: Image, run: Run, outcome: Outcome)
      reads this
    {
      && Valid() && outcome == run.outcome
      && log == before + run.images && Snapshot() == End(fs, run.images)
    }

    static lemma Joined(before: seq<Image>, fs: Image, a: seq<Image>, b: seq<Image>)
      ensures before + a + b == before + (a + b)
      ensures End(End(fs, a), b) == End(fs, a + b)
    {}

    static ghost function Prefixed(images: seq<Image>, run: Run): Run {
      Run(run.outcome, images + run.images)
    }

    /** `_quarantine_link` */
    method QuarantineLink(path: Name, stem: Stem, pid: nat, stamp: nat) returns (outcome: Outcome)
      requires Valid() && path in names
      modifies this`names, this`log
      ensures Followed(old(log), old(Snapshot()), Park(ls, old(Snapshot()), path, stem, pid, stamp), outcome)
    {
      ghost var fs := Snapshot();
      var listing := ls(Snapshot(), StemDir(stem));
      var i := 0;
      while i < |listing|
        invariant 0 <= i <= |listing| && Valid() && Snapshot() == fs && log == old(log)
        invariant Scan(fs, listing, path, stem) == Scan(fs, listing[i..], path, stem)
      {
        var entry := listing[i];
        if !ValidEntry(Snapshot(), entry) { return Refused; }
        if SameFile(Snapshot(), entry, path) {
          if !HasStem(entry, stem) || Nlink(Snapshot(), path) != 2 { return Refused; }
          Unlink(path);
          return EntryLinks(Snapshot(), entry);
        }
        if Nlink(Snapshot(), entry) != 1 { return Refused; }
        i := i + 1;
      }
      if Nlink(Snapshot(), path) != 1 { return Refused; }
      var sequence := 0;
      while sequence < SEQUENCES && Entered(stem, Tag(pid, stamp, sequence)) in names
        invariant sequence <= SEQUENCES
        invariant FreeSequence(fs, stem, pid, stamp, 0) == FreeSequence(fs, stem, pid, stamp, sequence)
      {
        sequence := sequence + 1;
      }
      if sequence == SEQUENCES { return Refused; }
      var entry := Entered(stem, Tag(pid, stamp, sequence));
      Link(path, entry);
      Unlink(path);
      return EntryLinks(Snapshot(), entry);
    }

    /** One writer temp of `t`: dropped if it was published, else quarantined. */
    method RecoverTemp(t: Target, linked: bool, temp: Name, pid: nat, stamp: nat) returns (outcome: Outcome)
      requires Valid()
      modifies this`names, this`log
      ensures Followed(old(log), old(Snapshot()), RecoverOne(ls, old(Snapshot()), t, linked, temp, pid, stamp), outcome)
    {
      if temp !in names { return Refused; }
      if linked && SameFile(Snapshot(), temp, Final(t)) {
        Unlink(temp);
        return Done;
      }
      outcome := QuarantineLink(temp, AtomicStem(t, Sha256(Contents(Snapshot(), temp))), pid, stamp);
    }

    /** What is left of the loop over temps once it has handled some of them. */
    static lemma EachStep(
        ls: Listing, fs: Image, images: seq<Image>, now: Image, t: Target, linked: bool, temps: seq<Name>, pid: nat,
            stamp: nat)
      requires now == End(fs, images) && temps != []
      ensures var first := RecoverOne(ls, now, t, linked, temps[0], pid, stamp);
        if first.outcome == Refused
        then Prefixed(images, RecoverEach(ls, now, t, linked, temps, pid, stamp)) == Run(Refused, images + first.images)
        else
          var gs := End(now, first.images);
          && gs == End(fs, images + first.images)
          && Prefixed(images, RecoverEach(ls, now, t, linked, temps, pid, stamp))
               == Prefixed(images + first.images, RecoverEach(ls, gs, t, linked, temps[1..], pid, stamp))
    {
      var first := RecoverOne(ls, now, t, linked, temps[0], pid, stamp);
      if first.outcome != Refused {
        var rest := RecoverEach(ls, End(now, first.images), t, linked, temps[1..], pid, stamp);
        Joined(images, fs, images, first.images);
        Joined(images, now, first.images, rest.images);
      }
    }

    /** Before the first temp, and after the last. */
    static lemma EachEnds(ls: Listing, fs: Image, images: seq<Image>, now: Image, t: Target, linked: bool,
        temps: seq<Name>, pid: nat, stamp: nat)
      ensures Prefixed([], RecoverEach(ls, fs, t, linked, temps[0..], pid, stamp)) ==
        RecoverEach(ls, fs, t, linked, temps, pid, stamp)
      ensures Prefixed(images, RecoverEach(ls, now, t, linked, temps[|temps|..], pid, stamp)) == Run(Done, images)
    {
      assert temps[0..] == temps && images + [] == images;
      var run := RecoverEach(ls, fs, t, linked, temps, pid, stamp);
      assert [] + run.images == run.images;
    }

    method RecoverTemps(t: Target, linked: bool, temps: seq<Name>, pid: nat, stamp: nat) returns (outcome: Outcome)
      requires Valid()
      modifies this`names, this`log
      ensures Followed(old(log), old(Snapshot()), RecoverEach(ls, old(Snapshot()), t, linked, temps, pid, stamp),
        outcome)
    {
      ghost var before, fs, now, images := log, Snapshot(), Snapshot(), [];
      EachEnds(ls, fs, images, now, t, linked, temps, pid, stamp);
      var i := 0;
      while i < |temps|
        invariant 0 <= i <= |temps| && Valid() && Snapshot() == now
        invariant log == before + images && now == End(fs, images)
        invariant RecoverEach(ls, fs, t, linked, temps, pid, stamp)
          == Prefixed(images, RecoverEach(ls, now, t, linked, temps[i..], pid, stamp))
      {
        ghost var first := RecoverOne(ls, now, t, linked, temps[i], pid, stamp);
        EachStep(ls, fs, images, now, t, linked, temps[i..], pid, stamp);
        assert temps[i..][0] == temps[i] && temps[i..][1..] == temps[i + 1..];
        outcome := RecoverTemp(t, linked, temps[i], pid, stamp);
        Joined(before, fs, images, first.images);
        if outcome == Refused { return; }
        images := images + first.images;
        now := Snapshot();
        i := i + 1;
      }
      EachEnds(ls, fs, images, now, t, linked, temps, pid, stamp);
      outcome := Done;
    }

    /** `_recover_writer_temps` */
    method RecoverWriterTemps(t: Target, allowLinked: bool, pid: nat, stamp: nat) returns (outcome: Outcome)
      requires Valid()
      modifies this`names, this`log
      ensures Followed(old(log), old(Snapshot()), Recover(ls, old(Snapshot()), t, allowLinked, pid, stamp), outcome)
    {
      var linked := Final(t) in names;
      outcome := RecoverTemps(t, linked, TempsAmong(ls(Snapshot(), SplitDir(t.split)), t), pid, stamp);
      if outcome != Refused {
        outcome := FinalLinks(Snapshot(), t, linked, allowLinked);
      }
    }

    /** `_require_interrupted_quarantine_link` */
    method RequireInterrupted(path: Name, stem: Stem) returns (ok: bool)
      requires Valid() && path in names
      ensures ok <==> Interrupted(Snapshot(), ls(Snapshot(), StemDir(stem)), path, stem)
    {
      if Nlink(Snapshot(), path) != 2 { return false; }
      var listing := ls(Snapshot(), StemDir(stem));
      var matches: set<Name> := {};
      var i := 0;
      while i < |listing|
        invariant 0 <= i <= |listing|
        invariant forall c <- listing[..i] ::
          ValidEntry(Snapshot(), c) && (SameFile(Snapshot(), c, path) ==> HasStem(c, stem))
        invariant matches == set c | c in listing[..i] && SameFile(Snapshot(), c, path)
      {
        var c := listing[i];
        assert c in listing && listing[..i + 1] == listing[..i] + [c];
        if !ValidEntry(Snapshot(), c) { return false; }
        if SameFile(Snapshot(), c, path) {
          if !HasStem(c, stem) { return false; }
          matches := matches + {c};
        }
        i := i + 1;
      }
      assert listing[..i] == listing;
      return |matches| == 1;
    }

    /** `_quarantine_partial`, after the checks on a lone artifact. */
    method QuarantineLone(t: Target, identity: Identity, pid: nat, stamp: nat) returns (outcome: Outcome)
      requires Valid() && Final(t) in names
      modifies this`names, this`log
      ensures Followed(old(log), old(Snapshot()), SettlePartial(ls, old(Snapshot()), t, identity, pid, stamp), outcome)
    {
      var path := Final(t);
      var bytes := Contents(Snapshot(), path);
      var stem := PartialStem(t, identity, Sha256(bytes));
      var links := Nlink(Snapshot(), path);
      if links != 1 && links != 2 { return Refused; }
      if links == 2 {
        var interrupted := RequireInterrupted(path, stem);
        if !interrupted { return Refused; }
      }
      if !OwnsPartial(bytes, t.kind, identity) { return Refused; }
      outcome := QuarantineLink(path, stem, pid, stamp);
      if outcome != Refused { outcome := Missing; }
    }

    method RecoverBoth(s: Session) returns (outcome: Outcome)
      requires Valid()
      modifies this`names, this`log
      ensures Followed(old(log), old(Snapshot()), RecoverPair(ls, old(Snapshot()), s), outcome)
    {
      ghost var fs := Snapshot();
      ghost var first := Recover(ls, fs, s.Episode(), true, s.pid, s.stamp);
      outcome := RecoverWriterTemps(s.Episode(), true, s.pid, s.stamp);
      if outcome != Refused {
        ghost var second := Recover(ls, Snapshot(), s.Queries(), true, s.pid, s.stamp);
        outcome := RecoverWriterTemps(s.Queries(), true, s.pid, s.stamp);
        Joined(old(log), fs, first.images, second.images);
        assert RecoverPair(ls, fs, s) == Run(second.outcome, first.images + second.images);
      }
    }

    method Decide(s: Session) returns (outcome: Outcome)
      requires Valid()
      modifies this`names, this`log
      ensures Followed(old(log), old(Snapshot()), Settle(ls, old(Snapshot()), s), outcome)
    {
      var e, q := Final(s.Episode()), Final(s.Queries());
      if e !in names && q !in names {
        outcome := Missing;
      } else if e in names && q in names {
        outcome := Inspect(Snapshot(), s);
      } else {
        outcome := QuarantineLone(if e in names then s.Episode() else s.Queries(), s.identity, s.pid, s.stamp);
      }
    }

    /** `_load_complete` */
    method LoadComplete(s: Session) returns (outcome: Outcome)
      requires Valid()
      modifies this`names, this`log
      ensures Followed(old(log), old(Snapshot()), Load(ls, old(Snapshot()), s), outcome)
    {
      ghost var fs := Snapshot();
      ghost var pair := RecoverPair(ls, fs, s);
      outcome := RecoverBoth(s);
      if outcome != Refused {
        ghost var settled := Settle(ls, Snapshot(), s);
        outcome := Decide(s);
        Joined(old(log), fs, pair.images, settled.images);
        assert Load(ls, fs, s) == Run(settled.outcome, pair.images + settled.images);
      }
    }

    static lemma GrowStep(now: Image, temp: Name, written: nat, payload: Bytes)
      requires temp in now.names && written < |payload|
      ensures var cut, whole := Rewritten(now, temp, payload[..written] + [Torn]),
        Rewritten(now, temp, payload[..written + 1]);
        Growth(now, temp, payload[..written], payload) == [cut, whole]
            + Growth(whole, temp, payload[..written + 1], payload)
    {}

    static lemma Overwritten(now: Image, temp: Name, first: Bytes, second: Bytes)
      requires temp in now.names
      ensures Rewritten(Rewritten(now, temp, first), temp, second) == Rewritten(now, temp, second)
    {
      var i := now.names[temp];
      assert now.data[i := first][i := second] == now.data[i := second];
    }

    /** The payload reaches the file line by line. */
    method Grow(temp: Name, payload: Bytes)
      requires Valid() && temp in names
      modifies this`data, this`log
      ensures Valid() && log == old(log) + Growth(old(Snapshot()), temp, [], payload)
      ensures Snapshot() == End(old(Snapshot()), Growth(old(Snapshot()), temp, [], payload))
    {
      ghost var before, fs, now, images := log, Snapshot(), Snapshot(), [];
      ghost var growth := Growth(fs, temp, [], payload);
      assert payload[..0] == [] && [] + growth == growth;
      var written := 0;
      while written < |payload|
        invariant 0 <= written <= |payload| && Valid() && Snapshot() == now && temp in now.names
        invariant log == before + images && now == End(fs, images)
        invariant growth == images + Growth(now, temp, payload[..written], payload)
      {
        GrowStep(now, temp, written, payload);
        Overwritten(now, temp, payload[..written] + [Torn], payload[..written + 1]);
        Write(temp, payload[..written] + [Torn]);
        ghost var cut := Snapshot();
        Write(temp, payload[..written + 1]);
        now := Snapshot();
        Joined(images, fs, [cut, now], Growth(now, temp, payload[..written + 1], payload));
        images := images + [cut, now];
        written := written + 1;
      }
      assert payload[..written] == payload;
    }

    method PublishFile(t: Target, payload: Bytes, pid: nat, stamp: nat) returns (outcome: Outcome)
      requires Valid() && Final(t) !in names
      modifies this`names, this`data, this`log
      ensures Followed(old(log), old(Snapshot()), Publish(old(Snapshot()), t, payload, pid, stamp), outcome)
    {
      var temp := Temp(t, pid, stamp);
      if temp in names { return Refused; }
      Create(temp);
      Grow(temp, payload);
      Link(temp, Final(t));
      Unlink(temp);
      return Done;
    }

    /** `_write_new` */
    method WriteNewFile(t: Target, payload: Bytes, pid: nat, stamp: nat) returns (outcome: Outcome)
      requires Valid()
      modifies this`names, this`data, this`log
      ensures Followed(old(log), old(Snapshot()), WriteNew(ls, old(Snapshot()), t, payload, pid, stamp), outcome)
    {
      ghost var fs := Snapshot();
      ghost var recovered := Recover(ls, fs, t, false, pid, stamp);
      outcome := RecoverWriterTemps(t, false, pid, stamp);
      if outcome == Refused { return; }
      if Final(t) in names {
        Joined(old(log), fs, recovered.images, []);
        return Refused;
      }
      ghost var published := Publish(Snapshot(), t, payload, pid, stamp);
      outcome := PublishFile(t, payload, pid, stamp);
      Joined(old(log), fs, recovered.images, published.images);
      assert WriteNew(ls, fs, t, payload, pid, stamp) == Run(published.outcome, recovered.images + published.images);
    }

    method CommitPair(s: Session) returns (outcome: Outcome)
      requires Valid()
      modifies this`names, this`data, this`log
      ensures Followed(old(log), old(Snapshot()), Commit(ls, old(Snapshot()), s), outcome)
    {
      var rows := RowsPayload(s.identity, s.seed, s.rows);
      var doc := DocPayload(s.identity, s.seed, rows);
      ghost var fs := Snapshot();
      ghost var first := WriteNew(ls, fs, s.Queries(), rows, s.pid, s.stamp);
      outcome := WriteNewFile(s.Queries(), rows, s.pid, s.stamp);
      if outcome != Refused {
        ghost var second := WriteNew(ls, Snapshot(), s.Episode(), doc, s.pid, s.stamp);
        outcome := WriteNewFile(s.Episode(), doc, s.pid, s.stamp);
        Joined(old(log), fs, first.images, second.images);
        assert Commit(ls, fs, s) == Run(second.outcome, first.images + second.images);
      }
    }

    /** Every entry of the directory, through `_validate_quarantine_entry` and
        what follows it. */
    method ValidateQuarantine(schedule: Schedule, d: Dir) returns (ok: bool)
      requires Valid() && !d.SplitDir? && Enumerates(ls(Snapshot(), d), Snapshot(), d)
      ensures ok <==> forall c <- names :: DirOf(c) == d ==> QuarantineOk(schedule, Snapshot(), c)
      ensures ok <==> forall c <- names :: DirOf(c) == d ==> Evidence(schedule, Snapshot(), c)
    {
      forall c <- names { EntryExact(schedule, Snapshot(), c); }
      var listing := ls(Snapshot(), d);
      for i := 0 to |listing|
        invariant forall c <- listing[..i] :: QuarantineOk(schedule, Snapshot(), c)
      {
        assert listing[i] in listing && listing[..i + 1] == listing[..i] + [listing[i]];
        if !QuarantineOk(schedule, Snapshot(), listing[i]) { return false; }
      }
      assert listing[..|listing|] == listing;
      return true;
    }

    /** `_validate_collection_incomplete` */
    method ValidateIncomplete(schedule: Schedule) returns (ok: bool)
      requires Valid() && Lists(ls)
      ensures ok <==> IncompleteOk(schedule, Snapshot())
      ensures ok <==> forall c <- names :: !DirOf(c).SplitDir? ==> Evidence(schedule, Snapshot(), c)
    {
      IncompleteExact(schedule, Snapshot());
      var splits := [TrainBoard, SupportBoard, MarginBoard, OfflineBoard];
      ok := true;
      for i := 0 to |splits|
        invariant ok <==> forall c <- names :: InQuarantine(c) && DirOf(c).split in splits[..i] ==>
          QuarantineOk(schedule, Snapshot(), c)
      {
        assert splits[..i + 1] == splits[..i] + [splits[i]];
        var atomic := ValidateQuarantine(schedule, AtomicDir(splits[i]));
        var partial := ValidateQuarantine(schedule, PartialDir(splits[i]));
        ok := ok && atomic && partial;
      }
      assert splits[..|splits|] == splits;
      forall split: Split ensures split in splits {
        match split
        case TrainBoard => assert splits[0] == split;
        case SupportBoard => assert splits[1] == split;
        case MarginBoard => assert splits[2] == split;
        case OfflineBoard => assert splits[3] == split;
      }
    }

    /** `_validate_collection_split` */
    method ValidateSplit(schedule: Schedule, split: Split, allowTemps: bool, complete: bool) returns (ok: bool)
      requires Valid() && Lists(ls)
      ensures ok <==> SplitOk(schedule, Snapshot(), split, allowTemps, complete)
      ensures ok <==>
        && (forall c <- names :: !DirOf(c).SplitDir? ==> Evidence(schedule, Snapshot(), c))
        && (forall n <- names :: DirOf(n) == SplitDir(split) ==> Belongs(schedule, Snapshot(), n, allowTemps))
        && (complete ==> forall seed <- schedule(split), kind: Kind :: Final(Target(split, seed, kind)) in names)
    {
      SplitExact(schedule, Snapshot(), split, allowTemps, complete);
      ok := ValidateIncomplete(schedule);
      if !ok { return; }
      var listing := ls(Snapshot(), SplitDir(split));
      assert Enumerates(listing, Snapshot(), SplitDir(split));
      for i := 0 to |listing|
        invariant forall n <- listing[..i] :: SplitEntryOk(schedule, Snapshot(), n, allowTemps)
      {
        assert listing[i] in listing && listing[..i + 1] == listing[..i] + [listing[i]];
        if !SplitEntryOk(schedule, Snapshot(), listing[i], allowTemps) { return false; }
      }
      assert listing[..|listing|] == listing;
      return !complete || forall seed <- schedule(split) ::
        Final(Target(split, seed, Kind.Episode)) in names && Final(Target(split, seed, Kind.Queries)) in names;
    }

    /** `collect_episode`, as far as the disk is concerned. */
    method CollectEpisode(schedule: Schedule, s: Session) returns (outcome: Outcome)
      requires Valid() && Lists(ls)
      modifies this`names, this`data, this`log
      ensures Followed(old(log), old(Snapshot()), Collect(ls, schedule, old(Snapshot()), s), outcome)
      ensures Lawful(schedule, old(Snapshot())) && s.Valid() && s.seed in schedule(s.split) ==>
        forall k :: |old(log)| <= k < |log| ==> Advances(schedule, old(Snapshot()), log[k])
    {
      if Lawful(schedule, Snapshot()) && s.Valid() && s.seed in schedule(s.split) {
        CollectSafe(schedule, ls, Snapshot(), s);
      }
      var ok := ValidateSplit(schedule, s.split, true, false);
      if !ok { return Refused; }
      ghost var fs := Snapshot();
      ghost var load := Load(ls, fs, s);
      outcome := LoadComplete(s);
      if outcome != Missing { return; }
      ghost var commit := Commit(ls, Snapshot(), s);
      outcome := CommitPair(s);
      Joined(old(log), fs, load.images, commit.images);
      if outcome != Done { return Refused; }
      ok := ValidateSplit(schedule, s.split, true, false);
      if !ok { return Refused; }
      ok := ValidateIncomplete(schedule);
      return if ok then Complete(DocOf(s)) else Refused;
    }
  }
}
