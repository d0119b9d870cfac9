/** The collector's storage programs as functions from an image to the run they
    make: the outcome, and the image after every system call.  Cutting the
    sequence of images short is a crash. */
module Recovery {
  import opened Images
  import opened Law

  datatype Outcome = Done | Missing | Complete(doc: Line) | Refused

  datatype Run = Run(outcome: Outcome, images: seq<Image>)

  function End(fs: Image, images: seq<Image>): Image {
    if images == [] then fs else images[|images| - 1]
  }

  /** `next` runs from where `run` ended, if `run` was not refused. */
  function Then(fs: Image, run: Run, next: Image -> Run): Run {
    if run.outcome == Refused then run
    else
      var more := next(End(fs, run.images));
      Run(more.outcome, run.images + more.images)
  }

  /** Everything one invocation brings along: what it collects, who it is, and
      the number of query rows its episode yields. */
  datatype Session = Session(split: Split, seed: nat, identity: Identity, pid: nat, stamp: nat, rows: nat)
  {
    function Episode(): Target { Target(split, seed, Kind.Episode) }
    function Queries(): Target { Target(split, seed, Kind.Queries) }
    ghost predicate Valid() { pid > 0 && stamp > 0 && rows > 0 }
  }

  /* _quarantine_link */

  datatype Stem =
    | AtomicStem(target: Target, digest: Digest)
    | PartialStem(target: Target, identity: Identity, digest: Digest)

  function StemDir(stem: Stem): Dir {
    if stem.AtomicStem? then AtomicDir(stem.target.split) else PartialDir(stem.target.split)
  }

  function Entered(stem: Stem, tag: Tag): Name {
    match stem
    case AtomicStem(t, digest) => Atomic(t, digest, tag)
    case PartialStem(t, identity, digest) => Partial(t, identity, digest, tag)
  }

  predicate HasStem(entry: Name, stem: Stem) {
    (entry.Atomic? || entry.Partial?) && entry == Entered(stem, entry.tag)
  }

  /** `_validate_quarantine_entry` */
  predicate ValidEntry(fs: Image, entry: Name) {
    && entry in fs.names
    && (entry.Atomic? || entry.Partial?)
    && entry.tag.pid > 0 && entry.tag.stamp > 0
    && entry.digest == Sha256(Contents(fs, entry))
  }

  datatype Verdict = Resume(entry: Name) | Clear | Unsound

  /** The loop over the quarantine directory at lines 1076-1098. */
  function Scan(fs: Image, listing: seq<Name>, path: Name, stem: Stem): Verdict
    requires path in fs.names
  {
    if listing == [] then Clear
    else
      var entry := listing[0];
      if !ValidEntry(fs, entry) then Unsound
      else if SameFile(fs, entry, path) then
        if HasStem(entry, stem) && Nlink(fs, path) == 2 then Resume(entry) else Unsound
      else if Nlink(fs, entry) != 1 then Unsound
      else Scan(fs, listing[1..], path, stem)
  }

  const SEQUENCES: nat := 1000

  /** The first free quarantine name of the retry loop at lines 1103-1113. */
  function FreeSequence(fs: Image, stem: Stem, pid: nat, stamp: nat, from: nat): (r: nat)
    requires from <= SEQUENCES
    ensures from <= r <= 1000
    ensures r < 1000 ==> Entered(stem, Tag(pid, stamp, r)) !in fs.names
    ensures forall k :: from <= k < r ==> Entered(stem, Tag(pid, stamp, k)) in fs.names
    decreases SEQUENCES - from
  {
    if from < SEQUENCES && Entered(stem, Tag(pid, stamp, from)) in fs.names
    then FreeSequence(fs, stem, pid, stamp, from + 1)
    else from
  }

  /** The link checks after the unlink, at lines 1094-1095 and 1117-1123. */
  function EntryLinks(fs: Image, entry: Name): Outcome {
    if entry in fs.names && Nlink(fs, entry) == 1 then Done else Refused
  }

  /** `_quarantine_link` */
  function Park(ls: Listing, fs: Image, path: Name, stem: Stem, pid: nat, stamp: nat): Run
    requires path in fs.names
  {
    match Scan(fs, ls(fs, StemDir(stem)), path, stem)
    case Unsound => Run(Refused, [])
    case Resume(entry) => Run(EntryLinks(Unlinked(fs, path), entry), [Unlinked(fs, path)])
    case Clear =>
      var sequence := FreeSequence(fs, stem, pid, stamp, 0);
      if Nlink(fs, path) != 1 || sequence == SEQUENCES then Run(Refused, [])
      else
        var entry := Entered(stem, Tag(pid, stamp, sequence));
        var linked := Linked(fs, path, entry);
        Run(EntryLinks(Unlinked(linked, path), entry), [linked, Unlinked(linked, path)])
  }

  /* _recover_writer_temps */

  function TempsAmong(listing: seq<Name>, t: Target): (r: seq<Name>)
    ensures forall n :: n in r <==> n in listing && n.Temp? && n.target == t
  {
    if listing == [] then []
    else (if listing[0].Temp? && listing[0].target == t then [listing[0]] else []) + TempsAmong(listing[1..], t)
  }

  /** One iteration of the loop at lines 1380-1387. */
  function RecoverOne(ls: Listing, fs: Image, t: Target, linked: bool, temp: Name, pid: nat, stamp: nat): Run {
    if temp !in fs.names then Run(Refused, [])
    else if linked && SameFile(fs, temp, Final(t)) then Run(Done, [Unlinked(fs, temp)])
    else Park(ls, fs, temp, AtomicStem(t, Sha256(Contents(fs, temp))), pid, stamp)
  }

  function RecoverEach(ls: Listing, fs: Image, t: Target, linked: bool, temps: seq<Name>, pid: nat, stamp: nat): Run
    decreases |temps|
  {
    if temps == [] then Run(Done, [])
    else
      var first := RecoverOne(ls, fs, t, linked, temps[0], pid, stamp);
      if first.outcome == Refused then first
      else
        var rest := RecoverEach(ls, End(fs, first.images), t, linked, temps[1..], pid, stamp);
        Run(rest.outcome, first.images + rest.images)
  }

  function Recover(ls: Listing, fs: Image, t: Target, allowLinked: bool, pid: nat, stamp: nat): Run {
    var linked := Final(t) in fs.names;
    var run := RecoverEach(ls, fs, t, linked, TempsAmong(ls(fs, SplitDir(t.split)), t), pid, stamp);
    if run.outcome == Refused then run
    else Run(FinalLinks(End(fs, run.images), t, linked, allowLinked), run.images)
  }

  /** The closing link check at lines 1388-1396. */
  function FinalLinks(fs: Image, t: Target, linked: bool, allowLinked: bool): Outcome {
    if !linked then Done
    else if Final(t) !in fs.names then Refused
    else if Nlink(fs, Final(t)) == 1 || (allowLinked && Nlink(fs, Final(t)) == 2) then Done
    else Refused
  }

  /* _load_complete */

  /** `_require_interrupted_quarantine_link` */
  predicate Interrupted(fs: Image, listing: seq<Name>, path: Name, stem: Stem)
    requires path in fs.names
  {
    && Nlink(fs, path) == 2
    && (forall c <- listing :: ValidEntry(fs, c) && (SameFile(fs, c, path) ==> HasStem(c, stem)))
    && |set c <- listing | SameFile(fs, c, path)| == 1
  }

  predicate OwnedBy(line: Line, identity: Identity) {
    !line.Torn? && line.owner == identity
  }

  /** The ownership test of a lone artifact at lines 1606-1623. */
  predicate OwnsPartial(bytes: Bytes, kind: Kind, identity: Identity) {
    if kind == Kind.Episode then |bytes| == 1 && bytes[0].Doc? && bytes[0].owner == identity && bytes[0].rowCount >= 1
    else bytes != [] && forall line <- bytes :: OwnedBy(line, identity)
  }

  /** The lone artifact is quarantined if it is this collector's. */
  function SettlePartial(ls: Listing, fs: Image, t: Target, identity: Identity, pid: nat, stamp: nat): Run
    requires Final(t) in fs.names
  {
    var path := Final(t);
    var stem := PartialStem(t, identity, Sha256(Contents(fs, path)));
    if Nlink(fs, path) !in {1, 2} then Run(Refused, [])
    else if Nlink(fs, path) == 2 && !Interrupted(fs, ls(fs, StemDir(stem)), path, stem) then Run(Refused, [])
    else if !OwnsPartial(Contents(fs, path), t.kind, identity) then Run(Refused, [])
    else
      var parked := Park(ls, fs, path, stem, pid, stamp);
      if parked.outcome == Refused then parked else Run(Missing, parked.images)
  }

  /** The checks on a committed pair at lines 1626-1657. */
  function Inspect(fs: Image, s: Session): Outcome
    requires Final(s.Episode()) in fs.names && Final(s.Queries()) in fs.names
  {
    var doc := Contents(fs, Final(s.Episode()));
    var rows := Contents(fs, Final(s.Queries()));
    if && Nlink(fs, Final(s.Episode())) == 1 && Nlink(fs, Final(s.Queries())) == 1
       && |doc| == 1 && doc[0].Doc? && doc[0].owner == s.identity
       && doc[0].rowsDigest == Sha256(rows)
       && rows != [] && |rows| == doc[0].rowCount
       && forall i :: 0 <= i < |rows| ==> rows[i] == Row(s.identity, doc[0].seed, i)
    then Complete(doc[0])
    else Refused
  }

  function Settle(ls: Listing, fs: Image, s: Session): Run {
    var e, q := Final(s.Episode()), Final(s.Queries());
    if e !in fs.names && q !in fs.names then Run(Missing, [])
    else if e in fs.names && q in fs.names then Run(Inspect(fs, s), [])
    else SettlePartial(ls, fs, if e in fs.names then s.Episode() else s.Queries(), s.identity, s.pid, s.stamp)
  }

  /** The two recoveries that open `_load_complete`. */
  function RecoverPair(ls: Listing, fs: Image, s: Session): Run {
    Then(fs, Recover(ls, fs, s.Episode(), true, s.pid, s.stamp), (gs: Image) =>
      Recover(ls, gs, s.Queries(), true, s.pid, s.stamp))
  }

  function Load(ls: Listing, fs: Image, s: Session): Run {
    Then(fs, RecoverPair(ls, fs, s), (gs: Image) => Settle(ls, gs, s))
  }

  /* _write_new */

  /** The file grows line by line; a crash may cut the line being written. */
  function Growth(fs: Image, n: Name, written: Bytes, payload: Bytes): seq<Image>
    requires n in fs.names && |written| <= |payload|
    decreases |payload| - |written|
  {
    if |written| == |payload| then []
    else
      var longer := payload[..|written| + 1];
      var whole := Rewritten(fs, n, longer);
      [Rewritten(fs, n, written + [Torn]), whole] + Growth(whole, n, longer, payload)
  }

  function Publish(fs: Image, t: Target, payload: Bytes, pid: nat, stamp: nat): Run
    requires Final(t) !in fs.names
  {
    var temp := Temp(t, pid, stamp);
    if temp in fs.names then Run(Refused, [])
    else
      var created := Created(fs, temp);
      var growth := Growth(created, temp, [], payload);
      GrowthNames(created, temp, [], payload);
      var linked := Linked(End(created, growth), temp, Final(t));
      Run(Done, [created] + growth + [linked, Unlinked(linked, temp)])
  }

  lemma GrowthNames(fs: Image, n: Name, written: Bytes, payload: Bytes)
    requires n in fs.names && |written| <= |payload|
    ensures End(fs, Growth(fs, n, written, payload)).names == fs.names
    decreases |payload| - |written|
  {
    if |written| < |payload| {
      var longer := payload[..|written| + 1];
      GrowthNames(Rewritten(fs, n, longer), n, longer, payload);
    }
  }

  function WriteNew(ls: Listing, fs: Image, t: Target, payload: Bytes, pid: nat, stamp: nat): Run {
    Then(fs, Recover(ls, fs, t, false, pid, stamp), (gs: Image) =>
      if Final(t) in gs.names then Run(Refused, []) else Publish(gs, t, payload, pid, stamp))
  }

  /** The two writes that end `collect_episode`: rows first, then the document
      that names them. */
  function Commit(ls: Listing, fs: Image, s: Session): Run {
    var rows := RowsPayload(s.identity, s.seed, s.rows);
    Then(fs, WriteNew(ls, fs, s.Queries(), rows, s.pid, s.stamp), (gs: Image) =>
      WriteNew(ls, gs, s.Episode(), DocPayload(s.identity, s.seed, rows), s.pid, s.stamp))
  }
}
