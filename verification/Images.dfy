/** The collection directory as a value: names bound to inodes, inodes holding
    lines.  A crash leaves exactly such a value behind. */
module Images {

  datatype Split = TrainBoard | SupportBoard | MarginBoard | OfflineBoard

  datatype Kind = Queries | Episode

  /** The artifact `OUTPUT_ROOT/<split>/<seed>.json` or `.queries.jsonl`. */
  datatype Target = Target(split: Split, seed: nat, kind: Kind)

  /** A collector identity digest; only equality of identities matters. */
  type Identity = nat

  /** SHA-256 taken as injective: a digest is as good as the contents. */
  datatype Digest = Sha256(contents: seq<Line>)

  /** One line of an artifact.  `Torn` is a line cut short by a crash. */
  datatype Line =
    | Row(owner: Identity, seed: nat, position: nat)
    | Doc(owner: Identity, seed: nat, rowCount: nat, rowsDigest: Digest)
    | Torn

  type Bytes = seq<Line>

  /** The process, clock and retry suffix of a quarantine name. */
  datatype Tag = Tag(pid: nat, stamp: nat, sequence: nat)

  datatype Dir = SplitDir(split: Split) | AtomicDir(split: Split) | PartialDir(split: Split)

  datatype Name =
    | Final(target: Target)
    | Temp(target: Target, pid: nat, stamp: nat)
    | Atomic(target: Target, digest: Digest, tag: Tag)
    | Partial(target: Target, identity: Identity, digest: Digest, tag: Tag)
    | Foreign(dir: Dir, mark: nat)

  function DirOf(n: Name): Dir {
    match n
    case Final(t) => SplitDir(t.split)
    case Temp(t, _, _) => SplitDir(t.split)
    case Atomic(t, _, _) => AtomicDir(t.split)
    case Partial(t, _, _, _) => PartialDir(t.split)
    case Foreign(d, _) => d
  }

  datatype RawImage = Image(names: map<Name, nat>, data: seq<Bytes>)

  ghost predicate Bound(fs: RawImage) {
    forall n <- fs.names :: fs.names[n] < |fs.data|
  }

  type Image = fs: RawImage | Bound(fs) witness Image(map[], [])

  const EmptyImage: Image := Image(map[], [])

  function Contents(fs: Image, n: Name): Bytes
    requires n in fs.names
  {
    fs.data[fs.names[n]]
  }

  predicate SameFile(fs: Image, n: Name, m: Name) {
    n in fs.names && m in fs.names && fs.names[n] == fs.names[m]
  }

  function NamesOf(fs: Image, inode: nat): set<Name> {
    set n <- fs.names | fs.names[n] == inode
  }

  /** `st_nlink` */
  function Nlink(fs: Image, n: Name): nat
    requires n in fs.names
  {
    |NamesOf(fs, fs.names[n])|
  }

  /* The system calls, as they change the image. */

  /** `open(n, "xb")` */
  function Created(fs: Image, n: Name): Image
    requires n !in fs.names
  {
    Image(fs.names[n := |fs.data|], fs.data + [[]])
  }

  /** The file `n` after a write has replaced its contents. */
  function Rewritten(fs: Image, n: Name, bytes: Bytes): Image
    requires n in fs.names
  {
    fs.(data := fs.data[fs.names[n] := bytes])
  }

  /** `os.link(n, m)` */
  function Linked(fs: Image, n: Name, m: Name): Image
    requires n in fs.names && m !in fs.names
  {
    fs.(names := fs.names[m := fs.names[n]])
  }

  /** `os.unlink(n)` */
  function Unlinked(fs: Image, n: Name): Image
    requires n in fs.names
  {
    fs.(names := fs.names - {n})
  }

  ghost predicate Sole(fs: Image, n: Name) {
    n in fs.names && forall m :: SameFile(fs, n, m) ==> m == n
  }

  ghost predicate Twin(fs: Image, n: Name, m: Name) {
    SameFile(fs, n, m) && n != m && forall k :: SameFile(fs, n, k) ==> k == n || k == m
  }

  lemma TwoMembers<T>(s: set<T>, a: T, b: T)
    requires a in s && b in s && a != b
    ensures |s| >= 2
  {
    var rest := s - {a};
    assert b in rest && s == rest + {a};
    assert |rest| >= 1;
    assert |rest + {a}| == |rest| + 1;
  }

  lemma SoleLinks(fs: Image, n: Name)
    requires n in fs.names
    ensures Sole(fs, n) <==> Nlink(fs, n) == 1
  {
    var s := NamesOf(fs, fs.names[n]);
    assert n in s;
    if Sole(fs, n) {
      assert s == {n} by {
        forall m | m in s ensures m == n { assert SameFile(fs, n, m); }
      }
    } else {
      var m :| SameFile(fs, n, m) && m != n;
      TwoMembers(s, n, m);
    }
  }

  lemma TwinLinks(fs: Image, n: Name, m: Name)
    requires Twin(fs, n, m)
    ensures Nlink(fs, n) == 2 && Nlink(fs, m) == 2
  {
    assert NamesOf(fs, fs.names[n]) == {n, m} by {
      forall k | k in NamesOf(fs, fs.names[n]) ensures k in {n, m} { assert SameFile(fs, n, k); }
    }
  }

  /** A directory listing: every entry of the directory, once, in some order. */
  ghost predicate Enumerates(listing: seq<Name>, fs: Image, d: Dir) {
    && (forall n :: n in listing <==> n in fs.names && DirOf(n) == d)
    && (forall i, j :: 0 <= i < j < |listing| ==> listing[i] != listing[j])
  }

  /** The order in which the operating system lists directories. */
  type Listing = (Image, Dir) -> seq<Name>

  ghost predicate Lists(ls: Listing) {
    forall fs: Image, d: Dir :: Enumerates(ls(fs, d), fs, d)
  }

  ghost function Arranged(names: set<Name>): (r: seq<Name>)
    ensures forall n :: n in r <==> n in names
    ensures forall i, j :: 0 <= i < j < |r| ==> r[i] != r[j]
  {
    if names == {} then [] else
      var n :| n in names;
      [n] + Arranged(names - {n})
  }

  ghost function SomeOrder(fs: Image, d: Dir): seq<Name> {
    Arranged(set n <- fs.names | DirOf(n) == d)
  }

  /** Listing orders exist. */
  lemma SomeOrderLists()
    ensures Lists(SomeOrder)
  {
    forall fs: Image, d: Dir ensures Enumerates(SomeOrder(fs, d), fs, d) {}
  }
}
