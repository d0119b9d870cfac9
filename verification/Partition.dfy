/** Evaluation cells dealt to replicas by index, and put back into suite order. */
module Partition {

  /** One evaluation cell: a snapshot and a repetition of it. */
  datatype Cell = Cell(snapshot: nat, repetition: nat)

  /** The repetitions of one snapshot. */
  function Repetitions(snapshot: nat, repetitions: nat): (r: seq<Cell>)
    ensures |r| == repetitions
  {
    seq(repetitions, (k: nat) => Cell(snapshot, k))
  }

  /** The serial suite: every snapshot in order, each with all its repetitions. */
  function Suite(ids: seq<nat>, repetitions: nat): seq<Cell> {
    if ids == [] then [] else Suite(ids[..|ids| - 1], repetitions) + Repetitions(ids[|ids| - 1], repetitions)
  }

  /** Cell `k` of snapshot `i` is at place `i * repetitions + k`. */
  lemma {:induction false} SuiteExact(ids: seq<nat>, repetitions: nat, i: nat, k: nat)
    requires i < |ids| && k < repetitions
    ensures |Suite(ids, repetitions)| == |ids| * repetitions
    ensures i * repetitions + k < |ids| * repetitions
    ensures Suite(ids, repetitions)[i * repetitions + k] == Cell(ids[i], k)
  {
    var last := |ids| - 1;
    SuiteLength(ids, repetitions);
    SuiteLength(ids[..last], repetitions);
    Within(i, |ids|, k, repetitions);
    if i < last {
      SuiteExact(ids[..last], repetitions, i, k);
    }
  }

  lemma Within(i: nat, n: nat, k: nat, r: nat)
    requires i < n && k < r
    ensures i * r + k < n * r
  {
    assert (i + 1) * r <= n * r;
  }

  lemma {:induction false} SuiteLength(ids: seq<nat>, repetitions: nat)
    ensures |Suite(ids, repetitions)| == |ids| * repetitions
  {
    if ids != [] { SuiteLength(ids[..|ids| - 1], repetitions); }
  }

  /** The cells of replica `r`: those of the snapshots with index `r` modulo `replicas`. */
  function ReplicaCells(ids: seq<nat>, repetitions: nat, replicas: nat, r: nat): seq<Cell>
    requires replicas > 0
  {
    if ids == [] then []
    else
      var last := |ids| - 1;
      ReplicaCells(ids[..last], repetitions, replicas, r)
        + if last % replicas == r then Repetitions(ids[last], repetitions) else []
  }

  function Joined(part: nat -> seq<Cell>, n: nat): seq<Cell> {
    if n == 0 then [] else Joined(part, n - 1) + part(n - 1)
  }

  /** All replicas' cells in replica order, as `all_episodes` concatenates them. */
  function Dealt(ids: seq<nat>, repetitions: nat, replicas: nat): seq<Cell>
    requires replicas > 0
  {
    Joined((r: nat) => ReplicaCells(ids, repetitions, replicas, r), replicas)
  }

  /** `position`: the index of a cell in the suite; the last one wins. */
  function PositionIn(suite: seq<Cell>, c: Cell): int {
    if suite == [] then -1
    else if suite[|suite| - 1] == c then |suite| - 1
    else PositionIn(suite[..|suite| - 1], c)
  }

  function Place(c: Cell, sorted: seq<Cell>, suite: seq<Cell>): (r: seq<Cell>)
    ensures multiset(r) == multiset(sorted) + multiset{c}
  {
    if sorted == [] then [c]
    else if PositionIn(suite, c) <= PositionIn(suite, sorted[0]) then [c] + sorted
    else
      assert sorted == [sorted[0]] + sorted[1..];
      [sorted[0]] + Place(c, sorted[1..], suite)
  }

  /** `sorted(all_episodes, key=position)` */
  function SortByPosition(cells: seq<Cell>, suite: seq<Cell>): (r: seq<Cell>)
    ensures multiset(r) == multiset(cells)
  {
    if cells == [] then []
    else
      assert cells == [cells[0]] + cells[1..];
      Place(cells[0], SortByPosition(cells[1..], suite), suite)
  }

  ghost predicate InOrder(cells: seq<Cell>, suite: seq<Cell>) {
    forall i, j :: 0 <= i < j < |cells| ==> PositionIn(suite, cells[i]) <= PositionIn(suite, cells[j])
  }

  lemma {:induction false} PlaceKeepsOrder(c: Cell, sorted: seq<Cell>, suite: seq<Cell>)
    requires InOrder(sorted, suite)
    ensures var r := Place(c, sorted, suite);
      && InOrder(r, suite)
      && r[0] == if sorted == [] || PositionIn(suite, c) <= PositionIn(suite, sorted[0]) then c else sorted[0]
  {
    if sorted != [] && PositionIn(suite, c) > PositionIn(suite, sorted[0]) {
      PlaceKeepsOrder(c, sorted[1..], suite);
      InOrderAfter(sorted[0], Place(c, sorted[1..], suite), suite);
    }
  }

  lemma InOrderAfter(first: Cell, rest: seq<Cell>, suite: seq<Cell>)
    requires InOrder(rest, suite) && (rest != [] ==> PositionIn(suite, first) <= PositionIn(suite, rest[0]))
    ensures InOrder([first] + rest, suite)
  {
    var r := [first] + rest;
    forall i, j | 0 <= i < j < |r| ensures PositionIn(suite, r[i]) <= PositionIn(suite, r[j]) {
      assert r[j] == rest[j - 1];
      if i > 0 { assert r[i] == rest[i - 1]; }
    }
  }

  lemma {:induction false} SortGivesOrder(cells: seq<Cell>, suite: seq<Cell>)
    ensures InOrder(SortByPosition(cells, suite), suite)
  {
    if cells != [] {
      SortGivesOrder(cells[1..], suite);
      PlaceKeepsOrder(cells[0], SortByPosition(cells[1..], suite), suite);
    }
  }

  ghost predicate Distinct<T>(s: seq<T>) {
    forall i, j :: 0 <= i < j < |s| ==> s[i] != s[j]
  }

  lemma {:induction false} PositionIs(suite: seq<Cell>, i: nat)
    requires Distinct(suite) && i < |suite|
    ensures PositionIn(suite, suite[i]) == i
  {
    if i < |suite| - 1 { PositionIs(suite[..|suite| - 1], i); }
  }

  lemma Peeled(a: seq<Cell>)
    requires a != []
    ensures multiset(a[..|a| - 1]) == multiset(a) - multiset{a[|a| - 1]}
  {
    assert a == a[..|a| - 1] + [a[|a| - 1]];
  }

  lemma PeelLast(a: seq<Cell>, b: seq<Cell>)
    requires a != [] && b != [] && multiset(a) == multiset(b) && a[|a| - 1] == b[|b| - 1]
    ensures multiset(a[..|a| - 1]) == multiset(b[..|b| - 1])
  {
    Peeled(a);
    Peeled(b);
  }

  lemma LastIsLast(cells: seq<Cell>, suite: seq<Cell>, n: nat)
    requires Distinct(suite) && 0 < n <= |suite| && InOrder(cells, suite) && multiset(cells) == multiset(suite[..n])
    ensures |cells| == n && cells[n - 1] == suite[n - 1]
  {
    assert |cells| == |multiset(cells)| == n;
    var last, tail := suite[n - 1], cells[n - 1];
    assert suite[..n][n - 1] in multiset(cells);
    var k :| 0 <= k < |cells| && cells[k] == last;
    assert tail in multiset(suite[..n]);
    var j :| 0 <= j < n && suite[j] == tail;
    PositionIs(suite, n - 1);
    PositionIs(suite, j);
  }

  /** The only arrangement of the suite's cells that is in suite order is the suite. */
  lemma {:induction false} OrderedIsSuite(cells: seq<Cell>, suite: seq<Cell>, n: nat)
    requires Distinct(suite) && n <= |suite| && InOrder(cells, suite) && multiset(cells) == multiset(suite[..n])
    ensures cells == suite[..n]
  {
    if n == 0 {
      assert |cells| == |multiset(cells)| == 0;
    } else {
      LastIsLast(cells, suite, n);
      PeelLast(cells, suite[..n]);
      assert suite[..n][..n - 1] == suite[..n - 1];
      OrderedIsSuite(cells[..n - 1], suite, n - 1);
      assert cells == cells[..n - 1] + [suite[n - 1]];
      assert suite[..n] == suite[..n - 1] + [suite[n - 1]];
    }
  }

  lemma {:induction false} JoinedEmpty(part: nat -> seq<Cell>, n: nat)
    requires forall r :: 0 <= r < n ==> part(r) == []
    ensures Joined(part, n) == []
  {
    if n > 0 { JoinedEmpty(part, n - 1); }
  }

  ghost predicate Extends(part: nat -> seq<Cell>, more: nat -> seq<Cell>, home: nat, extra: multiset<Cell>, r: nat) {
    multiset(more(r)) == multiset(part(r)) + if r == home then extra else multiset{}
  }

  /** More cells in one part are as many more in all parts together. */
  lemma {:induction false} JoinedExtends(part: nat -> seq<Cell>, more: nat -> seq<Cell>, home: nat,
      extra: multiset<Cell>, n: nat)
    requires forall r :: 0 <= r < n ==> Extends(part, more, home, extra, r)
    ensures multiset(Joined(more, n)) == multiset(Joined(part, n)) + if home < n then extra else multiset{}
  {
    if n > 0 {
      JoinedExtends(part, more, home, extra, n - 1);
      assert Extends(part, more, home, extra, n - 1);
    }
  }

  lemma ReplicaExtends(ids: seq<nat>, repetitions: nat, replicas: nat, r: nat)
    requires replicas > 0 && ids != []
    ensures var last := |ids| - 1;
      multiset(ReplicaCells(ids, repetitions, replicas, r)) ==
        multiset(ReplicaCells(ids[..last], repetitions, replicas, r))
          + if r == last % replicas then multiset(Repetitions(ids[last], repetitions)) else multiset{}
  {}

  /** Dealing loses nothing and duplicates nothing: all replicas together hold the
      suite's cells, each as often as the suite does. */
  lemma {:induction false} DealtCovers(ids: seq<nat>, repetitions: nat, replicas: nat)
    requires replicas > 0
    ensures multiset(Dealt(ids, repetitions, replicas)) == multiset(Suite(ids, repetitions))
  {
    var part := (r: nat) => ReplicaCells(ids, repetitions, replicas, r);
    if ids == [] {
      JoinedEmpty(part, replicas);
    } else {
      var last := |ids| - 1;
      var home, extra := last % replicas, multiset(Repetitions(ids[last], repetitions));
      DealtCovers(ids[..last], repetitions, replicas);
      var less := (r: nat) => ReplicaCells(ids[..last], repetitions, replicas, r);
      forall r: nat | r < replicas
          ensures Extends(less, part, home, extra, r) { ReplicaExtends(ids, repetitions, replicas, r); }
      JoinedExtends(less, part, home, extra, replicas);
    }
  }

  lemma {:induction false} SuiteMembers(ids: seq<nat>, repetitions: nat)
    ensures forall c :: c in Suite(ids, repetitions) <==> c.snapshot in ids && c.repetition < repetitions
    ensures |Suite(ids, repetitions)| == |ids| * repetitions
  {
    if ids != [] {
      var last := |ids| - 1;
      SuiteMembers(ids[..last], repetitions);
      assert ids == ids[..last] + [ids[last]];
      var reps := Repetitions(ids[last], repetitions);
      forall c ensures c in reps <==> c.snapshot == ids[last] && c.repetition < repetitions {
        if c.snapshot == ids[last] && c.repetition < repetitions { assert reps[c.repetition] == c; }
      }
    }
  }

  lemma {:induction false} SuiteDistinct(ids: seq<nat>, repetitions: nat)
    requires Distinct(ids)
    ensures Distinct(Suite(ids, repetitions))
  {
    if ids != [] {
      var last := |ids| - 1;
      SuiteDistinct(ids[..last], repetitions);
      SuiteMembers(ids[..last], repetitions);
      var before, reps := Suite(ids[..last], repetitions), Repetitions(ids[last], repetitions);
      forall i, j | 0 <= i < j < |before + reps| ensures (before + reps)[i] != (before + reps)[j] {
        if i < |before| <= j {
          assert before[i] in before;
          assert before[i].snapshot in ids[..last];
        }
      }
    }
  }

  /** A replica that was dealt a cell holds all repetitions of its snapshot, and a
      snapshot of distinct id goes to one replica only. */
  lemma {:induction false} ReplicaMembers(ids: seq<nat>, repetitions: nat, replicas: nat, r: nat, c: Cell)
    requires replicas > 0
    ensures c in ReplicaCells(ids, repetitions, replicas, r) <==>
      c.repetition < repetitions && exists i :: 0 <= i < |ids| && ids[i] == c.snapshot && i % replicas == r
  {
    if ids != [] {
      var last := |ids| - 1;
      ReplicaMembers(ids[..last], repetitions, replicas, r, c);
      var reps := Repetitions(ids[last], repetitions);
      if c.snapshot == ids[last] && c.repetition < repetitions { assert reps[c.repetition] == c; }
      if i :| 0 <= i < |ids| && ids[i] == c.snapshot && i % replicas == r {
        if i < last { assert ids[..last][i] == c.snapshot; }
      }
      if i :| 0 <= i < last && ids[..last][i] == c.snapshot && i % replicas == r { assert ids[i] == c.snapshot; }
    }
  }

  /** Replicas never share a cell. */
  lemma ReplicasDisjoint(ids: seq<nat>, repetitions: nat, replicas: nat, r: nat, r': nat, c: Cell)
    requires replicas > 0 && Distinct(ids) && r != r'
    ensures !(c in ReplicaCells(ids, repetitions, replicas, r) && c in ReplicaCells(ids, repetitions, replicas, r'))
  {
    ReplicaMembers(ids, repetitions, replicas, r, c);
    ReplicaMembers(ids, repetitions, replicas, r', c);
  }

  lemma ModuloAtMost(i: nat, n: nat)
    requires n > 0
    ensures i % n <= i && (i < n ==> i % n == i)
  {}

  lemma IdleWhen(ids: seq<nat>, repetitions: nat, replicas: nat, r: nat)
    requires r < replicas && repetitions > 0
    ensures ReplicaCells(ids, repetitions, replicas, r) != [] <==> r < |ids|
  {
    var cells := ReplicaCells(ids, repetitions, replicas, r);
    if r < |ids| {
      ReplicaMembers(ids, repetitions, replicas, r, Cell(ids[r], 0));
      ModuloAtMost(r, replicas);
    } else if cells != [] {
      assert cells[0] in cells;
      ReplicaMembers(ids, repetitions, replicas, r, cells[0]);
      var i :| 0 <= i < |ids| && ids[i] == cells[0].snapshot && i % replicas == r;
      ModuloAtMost(i, replicas);
      assert false;
    }
  }

  /** Every replica is given work exactly when there are enough snapshots. */
  lemma NoReplicaIdle(ids: seq<nat>, repetitions: nat, replicas: nat)
    requires replicas > 0 && repetitions > 0
    ensures (forall r :: 0 <= r < replicas ==> ReplicaCells(ids, repetitions, replicas, r) != []) <==> replicas <= |ids|
  {
    forall r | 0 <= r < replicas ensures ReplicaCells(ids, repetitions, replicas, r) != [] <==> r < |ids| {
      IdleWhen(ids, repetitions, replicas, r);
    }
    if replicas > |ids| { assert ReplicaCells(ids, repetitions, replicas, |ids|) == []; }
  }

  /** Partition independence: for distinct snapshots and any number of replicas the
      sorted concatenation is the serial suite. */
  lemma PartitionIndependent(ids: seq<nat>, repetitions: nat, replicas: nat)
    requires replicas > 0 && Distinct(ids)
    ensures var suite := Suite(ids, repetitions);
      SortByPosition(Dealt(ids, repetitions, replicas), suite) == suite
  {
    var suite := Suite(ids, repetitions);
    var cells := SortByPosition(Dealt(ids, repetitions, replicas), suite);
    DealtCovers(ids, repetitions, replicas);
    SuiteDistinct(ids, repetitions);
    SortGivesOrder(Dealt(ids, repetitions, replicas), suite);
    assert suite[..|suite|] == suite;
    OrderedIsSuite(cells, suite, |suite|);
  }

  function Elements(s: seq<Cell>): set<Cell> {
    set c <- s
  }

  lemma {:induction false} ElementsCount(s: seq<Cell>)
    ensures |Elements(s)| <= |s|
    ensures |Elements(s)| == |s| <==> Distinct(s)
  {
    if s != [] {
      var last := |s| - 1;
      ElementsCount(s[..last]);
      assert s == s[..last] + [s[last]];
      assert Elements(s) == Elements(s[..last]) + {s[last]};
      if s[last] in s[..last] {
        assert Elements(s) == Elements(s[..last]);
        var i :| 0 <= i < last && s[i] == s[last];
      }
    }
  }

  /** The guard at line 262 compares the number of episodes with the number of
      positions; it lets a suite through exactly when its snapshots are distinct. */
  lemma CoverGuard(ids: seq<nat>, repetitions: nat, replicas: nat)
    requires replicas > 0 && repetitions > 0
    ensures |Dealt(ids, repetitions, replicas)| == |Elements(Suite(ids, repetitions))| <==> Distinct(ids)
  {
    var suite := Suite(ids, repetitions);
    DealtCovers(ids, repetitions, replicas);
    assert |multiset(Dealt(ids, repetitions, replicas))| == |multiset(suite)|;
    ElementsCount(suite);
    if Distinct(ids) { SuiteDistinct(ids, repetitions); } else { SuiteRepeats(ids, repetitions); }
  }

  lemma {:induction false} SuiteRepeats(ids: seq<nat>, repetitions: nat)
    requires repetitions > 0 && !Distinct(ids)
    ensures !Distinct(Suite(ids, repetitions))
  {
    var last := |ids| - 1;
    var before, reps := Suite(ids[..last], repetitions), Repetitions(ids[last], repetitions);
    if i :| 0 <= i < last && ids[i] == ids[last] {
      SuiteMembers(ids[..last], repetitions);
      assert ids[..last][i] == ids[last];
      assert Cell(ids[last], 0) in before;
      var k :| 0 <= k < |before| && before[k] == Cell(ids[last], 0);
      assert (before + reps)[k] == (before + reps)[|before|];
    } else {
      var i, j :| 0 <= i < j < |ids| && ids[i] == ids[j];
      assert ids[..last][i] == ids[..last][j];
      SuiteRepeats(ids[..last], repetitions);
      var k, l :| 0 <= k < l < |before| && before[k] == before[l];
      assert (before + reps)[k] == (before + reps)[l];
    }
  }
}
