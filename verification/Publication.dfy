/** Publishing: a payload grows under a temp name, is linked to its final name
    and only then loses the temp name. */
module Publication {
  import opened Images
  import opened Law
  import opened Recovery
  import opened Safety
  import opened Convergence

  /** `gs` differs from `fs` in the contents of `n` at most. */
  ghost predicate OnlyGrown(fs: Image, gs: Image, n: Name)
    requires n in fs.names
  {
    && gs.names == fs.names && |gs.data| == |fs.data|
    && forall i :: 0 <= i < |fs.data| && i != fs.names[n] ==> gs.data[i] == fs.data[i]
  }

  /** Growing changes one file, and ends with the whole payload. */
  lemma {:induction false} GrowthKeeps(fs: Image, n: Name, written: Bytes, payload: Bytes)
    requires n in fs.names && |written| <= |payload|
    requires written == payload[..|written|] && Contents(fs, n) == written
    ensures var images := Growth(fs, n, written, payload);
      && (forall k :: 0 <= k < |images| ==> OnlyGrown(fs, images[k], n))
      && OnlyGrown(fs, End(fs, images), n) && Contents(End(fs, images), n) == payload
    decreases |payload| - |written|
  {
    if |written| == |payload| {
      assert written == payload;
    } else {
      var longer := payload[..|written| + 1];
      var cut, whole := Rewritten(fs, n, written + [Torn]), Rewritten(fs, n, longer);
      GrowthKeeps(whole, n, longer, payload);
      var rest := Growth(whole, n, longer, payload);
      var images := Growth(fs, n, written, payload);
      assert images == [cut, whole] + rest;
      forall k | 0 <= k < |images| ensures OnlyGrown(fs, images[k], n) {
        if k >= 2 { assert images[k] == rest[k - 2] && OnlyGrown(whole, rest[k - 2], n); }
      }
      assert End(fs, images) == End(whole, rest);
    }
  }

  lemma {:induction false} GrowthSafe(schedule: Schedule, fs: Image, n: Name, written: Bytes, payload: Bytes)
    requires Lawful(schedule, fs) && n.Temp? && Sole(fs, n)
    requires |written| <= |payload|
    ensures Safe(schedule, fs, Growth(fs, n, written, payload))
    decreases |payload| - |written|
  {
    var images := Growth(fs, n, written, payload);
    if |written| < |payload| {
      var longer := payload[..|written| + 1];
      var cut, whole := Rewritten(fs, n, written + [Torn]), Rewritten(fs, n, longer);
      RewriteAdvances(schedule, fs, n, written + [Torn]);
      RewriteAdvances(schedule, fs, n, longer);
      GrowthSafe(schedule, whole, n, longer, payload);
      var rest := Growth(whole, n, longer, payload);
      assert End(fs, [cut, whole]) == whole;
      SafeThen(schedule, fs, [cut, whole], rest);
      assert images == [cut, whole] + rest;
    }
  }

  /** An image on the way to publishing `payload` as `t` by way of `temp`: one file
      more, under those two names, and the final name only on the whole payload. */
  ghost predicate Publishing(fs: Image, gs: Image, t: Target, temp: Name, payload: Bytes) {
    && |gs.data| == |fs.data| + 1 && gs.data[..|fs.data|] == fs.data
    && (forall n :: n in fs.names ==> n in gs.names && gs.names[n] == fs.names[n])
    && (forall n :: n in gs.names && n !in fs.names ==> n in {temp, Final(t)} && gs.names[n] == |fs.data|)
    && (Final(t) in gs.names && Final(t) !in fs.names ==> gs.data[|fs.data|] == payload)
  }

  lemma GrownPublishing(fs: Image, created: Image, gs: Image, t: Target, temp: Name, payload: Bytes)
    requires temp.Temp? && temp !in fs.names && Final(t) !in fs.names && created == Created(fs, temp)
    requires OnlyGrown(created, gs, temp)
    ensures Publishing(fs, gs, t, temp, payload)
  {
    forall i | 0 <= i < |fs.data| ensures gs.data[i] == fs.data[i] { assert created.data[i] == fs.data[i]; }
    assert gs.data[..|fs.data|] == fs.data;
  }

  /** Every image of a publication, not only the last, has the final name on the
      whole payload or not at all. */
  lemma PublishWhole(fs: Image, t: Target, payload: Bytes, pid: nat, stamp: nat)
    requires Final(t) !in fs.names
    ensures var images := Publish(fs, t, payload, pid, stamp).images;
      forall k :: 0 <= k < |images| ==> Publishing(fs, images[k], t, Temp(t, pid, stamp), payload)
  {
    var temp := Temp(t, pid, stamp);
    if temp !in fs.names {
      var created := Created(fs, temp);
      var growth := Growth(created, temp, [], payload);
      GrowthKeeps(created, temp, [], payload);
      GrowthNames(created, temp, [], payload);
      var grown := End(created, growth);
      var linked := Linked(grown, temp, Final(t));
      var images := [created] + growth + [linked, Unlinked(linked, temp)];
      GrownPublishing(fs, created, created, t, temp, payload);
      GrownPublishing(fs, created, grown, t, temp, payload);
      forall k | 0 <= k < |images| ensures Publishing(fs, images[k], t, temp, payload) {
        if 1 <= k < |growth| + 1 {
          assert images[k] == growth[k - 1];
          GrownPublishing(fs, created, growth[k - 1], t, temp, payload);
        }
      }
    }
  }

  /** `gs` is `fs` with `payload` published as `t`. */
  ghost predicate Published(fs: Image, gs: Image, t: Target, payload: Bytes) {
    && gs.names == fs.names[Final(t) := |fs.data|]
    && |gs.data| == |fs.data| + 1
    && gs.data[..|fs.data|] == fs.data && gs.data[|fs.data|] == payload
  }

  /** No temp of this artifact or of its partner. */
  ghost predicate NoTempsBeside(fs: Image, t: Target) {
    forall m :: m in fs.names && m.Temp? ==> !SamePair(m.target, t)
  }

  lemma PublishSafe(schedule: Schedule, fs: Image, t: Target, payload: Bytes, pid: nat, stamp: nat)
    requires Lawful(schedule, fs) && t.seed in schedule(t.split) && Final(t) !in fs.names
    requires NoTempsBeside(fs, t) && MayPublish(fs, t, payload)
    ensures var run := Publish(fs, t, payload, pid, stamp);
      && run.outcome == Done
      && Safe(schedule, fs, run.images)
      && (forall k :: 0 <= k < |run.images| ==> Publishing(fs, run.images[k], t, Temp(t, pid, stamp), payload))
      && Published(fs, End(fs, run.images), t, payload)
  {
    PublishWhole(fs, t, payload, pid, stamp);
    var temp := Temp(t, pid, stamp);
    var created := Created(fs, temp);
    CreateAdvances(schedule, fs, temp);
    var growth := Growth(created, temp, [], payload);
    GrowthSafe(schedule, created, temp, [], payload);
    GrowthKeeps(created, temp, [], payload);
    var grown := End(created, growth);
    SafeEnd(schedule, created, growth);
    GrownPublishable(fs, grown, t, temp, payload);
    ParkPublished(schedule, grown, temp, Final(t));
    var linked := Linked(grown, temp, Final(t));
    PublishImages(schedule, fs, created, growth, linked, Unlinked(linked, temp));
    GrownPublished(fs, grown, t, temp, payload);
  }

  lemma ParkPublished(schedule: Schedule, fs: Image, temp: Name, final: Name)
    requires Lawful(schedule, fs) && MayLink(fs, temp, final)
    ensures var linked := Linked(fs, temp, final);
      Advances(schedule, fs, linked) && Advances(schedule, fs, Unlinked(linked, temp))
  {
    ParkMoves(schedule, fs, temp, final);
    var linked := Linked(fs, temp, final);
    assert [linked, Unlinked(linked, temp)][0] == linked;
    assert [linked, Unlinked(linked, temp)][1] == Unlinked(linked, temp);
  }

  lemma PublishImages(schedule: Schedule, fs: Image, created: Image, growth: seq<Image>, linked: Image, last: Image)
    requires Lawful(schedule, fs) && Advances(schedule, fs, created) && Safe(schedule, created, growth)
    requires Advances(schedule, End(created, growth), linked) && Advances(schedule, End(created, growth), last)
    ensures var images := [created] + growth + [linked, last]; Safe(schedule, fs, images) && End(fs, images) == last
  {
    assert End(fs, [created]) == created;
    SafeThen(schedule, fs, [created], growth);
    SafeThen(schedule, fs, [created] + growth, [linked, last]);
  }

  lemma GrownPublishable(fs: Image, grown: Image, t: Target, temp: Name, payload: Bytes)
    requires temp.Temp? && temp.target == t && temp !in fs.names && Final(t) !in fs.names
    requires MayPublish(fs, t, payload)
    requires OnlyGrown(Created(fs, temp), grown, temp) && Contents(grown, temp) == payload
    ensures MayLink(grown, temp, Final(t))
  {
    forall m | SameFile(grown, temp, m) ensures m == temp {}
    if t.kind == Kind.Episode {
      var q := Final(QueriesOf(t));
      forall m | SameFile(grown, q, m) ensures m == q { assert SameFile(fs, q, m); }
      assert Contents(grown, q) == Contents(fs, q);
    }
  }

  lemma GrownPublished(fs: Image, grown: Image, t: Target, temp: Name, payload: Bytes)
    requires temp.Temp? && temp.target == t && temp !in fs.names && Final(t) !in fs.names
    requires OnlyGrown(Created(fs, temp), grown, temp) && Contents(grown, temp) == payload
    ensures Published(fs, Unlinked(Linked(grown, temp, Final(t)), temp), t, payload)
  {}

  lemma WriteNewSafe(schedule: Schedule, ls: Listing, fs: Image, t: Target, payload: Bytes, pid: nat, stamp: nat)
    requires Lists(ls) && Lawful(schedule, fs) && t.seed in schedule(t.split) && Final(t) !in fs.names
    requires NoTempsBeside(fs, t) && MayPublish(fs, t, payload)
    ensures var run := WriteNew(ls, fs, t, payload, pid, stamp);
      && run.outcome == Done
      && Safe(schedule, fs, run.images)
      && Published(fs, End(fs, run.images), t, payload)
  {
    assert NoTemps(fs, t);
    RecoverNothing(schedule, ls, fs, t, false, pid, stamp);
    PublishSafe(schedule, fs, t, payload, pid, stamp);
    var run := Publish(fs, t, payload, pid, stamp);
    assert [] + run.images == run.images;
  }

  lemma RowsPublished(fs: Image, gs: Image, s: Session)
    requires s.Valid() && Absent(fs, s) && NoPairTemps(fs, s)
    requires Published(fs, gs, s.Queries(), RowsPayload(s.identity, s.seed, s.rows))
    ensures var rows := RowsPayload(s.identity, s.seed, s.rows);
      && Final(s.Episode()) !in gs.names && NoTempsBeside(gs, s.Episode())
      && MayPublish(gs, s.Episode(), DocPayload(s.identity, s.seed, rows))
      && Sole(gs, Final(s.Queries())) && Contents(gs, Final(s.Queries())) == rows
  {
    PairTemps(fs, s);
    PublishedSole(fs, gs, s.Queries(), RowsPayload(s.identity, s.seed, s.rows));
    assert QueriesOf(s.Episode()) == s.Queries();
  }

  lemma DocPublished(gs: Image, hs: Image, s: Session)
    requires s.Valid() && Final(s.Episode()) !in gs.names && NoTempsBeside(gs, s.Episode())
    requires Sole(gs, Final(s.Queries()))
    requires var rows := RowsPayload(s.identity, s.seed, s.rows);
      && Contents(gs, Final(s.Queries())) == rows
      && Published(gs, hs, s.Episode(), DocPayload(s.identity, s.seed, rows))
    ensures Settled(hs, s) && NoPairTemps(hs, s)
    ensures Contents(hs, Final(s.Queries())) == RowsPayload(s.identity, s.seed, s.rows)
  {
    PublishedSole(gs, hs, s.Episode(), DocPayload(s.identity, s.seed, RowsPayload(s.identity, s.seed, s.rows)));
  }

  /** From an absent pair without temps the two writes always succeed, crash-safe
      at every step, and leave the pair settled with exactly this payload. */
  lemma CommitSafe(schedule: Schedule, ls: Listing, fs: Image, s: Session)
    requires Lists(ls) && Lawful(schedule, fs) && s.Valid() && s.seed in schedule(s.split)
    requires Absent(fs, s) && NoPairTemps(fs, s)
    ensures var run := Commit(ls, fs, s); var gs := End(fs, run.images);
      && run.outcome == Done
      && Safe(schedule, fs, run.images)
      && Settled(gs, s) && NoPairTemps(gs, s)
      && Contents(gs, Final(s.Queries())) == RowsPayload(s.identity, s.seed, s.rows)
  {
    var rows := RowsPayload(s.identity, s.seed, s.rows);
    var doc := DocPayload(s.identity, s.seed, rows);
    PairTemps(fs, s);
    assert MayPublish(fs, s.Queries(), rows);
    WriteNewSafe(schedule, ls, fs, s.Queries(), rows, s.pid, s.stamp);
    var first := WriteNew(ls, fs, s.Queries(), rows, s.pid, s.stamp);
    var gs := End(fs, first.images);
    SafeEnd(schedule, fs, first.images);
    RowsPublished(fs, gs, s);
    WriteNewSafe(schedule, ls, gs, s.Episode(), doc, s.pid, s.stamp);
    var second := WriteNew(ls, gs, s.Episode(), doc, s.pid, s.stamp);
    DocPublished(gs, End(gs, second.images), s);
    SafeThen(schedule, fs, first.images, second.images);
  }

  lemma PairTemps(fs: Image, s: Session)
    requires NoPairTemps(fs, s)
    ensures NoTempsBeside(fs, s.Episode()) && NoTempsBeside(fs, s.Queries())
  {
    forall m | m in fs.names && m.Temp? ensures !SamePair(m.target, s.Episode()) {
      assert m.target.kind == Kind.Episode || m.target.kind == Kind.Queries;
    }
  }

  /** A published artifact is singly linked, and other links are as before. */
  lemma PublishedSole(fs: Image, gs: Image, t: Target, payload: Bytes)
    requires Published(fs, gs, t, payload) && Final(t) !in fs.names
    ensures Sole(gs, Final(t)) && Contents(gs, Final(t)) == payload
    ensures forall n :: Sole(fs, n) ==> Sole(gs, n) && Contents(gs, n) == Contents(fs, n)
  {
    forall n | Sole(fs, n) ensures Sole(gs, n) && Contents(gs, n) == Contents(fs, n) {
      forall m | SameFile(gs, n, m) ensures m == n {
        if m in fs.names { assert SameFile(fs, n, m); }
      }
      assert gs.data[..|fs.data|][fs.names[n]] == fs.data[fs.names[n]];
    }
  }
}
