/** The staged authorization of the four splits: each stage's receipt binds the
    collections the stage was computed from. */
module Authority {
  import opened Images
  import opened Options
  import opened Law
  import opened Recovery
  import opened Safety
  import opened Convergence
  import opened Validators
  import opened Sessions
  import opened Histories

  datatype Stage = Preflight | Pilot | Training | Support | Margin

  /** Digests of everything that is hashed, taken as injective. */
  datatype Sha =
    | OfReport(report: Report)
    | OfReceipt(receipt: Receipt)
    | OfManifest(manifest: Manifest)
    | OfCollection(split: Split, files: seq<(Target, Digest)>)
    | OfAuroc(auroc: Auroc)
    | OfSupport(support: SupportFit)
    | OfSelective(selective: Selective)
    | OfModel(model: nat)
    | OfBlob(blob: nat)

  datatype Auroc = Auroc(passed: bool, auroc: Option<real>)
  datatype Point = Point(passed: bool, threshold: Option<real>)
  datatype SupportFit = SupportFit(grid: Option<seq<Point>>, auroc: Option<real>, threshold: Option<real>)
  /** `q` is present when it is a finite number. */
  datatype Selective = Selective(q: Option<real>, supportSha: Option<Sha>)
  datatype Manifest = Manifest(schema: string, split: Split, seeds: seq<nat>)

  datatype Report = Report(
    schema: string, developmentOnly: bool, sealedTestAllowed: bool, source: nat, passed: bool,
    manifests: Option<map<Split, Sha>>, dataset: Option<Sha>, collection: Option<Sha>,
    checkpointPath: Option<Stage>, checkpoint: Option<Sha>, model: Option<nat>,
    auroc: Option<Auroc>, support: Option<SupportFit>, grid: Option<seq<Point>>,
    supportReceipt: Option<Sha>, supportSha: Option<Sha>, selective: Option<Selective>, target: string)

  datatype Receipt = Receipt(
    schema: string, artifact: Stage, artifactSha: Sha, source: nat, passed: bool, finiteQ: bool,
    dataset: Option<Sha>, collection: Option<Sha>,
    checkpointPath: Option<Stage>, checkpoint: Option<Sha>, model: Option<Sha>,
    auroc: Option<Sha>, support: Option<Sha>,
    supportReceipt: Option<Sha>, supportSha: Option<Sha>, selective: Option<Sha>, target: string)

  /** All that authorization reads.  `source` is the identity of the source tree
      that runs now. */
  datatype World = World(
    disk: Image, source: nat, reports: map<Stage, Report>, receipts: map<Stage, Receipt>,
    manifests: map<Split, Manifest>, checkpoint: Option<nat>)

  /** `derive_seed` over the indices of each split. */
  type Seeds = Split -> seq<nat>

  function ScheduleOf(seeds: Seeds): Schedule {
    (split: Split) => set seed <- seeds(split)
  }

  /* _collection_identity_sha256 */

  function FilesOf(fs: Image, split: Split, seeds: seq<nat>): Option<seq<(Target, Digest)>> {
    if seeds == [] then Some([])
    else
      var e, q := Target(split, seeds[0], Kind.Episode), Target(split, seeds[0], Kind.Queries);
      if || Final(e) !in fs.names || Nlink(fs, Final(e)) != 1
         || Final(q) !in fs.names || Nlink(fs, Final(q)) != 1
      then None
      else
        match FilesOf(fs, split, seeds[1..])
        case None => None
        case Some(rest) => Some([(e, Sha256(Contents(fs, Final(e)))), (q, Sha256(Contents(fs, Final(q))))] + rest)
  }

  ghost function CollectionIdentity(seeds: Seeds, fs: Image, split: Split): Option<Sha> {
    if !SplitOk(ScheduleOf(seeds), fs, split, false, true) then None
    else
      match FilesOf(fs, split, seeds(split))
      case None => None
      case Some(files) => Some(OfCollection(split, files))
  }

  /* The receipt chain. */

  /** The collection identity of each split, as recomputed from disk. */
  type Identities = Split -> Option<Sha>

  ghost function IdentitiesOf(seeds: Seeds, fs: Image): Identities {
    (split: Split) => CollectionIdentity(seeds, fs, split)
  }

  predicate Receipted(w: World, stage: Stage, schema: string) {
    && stage in w.reports && stage in w.receipts
    && w.receipts[stage].schema == schema
    && w.receipts[stage].artifact == stage
    && w.receipts[stage].artifactSha == OfReport(w.reports[stage])
    && w.receipts[stage].source == w.source
  }

  predicate Development(w: World, stage: Stage, schema: string)
    requires stage in w.reports
  {
    var report := w.reports[stage];
    report.schema == schema && report.developmentOnly && !report.sealedTestAllowed && report.source == w.source
  }

  predicate ManifestOk(w: World, seeds: Seeds, split: Split, manifests: map<Split, Sha>) {
    && split in w.manifests && split in manifests
    && manifests[split] == OfManifest(w.manifests[split])
    && w.manifests[split] == Manifest("irisu-r3h-g2-seed-manifest-v1", split, seeds(split))
  }

  predicate ValidPreflight(w: World, seeds: Seeds) {
    && Receipted(w, Preflight, "irisu-r3h-g2-preflight-receipt-v1")
    && Development(w, Preflight, "irisu-r3h-g2-preflight-v1")
    && w.reports[Preflight].manifests.Some?
    && forall split: Split :: ManifestOk(w, seeds, split, w.reports[Preflight].manifests.value)
  }

  predicate ValidPilot(w: World, seeds: Seeds, ids: Identities) {
    ValidPreflight(w, seeds) && PilotOk(w, ids)
  }

  predicate PilotOk(w: World, ids: Identities) {
    && Receipted(w, Pilot, "irisu-r3h-g2-pilot-receipt-v1")
    && Development(w, Pilot, "irisu-r3h-g2-structural-pilot-v1")
    && var report, receipt := w.reports[Pilot], w.receipts[Pilot];
    && report.passed && receipt.passed
    && report.dataset.Some? && receipt.dataset == report.dataset
    && ids(TrainBoard).Some?
    && report.collection == ids(TrainBoard)
    && receipt.collection == report.collection
  }

  predicate ValidCheckpoint(w: World, seeds: Seeds, ids: Identities) {
    ValidPilot(w, seeds, ids) && CheckpointOk(w, ids)
  }

  predicate CheckpointOk(w: World, ids: Identities) {
    && Receipted(w, Training, "irisu-r3h-g2-checkpoint-receipt-v1")
    && Development(w, Training, "irisu-r3h-g2-training-v1")
    && Pilot in w.receipts
    && var pilot, report, receipt := w.receipts[Pilot], w.reports[Training], w.receipts[Training];
    && w.checkpoint.Some?
    && receipt.checkpointPath == Some(Training) && report.checkpointPath == Some(Training)
    && receipt.checkpoint == Some(OfBlob(w.checkpoint.value)) && report.checkpoint == receipt.checkpoint
    && receipt.dataset == pilot.dataset && report.dataset == pilot.dataset
    && report.collection == ids(TrainBoard)
    && receipt.collection == report.collection
    && report.model.Some? && receipt.model == Some(OfModel(report.model.value))
  }

  predicate FirstPassing(grid: seq<Point>, threshold: Option<real>) {
    if grid == [] then false
    else if grid[0].passed then threshold == grid[0].threshold
    else FirstPassing(grid[1..], threshold)
  }

  predicate CalibrationOk(report: Report, receipt: Receipt) {
    && report.auroc.Some? && report.auroc.value.passed
    && report.auroc.value.auroc.Some? && report.auroc.value.auroc.value >= 0.75
    && receipt.auroc == Some(OfAuroc(report.auroc.value))
    && report.support.Some? && receipt.support == Some(OfSupport(report.support.value))
    && report.grid.Some? && report.support.value.grid == report.grid
    && report.support.value.auroc == report.auroc.value.auroc
    && FirstPassing(report.grid.value, report.support.value.threshold)
  }

  predicate ValidSupport(w: World, seeds: Seeds, ids: Identities) {
    ValidCheckpoint(w, seeds, ids) && SupportOk(w, ids)
  }

  predicate SupportOk(w: World, ids: Identities) {
    && Receipted(w, Support, "irisu-r3h-g2-support-calibration-receipt-v1")
    && Development(w, Support, "irisu-r3h-g2-support-calibration-v1")
    && Training in w.receipts
    && var training, report, receipt := w.receipts[Training], w.reports[Support], w.receipts[Support];
    && report.passed && receipt.passed
    && report.checkpoint == training.checkpoint && receipt.checkpoint == training.checkpoint
    && CalibrationOk(report, receipt)
    && receipt.dataset == report.dataset
    && ids(SupportBoard).Some?
    && report.collection == ids(SupportBoard)
    && receipt.collection == report.collection
  }

  predicate ValidMargin(w: World, seeds: Seeds, ids: Identities) {
    ValidSupport(w, seeds, ids) && MarginOk(w, ids)
  }

  predicate MarginOk(w: World, ids: Identities) {
    && Receipted(w, Margin, "irisu-r3h-g2-margin-calibration-receipt-v1")
    && Development(w, Margin, "irisu-r3h-g2-margin-calibration-v1")
    && Support in w.receipts
    && var support, report, receipt := w.receipts[Support], w.reports[Margin], w.receipts[Margin];
    && report.passed && receipt.passed && receipt.finiteQ
    && report.target == "absolute_b2" && receipt.target == "absolute_b2"
    && report.checkpoint == support.checkpoint && receipt.checkpoint == support.checkpoint
    && report.supportReceipt == Some(OfReceipt(support)) && receipt.supportReceipt == Some(OfReceipt(support))
    && report.supportSha == support.support && receipt.supportSha == support.support
    && report.selective.Some? && report.selective.value.supportSha == support.support && report.selective.value.q.Some?
    && receipt.selective == Some(OfSelective(report.selective.value))
    && receipt.dataset == report.dataset
    && ids(MarginBoard).Some?
    && report.collection == ids(MarginBoard)
    && receipt.collection == report.collection
  }

  predicate Granted(w: World, seeds: Seeds, ids: Identities, split: Split) {
    match split
    case TrainBoard => ValidPreflight(w, seeds)
    case SupportBoard => ValidCheckpoint(w, seeds, ids)
    case MarginBoard => ValidSupport(w, seeds, ids)
    case OfflineBoard => ValidMargin(w, seeds, ids)
  }

  /** `_authorize_collection` */
  ghost predicate Authorized(w: World, seeds: Seeds, split: Split) {
    Granted(w, seeds, IdentitiesOf(seeds, w.disk), split)
  }

  function Order(split: Split): nat {
    match split
    case TrainBoard => 0
    case SupportBoard => 1
    case MarginBoard => 2
    case OfflineBoard => 3
  }

  /** The stage whose receipt names the collection of `split`. */
  function StageOf(split: Split): Stage
    requires split != OfflineBoard
  {
    match split
    case TrainBoard => Pilot
    case SupportBoard => Support
    case MarginBoard => Margin
  }

  /** What authority over a later split says about an earlier one: its collection
      stands on disk, pristine, exactly as the receipt of its stage names it, and
      that receipt was made by the source tree running now. */
  ghost predicate Stands(w: World, seeds: Seeds, split: Split)
    requires split != OfflineBoard
  {
    && Pristine(ScheduleOf(seeds), w.disk, split)
    && StageOf(split) in w.receipts
    && w.receipts[StageOf(split)].source == w.source
    && CollectionIdentity(seeds, w.disk, split).Some?
    && w.receipts[StageOf(split)].collection == CollectionIdentity(seeds, w.disk, split)
  }

  /** The report and the receipt of a stage name the collection. */
  predicate NamesCollection(w: World, ids: Identities, split: Split)
    requires split != OfflineBoard
  {
    var stage := StageOf(split);
    && stage in w.receipts && stage in w.reports && w.receipts[stage].source == w.source
    && ids(split).Some? && w.reports[stage].collection == ids(split) && w.receipts[stage].collection == ids(split)
  }

  lemma GrantsNest(w: World, seeds: Seeds, ids: Identities, earlier: Split, later: Split)
    requires Order(earlier) < Order(later) && Granted(w, seeds, ids, later)
    ensures Granted(w, seeds, ids, earlier) && NamesCollection(w, ids, earlier)
  {}

  /** The authorised splits are a prefix of the stage order, and authority over a
      split rests on every earlier collection. */
  lemma AuthorityIsPrefix(w: World, seeds: Seeds, earlier: Split, later: Split)
    requires Lawful(ScheduleOf(seeds), w.disk)
    requires Order(earlier) < Order(later) && Authorized(w, seeds, later)
    ensures Authorized(w, seeds, earlier) && Stands(w, seeds, earlier)
  {
    var ids := IdentitiesOf(seeds, w.disk);
    GrantsNest(w, seeds, ids, earlier, later);
    assert ids(earlier) == CollectionIdentity(seeds, w.disk, earlier);
    CompleteAccepts(ScheduleOf(seeds), w.disk, earlier);
  }

  /** The files of two images that have the same collection identity. */
  lemma {:induction false} FilesInjective(fs: Image, gs: Image, split: Split, seeds: seq<nat>)
    requires FilesOf(fs, split, seeds).Some? && FilesOf(fs, split, seeds) == FilesOf(gs, split, seeds)
    ensures forall t: Target :: t.split == split && t.seed in seeds ==>
      && Final(t) in fs.names && Final(t) in gs.names
      && Contents(fs, Final(t)) == Contents(gs, Final(t))
  {
    if seeds != [] {
      var f, g := FilesOf(fs, split, seeds).value, FilesOf(gs, split, seeds).value;
      assert f[0] == g[0] && f[1] == g[1];
      assert f[2..] == FilesOf(fs, split, seeds[1..]).value && g[2..] == FilesOf(gs, split, seeds[1..]).value;
      FilesInjective(fs, gs, split, seeds[1..]);
      forall t: Target | t.split == split && t.seed in seeds
        ensures Final(t) in fs.names && Final(t) in gs.names && Contents(fs, Final(t)) == Contents(gs, Final(t))
      {
        if t.seed == seeds[0] {
          assert t == Target(split, seeds[0], t.kind);
          assert t.kind == Kind.Episode || t.kind == Kind.Queries;
        } else {
          assert t.seed in seeds[1..];
        }
      }
    }
  }

  /** An edit of an authorised collection withdraws every later split: two worlds
      with the same evidence that authorise a split agree on every byte of every
      earlier collection. */
  lemma EditWithdraws(w: World, edited: Image, seeds: Seeds, earlier: Split, later: Split, t: Target)
    requires Order(earlier) < Order(later) && Authorized(w, seeds, later)
    requires t.split == earlier && t.seed in seeds(earlier)
    requires Final(t) !in edited.names || Final(t) !in w.disk.names
      || Contents(edited, Final(t)) != Contents(w.disk, Final(t))
    ensures !Authorized(w.(disk := edited), seeds, later)
  {
    if Authorized(w.(disk := edited), seeds, later) {
      SameIdentity(w, edited, seeds, earlier, later);
      FilesInjective(w.disk, edited, earlier, seeds(earlier));
    }
  }

  lemma SameIdentity(w: World, edited: Image, seeds: Seeds, earlier: Split, later: Split)
    requires Order(earlier) < Order(later) && Authorized(w, seeds, later)
      && Authorized(w.(disk := edited), seeds, later)
    ensures FilesOf(w.disk, earlier, seeds(earlier)).Some?
    ensures FilesOf(w.disk, earlier, seeds(earlier)) == FilesOf(edited, earlier, seeds(earlier))
  {
    var ids, ids' := IdentitiesOf(seeds, w.disk), IdentitiesOf(seeds, edited);
    GrantsNest(w, seeds, ids, earlier, later);
    GrantsNest(w.(disk := edited), seeds, ids', earlier, later);
    assert ids(earlier) == CollectionIdentity(seeds, w.disk, earlier);
    assert ids'(earlier) == CollectionIdentity(seeds, edited, earlier);
  }

  /* The collector cannot withdraw authority. */

  lemma PristineLoad(schedule: Schedule, ls: Listing, fs: Image, s: Session)
    requires Lawful(schedule, fs) && Pristine(schedule, fs, s.split) && Lists(ls) && s.Valid()
      && s.seed in schedule(s.split)
    ensures Collect(ls, schedule, fs, s).images == []
  {
    RecoverNothing(schedule, ls, fs, s.Episode(), true, s.pid, s.stamp);
    RecoverNothing(schedule, ls, fs, s.Queries(), true, s.pid, s.stamp);
    assert PristinePair(fs, s.split, s.seed);
    InspectMeaning(schedule, fs, s);
  }

  lemma AfterPristine(schedule: Schedule, fs: Image, b: Boot)
    requires Lawful(schedule, fs) && Pristine(schedule, fs, b.session.split) && Genuine(schedule, b)
    ensures After(schedule, fs, b) == fs
  {
    PristineLoad(schedule, b.ls, fs, b.session);
  }

  /** A settled split is not touched by any invocation, for it or for another. */
  lemma PristineKept(schedule: Schedule, fs: Image, b: Boot, split: Split)
    requires Lawful(schedule, fs) && Pristine(schedule, fs, split) && Genuine(schedule, b)
    ensures Frozen(fs, After(schedule, fs, b), split) && Pristine(schedule, After(schedule, fs, b), split)
  {
    AfterAdvances(schedule, fs, b);
    if b.session.split == split {
      AfterPristine(schedule, fs, b);
    } else {
      OtherSplitFrozen(schedule, fs, b, split);
    }
    FrozenPristine(schedule, fs, After(schedule, fs, b), split);
  }

  lemma FrozenPristine(schedule: Schedule, fs: Image, gs: Image, split: Split)
    requires Lawful(schedule, gs) && Keeps(fs, gs) && Pristine(schedule, fs, split) && Frozen(fs, gs, split)
    ensures Pristine(schedule, gs, split)
  {
    forall n | n in gs.names && n.Temp? ensures n.target.split != split {
      assert DirOf(n).split == n.target.split;
    }
    forall seed <- schedule(split) ensures PristinePair(gs, split, seed) {
      assert PristinePair(fs, split, seed);
      assert DirOf(Final(Target(split, seed, Kind.Episode))).split == split;
      CommittedPristine(schedule, gs, split, seed);
    }
  }

  lemma {:induction false} FilesKept(fs: Image, gs: Image, split: Split, seeds: seq<nat>)
    requires forall seed <- seeds :: PristinePair(fs, split, seed) && PristinePair(gs, split, seed)
    requires Frozen(fs, gs, split)
    ensures FilesOf(fs, split, seeds) == FilesOf(gs, split, seeds)
  {
    if seeds != [] {
      assert seeds[0] in seeds && PristinePair(fs, split, seeds[0]) && PristinePair(gs, split, seeds[0]);
      var e, q := Final(Target(split, seeds[0], Kind.Episode)), Final(Target(split, seeds[0], Kind.Queries));
      SoleLinks(fs, e);
      SoleLinks(gs, e);
      SoleLinks(fs, q);
      SoleLinks(gs, q);
      FilesKept(fs, gs, split, seeds[1..]);
    }
  }

  lemma IdentityKept(seeds: Seeds, fs: Image, gs: Image, split: Split)
    requires Lawful(ScheduleOf(seeds), fs) && Lawful(ScheduleOf(seeds), gs)
    requires Pristine(ScheduleOf(seeds), fs, split) && Pristine(ScheduleOf(seeds), gs, split) && Frozen(fs, gs, split)
    ensures CollectionIdentity(seeds, fs, split) == CollectionIdentity(seeds, gs, split)
  {
    CompleteAccepts(ScheduleOf(seeds), fs, split);
    CompleteAccepts(ScheduleOf(seeds), gs, split);
    forall seed <- seeds(split) ensures PristinePair(fs, split, seed) && PristinePair(gs, split, seed) {
      assert seed in ScheduleOf(seeds)(split);
    }
    FilesKept(fs, gs, split, seeds(split));
  }

  /** What is granted depends on the identities of earlier splits only. */
  lemma GrantsDepend(w: World, disk: Image, seeds: Seeds, ids: Identities, ids': Identities, split: Split)
    requires Granted(w, seeds, ids, split)
    requires forall earlier: Split :: Order(earlier) < Order(split) ==> ids(earlier) == ids'(earlier)
    ensures Granted(w.(disk := disk), seeds, ids', split)
  {
    assert Order(TrainBoard) == 0 && Order(SupportBoard) == 1 && Order(MarginBoard) == 2;
    forall s: Split ensures ManifestOk(w.(disk := disk), seeds, s, w.reports[Preflight].manifests.value) {
      assert ManifestOk(w, seeds, s, w.reports[Preflight].manifests.value);
    }
  }

  lemma AuthorityKept(w: World, seeds: Seeds, b: Boot, split: Split)
    requires Lawful(ScheduleOf(seeds), w.disk) && Authorized(w, seeds, split) && Genuine(ScheduleOf(seeds), b)
    ensures Authorized(w.(disk := After(ScheduleOf(seeds), w.disk, b)), seeds, split)
  {
    var schedule := ScheduleOf(seeds);
    var gs := After(schedule, w.disk, b);
    AfterAdvances(schedule, w.disk, b);
    forall earlier: Split | Order(earlier) < Order(split)
      ensures CollectionIdentity(seeds, w.disk, earlier) == CollectionIdentity(seeds, gs, earlier)
    {
      AuthorityIsPrefix(w, seeds, earlier, split);
      PristineKept(schedule, w.disk, b, earlier);
      IdentityKept(seeds, w.disk, gs, earlier);
    }
    GrantsDepend(w, gs, seeds, IdentitiesOf(seeds, w.disk), IdentitiesOf(seeds, gs), split);
  }

  /** No history of invocations, whatever crashes it holds, withdraws a granted
      authority: only edits from outside can. */
  lemma {:induction false} AuthorityPersists(w: World, seeds: Seeds, h: History, split: Split)
    requires Lawful(ScheduleOf(seeds), w.disk) && Authorized(w, seeds, split) && GenuineHistory(ScheduleOf(seeds), h)
    ensures Authorized(w.(disk := Replay(ScheduleOf(seeds), w.disk, h)), seeds, split)
    decreases |h|
  {
    var schedule := ScheduleOf(seeds);
    if h != [] {
      var next := w.(disk := After(schedule, w.disk, h[0]));
      AuthorityKept(w, seeds, h[0], split);
      AfterAdvances(schedule, w.disk, h[0]);
      AuthorityPersists(next, seeds, h[1..], split);
    }
  }

  /** `collect_episode` with the authorization that precedes every other call. */
  ghost function CollectAuthorized(w: World, seeds: Seeds, ls: Listing, s: Session): Run {
    if !Authorized(w, seeds, s.split) then Run(Refused, []) else Collect(ls, ScheduleOf(seeds), w.disk, s)
  }

  ghost function AfterAuthorized(w: World, seeds: Seeds, b: Boot): Image {
    var images := CollectAuthorized(w, seeds, b.ls, b.session).images;
    End(w.disk, if b.cut < |images| then images[..b.cut] else images)
  }

  /** Refusing authorization is a cut before the first call, so whatever holds of every
      history of invocations holds of the authorised ones. */
  lemma AuthorizationCuts(w: World, seeds: Seeds, b: Boot)
    ensures AfterAuthorized(w, seeds, b) ==
      After(ScheduleOf(seeds), w.disk, if Authorized(w, seeds, b.session.split) then b else b.(cut := 0))
  {
    if !Authorized(w, seeds, b.session.split) {
      var images := Collect(b.ls, ScheduleOf(seeds), w.disk, b.session).images;
      assert images == [] || images[..0] == [];
    }
  }
}
