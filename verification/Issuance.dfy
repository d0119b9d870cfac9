/** The commands that issue reports and receipts, and exactly when what they have
    issued authorises a split. */
module Issuance {
  import opened Images
  import opened Options
  import opened Law
  import opened Validators
  import opened Authority

  /* What authorization asks, in numbers and indices. */

  function SchemaOf(stage: Stage): string {
    match stage
    case Preflight => "irisu-r3h-g2-preflight-v1"
    case Pilot => "irisu-r3h-g2-structural-pilot-v1"
    case Training => "irisu-r3h-g2-training-v1"
    case Support => "irisu-r3h-g2-support-calibration-v1"
    case Margin => "irisu-r3h-g2-margin-calibration-v1"
  }

  function ReceiptSchemaOf(stage: Stage): string {
    match stage
    case Preflight => "irisu-r3h-g2-preflight-receipt-v1"
    case Pilot => "irisu-r3h-g2-pilot-receipt-v1"
    case Training => "irisu-r3h-g2-checkpoint-receipt-v1"
    case Support => "irisu-r3h-g2-support-calibration-receipt-v1"
    case Margin => "irisu-r3h-g2-margin-calibration-receipt-v1"
  }

  function SeedManifest(seeds: Seeds, split: Split): Manifest {
    Manifest("irisu-r3h-g2-seed-manifest-v1", split, seeds(split))
  }

  /** Point `i` passes, every earlier point fails, and the threshold is its own. */
  ghost predicate ChosenAt(grid: seq<Point>, threshold: Option<real>, i: nat) {
    && i < |grid| && grid[i].passed && threshold == grid[i].threshold
    && forall j :: 0 <= j < i ==> !grid[j].passed
  }

  /** A calibration with AUROC `a` of at least three quarters and the threshold of
      the first grid point that passes. */
  ghost predicate CalibratedAt(report: Report, a: real, grid: seq<Point>, i: nat) {
    && report.auroc == Some(Auroc(true, Some(a))) && 4.0 * a >= 3.0
    && report.grid == Some(grid) && i < |grid|
    && report.support == Some(SupportFit(Some(grid), Some(a), grid[i].threshold))
    && ChosenAt(grid, grid[i].threshold, i)
  }

  ghost predicate Calibrated(report: Report) {
    exists a: real, grid: seq<Point>, i: nat :: CalibratedAt(report, a, grid, i)
  }

  /** The report of a stage says what the next stage needs. */
  ghost predicate ReportStands(w: World, seeds: Seeds, ids: Identities, stage: Stage) {
    && stage in w.reports
    && var report := w.reports[stage];
    && report.schema == SchemaOf(stage) && report.developmentOnly && !report.sealedTestAllowed
    && report.source == w.source
    && match stage
       case Preflight =>
         && report.manifests.Some?
         && forall split: Split :: split in w.manifests && w.manifests[split] == SeedManifest(seeds, split)
              && split in report.manifests.value && report.manifests.value[split] == OfManifest(w.manifests[split])
       case Pilot =>
         report.passed && report.dataset.Some? && ids(TrainBoard).Some? && report.collection == ids(TrainBoard)
       case Training =>
         && w.checkpoint.Some? && report.checkpoint == Some(OfBlob(w.checkpoint.value))
         && report.checkpointPath == Some(Training) && report.model.Some?
         && Pilot in w.reports && report.dataset == w.reports[Pilot].dataset
         && report.collection == ids(TrainBoard)
       case Support =>
         && report.passed && Calibrated(report)
         && w.checkpoint.Some? && report.checkpoint == Some(OfBlob(w.checkpoint.value))
         && ids(SupportBoard).Some? && report.collection == ids(SupportBoard)
       case Margin =>
         && report.passed && report.target == "absolute_b2"
         && w.checkpoint.Some? && report.checkpoint == Some(OfBlob(w.checkpoint.value))
         && Support in w.receipts && report.supportReceipt == Some(OfReceipt(w.receipts[Support]))
         && Support in w.reports && w.reports[Support].support.Some?
         && report.supportSha == Some(OfSupport(w.reports[Support].support.value))
         && (exists q: real :: report.selective == Some(Selective(Some(q), report.supportSha)))
         && ids(MarginBoard).Some? && report.collection == ids(MarginBoard)
  }

  function Mapped<A, B>(o: Option<A>, f: A -> B): Option<B> {
    match o
    case None => None
    case Some(a) => Some(f(a))
  }

  /** The receipt that is written beside a report. */
  function ReceiptOf(stage: Stage, report: Report): Receipt {
    Receipt(
      ReceiptSchemaOf(stage), stage, OfReport(report), report.source, report.passed,
      report.selective.Some? && report.selective.value.q.Some?,
      report.dataset, report.collection, report.checkpointPath, report.checkpoint,
      Mapped(report.model, m => OfModel(m)), Mapped(report.auroc, a => OfAuroc(a)),
      Mapped(report.support, s => OfSupport(s)),
      report.supportReceipt, report.supportSha, Mapped(report.selective, s => OfSelective(s)), report.target)
  }

  /** Only what is read of a receipt of this stage. */
  function Read(stage: Stage, r: Receipt): Receipt {
    var bare := Receipt(r.schema, r.artifact, r.artifactSha, r.source, false, false, None, None, None, None, None, None,
                        None, None, None, None, "");
    match stage
    case Preflight => bare
    case Pilot => bare.(passed := r.passed, dataset := r.dataset, collection := r.collection)
    case Training => bare.(
      dataset := r.dataset, collection := r.collection, checkpointPath := r.checkpointPath, checkpoint := r.checkpoint,
      model := r.model)
    case Support => bare.(
      passed := r.passed, dataset := r.dataset, collection := r.collection, checkpoint := r.checkpoint,
      auroc := r.auroc, support := r.support)
    case Margin => bare.(
      passed := r.passed, dataset := r.dataset, collection := r.collection, checkpoint := r.checkpoint,
      finiteQ := r.finiteQ, target := r.target, supportReceipt := r.supportReceipt, supportSha := r.supportSha,
      selective := r.selective)
  }

  /** The receipt of a stage is, as far as it is read, the one written beside its report. */
  ghost predicate ReceiptStands(w: World, stage: Stage) {
    && stage in w.reports && stage in w.receipts
    && Read(stage, w.receipts[stage]) == Read(stage, ReceiptOf(stage, w.reports[stage]))
  }

  ghost predicate StageStands(w: World, seeds: Seeds, ids: Identities, stage: Stage) {
    ReportStands(w, seeds, ids, stage) && ReceiptStands(w, stage)
  }

  lemma PreflightExact(w: World, seeds: Seeds, ids: Identities)
    ensures ValidPreflight(w, seeds) <==> StageStands(w, seeds, ids, Preflight)
  {
    if ValidPreflight(w, seeds) {
      forall split: Split ensures split in w.manifests && w.manifests[split] == SeedManifest(seeds, split)
        && split in w.reports[Preflight].manifests.value
        && w.reports[Preflight].manifests.value[split] == OfManifest(w.manifests[split])
      {
        assert ManifestOk(w, seeds, split, w.reports[Preflight].manifests.value);
      }
    }
  }

  lemma PilotExact(w: World, seeds: Seeds, ids: Identities)
    ensures PilotOk(w, ids) <==> StageStands(w, seeds, ids, Pilot)
  {}

  lemma TrainingExact(w: World, seeds: Seeds, ids: Identities)
    requires PilotOk(w, ids)
    ensures CheckpointOk(w, ids) <==> StageStands(w, seeds, ids, Training)
  {}

  lemma {:induction false} FirstPassingExact(grid: seq<Point>, threshold: Option<real>)
    ensures FirstPassing(grid, threshold) <==> exists i: nat :: ChosenAt(grid, threshold, i)
  {
    if grid != [] {
      FirstPassingExact(grid[1..], threshold);
      if grid[0].passed {
        assert threshold == grid[0].threshold ==> ChosenAt(grid, threshold, 0);
      } else {
        if i: nat :| ChosenAt(grid, threshold, i) {
          assert forall j :: 0 <= j < i - 1 ==> grid[1..][j] == grid[j + 1];
          assert ChosenAt(grid[1..], threshold, i - 1);
        }
        if i: nat :| ChosenAt(grid[1..], threshold, i) {
          assert forall j :: 0 < j <= i ==> grid[j] == grid[1..][j - 1];
          assert ChosenAt(grid, threshold, i + 1);
        }
      }
    }
  }

  lemma CalibratedExact(report: Report, receipt: Receipt)
    ensures CalibrationOk(report, receipt) <==>
      && Calibrated(report)
      && receipt.auroc == Mapped(report.auroc, a => OfAuroc(a))
      && receipt.support == Mapped(report.support, s => OfSupport(s))
  {
    if CalibrationOk(report, receipt) {
      var a, grid, threshold :=
        report.auroc.value.auroc.value, report.grid.value, report.support.value.threshold;
      FirstPassingExact(grid, threshold);
      var i: nat :| ChosenAt(grid, threshold, i);
      assert CalibratedAt(report, a, grid, i);
    }
    if a: real, grid: seq<Point>, i: nat :| CalibratedAt(report, a, grid, i) {
      FirstPassingExact(grid, grid[i].threshold);
    }
  }

  lemma SupportExact(w: World, seeds: Seeds, ids: Identities)
    requires CheckpointOk(w, ids)
    ensures SupportOk(w, ids) <==> StageStands(w, seeds, ids, Support)
  {
    if Support in w.reports && Support in w.receipts { CalibratedExact(w.reports[Support], w.receipts[Support]); }
  }

  lemma MarginExact(w: World, seeds: Seeds, ids: Identities)
    requires CheckpointOk(w, ids) && SupportOk(w, ids)
    ensures MarginOk(w, ids) <==> StageStands(w, seeds, ids, Margin)
  {
    if MarginOk(w, ids) {
      var report := w.reports[Margin];
      var q := report.selective.value.q.value;
      assert report.selective == Some(Selective(Some(q), report.supportSha));
    }
  }

  function Rank(stage: Stage): nat {
    match stage
    case Preflight => 0
    case Pilot => 1
    case Training => 2
    case Support => 3
    case Margin => 4
  }

  /** The last stage that a split waits for. */
  function LastStage(split: Split): Stage {
    match split
    case TrainBoard => Preflight
    case SupportBoard => Training
    case MarginBoard => Support
    case OfflineBoard => Margin
  }

  /** The stages up to the last one of a split. */
  lemma StagesUpTo(p: Stage -> bool, split: Split)
    ensures (forall stage: Stage :: Rank(stage) <= Rank(LastStage(split)) ==> p(stage)) <==>
      && p(Preflight)
      && (split != TrainBoard ==> p(Pilot) && p(Training))
      && (split == MarginBoard || split == OfflineBoard ==> p(Support))
      && (split == OfflineBoard ==> p(Margin))
  {
    assert Rank(Preflight) == 0 && Rank(Pilot) == 1 && Rank(Training) == 2 && Rank(Support) == 3 && Rank(Margin) == 4;
  }

  lemma ChainExact(w: World, seeds: Seeds, ids: Identities, split: Split)
    ensures Granted(w, seeds, ids, split) <==>
      && StageStands(w, seeds, ids, Preflight)
      && (split != TrainBoard ==> StageStands(w, seeds, ids, Pilot) && StageStands(w, seeds, ids, Training))
      && (split == MarginBoard || split == OfflineBoard ==> StageStands(w, seeds, ids, Support))
      && (split == OfflineBoard ==> StageStands(w, seeds, ids, Margin))
  {
    PreflightExact(w, seeds, ids);
    PilotExact(w, seeds, ids);
    if PilotOk(w, ids) {
      TrainingExact(w, seeds, ids);
      if CheckpointOk(w, ids) {
        SupportExact(w, seeds, ids);
        if SupportOk(w, ids) { MarginExact(w, seeds, ids); }
      }
    }
  }

  /** A split is authorised exactly when every stage up to its own stands. */
  lemma AuthorizedExact(w: World, seeds: Seeds, split: Split)
    ensures Authorized(w, seeds, split) <==>
      forall stage: Stage :: Rank(stage) <= Rank(LastStage(split)) ==>
        StageStands(w, seeds, IdentitiesOf(seeds, w.disk), stage)
  {
    ChainExact(w, seeds, IdentitiesOf(seeds, w.disk), split);
    StagesUpTo(stage => StageStands(w, seeds, IdentitiesOf(seeds, w.disk), stage), split);
  }

  /* The issuing commands, from a store without reports. */

  /** A grid threshold with what it selects: bad candidates, and covered queries. */
  datatype Cell = Cell(threshold: real, bad: nat, covered: nat)

  /** What the computations on the collections turn out to be. */
  datatype Campaign = Campaign(
    groups: nat, resolved: nat, viable: nat, rows: nat, dataset: Sha,
    blob: nat, model: nat,
    auroc: Option<real>, queries: nat, cells: seq<Cell>, supportDataset: Sha,
    q: Option<real>, marginDataset: Sha)

  /** `_pilot_report`: all gates hold. */
  predicate PilotPasses(c: Campaign) {
    false !in [c.groups == 32, c.resolved >= 24, c.viable >= 18, c.rows >= 160]
  }

  /** Nothing bad is selected, and a twentieth of the queries is covered. */
  predicate CellPasses(c: Campaign, cell: Cell) {
    cell.bad == 0 && 20 * cell.covered >= c.queries
  }

  function GridOf(c: Campaign): (grid: seq<Point>)
    ensures |grid| == |c.cells|
    ensures forall i :: 0 <= i < |grid| ==> grid[i] == Point(CellPasses(c, c.cells[i]), Some(c.cells[i].threshold))
  {
    seq(|c.cells|, i requires 0 <= i < |c.cells| => Point(CellPasses(c, c.cells[i]), Some(c.cells[i].threshold)))
  }

  function AurocOf(c: Campaign): Auroc {
    Auroc(c.auroc.Some? && c.auroc.value >= 0.75, c.auroc)
  }

  /** The loop of `fit_support_calibration_g2` that keeps the first passing point. */
  function Winner(grid: seq<Point>): Option<Point> {
    if grid == [] then None else if grid[0].passed then Some(grid[0]) else Winner(grid[1..])
  }

  function FitOf(c: Campaign): Option<SupportFit> {
    var grid := GridOf(c);
    if !AurocOf(c).passed || Winner(grid) == None then None
    else Some(SupportFit(Some(grid), c.auroc, Winner(grid).value.threshold))
  }

  function Blank(w: World, stage: Stage): Report {
    Report(SchemaOf(stage), true, false, w.source, false, None, None, None, None, None, None, None, None, None, None,
           None, None, "")
  }

  function ManifestSha(seeds: Seeds, split: Split): Sha {
    OfManifest(SeedManifest(seeds, split))
  }

  function Manifests(seeds: Seeds): map<Split, Manifest> {
    map[TrainBoard := SeedManifest(seeds, TrainBoard), SupportBoard := SeedManifest(seeds, SupportBoard),
        MarginBoard := SeedManifest(seeds, MarginBoard), OfflineBoard := SeedManifest(seeds, OfflineBoard)]
  }

  function ManifestShas(seeds: Seeds): map<Split, Sha> {
    map[TrainBoard := ManifestSha(seeds, TrainBoard), SupportBoard := ManifestSha(seeds, SupportBoard),
        MarginBoard := ManifestSha(seeds, MarginBoard), OfflineBoard := ManifestSha(seeds, OfflineBoard)]
  }

  /** A report is written, and then the receipt that binds it. */
  function Written(w: World, stage: Stage, report: Report): World {
    w.(reports := w.reports[stage := report], receipts := w.receipts[stage := ReceiptOf(stage, report)])
  }

  /** `command_preflight` */
  function IssuePreflight(w: World, seeds: Seeds): World {
    Written(w.(manifests := Manifests(seeds)), Preflight,
            Blank(w, Preflight).(manifests := Some(ManifestShas(seeds))))
  }

  /** `command_pilot` */
  function IssuePilot(w: World, ids: Identities, c: Campaign): World {
    if Preflight !in w.reports || ids(TrainBoard) == None then w
    else
      Written(w, Pilot, Blank(w, Pilot).(
        passed := PilotPasses(c), dataset := Some(c.dataset), collection := ids(TrainBoard)))
  }

  /** `command_train` */
  function IssueTraining(w: World, ids: Identities, c: Campaign): World {
    if Pilot !in w.reports || !w.reports[Pilot].passed || w.reports[Pilot].dataset != Some(c.dataset) then w
    else
      Written(w.(checkpoint := Some(c.blob)), Training, Blank(w, Training).(
        checkpointPath := Some(Training), checkpoint := Some(OfBlob(c.blob)), dataset := Some(c.dataset),
        collection := ids(TrainBoard), model := Some(c.model)))
  }

  /** `command_calibrate_support` */
  function IssueSupport(w: World, ids: Identities, c: Campaign): World {
    if Training !in w.reports || w.checkpoint == None || ids(SupportBoard) == None || c.queries == 0 then w
    else
      Written(w, Support, Blank(w, Support).(
        checkpoint := Some(OfBlob(w.checkpoint.value)), dataset := Some(c.supportDataset),
        collection := ids(SupportBoard), auroc := Some(AurocOf(c)), grid := Some(GridOf(c)), support := FitOf(c),
        passed := FitOf(c).Some?))
  }

  /** `command_calibrate_margin` */
  function IssueMargin(w: World, ids: Identities, c: Campaign): World {
    if || Support !in w.reports || Support !in w.receipts || !w.reports[Support].passed
       || w.reports[Support].support == None || w.checkpoint == None || ids(MarginBoard) == None
    then w
    else
      var fit := OfSupport(w.reports[Support].support.value);
      Written(w, Margin, Blank(w, Margin).(
        checkpoint := Some(OfBlob(w.checkpoint.value)), supportReceipt := Some(OfReceipt(w.receipts[Support])),
        supportSha := Some(fit), dataset := Some(c.marginDataset), collection := ids(MarginBoard),
        target := "absolute_b2", selective := Some(Selective(c.q, Some(fit))), passed := c.q.Some?))
  }

  /** The `n`-th command. */
  function Next(before: World, seeds: Seeds, ids: Identities, c: Campaign, n: nat): World {
    match n
    case 1 => IssuePreflight(before, seeds)
    case 2 => IssuePilot(before, ids, c)
    case 3 => IssueTraining(before, ids, c)
    case 4 => IssueSupport(before, ids, c)
    case _ => IssueMargin(before, ids, c)
  }

  /** The first `n` commands, in their order. */
  function Issued(w: World, seeds: Seeds, ids: Identities, c: Campaign, n: nat): World
    requires n <= 5
  {
    if n == 0 then w else Next(Issued(w, seeds, ids, c, n - 1), seeds, ids, c, n)
  }

  /** The pilot's counts reach their limits. */
  ghost predicate PilotAt(c: Campaign) {
    c.groups == 32 && c.resolved >= 24 && c.viable >= 18 && c.rows >= 160
  }

  /** The numbers that open a split. */
  ghost predicate Numeric(c: Campaign, split: Split) {
    && (split != TrainBoard ==> PilotAt(c))
    && (split == MarginBoard || split == OfflineBoard ==> c.queries > 0 && exists i: nat :: GoAt(c, i))
    && (split == OfflineBoard ==> c.q.Some?)
  }

  /** The AUROC is at least three quarters, cell `i` is the first that passes. */
  ghost predicate GoAt(c: Campaign, i: nat) {
    && c.auroc.Some? && 4.0 * c.auroc.value >= 3.0
    && i < |c.cells| && c.cells[i].bad == 0 && 20 * c.cells[i].covered >= c.queries
    && forall j :: 0 <= j < i ==> c.cells[j].bad > 0 || 20 * c.cells[j].covered < c.queries
  }

  lemma {:induction false} WinnerIsFirst(grid: seq<Point>, threshold: Option<real>)
    ensures FirstPassing(grid, threshold) <==> Winner(grid).Some? && threshold == Winner(grid).value.threshold
  {
    if grid != [] { WinnerIsFirst(grid[1..], threshold); }
  }

  /** A calibration is GO exactly with an AUROC of three quarters and a passing cell. */
  lemma FitExact(c: Campaign)
    ensures FitOf(c).Some? <==> exists i: nat :: GoAt(c, i)
  {
    var grid := GridOf(c);
    forall i: nat ensures GoAt(c, i) <==>
      AurocOf(c).passed && i < |grid| && ChosenAt(grid, grid[i].threshold, i)
    {}
    if FitOf(c).Some? {
      var threshold := Winner(grid).value.threshold;
      WinnerIsFirst(grid, threshold);
      FirstPassingExact(grid, threshold);
      var i: nat :| ChosenAt(grid, threshold, i);
      assert GoAt(c, i);
    }
    if i: nat :| GoAt(c, i) {
      WinnerIsFirst(grid, grid[i].threshold);
      FirstPassingExact(grid, grid[i].threshold);
    }
  }

  /* Stage by stage. */

  predicate PilotGo(ids: Identities, c: Campaign) {
    ids(TrainBoard).Some? && PilotPasses(c)
  }

  predicate SupportGo(ids: Identities, c: Campaign) {
    PilotGo(ids, c) && ids(SupportBoard).Some? && c.queries > 0 && FitOf(c).Some?
  }

  predicate MarginGo(ids: Identities, c: Campaign) {
    SupportGo(ids, c) && ids(MarginBoard).Some? && c.q.Some?
  }

  /** What is on file after `n` commands. */
  ghost predicate OnFile(w: World, ids: Identities, c: Campaign, n: nat) {
    && (Preflight in w.reports <==> n >= 1)
    && (Pilot in w.reports <==> n >= 2 && ids(TrainBoard).Some?)
    && (Pilot in w.reports ==> w.reports[Pilot].passed == PilotPasses(c) && w.reports[Pilot].dataset == Some(c.dataset))
    && (Training in w.reports <==> n >= 3 && PilotGo(ids, c))
    && (Training in w.reports ==> w.checkpoint.Some?)
    && (Support in w.reports <==> n >= 4 && PilotGo(ids, c) && ids(SupportBoard).Some? && c.queries > 0)
    && (Support in w.reports ==>
          Support in w.receipts && w.reports[Support].passed == FitOf(c).Some?
              && w.reports[Support].support == FitOf(c))
    && (Margin in w.reports <==> n >= 5 && SupportGo(ids, c) && ids(MarginBoard).Some?)
  }

  /** What stands after `n` commands. */
  ghost predicate Standing(w: World, seeds: Seeds, ids: Identities, c: Campaign, n: nat) {
    && (ValidPreflight(w, seeds) <==> n >= 1)
    && (PilotOk(w, ids) <==> n >= 2 && PilotGo(ids, c))
    && (CheckpointOk(w, ids) <==> n >= 3 && PilotGo(ids, c))
    && (SupportOk(w, ids) <==> n >= 4 && SupportGo(ids, c))
    && (MarginOk(w, ids) <==> n >= 5 && MarginGo(ids, c))
  }

  lemma PreflightIssued(w: World, seeds: Seeds, ids: Identities, c: Campaign)
    requires OnFile(w, ids, c, 0)
    ensures OnFile(IssuePreflight(w, seeds), ids, c, 1) && Standing(IssuePreflight(w, seeds), seeds, ids, c, 1)
  {
    var next := IssuePreflight(w, seeds);
    forall split: Split ensures ManifestOk(next, seeds, split, next.reports[Preflight].manifests.value) {
      match split
      case TrainBoard | SupportBoard | MarginBoard | OfflineBoard =>
        assert split in Manifests(seeds) && split in ManifestShas(seeds);
    }
  }

  predicate SameAt(w: World, next: World, stage: Stage) {
    && (stage in w.reports <==> stage in next.reports) && (stage in w.receipts <==> stage in next.receipts)
    && (stage in w.reports ==> next.reports[stage] == w.reports[stage])
    && (stage in w.receipts ==> next.receipts[stage] == w.receipts[stage])
  }

  /* A later report leaves an earlier stage as it was. */

  lemma PreflightKept(w: World, next: World, seeds: Seeds)
    requires next.source == w.source && next.manifests == w.manifests && SameAt(w, next, Preflight)
    ensures ValidPreflight(next, seeds) <==> ValidPreflight(w, seeds)
  {
    if Preflight in w.reports && w.reports[Preflight].manifests.Some? {
      forall split: Split
        ensures ManifestOk(next, seeds, split, w.reports[Preflight].manifests.value) <==>
          ManifestOk(w, seeds, split, w.reports[Preflight].manifests.value)
      {}
    }
  }

  lemma PilotKept(w: World, next: World, ids: Identities)
    requires next.source == w.source && SameAt(w, next, Pilot)
    ensures PilotOk(next, ids) <==> PilotOk(w, ids)
  {}

  lemma CheckpointKept(w: World, next: World, ids: Identities)
    requires next.source == w.source && next.checkpoint == w.checkpoint
    requires SameAt(w, next, Pilot) && SameAt(w, next, Training)
    ensures CheckpointOk(next, ids) <==> CheckpointOk(w, ids)
  {}

  lemma SupportKept(w: World, next: World, ids: Identities)
    requires next.source == w.source && SameAt(w, next, Training) && SameAt(w, next, Support)
    ensures SupportOk(next, ids) <==> SupportOk(w, ids)
  {}

  lemma PilotIssued(w: World, seeds: Seeds, ids: Identities, c: Campaign)
    requires OnFile(w, ids, c, 1) && Standing(w, seeds, ids, c, 1)
    ensures OnFile(IssuePilot(w, ids, c), ids, c, 2) && Standing(IssuePilot(w, ids, c), seeds, ids, c, 2)
  {
    PreflightKept(w, IssuePilot(w, ids, c), seeds);
  }

  lemma TrainingIssued(w: World, seeds: Seeds, ids: Identities, c: Campaign)
    requires OnFile(w, ids, c, 2) && Standing(w, seeds, ids, c, 2)
    ensures OnFile(IssueTraining(w, ids, c), ids, c, 3) && Standing(IssueTraining(w, ids, c), seeds, ids, c, 3)
  {
    var next := IssueTraining(w, ids, c);
    PreflightKept(w, next, seeds);
    PilotKept(w, next, ids);
  }

  lemma SupportWritten(w: World, ids: Identities, c: Campaign)
    requires CheckpointOk(w, ids) && Training in w.reports && ids(SupportBoard).Some? && c.queries > 0
    ensures SupportOk(IssueSupport(w, ids, c), ids) <==> FitOf(c).Some?
  {
    if FitOf(c).Some? { WinnerIsFirst(GridOf(c), Winner(GridOf(c)).value.threshold); }
  }

  lemma SupportIssued(w: World, seeds: Seeds, ids: Identities, c: Campaign)
    requires OnFile(w, ids, c, 3) && Standing(w, seeds, ids, c, 3)
    ensures OnFile(IssueSupport(w, ids, c), ids, c, 4) && Standing(IssueSupport(w, ids, c), seeds, ids, c, 4)
  {
    var next := IssueSupport(w, ids, c);
    if next != w {
      PreflightKept(w, next, seeds);
      PilotKept(w, next, ids);
      CheckpointKept(w, next, ids);
      SupportWritten(w, ids, c);
    }
  }

  lemma MarginWritten(w: World, ids: Identities, c: Campaign)
    requires CheckpointOk(w, ids) && SupportOk(w, ids) && ids(MarginBoard).Some?
    ensures MarginOk(IssueMargin(w, ids, c), ids) <==> c.q.Some?
  {}

  lemma MarginIssued(w: World, seeds: Seeds, ids: Identities, c: Campaign)
    requires OnFile(w, ids, c, 4) && Standing(w, seeds, ids, c, 4)
    ensures OnFile(IssueMargin(w, ids, c), ids, c, 5) && Standing(IssueMargin(w, ids, c), seeds, ids, c, 5)
  {
    var next := IssueMargin(w, ids, c);
    if next != w {
      PreflightKept(w, next, seeds);
      PilotKept(w, next, ids);
      CheckpointKept(w, next, ids);
      SupportKept(w, next, ids);
      MarginWritten(w, ids, c);
    }
  }

  lemma NextStands(before: World, seeds: Seeds, ids: Identities, c: Campaign, n: nat)
    requires 0 < n <= 5 && OnFile(before, ids, c, n - 1) && Standing(before, seeds, ids, c, n - 1)
    ensures OnFile(Next(before, seeds, ids, c, n), ids, c, n)
    ensures Standing(Next(before, seeds, ids, c, n), seeds, ids, c, n)
  {
    match n
    case 1 => PreflightIssued(before, seeds, ids, c);
    case 2 => PilotIssued(before, seeds, ids, c);
    case 3 => TrainingIssued(before, seeds, ids, c);
    case 4 => SupportIssued(before, seeds, ids, c);
    case _ => MarginIssued(before, seeds, ids, c);
  }

  lemma {:induction false} IssuedStands(w: World, seeds: Seeds, ids: Identities, c: Campaign, n: nat)
    requires n <= 5 && w.reports == map[]
    ensures OnFile(Issued(w, seeds, ids, c, n), ids, c, n) && Standing(Issued(w, seeds, ids, c, n), seeds, ids, c, n)
  {
    if n == 0 {
      NothingStands(w, seeds, ids, c);
    } else {
      IssuedStands(w, seeds, ids, c, n - 1);
      NextStands(Issued(w, seeds, ids, c, n - 1), seeds, ids, c, n);
    }
  }

  lemma NothingStands(w: World, seeds: Seeds, ids: Identities, c: Campaign)
    requires w.reports == map[]
    ensures OnFile(w, ids, c, 0) && Standing(w, seeds, ids, c, 0)
  {}

  /** On a lawful disk a collection has an identity exactly when it is settled. */
  lemma IdentityExact(seeds: Seeds, fs: Image, split: Split)
    requires Lawful(ScheduleOf(seeds), fs)
    ensures CollectionIdentity(seeds, fs, split).Some? <==> Pristine(ScheduleOf(seeds), fs, split)
  {
    CompleteAccepts(ScheduleOf(seeds), fs, split);
    if Pristine(ScheduleOf(seeds), fs, split) {
      forall seed <- seeds(split) ensures PristinePair(fs, split, seed) { assert seed in ScheduleOf(seeds)(split); }
      FilesExist(fs, split, seeds(split));
    }
  }

  lemma {:induction false} FilesExist(fs: Image, split: Split, seeds: seq<nat>)
    requires forall seed <- seeds :: PristinePair(fs, split, seed)
    ensures FilesOf(fs, split, seeds).Some?
  {
    if seeds != [] {
      assert PristinePair(fs, split, seeds[0]);
      SoleLinks(fs, Final(Target(split, seeds[0], Kind.Episode)));
      SoleLinks(fs, Final(Target(split, seeds[0], Kind.Queries)));
      FilesExist(fs, split, seeds[1..]);
    }
  }

  /** The files of a collection, for any image: there are any exactly when every artifact
      is at rest under its one name, and then they are all of them with their digests,
      in seed order. */
  lemma {:induction false} FilesExact(fs: Image, split: Split, seeds: seq<nat>)
    ensures FilesOf(fs, split, seeds).Some? <==>
      forall seed <- seeds, kind: Kind :: Sole(fs, Final(Target(split, seed, kind)))
    ensures FilesOf(fs, split, seeds).Some? ==>
      var files := FilesOf(fs, split, seeds).value;
      && |files| == 2 * |seeds|
      && forall i :: 0 <= i < |seeds| ==>
           var e, q := Target(split, seeds[i], Kind.Episode), Target(split, seeds[i], Kind.Queries);
           && Final(e) in fs.names && files[2 * i] == (e, Sha256(Contents(fs, Final(e))))
           && Final(q) in fs.names && files[2 * i + 1] == (q, Sha256(Contents(fs, Final(q))))
  {
    if seeds != [] {
      FilesExact(fs, split, seeds[1..]);
      BothSole(fs, split, seeds[0]);
      assert seeds == [seeds[0]] + seeds[1..];
    }
  }

  lemma BothSole(fs: Image, split: Split, seed: nat)
    ensures (forall kind: Kind :: Sole(fs, Final(Target(split, seed, kind)))) <==>
      var e, q := Final(Target(split, seed, Kind.Episode)), Final(Target(split, seed, Kind.Queries));
      e in fs.names && Nlink(fs, e) == 1 && q in fs.names && Nlink(fs, q) == 1
  {
    var e, q := Final(Target(split, seed, Kind.Episode)), Final(Target(split, seed, Kind.Queries));
    if e in fs.names { SoleLinks(fs, e); }
    if q in fs.names { SoleLinks(fs, q); }
    if Sole(fs, e) && Sole(fs, q) {
      forall kind: Kind ensures Sole(fs, Final(Target(split, seed, kind))) {
        if kind == Kind.Episode {}
      }
    }
  }

  ghost predicate EarlierSettled(seeds: Seeds, fs: Image, split: Split) {
    forall earlier: Split :: Order(earlier) < Order(split) ==> Pristine(ScheduleOf(seeds), fs, earlier)
  }

  lemma IssuedDisk(w: World, seeds: Seeds, ids: Identities, c: Campaign, n: nat)
    requires n <= 5
    ensures Issued(w, seeds, ids, c, n).disk == w.disk
  {}

  lemma EarlierIs(seeds: Seeds, fs: Image, split: Split)
    ensures EarlierSettled(seeds, fs, split) <==>
      match split
      case TrainBoard => true
      case SupportBoard => Pristine(ScheduleOf(seeds), fs, TrainBoard)
      case MarginBoard =>
        Pristine(ScheduleOf(seeds), fs, TrainBoard) && Pristine(ScheduleOf(seeds), fs, SupportBoard)
      case OfflineBoard =>
        && Pristine(ScheduleOf(seeds), fs, TrainBoard) && Pristine(ScheduleOf(seeds), fs, SupportBoard)
        && Pristine(ScheduleOf(seeds), fs, MarginBoard)
  {
    assert Order(TrainBoard) == 0 && Order(SupportBoard) == 1 && Order(MarginBoard) == 2 && Order(OfflineBoard) == 3;
  }

  /** The last stage of a split is GO. */
  predicate GoFor(ids: Identities, c: Campaign, split: Split) {
    match split
    case TrainBoard => true
    case SupportBoard => PilotGo(ids, c)
    case MarginBoard => SupportGo(ids, c)
    case OfflineBoard => MarginGo(ids, c)
  }

  lemma StandingGrants(w: World, seeds: Seeds, ids: Identities, c: Campaign, n: nat, split: Split)
    requires Standing(w, seeds, ids, c, n)
    ensures Granted(w, seeds, ids, split) <==> Rank(LastStage(split)) < n && GoFor(ids, c, split)
  {}

  lemma GoExact(seeds: Seeds, disk: Image, c: Campaign, split: Split)
    requires Lawful(ScheduleOf(seeds), disk)
    ensures GoFor(IdentitiesOf(seeds, disk), c, split) <==> Numeric(c, split) && EarlierSettled(seeds, disk, split)
  {
    FitExact(c);
    EarlierIs(seeds, disk, split);
    IdentityExact(seeds, disk, TrainBoard);
    IdentityExact(seeds, disk, SupportBoard);
    IdentityExact(seeds, disk, MarginBoard);
  }

  /** The chain opens in order and on its numbers: from a world without reports, after
      the first `n` commands a split is authorised exactly when its last stage is among
      them, its numeric condition holds, and every earlier collection is settled. */
  lemma ChainOpens(w: World, seeds: Seeds, c: Campaign, n: nat, split: Split)
    requires n <= 5 && w.reports == map[] && Lawful(ScheduleOf(seeds), w.disk)
    ensures Authorized(Issued(w, seeds, IdentitiesOf(seeds, w.disk), c, n), seeds, split) <==>
      Rank(LastStage(split)) < n && Numeric(c, split) && EarlierSettled(seeds, w.disk, split)
  {
    var ids := IdentitiesOf(seeds, w.disk);
    var after := Issued(w, seeds, ids, c, n);
    IssuedStands(w, seeds, ids, c, n);
    IssuedDisk(w, seeds, ids, c, n);
    StandingGrants(after, seeds, ids, c, n, split);
    GoExact(seeds, w.disk, c, split);
    assert Authorized(after, seeds, split) <==> Granted(after, seeds, ids, split);
  }

  /** In any world, authority over the last two splits means these numbers: an AUROC of
      at least three quarters and the threshold of the first grid point that passes. */
  lemma AuthorityMeans(w: World, seeds: Seeds, split: Split)
    requires (split == MarginBoard || split == OfflineBoard) && Authorized(w, seeds, split)
    ensures Support in w.reports
    ensures exists a: real, grid: seq<Point>, i: nat :: CalibratedAt(w.reports[Support], a, grid, i)
  {
    AuthorizedStands(w, seeds, split, Support);
  }

  /** And over the last one, that `q` is a number and was computed with that calibration. */
  lemma OfflineMeans(w: World, seeds: Seeds)
    requires Authorized(w, seeds, OfflineBoard)
    ensures Margin in w.reports && w.reports[Margin].target == "absolute_b2" && Support in w.reports
    ensures exists q: real ::
      w.reports[Margin].selective == Some(Selective(Some(q), Mapped(w.reports[Support].support, s => OfSupport(s))))
  {
    AuthorizedStands(w, seeds, OfflineBoard, Margin);
  }

  lemma AuthorizedStands(w: World, seeds: Seeds, split: Split, stage: Stage)
    requires Authorized(w, seeds, split) && Rank(stage) <= Rank(LastStage(split))
    ensures StageStands(w, seeds, IdentitiesOf(seeds, w.disk), stage)
  {
    AuthorizedExact(w, seeds, split);
  }
}
