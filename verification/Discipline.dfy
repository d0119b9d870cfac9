/** Runs of the whole campaign: commands that issue reports and collectors that may
    crash, in any order. */
module Discipline {
  import opened Images
  import opened Options
  import opened Law
  import opened Recovery
  import opened Safety
  import opened Histories
  import opened Locality
  import opened Validators
  import opened Authority
  import opened Issuance

  /** A command, with what its computation turns out to be, or one invocation of the
      collector, cut anywhere. */
  datatype Move = Command(stage: Stage, outcome: Campaign) | Collecting(boot: Boot)

  /** A report is written once. */
  ghost function Issue(w: World, seeds: Seeds, stage: Stage, c: Campaign): World {
    var ids := IdentitiesOf(seeds, w.disk);
    if stage in w.reports then w
    else
      match stage
      case Preflight => IssuePreflight(w, seeds)
      case Pilot => IssuePilot(w, ids, c)
      case Training => IssueTraining(w, ids, c)
      case Support => IssueSupport(w, ids, c)
      case Margin => IssueMargin(w, ids, c)
  }

  ghost function Moved(w: World, seeds: Seeds, m: Move): World {
    match m
    case Command(stage, c) => Issue(w, seeds, stage, c)
    case Collecting(b) => w.(disk := AfterAuthorized(w, seeds, b))
  }

  ghost function Run(w: World, seeds: Seeds, moves: seq<Move>): World
    decreases |moves|
  {
    if moves == [] then w else Run(Moved(w, seeds, moves[0]), seeds, moves[1..])
  }

  ghost predicate Fair(schedule: Schedule, moves: seq<Move>) {
    forall m <- moves :: m.Collecting? ==> Genuine(schedule, m.boot)
  }

  /** A split has been collected from, or begun to be. */
  ghost predicate Begun(fs: Image, split: Split) {
    exists n <- fs.names :: DirOf(n).split == split
  }

  /** Nothing on file is changed. */
  ghost predicate Extends(w: World, next: World) {
    && next.source == w.source && next.disk == w.disk
    && (forall s <- w.reports :: s in next.reports && next.reports[s] == w.reports[s])
    && (forall s <- w.receipts :: s in w.reports ==> s in next.receipts && next.receipts[s] == w.receipts[s])
    && (Preflight in w.reports ==> next.manifests == w.manifests)
    && (Training in w.reports ==> next.checkpoint == w.checkpoint)
  }

  lemma WrittenExtends(w: World, stage: Stage, report: Report)
    requires stage !in w.reports
    ensures Extends(w, Written(w, stage, report))
  {}

  lemma IssueExtends(w: World, seeds: Seeds, stage: Stage, c: Campaign)
    ensures Extends(w, Issue(w, seeds, stage, c))
  {
    var next := Issue(w, seeds, stage, c);
    if next != w { IssueIsWritten(w, seeds, stage, c); }
  }

  /** A command writes one report that was missing, and touches nothing that an
      authority may rest on. */
  lemma IssueIsWritten(w: World, seeds: Seeds, stage: Stage, c: Campaign)
    requires Issue(w, seeds, stage, c) != w
    ensures stage !in w.reports && stage in Issue(w, seeds, stage, c).reports
    ensures Extends(w, Issue(w, seeds, stage, c))
  {
    var next := Issue(w, seeds, stage, c);
    var report := next.reports[stage];
    match stage
    case Preflight =>
      WrittenExtends(w, stage, report);
    case Pilot => WrittenExtends(w, stage, report);
    case Training => WrittenExtends(w, stage, report);
    case Support => WrittenExtends(w, stage, report);
    case Margin => WrittenExtends(w, stage, report);
  }

  lemma StillStands(w: World, next: World, seeds: Seeds, ids: Identities, stage: Stage)
    requires Extends(w, next)
    requires forall s: Stage :: Rank(s) <= Rank(stage) ==> StageStands(w, seeds, ids, s)
    ensures StageStands(next, seeds, ids, stage)
  {
    assert StageStands(w, seeds, ids, stage);
    assert Rank(Preflight) == 0 && StageStands(w, seeds, ids, Preflight);
    match stage
    case Preflight =>
    case Pilot =>
    case Training =>
    case Support => assert Rank(Training) == 2 && StageStands(w, seeds, ids, Training);
    case Margin =>
      assert Rank(Training) == 2 && StageStands(w, seeds, ids, Training);
      assert Rank(Support) == 3 && StageStands(w, seeds, ids, Support);
  }

  /** A command leaves what is granted: it adds one report that was missing. */
  lemma IssueKeeps(w: World, seeds: Seeds, stage: Stage, c: Campaign, split: Split)
    requires Authorized(w, seeds, split)
    ensures Authorized(Issue(w, seeds, stage, c), seeds, split)
  {
    var next := Issue(w, seeds, stage, c);
    IssueExtends(w, seeds, stage, c);
    ExtendsKeeps(w, next, seeds, split);
  }

  lemma ExtendsKeeps(w: World, next: World, seeds: Seeds, split: Split)
    requires Extends(w, next) && Authorized(w, seeds, split)
    ensures Authorized(next, seeds, split)
  {
    AuthorizedExact(w, seeds, split);
    AuthorizedExact(next, seeds, split);
    forall s: Stage | Rank(s) <= Rank(LastStage(split))
        ensures StageStands(next, seeds, IdentitiesOf(seeds, next.disk), s) {
      StillStands(w, next, seeds, IdentitiesOf(seeds, w.disk), s);
    }
  }

  /** The disk is lawful, and only authorised splits have been begun. */
  ghost predicate Disciplined(w: World, seeds: Seeds) {
    && Lawful(ScheduleOf(seeds), w.disk)
    && forall split: Split :: Begun(w.disk, split) ==> Authorized(w, seeds, split)
  }

  lemma CollectingKeeps(w: World, seeds: Seeds, b: Boot, split: Split)
    requires Lawful(ScheduleOf(seeds), w.disk) && Genuine(ScheduleOf(seeds), b)
    ensures var next := w.(disk := AfterAuthorized(w, seeds, b));
      Lawful(ScheduleOf(seeds), next.disk) && (Authorized(w, seeds, split) ==> Authorized(next, seeds, split))
  {
    if Authorized(w, seeds, b.session.split) {
      AuthorizationCuts(w, seeds, b);
      AfterAdvances(ScheduleOf(seeds), w.disk, b);
      if Authorized(w, seeds, split) { AuthorityKept(w, seeds, b, split); }
    }
  }

  lemma MovedKeeps(w: World, seeds: Seeds, m: Move, split: Split)
    requires Lawful(ScheduleOf(seeds), w.disk) && (m.Collecting? ==> Genuine(ScheduleOf(seeds), m.boot))
    ensures Lawful(ScheduleOf(seeds), Moved(w, seeds, m).disk)
    ensures Authorized(w, seeds, split) ==> Authorized(Moved(w, seeds, m), seeds, split)
  {
    match m
    case Command(stage, c) =>
      IssueExtends(w, seeds, stage, c);
      if Authorized(w, seeds, split) { IssueKeeps(w, seeds, stage, c, split); }
    case Collecting(b) => CollectingKeeps(w, seeds, b, split);
  }

  lemma BegunBefore(w: World, seeds: Seeds, m: Move, split: Split)
    requires Begun(Moved(w, seeds, m).disk, split)
    ensures Begun(w.disk, split) || Authorized(w, seeds, split)
  {
    match m
    case Command(stage, c) => IssueExtends(w, seeds, stage, c);
    case Collecting(b) =>
      AuthorizationCuts(w, seeds, b);
      if Authorized(w, seeds, b.session.split) && b.session.split != split {
        OtherSplitFrozen(ScheduleOf(seeds), w.disk, b, split);
      }
  }

  lemma MovedDisciplined(w: World, seeds: Seeds, m: Move, split: Split)
    requires Disciplined(w, seeds) && (m.Collecting? ==> Genuine(ScheduleOf(seeds), m.boot))
    ensures Disciplined(Moved(w, seeds, m), seeds)
    ensures Authorized(w, seeds, split) ==> Authorized(Moved(w, seeds, m), seeds, split)
  {
    var next := Moved(w, seeds, m);
    MovedKeeps(w, seeds, m, split);
    forall s: Split | Begun(next.disk, s) ensures Authorized(next, seeds, s) {
      MovedKeeps(w, seeds, m, s);
      BegunBefore(w, seeds, m, s);
    }
  }

  lemma {:induction false} RunKeeps(w: World, seeds: Seeds, moves: seq<Move>, split: Split)
    requires Disciplined(w, seeds) && Fair(ScheduleOf(seeds), moves)
    ensures Disciplined(Run(w, seeds, moves), seeds)
    ensures Authorized(w, seeds, split) ==> Authorized(Run(w, seeds, moves), seeds, split)
    decreases |moves|
  {
    if moves != [] {
      MovedDisciplined(w, seeds, moves[0], split);
      RunKeeps(Moved(w, seeds, moves[0]), seeds, moves[1..], split);
    }
  }

  /** The command of a stage was run, with an outcome that lets the next stage begin. */
  ghost predicate Passed(m: Move, stage: Stage) {
    && m.Command? && m.stage == stage
    && match stage
       case Pilot => PilotAt(m.outcome)
       case Support => exists i: nat :: GoAt(m.outcome, i)
       case Margin => m.outcome.q.Some?
       case _ => true
  }

  ghost predicate Backed(w: World, past: seq<Move>) {
    forall stage: Stage :: stage in w.reports && Opening(w.reports[stage], stage) ==>
      exists m <- past :: Passed(m, stage)
  }

  /** A report that lets the next stage begin. */
  predicate Opening(report: Report, stage: Stage) {
    stage == Preflight || stage == Training || report.passed
  }

  lemma IssuePassed(w: World, seeds: Seeds, stage: Stage, c: Campaign)
    requires stage !in w.reports
    ensures var next := Issue(w, seeds, stage, c);
      && (forall s <- next.reports :: s in w.reports || s == stage)
      && (stage in next.reports && Opening(next.reports[stage], stage) ==>
            Passed(Command(stage, c), stage))
  {
    FitExact(c);
    match stage
    case Preflight =>
    case Pilot =>
    case Training =>
    case Support =>
    case Margin =>
  }

  lemma MovedBacked(w: World, seeds: Seeds, past: seq<Move>, m: Move)
    requires Backed(w, past)
    ensures Backed(Moved(w, seeds, m), past + [m])
  {
    var next := Moved(w, seeds, m);
    assert m in past + [m];
    if m.Command? {
      IssueExtends(w, seeds, m.stage, m.outcome);
      if m.stage !in w.reports { IssuePassed(w, seeds, m.stage, m.outcome); }
    }
    forall stage: Stage | stage in next.reports && Opening(next.reports[stage], stage)
      ensures exists n <- past + [m] :: Passed(n, stage)
    {
      if stage in w.reports {
        var n :| n in past && Passed(n, stage);
        assert n in past + [m];
      } else {
        assert Passed(m, stage);
      }
    }
  }

  lemma {:induction false} RunBacked(w: World, seeds: Seeds, past: seq<Move>, moves: seq<Move>)
    requires Backed(w, past)
    ensures Backed(Run(w, seeds, moves), past + moves)
    decreases |moves|
  {
    if moves == [] {
      assert past + moves == past;
    } else {
      MovedBacked(w, seeds, past, moves[0]);
      RunBacked(Moved(w, seeds, moves[0]), seeds, past + [moves[0]], moves[1..]);
      assert past + [moves[0]] + moves[1..] == past + moves;
    }
  }

  lemma StageBacked(w: World, seeds: Seeds, past: seq<Move>, split: Split, stage: Stage)
    requires Backed(w, past) && Authorized(w, seeds, split) && Rank(stage) <= Rank(LastStage(split))
    ensures exists m <- past :: Passed(m, stage)
  {
    AuthorizedStands(w, seeds, split, stage);
  }

  /** Nothing of a split is ever collected before its turn: whatever commands are run
      and wherever collectors crash, once anything of a split is on disk every earlier
      collection is settled and every earlier stage was run and passed on its numbers. */
  lemma StagedDiscipline(w: World, seeds: Seeds, moves: seq<Move>, split: Split, stage: Stage)
    requires w.disk == EmptyImage && w.reports == map[] && Fair(ScheduleOf(seeds), moves)
    requires Begun(Run(w, seeds, moves).disk, split) && Rank(stage) <= Rank(LastStage(split))
    ensures EarlierSettled(seeds, Run(w, seeds, moves).disk, split)
    ensures exists m <- moves :: Passed(m, stage)
  {
    var end := Run(w, seeds, moves);
    AuthorizedBegun(w, seeds, moves, split);
    RunBacked(w, seeds, [], moves);
    assert [] + moves == moves;
    StageBacked(end, seeds, moves, split, stage);
    AuthorizedSettled(end, seeds, split);
  }

  lemma AuthorizedBegun(w: World, seeds: Seeds, moves: seq<Move>, split: Split)
    requires w.disk == EmptyImage && Fair(ScheduleOf(seeds), moves) && Begun(Run(w, seeds, moves).disk, split)
    ensures Lawful(ScheduleOf(seeds), Run(w, seeds, moves).disk) && Authorized(Run(w, seeds, moves), seeds, split)
  {
    assert Lawful(ScheduleOf(seeds), w.disk);
    RunKeeps(w, seeds, moves, split);
  }

  lemma AuthorizedSettled(w: World, seeds: Seeds, split: Split)
    requires Lawful(ScheduleOf(seeds), w.disk) && Authorized(w, seeds, split)
    ensures EarlierSettled(seeds, w.disk, split)
  {
    forall earlier: Split | Order(earlier) < Order(split) ensures Pristine(ScheduleOf(seeds), w.disk, earlier) {
      AuthorityIsPrefix(w, seeds, earlier, split);
    }
  }

  lemma CollectingFreezes(w: World, seeds: Seeds, b: Boot, earlier: Split)
    requires Lawful(ScheduleOf(seeds), w.disk) && Pristine(ScheduleOf(seeds), w.disk, earlier)
    requires Genuine(ScheduleOf(seeds), b)
    ensures Frozen(w.disk, AfterAuthorized(w, seeds, b), earlier)
  {
    AuthorizationCuts(w, seeds, b);
    if Authorized(w, seeds, b.session.split) { PristineKept(ScheduleOf(seeds), w.disk, b, earlier); }
  }

  lemma MovedFreezes(w: World, seeds: Seeds, m: Move, earlier: Split)
    requires Lawful(ScheduleOf(seeds), w.disk) && Pristine(ScheduleOf(seeds), w.disk, earlier)
    requires m.Collecting? ==> Genuine(ScheduleOf(seeds), m.boot)
    ensures Frozen(w.disk, Moved(w, seeds, m).disk, earlier)
  {
    match m
    case Command(stage, c) => IssueExtends(w, seeds, stage, c);
    case Collecting(b) => CollectingFreezes(w, seeds, b, earlier);
  }

  lemma StepFreezes(w: World, seeds: Seeds, m: Move, earlier: Split, later: Split)
    requires Disciplined(w, seeds) && (m.Collecting? ==> Genuine(ScheduleOf(seeds), m.boot))
    requires Order(earlier) < Order(later) && Authorized(w, seeds, later)
    ensures Frozen(w.disk, Moved(w, seeds, m).disk, earlier)
    ensures Disciplined(Moved(w, seeds, m), seeds) && Authorized(Moved(w, seeds, m), seeds, later)
  {
    MovedDisciplined(w, seeds, m, later);
    AuthorityIsPrefix(w, seeds, earlier, later);
    MovedFreezes(w, seeds, m, earlier);
  }

  /** Once a split is authorised, the collections before it never change again. */
  lemma {:induction false} EarlierFrozen(w: World, seeds: Seeds, moves: seq<Move>, earlier: Split, later: Split)
    requires Disciplined(w, seeds) && Fair(ScheduleOf(seeds), moves)
    requires Order(earlier) < Order(later) && Authorized(w, seeds, later)
    ensures Frozen(w.disk, Run(w, seeds, moves).disk, earlier)
    decreases |moves|
  {
    if moves != [] {
      var next := Moved(w, seeds, moves[0]);
      StepFreezes(w, seeds, moves[0], earlier, later);
      EarlierFrozen(next, seeds, moves[1..], earlier, later);
      FrozenOn(w.disk, next.disk, Run(next, seeds, moves[1..]).disk, earlier);
    }
  }
}
