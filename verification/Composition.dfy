/** Reserve-band evaluation curves, and four one-mode slices merged into one report. */
module Composition {
  import opened Options
  import opened Records
  import opened Statistics

  datatype Mode = BaseV5 | ScoreFirst | PureGauge | ReserveBand

  const MODES: set<Mode> := {BaseV5, ScoreFirst, PureGauge, ReserveBand}

  /** The aggregate fields that the gates read. */
  datatype Aggregate = Aggregate(scoreMedian: real, survivalP10: real, gaugeFailures: int)

  datatype Curve = Curve(episodes: seq<Record>, aggregate: Aggregate, counts: map<string, int>)

  /** One deterministic episode: what `_run_episode` returns and the policy's own
      statistics afterwards. */
  type Play = (Mode, nat, nat) -> (Episode, map<string, int>)

  function CountOf(counts: map<string, int>, name: string): int {
    if name in counts then counts[name] else 0
  }

  /** `Counter.update` */
  function AddCounts(a: map<string, int>, b: map<string, int>): map<string, int> {
    map name <- a.Keys + b.Keys :: CountOf(a, name) + CountOf(b, name)
  }

  function Scores(es: seq<Episode>): (r: seq<int>)
    ensures |r| == |es|
  {
    seq(|es|, i requires 0 <= i < |es| => es[i].conversion.finalScore)
  }

  function Survivals(es: seq<Episode>): (r: seq<int>)
    ensures |r| == |es|
  {
    seq(|es|, i requires 0 <= i < |es| => es[i].conversion.survivalTicks)
  }

  function FailureCount(records: seq<Record>): nat {
    if records == [] then 0
    else
      var last := records[|records| - 1];
      FailureCount(records[..|records| - 1])
        + if GaugeFailure in last && last[GaugeFailure] == Bool(true) then 1 else 0
  }

  function TotalCounts(records: seq<Record>): map<string, int> {
    if records == [] then map[]
    else
      var last := records[|records| - 1];
      AddCounts(TotalCounts(records[..|records| - 1]),
                if PolicyCounts in last && last[PolicyCounts].Counts? then last[PolicyCounts].n else map[])
  }

  function AggregateOf(es: seq<Episode>, records: seq<Record>): Aggregate
    requires es != []
  {
    Aggregate(Percentile(Scores(es), 0.5), Percentile(Survivals(es), 0.1), FailureCount(records))
  }

  function Played(play: Play, mode: Mode, seeds: seq<nat>, horizon: nat): (r: seq<Episode>)
    ensures |r| == |seeds|
  {
    seq(|seeds|, i requires 0 <= i < |seeds| => play(mode, seeds[i], horizon).0)
  }

  function Written(play: Play, mode: Mode, seeds: seq<nat>, horizon: nat): (r: seq<Record>)
    ensures |r| == |seeds|
  {
    seq(|seeds|, i requires 0 <= i < |seeds| =>
      var (e, counts) := play(mode, seeds[i], horizon); Write(e, counts))
  }

  function CurveOf(play: Play, mode: Mode, seeds: seq<nat>, horizon: nat): Curve
    requires seeds != []
  {
    var records := Written(play, mode, seeds, horizon);
    Curve(records, AggregateOf(Played(play, mode, seeds, horizon), records), TotalCounts(records))
  }

  /** `_evaluate`: the records, the running counts and the failures of one mode. */
  method Evaluate(play: Play, mode: Mode, seeds: seq<nat>, horizon: nat) returns (curve: Curve)
    requires seeds != []
    ensures curve == CurveOf(play, mode, seeds, horizon)
  {
    var episodes: seq<Episode> := [];
    var records: seq<Record> := [];
    var counts: map<string, int> := map[];
    var failures := 0;
    for i := 0 to |seeds|
      invariant episodes == Played(play, mode, seeds, horizon)[..i]
      invariant records == Written(play, mode, seeds, horizon)[..i]
      invariant counts == TotalCounts(records) && failures == FailureCount(records)
    {
      var (episode, statistics) := play(mode, seeds[i], horizon);
      var record := Write(episode, statistics);
      episodes := episodes + [episode];
      counts := AddCounts(counts, statistics);
      failures := failures + if episode.conversion.terminated then 1 else 0;
      assert record[PolicyCounts] == Counts(statistics) && record[GaugeFailure] == Bool(episode.conversion.terminated);
      assert (records + [record])[..|records|] == records;
      records := records + [record];
    }
    curve := Curve(records,
        Aggregate(Percentile(Scores(episodes), 0.5), Percentile(Survivals(episodes), 0.1), failures), counts);
    assert episodes == Played(play, mode, seeds, horizon) && records == Written(play, mode, seeds, horizon);
  }

  /* _recompute_curve */

  function ReadAll(records: seq<Record>): Option<seq<Episode>> {
    if records == [] then Some([])
    else
      match ReadAll(records[..|records| - 1])
      case None => None
      case Some(es) =>
        match Read(records[|records| - 1])
        case None => None
        case Some(e) => Some(es + [e])
  }

  predicate Censored(e: Episode, horizon: nat) {
    && e.conversion.survivalTicks <= horizon
    && (e.conversion.truncated ==> e.conversion.survivalTicks == horizon)
  }

  /** The rows are in the exact seed order. */
  predicate SeedsMatch(records: seq<Record>, seeds: seq<nat>) {
    && |records| == |seeds|
    && forall i :: 0 <= i < |seeds| ==> Seed in records[i] && records[i][Seed] == Int(seeds[i])
  }

  predicate Recomputes(curve: Curve, seeds: seq<nat>, horizon: nat) {
    && curve.episodes != []
    && SeedsMatch(curve.episodes, seeds)
    && ReadAll(curve.episodes).Some?
    && (forall e <- ReadAll(curve.episodes).value :: Censored(e, horizon))
    && ReadAll(curve.episodes).value != []
    && curve.aggregate == AggregateOf(ReadAll(curve.episodes).value, curve.episodes)
    && curve.counts == TotalCounts(curve.episodes)
  }

  /** The episodes a report may hold. */
  ghost predicate Reportable(play: Play, mode: Mode, seeds: seq<nat>, horizon: nat) {
    forall i :: 0 <= i < |seeds| ==>
      var (e, counts) := play(mode, seeds[i], horizon);
      && InRange(e, counts) && e.conversion.survivalTicks <= horizon
      && (e.conversion.truncated ==> e.conversion.survivalTicks == horizon)
  }

  /** Episodes carry the seed they were played with. */
  ghost predicate SeedsKept(play: Play) {
    forall mode, seed, horizon :: play(mode, seed, horizon).0.seed == seed
  }

  ghost predicate AllInRange(play: Play, mode: Mode, seeds: seq<nat>, horizon: nat) {
    forall i :: 0 <= i < |seeds| ==> InRange(play(mode, seeds[i], horizon).0, play(mode, seeds[i], horizon).1)
  }

  lemma AllInRangeLast(play: Play, mode: Mode, most: seq<nat>, last: nat, horizon: nat)
    ensures AllInRange(play, mode, most + [last], horizon) <==>
      AllInRange(play, mode, most, horizon) && InRange(play(mode, last, horizon).0, play(mode, last, horizon).1)
  {
    var seeds := most + [last];
    assert forall i :: 0 <= i < |most| ==> seeds[i] == most[i];
    assert seeds[|most|] == last;
  }

  lemma ReadAllLast(most: seq<Record>, last: Record)
    ensures ReadAll(most + [last]) ==
      if ReadAll(most).Some? && Read(last).Some? then Some(ReadAll(most).value + [Read(last).value]) else None
  {
    assert (most + [last])[..|most|] == most;
  }

  /** Every row of a curve reads back exactly when every episode is in range, and
      then to the episodes that were played. */
  lemma {:induction false} ReadAllWritten(play: Play, mode: Mode, seeds: seq<nat>, horizon: nat)
    ensures ReadAll(Written(play, mode, seeds, horizon)).Some? <==> AllInRange(play, mode, seeds, horizon)
    ensures ReadAll(Written(play, mode, seeds, horizon)).Some? ==>
      ReadAll(Written(play, mode, seeds, horizon)).value == Played(play, mode, seeds, horizon)
  {
    if seeds != [] {
      var most, last := seeds[..|seeds| - 1], seeds[|seeds| - 1];
      assert seeds == most + [last];
      var (e, counts) := play(mode, last, horizon);
      ReadAllWritten(play, mode, most, horizon);
      AllInRangeLast(play, mode, most, last, horizon);
      assert Written(play, mode, seeds, horizon) == Written(play, mode, most, horizon) + [Write(e, counts)];
      assert Played(play, mode, seeds, horizon) == Played(play, mode, most, horizon) + [e];
      ReadAllLast(Written(play, mode, most, horizon), Write(e, counts));
      ReadWrite(e, counts);
    }
  }

  lemma WrittenSeeds(play: Play, mode: Mode, seeds: seq<nat>, horizon: nat)
    requires SeedsKept(play)
    ensures SeedsMatch(Written(play, mode, seeds, horizon), seeds)
  {
    var records := Written(play, mode, seeds, horizon);
    forall i | 0 <= i < |seeds| ensures Seed in records[i] && records[i][Seed] == Int(seeds[i]) {
      var (e, counts) := play(mode, seeds[i], horizon);
      assert records[i] == Write(e, counts) && e.seed == seeds[i];
      assert records[i][Seed] == FieldOf(e, counts, Seed);
    }
  }

  ghost predicate AllCensored(play: Play, mode: Mode, seeds: seq<nat>, horizon: nat) {
    forall i :: 0 <= i < |seeds| ==> Censored(play(mode, seeds[i], horizon).0, horizon)
  }

  lemma ReportableSplits(play: Play, mode: Mode, seeds: seq<nat>, horizon: nat)
    ensures Reportable(play, mode, seeds, horizon) <==>
      AllInRange(play, mode, seeds, horizon) && AllCensored(play, mode, seeds, horizon)
  {}

  lemma PlayedCensored(play: Play, mode: Mode, seeds: seq<nat>, horizon: nat)
    ensures (forall e <- Played(play, mode, seeds, horizon) :: Censored(e, horizon)) <==>
      AllCensored(play, mode, seeds, horizon)
  {
    var es := Played(play, mode, seeds, horizon);
    forall i | 0 <= i < |seeds| ensures es[i] in es && es[i] == play(mode, seeds[i], horizon).0 {}
  }

  /** The recomputation of a curve whose rows all read back. */
  lemma RecomputesRead(records: seq<Record>, es: seq<Episode>, seeds: seq<nat>, horizon: nat)
    requires records != [] && ReadAll(records) == Some(es) && es != [] && SeedsMatch(records, seeds)
    ensures Recomputes(Curve(records, AggregateOf(es, records), TotalCounts(records)), seeds, horizon) <==>
      forall e <- es :: Censored(e, horizon)
  {}

  /** Every curve `_evaluate` emits recomputes, exactly when its episodes are
      reportable. */
  lemma EvaluatedRecomputes(play: Play, mode: Mode, seeds: seq<nat>, horizon: nat)
    requires seeds != [] && SeedsKept(play)
    ensures Recomputes(CurveOf(play, mode, seeds, horizon), seeds, horizon) <==> Reportable(play, mode, seeds, horizon)
  {
    var records, es := Written(play, mode, seeds, horizon), Played(play, mode, seeds, horizon);
    ReadAllWritten(play, mode, seeds, horizon);
    WrittenSeeds(play, mode, seeds, horizon);
    ReportableSplits(play, mode, seeds, horizon);
    PlayedCensored(play, mode, seeds, horizon);
    if ReadAll(records).Some? { RecomputesRead(records, es, seeds, horizon); }
  }

  /* _paired and the gates */

  datatype Config = Config(minimumTickLoss: int, survivalRatio: real, extraFailures: int, p10Ratio: real)

  datatype PairRow = PairRow(
    candidate: Record, comparator: Record, scoreDelta: int, survivalDelta: int, newFailure: bool, collapse: bool)
  {
    predicate Catastrophe() { newFailure || collapse }
  }

  /** `{int(value["seed"]): value}`: the last record of a seed wins. */
  function BySeed(records: seq<Record>): map<int, Record> {
    if records == [] then map[]
    else
      var last := records[|records| - 1];
      var rest := BySeed(records[..|records| - 1]);
      if Seed in last && last[Seed].Int? then rest[last[Seed].i := last] else rest
  }

  function MetricAt(r: Record, m: Metric): int {
    if ConversionField in r && r[ConversionField].Conv? && m in r[ConversionField].c && r[ConversionField].c[m].Int?
    then r[ConversionField].c[m].i else 0
  }

  predicate FailedAt(r: Record) {
    GaugeFailure in r && r[GaugeFailure] == Bool(true)
  }

  function PairOf(left: Record, right: Record, config: Config): PairRow {
    var lost := MetricAt(right, SurvivalTicks) - MetricAt(left, SurvivalTicks);
    PairRow(left, right,
            MetricAt(left, FinalScore) - MetricAt(right, FinalScore), -lost,
            FailedAt(left) && !FailedAt(right),
            lost >= config.minimumTickLoss
              && MetricAt(left, SurvivalTicks) as real <= MetricAt(right, SurvivalTicks) as real * config.survivalRatio)
  }

  /** The paired rows by seed; suites over different seeds raise. */
  function Pairing(candidate: Curve, comparator: Curve, config: Config): Option<map<int, PairRow>> {
    var left, right := BySeed(candidate.episodes), BySeed(comparator.episodes);
    if left.Keys != right.Keys then None
    else Some(map seed <- left :: PairOf(left[seed], right[seed], config))
  }

  function CatastropheCount(rows: map<int, PairRow>): nat {
    |set seed <- rows | rows[seed].Catastrophe()|
  }

  type Curves = map<Mode, Curve>

  function Comparators(): set<Mode> { {BaseV5, ScoreFirst, PureGauge} }

  /** The pair loop of the joint run: whatever comparators are present. */
  function PairsOf(curves: Curves, config: Config): Option<map<Mode, map<int, PairRow>>> {
    if ReserveBand !in curves then Some(map[])
    else
      var present := Comparators() * curves.Keys;
      if exists m <- present :: Pairing(curves[ReserveBand], curves[m], config).None? then None
      else Some(map m <- present :: Pairing(curves[ReserveBand], curves[m], config).value)
  }

  datatype Gate = Gate(checks: seq<bool>) {
    predicate Passed() { false !in checks }
  }

  /** A gate that pairs suites over different seeds raises; one that misses a mode
      is not computed. */
  datatype GateOutcome = Raised | NoGate | Judged(gate: Gate)

  /** `_selection_gate`: it pairs the curves anew. */
  function SelectionGate(curves: Curves, config: Config): GateOutcome {
    if !({ScoreFirst, PureGauge, ReserveBand} <= curves.Keys) then NoGate
    else
      var byScore := Pairing(curves[ReserveBand], curves[ScoreFirst], config);
      var byGauge := Pairing(curves[ReserveBand], curves[PureGauge], config);
      if byScore.None? || byGauge.None? then Raised
      else
        var reserve, gauge, score := curves[ReserveBand].aggregate, curves[PureGauge].aggregate,
            curves[ScoreFirst].aggregate;
        Judged(Gate([
          reserve.scoreMedian > gauge.scoreMedian,
          reserve.gaugeFailures <= gauge.gaugeFailures + config.extraFailures,
          reserve.survivalP10 >= gauge.survivalP10 * config.p10Ratio,
          reserve.gaugeFailures <= score.gaugeFailures,
          CatastropheCount(byScore.value) == 0 && CatastropheCount(byGauge.value) == 0 ]))
  }

  datatype Report = Report(curves: Curves, pairs: map<Mode, map<int, PairRow>>, gate: Option<Gate>)

  function CurvesOf(play: Play, modes: set<Mode>, seeds: seq<nat>, horizon: nat): (curves: Curves)
    requires seeds != []
    ensures curves.Keys == modes
  {
    map mode <- modes :: CurveOf(play, mode, seeds, horizon)
  }

  /** A report, unless a pairing or a gate raised. */
  function Reported(curves: Curves, pairs: map<Mode, map<int, PairRow>>, outcome: GateOutcome): Option<Report> {
    match outcome
    case Raised => None
    case NoGate => Some(Report(curves, pairs, None))
    case Judged(gate) => Some(Report(curves, pairs, Some(gate)))
  }

  /** The joint run of the given modes at one horizon; None when a pairing raises. */
  function RunModes(play: Play, modes: set<Mode>, seeds: seq<nat>, horizon: nat, config: Config): Option<Report>
    requires seeds != []
  {
    var curves := CurvesOf(play, modes, seeds, horizon);
    match PairsOf(curves, config)
    case None => None
    case Some(pairs) => Reported(curves, pairs, SelectionGate(curves, config))
  }

  /** `_composed_gate`: the joint checks and safety against the base policy. */
  function ComposedGate(curves: Curves, config: Config): GateOutcome {
    match SelectionGate(curves, config)
    case Raised => Raised
    case NoGate => Raised
    case Judged(gate) =>
      if BaseV5 !in curves then Raised
      else
        match Pairing(curves[ReserveBand], curves[BaseV5], config)
        case None => Raised
        case Some(rows) => Judged(Gate(gate.checks + [CatastropheCount(rows) == 0]))
  }

  /** A slice is one mode's partition and nothing else. */
  predicate IsSlice(mode: Mode, slice: Report, seeds: seq<nat>, horizon: nat) {
    && slice.curves.Keys == {mode} && slice.pairs == map[] && slice.gate.None?
    && Recomputes(slice.curves[mode], seeds, horizon)
  }

  predicate AllSlices(slices: map<Mode, Report>, seeds: seq<nat>, horizon: nat) {
    slices.Keys == MODES && forall mode <- MODES :: IsSlice(mode, slices[mode], seeds, horizon)
  }

  function Merged(slices: map<Mode, Report>): Curves
    requires forall mode <- slices :: mode in slices[mode].curves
  {
    map mode <- slices :: slices[mode].curves[mode]
  }

  /** `_compose` at one horizon. */
  function Composed(slices: map<Mode, Report>, seeds: seq<nat>, horizon: nat, config: Config): Option<Report> {
    if !AllSlices(slices, seeds, horizon) then None
    else
      var curves := Merged(slices);
      match PairsOf(curves, config)
      case None => None
      case Some(pairs) => Reported(curves, pairs, ComposedGate(curves, config))
  }

  /** One mode run alone. */
  function Alone(mode: Mode, curve: Curve): Report {
    Report(map[mode := curve], map[], None)
  }

  lemma AloneRuns(play: Play, mode: Mode, seeds: seq<nat>, horizon: nat, config: Config)
    requires seeds != []
    ensures RunModes(play, {mode}, seeds, horizon, config) == Some(Alone(mode, CurveOf(play, mode, seeds, horizon)))
  {
    var curves := CurvesOf(play, {mode}, seeds, horizon);
    assert curves == map[mode := CurveOf(play, mode, seeds, horizon)];
    AlonePairs(curves, mode, config);
  }

  lemma AlonePairs(curves: Curves, mode: Mode, config: Config)
    requires curves.Keys == {mode}
    ensures PairsOf(curves, config) == Some(map[]) && SelectionGate(curves, config) == NoGate
  {
    assert ScoreFirst !in curves || PureGauge !in curves;
    if mode == ReserveBand { assert Comparators() * curves.Keys == {}; }
  }

  lemma {:induction false} BySeedKeys(records: seq<Record>, seeds: seq<nat>)
    requires SeedsMatch(records, seeds)
    ensures forall k :: k in BySeed(records) <==> exists i :: 0 <= i < |seeds| && seeds[i] == k
  {
    if seeds != [] {
      var n := |seeds| - 1;
      BySeedKeys(records[..n], seeds[..n]);
      forall k ensures k in BySeed(records) <==> exists i :: 0 <= i < |seeds| && seeds[i] == k {
        if i :| 0 <= i < n && seeds[i] == k { assert seeds[..n][i] == k; }
        if i :| 0 <= i < n && seeds[..n][i] == k { assert seeds[i] == k; }
        assert k == seeds[n] ==> k in BySeed(records);
      }
    }
  }

  lemma SameKeys(a: map<int, Record>, b: map<int, Record>)
    requires forall k :: k in a <==> k in b
    ensures a.Keys == b.Keys
  {
    assert forall k :: k in a.Keys <==> k in b.Keys;
  }

  lemma JointPairs(curves: Curves, seeds: seq<nat>, config: Config)
    requires curves.Keys == MODES && forall mode <- MODES :: SeedsMatch(curves[mode].episodes, seeds)
    ensures PairsOf(curves, config).Some? && PairsOf(curves, config).value.Keys == Comparators()
  {
    BySeedKeys(curves[ReserveBand].episodes, seeds);
    forall m <- Comparators() * curves.Keys ensures Pairing(curves[ReserveBand], curves[m], config).Some? {
      BySeedKeys(curves[m].episodes, seeds);
      SameKeys(BySeed(curves[ReserveBand].episodes), BySeed(curves[m].episodes));
    }
    assert Comparators() * curves.Keys == Comparators();
  }

  /** One mode run alone is an acceptable slice exactly when its episodes are
      reportable. */
  lemma AloneIsSlice(play: Play, mode: Mode, seeds: seq<nat>, horizon: nat, config: Config)
    requires seeds != [] && SeedsKept(play)
    ensures var curve := CurveOf(play, mode, seeds, horizon);
      && RunModes(play, {mode}, seeds, horizon, config) == Some(Alone(mode, curve))
      && (IsSlice(mode, Alone(mode, curve), seeds, horizon) <==> Reportable(play, mode, seeds, horizon))
  {
    AloneRuns(play, mode, seeds, horizon, config);
    EvaluatedRecomputes(play, mode, seeds, horizon);
  }

  lemma SlicesMerge(slices: map<Mode, Report>, curves: Curves)
    requires slices.Keys == curves.Keys
    requires forall mode <- slices :: slices[mode] == Alone(mode, curves[mode]) && mode in slices[mode].curves
    ensures Merged(slices) == curves
  {}

  /** Where the pairings exist both gates are judged, and the composed one is the joint
      one and no catastrophe against the base policy. */
  lemma GatesAgree(curves: Curves, config: Config)
    requires curves.Keys == MODES && PairsOf(curves, config).Some?
      && PairsOf(curves, config).value.Keys == Comparators()
    ensures SelectionGate(curves, config).Judged? && ComposedGate(curves, config).Judged?
    ensures ComposedGate(curves, config).gate.Passed() <==>
      SelectionGate(curves, config).gate.Passed() && CatastropheCount(PairsOf(curves, config).value[BaseV5]) == 0
  {
    assert Comparators() * curves.Keys == Comparators();
    forall m <- Comparators() ensures Pairing(curves[ReserveBand], curves[m], config).Some? {}
  }

  ghost predicate AllReportable(play: Play, seeds: seq<nat>, horizon: nat) {
    forall mode <- MODES :: Reportable(play, mode, seeds, horizon)
  }

  lemma SlicesCompose(
      play: Play, seeds: seq<nat>, horizon: nat, config: Config, slices: map<Mode, Report>, curves: Curves)
    requires seeds != [] && SeedsKept(play) && curves == CurvesOf(play, MODES, seeds, horizon)
    requires slices.Keys == MODES
    requires forall mode <- MODES :: RunModes(play, {mode}, seeds, horizon, config) == Some(slices[mode])
    ensures AllSlices(slices, seeds, horizon) <==> AllReportable(play, seeds, horizon)
    ensures AllSlices(slices, seeds, horizon) ==> Merged(slices) == curves
  {
    forall mode <- MODES
      ensures slices[mode] == Alone(mode, curves[mode])
      ensures IsSlice(mode, slices[mode], seeds, horizon) <==> Reportable(play, mode, seeds, horizon)
    {
      AloneIsSlice(play, mode, seeds, horizon, config);
    }
    SlicesMerge(slices, curves);
  }

  lemma JointCurves(play: Play, seeds: seq<nat>, horizon: nat, config: Config, curves: Curves)
    requires seeds != [] && SeedsKept(play) && curves == CurvesOf(play, MODES, seeds, horizon)
    ensures PairsOf(curves, config).Some? && PairsOf(curves, config).value.Keys == Comparators()
  {
    forall mode <- MODES ensures SeedsMatch(curves[mode].episodes, seeds) { WrittenSeeds(play, mode, seeds, horizon); }
    JointPairs(curves, seeds, config);
  }

  lemma JointIs(play: Play, seeds: seq<nat>, horizon: nat, config: Config, pairs: map<Mode, map<int, PairRow>>)
    requires seeds != [] && PairsOf(CurvesOf(play, MODES, seeds, horizon), config) == Some(pairs)
    ensures var curves := CurvesOf(play, MODES, seeds, horizon);
      RunModes(play, MODES, seeds, horizon, config) == Reported(curves, pairs, SelectionGate(curves, config))
  {}

  lemma MergedIs(slices: map<Mode, Report>, seeds: seq<nat>, horizon: nat, config: Config, pairs: map<Mode, map<int,
      PairRow>>)
    requires AllSlices(slices, seeds, horizon) && PairsOf(Merged(slices), config) == Some(pairs)
    ensures Composed(slices, seeds, horizon, config) ==
      Reported(Merged(slices), pairs, ComposedGate(Merged(slices), config))
  {}

  /** Both reports exist, with the same curves and pairings; the composed gate passes
      exactly when the joint gate does and no pair against the base policy is a
      catastrophe. */
  predicate Agree(joint: Option<Report>, merged: Option<Report>) {
    && joint.Some? && merged.Some?
    && merged.value.curves == joint.value.curves && merged.value.pairs == joint.value.pairs
    && joint.value.gate.Some? && merged.value.gate.Some? && BaseV5 in joint.value.pairs
    && (merged.value.gate.value.Passed() <==>
          joint.value.gate.value.Passed() && CatastropheCount(joint.value.pairs[BaseV5]) == 0)
  }

  lemma ReportsAgree(curves: Curves, pairs: map<Mode, map<int, PairRow>>, selection: Gate, composed: Gate)
    requires BaseV5 in pairs && (composed.Passed() <==> selection.Passed() && CatastropheCount(pairs[BaseV5]) == 0)
    ensures Agree(Reported(curves, pairs, Judged(selection)), Reported(curves, pairs, Judged(composed)))
  {}

  /** Four slices, each played alone, compose into the joint run exactly when every
      episode of every mode is reportable; otherwise nothing is composed. */
  lemma MergeAgrees(play: Play, seeds: seq<nat>, horizon: nat, config: Config, slices: map<Mode, Report>)
    requires seeds != [] && SeedsKept(play)
    requires slices.Keys == MODES
    requires forall mode <- MODES :: RunModes(play, {mode}, seeds, horizon, config) == Some(slices[mode])
    ensures if AllReportable(play, seeds, horizon)
            then Agree(RunModes(play, MODES, seeds, horizon, config), Composed(slices, seeds, horizon, config))
            else Composed(slices, seeds, horizon, config).None?
  {
    var curves := CurvesOf(play, MODES, seeds, horizon);
    SlicesCompose(play, seeds, horizon, config, slices, curves);
    if AllReportable(play, seeds, horizon) {
      JointCurves(play, seeds, horizon, config, curves);
      GatesAgree(curves, config);
      var pairs := PairsOf(curves, config).value;
      ReportsAgree(curves, pairs, SelectionGate(curves, config).gate, ComposedGate(curves, config).gate);
      JointIs(play, seeds, horizon, config, pairs);
      MergedIs(slices, seeds, horizon, config, pairs);
    }
  }
}
