/** The selection gate in numbers of the episodes played. */
module Selection {
  import opened Options
  import opened Records
  import opened Statistics
  import opened Composition

  /** The candidate fails where the other does not, or loses too much of its survival. */
  ghost predicate Harmed(candidate: Episode, other: Episode, config: Config) {
    var kept, reached := candidate.conversion.survivalTicks, other.conversion.survivalTicks;
    || (candidate.conversion.terminated && !other.conversion.terminated)
    || (reached - kept >= config.minimumTickLoss && kept as real <= reached as real * config.survivalRatio)
  }

  function EpisodeOf(play: Play, mode: Mode, seed: nat, horizon: nat): Episode {
    play(mode, seed, horizon).0
  }

  ghost predicate Unharmed(play: Play, other: Mode, seeds: seq<nat>, horizon: nat, config: Config) {
    forall seed <- seeds ::
      !Harmed(EpisodeOf(play, ReserveBand, seed, horizon), EpisodeOf(play, other, seed, horizon), config)
  }

  /** The episodes that ended in failure. */
  function Failed(es: seq<Episode>): set<nat> {
    set i: nat | i < |es| && es[i].conversion.terminated
  }

  lemma PairExact(e: Episode, counts: map<string, int>, o: Episode, counts': map<string, int>, config: Config)
    ensures PairOf(Write(e, counts), Write(o, counts'), config).Catastrophe() <==> Harmed(e, o, config)
  {
    var left, right := Write(e, counts), Write(o, counts');
    assert left[GaugeFailure] == FieldOf(e, counts, GaugeFailure);
    assert right[GaugeFailure] == FieldOf(o, counts', GaugeFailure);
    SurvivalWritten(e, counts);
    SurvivalWritten(o, counts');
  }

  lemma SurvivalWritten(e: Episode, counts: map<string, int>)
    ensures MetricAt(Write(e, counts), SurvivalTicks) == e.conversion.survivalTicks
  {
    assert Write(e, counts)[ConversionField] == FieldOf(e, counts, ConversionField);
    assert ConversionManifest(e.conversion)[SurvivalTicks] == MetricOf(e.conversion, SurvivalTicks);
  }

  lemma {:induction false} BySeedIs(play: Play, mode: Mode, seeds: seq<nat>, horizon: nat)
    requires SeedsKept(play)
    ensures forall k :: k in BySeed(Written(play, mode, seeds, horizon)) <==> k >= 0 && k in seeds
    ensures forall seed <- seeds ::
      var (e, counts) := play(mode, seed, horizon);
      BySeed(Written(play, mode, seeds, horizon))[seed] == Write(e, counts)
  {
    if seeds != [] {
      var n := |seeds| - 1;
      BySeedIs(play, mode, seeds[..n], horizon);
      var (e, counts) := play(mode, seeds[n], horizon);
      assert Written(play, mode, seeds, horizon)[..n] == Written(play, mode, seeds[..n], horizon);
      assert e.seed == seeds[n] && Write(e, counts)[Seed] == FieldOf(e, counts, Seed);
      assert seeds == seeds[..n] + [seeds[n]];
    }
  }

  /** The median score, the low tail of survival and the number of failures. */
  function Summary(es: seq<Episode>): Aggregate
    requires es != []
  {
    Aggregate(Percentile(Scores(es), 0.5), Percentile(Survivals(es), 0.1), |Failed(es)|)
  }

  lemma {:induction false} FailuresAre(records: seq<Record>, es: seq<Episode>)
    requires |records| == |es|
    requires forall i :: 0 <= i < |es| ==>
      GaugeFailure in records[i] && records[i][GaugeFailure] == Bool(es[i].conversion.terminated)
    ensures FailureCount(records) == |Failed(es)|
  {
    if es != [] {
      FailuresAre(records[..|es| - 1], es[..|es| - 1]);
      FailedLast(es, |es| - 1);
    }
  }

  lemma FailedLast(es: seq<Episode>, n: nat)
    requires |es| == n + 1
    ensures |Failed(es)| == |Failed(es[..n])| + if es[n].conversion.terminated then 1 else 0
  {
    var before := Failed(es[..n]);
    assert n !in before;
    if es[n].conversion.terminated {
      assert Failed(es) == before + {n};
    } else {
      assert Failed(es) == before;
    }
  }

  /** The aggregate of a mode, in what was played. */
  lemma AggregateExact(play: Play, mode: Mode, seeds: seq<nat>, horizon: nat)
    requires seeds != []
    ensures CurveOf(play, mode, seeds, horizon).aggregate == Summary(Played(play, mode, seeds, horizon))
  {
    var es, records := Played(play, mode, seeds, horizon), Written(play, mode, seeds, horizon);
    forall i | 0 <= i < |es|
      ensures GaugeFailure in records[i] && records[i][GaugeFailure] == Bool(es[i].conversion.terminated)
    {
      var (e, counts) := play(mode, seeds[i], horizon);
      assert records[i] == Write(e, counts);
      assert Write(e, counts)[GaugeFailure] == FieldOf(e, counts, GaugeFailure);
    }
    FailuresAre(records, es);
  }

  lemma NoCatastrophe(rows: map<int, PairRow>)
    ensures CatastropheCount(rows) == 0 <==> forall seed <- rows :: !rows[seed].Catastrophe()
  {
    var harmed := set seed <- rows | rows[seed].Catastrophe();
    if forall seed <- rows :: !rows[seed].Catastrophe() {
      assert forall seed :: seed !in harmed;
      assert harmed == {};
    }
    if harmed == {} {
      forall seed <- rows ensures !rows[seed].Catastrophe() { assert seed !in harmed; }
    }
  }

  lemma RowExact(play: Play, other: Mode, seeds: seq<nat>, horizon: nat, config: Config, seed: nat)
    requires SeedsKept(play) && seed in seeds
    ensures var left, right := BySeed(Written(play, ReserveBand, seeds, horizon)),
      BySeed(Written(play, other, seeds, horizon));
      && seed in left && seed in right
      && (PairOf(left[seed], right[seed], config).Catastrophe() <==>
            Harmed(EpisodeOf(play, ReserveBand, seed, horizon), EpisodeOf(play, other, seed, horizon), config))
  {
    BySeedIs(play, ReserveBand, seeds, horizon);
    BySeedIs(play, other, seeds, horizon);
    var (e, counts) := play(ReserveBand, seed, horizon);
    var (o, counts') := play(other, seed, horizon);
    PairExact(e, counts, o, counts', config);
  }

  lemma RowsExact(play: Play, other: Mode, seeds: seq<nat>, horizon: nat, config: Config, rows: map<int, PairRow>)
    requires SeedsKept(play)
    requires rows.Keys == BySeed(Written(play, ReserveBand, seeds, horizon)).Keys
    requires forall seed <- seeds ::
      var left, right := BySeed(Written(play, ReserveBand, seeds, horizon)),
          BySeed(Written(play, other, seeds, horizon));
      seed in rows && seed in left && seed in right && rows[seed] == PairOf(left[seed], right[seed], config)
    ensures CatastropheCount(rows) == 0 <==> Unharmed(play, other, seeds, horizon, config)
  {
    NoCatastrophe(rows);
    BySeedIs(play, ReserveBand, seeds, horizon);
    forall seed <- seeds ensures rows[seed].Catastrophe() <==>
      Harmed(EpisodeOf(play, ReserveBand, seed, horizon), EpisodeOf(play, other, seed, horizon), config)
    {
      RowExact(play, other, seeds, horizon, config, seed);
    }
    assert forall k :: k in rows <==> k in rows.Keys;
  }

  /** A pairing over one seed list exists, and is free of catastrophes exactly when no
      seed is harmed. */
  lemma PairingExact(play: Play, other: Mode, seeds: seq<nat>, horizon: nat, config: Config)
    requires seeds != [] && SeedsKept(play)
    ensures var pairing := Pairing(CurveOf(play, ReserveBand, seeds, horizon), CurveOf(play, other, seeds, horizon),
      config);
      pairing.Some? && (CatastropheCount(pairing.value) == 0 <==> Unharmed(play, other, seeds, horizon, config))
  {
    var left, right := BySeed(Written(play, ReserveBand, seeds, horizon)), BySeed(Written(play, other, seeds, horizon));
    BySeedIs(play, ReserveBand, seeds, horizon);
    BySeedIs(play, other, seeds, horizon);
    SameKeys(left, right);
    var rows := map seed <- left :: PairOf(left[seed], right[seed], config);
    assert Pairing(CurveOf(play, ReserveBand, seeds, horizon), CurveOf(play, other, seeds, horizon), config) ==
        Some(rows);
    RowsExact(play, other, seeds, horizon, config, rows);
  }

  /** The reserve mode's median score beats the gauge-first mode's; its failures and the
      low tail of its survival stay within bounds. */
  predicate Better(reserve: Aggregate, gauge: Aggregate, score: Aggregate, config: Config) {
    && reserve.scoreMedian > gauge.scoreMedian
    && reserve.gaugeFailures <= gauge.gaugeFailures + config.extraFailures
    && reserve.gaugeFailures <= score.gaugeFailures
    && reserve.survivalP10 >= gauge.survivalP10 * config.p10Ratio
  }

  /** What the joint gate asks of the episodes played: the inequalities in aggregate, and
      that no seed is harmed. */
  ghost predicate Selected(play: Play, seeds: seq<nat>, horizon: nat, config: Config)
    requires seeds != []
  {
    && Better(Summary(Played(play, ReserveBand, seeds, horizon)), Summary(Played(play, PureGauge, seeds, horizon)),
              Summary(Played(play, ScoreFirst, seeds, horizon)), config)
    && Unharmed(play, ScoreFirst, seeds, horizon, config)
    && Unharmed(play, PureGauge, seeds, horizon, config)
  }

  /** The gate of the joint run, exactly, in what was played. */
  lemma JointGateExact(play: Play, seeds: seq<nat>, horizon: nat, config: Config)
    requires seeds != [] && SeedsKept(play)
    ensures var joint := RunModes(play, MODES, seeds, horizon, config);
      && joint.Some? && joint.value.gate.Some?
      && (joint.value.gate.value.Passed() <==> Selected(play, seeds, horizon, config))
  {
    var curves := CurvesOf(play, MODES, seeds, horizon);
    JointCurves(play, seeds, horizon, config, curves);
    JointIs(play, seeds, horizon, config, PairsOf(curves, config).value);
    SelectionExact(play, seeds, horizon, config, curves);
  }

  lemma BetterExact(play: Play, seeds: seq<nat>, horizon: nat, config: Config)
    requires seeds != []
    ensures Selected(play, seeds, horizon, config) <==>
      && Better(CurveOf(play, ReserveBand, seeds, horizon).aggregate,
          CurveOf(play, PureGauge, seeds, horizon).aggregate,
                CurveOf(play, ScoreFirst, seeds, horizon).aggregate, config)
      && Unharmed(play, ScoreFirst, seeds, horizon, config)
      && Unharmed(play, PureGauge, seeds, horizon, config)
  {
    AggregateExact(play, ReserveBand, seeds, horizon);
    AggregateExact(play, PureGauge, seeds, horizon);
    AggregateExact(play, ScoreFirst, seeds, horizon);
  }

  lemma SelectionExact(play: Play, seeds: seq<nat>, horizon: nat, config: Config, curves: Curves)
    requires seeds != [] && SeedsKept(play) && curves.Keys == MODES
    requires forall mode <- MODES :: curves[mode] == CurveOf(play, mode, seeds, horizon)
    ensures SelectionGate(curves, config).Judged?
    ensures SelectionGate(curves, config).gate.Passed() <==> Selected(play, seeds, horizon, config)
  {
    var reserve, gauge, score := curves[ReserveBand], curves[PureGauge], curves[ScoreFirst];
    PairingExact(play, ScoreFirst, seeds, horizon, config);
    PairingExact(play, PureGauge, seeds, horizon, config);
    BetterExact(play, seeds, horizon, config);
    ChecksExact(curves, config, reserve, gauge, score,
                Unharmed(play, ScoreFirst, seeds, horizon, config), Unharmed(play, PureGauge, seeds, horizon, config));
  }

  /** The five checks, on curves that pair up. */
  lemma ChecksExact(
      curves: Curves, config: Config, reserve: Curve, gauge: Curve, score: Curve, byScore: bool, byGauge: bool)
    requires ReserveBand in curves && ScoreFirst in curves && PureGauge in curves
    requires reserve == curves[ReserveBand] && gauge == curves[PureGauge] && score == curves[ScoreFirst]
    requires Pairing(reserve, score, config).Some? && Pairing(reserve, gauge, config).Some?
    requires CatastropheCount(Pairing(reserve, score, config).value) == 0 <==> byScore
    requires CatastropheCount(Pairing(reserve, gauge, config).value) == 0 <==> byGauge
    ensures SelectionGate(curves, config).Judged?
    ensures SelectionGate(curves, config).gate.Passed() <==>
      Better(reserve.aggregate, gauge.aggregate, score.aggregate, config) && byScore && byGauge
  {
    FiveChecks(SelectionGate(curves, config).gate.checks);
  }

  lemma FiveChecks(checks: seq<bool>)
    requires |checks| == 5
    ensures false !in checks <==> checks[0] && checks[1] && checks[2] && checks[3] && checks[4]
  {}

  /** The gate of the merged slices asks, besides, that no seed is harmed against the
      base policy. */
  lemma MergedGateExact(play: Play, seeds: seq<nat>, horizon: nat, config: Config, slices: map<Mode, Report>)
    requires seeds != [] && SeedsKept(play) && AllReportable(play, seeds, horizon)
    requires slices.Keys == MODES
    requires forall mode <- MODES :: RunModes(play, {mode}, seeds, horizon, config) == Some(slices[mode])
    ensures var merged := Composed(slices, seeds, horizon, config);
      && merged.Some? && merged.value.gate.Some?
      && (merged.value.gate.value.Passed() <==>
            Selected(play, seeds, horizon, config) && Unharmed(play, BaseV5, seeds, horizon, config))
  {
    MergeAgrees(play, seeds, horizon, config, slices);
    JointGateExact(play, seeds, horizon, config);
    JointPairsBase(play, seeds, horizon, config);
    PairingExact(play, BaseV5, seeds, horizon, config);
  }

  lemma JointPairsBase(play: Play, seeds: seq<nat>, horizon: nat, config: Config)
    requires seeds != [] && SeedsKept(play)
    ensures var joint := RunModes(play, MODES, seeds, horizon, config);
      && joint.Some? && BaseV5 in joint.value.pairs
      && Pairing(CurveOf(play, ReserveBand, seeds, horizon), CurveOf(play, BaseV5, seeds, horizon), config)
           == Some(joint.value.pairs[BaseV5])
  {
    var curves := CurvesOf(play, MODES, seeds, horizon);
    JointCurves(play, seeds, horizon, config, curves);
    var pairs := PairsOf(curves, config).value;
    GatesAgree(curves, config);
    JointIs(play, seeds, horizon, config, pairs);
    PairingExact(play, BaseV5, seeds, horizon, config);
    PairsAt(curves, config, BaseV5);
  }

  lemma PairsAt(curves: Curves, config: Config, mode: Mode)
    requires ReserveBand in curves && mode in Comparators() && mode in curves && PairsOf(curves, config).Some?
    requires Pairing(curves[ReserveBand], curves[mode], config).Some?
    ensures mode in PairsOf(curves, config).value
    ensures PairsOf(curves, config).value[mode] == Pairing(curves[ReserveBand], curves[mode], config).value
  {}

  /** What the policy counted under `name` over all episodes of a mode. */
  function Counted(play: Play, mode: Mode, seeds: seq<nat>, horizon: nat, name: string): int {
    if seeds == [] then 0
    else
      var last := |seeds| - 1;
      Counted(play, mode, seeds[..last], horizon, name) + CountOf(play(mode, seeds[last], horizon).1, name)
  }

  /** The counts of a curve are the totals, name by name, of what its episodes counted. */
  lemma {:induction false} CountsExact(play: Play, mode: Mode, seeds: seq<nat>, horizon: nat, name: string)
    ensures CountOf(TotalCounts(Written(play, mode, seeds, horizon)), name) == Counted(play, mode, seeds, horizon, name)
    ensures name in TotalCounts(Written(play, mode, seeds, horizon)) <==>
      exists seed <- seeds :: name in play(mode, seed, horizon).1
  {
    if seeds != [] {
      var n := |seeds| - 1;
      CountsExact(play, mode, seeds[..n], horizon, name);
      var (e, counts) := play(mode, seeds[n], horizon);
      assert Written(play, mode, seeds, horizon)[..n] == Written(play, mode, seeds[..n], horizon);
      assert Write(e, counts)[PolicyCounts] == FieldOf(e, counts, PolicyCounts);
      assert seeds == seeds[..n] + [seeds[n]];
      assert seeds[n] in seeds;
    }
  }

  /* Slices from anywhere. */

  /** Row `i` is the record of an episode of that seed, with values in range and not
      longer than the horizon. */
  ghost predicate RowOf(r: Record, e: Episode, counts: map<string, int>, seed: nat, horizon: nat) {
    && r == Write(e, counts) && InRange(e, counts) && e.seed == seed
    && e.conversion.survivalTicks <= horizon
    && (e.conversion.truncated ==> e.conversion.survivalTicks == horizon)
  }

  /** The curve is what `_evaluate` would have written for these episodes. */
  ghost predicate Evaluated(
      curve: Curve, es: seq<Episode>, counts: seq<map<string, int>>, seeds: seq<nat>, horizon: nat)
  {
    && |es| == |counts| == |seeds| == |curve.episodes| && es != []
    && (forall i :: 0 <= i < |es| ==> RowOf(curve.episodes[i], es[i], counts[i], seeds[i], horizon))
    && curve.aggregate == Summary(es)
    && curve.counts == TotalCounts(curve.episodes)
  }

  lemma {:induction false} ReadAllRows(records: seq<Record>, es: seq<Episode>)
    ensures ReadAll(records) == Some(es) <==>
      |es| == |records| && forall i :: 0 <= i < |es| ==> Read(records[i]) == Some(es[i])
  {
    if records != [] {
      var n := |records| - 1;
      if |es| == |records| {
        ReadAllRows(records[..n], es[..n]);
        assert es == es[..n] + [es[n]];
      } else if ReadAll(records[..n]).Some? {
        ReadAllRows(records[..n], ReadAll(records[..n]).value);
      }
    }
  }

  lemma RowReads(r: Record, e: Episode, counts: map<string, int>, seed: nat, horizon: nat)
    requires RowOf(r, e, counts, seed, horizon)
    ensures Read(r) == Some(e) && Censored(e, horizon) && Seed in r && r[Seed] == Int(seed)
    ensures GaugeFailure in r && r[GaugeFailure] == Bool(e.conversion.terminated)
  {
    ReadWrite(e, counts);
    assert r[Seed] == FieldOf(e, counts, Seed) && r[GaugeFailure] == FieldOf(e, counts, GaugeFailure);
  }

  lemma ReadRow(r: Record, seed: nat, horizon: nat) returns (counts: map<string, int>)
    requires Read(r).Some? && Censored(Read(r).value, horizon) && Seed in r && r[Seed] == Int(seed)
    ensures RowOf(r, Read(r).value, counts, seed, horizon)
  {
    WriteRead(r);
    counts := r[PolicyCounts].n;
    assert r[Seed] == FieldOf(Read(r).value, counts, Seed);
  }

  function CountsIn(records: seq<Record>): (r: seq<map<string, int>>)
    ensures |r| == |records|
  {
    seq(|records|, i requires 0 <= i < |records| =>
      if PolicyCounts in records[i] && records[i][PolicyCounts].Counts? then records[i][PolicyCounts].n else map[])
  }

  lemma EvaluatedRecomputed(
      curve: Curve, es: seq<Episode>, counts: seq<map<string, int>>, seeds: seq<nat>, horizon: nat)
    requires Evaluated(curve, es, counts, seeds, horizon)
    ensures Recomputes(curve, seeds, horizon)
  {
    forall i | 0 <= i < |es|
      ensures Read(curve.episodes[i]) == Some(es[i]) && Censored(es[i], horizon)
      ensures Seed in curve.episodes[i] && curve.episodes[i][Seed] == Int(seeds[i])
      ensures GaugeFailure in curve.episodes[i]
        && curve.episodes[i][GaugeFailure] == Bool(es[i].conversion.terminated)
    {
      assert RowOf(curve.episodes[i], es[i], counts[i], seeds[i], horizon);
      RowReads(curve.episodes[i], es[i], counts[i], seeds[i], horizon);
    }
    ReadAllRows(curve.episodes, es);
    FailuresAre(curve.episodes, es);
  }

  lemma RecomputedEvaluated(curve: Curve, seeds: seq<nat>, horizon: nat)
    returns (es: seq<Episode>, counts: seq<map<string, int>>)
    requires Recomputes(curve, seeds, horizon)
    ensures Evaluated(curve, es, counts, seeds, horizon)
  {
    es, counts := ReadAll(curve.episodes).value, CountsIn(curve.episodes);
    ReadAllRows(curve.episodes, es);
    forall i | 0 <= i < |es|
      ensures RowOf(curve.episodes[i], es[i], counts[i], seeds[i], horizon)
      ensures GaugeFailure in curve.episodes[i]
        && curve.episodes[i][GaugeFailure] == Bool(es[i].conversion.terminated)
    {
      assert es[i] in es;
      var c := ReadRow(curve.episodes[i], seeds[i], horizon);
      assert curve.episodes[i][PolicyCounts] == FieldOf(es[i], c, PolicyCounts);
      RowReads(curve.episodes[i], es[i], c, seeds[i], horizon);
    }
    FailuresAre(curve.episodes, es);
  }

  /** A slice is accepted exactly when it holds its own mode alone, and a curve that
      `_evaluate` would have written for some episodes of just those seeds. */
  lemma SliceExact(mode: Mode, slice: Report, seeds: seq<nat>, horizon: nat)
    ensures IsSlice(mode, slice, seeds, horizon) <==>
      && slice.curves.Keys == {mode} && slice.pairs == map[] && slice.gate.None?
      && exists es, counts :: Evaluated(slice.curves[mode], es, counts, seeds, horizon)
  {
    if slice.curves.Keys == {mode} {
      assert mode in slice.curves;
      var curve := slice.curves[mode];
      if Recomputes(curve, seeds, horizon) {
        var es, counts := RecomputedEvaluated(curve, seeds, horizon);
      }
      if es, counts :| Evaluated(curve, es, counts, seeds, horizon) {
        EvaluatedRecomputed(curve, es, counts, seeds, horizon);
      }
    }
  }

  /** Whatever slices are handed in, nothing else is merged. */
  lemma MergeRefuses(slices: map<Mode, Report>, seeds: seq<nat>, horizon: nat, config: Config, mode: Mode)
    requires Composed(slices, seeds, horizon, config).Some?
    ensures mode in slices && slices[mode].curves.Keys == {mode} && slices[mode].pairs == map[]
    ensures slices[mode].gate.None?
    ensures exists es, counts :: Evaluated(slices[mode].curves[mode], es, counts, seeds, horizon)
  {
    assert mode in MODES;
    SliceExact(mode, slices[mode], seeds, horizon);
  }
}
