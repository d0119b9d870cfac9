/** Episode records as they are written into a report and read back. */
module Records {
  import opened Options

  /** A JSON value of a record. */
  datatype Value =
    | Int(i: int) | Bool(b: bool) | Str(s: string) | Rate(r: real)
    | Conv(c: map<Metric, Value>) | Counts(n: map<string, int>)

  datatype Metric =
    | Frames | SurvivalTicks | RequestedShots | ShotsFired | ShotsHit | ProjectileHitEvents | ChainJoins
    | Clears | Rotten | Ejected | InvalidActions | FinalScore | Terminated | Truncated
    | HitRate | JoinsPerShot | ClearsPerShot

  datatype Field =
    | Policy | Seed | Decisions | PrimitiveActions | HighestChain | QualifyingClears | FinalLevel | FinalGauge
    | GaugeMax | GaugeFailure | ArchiveInsertions | ArchiveRejections | ConversionField
    | LegacyFinalGaugeFailure | GaugeFailureSignal | PolicyCounts

  type Record = map<Field, Value>

  datatype RawConversion = Conversion(
    frames: nat, survivalTicks: nat, requestedShots: nat, shotsFired: nat, shotsHit: nat, projectileHitEvents: nat,
    chainJoins: nat, clears: nat, rotten: nat, ejected: nat, invalidActions: nat,
    finalScore: int, terminated: bool, truncated: bool)

  /** Metrics that `SteeringConversionMetrics` can be built with. */
  type Conversion = c: RawConversion | c.shotsHit <= c.shotsFired
    witness RawConversion.Conversion(0, 0, 0, 0, 0, 0, 0, 0, 0, 0, 0, 0, false, false)

  datatype Episode = Episode(
    policy: string, seed: int, decisions: int, primitiveActions: int, highestChain: int, qualifyingClears: int,
    finalLevel: int, finalGauge: int, gaugeMax: int, archiveInsertions: int, archiveRejections: int,
    conversion: Conversion)

  const SIGNAL := "terminal GAME_OVER/terminated state, independent of same-tick final-gauge recovery"

  function RateOf(numerator: int, denominator: int): Value {
    Rate(if denominator == 0 then 0.0 else numerator as real / denominator as real)
  }

  function MetricOf(c: Conversion, m: Metric): Value {
    match m
    case Frames => Int(c.frames)
    case SurvivalTicks => Int(c.survivalTicks)
    case RequestedShots => Int(c.requestedShots)
    case ShotsFired => Int(c.shotsFired)
    case ShotsHit => Int(c.shotsHit)
    case ProjectileHitEvents => Int(c.projectileHitEvents)
    case ChainJoins => Int(c.chainJoins)
    case Clears => Int(c.clears)
    case Rotten => Int(c.rotten)
    case Ejected => Int(c.ejected)
    case InvalidActions => Int(c.invalidActions)
    case FinalScore => Int(c.finalScore)
    case Terminated => Bool(c.terminated)
    case Truncated => Bool(c.truncated)
    case HitRate => RateOf(c.shotsHit, c.shotsFired)
    case JoinsPerShot => RateOf(c.chainJoins, c.shotsFired)
    case ClearsPerShot => RateOf(c.clears, c.shotsFired)
  }

  /** `SteeringConversionMetrics.manifest` */
  function ConversionManifest(c: Conversion): map<Metric, Value> {
    map m: Metric {:trigger MetricOf(c, m)} | true :: MetricOf(c, m)
  }

  /** `EpisodeResult.gauge_failure` */
  predicate LegacyFailure(e: Episode) {
    e.conversion.terminated && e.finalGauge <= 1
  }

  /** A field as `_evaluate` leaves it in the record. */
  function FieldOf(e: Episode, counts: map<string, int>, f: Field): Value {
    match f
    case Policy => Str(e.policy)
    case Seed => Int(e.seed)
    case Decisions => Int(e.decisions)
    case PrimitiveActions => Int(e.primitiveActions)
    case HighestChain => Int(e.highestChain)
    case QualifyingClears => Int(e.qualifyingClears)
    case FinalLevel => Int(e.finalLevel)
    case FinalGauge => Int(e.finalGauge)
    case GaugeMax => Int(e.gaugeMax)
    case GaugeFailure => Bool(e.conversion.terminated)
    case ArchiveInsertions => Int(e.archiveInsertions)
    case ArchiveRejections => Int(e.archiveRejections)
    case ConversionField => Conv(ConversionManifest(e.conversion))
    case LegacyFinalGaugeFailure => Bool(LegacyFailure(e))
    case GaugeFailureSignal => Str(SIGNAL)
    case PolicyCounts => Counts(counts)
  }

  /** The record `_evaluate` writes. */
  function Write(e: Episode, counts: map<string, int>): Record {
    map f: Field {:trigger FieldOf(e, counts, f)} | true :: FieldOf(e, counts, f)
  }

  /** `_integer` accepts the field. */
  predicate IntOk<K>(r: map<K, Value>, k: K, minimum: int) {
    k in r && r[k].Int? && r[k].i >= minimum
  }

  predicate BoolOk<K>(r: map<K, Value>, k: K) {
    k in r && r[k].Bool?
  }

  predicate TypedConversion(r: map<Metric, Value>) {
    && IntOk(r, Frames, 0) && IntOk(r, SurvivalTicks, 0) && IntOk(r, RequestedShots, 0) && IntOk(r, ShotsFired, 0)
    && IntOk(r, ShotsHit, 0) && IntOk(r, ProjectileHitEvents, 0) && IntOk(r, ChainJoins, 0) && IntOk(r, Clears, 0)
    && IntOk(r, Rotten, 0) && IntOk(r, Ejected, 0) && IntOk(r, InvalidActions, 0)
    && FinalScore in r && r[FinalScore].Int? && BoolOk(r, Terminated) && BoolOk(r, Truncated)
  }

  /** The conversion metrics, with the derived rates checked. */
  function ReadConversion(r: map<Metric, Value>): Option<Conversion> {
    if !TypedConversion(r) then None
    else
      var c := RawConversion.Conversion(
        r[Frames].i, r[SurvivalTicks].i, r[RequestedShots].i, r[ShotsFired].i, r[ShotsHit].i, r[ProjectileHitEvents].i,
        r[ChainJoins].i, r[Clears].i, r[Rotten].i, r[Ejected].i, r[InvalidActions].i,
        r[FinalScore].i, r[Terminated].b, r[Truncated].b);
      if c.shotsHit > c.shotsFired then None
      else
        var typed: Conversion := c;
        if ConversionManifest(typed) == r then Some(typed) else None
  }

  predicate TypedFields(r: Record) {
    && Policy in r && r[Policy].Str?
    && IntOk(r, Seed, 0) && IntOk(r, Decisions, 0) && IntOk(r, PrimitiveActions, 0) && IntOk(r, HighestChain, 0)
    && IntOk(r, QualifyingClears, 0) && IntOk(r, FinalLevel, 0) && IntOk(r, FinalGauge, 0) && IntOk(r, GaugeMax, 1)
    && IntOk(r, ArchiveInsertions, 0) && IntOk(r, ArchiveRejections, 0)
  }

  function ReadFields(r: Record, c: Conversion): Option<Episode> {
    if !TypedFields(r) then None
    else
      Some(Episode(
        r[Policy].s, r[Seed].i, r[Decisions].i, r[PrimitiveActions].i, r[HighestChain].i, r[QualifyingClears].i,
        r[FinalLevel].i, r[FinalGauge].i, r[GaugeMax].i, r[ArchiveInsertions].i, r[ArchiveRejections].i, c))
  }

  /** `_episode` */
  function Read(r: Record): Option<Episode> {
    if ConversionField !in r || !r[ConversionField].Conv? then None
    else
      match ReadConversion(r[ConversionField].c)
      case None => None
      case Some(c) =>
        match ReadFields(r, c)
        case None => None
        case Some(e) =>
          if && PolicyCounts in r && r[PolicyCounts].Counts?
             && r == Write(e, r[PolicyCounts].n)
             && (forall name <- r[PolicyCounts].n :: r[PolicyCounts].n[name] >= 0)
          then Some(e) else None
  }

  /** The values that pass the reader's own guards. */
  ghost predicate InRange(e: Episode, counts: map<string, int>) {
    && e.seed >= 0 && e.decisions >= 0 && e.primitiveActions >= 0 && e.highestChain >= 0 && e.qualifyingClears >= 0
    && e.finalLevel >= 0 && e.finalGauge >= 0 && e.gaugeMax >= 1 && e.archiveInsertions >= 0 && e.archiveRejections >= 0
    && forall name <- counts :: counts[name] >= 0
  }

  lemma ManifestAt(c: Conversion, m: Metric)
    ensures m in ConversionManifest(c) && ConversionManifest(c)[m] == MetricOf(c, m)
  {}

  lemma ManifestTyped(c: Conversion)
    ensures TypedConversion(ConversionManifest(c))
  {
    forall m: Metric
        ensures m in ConversionManifest(c) && ConversionManifest(c)[m] == MetricOf(c, m) { ManifestAt(c, m); }
  }

  /** Conversion metrics always read back. */
  lemma ReadWriteConversion(c: Conversion)
    ensures ReadConversion(ConversionManifest(c)) == Some(c)
  {
    ManifestTyped(c);
    forall m: Metric
        ensures m in ConversionManifest(c) && ConversionManifest(c)[m] == MetricOf(c, m) { ManifestAt(c, m); }
  }

  lemma ReadWriteFields(e: Episode, counts: map<string, int>)
    requires forall name <- counts :: counts[name] >= 0
    ensures ReadFields(Write(e, counts), e.conversion) == if InRange(e, counts) then Some(e) else None
  {
    var r := Write(e, counts);
    assert forall f: Field {:trigger FieldOf(e, counts, f)} :: f in r && r[f] == FieldOf(e, counts, f);
  }

  /** Writing then reading gives the episode back, exactly for the episodes whose
      values are in range. */
  lemma ReadWrite(e: Episode, counts: map<string, int>)
    ensures Read(Write(e, counts)) == if InRange(e, counts) then Some(e) else None
  {
    var r := Write(e, counts);
    assert r[ConversionField] == Conv(ConversionManifest(e.conversion)) && r[PolicyCounts] == Counts(counts);
    ReadWriteConversion(e.conversion);
    if forall name <- counts :: counts[name] >= 0 { ReadWriteFields(e, counts); }
  }

  /** And nothing else is read: a record that is accepted is the one its episode
      would be written as, so two accepted records of one episode with the same
      policy counts are the same record. */
  lemma WriteRead(r: Record)
    requires Read(r).Some?
    ensures r[PolicyCounts].Counts? && r == Write(Read(r).value, r[PolicyCounts].n)
    ensures InRange(Read(r).value, r[PolicyCounts].n)
  {
    ReadWrite(Read(r).value, r[PolicyCounts].n);
  }

  /** A rate is zero of nothing, and otherwise the fraction it stands for. */
  ghost predicate IsRate(v: Value, numerator: nat, denominator: nat) {
    && v.Rate?
    && (denominator == 0 ==> v.r == 0.0)
    && (denominator > 0 ==> v.r * denominator as real == numerator as real && v.r >= 0.0)
  }

  /** The derived fields of a record, in numbers. */
  lemma DerivedFields(e: Episode, counts: map<string, int>)
    ensures var c := e.conversion; var r := Write(e, counts);
      && r[GaugeFailure] == Bool(c.terminated)
      && r[LegacyFinalGaugeFailure] == Bool(c.terminated && e.finalGauge <= 1)
      && r[ConversionField].Conv?
      && IsRate(r[ConversionField].c[HitRate], c.shotsHit, c.shotsFired)
      && IsRate(r[ConversionField].c[JoinsPerShot], c.chainJoins, c.shotsFired)
      && IsRate(r[ConversionField].c[ClearsPerShot], c.clears, c.shotsFired)
  {
    var c, r := e.conversion, Write(e, counts);
    assert r[GaugeFailure] == FieldOf(e, counts, GaugeFailure);
    assert r[LegacyFinalGaugeFailure] == FieldOf(e, counts, LegacyFinalGaugeFailure);
    assert r[ConversionField] == FieldOf(e, counts, ConversionField);
    ManifestAt(c, HitRate);
    ManifestAt(c, JoinsPerShot);
    ManifestAt(c, ClearsPerShot);
    RateExact(c.shotsHit, c.shotsFired);
    RateExact(c.chainJoins, c.shotsFired);
    RateExact(c.clears, c.shotsFired);
  }

  lemma RateExact(numerator: nat, denominator: nat)
    ensures IsRate(RateOf(numerator, denominator), numerator, denominator)
  {
    if denominator > 0 {
      var n, d := numerator as real, denominator as real;
      assert n / d * d == n;
      NotNegative(n, d);
    }
  }

  lemma NotNegative(n: real, d: real)
    requires n >= 0.0 && d > 0.0
    ensures n / d >= 0.0
  {}
}
