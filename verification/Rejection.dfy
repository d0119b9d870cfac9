/** The promotion gate in numbers, and whom it keeps out. */
module Rejection {
  import opened Statistics
  import opened Promotion

  /** The episodes that ended on an empty gauge. */
  function Failing(s: Suite): set<nat> {
    set i: nat | i < |s| && s[i].terminated && s[i].finalGauge <= 1
  }

  lemma {:induction false} FailuresCount(s: Suite)
    ensures Failures(s) == |Failing(s)|
  {
    if s != [] {
      var n := |s| - 1;
      FailuresCount(s[..n]);
      FailuresLast(s, n);
      FailingLast(s, n);
    }
  }

  lemma FailuresLast(s: Suite, n: nat)
    requires |s| == n + 1
    ensures Failures(s) == Failures(s[..n]) + if s[n].GaugeFailure() then 1 else 0
  {
    assert Without(s, n) == s[..n];
    SumWithout(s, n, (m: Metrics) => if m.GaugeFailure() then 1 else 0);
  }

  lemma FailingLast(s: Suite, n: nat)
    requires |s| == n + 1
    ensures |Failing(s)| == |Failing(s[..n])| + if s[n].GaugeFailure() then 1 else 0
  {
    var before := Failing(s[..n]);
    assert n !in before;
    if s[n].GaugeFailure() {
      assert Failing(s) == before + {n};
    } else {
      assert Failing(s) == before;
    }
  }

  /** What must hold of each seed: a run of 2000 ticks or more may lose less than 2000
      ticks or less than a quarter, and at most a half, a full run must stay full, an
      empty gauge must be nothing new, and every action must be valid. */
  ghost predicate SafePair(first: Metrics, second: Metrics) {
    && (first.survival >= 2000 ==>
          || first.survival - second.survival < 2000
          || first.survival - second.survival < first.survival / 4)
    && (first.survival >= 2000 ==> 2 * second.survival >= first.survival)
    && (first.survival >= first.horizon ==> second.survival >= second.horizon)
    && (second.terminated && second.finalGauge <= 1 ==> first.terminated && first.finalGauge <= 1)
    && second.invalid == 0
  }

  ghost predicate SafePairs(baseline: Suite, candidate: Suite) {
    forall i, j :: 0 <= i < |baseline| && 0 <= j < |candidate| && baseline[i].seed == candidate[j].seed ==>
      SafePair(baseline[i], candidate[j])
  }

  function Clears(): Metrics -> int { (m: Metrics) => m.clears }
  function Renewal(): Metrics -> int { (m: Metrics) => m.renewal }

  /** The totals and percentiles do not fall, nor do more episodes fail. */
  ghost predicate Noninferior(baseline: Suite, candidate: Suite)
    requires baseline != [] && candidate != []
  {
    && |Failing(candidate)| <= |Failing(baseline)|
    && Percentile(Values(candidate, Survival()), 0.1) >= Percentile(Values(baseline, Survival()), 0.1)
    && Percentile(Values(candidate, Survival()), 0.5) >= Percentile(Values(baseline, Survival()), 0.5)
    && Percentile(Values(candidate, Score()), 0.1) >= Percentile(Values(baseline, Score()), 0.1)
    && Percentile(Values(candidate, Score()), 0.5) >= Percentile(Values(baseline, Score()), 0.5)
    && Sum(candidate, Clears()) >= Sum(baseline, Clears())
    && Sum(candidate, Renewal()) >= Sum(baseline, Renewal())
  }

  /** The gate, exactly: a paired candidate passes on a selection suite if and only if
      every seed is safe and nothing in aggregate is worse. */
  lemma GateExact(baseline: Suite, candidate: Suite, selection: bool)
    requires PairedSuites(baseline, candidate) && baseline != [] && candidate != []
    ensures var verdict := Gate(baseline, candidate, selection);
      && verdict.Verdict?
      && (verdict.safe <==> SafePairs(baseline, candidate))
      && (verdict.noninferior <==> Noninferior(baseline, candidate))
      && (verdict.passed <==> selection && SafePairs(baseline, candidate) && Noninferior(baseline, candidate))
  {
    SafeExact(baseline, candidate);
    ChecksExact(baseline, candidate);
  }

  lemma ChecksExact(baseline: Suite, candidate: Suite)
    requires baseline != [] && candidate != []
    ensures false !in NoninferiorChecks(baseline, candidate) <==> Noninferior(baseline, candidate)
  {
    FailuresCount(baseline);
    FailuresCount(candidate);
    SumSame(baseline, Clears(), (m: Metrics) => m.clears);
    SumSame(candidate, Clears(), (m: Metrics) => m.clears);
    SumSame(baseline, Renewal(), (m: Metrics) => m.renewal);
    SumSame(candidate, Renewal(), (m: Metrics) => m.renewal);
    var checks := NoninferiorChecks(baseline, candidate);
    assert false in checks <==> exists k :: 0 <= k < 7 && !checks[k];
    assert !checks[0] || !checks[1] || !checks[2] || !checks[3] || !checks[4] || !checks[5] || !checks[6]
      <==> !Noninferior(baseline, candidate);
  }

  lemma {:induction false} SumSame(s: Suite, f: Metrics -> int, g: Metrics -> int)
    requires forall m :: f(m) == g(m)
    ensures Sum(s, f) == Sum(s, g)
  {
    if s != [] { SumSame(s[1..], f, g); }
  }

  lemma SafeExact(baseline: Suite, candidate: Suite)
    requires PairedSuites(baseline, candidate)
    ensures BySeed(baseline).Keys == BySeed(candidate).Keys
    ensures SafePairs(baseline, candidate) <==>
      Catastrophes(baseline, candidate) == {} && Sum(candidate, (m: Metrics) => m.invalid as int) == 0
  {
    BySeedPlays(baseline);
    BySeedPlays(candidate);
    if Catastrophes(baseline, candidate) == {} && Sum(candidate, (m: Metrics) => m.invalid as int) == 0 {
      PassingIsSafe(baseline, candidate);
    }
    if SafePairs(baseline, candidate) { SafePasses(baseline, candidate); }
  }

  lemma PassingIsSafe(baseline: Suite, candidate: Suite)
    requires PairedSuites(baseline, candidate) && BySeed(baseline).Keys == BySeed(candidate).Keys
    requires Catastrophes(baseline, candidate) == {} && Sum(candidate, (m: Metrics) => m.invalid as int) == 0
    ensures SafePairs(baseline, candidate)
  {
    forall i, j | 0 <= i < |baseline| && 0 <= j < |candidate| && baseline[i].seed == candidate[j].seed
      ensures SafePair(baseline[i], candidate[j])
    {
      PairIsBySeed(baseline, candidate, i, j);
      assert baseline[i].seed !in Catastrophes(baseline, candidate);
      InvalidCounted(candidate, j);
    }
  }

  lemma SafePasses(baseline: Suite, candidate: Suite)
    requires PairedSuites(baseline, candidate) && BySeed(baseline).Keys == BySeed(candidate).Keys
    requires SafePairs(baseline, candidate)
    ensures Catastrophes(baseline, candidate) == {} && Sum(candidate, (m: Metrics) => m.invalid as int) == 0
  {
    BySeedPlays(baseline);
    BySeedPlays(candidate);
    forall seed | seed in BySeed(baseline) ensures !Catastrophe(BySeed(baseline)[seed], BySeed(candidate)[seed]) {
      var first, second := BySeed(baseline)[seed], BySeed(candidate)[seed];
      assert SafePair(first, second);
    }
    forall m <- candidate ensures m.invalid == 0 {
      var j :| 0 <= j < |candidate| && candidate[j] == m;
      assert Plays(candidate, m.seed);
      var i :| 0 <= i < |baseline| && baseline[i].seed == m.seed;
      assert SafePair(baseline[i], candidate[j]);
    }
    NothingInvalid(candidate);
  }

  /* Who is never promoted. */

  /** Seed by seed, `f` of the candidate is less than `f` of the baseline. */
  ghost predicate LessEverywhere(baseline: Suite, candidate: Suite, f: Metrics -> int) {
    forall i, j :: 0 <= i < |baseline| && 0 <= j < |candidate| && baseline[i].seed == candidate[j].seed ==>
      f(candidate[j]) < f(baseline[i])
  }

  function Next(f: Metrics -> int): Metrics -> int {
    (m: Metrics) => f(m) + 1
  }

  lemma {:induction false} SumNext(s: Suite, f: Metrics -> int)
    ensures Sum(s, Next(f)) == Sum(s, f) + |s|
  {
    if s != [] { SumNext(s[1..], f); }
  }

  lemma LowerTotal(baseline: Suite, candidate: Suite, f: Metrics -> int)
    requires PairedSuites(baseline, candidate) && baseline != [] && candidate != []
    requires LessEverywhere(baseline, candidate, f)
    ensures Sum(candidate, f) < Sum(baseline, f)
  {
    SumDominates(candidate, baseline, Next(f), f);
    SumNext(candidate, f);
  }

  /** Two quantities, one no smaller than the other seed by seed, dominate. */
  lemma TwoDominate(baseline: Suite, candidate: Suite, f: Metrics -> int, g: Metrics -> int)
    requires PairedSuites(baseline, candidate)
    requires forall i, j :: 0 <= i < |baseline| && 0 <= j < |candidate| && baseline[i].seed == candidate[j].seed ==>
      f(baseline[i]) <= g(candidate[j])
    ensures Dominates(Values(candidate, g), Values(baseline, f))
  {
    SumDominates(baseline, candidate, f, g);
    forall x ensures AtMost(Values(candidate, g), x) <= AtMost(Values(baseline, f), x) {
      SumDominates(baseline, candidate, Counter(f, x), Counter(g, x));
      AtMostIsSum(baseline, f, x);
      AtMostIsSum(candidate, g, x);
    }
  }

  lemma LowerPercentile(baseline: Suite, candidate: Suite, f: Metrics -> int, fraction: real)
    requires PairedSuites(baseline, candidate) && baseline != [] && candidate != [] && 0.0 <= fraction <= 1.0
    requires LessEverywhere(baseline, candidate, f)
    ensures Percentile(Values(candidate, f), fraction) < Percentile(Values(baseline, f), fraction)
  {
    TwoDominate(candidate, baseline, Next(f), f);
    PercentileMonotone(Values(candidate, Next(f)), Values(baseline, f), fraction);
    assert Values(candidate, Next(f)) == Shifted(Values(candidate, f), 1);
    PercentileShifted(Values(candidate, f), 1, fraction);
  }

  /** A candidate that scores less on every seed is never promoted, nor is one that
      survives less, clears less or renews less on every seed, nor one with more
      failures. */
  lemma WorseIsRejected(baseline: Suite, candidate: Suite, selection: bool)
    requires PairedSuites(baseline, candidate) && baseline != [] && candidate != []
    requires
      || LessEverywhere(baseline, candidate, Score()) || LessEverywhere(baseline, candidate, Survival())
      || LessEverywhere(baseline, candidate, Clears()) || LessEverywhere(baseline, candidate, Renewal())
      || |Failing(candidate)| > |Failing(baseline)|
    ensures var verdict := Gate(baseline, candidate, selection);
      verdict.Verdict? && !verdict.noninferior && !verdict.passed
  {
    GateExact(baseline, candidate, selection);
    if LessEverywhere(baseline, candidate, Score()) { LowerPercentile(baseline, candidate, Score(), 0.5); }
    if LessEverywhere(baseline, candidate, Survival()) { LowerPercentile(baseline, candidate, Survival(), 0.5); }
    if LessEverywhere(baseline, candidate, Clears()) { LowerTotal(baseline, candidate, Clears()); }
    if LessEverywhere(baseline, candidate, Renewal()) { LowerTotal(baseline, candidate, Renewal()); }
  }
}
