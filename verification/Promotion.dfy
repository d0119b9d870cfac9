/** The promotion gate of the joint planner. */
module Promotion {
  import opened Statistics

  datatype Metrics = Metrics(
    seed: nat, horizon: nat, survival: nat, score: int, finalGauge: int, terminated: bool,
    clears: int, renewal: int, invalid: nat)
  {
    predicate GaugeFailure() { terminated && finalGauge <= 1 }
  }

  type Suite = seq<Metrics>

  function Sum(s: Suite, f: Metrics -> int): int {
    if s == [] then 0 else f(s[0]) + Sum(s[1..], f)
  }

  function Values(s: Suite, f: Metrics -> int): (r: seq<int>)
    ensures |r| == |s| && forall i :: 0 <= i < |s| ==> r[i] == f(s[i])
  {
    seq(|s|, i requires 0 <= i < |s| => f(s[i]))
  }

  function Failures(s: Suite): int { Sum(s, (m: Metrics) => if m.GaugeFailure() then 1 else 0) }
  function Survival(): Metrics -> int { (m: Metrics) => m.survival as int }
  function Score(): Metrics -> int { (m: Metrics) => m.score }

  /** `{value.seed: value for value in suite}`: the last one wins. */
  function BySeed(s: Suite): map<nat, Metrics> {
    if s == [] then map[] else BySeed(s[..|s| - 1])[s[|s| - 1].seed := s[|s| - 1]]
  }

  function Max(a: int, b: int): int { if a > b then a else b }

  /** `promotion_catastrophic_tail_regression` of one pair. */
  predicate Catastrophe(first: Metrics, second: Metrics) {
    var delta := second.survival - first.survival;
    || (first.survival >= 2000 && delta <= -Max(2000, first.survival / 4))
    || (first.survival >= 2000 && second.survival * 2 < first.survival)
    || (first.survival >= first.horizon && second.survival < second.horizon)
    || (second.GaugeFailure() && !first.GaugeFailure())
  }

  /** The seeds whose pair is a catastrophe, if the two suites pair up. */
  function Catastrophes(baseline: Suite, candidate: Suite): set<nat>
    requires BySeed(baseline).Keys == BySeed(candidate).Keys
  {
    set seed <- BySeed(baseline) | Catastrophe(BySeed(baseline)[seed], BySeed(candidate)[seed])
  }

  datatype Verdict = Rejected | Verdict(passed: bool, safe: bool, noninferior: bool)

  function NoninferiorChecks(baseline: Suite, candidate: Suite): seq<bool>
    requires baseline != [] && candidate != []
  {
    [ Failures(candidate) <= Failures(baseline),
      Percentile(Values(candidate, Survival()), 0.1) >= Percentile(Values(baseline, Survival()), 0.1),
      Percentile(Values(candidate, Survival()), 0.5) >= Percentile(Values(baseline, Survival()), 0.5),
      Percentile(Values(candidate, Score()), 0.1) >= Percentile(Values(baseline, Score()), 0.1),
      Percentile(Values(candidate, Score()), 0.5) >= Percentile(Values(baseline, Score()), 0.5),
      Sum(candidate, (m: Metrics) => m.clears) >= Sum(baseline, (m: Metrics) => m.clears),
      Sum(candidate, (m: Metrics) => m.renewal) >= Sum(baseline, (m: Metrics) => m.renewal) ]
  }

  /** `_paired` and `_promotion_gate`.  Suites over different seeds, and empty
      suites, raise. */
  function Gate(baseline: Suite, candidate: Suite, selection: bool): Verdict {
    if BySeed(baseline).Keys != BySeed(candidate).Keys || baseline == [] || candidate == [] then Rejected
    else
      var safe := Catastrophes(baseline, candidate) == {} && Sum(candidate, (m: Metrics) => m.invalid as int) == 0;
      var noninferior := false !in NoninferiorChecks(baseline, candidate);
      Verdict(selection && safe && noninferior, safe, noninferior)
  }

  /** Each suite plays each seed once, and both the same seeds, in any order. */
  ghost predicate PairedSuites(baseline: Suite, candidate: Suite) {
    && (forall i, j :: 0 <= i < j < |baseline| ==> baseline[i].seed != baseline[j].seed)
    && (forall i, j :: 0 <= i < j < |candidate| ==> candidate[i].seed != candidate[j].seed)
    && (forall seed :: Plays(baseline, seed) <==> Plays(candidate, seed))
  }

  ghost predicate Plays(s: Suite, seed: nat) {
    exists i :: 0 <= i < |s| && s[i].seed == seed
  }

  /** Seed by seed, the candidate is at least as good and makes no new mistake. */
  ghost predicate NoWorse(first: Metrics, second: Metrics) {
    && second.horizon == first.horizon
    && second.survival >= first.survival && second.score >= first.score
    && second.clears >= first.clears && second.renewal >= first.renewal
    && (second.GaugeFailure() ==> first.GaugeFailure())
    && second.invalid == 0
  }

  ghost predicate NoWorseEverywhere(baseline: Suite, candidate: Suite) {
    forall i, j :: 0 <= i < |baseline| && 0 <= j < |candidate| && baseline[i].seed == candidate[j].seed ==>
      NoWorse(baseline[i], candidate[j])
  }

  function Without(s: Suite, j: nat): Suite
    requires j < |s|
  {
    s[..j] + s[j + 1..]
  }

  lemma {:induction false} SumWithout(s: Suite, j: nat, f: Metrics -> int)
    requires j < |s|
    ensures Sum(s, f) == f(s[j]) + Sum(Without(s, j), f)
  {
    if j == 0 {
      assert Without(s, 0) == s[1..];
    } else {
      SumWithout(s[1..], j - 1, f);
      assert Without(s, j)[1..] == Without(s[1..], j - 1);
    }
  }

  /** Taking a seed out of both suites leaves them paired. */
  lemma PairedWithout(baseline: Suite, candidate: Suite, j: nat)
    requires PairedSuites(baseline, candidate) && baseline != [] && j < |candidate|
      && candidate[j].seed == baseline[0].seed
    ensures PairedSuites(baseline[1..], Without(candidate, j))
  {
    var rest := Without(candidate, j);
    assert forall k :: 0 <= k < |rest| ==> rest[k] == candidate[if k < j then k else k + 1];
    forall seed ensures Plays(baseline[1..], seed) <==> Plays(rest, seed) {
      if Plays(baseline[1..], seed) {
        var i :| 0 <= i < |baseline[1..]| && baseline[1..][i].seed == seed;
        assert baseline[i + 1].seed == seed;
        assert Plays(baseline, seed);
        var k :| 0 <= k < |candidate| && candidate[k].seed == seed;
        assert rest[if k < j then k else k - 1].seed == seed;
      }
      if Plays(rest, seed) {
        var k :| 0 <= k < |rest| && rest[k].seed == seed;
        assert candidate[if k < j then k else k + 1].seed == seed;
        assert Plays(candidate, seed);
        var i :| 0 <= i < |baseline| && baseline[i].seed == seed;
        assert i > 0;
        assert baseline[1..][i - 1].seed == seed;
      }
    }
  }

  /** A quantity no smaller seed by seed has no smaller a total, whatever the two
      orders. */
  lemma {:induction false} SumDominates(baseline: Suite, candidate: Suite, f: Metrics -> int, g: Metrics -> int)
    requires PairedSuites(baseline, candidate)
    requires forall i, j :: 0 <= i < |baseline| && 0 <= j < |candidate| && baseline[i].seed == candidate[j].seed ==>
      f(baseline[i]) <= g(candidate[j])
    ensures Sum(baseline, f) <= Sum(candidate, g) && |baseline| == |candidate|
    decreases |baseline|
  {
    if baseline == [] {
      if candidate != [] {
        assert Plays(candidate, candidate[0].seed);
        assert false;
      }
    } else {
      assert Plays(baseline, baseline[0].seed);
      var j :| 0 <= j < |candidate| && candidate[j].seed == baseline[0].seed;
      PairedWithout(baseline, candidate, j);
      var rest := Without(candidate, j);
      assert forall k :: 0 <= k < |rest| ==> rest[k] == candidate[if k < j then k else k + 1];
      SumDominates(baseline[1..], rest, f, g);
      SumWithout(candidate, j, g);
    }
  }

  function Counter(f: Metrics -> int, x: int): Metrics -> int {
    (m: Metrics) => if f(m) <= x then -1 else 0
  }

  lemma {:induction false} AtMostIsSum(s: Suite, f: Metrics -> int, x: int)
    ensures AtMost(Values(s, f), x) == -Sum(s, Counter(f, x))
  {
    if s != [] {
      AtMostIsSum(s[1..], f, x);
      assert Values(s, f)[1..] == Values(s[1..], f);
    }
  }

  /** The values of a quantity no smaller seed by seed dominate. */
  lemma ValuesDominate(baseline: Suite, candidate: Suite, f: Metrics -> int)
    requires PairedSuites(baseline, candidate)
    requires forall i, j :: 0 <= i < |baseline| && 0 <= j < |candidate| && baseline[i].seed == candidate[j].seed ==>
      f(baseline[i]) <= f(candidate[j])
    ensures Dominates(Values(candidate, f), Values(baseline, f))
  {
    SumDominates(baseline, candidate, f, f);
    forall x ensures AtMost(Values(candidate, f), x) <= AtMost(Values(baseline, f), x) {
      SumDominates(baseline, candidate, Counter(f, x), Counter(f, x));
      AtMostIsSum(baseline, f, x);
      AtMostIsSum(candidate, f, x);
    }
  }

  lemma {:induction false} BySeedPlays(s: Suite)
    ensures forall seed :: seed in BySeed(s) <==> Plays(s, seed)
    ensures forall seed :: seed in BySeed(s) ==> BySeed(s)[seed] in s && BySeed(s)[seed].seed == seed
  {
    if s != [] {
      var most := s[..|s| - 1];
      BySeedPlays(most);
      forall seed ensures seed in BySeed(s) <==> Plays(s, seed) {
        if Plays(s, seed) {
          var i :| 0 <= i < |s| && s[i].seed == seed;
          if i < |most| { assert most[i].seed == seed; }
        }
        if Plays(most, seed) {
          var i :| 0 <= i < |most| && most[i].seed == seed;
          assert s[i].seed == seed;
        }
        assert s[|s| - 1].seed == seed ==> Plays(s, seed);
      }
    }
  }

  lemma NoCatastrophes(baseline: Suite, candidate: Suite)
    requires PairedSuites(baseline, candidate) && NoWorseEverywhere(baseline, candidate)
    ensures BySeed(baseline).Keys == BySeed(candidate).Keys
    ensures Catastrophes(baseline, candidate) == {}
  {
    BySeedPlays(baseline);
    BySeedPlays(candidate);
    forall seed | seed in BySeed(baseline) ensures !Catastrophe(BySeed(baseline)[seed], BySeed(candidate)[seed]) {
      var first, second := BySeed(baseline)[seed], BySeed(candidate)[seed];
      assert NoWorse(first, second);
    }
  }

  lemma {:induction false} NothingInvalid(s: Suite)
    requires forall m <- s :: m.invalid == 0
    ensures Sum(s, (m: Metrics) => m.invalid as int) == 0
  {
    if s != [] { NothingInvalid(s[1..]); }
  }

  /** Pointwise no worse implies promotion: on a selection suite a candidate that
      is no worse seed by seed passes every check, in whatever order either suite
      was played. */
  lemma NoWorseIsPromoted(baseline: Suite, candidate: Suite)
    requires PairedSuites(baseline, candidate) && baseline != []
    requires NoWorseEverywhere(baseline, candidate)
    ensures Gate(baseline, candidate, true) == Verdict(true, true, true)
  {
    NoCatastrophes(baseline, candidate);
    SumDominates(baseline, candidate, Survival(), Survival());
    forall m <- candidate ensures m.invalid == 0 {
      var j :| 0 <= j < |candidate| && candidate[j] == m;
      assert Plays(candidate, m.seed);
      var i :| 0 <= i < |baseline| && baseline[i].seed == m.seed;
      assert NoWorse(baseline[i], candidate[j]);
    }
    NothingInvalid(candidate);
    ChecksPass(baseline, candidate);
  }

  lemma ChecksPass(baseline: Suite, candidate: Suite)
    requires PairedSuites(baseline, candidate) && baseline != [] && candidate != []
    requires NoWorseEverywhere(baseline, candidate)
    ensures false !in NoninferiorChecks(baseline, candidate)
  {
    var failed := (m: Metrics) => if m.GaugeFailure() then 1 else 0;
    var spared := (m: Metrics) => if m.GaugeFailure() then -1 else 0;
    SumDominates(baseline, candidate, spared, spared);
    SumNegates(baseline, failed, spared);
    SumNegates(candidate, failed, spared);
    SumDominates(baseline, candidate, (m: Metrics) => m.clears, (m: Metrics) => m.clears);
    SumDominates(baseline, candidate, (m: Metrics) => m.renewal, (m: Metrics) => m.renewal);
    ValuesDominate(baseline, candidate, Survival());
    ValuesDominate(baseline, candidate, Score());
    PercentileMonotone(Values(baseline, Survival()), Values(candidate, Survival()), 0.1);
    PercentileMonotone(Values(baseline, Survival()), Values(candidate, Survival()), 0.5);
    PercentileMonotone(Values(baseline, Score()), Values(candidate, Score()), 0.1);
    PercentileMonotone(Values(baseline, Score()), Values(candidate, Score()), 0.5);
  }

  lemma {:induction false} SumNegates(s: Suite, f: Metrics -> int, g: Metrics -> int)
    requires forall m :: g(m) == -f(m)
    ensures Sum(s, g) == -Sum(s, f)
  {
    if s != [] { SumNegates(s[1..], f, g); }
  }

  lemma PairIsBySeed(baseline: Suite, candidate: Suite, i: nat, j: nat)
    requires PairedSuites(baseline, candidate) && i < |baseline| && j < |candidate|
      && baseline[i].seed == candidate[j].seed
    ensures baseline[i].seed in BySeed(baseline) && BySeed(baseline)[baseline[i].seed] == baseline[i]
    ensures candidate[j].seed in BySeed(candidate) && BySeed(candidate)[candidate[j].seed] == candidate[j]
  {
    BySeedPlays(baseline);
    BySeedPlays(candidate);
    assert Plays(baseline, baseline[i].seed) && Plays(candidate, candidate[j].seed);
  }

  /** What promotion guarantees of every single seed, not only on average. */
  lemma PromotedIsSafe(baseline: Suite, candidate: Suite, selection: bool, i: nat, j: nat)
    requires PairedSuites(baseline, candidate) && i < |baseline| && j < |candidate|
      && baseline[i].seed == candidate[j].seed
    requires Gate(baseline, candidate, selection).Verdict? && Gate(baseline, candidate, selection).passed
    ensures selection && !Catastrophe(baseline[i], candidate[j]) && candidate[j].invalid == 0
  {
    PairIsBySeed(baseline, candidate, i, j);
    assert baseline[i].seed !in Catastrophes(baseline, candidate);
    InvalidCounted(candidate, j);
  }

  lemma {:induction false} InvalidCounted(s: Suite, j: nat)
    requires j < |s|
    ensures 0 <= s[j].invalid as int <= Sum(s, (m: Metrics) => m.invalid as int)
  {
    InvalidNonnegative(s[1..]);
    if j > 0 { InvalidCounted(s[1..], j - 1); }
  }

  lemma {:induction false} InvalidNonnegative(s: Suite)
    ensures Sum(s, (m: Metrics) => m.invalid as int) >= 0
  {
    if s != [] { InvalidNonnegative(s[1..]); }
  }
}
