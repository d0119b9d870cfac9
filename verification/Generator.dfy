/** The splitmix generator, its rejection sampler and the random policy. */
module Generator {
  import opened Words

  const INCREMENT: nat := 0x9e3779b97f4a7c15
  const FACTOR1: nat := 0xbf58476d1ce4e5b9
  const FACTOR2: nat := 0x94d049bb133111eb

  /* The inverses of the factors modulo 2^64. */
  const INVERSE1: nat := 10871156337175269513
  const INVERSE2: nat := 3573116690164977347

  function Times(v: Word, factor: nat): Word {
    v * factor % M
  }

  /** The finalizer shared by `splitmix` and `RandomPolicy::next`. */
  function Finish(v: Word): Word {
    XorShift(Stage(Stage(v, 30, FACTOR1), 27, FACTOR2), 31)
  }

  function Stage(v: Word, shift: nat, factor: nat): Word {
    Times(XorShift(v, shift), factor)
  }

  /** The state after `n` draws, counted from `seed`. */
  function State(seed: Word, n: nat): Word {
    (seed + n * INCREMENT) % M
  }

  function SplitMix(v: Word): Word {
    Finish((v + INCREMENT) % M)
  }

  /** The `n`-th output of a generator seeded with `seed`. */
  function Output(seed: Word, n: nat): Word {
    Finish(State(seed, n))
  }

  /** An odd factor has an inverse, so the product determines the word. */
  lemma Undo(v: nat, factor: nat, inverse: nat, quotient: nat)
    requires factor * inverse == 1 + quotient * M
    ensures (v * factor % M) * inverse % M == v % M
  {
    var q := v * factor / M;
    var r := v * factor % M;
    calc {
      r * inverse;
      (v * factor - q * M) * inverse;
      v * (factor * inverse) - q * inverse * M;
      v * (1 + quotient * M) - q * inverse * M;
      v + (v * quotient - q * inverse) * M;
    }
    Wraps(r * inverse, v, v * quotient - q * inverse);
  }

  lemma Wraps(a: int, b: int, k: int)
    requires a == b + k * M
    ensures a % M == b % M
  {}

  lemma Inverses()
    ensures INCREMENT * 17428512612931826493 == 1 + 10771413168148108919 * M
    ensures FACTOR1 * INVERSE1 == 1 + 8125545580553827436 * M
    ensures FACTOR2 * INVERSE2 == 1 + 2077064247507883091 * M
  {}

  lemma TimesInjective(v: Word, w: Word, factor: nat, inverse: nat, quotient: nat)
    requires factor * inverse == 1 + quotient * M
    requires Times(v, factor) == Times(w, factor)
    ensures v == w
  {
    UndoTimes(v, factor, inverse, quotient);
    UndoTimes(w, factor, inverse, quotient);
  }

  lemma StageInjective(v: Word, w: Word, shift: nat, factor: nat, inverse: nat, quotient: nat)
    requires shift > 0 && factor * inverse == 1 + quotient * M
    requires Stage(v, shift, factor) == Stage(w, shift, factor)
    ensures v == w
  {
    TimesInjective(XorShift(v, shift), XorShift(w, shift), factor, inverse, quotient);
    XorShiftInjective(v, w, shift);
  }

  lemma FinishInjective(v: Word, w: Word)
    requires Finish(v) == Finish(w)
    ensures v == w
  {
    Inverses();
    var a, a' := Stage(v, 30, FACTOR1), Stage(w, 30, FACTOR1);
    XorShiftInjective(Stage(a, 27, FACTOR2), Stage(a', 27, FACTOR2), 31);
    StageInjective(a, a', 27, FACTOR2, INVERSE2, 2077064247507883091);
    StageInjective(v, w, 30, FACTOR1, INVERSE1, 8125545580553827436);
  }

  lemma SplitMixInjective(v: Word, w: Word)
    requires SplitMix(v) == SplitMix(w)
    ensures v == w
  {
    FinishInjective((v + INCREMENT) % M, (w + INCREMENT) % M);
    ShiftInjective(v, w);
  }

  lemma ShiftInjective(v: Word, w: Word)
    requires (v + INCREMENT) % M == (w + INCREMENT) % M
    ensures v == w
  {}

  function Widened(f: Word -> Word): nat -> nat {
    (v: nat) => if v < M then f(v) as nat else 0
  }

  /** A map of words to words that keeps them apart is a permutation. */
  lemma InjectivePermutes(f: Word -> Word, y: Word)
    requires forall v, w :: f(v) == f(w) ==> v == w
    ensures exists v :: f(v) == y
  {
    var g := Widened(f);
    forall x, x' | 0 <= x < x' < M ensures g(x) != g(x') {
      var v: Word, w: Word := x, x';
      assert f(v) == f(w) ==> v == w;
    }
    InjectiveIsOnto(g, M, y);
    var v: nat :| v < M && g(v) == y;
    assert f(v) == y;
  }

  /** `splitmix` is a permutation of the 64-bit words: every word is the image of
      exactly one word. */
  lemma SplitMixPermutes(y: Word)
    ensures exists v: Word :: SplitMix(v) == y
    ensures forall v: Word, w: Word :: SplitMix(v) == y && SplitMix(w) == y ==> v == w
  {
    forall v: Word, w: Word | SplitMix(v) == SplitMix(w) ensures v == w { SplitMixInjective(v, w); }
    InjectivePermutes(SplitMix, y);
  }

  /** The way back from an output word. */
  function Unfinish(w: Word): Word {
    RestoreBound(w, 31);
    var b := Times(Restore(w, 31), INVERSE2);
    RestoreBound(b, 27);
    var a := Times(Restore(b, 27), INVERSE1);
    RestoreBound(a, 30);
    Restore(a, 30)
  }

  lemma StageUndone(v: Word, shift: nat, factor: nat, inverse: nat, quotient: nat)
    requires shift > 0 && factor * inverse == 1 + quotient * M
    ensures Restore(Times(Stage(v, shift, factor), inverse), shift) == v
  {
    var x := XorShift(v, shift);
    UndoTimes(x, factor, inverse, quotient);
    RestoreUndoes(v, shift);
  }

  lemma UndoTimes(x: Word, factor: nat, inverse: nat, quotient: nat)
    requires factor * inverse == 1 + quotient * M
    ensures Times(Times(x, factor), inverse) == x
  {
    Undo(x, factor, inverse, quotient);
  }

  /** The finalizer undone, shift by shift and factor by factor. */
  lemma FinishUndone(v: Word)
    ensures Unfinish(Finish(v)) == v
  {
    Inverses();
    var a := Stage(v, 30, FACTOR1);
    var b := Stage(a, 27, FACTOR2);
    RestoreUndoes(b, 31);
    StageUndone(a, 27, FACTOR2, INVERSE2, 2077064247507883091);
    StageUndone(v, 30, FACTOR1, INVERSE1, 8125545580553827436);
  }

  /** And back again. */
  lemma UnfinishUndone(w: Word)
    ensures Finish(Unfinish(w)) == w
  {
    forall v, u: Word | Finish(v) == Finish(u) ensures v == u { FinishInjective(v, u); }
    InjectivePermutes(Finish, w);
    var v: Word :| Finish(v) == w;
    FinishUndone(v);
  }

  lemma Powers()
    ensures Pow2(27) == 0x8000000 && Pow2(30) == 0x40000000 && Pow2(31) == 0x80000000
  {
    assert Pow2(9) == 512;
    Pow2Adds(9, 9);
    Pow2Adds(18, 9);
    Pow2Adds(27, 3);
    Pow2Adds(30, 1);
  }

  /** The finalizer in terms of words: two rounds of a shifted exclusive or and a
      wrap-around product, and a last exclusive or. */
  lemma FinishIs(s: Word)
    ensures
      var a := Xor(s, s / 0x40000000) * 0xbf58476d1ce4e5b9 % 0x1_0000_0000_0000_0000;
      var b := Xor(a, a / 0x8000000) * 0x94d049bb133111eb % 0x1_0000_0000_0000_0000;
      Finish(s) == Xor(b, b / 0x80000000)
  {
    Powers();
    ShrDivides(s, 30);
    var a := Stage(s, 30, FACTOR1);
    ShrDivides(a, 27);
    var b := Stage(a, 27, FACTOR2);
    ShrDivides(b, 31);
  }

  /** `splitmix` in terms of words. */
  lemma SplitMixIs(state: Word)
    ensures
      var s := (state + 0x9e3779b97f4a7c15) % 0x1_0000_0000_0000_0000;
      var a := Xor(s, s / 0x40000000) * 0xbf58476d1ce4e5b9 % 0x1_0000_0000_0000_0000;
      var b := Xor(a, a / 0x8000000) * 0x94d049bb133111eb % 0x1_0000_0000_0000_0000;
      SplitMix(state) == Xor(b, b / 0x80000000)
  {
    FinishIs((state + INCREMENT) % M);
  }

  /** Any 2^64 consecutive outputs are pairwise distinct. */
  lemma OutputsDistinct(seed: Word, m: nat, n: nat)
    requires m < n < m + M
    ensures Output(seed, m) != Output(seed, n)
  {
    if Output(seed, m) == Output(seed, n) {
      FinishInjective(State(seed, m), State(seed, n));
      StatesDistinct(seed, m, n);
      assert false;
    }
  }

  lemma StatesDistinct(seed: Word, m: nat, n: nat)
    requires m < n < m + M
    ensures State(seed, m) != State(seed, n)
  {
    if State(seed, m) == State(seed, n) {
      Inverses();
      SameRemainder(seed + m * INCREMENT, seed + n * INCREMENT);
      var k := (n - m) * INCREMENT / M;
      assert (n - m) * INCREMENT == n * INCREMENT - m * INCREMENT;
      Undo(n - m, INCREMENT, 17428512612931826493, 10771413168148108919);
      assert false;
    }
  }

  lemma SameRemainder(a: nat, b: nat)
    requires a % M == b % M
    ensures (b - a) % M == 0
  {}

  /* RandomPolicy::bounded */

  /** `(0 - bound) % bound` in unsigned arithmetic. */
  function Threshold(bound: Word): (r: Word)
    requires bound > 0
    ensures r < bound
  {
    (M - bound) % M % bound
  }

  /** The accepted words number a multiple of `bound`. */
  lemma ThresholdDivides(bound: Word)
    requires bound > 0
    ensures (M - Threshold(bound)) % bound == 0
  {
    var rest := M - bound;
    assert Threshold(bound) == rest % bound;
    assert M - Threshold(bound) == bound * (rest / bound + 1);
    DivUnique(bound, rest / bound + 1, 0);
  }

  lemma DivUnique(b: nat, q: nat, r: nat)
    requires r < b
    ensures (b * q + r) / b == q && (b * q + r) % b == r
  {
    var x := b * q + r;
    var q', r' := x / b, x % b;
    assert b * q + r == b * q' + r';
    if q < q' {
      assert b * q' >= b * (q + 1) by { Monotone(b, q + 1, q'); }
    } else if q' < q {
      assert b * q >= b * (q' + 1) by { Monotone(b, q' + 1, q); }
    }
  }

  lemma Monotone(b: nat, m: nat, n: nat)
    requires m <= n
    ensures b * m <= b * n
  {}

  /** The words of [low, low + b * k) that leave remainder `r`. */
  ghost function Residues(low: nat, b: nat, k: nat, r: nat): (s: set<nat>)
    requires r < b
    ensures forall w :: w in s <==> low <= w < low + b * k && w % b == r
    ensures |s| == k
    decreases k
  {
    if k == 0 then {}
    else
      var top := low + b * (k - 1);
      var hit := top + (r + b - top % b) % b;
      HitIsOnly(top, b, r, hit);
      assert top + b == low + b * k;
      assert hit !in Residues(low, b, k - 1, r);
      Residues(low, b, k - 1, r) + {hit}
  }

  lemma Offset(t: nat, r: nat, b: nat)
    requires t < b && r < b
    ensures (r + b - t) % b == if t <= r then r - t else r + b - t
  {
    if t <= r {
      DivUnique(b, 1, r - t);
    } else {
      DivUnique(b, 0, r + b - t);
    }
  }

  lemma HitIff(top: nat, b: nat, r: nat, w: nat)
    requires r < b && top <= w < top + b
    ensures w % b == r <==> w == top + (r + b - top % b) % b
  {
    var t := top % b;
    Offset(t, r, b);
    StretchResidue(top, b, w);
    assert (w % b == r) <==> if t + (w - top) < b then t + (w - top) == r else t + (w - top) - b == r;
  }

  /** Each stretch of `b` words holds one word of each residue. */
  lemma HitIsOnly(top: nat, b: nat, r: nat, hit: nat)
    requires r < b && hit == top + (r + b - top % b) % b
    ensures forall w :: top <= w < top + b && w % b == r <==> w == hit
  {
    forall w | top <= w < top + b ensures w % b == r <==> w == hit { HitIff(top, b, r, w); }
    assert top <= hit < top + b;
  }

  lemma StretchResidue(top: nat, b: nat, w: nat)
    requires b > 0 && top <= w < top + b
    ensures w % b == if top % b + (w - top) < b then top % b + (w - top) else top % b + (w - top) - b
  {
    var q := top / b;
    if top % b + (w - top) < b {
      assert w == b * q + (top % b + (w - top));
      DivUnique(b, q, top % b + (w - top));
    } else {
      assert w == b * (q + 1) + (top % b + (w - top) - b);
      DivUnique(b, q + 1, top % b + (w - top) - b);
    }
  }

  /** Exactness: every residue is left by equally many accepted words. */
  lemma RejectionIsExact(bound: Word, r: nat)
    requires 0 < bound && r < bound
    ensures exists s: set<nat> ::
      && (forall w :: w in s <==> Threshold(bound) <= w < M && w % bound == r)
      && |s| == (M - Threshold(bound)) / bound
  {
    ThresholdDivides(bound);
    var k := (M - Threshold(bound)) / bound;
    assert bound * k == M - Threshold(bound);
    var s := Residues(Threshold(bound), bound, k, r);
    assert |s| == k;
  }

  lemma DistinctBelow(f: nat -> nat, n: nat, threshold: nat)
    requires forall x, x' :: 0 <= x < x' < n ==> f(x) != f(x')
    requires forall x :: 0 <= x < n ==> f(x) < threshold
    ensures n <= threshold
  {
    var image := Image(f, n);
    assert image <= Below(threshold);
    CardinalityBelow(image, Below(threshold));
  }

  /** The draw after the first `n`. */
  function Drawn(seed: Word, n: nat): nat {
    Output(seed, n + 1)
  }

  function Draws(seed: Word): nat -> nat {
    (n: nat) => Drawn(seed, n)
  }

  lemma DrawsDistinct(seed: Word, x: nat, x': nat)
    requires x < x' < x + M
    ensures Drawn(seed, x) != Drawn(seed, x')
  {
    OutputsDistinct(seed, x + 1, x' + 1);
  }

  /** Distinct draws below the threshold are at most as many as the threshold. */
  lemma RejectionsBounded(seed: Word, n: nat, threshold: Word)
    requires n <= M
    requires forall i :: 0 <= i < n ==> Drawn(seed, i) < threshold
    ensures n <= threshold
  {
    forall x, x' | 0 <= x < x' < n ensures Draws(seed)(x) != Draws(seed)(x') { DrawsDistinct(seed, x, x'); }
    DistinctBelow(Draws(seed), n, threshold);
  }

  lemma StateAdds(seed: Word, m: nat, n: nat)
    ensures State(State(seed, m), n) == State(seed, m + n)
  {
    var a := seed + m * INCREMENT;
    Wraps(a % M + n * INCREMENT, a + n * INCREMENT, -(a / M));
    assert seed + (m + n) * INCREMENT == a + n * INCREMENT;
  }

  lemma OutputAdds(seed: Word, m: nat, n: nat)
    ensures Output(State(seed, m), n) == Output(seed, m + n)
  {
    StateAdds(seed, m, n);
  }

  datatype Kind = Wait | WeakShot | StrongShot

  /** Coordinates are used for shots only. */
  datatype Action = Action(kind: Kind, x: real, y: real)

  /** `unit()` is exact: 53 bits divided by 2^53. */
  function Unit(word: Word): (u: real)
    ensures 0.0 <= u < 1.0
  {
    (word / 2048) as real / 9007199254740992.0
  }

  /** It is the top 53 bits `k` of the word as a fraction, never more than the word over
      2^64 and less than 2^-53 below it. */
  lemma UnitExact(word: Word, k: nat)
    requires 2048 * k <= word < 2048 * k + 2048
    ensures Unit(word) * 9007199254740992.0 == k as real
  {
    Quotient(word, 2048, k, word - 2048 * k);
  }

  class RandomPolicy {
    var state: Word

    constructor (seed: Word)
      ensures state == seed
    {
      state := seed;
    }

    method Reset(seed: Word)
      modifies this
      ensures state == seed
    {
      state := seed;
    }

    method Next() returns (value: Word)
      modifies this
      ensures state == (old(state) + 0x9e3779b97f4a7c15) % 0x1_0000_0000_0000_0000
      ensures
        var a := Xor(state, state / 0x40000000) * 0xbf58476d1ce4e5b9 % 0x1_0000_0000_0000_0000;
        var b := Xor(a, a / 0x8000000) * 0x94d049bb133111eb % 0x1_0000_0000_0000_0000;
        value == Xor(b, b / 0x80000000)
      ensures state == State(old(state), 1) && value == Output(old(state), 1)
    {
      state := (state + INCREMENT) % M;
      value := Finish(state);
      FinishIs(state);
    }

    /** `next`, as the draw after the first `n` of a run that began at `seed`. */
    method Draw(ghost seed: Word, ghost n: nat) returns (value: Word)
      requires state == State(seed, n)
      modifies this
      ensures state == State(seed, n + 1) && value == Drawn(seed, n)
    {
      StateAdds(seed, n, 1);
      OutputAdds(seed, n, 1);
      value := Next();
    }

    /** The first accepted draw, reduced.  It comes within `threshold + 1` draws,
        whatever the state. */
    method Bounded(bound: Word) returns (value: Word, ghost draws: nat)
      requires bound > 0
      modifies this
      ensures 1 <= draws <= Threshold(bound) + 1 <= bound
      ensures state == State(old(state), draws)
      ensures forall i :: 0 <= i < draws - 1 ==> Drawn(old(state), i) < Threshold(bound)
      ensures Drawn(old(state), draws - 1) >= Threshold(bound)
      ensures value == Drawn(old(state), draws - 1) % bound
    {
      var threshold := Threshold(bound);
      var word;
      word, draws := Accepted(threshold);
      value := word % bound;
    }

    /** Draws until one reaches the threshold. */
    method Accepted(threshold: Word) returns (word: Word, ghost draws: nat)
      modifies this
      ensures 1 <= draws <= threshold + 1
      ensures state == State(old(state), draws)
      ensures forall i :: 0 <= i < draws - 1 ==> Drawn(old(state), i) < threshold
      ensures word as nat == Drawn(old(state), draws - 1) >= threshold
    {
      ghost var seed := state;
      draws := 0;
      assert State(seed, 0) == seed;
      while true
        invariant draws <= threshold && state == State(seed, draws)
        invariant forall i :: 0 <= i < draws ==> Drawn(seed, i) < threshold
        decreases threshold - draws
      {
        word := Draw(seed, draws);
        draws := draws + 1;
        if word >= threshold { return; }
        RejectionsBounded(seed, draws, threshold);
      }
    }

    /** One action: two draws for a wait, four for a shot. */
    method Act() returns (action: Action)
      modifies this
      ensures action.kind == Wait <==> Unit(Output(old(state), 1)) >= 0.25
      ensures state == State(old(state), if action.kind == Wait then 2 else 4)
      ensures action.kind != Wait ==>
        && (action.kind == StrongShot <==> Unit(Output(old(state), 2)) < 0.5)
        && action.x == 94.0 + Unit(Output(old(state), 3)) * 420.0 && 94.0 <= action.x < 514.0
        && action.y == 260.0 + Unit(Output(old(state), 4)) * 120.0 && 260.0 <= action.y < 380.0
    {
      ghost var seed := state;
      assert State(seed, 0) == seed;
      var word := Draw(seed, 0);
      if Unit(word) < 0.25 {
        action := Shot(seed);
      } else {
        StateAdds(seed, 1, 1);
        var ignored, _ := Bounded(1);
        action := Action(Wait, 0.0, 0.0);
      }
    }

    /** The strength and the place of a shot, after the first draw. */
    method Shot(ghost seed: Word) returns (action: Action)
      requires state == State(seed, 1)
      modifies this
      ensures state == State(seed, 4)
      ensures action.kind == if Unit(Output(seed, 2)) < 0.5 then StrongShot else WeakShot
      ensures action.x == 94.0 + Unit(Output(seed, 3)) * 420.0
      ensures action.y == 260.0 + Unit(Output(seed, 4)) * 120.0
    {
      var strength := Draw(seed, 1);
      var across := Draw(seed, 2);
      var down := Draw(seed, 3);
      action := Action(
        if Unit(strength) < 0.5 then StrongShot else WeakShot,
        94.0 + Unit(across) * 420.0,
        260.0 + Unit(down) * 120.0);
    }

    /** The decisions of one episode: the state depends on their kinds only. */
    method Play(decisions: nat) returns (waits: nat, shots: nat)
      modifies this
      ensures waits + shots == decisions
      ensures state == State(old(state), 2 * waits + 4 * shots)
    {
      ghost var seed := state;
      waits, shots := 0, 0;
      assert State(seed, 0) == seed;
      for i := 0 to decisions
        invariant waits + shots == i && state == State(seed, 2 * waits + 4 * shots)
      {
        var action := Act();
        StateAdds(seed, 2 * waits + 4 * shots, if action.kind == Wait then 2 else 4);
        if action.kind == Wait { waits := waits + 1; } else { shots := shots + 1; }
      }
    }
  }
}
