/** 64-bit words as numbers below 2^64: exclusive or, shifts, wrap-around products. */
module Words {

  const M: nat := 0x1_0000_0000_0000_0000

  type Word = w: nat | w < M

  function Xor(a: nat, b: nat): nat {
    if a == 0 && b == 0 then 0 else 2 * Xor(a / 2, b / 2) + (a % 2 + b % 2) % 2
  }

  function Shr(v: nat, k: nat): nat
    decreases k, v
  {
    if k == 0 then v else Shr(v / 2, k - 1)
  }

  function Pow2(k: nat): (r: nat)
    ensures r > 0
  {
    if k == 0 then 1 else 2 * Pow2(k - 1)
  }

  lemma {:induction false} XorSelf(a: nat)
    ensures Xor(a, a) == 0
  {
    if a > 0 { XorSelf(a / 2); }
  }

  lemma {:induction false} XorZero(a: nat)
    ensures Xor(a, 0) == a && Xor(0, a) == a
  {
    if a > 0 { XorZero(a / 2); }
  }

  lemma {:induction false} XorCommutes(a: nat, b: nat)
    ensures Xor(a, b) == Xor(b, a)
  {
    if a > 0 || b > 0 { XorCommutes(a / 2, b / 2); }
  }

  lemma XorStep(a: nat, b: nat)
    ensures Xor(a, b) / 2 == Xor(a / 2, b / 2) && Xor(a, b) % 2 == (a % 2 + b % 2) % 2
  {}

  predicate Odd(n: nat) { n % 2 == 1 }

  lemma XorParity(a: nat, b: nat)
    ensures Odd(Xor(a, b)) <==> Odd(a) != Odd(b)
  {}

  lemma Halves(a: nat, b: nat)
    requires a / 2 == b / 2 && (Odd(a) <==> Odd(b))
    ensures a == b
  {}

  lemma {:induction false} XorAssociates(a: nat, b: nat, c: nat)
    ensures Xor(Xor(a, b), c) == Xor(a, Xor(b, c))
    decreases a + b + c
  {
    if a > 0 || b > 0 || c > 0 {
      XorAssociates(a / 2, b / 2, c / 2);
      XorHalves(a, b, c);
      XorParity(a, b);
      XorParity(b, c);
      XorParity(Xor(a, b), c);
      XorParity(a, Xor(b, c));
      Halves(Xor(Xor(a, b), c), Xor(a, Xor(b, c)));
    }
  }

  lemma XorHalves(a: nat, b: nat, c: nat)
    ensures Xor(Xor(a, b), c) / 2 == Xor(Xor(a / 2, b / 2), c / 2)
    ensures Xor(a, Xor(b, c)) / 2 == Xor(a / 2, Xor(b / 2, c / 2))
  {
    XorStep(a, b);
    XorStep(b, c);
    XorStep(Xor(a, b), c);
    XorStep(a, Xor(b, c));
  }

  lemma {:induction false} XorZeroIsEqual(a: nat, b: nat)
    requires Xor(a, b) == 0
    ensures a == b
  {
    if a > 0 || b > 0 {
      XorStep(a, b);
      XorZeroIsEqual(a / 2, b / 2);
    }
  }

  lemma {:induction false} XorBound(a: nat, b: nat, k: nat)
    requires a < Pow2(k) && b < Pow2(k)
    ensures Xor(a, b) < Pow2(k)
  {
    if k > 0 { XorBound(a / 2, b / 2, k - 1); }
  }

  lemma {:induction false} ShrXor(a: nat, b: nat, k: nat)
    ensures Shr(Xor(a, b), k) == Xor(Shr(a, k), Shr(b, k))
    decreases k
  {
    if k > 0 {
      XorStep(a, b);
      ShrXor(a / 2, b / 2, k - 1);
    }
  }

  lemma {:induction false} ShrSmaller(v: nat, k: nat)
    ensures Shr(v, k) <= v && (v > 0 && k > 0 ==> Shr(v, k) < v)
    decreases k
  {
    if k > 0 { ShrSmaller(v / 2, k - 1); }
  }

  lemma WordIsPow2()
    ensures Pow2(64) == M
  {
    assert Pow2(8) == 256;
    Pow2Adds(8, 8);
    Pow2Adds(16, 16);
    Pow2Adds(32, 32);
  }

  lemma {:induction false} Pow2Adds(a: nat, b: nat)
    ensures Pow2(a + b) == Pow2(a) * Pow2(b)
  {
    if a > 0 {
      Pow2Adds(a - 1, b);
      assert Pow2(a + b) == 2 * Pow2(a - 1 + b);
    }
  }

  /** `v ^ (v >> k)` */
  function XorShift(v: Word, k: nat): Word {
    ShrSmaller(v, k);
    WordIsPow2();
    XorBound(v, Shr(v, k), 64);
    Xor(v, Shr(v, k))
  }

  lemma {:induction false} ShrDivides(v: nat, k: nat)
    ensures Shr(v, k) == v / Pow2(k)
    decreases k
  {
    if k > 0 {
      ShrDivides(v / 2, k - 1);
      HalfThenRest(v, Pow2(k - 1));
    }
  }

  lemma HalfThenRest(v: nat, p: nat)
    requires p > 0
    ensures v / 2 / p == v / (2 * p)
  {
    var q := v / 2 / p;
    var r := v / 2 % p;
    assert v / 2 == p * q + r;
    assert v == 2 * p * q + (2 * r + v % 2);
    Quotient(v, 2 * p, q, 2 * r + v % 2);
  }

  lemma Quotient(v: nat, d: nat, q: nat, r: nat)
    requires d > 0 && r < d && v == d * q + r
    ensures v / d == q
  {
    if v / d < q {
      Scale(d, v / d + 1, q);
    } else if v / d > q {
      Scale(d, q + 1, v / d);
    }
  }

  lemma Scale(d: nat, m: nat, n: nat)
    requires m <= n
    ensures d * m <= d * n
  {}

  /** Exclusive or is bit by bit. */
  lemma {:induction false} XorBits(a: nat, b: nat, i: nat)
    ensures Odd(Shr(Xor(a, b), i)) <==> Odd(Shr(a, i)) != Odd(Shr(b, i))
  {
    ShrXor(a, b, i);
    XorParity(Shr(a, i), Shr(b, i));
  }

  /** What `v ^ (v >> k)` came from. */
  function Restore(w: nat, k: nat): nat
    requires k > 0
    decreases w
  {
    ShrSmaller(w, k);
    if w == 0 then 0 else Xor(w, Restore(Shr(w, k), k))
  }

  lemma {:induction false} RestoreUndoes(v: nat, k: nat)
    requires k > 0
    ensures Restore(Xor(v, Shr(v, k)), k) == v
    decreases v
  {
    var w := Xor(v, Shr(v, k));
    if v == 0 {
      assert w == 0 by { ShrSmaller(0, k); XorSelf(0); }
    } else {
      ShrSmaller(v, k);
      ShrXor(v, Shr(v, k), k);
      RestoreUndoes(Shr(v, k), k);
      if w == 0 { XorZeroIsEqual(v, Shr(v, k)); }
      XorAssociates(v, Shr(v, k), Shr(v, k));
      XorSelf(Shr(v, k));
      XorZero(v);
    }
  }

  lemma {:induction false} RestoreBound(w: nat, k: nat)
    requires k > 0 && w < M
    ensures Restore(w, k) < M
    decreases w
  {
    ShrSmaller(w, k);
    if w > 0 {
      RestoreBound(Shr(w, k), k);
      WordIsPow2();
      XorBound(w, Restore(Shr(w, k), k), 64);
    }
  }

  lemma XorSwap(a: nat, b: nat, c: nat, d: nat)
    ensures Xor(Xor(a, b), Xor(c, d)) == Xor(Xor(a, c), Xor(b, d))
  {
    XorAssociates(a, b, Xor(c, d));
    XorAssociates(b, c, d);
    XorCommutes(b, c);
    XorAssociates(c, b, d);
    XorAssociates(a, c, Xor(b, d));
  }

  /** Two words with the same `v ^ (v >> k)` differ by a word equal to its own
      shift, which is zero. */
  lemma XorShiftInjective(v: Word, w: Word, k: nat)
    requires k > 0 && XorShift(v, k) == XorShift(w, k)
    ensures v == w
  {
    var d := Xor(v, w);
    XorSelf(XorShift(v, k));
    XorSwap(v, Shr(v, k), w, Shr(w, k));
    ShrXor(v, w, k);
    XorZeroIsEqual(d, Shr(d, k));
    ShrSmaller(d, k);
    XorZeroIsEqual(v, w);
  }

  /** A map of [0, n) into itself that keeps elements apart reaches everything. */
  lemma InjectiveIsOnto(f: nat -> nat, n: nat, y: nat)
    requires forall x :: 0 <= x < n ==> f(x) < n
    requires forall x, x' :: 0 <= x < x' < n ==> f(x) != f(x')
    requires y < n
    ensures exists x: nat :: x < n && f(x) == y
  {
    var image := Image(f, n);
    var all := Below(n);
    assert image <= all;
    if y !in image {
      assert image <= all - {y};
      CardinalityBelow(image, all - {y});
      assert false;
    }
  }

  ghost function Below(n: nat): (s: set<nat>)
    ensures |s| == n && forall x :: x in s <==> 0 <= x < n
  {
    if n == 0 then {} else Below(n - 1) + {n - 1}
  }

  ghost function Image(f: nat -> nat, n: nat): (s: set<nat>)
    requires forall x, x' :: 0 <= x < x' < n ==> f(x) != f(x')
    ensures |s| == n && forall y :: y in s <==> exists x :: 0 <= x < n && f(x) == y
  {
    if n == 0 then {} else Image(f, n - 1) + {f(n - 1)}
  }

  lemma {:induction false} CardinalityBelow<T>(a: set<T>, b: set<T>)
    requires a <= b
    ensures |a| <= |b|
    decreases a
  {
    if a != {} {
      var x :| x in a;
      CardinalityBelow(a - {x}, b - {x});
    }
  }
}
