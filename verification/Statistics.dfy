/** Order statistics: sorting, interpolated percentiles, and how both respect
    dominance. */
module Statistics {

  ghost predicate Sorted(s: seq<int>) {
    forall i, j :: 0 <= i < j < |s| ==> s[i] <= s[j]
  }

  function Insert(x: int, s: seq<int>): (r: seq<int>)
    ensures |r| == |s| + 1
  {
    if s == [] || x <= s[0] then [x] + s else [s[0]] + Insert(x, s[1..])
  }

  /** `sorted(values)` */
  function Sort(s: seq<int>): (r: seq<int>)
    ensures |r| == |s|
  {
    if s == [] then [] else Insert(s[0], Sort(s[1..]))
  }

  lemma {:induction false} InsertSorts(x: int, s: seq<int>)
    requires Sorted(s)
    ensures Sorted(Insert(x, s)) && Insert(x, s)[0] == if s == [] || x <= s[0] then x else s[0]
  {
    if s != [] && x > s[0] { InsertSorts(x, s[1..]); }
  }

  lemma {:induction false} InsertKeeps(x: int, s: seq<int>)
    ensures multiset(Insert(x, s)) == multiset(s) + multiset{x}
  {
    if s != [] && x > s[0] {
      InsertKeeps(x, s[1..]);
      assert s == [s[0]] + s[1..];
    }
  }

  /** Sorting sorts and loses nothing. */
  lemma {:induction false} SortSorts(s: seq<int>)
    ensures Sorted(Sort(s)) && multiset(Sort(s)) == multiset(s)
  {
    if s != [] {
      SortSorts(s[1..]);
      InsertSorts(s[0], Sort(s[1..]));
      InsertKeeps(s[0], Sort(s[1..]));
      assert s == [s[0]] + s[1..];
    }
  }

  /** How many values are at most `x`. */
  function AtMost(s: seq<int>, x: int): nat {
    if s == [] then 0 else (if s[0] <= x then 1 else 0) + AtMost(s[1..], x)
  }

  lemma {:induction false} InsertAtMost(y: int, s: seq<int>, x: int)
    ensures AtMost(Insert(y, s), x) == AtMost([y] + s, x)
  {
    assert ([y] + s)[1..] == s;
    if s != [] && y > s[0] {
      InsertAtMost(y, s[1..], x);
      assert ([y] + s[1..])[1..] == s[1..];
      assert Insert(y, s)[1..] == Insert(y, s[1..]);
    }
  }

  lemma {:induction false} SortAtMost(s: seq<int>, x: int)
    ensures AtMost(Sort(s), x) == AtMost(s, x)
  {
    if s != [] {
      SortAtMost(s[1..], x);
      InsertAtMost(s[0], Sort(s[1..]), x);
      assert ([s[0]] + Sort(s[1..]))[1..] == Sort(s[1..]);
    }
  }

  /** In a sorted sequence the values at most `x` are exactly the first ones. */
  lemma {:induction false} SortedAtMost(s: seq<int>, x: int, i: nat)
    requires Sorted(s) && i < |s|
    ensures s[i] <= x <==> i < AtMost(s, x)
  {
    if i == 0 {
      if s[0] > x { NoneAtMost(s, x); }
    } else {
      SortedAtMost(s[1..], x, i - 1);
      if s[0] > x { NoneAtMost(s, x); }
    }
  }

  lemma {:induction false} NoneAtMost(s: seq<int>, x: int)
    requires forall i :: 0 <= i < |s| ==> s[i] > x
    ensures AtMost(s, x) == 0
  {
    if s != [] { NoneAtMost(s[1..], x); }
  }

  /** `b` dominates `a` when, for every bound, fewer of its values are at most it. */
  ghost predicate Dominates(b: seq<int>, a: seq<int>) {
    |a| == |b| && forall x :: AtMost(b, x) <= AtMost(a, x)
  }

  /** Dominance carries to the sorted sequences, place by place. */
  lemma SortMonotone(a: seq<int>, b: seq<int>, i: nat)
    requires Dominates(b, a) && i < |a|
    ensures Sort(a)[i] <= Sort(b)[i]
  {
    SortSorts(a);
    SortSorts(b);
    var x := Sort(b)[i];
    SortedAtMost(Sort(b), x, i);
    SortAtMost(a, x);
    SortAtMost(b, x);
    SortedAtMost(Sort(a), x, i);
  }

  function Ceiling(r: real): int {
    -(-r).Floor
  }

  /** Where an order statistic of `n + 1` values falls. */
  function Position(n: nat, fraction: real): (p: real)
    requires 0.0 <= fraction <= 1.0
    ensures 0.0 <= p <= n as real
  {
    assert n as real * fraction <= n as real * 1.0;
    n as real * fraction
  }

  function Mix(a: real, b: real, w: real): real {
    a * (1.0 - w) + b * w
  }

  /** The interpolated order statistic of a sorted sequence. */
  function Interpolate(ordered: seq<int>, fraction: real): real
    requires ordered != [] && 0.0 <= fraction <= 1.0
  {
    At(ordered, Position(|ordered| - 1, fraction))
  }

  function At(ordered: seq<int>, position: real): real
    requires 0.0 <= position <= (|ordered| - 1) as real
  {
    var lower, upper := position.Floor, Ceiling(position);
    if lower == upper then ordered[lower] as real
    else Mix(ordered[lower] as real, ordered[upper] as real, position - lower as real)
  }

  function Percentile(values: seq<int>, fraction: real): real
    requires values != [] && 0.0 <= fraction <= 1.0
  {
    Interpolate(Sort(values), fraction)
  }

  /** An interpolated percentile lies between the order statistics around it. */
  lemma AtBounds(ordered: seq<int>, position: real)
    requires Sorted(ordered) && 0.0 <= position <= (|ordered| - 1) as real
    ensures ordered[position.Floor] as real <= At(ordered, position) <= ordered[Ceiling(position)] as real
  {
    var lower, upper := position.Floor, Ceiling(position);
    if lower != upper { MixBounds(ordered[lower] as real, ordered[upper] as real, position - lower as real); }
  }

  lemma Spread(x: real, y: real, w: real)
    ensures (x - y) * w == x * w - y * w
  {}

  lemma Product(x: real, y: real)
    requires x >= 0.0 && y >= 0.0
    ensures x * y >= 0.0
  {}

  lemma MixMonotone(a: real, b: real, c: real, d: real, w: real)
    requires a <= c && b <= d && 0.0 <= w <= 1.0
    ensures Mix(a, b, w) <= Mix(c, d, w)
  {
    var v := 1.0 - w;
    Spread(c, a, v);
    Spread(d, b, w);
    Product(c - a, v);
    Product(d - b, w);
  }

  lemma MixSame(a: real, w: real)
    ensures Mix(a, a, w) == a
  {
    assert a * (1.0 - w) == a - a * w;
  }

  lemma MixBounds(a: real, b: real, w: real)
    requires a <= b && 0.0 <= w <= 1.0
    ensures a <= Mix(a, b, w) <= b
  {
    MixSame(a, w);
    MixSame(b, w);
    MixMonotone(a, a, a, b, w);
    MixMonotone(a, b, b, b, w);
  }

  lemma AtMonotone(a: seq<int>, b: seq<int>, position: real)
    requires |a| == |b| && 0.0 <= position <= (|a| - 1) as real
    requires forall i :: 0 <= i < |a| ==> a[i] <= b[i]
    ensures At(a, position) <= At(b, position)
  {
    var lower, upper := position.Floor, Ceiling(position);
    if lower != upper {
      MixMonotone(a[lower] as real, a[upper] as real, b[lower] as real, b[upper] as real, position - lower as real);
    }
  }

  /** Every interpolated percentile of a dominating sequence is at least as high. */
  lemma PercentileMonotone(a: seq<int>, b: seq<int>, fraction: real)
    requires a != [] && Dominates(b, a) && 0.0 <= fraction <= 1.0
    ensures Percentile(a, fraction) <= Percentile(b, fraction)
  {
    forall i | 0 <= i < |a| ensures Sort(a)[i] <= Sort(b)[i] { SortMonotone(a, b, i); }
    AtMonotone(Sort(a), Sort(b), Position(|a| - 1, fraction));
  }

  /** There is one way to sort. */
  lemma {:induction false} SortedOnce(a: seq<int>, b: seq<int>)
    requires Sorted(a) && Sorted(b) && multiset(a) == multiset(b)
    ensures a == b
  {
    if a == [] {
      assert |multiset(b)| == 0;
    } else {
      assert |multiset(a)| == |multiset(b)| && b != [];
      LeastFirst(a, b);
      LeastFirst(b, a);
      Rest(a);
      Rest(b);
      SortedOnce(a[1..], b[1..]);
    }
  }

  lemma LeastFirst(a: seq<int>, b: seq<int>)
    requires Sorted(a) && a != [] && b != [] && multiset(a) == multiset(b)
    ensures a[0] <= b[0]
  {
    assert b[0] in multiset(b);
    assert b[0] in a;
    var i :| 0 <= i < |a| && a[i] == b[0];
  }

  lemma Rest(a: seq<int>)
    requires a != []
    ensures multiset(a[1..]) == multiset(a) - multiset{a[0]} && a == [a[0]] + a[1..]
  {
    assert a == [a[0]] + a[1..];
  }

  /** A percentile in numbers: of the values in ascending order, however they were put
      there, it is the one at the `fraction * (n - 1)`-th place, or lies between the
      two around that place in proportion. */
  lemma PercentileExact(values: seq<int>, ordered: seq<int>, fraction: real, place: real)
    requires values != [] && 0.0 <= fraction <= 1.0 && place == (|values| - 1) as real * fraction
    requires Sorted(ordered) && multiset(ordered) == multiset(values)
    ensures
      var k := place.Floor;
      && |ordered| == |values| && 0 <= k < |ordered|
      && Percentile(values, fraction) ==
           if k + 1 == |ordered| then ordered[k] as real
           else ordered[k] as real + (place - k as real) * (ordered[k + 1] - ordered[k]) as real
  {
    PercentileOrdered(values, ordered, fraction);
    AtExact(ordered, place);
  }

  lemma PercentileOrdered(values: seq<int>, ordered: seq<int>, fraction: real)
    requires values != [] && 0.0 <= fraction <= 1.0
    requires Sorted(ordered) && multiset(ordered) == multiset(values)
    ensures |ordered| == |values|
    ensures Percentile(values, fraction) == At(ordered, Position(|values| - 1, fraction))
  {
    SortSorts(values);
    SortedOnce(Sort(values), ordered);
  }

  lemma AtExact(ordered: seq<int>, place: real)
    requires 0.0 <= place <= (|ordered| - 1) as real
    ensures At(ordered, place) ==
      var k := place.Floor;
      if k + 1 == |ordered| then ordered[k] as real
      else ordered[k] as real + (place - k as real) * (ordered[k + 1] - ordered[k]) as real
  {
    var k := place.Floor;
    if place == k as real {
      CeilingOf(place);
    } else {
      CeilingOf(place);
      var a, b, w := ordered[k] as real, ordered[k + 1] as real, place - k as real;
      Spread(1.0, w, a);
      Spread(b, a, w);
      assert Mix(a, b, w) == a + w * (b - a);
    }
  }

  lemma CeilingOf(r: real)
    ensures Ceiling(r) == if r == r.Floor as real then r.Floor else r.Floor + 1
  {
    var k := r.Floor;
    if r == k as real {
      assert (-r) == (-k) as real;
    } else {
      assert ((-k - 1) as real) < -r < ((-k) as real);
    }
  }

  function Shifted(s: seq<int>, d: int): (r: seq<int>)
    ensures |r| == |s| && forall i :: 0 <= i < |s| ==> r[i] == s[i] + d
  {
    seq(|s|, i requires 0 <= i < |s| => s[i] + d)
  }

  lemma {:induction false} InsertShifted(x: int, s: seq<int>, d: int)
    ensures Insert(x + d, Shifted(s, d)) == Shifted(Insert(x, s), d)
  {
    var moved := Shifted(s, d);
    if s == [] || x <= s[0] {
      assert Shifted([x] + s, d) == [x + d] + moved;
    } else {
      InsertShifted(x, s[1..], d);
      assert moved[1..] == Shifted(s[1..], d);
      assert Shifted([s[0]] + Insert(x, s[1..]), d) == [s[0] + d] + Shifted(Insert(x, s[1..]), d);
    }
  }

  lemma {:induction false} SortShifted(s: seq<int>, d: int)
    ensures Sort(Shifted(s, d)) == Shifted(Sort(s), d)
  {
    if s != [] {
      SortShifted(s[1..], d);
      InsertShifted(s[0], Sort(s[1..]), d);
      assert Shifted(s, d)[1..] == Shifted(s[1..], d);
    }
  }

  /** A percentile moves with its values. */
  lemma PercentileShifted(values: seq<int>, d: int, fraction: real)
    requires values != [] && 0.0 <= fraction <= 1.0
    ensures Percentile(Shifted(values, d), fraction) == Percentile(values, fraction) + d as real
  {
    SortShifted(values, d);
    var place := Position(|values| - 1, fraction);
    AtExact(Sort(values), place);
    AtExact(Shifted(Sort(values), d), place);
  }
}
