/** Nearest-rank percentiles. */
module Percentiles {

  predicate Ordered(s: seq<real>) {
    forall i, j | 0 <= i < j < |s| :: s[i] <= s[j]
  }

  lemma OrderedAppend(s: seq<real>, last: real)
    requires Ordered(s) && (s != [] ==> s[|s| - 1] <= last)
    ensures Ordered(s + [last])
  {
    forall i, j | 0 <= i < j < |s| + 1 ensures (s + [last])[i] <= (s + [last])[j] {
      assert i < |s| - 1 ==> s[i] <= s[|s| - 1];
    }
  }

  lemma SameElements(s: seq<real>, v: real, rest: seq<real>)
    requires s != [] && multiset(rest) == multiset(s[..|s| - 1]) + multiset{v}
    ensures multiset(rest + [s[|s| - 1]]) == multiset(s) + multiset{v}
  {
    assert s == s[..|s| - 1] + [s[|s| - 1]];
  }

  function Insert(s: seq<real>, v: real): (r: seq<real>)
    requires Ordered(s)
    ensures Ordered(r) && multiset(r) == multiset(s) + multiset{v} && |r| == |s| + 1
    ensures |s| > 0 ==> r[|s|] == if s[|s| - 1] <= v then v else s[|s| - 1]
  {
    if s == [] then [v]
    else if s[|s| - 1] <= v then OrderedAppend(s, v); s + [v]
    else
      var init := s[..|s| - 1];
      SameElements(s, v, Insert(init, v));
      OrderedAppend(Insert(init, v), s[|s| - 1]);
      Insert(init, v) + [s[|s| - 1]]
  }

  /** What the library sort returns. */
  function Sorted(s: seq<real>): (r: seq<real>)
    ensures Ordered(r) && multiset(r) == multiset(s) && |r| == |s|
  {
    if s == [] then []
    else
      assert s == s[..|s| - 1] + [s[|s| - 1]];
      Insert(Sorted(s[..|s| - 1]), s[|s| - 1])
  }

  function Ceiling(x: real): int {
    -((-x).Floor)
  }

  lemma CeilingIsLeast(x: real, k: int)
    ensures k >= Ceiling(x) <==> k as real >= x
  {
  }

  function Rank(n: nat, p: real): int {
    Ceiling(n as real * p)
  }

  lemma ScalesUp(n: real, p: real, q: real)
    requires n >= 0.0 && p <= q
    ensures n * p <= n * q
  {
    assert n * (q - p) >= 0.0;
    assert n * q == n * p + n * (q - p);
  }

  lemma RankIsLeast(n: nat, p: real, k: nat)
    ensures k >= Rank(n, p) <==> k as real >= n as real * p
    ensures p <= 1.0 ==> Rank(n, p) <= n
  {
    hide Ceiling;
    CeilingIsLeast(n as real * p, k);
    CeilingIsLeast(n as real * p, n);
    if p <= 1.0 {
      ScalesUp(n as real, p, 1.0);
    }
  }

  /** The sorted place that is read: the rank of `p`, no further than the last. */
  function Place(n: nat, p: real): (i: nat)
    requires n > 0 && p > 0.0
    ensures i < n
  {
    assert n as real * p > 0.0;
    RankIsLeast(n, p, 0);
    var rank := Rank(n, p) - 1;
    if rank < n - 1 then rank else n - 1
  }

  function Percentile(s: seq<real>, p: real): real
    requires s != [] && p > 0.0
  {
    Sorted(s)[Place(|s|, p)]
  }

  // ----- What a percentile means

  /** How many samples are at most `v`. */
  function AtMost(s: seq<real>, v: real): nat {
    if s == [] then 0
    else AtMost(s[..|s| - 1], v) + if s[|s| - 1] <= v then 1 else 0
  }

  lemma {:induction false} AtMostOfTwo(a: seq<real>, b: seq<real>, v: real)
    ensures AtMost(a + b, v) == AtMost(a, v) + AtMost(b, v)
  {
    if b == [] {
      assert a + b == a;
    } else {
      assert (a + b)[..|a + b| - 1] == a + b[..|b| - 1];
      AtMostOfTwo(a, b[..|b| - 1], v);
    }
  }

  lemma AtMostAfterAppend(s: seq<real>, x: real, v: real)
    ensures AtMost(s + [x], v) == AtMost(s, v) + if x <= v then 1 else 0
  {
    assert (s + [x])[..|s|] == s;
  }

  lemma InsertStep(s: seq<real>, x: real)
    requires Ordered(s)
    ensures s == [] || s[|s| - 1] <= x ==> Insert(s, x) == s + [x]
    ensures s != [] && s[|s| - 1] > x ==>
              Ordered(s[..|s| - 1]) && Insert(s, x) == Insert(s[..|s| - 1], x) + [s[|s| - 1]]
  {
  }

  lemma {:induction false} AtMostAfterInsert(s: seq<real>, x: real, v: real)
    requires Ordered(s)
    ensures AtMost(Insert(s, x), v) == AtMost(s, v) + if x <= v then 1 else 0
  {
    hide *;
    InsertStep(s, x);
    if s == [] || s[|s| - 1] <= x {
      AtMostAfterAppend(s, x, v);
    } else {
      var init, last := s[..|s| - 1], s[|s| - 1];
      AtMostAfterInsert(init, x, v);
      AtMostAfterAppend(Insert(init, x), last, v);
      AtMostAfterAppend(init, last, v);
      assert s == init + [last];
    }
  }

  lemma {:induction false} AtMostWhenSorted(s: seq<real>, v: real)
    ensures AtMost(Sorted(s), v) == AtMost(s, v)
  {
    if s != [] {
      AtMostWhenSorted(s[..|s| - 1], v);
      AtMostAfterInsert(Sorted(s[..|s| - 1]), s[|s| - 1], v);
    }
  }

  lemma {:induction false} AllAtMost(s: seq<real>, v: real)
    requires forall i | 0 <= i < |s| :: s[i] <= v
    ensures AtMost(s, v) == |s|
  {
    if s != [] {
      AllAtMost(s[..|s| - 1], v);
    }
  }

  lemma {:induction false} NoneAtMost(s: seq<real>, v: real)
    requires forall i | 0 <= i < |s| :: s[i] > v
    ensures AtMost(s, v) == 0
  {
    if s != [] {
      NoneAtMost(s[..|s| - 1], v);
    }
  }

  lemma {:induction false} AtMostBounded(s: seq<real>, v: real)
    ensures AtMost(s, v) <= |s|
  {
    if s != [] {
      AtMostBounded(s[..|s| - 1], v);
    }
  }

  lemma AtMostSplits(t: seq<real>, i: nat, v: real)
    requires i <= |t|
    ensures AtMost(t, v) == AtMost(t[..i], v) + AtMost(t[i..], v)
  {
    AtMostOfTwo(t[..i], t[i..], v);
    assert t == t[..i] + t[i..];
  }

  /** In order, the element at `i` is the least value that covers `i + 1` elements. */
  lemma CoversWhenOrdered(t: seq<real>, i: nat, v: real)
    requires Ordered(t) && i < |t|
    ensures AtMost(t, v) >= i + 1 <==> v >= t[i]
  {
    hide AtMost;
    if v >= t[i] {
      AtMostSplits(t, i + 1, v);
      AllAtMost(t[..i + 1], v);
    } else {
      AtMostSplits(t, i, v);
      AtMostBounded(t[..i], v);
      NoneAtMost(t[i..], v);
    }
  }

  lemma PlaceIsRank(n: nat, p: real, k: nat)
    requires n > 0 && 0.0 < p <= 1.0
    ensures k >= Place(n, p) + 1 <==> k as real >= n as real * p
  {
    RankIsLeast(n, p, k);
    hide Rank;
  }

  lemma PercentileIsASample(s: seq<real>, p: real)
    requires s != [] && p > 0.0
    ensures Percentile(s, p) in s
  {
    hide Place;
    assert Percentile(s, p) in multiset(Sorted(s));
  }

  lemma CoversPercentile(s: seq<real>, p: real, v: real)
    requires s != [] && p > 0.0
    ensures AtMost(s, v) >= Place(|s|, p) + 1 <==> v >= Percentile(s, p)
  {
    hide Sorted, AtMost, Place;
    AtMostWhenSorted(s, v);
    CoversWhenOrdered(Sorted(s), Place(|s|, p), v);
  }

  /** Whether the values up to `v` are at least the fraction `p` of the samples. */
  predicate Covers(s: seq<real>, p: real, v: real) {
    AtMost(s, v) as real >= |s| as real * p
  }

  /** The percentile is a sample, and a value covers at least the fraction `p` of the samples
      exactly when it is at least the percentile. */
  lemma PercentileIsLeastCover(s: seq<real>, p: real, v: real)
    requires s != [] && 0.0 < p <= 1.0
    ensures Percentile(s, p) in s
    ensures Covers(s, p, v) <==> v >= Percentile(s, p)
  {
    hide Sorted, AtMost, Place, Percentile;
    PercentileIsASample(s, p);
    CoversPercentile(s, p, v);
    PlaceIsRank(|s|, p, AtMost(s, v));
  }

  lemma CeilingIsMonotone(x: real, y: real)
    requires x <= y
    ensures Ceiling(x) <= Ceiling(y)
  {
    CeilingIsLeast(y, Ceiling(y));
    CeilingIsLeast(x, Ceiling(y));
  }

  lemma RankIsMonotone(n: nat, p: real, q: real)
    requires p <= q
    ensures Rank(n, p) <= Rank(n, q)
  {
    ScalesUp(n as real, p, q);
    CeilingIsMonotone(n as real * p, n as real * q);
  }

  lemma PlaceIsMonotone(n: nat, p: real, q: real)
    requires n > 0 && 0.0 < p <= q
    ensures Place(n, p) <= Place(n, q)
  {
    hide Rank;
    RankIsMonotone(n, p, q);
  }

  lemma PercentileIsMonotone(s: seq<real>, p: real, q: real)
    requires s != [] && 0.0 < p <= q
    ensures Percentile(s, p) <= Percentile(s, q)
  {
    hide Place, Sorted;
    PlaceIsMonotone(|s|, p, q);
  }
}
