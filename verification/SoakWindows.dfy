/** The soak run's two bounded sample buffers and the percentiles read from them. Times are exact
    reals: floating-point rounding is not modelled. */
module SoakWindows {

  import opened Results
  import opened Percentiles

  const LIMIT := 2048

  /** The last `LIMIT` values, or all of them. */
  function Latest(h: seq<real>): seq<real> {
    if |h| <= LIMIT then h else h[|h| - LIMIT..]
  }

  function Max(a: real, b: real): real {
    if a < b then b else a
  }

  /** The last `LIMIT` values with those from `turn` on moved to the front. */
  function Wheel(h: seq<real>, turn: nat): (w: seq<real>)
    requires |h| - LIMIT <= turn <= |h| && |h| >= LIMIT
    ensures |w| == LIMIT
  {
    h[turn..] + h[|h| - LIMIT..turn]
  }

  lemma WheelIsLatest(h: seq<real>, turn: nat)
    requires |h| - LIMIT <= turn <= |h| && |h| >= LIMIT
    ensures multiset(Wheel(h, turn)) == multiset(Latest(h))
  {
    assert h[|h| - LIMIT..] == h[|h| - LIMIT..turn] + h[turn..];
    assert |h| == LIMIT ==> h[0..] == h;
  }

  /** The next value goes behind the newest, over the oldest. */
  lemma WheelAdds(h: seq<real>, turn: nat, v: real)
    requires |h| - LIMIT < turn <= |h| && |h| >= LIMIT
    ensures Wheel(h + [v], turn) == Wheel(h, turn)[|h| - turn := v]
  {
    assert (h + [v])[turn..] == h[turn..] + [v];
    assert (h + [v])[|h| + 1 - LIMIT..turn] == h[|h| + 1 - LIMIT..turn];
    assert h[|h| - LIMIT..turn] == [h[|h| - LIMIT]] + h[|h| + 1 - LIMIT..turn];
  }

  /** A wheel whose newest value fills the last slot may as well start anew. */
  lemma WheelTurns(h: seq<real>)
    requires |h| >= LIMIT
    ensures Wheel(h, |h| - LIMIT) == Wheel(h, |h|)
  {
    assert h[|h| - LIMIT..] == h[|h| - LIMIT..|h|];
  }

  /** The slot a running number falls on. */
  function Slot(n: nat): (slot: nat)
    ensures slot < LIMIT
  {
    n % LIMIT
  }

  lemma SlotStep(n: nat)
    ensures Slot(n + 1) == if Slot(n) == LIMIT - 1 then 0 else Slot(n) + 1
  {
  }

  // ----- The latency buffer

  /** Where the last round over the slots began. */
  function Turn(n: nat): (turn: nat)
    ensures n - LIMIT < turn <= n
  {
    n - Slot(n)
  }

  lemma TurnStep(n: nat)
    ensures Turn(n + 1) == if Slot(n) == LIMIT - 1 then n + 1 else Turn(n)
    ensures n - Turn(n) == Slot(n)
  {
    SlotStep(n);
  }

  /** Where the values lie: value `i` is at `i % LIMIT`. */
  function Ring(h: seq<real>): seq<real> {
    if |h| < LIMIT then h else Wheel(h, Turn(|h|))
  }

  lemma RingFills(h: seq<real>)
    requires |h| <= LIMIT
    ensures Ring(h) == h
  {
    if |h| == LIMIT {
      assert Turn(LIMIT) == LIMIT;
      assert Wheel(h, LIMIT) == h;
    }
  }

  lemma RingTurns(h: seq<real>, v: real)
    requires |h| >= LIMIT
    ensures |Ring(h)| == LIMIT && Ring(h + [v]) == Ring(h)[Slot(|h|) := v]
  {
    var n := |h|;
    hide Turn, Slot, Wheel;
    TurnStep(n);
    WheelAdds(h, Turn(n), v);
    if Slot(n) == LIMIT - 1 {
      WheelTurns(h + [v]);
    }
  }

  /** Overwriting slot `n % LIMIT` with value number `n` keeps the ring. */
  lemma RingAdds(h: seq<real>, v: real)
    ensures |Ring(h)| == if |h| < LIMIT then |h| else LIMIT
    ensures Ring(h + [v]) == if |h| < LIMIT then Ring(h) + [v] else Ring(h)[Slot(|h|) := v]
  {
    hide Ring, Slot;
    if |h| < LIMIT {
      RingFills(h);
      RingFills(h + [v]);
    } else {
      RingTurns(h, v);
    }
  }

  lemma RingHoldsLatest(h: seq<real>)
    ensures multiset(Ring(h)) == multiset(Latest(h))
  {
    if |h| >= LIMIT {
      WheelIsLatest(h, Turn(|h|));
    }
  }

  /** The buffer holds exactly the latest values. */
  lemma RingIsLatest(h: seq<real>)
    ensures multiset(Ring(h)) == multiset(Latest(h))
    ensures Latest(h) == if |h| <= 2048 then h else h[|h| - 2048..]
  {
    hide Ring;
    RingHoldsLatest(h);
  }

  // ----- The event-loop lag buffer

  /** This buffer counts a value before storing it, so value `i` goes to slot `(i + 1) % LIMIT`: the
      first value keeps its place until the buffer has been written round twice. */
  function LagRing(h: seq<real>): seq<real> {
    var n := |h|;
    if n <= LIMIT then h
    else if n < 2 * LIMIT then [h[0]] + h[LIMIT..] + h[n - LIMIT + 1..LIMIT]
    else Wheel(h, Turn(n) - 1)
  }

  /** Overwriting the element behind `newer`. */
  lemma Overwrites(first: real, newer: seq<real>, dropped: real, older: seq<real>, v: real)
    ensures ([first] + newer + ([dropped] + older))[1 + |newer| := v] == [first] + (newer + [v]) + older
  {
  }

  lemma LagRingNow(h: seq<real>)
    requires LIMIT <= |h| < 2 * LIMIT - 1
    ensures var n := |h|;
            LagRing(h) == [h[0]] + h[LIMIT..] + ([h[n - LIMIT + 1]] + h[n - LIMIT + 2..LIMIT])
  {
    hide Turn, Wheel;
    var n := |h|;
    assert h[n - LIMIT + 1..LIMIT] == [h[n - LIMIT + 1]] + h[n - LIMIT + 2..LIMIT];
    if n == LIMIT {
      assert h == [h[0]] + h[LIMIT..] + h[1..LIMIT];
    }
  }

  lemma LagRingNext(h: seq<real>, v: real)
    requires LIMIT <= |h| < 2 * LIMIT - 1
    ensures LagRing(h + [v]) == [h[0]] + (h[LIMIT..] + [v]) + h[|h| - LIMIT + 2..LIMIT]
  {
    hide Turn, Wheel;
    assert (h + [v])[LIMIT..] == h[LIMIT..] + [v];
    assert (h + [v])[|h| - LIMIT + 2..LIMIT] == h[|h| - LIMIT + 2..LIMIT];
  }

  lemma LagRingFirstRound(h: seq<real>, v: real)
    requires LIMIT <= |h| < 2 * LIMIT - 1
    ensures |LagRing(h)| == LIMIT && LagRing(h + [v]) == LagRing(h)[|h| + 1 - LIMIT := v]
  {
    hide LagRing;
    var n := |h|;
    LagRingNow(h);
    LagRingNext(h, v);
    Overwrites(h[0], h[LIMIT..], h[n - LIMIT + 1], h[n - LIMIT + 2..LIMIT], v);
  }

  /** The second round begins by overwriting the first value at last. */
  lemma LagRingSecondRound(h: seq<real>, v: real)
    requires |h| == 2 * LIMIT - 1
    ensures |LagRing(h)| == LIMIT && LagRing(h + [v]) == LagRing(h)[0 := v]
  {
    assert Turn(2 * LIMIT) == 2 * LIMIT;
    LagRingIsWheel(h + [v]);
    hide Turn;
    var newer := h[LIMIT..];
    assert LagRing(h) == [h[0]] + newer by {
      assert h[LIMIT..LIMIT] == [];
    }
    assert LagRing(h + [v]) == [v] + newer by {
      assert (h + [v])[2 * LIMIT - 1..] == [v];
      assert (h + [v])[LIMIT..2 * LIMIT - 1] == newer;
    }
  }

  lemma LagRingIsWheel(h: seq<real>)
    requires |h| >= 2 * LIMIT
    ensures LagRing(h) == Wheel(h, Turn(|h|) - 1)
  {
  }

  lemma LagRingLater(h: seq<real>, v: real)
    requires |h| >= 2 * LIMIT
    ensures |LagRing(h)| == LIMIT && LagRing(h + [v]) == LagRing(h)[Slot(|h| + 1) := v]
  {
    hide Wheel, Turn, Slot, LagRing;
    var n := |h|;
    SlotStep(n);
    TurnStep(n);
    LagRingIsWheel(h);
    LagRingIsWheel(h + [v]);
    if Slot(n) == LIMIT - 1 {
      WheelTurns(h);
      WheelAdds(h, n, v);
    } else {
      WheelAdds(h, Turn(n) - 1, v);
    }
  }

  lemma SlotInFirstRound(n: nat)
    requires LIMIT <= n < 2 * LIMIT
    ensures Slot(n) == n - LIMIT
  {
  }

  lemma LagRingAdds(h: seq<real>, v: real)
    ensures |LagRing(h)| == if |h| < LIMIT then |h| else LIMIT
    ensures LagRing(h + [v]) == if |h| < LIMIT then LagRing(h) + [v] else LagRing(h)[Slot(|h| + 1) := v]
  {
    var n := |h|;
    hide Wheel, Turn, Slot;
    if n < LIMIT {
    } else if n < 2 * LIMIT - 1 {
      SlotInFirstRound(n + 1);
      LagRingFirstRound(h, v);
    } else if n == 2 * LIMIT - 1 {
      SlotInFirstRound(n);
      SlotStep(n);
      LagRingSecondRound(h, v);
    } else {
      LagRingLater(h, v);
    }
  }

  lemma LagsComeFromHistory(h: seq<real>, v: real)
    requires v in LagRing(h)
    ensures v in h
  {
  }

  lemma MultisetCancels(a: real, b: real, rest: multiset<real>)
    ensures multiset{a} + rest == multiset{b} + rest <==> a == b
  {
    if a != b {
      assert (multiset{a} + rest)[a] == 1 + rest[a];
      assert (multiset{b} + rest)[a] == rest[a];
    }
  }

  lemma ShuffledIff(a: real, b: real, newer: seq<real>, older: seq<real>)
    ensures multiset([a] + newer + older) == multiset([b] + older + newer) <==> a == b
  {
    var rest := multiset(newer) + multiset(older);
    assert multiset([a] + newer + older) == multiset{a} + rest;
    assert multiset([b] + older + newer) == multiset{b} + rest;
    MultisetCancels(a, b, rest);
  }

  lemma FirstRoundIsLatestIff(h: seq<real>)
    requires LIMIT < |h| < 2 * LIMIT
    ensures multiset(LagRing(h)) == multiset(Latest(h)) <==> h[0] == h[|h| - LIMIT]
  {
    assert Latest(h) == [h[|h| - LIMIT]] + h[|h| - LIMIT + 1..LIMIT] + h[LIMIT..];
    hide Latest;
    ShuffledIff(h[0], h[|h| - LIMIT], h[LIMIT..], h[|h| - LIMIT + 1..LIMIT]);
  }

  /** The lag buffer holds the latest values exactly until it first fills and again from its second
      time round; in between it holds the first value in place of the oldest of the latest ones. */
  lemma LagRingIsLatestIff(h: seq<real>)
    ensures multiset(LagRing(h)) == multiset(Latest(h)) <==>
            (|h| <= 2048 || |h| >= 4096 || h[0] == h[|h| - 2048])
  {
    if LIMIT < |h| < 2 * LIMIT {
      FirstRoundIsLatestIff(h);
    } else if |h| >= 2 * LIMIT {
      WheelIsLatest(h, Turn(|h|) - 1);
    }
  }

  /** One value more than the lag buffer holds, unlike the first but one, and it is wrong. */
  lemma LagRingKeepsFirst() returns (h: seq<real>)
    ensures |h| == 2049 && multiset(LagRing(h)) != multiset(Latest(h))
  {
    h := [1.0] + seq(LIMIT, _ => 0.0);
    LagRingIsLatestIff(h);
  }

  // ----- Totals

  function Total(h: seq<real>): real {
    if h == [] then 0.0 else Total(h[..|h| - 1]) + h[|h| - 1]
  }

  /** The largest of zero and all values, and the smallest value. */
  predicate IsMax(h: seq<real>, m: real) {
    m >= 0.0 && (m > 0.0 ==> m in h) && forall v | v in h :: v <= m
  }

  predicate IsMin(h: seq<real>, m: Option<real>) {
    match m
    case None => h == []
    case Some(v) => v in h && forall w | w in h :: v <= w
  }

  lemma TotalAdds(h: seq<real>, v: real)
    ensures Total(h + [v]) == Total(h) + v
  {
    assert (h + [v])[..|h|] == h;
  }

  lemma MinMaxAdd(h: seq<real>, low: Option<real>, high: real, v: real)
    requires IsMin(h, low) && IsMax(h, high)
    ensures IsMin(h + [v], Some(if low.Some? && low.value <= v then low.value else v)) && IsMax(h + [v], Max(high, v))
  {
    assert forall w | w in h + [v] :: w in h || w == v;
    assert (h + [v])[|h|] == v;
  }

  lemma RingWithin(h: seq<real>, v: real)
    requires v in Ring(h)
    ensures v in Latest(h) && v in h
  {
    RingIsLatest(h);
    assert v in multiset(Ring(h));
    assert v in multiset(Latest(h));
  }

  /** No percentile of what the buffer holds exceeds the maximum ever seen. */
  lemma PercentileWithinMax(h: seq<real>, m: real, p: real)
    requires h != [] && IsMax(h, m) && p > 0.0
    ensures Ring(h) != [] && Percentile(Ring(h), p) <= m
  {
    SameCover(h, p, 0.0);
    hide Ring, Latest, Percentile;
    PercentileIsASample(Ring(h), p);
    RingWithin(h, Percentile(Ring(h), p));
  }

  lemma AtMostOfRing(h: seq<real>, v: real)
    ensures AtMost(Ring(h), v) == AtMost(Latest(h), v)
  {
    if |h| >= LIMIT {
      var turn := Turn(|h|);
      var older, newer := h[|h| - LIMIT..turn], h[turn..];
      assert Latest(h) == older + newer;
      AtMostOfTwo(older, newer, v);
      AtMostOfTwo(newer, older, v);
    }
  }

  /** Only which values are held matters to a percentile, not where they lie. */
  lemma SameCover(h: seq<real>, p: real, v: real)
    ensures Covers(Ring(h), p, v) <==> Covers(Latest(h), p, v)
    ensures |Ring(h)| == |Latest(h)| && (h != [] ==> Ring(h) != [])
  {
    AtMostOfRing(h, v);
    hide AtMost;
  }

  /** A nearest rank: one of the latest values, and the least that covers the fraction `p` of them. */
  ghost predicate IsRank(h: seq<real>, p: real, r: real) {
    r in Latest(h) && forall v: real :: Covers(Latest(h), p, v) <==> v >= r
  }

  lemma RankOfRing(h: seq<real>, p: real)
    requires h != [] && 0.0 < p <= 1.0
    ensures Ring(h) != [] && IsRank(h, p, Percentile(Ring(h), p))
  {
    SameCover(h, p, 0.0);
    hide Ring, Latest, Percentile, Covers;
    PercentileIsASample(Ring(h), p);
    RingWithin(h, Percentile(Ring(h), p));
    forall v: real ensures Covers(Latest(h), p, v) <==> v >= Percentile(Ring(h), p) {
      SameCover(h, p, v);
      PercentileIsLeastCover(Ring(h), p, v);
    }
  }

  predicate IsMean(h: seq<real>, m: real) {
    m * |h| as real == Total(h)
  }

  lemma MeanIs(h: seq<real>)
    requires h != []
    ensures IsMean(h, Total(h) / |h| as real)
  {
    var total, n := Total(h), |h| as real;
    assert total / n * n == total;
  }

  lemma Figures(h: seq<real>, m: real)
    requires h != [] && IsMax(h, m)
    ensures Ring(h) != []
    ensures Percentile(Ring(h), 0.5) <= Percentile(Ring(h), 0.95) <= Percentile(Ring(h), 0.99) <= m
    ensures IsRank(h, 0.5, Percentile(Ring(h), 0.5)) && IsRank(h, 0.95, Percentile(Ring(h), 0.95))
    ensures IsRank(h, 0.99, Percentile(Ring(h), 0.99))
  {
    RankOfRing(h, 0.5);
    RankOfRing(h, 0.95);
    RankOfRing(h, 0.99);
    PercentileWithinMax(h, m, 0.99);
    hide *;
    PercentileIsMonotone(Ring(h), 0.5, 0.95);
    PercentileIsMonotone(Ring(h), 0.95, 0.99);
  }

  datatype Summary = Summary(
    count: nat, errors: nat, p50: Option<real>, p95: Option<real>, p99: Option<real>, max: Option<real>,
    mean: Option<real>)

  /** `samples` is the in-memory array; `history` every value added, oldest first. */
  class BoundedLatency {
    var samples: seq<real>
    var count: nat
    var errors: nat
    var totalMs: real
    var minMs: Option<real>
    var maxMs: real
    ghost var history: seq<real>

    ghost predicate Valid()
      reads this
    {
      && samples == Ring(history) && count == |history| && totalMs == Total(history)
      && IsMin(history, minMs) && IsMax(history, maxMs)
    }

    constructor ()
      ensures Valid() && history == [] && errors == 0
    {
      samples, count, errors, totalMs, minMs, maxMs, history := [], 0, 0, 0.0, None, 0.0, [];
    }

    method Add(valueMs: real)
      requires Valid()
      modifies this
      ensures Valid() && history == old(history) + [valueMs] && errors == old(errors)
    {
      hide Ring, Slot, Total, IsMin, IsMax, Max;
      RingAdds(history, valueMs);
      TotalAdds(history, valueMs);
      MinMaxAdd(history, minMs, maxMs, valueMs);
      count := count + 1;
      totalMs := totalMs + valueMs;
      minMs := Some(if minMs.Some? && minMs.value <= valueMs then minMs.value else valueMs);
      maxMs := Max(maxMs, valueMs);
      if |samples| < LIMIT {
        samples := samples + [valueMs];
      } else {
        samples := samples[Slot(count - 1) := valueMs];
      }
      history := history + [valueMs];
    }

    method AddError()
      requires Valid()
      modifies this
      ensures Valid() && history == old(history) && errors == old(errors) + 1
    {
      errors := errors + 1;
    }

    /** Every figure is taken from the values added: percentiles over the latest `LIMIT` of them,
        in ascending order and none above the maximum; maximum and mean over all. */
    method Summarize() returns (r: Summary)
      requires Valid()
      ensures r.count == |history| && r.errors == errors
      ensures history == [] ==> r.p50.None? && r.p95.None? && r.p99.None? && r.max.None? && r.mean.None?
      ensures history != [] ==>
                && r.p50.Some? && r.p95.Some? && r.p99.Some? && r.max.Some? && r.mean.Some?
                && r.p50.value <= r.p95.value <= r.p99.value <= r.max.value
                && IsMax(history, r.max.value) && IsMean(history, r.mean.value)
                && IsRank(history, 0.5, r.p50.value) && IsRank(history, 0.95, r.p95.value)
                && IsRank(history, 0.99, r.p99.value)
    {
      if |samples| == 0 {
        return Summary(count, errors, None, None, None, None, None);
      }
      MeanIs(history);
      Figures(history, maxMs);
      hide Ring, Percentile, Total, IsMin, IsMax, IsMean, IsRank;
      var mean := totalMs / count as real;
      r := Summary(count, errors, Some(Percentile(samples, 0.5)), Some(Percentile(samples, 0.95)),
                   Some(Percentile(samples, 0.99)), Some(maxMs), Some(mean));
    }
  }

  /** The event-loop half of the soak metrics. */
  class EventLoop {
    var samples: nat
    var maxLagMs: real
    var totalLagMs: real
    var lagsMs: seq<real>
    ghost var history: seq<real>

    ghost predicate Valid()
      reads this
    {
      lagsMs == LagRing(history) && samples == |history| && totalLagMs == Total(history) && IsMax(history, maxLagMs)
    }

    constructor ()
      ensures Valid() && history == []
    {
      samples, maxLagMs, totalLagMs, lagsMs, history := 0, 0.0, 0.0, [], [];
    }

    method Sample(now: real, expectedAt: real)
      requires Valid()
      modifies this
      ensures Valid() && history == old(history) + [Max(0.0, now - expectedAt)]
    {
      hide LagRing, Slot, Total;
      var lagMs := Max(0.0, now - expectedAt);
      LagRingAdds(history, lagMs);
      TotalAdds(history, lagMs);
      samples := samples + 1;
      maxLagMs := Max(maxLagMs, lagMs);
      totalLagMs := totalLagMs + lagMs;
      if |lagsMs| < LIMIT {
        lagsMs := lagsMs + [lagMs];
      } else {
        lagsMs := lagsMs[Slot(samples) := lagMs];
      }
      history := history + [lagMs];
    }

    /** A percentile of the lags held: the least of them that covers the fraction `p`. */
    method LagPercentile(p: real) returns (r: Option<real>)
      requires Valid() && 0.0 < p <= 1.0
      ensures r.None? <==> history == []
      ensures r.Some? ==>
                r.value in history && forall v: real :: Covers(lagsMs, p, v) <==> v >= r.value
    {
      LagRingAdds(history, 0.0);
      if |lagsMs| == 0 {
        return None;
      }
      r := Some(Percentile(lagsMs, p));
      hide LagRing, Percentile, Covers;
      forall v: real ensures Covers(lagsMs, p, v) <==> v >= r.value {
        PercentileIsLeastCover(lagsMs, p, v);
      }
      PercentileIsASample(lagsMs, p);
      LagsComeFromHistory(history, r.value);
    }
  }
}
