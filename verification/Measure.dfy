/** Readings, stored points and the reductions applied to them (diagnosis/measure.go). */
module Measure {
  import opened Sorting

  /** Nanoseconds; `ZERO_TIME` is Go's zero `time.Time`. */
  type Instant = int

  const ZERO_TIME: Instant := 0
  const SECOND: int := 1_000_000_000

  /** An optional float. `NotFinite` is a value that is present but NaN or infinite. */
  datatype Reading = Unknown | NotFinite | Known(v: real) {
    /** What `Get` hands back as the number; an absence reads as zero. */
    function Raw(): real {
      if Known? then v else 0.0
    }
  }

  datatype Point = Point(at: Instant, value: real, against: Reading)

  datatype State = StateAbsent | StateUntrusted | StateValue

  datatype Reduced = Reduced(v: real, state: State)

  /** The result of a calculation, which may come out NaN or infinite on finite inputs. */
  datatype Number = NaN | Finite(v: real)

  /** The seven built-in calculations, a caller's own, and the nil function of a bare `Reduction{}`. */
  datatype Fold =
    | NoFold
    | FoldLast
    | FoldMean
    | FoldSlope
    | FoldDeltaRatio
    | FoldRank(percent: nat)
    | FoldMax
    | FoldCustom(f: seq<Point> -> Number)

  datatype Reduction = Reduction(name: string, min: int, fold: Fold, ordered: bool, divides: bool)

  const Last := Reduction("last", 1, FoldLast, false, false)
  const Mean := Reduction("mean", 2, FoldMean, false, false)
  const Slope := Reduction("slope", 2, FoldSlope, false, false)
  const DeltaRatio := Reduction("deltaRatio", 2, FoldDeltaRatio, false, true)
  const P95 := Reduction("p95", 20, FoldRank(95), true, false)
  const P99 := Reduction("p99", 100, FoldRank(99), true, false)
  const Max := Reduction("max", 1, FoldMax, false, false)

  ghost predicate BuiltIn(r: Reduction) {
    r == Last || r == Mean || r == Slope || r == DeltaRatio || r == P95 || r == P99 || r == Max
  }

  function Values(points: seq<Point>): (vs: seq<real>)
    ensures |vs| == |points|
    ensures forall i :: 0 <= i < |points| ==> vs[i] == points[i].value
  {
    seq(|points|, i requires 0 <= i < |points| => points[i].value)
  }

  function Sum(vs: seq<real>): real {
    if vs == [] then 0.0 else Sum(vs[..|vs| - 1]) + vs[|vs| - 1]
  }

  function Highest(vs: seq<real>): (m: real)
    requires vs != []
    ensures m in vs
    ensures forall i :: 0 <= i < |vs| ==> vs[i] <= m
  {
    if |vs| == 1 then vs[0]
    else
      var m := Highest(vs[..|vs| - 1]);
      var v := vs[|vs| - 1];
      if m < v then v else m
  }

  predicate Below(a: real, b: real) { a < b }

  lemma BelowOrder()
    ensures StrictWeakOrder(Below)
  {
  }

  /** The smallest integer not below percent * n / 100. */
  function RankOf(percent: nat, n: nat): (rank: nat) {
    (percent * n + 99) / 100
  }

  /** `fold(points)` for a non-empty window. */
  function Apply(f: Fold, points: seq<Point>): Number
    requires points != []
  {
    var first, last := points[0], points[|points| - 1];
    match f
    case NoFold => NaN
    case FoldLast => Finite(last.value)
    case FoldMean => Finite(Sum(Values(points)) / (|points| as real))
    case FoldSlope =>
      if last.at == first.at then NaN
      else Finite((last.value - first.value) / ((last.at - first.at) as real / SECOND as real))
    case FoldDeltaRatio =>
      var d := last.against.Raw() - first.against.Raw();
      if d == 0.0 then NaN else Finite((last.value - first.value) / d)
    case FoldRank(percent) =>
      var rank := RankOf(percent, |points|);
      var sorted := SortBy(Values(points), Below);
      if 1 <= rank <= |sorted| then Finite(sorted[rank - 1]) else NaN
    case FoldMax => Finite(Highest(Values(points)))
    case FoldCustom(g) => g(points)
  }

  /** The denominator counter's movement across the window edges. */
  function DenominatorDelta(points: seq<Point>): real
    requires points != []
  {
    points[|points| - 1].against.Raw() - points[0].against.Raw()
  }

  /** How many of `vs` are at most `x`, and how many are strictly below it. */
  ghost function CountAtMost(vs: seq<real>, x: real): nat {
    if vs == [] then 0 else (if vs[0] <= x then 1 else 0) + CountAtMost(vs[1..], x)
  }

  ghost function CountBelow(vs: seq<real>, x: real): nat {
    if vs == [] then 0 else (if vs[0] < x then 1 else 0) + CountBelow(vs[1..], x)
  }

  lemma {:induction false} CountsOfSorted(vs: seq<real>, k: nat)
    requires Sorted(vs, Below) && k < |vs|
    ensures CountBelow(vs, vs[k]) <= k < CountAtMost(vs, vs[k])
    decreases |vs|
  {
    if k > 0 {
      CountsOfSorted(vs[1..], k - 1);
    } else {
      NoneBelow(vs, vs[0]);
    }
  }

  lemma {:induction false} NoneBelow(vs: seq<real>, x: real)
    requires forall i :: 0 <= i < |vs| ==> x <= vs[i]
    ensures CountBelow(vs, x) == 0
  {
    if vs != [] { NoneBelow(vs[1..], x); }
  }

  lemma {:induction false} CountsAfterInsert(y: real, vs: seq<real>, x: real)
    ensures CountAtMost(Insert(y, vs, Below), x) == CountAtMost([y] + vs, x)
    ensures CountBelow(Insert(y, vs, Below), x) == CountBelow([y] + vs, x)
  {
    if !(vs == [] || !Below(vs[0], y)) {
      CountsAfterInsert(y, vs[1..], x);
      var rest := Insert(y, vs[1..], Below);
      assert ([vs[0]] + rest)[1..] == rest && ([y] + vs[1..])[1..] == vs[1..] && ([y] + vs)[1..] == vs;
    }
  }

  lemma {:induction false} CountsAfterSort(vs: seq<real>, x: real)
    ensures CountAtMost(SortBy(vs, Below), x) == CountAtMost(vs, x)
    ensures CountBelow(SortBy(vs, Below), x) == CountBelow(vs, x)
  {
    if vs != [] {
      var rest := SortBy(vs[1..], Below);
      CountsAfterSort(vs[1..], x);
      CountsAfterInsert(vs[0], rest, x);
      assert ([vs[0]] + rest)[1..] == rest;
    }
  }

  lemma RankInRange(percent: nat, n: nat)
    requires 1 <= percent <= 100 && n >= 1
    ensures 1 <= RankOf(percent, n) <= n
  {
    assert n <= percent * n <= 100 * n;
  }

  lemma SortedValues(vs: seq<real>)
    ensures Sorted(SortBy(vs, Below), Below) && multiset(SortBy(vs, Below)) == multiset(vs)
    ensures |SortBy(vs, Below)| == |vs|
  {
    BelowOrder();
    SortByOutcome(vs, Below);
    assert |multiset(SortBy(vs, Below))| == |multiset(vs)|;
  }

  /** Nearest rank: of the stored values, fewer than rank lie strictly below the result and
      at least rank lie at or below it, and the result is itself a stored value. */
  lemma NearestRankMeaning(percent: nat, points: seq<Point>)
    requires points != [] && 1 <= percent <= 100
    ensures 1 <= RankOf(percent, |points|) <= |points|
    ensures Apply(FoldRank(percent), points).Finite?
    ensures var v := Apply(FoldRank(percent), points).v;
            && v in Values(points)
            && CountBelow(Values(points), v) < RankOf(percent, |points|) <= CountAtMost(Values(points), v)
  {
    var vs := Values(points);
    var sorted := SortBy(vs, Below);
    var rank := RankOf(percent, |points|);
    SortedValues(vs);
    RankInRange(percent, |points|);
    CountsOfSorted(sorted, rank - 1);
    CountsAfterSort(vs, sorted[rank - 1]);
    assert sorted[rank - 1] in multiset(vs);
  }

  /** The stated reason for the percentile minimums: below 20 readings the p95, and below 100
      the p99, is the maximum; from the minimum on the rank is strictly inside. */
  lemma PercentileIsMaximumExactlyBelowMinimum(points: seq<Point>)
    requires points != []
    ensures |points| < P95.min ==> Apply(P95.fold, points) == Apply(Max.fold, points)
    ensures |points| < P99.min ==> Apply(P99.fold, points) == Apply(Max.fold, points)
    ensures RankOf(95, |points|) == |points| <==> |points| < P95.min
    ensures RankOf(99, |points|) == |points| <==> |points| < P99.min
  {
    if |points| < 20 { TopRankIsHighest(95, points); }
    if |points| < 100 { TopRankIsHighest(99, points); }
  }

  /** The last of the sorted values is a value, and at least every value. */
  lemma TopOfSorted(vs: seq<real>, sorted: seq<real>)
    requires vs != [] && Sorted(sorted, Below) && multiset(sorted) == multiset(vs) && |sorted| == |vs|
    ensures sorted[|sorted| - 1] == Highest(vs)
  {
    var top, h := sorted[|sorted| - 1], Highest(vs);
    assert top in multiset(vs);
    assert h in multiset(sorted);
    var i :| 0 <= i < |sorted| && sorted[i] == h;
    var k :| 0 <= k < |vs| && vs[k] == top;
    assert i < |sorted| - 1 ==> !Below(top, sorted[i]);
  }

  lemma TopRankIsHighest(percent: nat, points: seq<Point>)
    requires points != [] && 1 <= percent <= 100 && RankOf(percent, |points|) == |points|
    ensures Apply(FoldRank(percent), points) == Apply(FoldMax, points)
  {
    SortedValues(Values(points));
    TopOfSorted(Values(points), SortBy(Values(points), Below));
  }

  /** A reduction is dependable when enough readings at strictly increasing instants, with a
      strictly increasing denominator where it divides by one, always give a trustworthy number. */
  ghost predicate Dependable(r: Reduction) {
    && r.min >= 1
    && r.fold != NoFold
    && forall points: seq<Point> :: r.min <= |points| && StrictlyAdvancing(points, r.divides) ==>
         && Apply(r.fold, points).Finite?
         && (r.divides ==> DenominatorDelta(points) > 0.0)
  }

  ghost predicate StrictlyAdvancing(points: seq<Point>, divides: bool) {
    forall i, j :: 0 <= i < j < |points| ==>
      && points[i].at < points[j].at
      && (divides ==> points[i].against.Raw() < points[j].against.Raw())
  }

  lemma BuiltInIsDependable(r: Reduction)
    requires BuiltIn(r)
    ensures Dependable(r)
  {
    forall points: seq<Point> | r.min <= |points| && StrictlyAdvancing(points, r.divides)
      ensures Apply(r.fold, points).Finite? && (r.divides ==> DenominatorDelta(points) > 0.0)
    {
      if r.fold.FoldRank? { NearestRankMeaning(r.fold.percent, points); }
      if r.min >= 2 { assert points[0].at < points[|points| - 1].at; }
    }
  }

  method ComputeMax(points: seq<Point>) returns (highest: real)
    requires points != []
    ensures Apply(FoldMax, points) == Finite(highest)
    ensures exists p :: p in points && p.value == highest
    ensures forall p :: p in points ==> p.value <= highest
  {
    var vs := Values(points);
    highest := points[0].value;
    for i := 1 to |points|
      invariant highest == Highest(vs[..i])
    {
      assert vs[..i + 1][..i] == vs[..i];
      if highest < points[i].value { highest := points[i].value; }
    }
    assert vs[..|points|] == vs;
    var k :| 0 <= k < |vs| && vs[k] == highest;
    assert points[k] in points;
    forall p | p in points ensures p.value <= highest {
      var i :| 0 <= i < |points| && points[i] == p;
      assert vs[i] in vs;
    }
  }

  method ComputeMean(points: seq<Point>) returns (mean: real)
    requires points != []
    ensures Apply(FoldMean, points) == Finite(mean)
    ensures mean * |points| as real == Sum(Values(points))
  {
    var vs := Values(points);
    var sum := 0.0;
    for i := 0 to |points|
      invariant sum == Sum(vs[..i])
    {
      assert vs[..i + 1][..i] == vs[..i];
      sum := sum + points[i].value;
    }
    assert vs[..|points|] == vs;
    mean := sum / (|points| as real);
  }
}
