/** The percentiles of scratch/uhr-mld-mixed-pedca.cc: a cumulative scan over
    histogram bins, and an index into the sorted samples.  Doubles are exact
    reals; a std::map is the sequence of its entries in key order. */
module Percentiles {

  datatype Bin = Bin(value: real, count: nat)

  ghost predicate Histogram(bins: seq<Bin>) {
    (forall i, j :: 0 <= i < j < |bins| ==> bins[i].value < bins[j].value) &&
    (forall i :: 0 <= i < |bins| ==> bins[i].count > 0)
  }

  function Total(bins: seq<Bin>): nat {
    if bins == [] then 0 else Total(bins[..|bins| - 1]) + bins[|bins| - 1].count
  }

  function Repeat(v: real, n: nat): seq<real> {
    seq(n, _ => v)
  }

  /** The samples a histogram stands for, in increasing order. */
  function Expand(bins: seq<Bin>): seq<real> {
    if bins == [] then []
    else Expand(bins[..|bins| - 1]) + Repeat(bins[|bins| - 1].value, bins[|bins| - 1].count)
  }

  ghost predicate Ascending(s: seq<real>) {
    forall i, j :: 0 <= i < j < |s| ==> s[i] <= s[j]
  }

  function CountLe(samples: seq<real>, v: real): nat {
    if samples == [] then 0
    else CountLe(samples[..|samples| - 1], v) + (if samples[|samples| - 1] <= v then 1 else 0)
  }

  function CountLt(samples: seq<real>, v: real): nat {
    if samples == [] then 0
    else CountLt(samples[..|samples| - 1], v) + (if samples[|samples| - 1] < v then 1 else 0)
  }

  /** v is the rank-th smallest sample: fewer than `rank` lie below it and at
      least `rank` do not lie above it. */
  ghost predicate NearestRank(samples: seq<real>, rank: nat, v: real) {
    v in samples && CountLt(samples, v) < rank <= CountLe(samples, v)
  }

  lemma {:induction false} CountsOrdered(samples: seq<real>, v: real, w: real)
    requires v < w
    ensures CountLe(samples, v) <= CountLt(samples, w)
  {
    if samples == [] {
    } else {
      CountsOrdered(samples[..|samples| - 1], v, w);
    }
  }

  lemma NearestRankUnique(samples: seq<real>, rank: nat, v: real, w: real)
    requires NearestRank(samples, rank, v) && NearestRank(samples, rank, w)
    ensures v == w
  {
    if v < w {
      CountsOrdered(samples, v, w);
    } else if w < v {
      CountsOrdered(samples, w, v);
    }
  }

  function Ceil(x: real): int {
    -((-x).Floor)
  }

  function Target(q: real, n: nat): int {
    Ceil(q * n as real)
  }

  /** The rank both forms aim at, for q > 0: ceil(q * n), kept within 1..n. */
  function Rank(q: real, n: nat): int
    requires n > 0
  {
    if Target(q, n) < 1 then 1 else if Target(q, n) > n then n else Target(q, n)
  }

  lemma TargetPositive(q: real, n: nat)
    requires q > 0.0 && n > 0
    ensures Target(q, n) >= 1
    ensures q <= 1.0 ==> Target(q, n) <= n
  {
    assert q * n as real > 0.0;
    if q <= 1.0 {
      assert q * n as real <= n as real;
    }
  }

  /** q of n samples are more than those below, and at most those up to a value. */
  ghost predicate Reaches(q: real, n: nat, below: nat, upTo: nat) {
    below as real < q * n as real <= upTo as real
  }

  /** v is the q-quantile of the samples: q of them reach up to v, and fewer lie
      below it. */
  ghost predicate Quantile(samples: seq<real>, q: real, v: real) {
    v in samples && Reaches(q, |samples|, CountLt(samples, v), CountLe(samples, v))
  }

  lemma QuantileUnique(samples: seq<real>, q: real, v: real, w: real)
    requires Quantile(samples, q, v) && Quantile(samples, q, w)
    ensures v == w
  {
    if v < w {
      CountsOrdered(samples, v, w);
    } else if w < v {
      CountsOrdered(samples, w, v);
    }
  }

  /** The value of nearest rank is the quantile. */
  lemma RankedIsQuantile(samples: seq<real>, q: real, v: real)
    requires samples != [] && 0.0 < q <= 1.0 && NearestRank(samples, Rank(q, |samples|), v)
    ensures Quantile(samples, q, v)
  {
    var wanted := q * |samples| as real;
    TargetPositive(q, |samples|);
    var rank := Rank(q, |samples|);
    assert rank == Ceil(wanted);
    assert rank as real - 1.0 < wanted <= rank as real;
    assert CountLt(samples, v) as real <= (rank - 1) as real;
    assert rank as real <= CountLe(samples, v) as real;
  }

  // ---------------------------------------------------------- the sorted form

  const SIZE_T := 0x1_0000_0000_0000_0000

  /** GetPercentileFromSorted; the index is a size_t, so it wraps below zero. */
  function PercentileFromSorted(sortedValues: seq<real>, q: real): real
    requires q >= 0.0
  {
    if sortedValues == [] then 0.0
    else
      var idx := (Target(q, |sortedValues|) - 1) % SIZE_T;
      sortedValues[if idx < |sortedValues| - 1 then idx else |sortedValues| - 1]
  }

  lemma {:induction false} AllBelow(s: seq<real>, v: real)
    requires forall i :: 0 <= i < |s| ==> s[i] <= v
    ensures CountLe(s, v) == |s| && CountLt(s, v) <= |s|
  {
    if s == [] {
    } else {
      AllBelow(s[..|s| - 1], v);
    }
  }

  lemma {:induction false} CountsAt(s: seq<real>, k: nat)
    requires Ascending(s) && k < |s|
    ensures CountLt(s, s[k]) <= k < CountLe(s, s[k])
  {
    var last := |s| - 1;
    if k < last {
      CountsAt(s[..last], k);
      if CountLt(s[..last], s[k]) == k + 1 {
        assert false;
      }
    } else {
      AllBelow(s[..last], s[k]);
    }
  }

  lemma SortedIndex(s: seq<real>, q: real)
    requires s != [] && q >= 0.0 && 1 <= Target(q, |s|) <= SIZE_T
    ensures PercentileFromSorted(s, q) == s[Rank(q, |s|) - 1]
  {
  }

  lemma SortedIsNearestRank(s: seq<real>, q: real)
    requires Ascending(s) && s != [] && q > 0.0 && Target(q, |s|) <= SIZE_T
    ensures NearestRank(s, Rank(q, |s|), PercentileFromSorted(s, q))
  {
    TargetPositive(q, |s|);
    SortedIndex(s, q);
    CountsAt(s, Rank(q, |s|) - 1);
  }

  // ------------------------------------------------------- the histogram form

  /** The value the scan returns when it goes on at bin i. */
  function ScanFrom(bins: seq<Bin>, i: nat, cumulative: nat, wanted: int): real
    requires i <= |bins| && bins != []
    decreases |bins| - i
  {
    if i == |bins| then bins[|bins| - 1].value
    else if cumulative + bins[i].count >= wanted then bins[i].value
    else ScanFrom(bins, i + 1, cumulative + bins[i].count, wanted)
  }

  /** The loop over the bins. */
  method Scan(bins: seq<Bin>, wanted: int) returns (v: real)
    requires bins != []
    ensures v == ScanFrom(bins, 0, 0, wanted)
  {
    var cumulative := 0;
    for i := 0 to |bins|
      invariant cumulative >= 0
      invariant ScanFrom(bins, i, cumulative, wanted) == ScanFrom(bins, 0, 0, wanted)
    {
      cumulative := cumulative + bins[i].count;
      if cumulative >= wanted {
        return bins[i].value;
      }
    }
    return bins[|bins| - 1].value;
  }

  function TargetOf(totalCount: nat, q: real): int
  {
    if Target(q, totalCount) < 1 then 1 else Target(q, totalCount)
  }

  lemma {:induction false} CountsAppend(a: seq<real>, v: real, w: real, n: nat)
    ensures CountLe(a + Repeat(w, n), v) == CountLe(a, v) + (if w <= v then n else 0)
    ensures CountLt(a + Repeat(w, n), v) == CountLt(a, v) + (if w < v then n else 0)
  {
    if n == 0 {
      assert a + Repeat(w, 0) == a;
    } else {
      CountsAppend(a, v, w, n - 1);
      assert (a + Repeat(w, n))[..|a| + n - 1] == a + Repeat(w, n - 1);
    }
  }

  lemma {:induction false} AllSmaller(bins: seq<Bin>, v: real)
    requires forall i :: 0 <= i < |bins| ==> bins[i].value < v
    ensures CountLe(Expand(bins), v) == CountLt(Expand(bins), v) == Total(bins)
  {
    if bins == [] {
    } else {
      var last := |bins| - 1;
      AllSmaller(bins[..last], v);
      CountsAppend(Expand(bins[..last]), v, bins[last].value, bins[last].count);
    }
  }

  /** Samples up to v, when the last bin joins the bins before it. */
  lemma CountsLast(bins: seq<Bin>, v: real)
    requires bins != []
    ensures var before, bin := bins[..|bins| - 1], bins[|bins| - 1];
      && CountLe(Expand(bins), v) == CountLe(Expand(before), v) + (if bin.value <= v then bin.count else 0)
      && CountLt(Expand(bins), v) == CountLt(Expand(before), v) + (if bin.value < v then bin.count else 0)
  {
    CountsAppend(Expand(bins[..|bins| - 1]), v, bins[|bins| - 1].value, bins[|bins| - 1].count);
  }

  /** Counting below a bin's value counts whole bins. */
  lemma {:induction false} CountsOfBin(bins: seq<Bin>, i: nat)
    requires Histogram(bins) && i < |bins|
    ensures CountLt(Expand(bins), bins[i].value) == Total(bins[..i])
    ensures CountLe(Expand(bins), bins[i].value) == Total(bins[..i + 1])
  {
    var last := |bins| - 1;
    var before := bins[..last];
    CountsLast(bins, bins[i].value);
    if i < last {
      assert Histogram(before) && before[i] == bins[i];
      CountsOfBin(before, i);
      assert before[..i] == bins[..i] && before[..i + 1] == bins[..i + 1];
    } else {
      assert bins[..last + 1] == bins;
      AllSmaller(before, bins[last].value);
    }
  }

  lemma {:induction false} ValueOccurs(bins: seq<Bin>, i: nat)
    requires Histogram(bins) && i < |bins|
    ensures bins[i].value in Expand(bins)
  {
    var last := |bins| - 1;
    if i < last {
      ValueOccurs(bins[..last], i);
    } else {
      assert Repeat(bins[last].value, bins[last].count)[0] == bins[last].value;
    }
  }

  lemma {:induction false} TotalPrefix(bins: seq<Bin>, i: nat)
    requires i <= |bins|
    ensures Total(bins[..i]) <= Total(bins)
  {
    if i == |bins| {
      assert bins[..i] == bins;
    } else {
      assert bins[..|bins| - 1][..i] == bins[..i];
      TotalPrefix(bins[..|bins| - 1], i);
    }
  }

  lemma ScanHits(bins: seq<Bin>, i: nat, wanted: int, n: nat)
    requires Histogram(bins) && i < |bins| && Total(bins) == n
    requires Total(bins[..i]) < wanted <= Total(bins[..i + 1]) && wanted >= 1
    ensures NearestRank(Expand(bins), wanted, bins[i].value) && wanted <= n
  {
    CountsOfBin(bins, i);
    ValueOccurs(bins, i);
    TotalPrefix(bins, i + 1);
  }

  lemma LastIsMaximum(bins: seq<Bin>)
    requires Histogram(bins) && bins != []
    ensures NearestRank(Expand(bins), Total(bins), bins[|bins| - 1].value)
  {
    var last := |bins| - 1;
    CountsOfBin(bins, last);
    assert bins[..last + 1] == bins;
  }

  lemma {:induction false} ScanFromIsNearestRank(bins: seq<Bin>, i: nat, wanted: int)
    requires Histogram(bins) && bins != [] && i <= |bins| && Total(bins[..i]) < wanted
    ensures NearestRank(Expand(bins), if wanted > Total(bins) then Total(bins) else wanted,
                        ScanFrom(bins, i, Total(bins[..i]), wanted))
    decreases |bins| - i
  {
    if i == |bins| {
      assert bins[..i] == bins;
      LastIsMaximum(bins);
    } else {
      assert bins[..i + 1][..i] == bins[..i];
      if Total(bins[..i + 1]) >= wanted {
        ScanHits(bins, i, wanted, Total(bins));
      } else {
        ScanFromIsNearestRank(bins, i + 1, wanted);
      }
    }
  }

  lemma {:induction false} ScanIsNearestRank(bins: seq<Bin>, q: real)
    requires Histogram(bins) && bins != [] && Total(bins) > 0 && q >= 0.0
    ensures NearestRank(Expand(bins), Rank(q, Total(bins)), ScanFrom(bins, 0, 0, TargetOf(Total(bins), q)))
  {
    assert bins[..0] == [];
    ScanFromIsNearestRank(bins, 0, TargetOf(Total(bins), q));
  }

  lemma {:induction false} ExpandLength(bins: seq<Bin>)
    ensures |Expand(bins)| == Total(bins)
  {
    if bins == [] {
    } else {
      ExpandLength(bins[..|bins| - 1]);
    }
  }

  /** The lambda of GetHistogramPercentiles: scan until the cumulative count
      reaches the target. */
  method HistogramPercentile(bins: seq<Bin>, totalCount: nat, q: real) returns (v: real)
    requires totalCount > 0 && bins != [] && q >= 0.0
    ensures Histogram(bins) && Total(bins) == totalCount && 0.0 < q <= 1.0 ==> Quantile(Expand(bins), q, v)
    ensures Histogram(bins) && Total(bins) == totalCount ==>
              NearestRank(Expand(bins), Rank(q, totalCount), v)
    ensures v == ScanFrom(bins, 0, 0, TargetOf(totalCount, q))
  {
    if Histogram(bins) && Total(bins) == totalCount {
      ScanIsNearestRank(bins, q);
      if 0.0 < q <= 1.0 {
        ExpandLength(bins);
        RankedIsQuantile(Expand(bins), q, ScanFrom(bins, 0, 0, TargetOf(totalCount, q)));
      }
    }
    v := Scan(bins, TargetOf(totalCount, q));
  }

  lemma AscendingAppend(a: seq<real>, v: real, n: nat)
    requires Ascending(a) && forall x :: x in a ==> x <= v
    ensures Ascending(a + Repeat(v, n))
  {
    var s := a + Repeat(v, n);
    forall i, j | 0 <= i < j < |s| ensures s[i] <= s[j] {
      if i < |a| {
        assert s[i] == a[i] && a[i] in a;
      }
    }
  }

  lemma {:induction false} ExpandFacts(bins: seq<Bin>)
    ensures |Expand(bins)| == Total(bins)
    ensures forall v :: v in Expand(bins) ==> exists i :: 0 <= i < |bins| && bins[i].value == v
    ensures Histogram(bins) ==> Ascending(Expand(bins))
  {
    if bins == [] {
    } else {
      var last := |bins| - 1;
      ExpandFacts(bins[..last]);
      forall v | v in Expand(bins[..last])
        ensures exists i :: 0 <= i < last && bins[i].value == v
      {
        var i :| 0 <= i < |bins[..last]| && bins[..last][i].value == v;
        assert bins[i].value == v;
      }
      if Histogram(bins) {
        assert Histogram(bins[..last]);
        forall v | v in Expand(bins[..last]) ensures v < bins[last].value {
          var i :| 0 <= i < last && bins[i].value == v;
        }
        AscendingAppend(Expand(bins[..last]), bins[last].value, bins[last].count);
      }
    }
  }

  // -------------------------------------------------------------- they agree

  lemma DropLast(a: seq<real>)
    requires a != []
    ensures multiset(a[..|a| - 1]) == multiset(a) - multiset{a[|a| - 1]}
    ensures Ascending(a) ==> Ascending(a[..|a| - 1])
  {
    assert a == a[..|a| - 1] + [a[|a| - 1]];
  }

  lemma SameLast(a: seq<real>, b: seq<real>)
    requires Ascending(a) && Ascending(b) && multiset(a) == multiset(b) && a != []
    ensures b != [] && a[|a| - 1] == b[|b| - 1]
  {
    assert a[|a| - 1] in multiset(b);
    assert b[|b| - 1] in multiset(a);
  }

  lemma {:induction false} SortedUnique(a: seq<real>, b: seq<real>)
    requires Ascending(a) && Ascending(b) && multiset(a) == multiset(b)
    ensures a == b
  {
    if a == [] {
      assert |multiset(b)| == |b|;
    } else {
      SameLast(a, b);
      DropLast(a);
      DropLast(b);
      SortedUnique(a[..|a| - 1], b[..|b| - 1]);
      assert a == a[..|a| - 1] + [a[|a| - 1]] && b == b[..|b| - 1] + [b[|b| - 1]];
    }
  }

  lemma AgreeOnExpansion(bins: seq<Bin>, q: real)
    requires Histogram(bins) && bins != []
    requires q > 0.0 && Target(q, Total(bins)) <= SIZE_T
    ensures ScanFrom(bins, 0, 0, TargetOf(Total(bins), q)) == PercentileFromSorted(Expand(bins), q)
  {
    ExpandFacts(bins);
    CountsOfBin(bins, 0);
    var samples, n := Expand(bins), Total(bins);
    var rank, v, w := Rank(q, n), ScanFrom(bins, 0, 0, TargetOf(n, q)), PercentileFromSorted(samples, q);
    assert NearestRank(samples, rank, v) by {
      ScanIsNearestRank(bins, q);
    }
    assert NearestRank(samples, rank, w) by {
      SortedIsNearestRank(samples, q);
    }
    NearestRankUnique(samples, rank, v, w);
  }

  /** For positive q the two percentile forms, on a histogram and on the same
      samples sorted, give the same value. */
  lemma AgreeWhenPositive(bins: seq<Bin>, samples: seq<real>, q: real)
    requires Histogram(bins) && bins != []
    requires Ascending(samples) && multiset(samples) == multiset(Expand(bins))
    requires q > 0.0 && Target(q, Total(bins)) <= SIZE_T
    ensures ScanFrom(bins, 0, 0, TargetOf(Total(bins), q)) == PercentileFromSorted(samples, q)
  {
    ExpandFacts(bins);
    SortedUnique(samples, Expand(bins));
    AgreeOnExpansion(bins, q);
  }

  /** At q = 0 the scan returns the first value, and the sorted form, whose index
      wraps, the last. */
  lemma {:induction false} ValuesAtZero(bins: seq<Bin>, samples: seq<real>)
    requires Histogram(bins) && bins != [] && Total(bins) < SIZE_T
    requires Ascending(samples) && multiset(samples) == multiset(Expand(bins))
    ensures ScanFrom(bins, 0, 0, TargetOf(Total(bins), 0.0)) == bins[0].value
    ensures PercentileFromSorted(samples, 0.0) == bins[|bins| - 1].value
  {
    ExpandFacts(bins);
    SortedUnique(samples, Expand(bins));
    assert Target(0.0, Total(bins)) == 0;
    assert (0 - 1) % SIZE_T == SIZE_T - 1;
  }

  /** The two forms agree exactly when q is positive or there is only one value. */
  lemma PercentilesAgree(bins: seq<Bin>, samples: seq<real>, q: real)
    requires Histogram(bins) && bins != [] && Total(bins) < SIZE_T
    requires Ascending(samples) && multiset(samples) == multiset(Expand(bins))
    requires q >= 0.0 && Target(q, Total(bins)) <= SIZE_T
    ensures ScanFrom(bins, 0, 0, TargetOf(Total(bins), q)) == PercentileFromSorted(samples, q) <==>
            q > 0.0 || |bins| == 1
  {
    if q > 0.0 {
      AgreeWhenPositive(bins, samples, q);
    } else {
      assert q == 0.0;
      ValuesAtZero(bins, samples);
    }
  }

  // ------------------------------------------------------------ the five values

  datatype FiveNumbers = FiveNumbers(p50: real, p90: real, p95: real, p99: real, p999: real)

  /** What is promised of the five numbers. */
  ghost predicate AreQuantiles(samples: seq<real>, p: FiveNumbers) {
    && Quantile(samples, 0.50, p.p50) && Quantile(samples, 0.90, p.p90) && Quantile(samples, 0.95, p.p95)
    && Quantile(samples, 0.99, p.p99) && Quantile(samples, 0.999, p.p999)
  }

  const ZEROS := FiveNumbers(0.0, 0.0, 0.0, 0.0, 0.0)

  lemma AllAgree(bins: seq<Bin>, samples: seq<real>)
    requires Histogram(bins) && bins != [] && Total(bins) < SIZE_T
    requires Ascending(samples) && multiset(samples) == multiset(Expand(bins))
    ensures forall q :: 0.0 < q <= 1.0 ==>
      ScanFrom(bins, 0, 0, TargetOf(Total(bins), q)) == PercentileFromSorted(samples, q)
  {
    forall q | 0.0 < q <= 1.0
      ensures ScanFrom(bins, 0, 0, TargetOf(Total(bins), q)) == PercentileFromSorted(samples, q)
    {
      CountsOfBin(bins, 0);
      TargetPositive(q, Total(bins));
      AgreeWhenPositive(bins, samples, q);
    }
  }

  /** The five percentiles of a sorted list. */
  function PercentilesOfSorted(samples: seq<real>): FiveNumbers {
    FiveNumbers(PercentileFromSorted(samples, 0.50), PercentileFromSorted(samples, 0.90),
                PercentileFromSorted(samples, 0.95), PercentileFromSorted(samples, 0.99),
                PercentileFromSorted(samples, 0.999))
  }

  /** Every percentile reported from a histogram is the one GetPercentiles reports
      from the same samples. */
  method GetHistogramPercentiles(bins: seq<Bin>, totalCount: nat) returns (p: FiveNumbers)
    ensures totalCount == 0 || bins == [] ==> p == ZEROS
    ensures Histogram(bins) && Total(bins) == totalCount > 0 ==> AreQuantiles(Expand(bins), p)
    ensures Histogram(bins) && Total(bins) == totalCount < SIZE_T ==>
      forall samples :: Ascending(samples) && multiset(samples) == multiset(Expand(bins)) ==>
        p == PercentilesOfSorted(samples)
  {
    if totalCount == 0 || bins == [] {
      if Histogram(bins) && Total(bins) == totalCount {
      }
      return ZEROS;
    }
    var p50 := HistogramPercentile(bins, totalCount, 0.50);
    var p90 := HistogramPercentile(bins, totalCount, 0.90);
    var p95 := HistogramPercentile(bins, totalCount, 0.95);
    var p99 := HistogramPercentile(bins, totalCount, 0.99);
    var p999 := HistogramPercentile(bins, totalCount, 0.999);
    p := FiveNumbers(p50, p90, p95, p99, p999);
    if Histogram(bins) && Total(bins) == totalCount < SIZE_T {
      forall samples | Ascending(samples) && multiset(samples) == multiset(Expand(bins))
        ensures p == PercentilesOfSorted(samples)
      {
        AllAgree(bins, samples);
      }
    }
  }

  // ----------------------------------------------------------------- sorting

  function Insert(v: real, s: seq<real>): seq<real> {
    if s == [] then [v] else if v <= s[0] then [v] + s else [s[0]] + Insert(v, s[1..])
  }

  /** Stands for std::sort, of which only the result matters (SortedByResult). */
  function Sorted(s: seq<real>): seq<real> {
    if s == [] then [] else Insert(s[0], Sorted(s[1..]))
  }

  lemma {:induction false} InsertAscends(v: real, s: seq<real>)
    requires Ascending(s)
    ensures |Insert(v, s)| == |s| + 1 && Ascending(Insert(v, s))
    ensures Insert(v, s)[0] == if s == [] || v <= s[0] then v else s[0]
  {
    if s == [] {
    } else if v <= s[0] {
    } else {
      InsertAscends(v, s[1..]);
    }
  }

  lemma {:induction false} InsertKeeps(v: real, s: seq<real>)
    ensures multiset(Insert(v, s)) == multiset(s) + multiset{v}
  {
    if s == [] {
    } else {
      InsertKeeps(v, s[1..]);
      assert s == [s[0]] + s[1..];
    }
  }

  lemma {:induction false} SortedAscends(s: seq<real>)
    ensures |Sorted(s)| == |s| && Ascending(Sorted(s))
  {
    if s == [] {
    } else {
      SortedAscends(s[1..]);
      InsertAscends(s[0], Sorted(s[1..]));
    }
  }

  lemma {:induction false} SortedKeeps(s: seq<real>)
    ensures multiset(Sorted(s)) == multiset(s)
  {
    if s == [] {
    } else {
      SortedKeeps(s[1..]);
      InsertKeeps(s[0], Sorted(s[1..]));
      assert s == [s[0]] + s[1..];
    }
  }

  lemma SortedFacts(s: seq<real>)
    ensures Ascending(Sorted(s)) && multiset(Sorted(s)) == multiset(s) && |Sorted(s)| == |s|
  {
    SortedAscends(s);
    SortedKeeps(s);
  }

  /** There is one ascending list of the elements, however it is computed. */
  lemma {:induction false} SortedByResult(s: seq<real>)
    ensures forall sorted :: Ascending(sorted) && multiset(sorted) == multiset(s) ==> sorted == Sorted(s)
  {
    SortedFacts(s);
    forall sorted | Ascending(sorted) && multiset(sorted) == multiset(s) ensures sorted == Sorted(s) {
      SortedUnique(sorted, Sorted(s));
    }
  }

  lemma {:induction false} CountsConcat(a: seq<real>, b: seq<real>, v: real)
    ensures CountLe(a + b, v) == CountLe(a, v) + CountLe(b, v)
    ensures CountLt(a + b, v) == CountLt(a, v) + CountLt(b, v)
  {
    if b == [] {
      assert a + b == a;
    } else {
      assert (a + b)[..|a + b| - 1] == a + b[..|b| - 1];
      CountsConcat(a, b[..|b| - 1], v);
    }
  }

  lemma CountsFirst(s: seq<real>, v: real)
    requires s != []
    ensures CountLe(s, v) == (if s[0] <= v then 1 else 0) + CountLe(s[1..], v)
    ensures CountLt(s, v) == (if s[0] < v then 1 else 0) + CountLt(s[1..], v)
  {
    assert s == [s[0]] + s[1..];
    CountsConcat([s[0]], s[1..], v);
  }

  lemma {:induction false} InsertCounts(w: real, s: seq<real>, v: real)
    ensures CountLe(Insert(w, s), v) == (if w <= v then 1 else 0) + CountLe(s, v)
    ensures CountLt(Insert(w, s), v) == (if w < v then 1 else 0) + CountLt(s, v)
  {
    if s == [] {
    } else if w <= s[0] {
      CountsConcat([w], s, v);
    } else {
      InsertCounts(w, s[1..], v);
      CountsFirst(s, v);
      CountsConcat([s[0]], Insert(w, s[1..]), v);
    }
  }

  lemma {:induction false} SortedCounts(s: seq<real>, v: real)
    ensures CountLe(Sorted(s), v) == CountLe(s, v) && CountLt(Sorted(s), v) == CountLt(s, v)
  {
    if s == [] {
    } else {
      SortedCounts(s[1..], v);
      InsertCounts(s[0], Sorted(s[1..]), v);
      CountsFirst(s, v);
    }
  }

  lemma AscendingQuantile(s: seq<real>, q: real)
    requires Ascending(s) && s != [] && |s| <= SIZE_T && 0.0 < q <= 1.0
    ensures Quantile(s, q, PercentileFromSorted(s, q))
  {
    TargetPositive(q, |s|);
    SortedIsNearestRank(s, q);
    RankedIsQuantile(s, q, PercentileFromSorted(s, q));
  }

  lemma SortedHas(values: seq<real>, v: real)
    requires v in Sorted(values)
    ensures v in values && |values| == |Sorted(values)|
  {
    SortedFacts(values);
    assert v in multiset(Sorted(values));
  }

  lemma SameQuantile(s: seq<real>, values: seq<real>, q: real, v: real)
    requires Quantile(s, q, v) && v in values && |values| == |s|
    requires CountLt(s, v) == CountLt(values, v) && CountLe(s, v) == CountLe(values, v)
    ensures Quantile(values, q, v)
  {
  }

  lemma QuantileOfSorted(values: seq<real>, q: real, v: real)
    requires Quantile(Sorted(values), q, v)
    ensures Quantile(values, q, v)
  {
    SortedHas(values, v);
    SortedCounts(values, v);
    SameQuantile(Sorted(values), values, q, v);
  }

  lemma SortedAreQuantiles(s: seq<real>)
    requires Ascending(s) && 0 < |s| <= SIZE_T
    ensures AreQuantiles(s, PercentilesOfSorted(s))
  {
    forall q | 0.0 < q <= 1.0 ensures Quantile(s, q, PercentileFromSorted(s, q)) {
      AscendingQuantile(s, q);
    }
  }

  lemma SortedQuantile(values: seq<real>, q: real)
    requires values != [] && |values| <= SIZE_T && 0.0 < q <= 1.0
    ensures Quantile(values, q, PercentileFromSorted(Sorted(values), q))
  {
    SortedFacts(values);
    AscendingQuantile(Sorted(values), q);
    QuantileOfSorted(values, q, PercentileFromSorted(Sorted(values), q));
  }

  /** GetPercentiles: zeros without values, otherwise the percentiles of the sorted values. */
  method GetPercentiles(values: seq<real>) returns (p: FiveNumbers)
    ensures values == [] ==> p == ZEROS
    ensures 0 < |values| <= 0x1_0000_0000_0000_0000 ==> AreQuantiles(values, p)
    ensures forall sorted :: Ascending(sorted) && multiset(sorted) == multiset(values) ==> p == PercentilesOfSorted(sorted)
  {
    SortedByResult(values);
    if values == [] {
      return ZEROS;
    }
    p := PercentilesOfSorted(Sorted(values));
    if |values| <= SIZE_T {
      forall q | 0.0 < q <= 1.0 ensures Quantile(values, q, PercentileFromSorted(Sorted(values), q)) {
        SortedQuantile(values, q);
      }
    }
  }
}
