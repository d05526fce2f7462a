/** The CDFs of scratch/uhr-mld-mixed-pedca.cc, of histogram bins and of values, and
    how they agree.  Doubles are exact reals. */
module Cdfs {
  import opened Percentiles

  type Cdf = seq<(real, real)>

  function CdfOfBins(bins: seq<Bin>, n: nat): Cdf
    requires n > 0
  {
    if bins == [] then []
    else CdfOfBins(bins[..|bins| - 1], n) + [(bins[|bins| - 1].value, Total(bins) as real / n as real)]
  }

  method BuildCdf(bins: seq<Bin>, totalCount: nat) returns (cdf: Cdf)
    ensures totalCount == 0 ==> cdf == []
    ensures totalCount > 0 ==> cdf == CdfOfBins(bins, totalCount)
  {
    cdf := [];
    if totalCount == 0 || bins == [] {
      return;
    }
    var cumulative := 0;
    for i := 0 to |bins|
      invariant cumulative == Total(bins[..i])
      invariant cdf == CdfOfBins(bins[..i], totalCount)
    {
      assert bins[..i + 1][..i] == bins[..i];
      cumulative := cumulative + bins[i].count;
      cdf := cdf + [(bins[i].value, cumulative as real / totalCount as real)];
    }
    assert bins[..|bins|] == bins;
  }

  function CdfOfValues(values: seq<real>): Cdf {
    seq(|values|, i requires 0 <= i < |values| => (values[i], (i + 1) as real / |values| as real))
  }

  /** Every sample, a repeated one too, has an entry of its own: its value and its
      place in the order, as a share of all places. */
  ghost predicate EntryPerSample(cdf: Cdf, sorted: seq<real>) {
    && |cdf| == |sorted|
    && forall i :: 0 <= i < |sorted| ==> cdf[i].0 == sorted[i] && cdf[i].1 * |sorted| as real == (i + 1) as real
  }

  lemma QuotientBack(a: nat, n: nat)
    requires n > 0
    ensures a as real / n as real * n as real == a as real
  {
  }

  lemma {:induction false} EntriesOf(sorted: seq<real>)
    ensures EntryPerSample(CdfOfValues(sorted), sorted)
  {
    var cdf := CdfOfValues(sorted);
    forall i | 0 <= i < |sorted| ensures cdf[i].0 == sorted[i] && cdf[i].1 * |sorted| as real == (i + 1) as real {
      QuotientBack(i + 1, |sorted|);
    }
  }

  /** BuildCdfFromValues: whatever sorted list std::sort makes of the values, the
      result has one entry per element of it. */
  method BuildCdfFromValues(values: seq<real>) returns (cdf: Cdf)
    ensures forall sorted :: Ascending(sorted) && multiset(sorted) == multiset(values) ==> cdf == CdfOfValues(sorted)
    ensures forall sorted :: Ascending(sorted) && multiset(sorted) == multiset(values) ==> EntryPerSample(cdf, sorted)
    ensures |cdf| == |values|
  {
    cdf := [];
    var sorted := Sorted(values);
    SortedFacts(values);
    SortedByResult(values);
    EntriesOf(sorted);
    for i := 0 to |sorted|
      invariant cdf == CdfOfValues(sorted)[..i]
    {
      cdf := cdf + [(sorted[i], (i + 1) as real / |sorted| as real)];
    }
  }

  lemma {:induction false} CdfAt(bins: seq<Bin>, n: nat, i: nat)
    requires n > 0 && i < |bins|
    ensures |CdfOfBins(bins, n)| == |bins|
    ensures CdfOfBins(bins, n)[i] == (bins[i].value, Total(bins[..i + 1]) as real / n as real)
  {
    var last := |bins| - 1;
    if i < last {
      CdfAt(bins[..last], n, i);
      assert bins[..last][..i + 1] == bins[..i + 1];
    } else if last > 0 {
      CdfAt(bins[..last], n, 0);
      assert bins[..i + 1] == bins;
    } else {
      assert bins[..i + 1] == bins;
    }
  }

  lemma {:induction false} TotalGrows(bins: seq<Bin>, i: nat, j: nat)
    requires Histogram(bins) && i < j <= |bins|
    ensures Total(bins[..i]) < Total(bins[..j])
  {
    assert bins[..j][..j - 1] == bins[..j - 1];
    if i == j - 1 {
    } else {
      TotalGrows(bins, i, j - 1);
    }
  }

  lemma DivideOrder(a: real, b: real, n: real)
    requires n > 0.0
    ensures a < b <==> a / n < b / n
    ensures a / n == 1.0 <==> a == n
  {
    assert a / n * n == a && b / n * n == b;
    if a / n == 1.0 {
      assert a == n;
    }
  }

  /** Every entry is a value and the share of the samples up to it; the last
      probability is 1 exactly when the given total is the number of samples. */
  lemma {:induction false} CdfMeaning(bins: seq<Bin>, n: nat, i: nat)
    requires Histogram(bins) && n > 0 && i < |bins|
    ensures var cdf := CdfOfBins(bins, n);
      && |cdf| == |bins|
      && cdf[i] == (bins[i].value, CountLe(Expand(bins), bins[i].value) as real / n as real)
      && (cdf[|cdf| - 1].1 == 1.0 <==> n == Total(bins))
  {
    CdfAt(bins, n, i);
    CdfAt(bins, n, |bins| - 1);
    CountsOfBin(bins, i);
    assert bins[..|bins|] == bins;
    DivideOrder(Total(bins) as real, 0.0, n as real);
  }

  /** Values and probabilities increase strictly. */
  lemma {:induction false} CdfIncreases(bins: seq<Bin>, n: nat, i: nat, j: nat)
    requires Histogram(bins) && n > 0 && i < j < |bins|
    ensures var cdf := CdfOfBins(bins, n);
      |cdf| == |bins| && cdf[i].0 < cdf[j].0 && cdf[i].1 < cdf[j].1
  {
    CdfAt(bins, n, i);
    CdfAt(bins, n, j);
    TotalGrows(bins, i + 1, j + 1);
    DivideOrder(Total(bins[..i + 1]) as real, Total(bins[..j + 1]) as real, n as real);
  }

  /** The first k entries of a CDF without those followed by an equal value. */
  function LastOccurrences(cdf: Cdf, k: nat): Cdf
    requires k <= |cdf|
  {
    if k == 0 then []
    else if k < |cdf| && cdf[k - 1].0 == cdf[k].0 then LastOccurrences(cdf, k - 1)
    else LastOccurrences(cdf, k - 1) + [cdf[k - 1]]
  }

  lemma {:induction false} ExpandAt(bins: seq<Bin>, i: nat, k: nat)
    requires i < |bins| && Total(bins[..i]) <= k < Total(bins[..i + 1])
    ensures k < |Expand(bins)| && Expand(bins)[k] == bins[i].value
  {
    var last := |bins| - 1;
    ExpandFacts(bins[..last]);
    if i < last {
      assert bins[..last][..i] == bins[..i] && bins[..last][..i + 1] == bins[..i + 1];
      ExpandAt(bins[..last], i, k);
    } else {
      assert bins[..i + 1] == bins && bins[..i] == bins[..last];
    }
  }

  /** Within a run of equal samples nothing is kept before the last of them. */
  lemma {:induction false} InsideRun(samples: seq<real>, a: nat, k: nat, v: real)
    requires a <= k < |samples| && forall j :: a <= j <= k ==> samples[j] == v
    ensures LastOccurrences(CdfOfValues(samples), k) == LastOccurrences(CdfOfValues(samples), a)
  {
    if k == a {
    } else {
      InsideRun(samples, a, k - 1, v);
      assert samples[k - 1] == samples[k];
    }
  }

  /** Of a whole run of equal samples the last is kept. */
  lemma RunKept(samples: seq<real>, a: nat, k: nat, v: real)
    requires a < k <= |samples| && forall j :: a <= j < k ==> samples[j] == v
    requires k < |samples| ==> samples[k] != v
    ensures LastOccurrences(CdfOfValues(samples), k) ==
            LastOccurrences(CdfOfValues(samples), a) + [(v, k as real / |samples| as real)]
  {
    var cdf := CdfOfValues(samples);
    InsideRun(samples, a, k - 1, v);
    assert cdf[k - 1] == (v, k as real / |samples| as real);
  }

  /** The first sample after bin i is the next bin's. */
  lemma AfterBin(bins: seq<Bin>, i: nat)
    requires Histogram(bins) && i + 1 < |bins|
    ensures Total(bins[..i + 1]) < |Expand(bins)|
    ensures Expand(bins)[Total(bins[..i + 1])] != bins[i].value
  {
    TotalGrows(bins, i + 1, i + 2);
    ExpandAt(bins, i + 1, Total(bins[..i + 1]));
  }

  /** The samples of bin i are a run of equal samples from a up to k. */
  lemma BinIsRun(bins: seq<Bin>, i: nat, a: nat, k: nat)
    requires Histogram(bins) && i < |bins| && a == Total(bins[..i]) && k == Total(bins[..i + 1])
    ensures a < k <= |Expand(bins)| == Total(bins)
    ensures forall j :: a <= j < k ==> Expand(bins)[j] == bins[i].value
    ensures k < |Expand(bins)| ==> Expand(bins)[k] != bins[i].value
  {
    ExpandLength(bins);
    TotalPrefix(bins, i + 1);
    TotalGrows(bins, i, i + 1);
    forall j | a <= j < k ensures Expand(bins)[j] == bins[i].value {
      ExpandAt(bins, i, j);
    }
    if i + 1 < |bins| {
      AfterBin(bins, i);
    } else {
      assert bins[..i + 1] == bins;
    }
  }

  lemma {:induction false} KeptPrefix(bins: seq<Bin>, i: nat)
    requires Histogram(bins) && bins != [] && i <= |bins|
    ensures Total(bins) > 0 && Total(bins[..i]) <= |Expand(bins)|
    ensures LastOccurrences(CdfOfValues(Expand(bins)), Total(bins[..i])) == CdfOfBins(bins[..i], Total(bins))
  {
    ExpandFacts(bins);
    TotalPrefix(bins, i);
    assert bins[..|bins|] == bins && bins[..0] == [];
    TotalGrows(bins, 0, |bins|);
    if i == 0 {
    } else {
      KeptPrefix(bins, i - 1);
      assert bins[..i][..i - 1] == bins[..i - 1];
      var a, k := Total(bins[..i - 1]), Total(bins[..i]);
      BinIsRun(bins, i - 1, a, k);
      RunKept(Expand(bins), a, k, bins[i - 1].value);
    }
  }

  /** The histogram's CDF is the CDF of its samples, one entry per value. */
  lemma {:induction false} CdfsAgree(bins: seq<Bin>)
    requires Histogram(bins) && bins != []
    ensures Total(bins) > 0
    ensures CdfOfBins(bins, Total(bins)) ==
            LastOccurrences(CdfOfValues(Expand(bins)), |Expand(bins)|)
  {
    ExpandFacts(bins);
    assert bins[..|bins|] == bins && bins[..0] == [];
    TotalGrows(bins, 0, |bins|);
    KeptPrefix(bins, |bins|);
  }
}
