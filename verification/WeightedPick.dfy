/** The weighted choice of a flow: PickFlow of scratch/uhr-mld-mixed-pedca.cc and
    PickAccessCategory of scratch/wifi-clients-udp.cc.  A sample between 0 and the
    total weight is located by a scan over the running sum. */
module WeightedPick {
  import opened Arithmetic

  /** The sum of the first k weights. */
  function Prefix(ws: seq<real>, k: nat): real
    requires k <= |ws|
  {
    if k == 0 then 0.0 else Prefix(ws, k - 1) + ws[k - 1]
  }

  function Total(ws: seq<real>): real {
    Prefix(ws, |ws|)
  }

  /** The index the scan returns when it has come to index i; 0 if none is hit. */
  function Scan(ws: seq<real>, sample: real, i: nat): (r: nat)
    requires i <= |ws|
    ensures |ws| > 0 ==> r < |ws|
    decreases |ws| - i
  {
    if i == |ws| then 0
    else if sample <= Prefix(ws, i + 1) then i
    else Scan(ws, sample, i + 1)
  }

  /** UniformRandomVariable::GetValue(0, total) for a unit draw u. */
  function Sample(u: real, total: real): real {
    u * total
  }

  /** The choice for a uniform draw u from [0, 1]; with no weight at all it is 0. */
  function Pick(ws: seq<real>, u: real): (r: nat)
    ensures |ws| > 0 ==> r < |ws|
  {
    if Total(ws) <= 0.0 then 0 else Scan(ws, Sample(u, Total(ws)), 0)
  }

  /** The two loops: accumulate the total, then scan. */
  method PickIndex(ws: seq<real>, u: real) returns (index: nat)
    ensures index == Pick(ws, u)
  {
    var total := 0.0;
    for i := 0 to |ws|
      invariant total == Prefix(ws, i)
    {
      total := total + ws[i];
    }
    if total <= 0.0 {
      return 0;
    }
    var sample := Sample(u, total);
    var running := 0.0;
    for i := 0 to |ws|
      invariant running == Prefix(ws, i)
      invariant Scan(ws, sample, 0) == Scan(ws, sample, i)
    {
      running := running + ws[i];
      if sample <= running {
        return i;
      }
    }
    return 0;
  }

  ghost predicate NonNegative(ws: seq<real>) {
    forall i :: 0 <= i < |ws| ==> ws[i] >= 0.0
  }

  /** The samples that belong to index i: a half-open interval as long as its weight. */
  ghost predicate InInterval(ws: seq<real>, i: nat, sample: real)
    requires i < |ws|
  {
    Prefix(ws, i) < sample <= Prefix(ws, i + 1)
  }

  lemma {:induction false} PrefixMonotone(ws: seq<real>, i: nat, j: nat)
    requires NonNegative(ws) && i <= j <= |ws|
    ensures Prefix(ws, i) <= Prefix(ws, j)
  {
    if i == j {
    } else {
      PrefixMonotone(ws, i, j - 1);
    }
  }

  lemma {:induction false} ScanFinds(ws: seq<real>, sample: real, i: nat)
    requires NonNegative(ws) && i <= |ws| && Prefix(ws, i) < sample <= Total(ws)
    ensures var r := Scan(ws, sample, i); r < |ws| && InInterval(ws, r, sample)
    decreases |ws| - i
  {
    if i == |ws| || sample <= Prefix(ws, i + 1) {
    } else {
      ScanFinds(ws, sample, i + 1);
    }
  }

  /** Every positive sample is in one interval, the scan returns its index, that
      index has positive weight, and the interval is exactly that long. */
  lemma ScanExact(ws: seq<real>, sample: real, i: nat)
    requires NonNegative(ws) && i < |ws| && 0.0 < sample <= Total(ws)
    ensures Scan(ws, sample, 0) == i <==> InInterval(ws, i, sample)
    ensures InInterval(ws, i, sample) ==> ws[i] > 0.0
    ensures Prefix(ws, i + 1) - Prefix(ws, i) == ws[i]
  {
    ScanFinds(ws, sample, 0);
    var r := Scan(ws, sample, 0);
    if InInterval(ws, i, sample) {
      if r < i {
        PrefixMonotone(ws, r + 1, i);
      } else if i < r {
        PrefixMonotone(ws, i + 1, r);
      }
    }
  }

  function Excluding(ws: seq<real>, e: nat): seq<real>
    requires e < |ws|
  {
    ws[e := 0.0]
  }

  ghost predicate Positive(ws: seq<real>) {
    forall i :: 0 <= i < |ws| ==> ws[i] > 0.0
  }

  lemma {:induction false} PositiveTotal(ws: seq<real>, i: nat)
    requires NonNegative(ws) && i < |ws| && ws[i] > 0.0
    ensures Total(ws) > 0.0
  {
    PrefixMonotone(ws, 0, i);
    PrefixMonotone(ws, i + 1, |ws|);
  }

  lemma SampleRange(u: real, t: real)
    requires 0.0 <= u <= 1.0 && t > 0.0
    ensures 0.0 <= Sample(u, t) <= t
    ensures u > 0.0 ==> Sample(u, t) > 0.0
    ensures u == 0.0 ==> Sample(u, t) == 0.0
  {
    if u > 0.0 {
      Product(u, t);
    }
    if u < 1.0 {
      Product(1.0 - u, t);
    }
  }

  /** The second choice returns the excluded flow exactly when that is flow 0 and
      the draw is 0: the scan compares 0 <= 0 at once. */
  lemma {:induction false} ExcludedIff(ws: seq<real>, e: nat, u: real)
    requires Positive(ws) && |ws| > 1 && e < |ws| && 0.0 <= u <= 1.0
    ensures Pick(Excluding(ws, e), u) == e <==> e == 0 && u == 0.0
  {
    var xs := Excluding(ws, e);
    PositiveTotal(xs, if e == 0 then 1 else 0);
    SampleRange(u, Total(xs));
    var sample := Sample(u, Total(xs));
    if u > 0.0 {
      ScanExact(xs, sample, e);
    } else {
      assert Prefix(xs, 1) == Prefix(xs, 0) + xs[0];
      assert Scan(xs, sample, 0) == 0;
    }
  }

  /** The weights of the four access categories in wifi-clients-udp.cc. */
  const EDCA_WEIGHTS := [0.40, 0.10, 0.35, 0.15]

  function PickAccessCategory(exclude: int, u: real): nat
    requires -1 <= exclude < 4
  {
    Pick(if exclude >= 0 then Excluding(EDCA_WEIGHTS, exclude) else EDCA_WEIGHTS, u)
  }

  /** With a positive draw two access categories of one profile always differ. */
  lemma CategoriesDiffer(u1: real, u2: real)
    requires 0.0 <= u1 <= 1.0 && 0.0 <= u2 <= 1.0
    ensures PickAccessCategory(PickAccessCategory(-1, u1), u2) == PickAccessCategory(-1, u1) <==>
            PickAccessCategory(-1, u1) == 0 && u2 == 0.0
  {
    ExcludedIff(EDCA_WEIGHTS, PickAccessCategory(-1, u1), u2);
  }
}
