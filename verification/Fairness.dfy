/** Jain's fairness index, twice: over doubles in scratch/uhr-mld-mixed-pedca.cc
    and over unsigned 64-bit integers in examples/tcp/dctcp-example.cc. */
module Fairness {
  import opened Arithmetic
  import opened Moments

  function Reals(rx: seq<nat>): seq<real> {
    seq(|rx|, i requires 0 <= i < |rx| => rx[i] as real)
  }

  /** (sum x)^2 / (n * sum x^2). */
  function Jain(s: seq<real>): real
    requires s != [] && SumSq(s) > 0.0
  {
    Product(|s| as real, SumSq(s));
    Sq(Sum(s)) / Mul(|s| as real, SumSq(s))
  }

  lemma Ratio(a: real, b: real)
    requires b > 0.0
    ensures (a <= b <==> a / b <= 1.0) && (a >= b <==> a / b >= 1.0)
  {
    assert a / b * b == a;
    if a / b < 1.0 {
      Product(1.0 - a / b, b);
    } else if a / b > 1.0 {
      Product(a / b - 1.0, b);
    }
  }

  lemma Cancel(a: real, n: real, q: real)
    requires n > 0.0 && q > 0.0
    ensures n * q > 0.0 && n * (a / (n * q)) == a / q
  {
    Product(n, q);
    var x := a / (n * q);
    assert x * (n * q) == a;
    assert (n * x) * q == a;
    assert (n * x) * q / q == n * x;
  }

  lemma OverN(x: real, y: real, n: real)
    requires n > 0.0 && n * x == y
    ensures (1.0 / n <= x <==> 1.0 <= y) && (1.0 / n == x <==> 1.0 == y)
  {
    var u := 1.0 / n;
    assert n * u == 1.0;
    if x < u {
      Product(n, u - x);
    } else if x > u {
      Product(n, x - u);
    }
  }

  /** A quotient t / (n * q) with q <= t <= n * q. */
  lemma Quotients(n: real, q: real, t: real)
    requires n > 0.0 && q > 0.0 && q <= t <= Mul(n, q)
    ensures Mul(n, q) > 0.0 && 1.0 / n <= t / Mul(n, q) <= 1.0
    ensures t / Mul(n, q) == 1.0 <==> t == Mul(n, q)
    ensures t / Mul(n, q) == 1.0 / n <==> t == q
  {
    Product(n, q);
    Ratio(t, n * q);
    Cancel(t, n, q);
    Ratio(t, q);
    OverN(t / (n * q), t / q, n);
  }

  /** For receive counts that are not negative and not all zero the index lies
      between 1/n and 1; it is 1 exactly when all counts are equal, and 1/n
      exactly when one station receives everything. */
  lemma {:induction false} JainRange(s: seq<real>)
    requires s != [] && (forall i :: 0 <= i < |s| ==> s[i] >= 0.0) && SumSq(s) > 0.0
    ensures 1.0 / |s| as real <= Jain(s) <= 1.0
    ensures Jain(s) == 1.0 <==> forall i, j :: 0 <= i < j < |s| ==> s[i] == s[j]
    ensures Jain(s) == 1.0 / |s| as real <==> OneNonzero(s)
  {
    SumSquaredBound(s);
    SumSquaredLower(s);
    Quotients(|s| as real, SumSq(s), Sq(Sum(s)));
  }

  lemma {:induction false} SumSqSign(s: seq<real>)
    ensures SumSq(s) >= 0.0
    ensures SumSq(s) == 0.0 <==> forall i :: 0 <= i < |s| ==> s[i] == 0.0
  {
    if s == [] {
    } else {
      SumSqSign(s[..|s| - 1]);
      SqSign(s[|s| - 1]);
      assert forall i :: 0 <= i < |s| - 1 ==> s[..|s| - 1][i] == s[i];
    }
  }

  function SumNat(rx: seq<nat>): nat {
    if rx == [] then 0 else SumNat(rx[..|rx| - 1]) + rx[|rx| - 1]
  }

  function SumSqNat(rx: seq<nat>): nat {
    if rx == [] then 0 else SumSqNat(rx[..|rx| - 1]) + rx[|rx| - 1] * rx[|rx| - 1]
  }

  /** The square of the sum over n times the sum of the squares. */
  ghost predicate IsRatio(rx: seq<nat>, index: real) {
    var n, sum, squares := |rx|, SumNat(rx), SumSqNat(rx);
    n * squares > 0 && index == (sum * sum) as real / (n * squares) as real
  }

  /** 0 if nothing was received; otherwise Jain's index, which lies between 1/n
      and 1, and is 1 exactly when every station received the same. */
  ghost predicate FairIndex(rx: seq<nat>, jfi: real) {
    if forall i :: 0 <= i < |rx| ==> rx[i] == 0 then jfi == 0.0
    else
      && SumSq(Reals(rx)) > 0.0 && rx != [] && jfi == Jain(Reals(rx)) && IsRatio(rx, jfi)
      && 1.0 / |rx| as real <= jfi <= 1.0
      && (jfi == 1.0 <==> forall i, j :: 0 <= i < j < |rx| ==> rx[i] == rx[j])
  }

  lemma RealsEqual(rx: seq<nat>)
    ensures (forall i, j :: 0 <= i < j < |rx| ==> Reals(rx)[i] == Reals(rx)[j]) <==>
            (forall i, j :: 0 <= i < j < |rx| ==> rx[i] == rx[j])
  {
    if forall i, j :: 0 <= i < j < |rx| ==> Reals(rx)[i] == Reals(rx)[j] {
      forall i, j | 0 <= i < j < |rx| ensures rx[i] == rx[j] {
        assert Reals(rx)[i] == Reals(rx)[j];
      }
    }
  }

  lemma {:induction false} SumsAsReals(rx: seq<nat>)
    ensures Sum(Reals(rx)) == SumNat(rx) as real
    ensures SumSq(Reals(rx)) == SumSqNat(rx) as real
  {
    if rx == [] {
    } else {
      var last := |rx| - 1;
      SumsAsReals(rx[..last]);
      assert Reals(rx)[..last] == Reals(rx[..last]);
      assert Sq(rx[last] as real) == (rx[last] * rx[last]) as real;
    }
  }

  /** Nothing was received exactly when the sum of squares is 0, over the integers
      and over the reals. */
  lemma {:induction false} NothingReceived(rx: seq<nat>)
    ensures SumSq(Reals(rx)) == SumSqNat(rx) as real
    ensures SumSqNat(rx) == 0 <==> forall i :: 0 <= i < |rx| ==> rx[i] == 0
  {
    SumsAsReals(rx);
    SumSqSign(Reals(rx));
    assert forall i :: 0 <= i < |rx| ==> (rx[i] == 0 <==> Reals(rx)[i] == 0.0);
  }

  lemma RealProduct(a: nat, b: nat)
    ensures Mul(a as real, b as real) == (a * b) as real
    ensures a == b ==> Sq(a as real) == (a * b) as real
  {
  }

  lemma AtLeast(n: nat, q: nat)
    requires n > 0
    ensures q <= n * q
  {
  }

  /** Jain's index over the integers' own sums. */
  lemma {:induction false} JainOfSums(rx: seq<nat>)
    requires rx != [] && SumSqNat(rx) > 0
    ensures |rx| * SumSqNat(rx) > 0 && SumSq(Reals(rx)) > 0.0
    ensures Jain(Reals(rx)) == (SumNat(rx) * SumNat(rx)) as real / (|rx| * SumSqNat(rx)) as real
  {
    SumsAsReals(rx);
    RealProduct(SumNat(rx), SumNat(rx));
    RealProduct(|rx|, SumSqNat(rx));
    AtLeast(|rx|, SumSqNat(rx));
  }

  lemma {:induction false} FairFromSums(rx: seq<nat>)
    ensures SumSq(Reals(rx)) >= 0.0
    ensures SumSq(Reals(rx)) == 0.0 || rx == [] ==> FairIndex(rx, 0.0)
    ensures SumSq(Reals(rx)) > 0.0 ==> rx != [] && FairIndex(rx, Jain(Reals(rx)))
  {
    var s := Reals(rx);
    SumSqSign(s);
    assert forall i :: 0 <= i < |rx| ==> (rx[i] == 0 <==> s[i] == 0.0);
    if SumSq(s) > 0.0 {
      JainRange(s);
      RealsEqual(rx);
      NothingReceived(rx);
      JainOfSums(rx);
    }
  }

  /** The index of main: sums in one pass, 0 when there is nothing to divide by. */
  method JainOfReceived(rx: seq<nat>) returns (jfi: real)
    ensures FairIndex(rx, jfi)
  {
    var sumRx, sumSqRx := 0.0, 0.0;
    ghost var s := Reals(rx);
    for i := 0 to |rx|
      invariant sumRx == Sum(s[..i]) && sumSqRx == SumSq(s[..i])
    {
      assert s[..i + 1][..i] == s[..i];
      var rxd := rx[i] as real;
      sumRx := sumRx + rxd;
      sumSqRx := sumSqRx + Sq(rxd);
    }
    assert s[..|rx|] == s;
    FairFromSums(rx);
    if |rx| > 0 && sumSqRx > 0.0 {
      Product(|rx| as real, sumSqRx);
      jfi := Sq(sumRx) / Mul(|rx| as real, sumSqRx);
    } else {
      jfi := 0.0;
    }
  }

  // --------------------------------------------------------- 64-bit integers

  const WORD := 0x1_0000_0000_0000_0000

  function Wrap(x: nat): nat {
    x % WORD
  }

  /** The four values PrintFairness computes for one group, as uint64_t. */
  datatype Words = Words(sum: nat, sumSquares: nat, numerator: nat, denominator: nat)

  lemma WrapAddLeft(a: nat, b: nat)
    ensures Wrap(Wrap(a) + b) == Wrap(a + b)
  {
  }

  lemma WrapAdd(a: nat, b: nat)
    ensures Wrap(Wrap(a) + b) == Wrap(a + b)
    ensures Wrap(Wrap(a) + Wrap(b)) == Wrap(a + b)
  {
    WrapAddLeft(a, b);
    WrapAddLeft(b, Wrap(a));
  }

  /** The words of one more flow. */
  lemma NextWords(rx: seq<nat>, i: nat, sum: nat, sumSquares: nat)
    requires i < |rx| && sum == Wrap(SumNat(rx[..i])) && sumSquares == Wrap(SumSqNat(rx[..i]))
    ensures Wrap(sum + rx[i]) == Wrap(SumNat(rx[..i + 1]))
    ensures Wrap(sumSquares + Wrap(rx[i] * rx[i])) == Wrap(SumSqNat(rx[..i + 1]))
  {
    assert rx[..i + 1][..i] == rx[..i];
    WrapAdd(SumNat(rx[..i]), rx[i]);
    WrapAdd(SumSqNat(rx[..i]), rx[i] * rx[i]);
  }

  /** Reset, accumulate over one group, and form both sides of the division. */
  method FairnessWords(rx: seq<nat>) returns (w: Words)
    ensures w.sum == Wrap(SumNat(rx)) && w.sumSquares == Wrap(SumSqNat(rx))
    ensures w.numerator == Wrap(w.sum * w.sum)
    ensures w.denominator == Wrap(|rx| * w.sumSquares)
  {
    var sum, sumSquares := 0, 0;
    for i := 0 to |rx|
      invariant sum == Wrap(SumNat(rx[..i])) && sumSquares == Wrap(SumSqNat(rx[..i]))
    {
      NextWords(rx, i, sum, sumSquares);
      sum := Wrap(sum + rx[i]);
      sumSquares := Wrap(sumSquares + Wrap(rx[i] * rx[i]));
    }
    assert rx[..|rx|] == rx;
    w := Words(sum, sumSquares, Wrap(sum * sum), Wrap(|rx| * sumSquares));
  }

  /** sum^2 <= n * sum of squares, over the integers. */
  lemma {:induction false} CauchySchwarz(rx: seq<nat>)
    ensures SumNat(rx) * SumNat(rx) <= |rx| * SumSqNat(rx)
  {
    var t, q, n := SumNat(rx), SumSqNat(rx), |rx|;
    assert Sq(t as real) <= Mul(n as real, q as real) by {
      SumsAsReals(rx);
      SumSquaredBound(Reals(rx));
    }
    RealProduct(t, t);
    RealProduct(n, q);
  }

  lemma {:induction false} SumBelowSquares(rx: seq<nat>)
    ensures SumNat(rx) <= SumSqNat(rx)
  {
    if rx == [] {
    } else {
      SumBelowSquares(rx[..|rx| - 1]);
      var x := rx[|rx| - 1];
      assert x <= x * x;
    }
  }

  /** None of the four values wrapped. */
  ghost predicate NothingWraps(rx: seq<nat>) {
    && Wrap(SumNat(rx)) == SumNat(rx) && Wrap(SumSqNat(rx)) == SumSqNat(rx)
    && Wrap(SumNat(rx) * SumNat(rx)) == SumNat(rx) * SumNat(rx)
    && Wrap(|rx| * SumSqNat(rx)) == |rx| * SumSqNat(rx)
  }

  lemma Fits(x: nat)
    ensures Wrap(x) == x <==> x < 0x1_0000_0000_0000_0000
  {
  }

  /** The denominator alone decides: if n * sumSquares fits, so does everything,
      sum * sum included. */
  lemma {:induction false} DenominatorDecides(rx: seq<nat>)
    requires rx != []
    ensures NothingWraps(rx) <==> |rx| * SumSqNat(rx) < WORD
  {
    CauchySchwarz(rx);
    SumBelowSquares(rx);
    AtLeast(|rx|, SumSqNat(rx));
    Fits(SumNat(rx));
    Fits(SumSqNat(rx));
    Fits(SumNat(rx) * SumNat(rx));
    Fits(|rx| * SumSqNat(rx));
  }

  datatype Index = NotANumber | Index(value: real)

  /** double(sum * sum) / (n * sumSquares). */
  function Divide(w: Words): Index {
    if w.denominator == 0 then NotANumber else Index(w.numerator as real / w.denominator as real)
  }

  /** f is Jain's index of a group whose denominator fits in 64 bits. */
  ghost predicate GroupIndex(rx: seq<nat>, f: Index) {
    rx != [] && |rx| * SumSqNat(rx) < WORD ==>
      if forall i :: 0 <= i < |rx| ==> rx[i] == 0 then f.NotANumber?
      else f.Index? && SumSq(Reals(rx)) > 0.0 && f.value == Jain(Reals(rx)) && IsRatio(rx, f.value)
  }

  /** Without a wrap the printed index is Jain's index of the group, or not a
      number when nothing was received at all. */
  lemma {:induction false} PrintedIndexIsJain(rx: seq<nat>)
    requires rx != [] && |rx| * SumSqNat(rx) < WORD
    ensures GroupIndex(rx, Divide(Words(SumNat(rx), SumSqNat(rx), SumNat(rx) * SumNat(rx), |rx| * SumSqNat(rx))))
  {
    NothingReceived(rx);
    if SumSqNat(rx) > 0 {
      JainOfSums(rx);
    }
  }

  lemma {:induction false} ConstantSums(n: nat, v: nat)
    ensures SumNat(seq(n, _ => v)) == n * v && SumSqNat(seq(n, _ => v)) == n * (v * v)
  {
    if n == 0 {
    } else {
      ConstantSums(n - 1, v);
      assert seq(n, _ => v)[..n - 1] == seq(n - 1, _ => v);
    }
  }

  /** A wrap does spoil the index: ten flows of 2^31 bytes each are perfectly
      fair, but both sides of their division wrap to zero. */
  lemma FairGroupLost()
    ensures var rx: seq<nat> := seq(10, _ => 0x8000_0000);
      && !NothingWraps(rx)
      && Divide(Words(Wrap(SumNat(rx)), Wrap(SumSqNat(rx)), Wrap(Wrap(SumNat(rx)) * Wrap(SumNat(rx))),
                      Wrap(|rx| * Wrap(SumSqNat(rx))))) == NotANumber
  {
    var rx: seq<nat> := seq(10, _ => 0x8000_0000);
    ConstantSums(10, 0x8000_0000);
    DenominatorDecides(rx);
  }

  /** No wrap is sufficient, not necessary: here both squares wrap, by the same
      amount, and the quotient is still Jain's index of one busy flow among ten. */
  lemma LuckyWrap()
    ensures var rx: seq<nat> := seq(9, _ => 0) + [0x1_0000_0001];
      && !NothingWraps(rx)
      && GroupIndex(rx, Divide(Words(Wrap(SumNat(rx)), Wrap(SumSqNat(rx)), Wrap(Wrap(SumNat(rx)) * Wrap(SumNat(rx))),
                                     Wrap(|rx| * Wrap(SumSqNat(rx))))))
  {
    var zeros: seq<nat> := seq(9, _ => 0);
    var rx: seq<nat> := zeros + [0x1_0000_0001];
    ConstantSums(9, 0);
    assert rx[..9] == zeros;
    assert SumNat(rx) == 0x1_0000_0001 && SumSqNat(rx) == 0x1_0000_0001 * 0x1_0000_0001;
    DenominatorDecides(rx);
  }

  lemma IndexOfGroup(rx: seq<nat>, w: Words)
    requires w.sum == Wrap(SumNat(rx)) && w.sumSquares == Wrap(SumSqNat(rx))
    requires w.numerator == Wrap(w.sum * w.sum) && w.denominator == Wrap(|rx| * w.sumSquares)
    ensures GroupIndex(rx, Divide(w))
  {
    if rx != [] && |rx| * SumSqNat(rx) < WORD {
      DenominatorDecides(rx);
      PrintedIndexIsJain(rx);
    }
  }

  // ---------------------------------------------------- averages and aggregates

  /** words / window / 1e6. */
  function Mbps(words: nat, window: real): real
    requires window != 0.0
  {
    words as real / window / 1000000.0
  }

  /** The bits that a rate carries in the window. */
  function BitsOf(rate: real, window: real): real {
    rate * 1000000.0 * window
  }

  /** share * 8 / window / 1e6, for the whole bytes per flow; a zero window gives no
      number. */
  function Average(share: nat, window: real): Index {
    if window == 0.0 then NotANumber else Index(Mbps(Wrap(share * 8), window))
  }

  /** bits is at most 8 * sum, and more than 8 * (sum - n). */
  ghost predicate CloseTo(bits: real, sum: nat, n: nat) {
    (8 * (sum - n)) as real < bits <= (8 * sum) as real
  }

  /** The bits per flow that an average stands for fall short of the exact number by
      less than 8, the bits of the byte that the integer division drops. */
  ghost predicate GroupAverage(rx: seq<nat>, window: real, a: Index) {
    rx != [] && window != 0.0 && 8 * SumNat(rx) < WORD ==>
      a.Index? && CloseTo(Mul(|rx| as real, BitsOf(a.value, window)), SumNat(rx), |rx|)
  }

  lemma BitsOfMbps(words: nat, window: real)
    requires window != 0.0
    ensures BitsOf(Mbps(words, window), window) == words as real
  {
    var a := words as real / window;
    assert a / 1000000.0 * 1000000.0 == a;
  }

  /** n times the whole share, against the sum. */
  lemma ShareBounds(sum: nat, n: nat, share: nat)
    requires n > 0 && share == sum / n
    ensures share <= sum && sum - n < n * share <= sum
  {
    assert sum == n * share + sum % n;
    if share > 0 {
      AtLeastOne(n, share);
    }
  }

  lemma BitsBounds(sum: nat, n: nat, share: nat)
    requires sum - n < n * share <= sum
    ensures CloseTo(Mul(n as real, (share * 8) as real), sum, n)
  {
    assert n * (share * 8) == n * share * 8;
    RealProduct(n, share * 8);
  }

  lemma AverageOfGroup(rx: seq<nat>, share: nat, window: real)
    requires rx != [] && 8 * SumNat(rx) < WORD
    requires share <= SumNat(rx) && SumNat(rx) - |rx| < |rx| * share <= SumNat(rx)
    ensures GroupAverage(rx, window, Average(share, window))
  {
    if window != 0.0 {
      Fits(share * 8);
      BitsOfMbps(share * 8, window);
      BitsBounds(SumNat(rx), |rx|, share);
    }
  }

  /** Gbit of two groups together. */
  ghost predicate Aggregate(a: seq<nat>, b: seq<nat>, gbits: real) {
    8 * (SumNat(a) + SumNat(b)) < WORD ==> gbits == (8 * (SumNat(a) + SumNat(b))) as real / 1000000000.0
  }

  lemma NextWord(before: nat, rx: seq<nat>, i: nat, sum: nat)
    requires i < |rx| && sum == Wrap(before + SumNat(rx[..i]))
    ensures Wrap(sum + rx[i]) == Wrap(before + SumNat(rx[..i + 1]))
  {
    assert rx[..i + 1][..i] == rx[..i];
    WrapAdd(before + SumNat(rx[..i]), rx[i]);
  }

  /** sum over one group and on over another, times 8, as a double. */
  method AggregateGbits(a: seq<nat>, b: seq<nat>) returns (gbits: real)
    ensures Aggregate(a, b, gbits)
  {
    var sum := 0;
    for i := 0 to |a|
      invariant sum == Wrap(0 + SumNat(a[..i]))
    {
      NextWord(0, a, i, sum);
      sum := Wrap(sum + a[i]);
    }
    assert a[..|a|] == a;
    for i := 0 to |b|
      invariant sum == Wrap(SumNat(a) + SumNat(b[..i]))
    {
      NextWord(SumNat(a), b, i, sum);
      sum := Wrap(sum + b[i]);
    }
    assert b[..|b|] == b;
    Fits(SumNat(a) + SumNat(b));
    gbits := Wrap(sum * 8) as real / 1000000000.0;
  }

  datatype Line = Line(average: Index, fairness: Index)

  /** What is printed about a group of flows. */
  ghost predicate LineOf(rx: seq<nat>, window: real, l: Line) {
    GroupAverage(rx, window, l.average) && GroupIndex(rx, l.fairness)
  }

  method GroupLine(rx: seq<nat>, window: real) returns (l: Line)
    requires rx != []
    ensures LineOf(rx, window, l)
  {
    var w := FairnessWords(rx);
    var share := w.sum / |rx|;
    l := Line(Average(share, window), Divide(w));
    IndexOfGroup(rx, w);
    if 8 * SumNat(rx) < WORD {
      Fits(SumNat(rx));
      ShareBounds(w.sum, |rx|, share);
      AverageOfGroup(rx, share, window);
    }
  }

  /** PrintFairness over the three groups of 10, 20 and 10 flows, and the traffic
      through T1 and to R1. */
  method PrintFairness(s1r1: seq<nat>, s2r2: seq<nat>, s3r1: seq<nat>, window: real)
    returns (l1: Line, l2: Line, l3: Line, throughT1: real, toR1: real)
    requires |s1r1| == 10 && |s2r2| == 20 && |s3r1| == 10
    ensures LineOf(s1r1, window, l1) && LineOf(s2r2, window, l2) && LineOf(s3r1, window, l3)
    ensures Aggregate(s1r1, s2r2, throughT1) && Aggregate(s3r1, s1r1, toR1)
  {
    l1 := GroupLine(s1r1, window);
    l2 := GroupLine(s2r2, window);
    l3 := GroupLine(s3r1, window);
    throughT1 := AggregateGbits(s1r1, s2r2);
    toR1 := AggregateGbits(s3r1, s1r1);
  }
}
