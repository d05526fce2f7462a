/** Sums, sums of squares and sums of squared deviations of a list of samples,
    and the identities the one-pass computations rest on. */
module Moments {
  import opened Arithmetic

  function Sum(s: seq<real>): real {
    if s == [] then 0.0 else Sum(s[..|s| - 1]) + s[|s| - 1]
  }

  function Sq(x: real): real {
    x * x
  }

  /** Products are named where they are compared, to keep the arithmetic linear. */
  function Mul(x: real, y: real): real {
    x * y
  }

  function SumSq(s: seq<real>): real {
    if s == [] then 0.0 else SumSq(s[..|s| - 1]) + Sq(s[|s| - 1])
  }

  /** The sum of squared deviations from c. */
  function Deviation(s: seq<real>, c: real): real {
    if s == [] then 0.0
    else Deviation(s[..|s| - 1], c) + Sq(s[|s| - 1] - c)
  }

  function Mean(s: seq<real>): real
    requires s != []
  {
    Sum(s) / |s| as real
  }

  /** The deviation from d of n numbers with squares dev and sum sum. */
  function Shifted(dev: real, sum: real, n: real, d: real): real {
    dev - 2.0 * Mul(d, sum) + Mul(n, Sq(d))
  }

  lemma ShiftedZero(d: real)
    ensures Shifted(0.0, 0.0, 0.0, d) == 0.0
  {
  }

  lemma ShiftedMore(dev: real, sum: real, n: real, x: real, d: real)
    ensures Shifted(dev, sum, n, d) + Sq(x - d) == Shifted(dev + Sq(x), sum + x, n + 1.0, d)
  {
    assert Sq(x - d) == Sq(x) - 2.0 * Mul(d, x) + Sq(d);
    assert Mul(d, sum + x) == Mul(d, sum) + Mul(d, x);
    assert Mul(n + 1.0, Sq(d)) == Mul(n, Sq(d)) + Sq(d);
  }

  lemma {:induction false} DeviationExpands(s: seq<real>, c: real)
    ensures Deviation(s, c) == Shifted(SumSq(s), Sum(s), |s| as real, c)
  {
    if s == [] {
      ShiftedZero(c);
    } else {
      var last := |s| - 1;
      DeviationExpands(s[..last], c);
      ShiftedMore(SumSq(s[..last]), Sum(s[..last]), last as real, s[last], c);
    }
  }

  lemma SqPositive(x: real)
    requires x > 0.0
    ensures Sq(x) > 0.0
  {
    var y := x / 2.0;
    assert x * y >= y * y;
    assert Sq(x) >= x * y;
    Product(x, y);
  }

  lemma SqSign(d: real)
    ensures Sq(d) >= 0.0 && (Sq(d) == 0.0 <==> d == 0.0)
  {
    if d > 0.0 {
      SqPositive(d);
    } else if d < 0.0 {
      SqPositive(-d);
      assert Sq(d) == Sq(-d);
    }
  }

  lemma {:induction false} DeviationSign(s: seq<real>, c: real)
    ensures Deviation(s, c) >= 0.0
    ensures Deviation(s, c) == 0.0 <==> forall i :: 0 <= i < |s| ==> s[i] == c
  {
    if s == [] {
    } else {
      var last := |s| - 1;
      DeviationSign(s[..last], c);
      SqSign(s[last] - c);
      assert forall i :: 0 <= i < last ==> s[..last][i] == s[i];
    }
  }

  /** Around the mean t / n. */
  lemma ShiftedToMean(q: real, t: real, n: real, m: real)
    requires n > 0.0 && m == t / n
    ensures Mul(n, Shifted(q, t, n, m)) == Mul(n, q) - Sq(t)
  {
    assert n * m == t;
    assert n * (m * t) == t * t;
    assert n * (n * (m * m)) == (n * m) * (n * m);
    assert Mul(n, Shifted(q, t, n, m)) == n * q - 2.0 * (n * (m * t)) + n * (n * (m * m));
  }

  /** Around the mean, the deviation is n times smaller than n*SumSq - Sum^2. */
  lemma {:induction false} DeviationFromMean(s: seq<real>)
    requires s != []
    ensures Mul(|s| as real, Deviation(s, Mean(s))) == Mul(|s| as real, SumSq(s)) - Sq(Sum(s))
  {
    DeviationExpands(s, Mean(s));
    ShiftedToMean(SumSq(s), Sum(s), |s| as real, Mean(s));
  }

  lemma {:induction false} ConstantSum(s: seq<real>, v: real)
    requires forall i :: 0 <= i < |s| ==> s[i] == v
    ensures Sum(s) == |s| as real * v
  {
    if s == [] {
    } else {
      ConstantSum(s[..|s| - 1], v);
      var n := (|s| - 1) as real;
      assert (n + 1.0) * v == n * v + v;
    }
  }

  lemma {:induction false} ConstantMean(s: seq<real>)
    requires s != [] && forall i, j :: 0 <= i < j < |s| ==> s[i] == s[j]
    ensures Mean(s) == s[0]
  {
    ConstantSum(s, s[0]);
  }

  lemma MulSign(n: real, d: real)
    requires n > 0.0 && d >= 0.0
    ensures Mul(n, d) >= 0.0 && (Mul(n, d) == 0.0 <==> d == 0.0)
  {
    if d > 0.0 {
      Product(n, d);
    }
  }

  /** The Cauchy-Schwarz inequality for a list against all ones. */
  lemma {:induction false} SumSquaredBound(s: seq<real>)
    ensures Sq(Sum(s)) <= Mul(|s| as real, SumSq(s))
    ensures Sq(Sum(s)) == Mul(|s| as real, SumSq(s)) <==>
            forall i, j :: 0 <= i < j < |s| ==> s[i] == s[j]
  {
    if s != [] {
      var n, d := |s| as real, Deviation(s, Mean(s));
      DeviationFromMean(s);
      DeviationSign(s, Mean(s));
      MulSign(n, d);
      if forall i, j :: 0 <= i < j < |s| ==> s[i] == s[j] {
        ConstantMean(s);
      }
    }
  }

  /** At most one sample differs from zero. */
  ghost predicate OneNonzero(s: seq<real>) {
    forall i, j :: 0 <= i < j < |s| ==> s[i] == 0.0 || s[j] == 0.0
  }

  lemma {:induction false} SumSign(s: seq<real>)
    requires forall i :: 0 <= i < |s| ==> s[i] >= 0.0
    ensures Sum(s) >= 0.0
    ensures Sum(s) == 0.0 <==> forall i :: 0 <= i < |s| ==> s[i] == 0.0
  {
    if s == [] {
    } else {
      SumSign(s[..|s| - 1]);
    }
  }

  lemma SquareOfSum(t: real, x: real)
    requires t >= 0.0 && x >= 0.0
    ensures Sq(t + x) >= Sq(t) + Sq(x)
    ensures Sq(t + x) == Sq(t) + Sq(x) <==> t == 0.0 || x == 0.0
  {
    assert Sq(t + x) == Sq(t) + 2.0 * (t * x) + Sq(x);
    if t > 0.0 && x > 0.0 {
      Product(t, x);
    } else {
      assert t * x == 0.0;
    }
  }

  lemma {:induction false} OneNonzeroStep(s: seq<real>)
    requires s != [] && forall i :: 0 <= i < |s| ==> s[i] >= 0.0
    ensures OneNonzero(s) <==>
            OneNonzero(s[..|s| - 1]) && (Sum(s[..|s| - 1]) == 0.0 || s[|s| - 1] == 0.0)
  {
    var last := |s| - 1;
    SumSign(s[..last]);
    if OneNonzero(s) && s[last] != 0.0 {
      forall i | 0 <= i < last ensures s[..last][i] == 0.0 {
        assert s[..last][i] == s[i];
      }
    }
    if OneNonzero(s) {
      forall i, j | 0 <= i < j < last ensures s[..last][i] == 0.0 || s[..last][j] == 0.0 {
        assert s[i] == 0.0 || s[j] == 0.0;
      }
    }
    if OneNonzero(s[..last]) && (Sum(s[..last]) == 0.0 || s[last] == 0.0) {
      forall i, j | 0 <= i < j < |s| ensures s[i] == 0.0 || s[j] == 0.0 {
        assert s[..last][i] == s[i];
        if j < last {
          assert s[..last][j] == s[j];
        }
      }
    }
  }

  /** For nonnegative samples the square of the sum is at least the sum of squares. */
  lemma {:induction false} SumSquaredLower(s: seq<real>)
    requires forall i :: 0 <= i < |s| ==> s[i] >= 0.0
    ensures Sq(Sum(s)) >= SumSq(s)
    ensures Sq(Sum(s)) == SumSq(s) <==> OneNonzero(s)
  {
    if s == [] {
    } else {
      var last := |s| - 1;
      SumSquaredLower(s[..last]);
      SumSign(s[..last]);
      SquareOfSum(Sum(s[..last]), s[last]);
      OneNonzeroStep(s);
    }
  }
}
