/** The voice-queue depth statistics of scratch/uhr-mld-mixed-pedca.cc: the area
    under the depth curve, its maximum, and the mean over all stations.  Times are
    exact reals. */
module QueueDepth {

  /** One call of OnVoQueueDepthChange. */
  datatype Change = Change(oldVal: nat, newVal: nat, at: real)

  /** Time and depth after some changes. */
  function LastAt(cs: seq<Change>): real {
    if cs == [] then 0.0 else cs[|cs| - 1].at
  }

  function LastDepth(cs: seq<Change>): nat {
    if cs == [] then 0 else cs[|cs| - 1].newVal
  }

  /** Changes in time order, each starting from the depth the last one left. */
  ghost predicate WellFormed(cs: seq<Change>) {
    cs == [] ||
    (var before, c := cs[..|cs| - 1], cs[|cs| - 1];
     WellFormed(before) && c.oldVal == LastDepth(before) && c.at >= LastAt(before))
  }

  function Times(d: int, x: real): real {
    d as real * x
  }

  lemma TimesAdd(d: int, e: int, x: real, y: real)
    ensures Times(d + e, x) == Times(d, x) + Times(e, x)
    ensures Times(d, x + y) == Times(d, x) + Times(d, y)
    ensures Times(d, 0.0) == 0.0 && Times(0, x) == 0.0
  {
    assert (d + e) as real * x == d as real * x + e as real * x;
  }

  lemma TimesMonotone(d: int, e: int, x: real)
    requires d <= e && x >= 0.0
    ensures Times(d, x) <= Times(e, x)
  {
    TimesAdd(d, e - d, x, 0.0);
    assert (e - d) as real >= 0.0;
    assert (e - d) as real * x >= 0.0;
  }

  // --------------------------------------------------- what should be measured

  /** The depth at time t: where the last change up to t led. */
  function Depth(cs: seq<Change>, t: real): nat {
    if cs == [] then 0
    else if cs[|cs| - 1].at <= t then cs[|cs| - 1].newVal
    else Depth(cs[..|cs| - 1], t)
  }

  /** The integral of the depth from 0 to t, jump by jump: each change raises (or
      lowers) the curve for the time that is left. */
  function Integral(cs: seq<Change>, t: real): real {
    if cs == [] then 0.0
    else
      var c := cs[|cs| - 1];
      Integral(cs[..|cs| - 1], t) + (if c.at <= t then Times(c.newVal as int - c.oldVal as int, t - c.at) else 0.0)
  }

  lemma {:induction false} LastIsLatest(cs: seq<Change>)
    requires WellFormed(cs)
    ensures LastAt(cs) >= 0.0 && forall i :: 0 <= i < |cs| ==> 0.0 <= cs[i].at <= LastAt(cs)
  {
    if cs == [] {
    } else {
      LastIsLatest(cs[..|cs| - 1]);
    }
  }

  lemma LatestDepth(cs: seq<Change>, t: real)
    requires WellFormed(cs) && t >= LastAt(cs)
    ensures Depth(cs, t) == LastDepth(cs)
  {
  }

  /** Integral is the integral of Depth: over a stretch without a change it grows
      by the depth times the length, and it starts at 0. */
  lemma {:induction false} IntegralGrows(cs: seq<Change>, a: real, b: real)
    requires WellFormed(cs) && a <= b
    requires forall i :: 0 <= i < |cs| ==> !(a < cs[i].at <= b)
    ensures Integral(cs, b) == Integral(cs, a) + Times(Depth(cs, a), b - a)
  {
    if cs == [] {
      TimesAdd(0, 0, b - a, 0.0);
    } else {
      var last := |cs| - 1;
      var c := cs[last];
      assert !(a < c.at <= b);
      forall i | 0 <= i < last ensures !(a < cs[..last][i].at <= b) {
        assert cs[..last][i] == cs[i];
      }
      IntegralGrows(cs[..last], a, b);
      if c.at <= a {
        LastIsLatest(cs);
        LastIsLatest(cs[..last]);
        LatestDepth(cs[..last], a);
        var d := c.newVal as int - c.oldVal as int;
        TimesAdd(d, c.oldVal, b - a, 0.0);
        TimesAdd(d, 0, a - c.at, b - a);
        assert a - c.at + (b - a) == b - c.at;
      }
    }
  }

  lemma {:induction false} IntegralAtZero(cs: seq<Change>)
    requires WellFormed(cs)
    ensures Integral(cs, 0.0) == 0.0
  {
    if cs == [] {
    } else {
      IntegralAtZero(cs[..|cs| - 1]);
      LastIsLatest(cs);
      TimesAdd(cs[|cs| - 1].newVal as int - cs[|cs| - 1].oldVal as int, 0, 0.0, 0.0);
    }
  }

  function Maximum(cs: seq<Change>): nat {
    if cs == [] then 0
    else
      var m := Maximum(cs[..|cs| - 1]);
      if cs[|cs| - 1].newVal > m then cs[|cs| - 1].newVal else m
  }

  /** The area is at most the maximal depth times the duration. */
  lemma {:induction false} IntegralBound(cs: seq<Change>, t: real)
    requires WellFormed(cs) && t >= LastAt(cs)
    ensures Integral(cs, t) <= Times(Maximum(cs), t)
    ensures Depth(cs, t) <= Maximum(cs)
  {
    if cs == [] {
      TimesAdd(0, 0, t, 0.0);
    } else {
      var last := |cs| - 1;
      var c := cs[last];
      LastIsLatest(cs);
      IntegralBound(cs[..last], c.at);
      assert Integral(cs, c.at) == Integral(cs[..last], c.at) by {
        TimesAdd(c.newVal as int - c.oldVal as int, 0, 0.0, 0.0);
      }
      IntegralGrows(cs, c.at, t);
      TimesMonotone(Maximum(cs[..last]), Maximum(cs), c.at);
      TimesMonotone(c.newVal, Maximum(cs), t - c.at);
      TimesAdd(Maximum(cs), 0, c.at, t - c.at);
      assert c.at + (t - c.at) == t;
    }
  }

  // ---------------------------------------------------------- the bookkeeping

  function Max(x: real, y: real): (m: real)
    ensures x <= m && y <= m && (m == x || m == y)
  {
    if x < y then y else x
  }

  lemma ChangeExtends(cs: seq<Change>, c: Change)
    requires WellFormed(cs + [c])
    ensures WellFormed(cs) && LastAt(cs) <= c.at && LastDepth(cs) == c.oldVal
    ensures LastAt(cs + [c]) == c.at && LastDepth(cs + [c]) == c.newVal
    ensures Integral(cs + [c], c.at) == Integral(cs, LastAt(cs)) + Times(c.oldVal, Max(0.0, c.at - LastAt(cs)))
    ensures Maximum(cs + [c]) == if c.newVal > Maximum(cs) then c.newVal else Maximum(cs)
  {
    assert (cs + [c])[..|cs|] == cs;
    LastIsLatest(cs);
    LatestDepth(cs, LastAt(cs));
    IntegralGrows(cs, LastAt(cs), c.at);
    TimesAdd(c.newVal as int - c.oldVal as int, 0, 0.0, 0.0);
  }

  /** The depth fields of VoStaStats. */
  class StaDepth {
    var queueDepthLast: nat
    var queueDepthLastUpdateSec: real
    var queueDepthArea: real
    var queueDepthMax: nat
    ghost var changes: seq<Change>

    /** The fields against the changes seen so far. */
    ghost predicate Valid()
      reads this
    {
      && WellFormed(changes)
      && queueDepthLastUpdateSec == LastAt(changes)
      && queueDepthLast == LastDepth(changes)
      && queueDepthArea == Integral(changes, LastAt(changes))
      && queueDepthMax == Maximum(changes)
    }

    constructor ()
      ensures Valid() && changes == []
    {
      queueDepthLast, queueDepthLastUpdateSec, queueDepthArea, queueDepthMax := 0, 0.0, 0.0, 0;
      changes := [];
    }

    method OnVoQueueDepthChange(oldVal: nat, newVal: nat, nowSec: real)
      requires Valid() && WellFormed(changes + [Change(oldVal, newVal, nowSec)])
      modifies this
      ensures Valid() && changes == old(changes) + [Change(oldVal, newVal, nowSec)]
    {
      ghost var next := changes + [Change(oldVal, newVal, nowSec)];
      ChangeExtends(changes, Change(oldVal, newVal, nowSec));
      queueDepthArea := queueDepthArea + Times(oldVal, Max(0.0, nowSec - queueDepthLastUpdateSec));
      queueDepthLast := newVal;
      queueDepthLastUpdateSec := nowSec;
      queueDepthMax := if newVal > queueDepthMax then newVal else queueDepthMax;
      changes := next;
    }

    /** The last stretch, added when the results are collected; nothing for a
        simulation that ends before the last change. */
    method Flush(simTime: real)
      requires Valid()
      modifies this`queueDepthArea
      ensures queueDepthArea == Integral(changes, Max(LastAt(changes), simTime))
      ensures queueDepthMax == Maximum(changes)
    {
      LastIsLatest(changes);
      LatestDepth(changes, LastAt(changes));
      TimesAdd(queueDepthLast, 0, 0.0, 0.0);
      IntegralGrows(changes, LastAt(changes), Max(LastAt(changes), simTime));
      queueDepthArea := queueDepthArea + Times(queueDepthLast, Max(0.0, simTime - queueDepthLastUpdateSec));
    }
  }

  // ------------------------------------------------------- mean over stations

  function OverTime(area: real, t: real): real
    requires t > 0.0
  {
    area / t
  }

  /** The integral of one station's depth up to the end, or to its last change. */
  function Area(cs: seq<Change>, end: real): real {
    Integral(cs, Max(LastAt(cs), end))
  }

  /** The areas of some stations, each divided by the duration. */
  function MeanSum(histories: seq<seq<Change>>, end: real): real {
    if histories == [] then 0.0
    else
      var last := |histories| - 1;
      MeanSum(histories[..last], end) + OverTime(Area(histories[last], end), Max(0.001, end))
  }

  lemma MeanSumStep(histories: seq<seq<Change>>, end: real, k: nat)
    requires k < |histories|
    ensures MeanSum(histories[..k + 1], end) ==
            MeanSum(histories[..k], end) + OverTime(Area(histories[k], end), Max(0.001, end))
  {
    assert histories[..k + 1][..k] == histories[..k];
  }

  /** The areas of some stations together. */
  function TotalArea(histories: seq<seq<Change>>, end: real): real {
    if histories == [] then 0.0
    else TotalArea(histories[..|histories| - 1], end) + Area(histories[|histories| - 1], end)
  }

  /** x, held for a time t, has the area a. */
  ghost predicate Held(x: real, t: real, a: real) {
    x * t == a
  }

  lemma HeldTogether(x: real, y: real, t: real, a: real, b: real)
    requires Held(x, t, a) && Held(y, t, b)
    ensures Held(x + y, t, a + b)
  {
  }

  lemma OverTimeHeld(area: real, t: real)
    requires t > 0.0
    ensures Held(OverTime(area, t), t, area)
  {
  }

  /** Divided station by station, or once at the end. */
  lemma {:induction false} MeanSumTotal(histories: seq<seq<Change>>, end: real)
    ensures Held(MeanSum(histories, end), Max(0.001, end), TotalArea(histories, end))
  {
    if histories == [] {
    } else {
      var last, t := |histories| - 1, Max(0.001, end);
      MeanSumTotal(histories[..last], end);
      OverTimeHeld(Area(histories[last], end), t);
      HeldTogether(MeanSum(histories[..last], end), OverTime(Area(histories[last], end), t), t,
                   TotalArea(histories[..last], end), Area(histories[last], end));
    }
  }

  lemma DivideBack(sum: real, n: nat, t: real, area: real)
    requires n > 0 && Held(sum, t, area)
    ensures Held(sum / n as real * n as real, t, area)
  {
  }

  /** The mean, multiplied by the stations and by the duration, is the whole area. */
  ghost predicate IsAverage(mean: real, histories: seq<seq<Change>>, end: real) {
    Held(mean * (if |histories| > 1 then |histories| else 1) as real,
         if end > 0.001 then end else 0.001, TotalArea(histories, end))
  }

  lemma {:induction false} MeanIsAverage(histories: seq<seq<Change>>, end: real)
    ensures IsAverage(MeanSum(histories, end) / (if |histories| > 1 then |histories| else 1) as real, histories, end)
  {
    MeanSumTotal(histories, end);
    DivideBack(MeanSum(histories, end), if |histories| > 1 then |histories| else 1, Max(0.001, end),
               TotalArea(histories, end));
  }

  lemma DivideBound(a: real, b: real, t: real)
    requires t > 0.0 && a <= b * t
    ensures a / t <= b
  {
  }

  lemma TimesLonger(m: nat, x: real, y: real)
    requires x <= y
    ensures Times(m, x) <= Times(m, y)
  {
    TimesAdd(m, 0, x, y - x);
    assert m as real * (y - x) >= 0.0;
  }

  lemma AreaOverTime(area: real, m: nat, end: real)
    requires area <= Times(m, end)
    ensures OverTime(area, Max(0.001, end)) <= m as real
  {
    TimesLonger(m, end, Max(0.001, end));
    DivideBound(area, m as real, Max(0.001, end));
  }

  lemma StationMean(cs: seq<Change>, end: real)
    requires WellFormed(cs) && end >= LastAt(cs)
    ensures OverTime(Area(cs, end), Max(0.001, end)) <= Maximum(cs) as real
  {
    IntegralBound(cs, end);
    AreaOverTime(Integral(cs, end), Maximum(cs), end);
  }

  lemma OneTimes(k: nat, m: nat)
    ensures Times(k + 1, m as real) == Times(k, m as real) + m as real
  {
    TimesAdd(k, 1, m as real, 0.0);
    assert Times(1, m as real) == m as real;
  }

  /** The means of stations whose depths stay below m. */
  lemma {:induction false} MeanSumBound(histories: seq<seq<Change>>, end: real, m: nat)
    requires forall i :: 0 <= i < |histories| ==>
      WellFormed(histories[i]) && end >= LastAt(histories[i]) && Maximum(histories[i]) <= m
    ensures MeanSum(histories, end) <= Times(|histories|, m as real)
  {
    var n := |histories|;
    if n == 0 {
      TimesAdd(0, 0, m as real, 0.0);
    } else {
      MeanSumBound(histories[..n - 1], end, m);
      StationMean(histories[n - 1], end);
      OneTimes(n - 1, m);
    }
  }

  lemma MeanBound(sum: real, k: nat, n: nat, m: real)
    requires sum <= Times(k, m) && m >= 0.0 && n == (if k > 1 then k else 1)
    ensures sum / n as real <= m
  {
    TimesMonotone(k, n, m);
    DivideBound(sum, m, n as real);
  }

  /** The greatest depth of any station. */
  function Highest(histories: seq<seq<Change>>): nat {
    if histories == [] then 0
    else
      var before, last := Highest(histories[..|histories| - 1]), Maximum(histories[|histories| - 1]);
      if last > before then last else before
  }

  lemma {:induction false} HighestFacts(histories: seq<seq<Change>>)
    ensures forall i :: 0 <= i < |histories| ==> Maximum(histories[i]) <= Highest(histories)
    ensures histories != [] ==> exists i :: 0 <= i < |histories| && Maximum(histories[i]) == Highest(histories)
  {
    if histories == [] {
    } else {
      var last := |histories| - 1;
      var before := histories[..last];
      HighestFacts(before);
      assert forall i :: 0 <= i < last ==> before[i] == histories[i];
      if before != [] && Maximum(histories[last]) <= Highest(before) {
        var i :| 0 <= i < last && Maximum(before[i]) == Highest(before);
        assert Maximum(histories[i]) == Highest(histories);
      } else {
        assert Maximum(histories[last]) == Highest(histories);
      }
    }
  }

  lemma {:induction false} MeanIsBounded(histories: seq<seq<Change>>, end: real)
    requires forall i :: 0 <= i < |histories| ==> WellFormed(histories[i])
    ensures (forall i :: 0 <= i < |histories| ==> end >= LastAt(histories[i])) ==>
      MeanSum(histories, end) / (if |histories| > 1 then |histories| else 1) as real <= Highest(histories) as real
  {
    if forall i :: 0 <= i < |histories| ==> end >= LastAt(histories[i]) {
      HighestFacts(histories);
      MeanSumBound(histories, end, Highest(histories));
      MeanBound(MeanSum(histories, end), |histories|, if |histories| > 1 then |histories| else 1, Highest(histories) as real);
    }
  }

  /** What dividing by the number of stations makes of the sum. */
  lemma MeanFacts(histories: seq<seq<Change>>, end: real, mean: real)
    requires forall i :: 0 <= i < |histories| ==> WellFormed(histories[i])
    requires mean == MeanSum(histories, end) / (if |histories| > 1 then |histories| else 1) as real
    ensures IsAverage(mean, histories, end)
    ensures (forall i :: 0 <= i < |histories| ==> end >= LastAt(histories[i])) ==> mean <= Highest(histories) as real
  {
    MeanIsBounded(histories, end);
    MeanIsAverage(histories, end);
  }

  /** The results loop: flush every station, add its mean depth, keep the maximum,
      divide by the number of stations.  The mean is the average over stations and
      time (at least a millisecond), and never above the reported maximum if the
      simulation does not end before the last change. */
  method CollectDepth(stas: seq<StaDepth>, simTime: real, ghost histories: seq<seq<Change>>)
    returns (mean: real, depthMax: nat)
    requires |histories| == |stas|
    requires forall i, j :: 0 <= i < j < |stas| ==> stas[i] != stas[j]
    requires forall i :: 0 <= i < |stas| ==> stas[i].Valid() && stas[i].changes == histories[i]
    modifies stas
    ensures mean == MeanSum(histories, simTime) / (if |stas| > 1 then |stas| else 1) as real
    ensures IsAverage(mean, histories, simTime)
    ensures (forall i :: 0 <= i < |stas| ==> simTime >= LastAt(histories[i])) ==> mean <= depthMax as real
    ensures forall i :: 0 <= i < |stas| ==> Maximum(histories[i]) <= depthMax
    ensures |stas| > 0 ==> exists i :: 0 <= i < |stas| && Maximum(histories[i]) == depthMax
  {
    assert forall i :: 0 <= i < |stas| ==> WellFormed(stas[i].changes);
    mean, depthMax := 0.0, 0;
    for k := 0 to |stas|
      invariant forall i :: k <= i < |stas| ==> stas[i].Valid() && stas[i].changes == histories[i]
      invariant mean == MeanSum(histories[..k], simTime)
      invariant depthMax == Highest(histories[..k])
    {
      var st := stas[k];
      MeanSumStep(histories, simTime, k);
      assert histories[..k + 1][..k] == histories[..k];
      st.Flush(simTime);
      mean := mean + OverTime(st.queueDepthArea, Max(0.001, simTime));
      if st.queueDepthMax > depthMax {
        depthMax := st.queueDepthMax;
      }
    }
    assert histories[..|stas|] == histories;
    var n := if |stas| > 1 then |stas| else 1;
    HighestFacts(histories);
    mean := mean / n as real;
    MeanFacts(histories, simTime, mean);
  }
}
