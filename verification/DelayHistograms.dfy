/** The merging of per-flow delay histograms in the main function of
    scratch/uhr-mld-mixed-pedca.cc, and what the percentiles computed from the
    merged bins mean for the samples of all flows. */
module DelayHistograms {
  import opened Percentiles

  type Address = nat

  /** One flow of the flow monitor: its tuple and its delay histogram. */
  datatype Flow = Flow(protocol: nat, destination: Address, port: nat, counts: seq<nat>, binWidth: real)

  datatype Setup = Setup(
    apAddr: Address, staAddrs: set<Address>, enableUl: bool, enableDl: bool, nStas: nat)
  {
    predicate IsUl(f: Flow) {
      f.destination == apAddr
    }

    predicate IsDl(f: Flow) {
      f.destination in staAddrs
    }

    /** A flow on one of the ports given to the voice category (index 3 of 4). */
    predicate IsVo(f: Flow) {
      var tracked := 7000 <= f.port < 7000 + nStas * 4 || 8000 <= f.port < 8000 + nStas * 4;
      tracked && (f.port - (if f.port >= 8000 then 8000 else 7000)) % 4 == 3
    }

    /** UDP, in an enabled direction. */
    predicate Counted(f: Flow) {
      f.protocol == 17 &&
      !((!enableUl && IsUl(f)) || (!enableDl && IsDl(f)) || (!IsUl(f) && !IsDl(f)))
    }
  }

  /** The end of bin i, in milliseconds. */
  function BinEndMs(f: Flow, i: nat): real {
    (i + 1) as real * f.binWidth * 1000.0
  }

  // ------------------------------------------------------------ one histogram

  /** bins[value] += count on a std::map kept in key order. */
  function AddTo(bins: seq<Bin>, value: real, count: nat): seq<Bin> {
    if bins == [] then [Bin(value, count)]
    else
      var last := |bins| - 1;
      if bins[last].value < value then bins + [Bin(value, count)]
      else if bins[last].value == value then bins[..last] + [Bin(value, bins[last].count + count)]
      else AddTo(bins[..last], value, count) + [bins[last]]
  }

  /** How many samples of a histogram have value v. */
  function At(bins: seq<Bin>, v: real): nat {
    if bins == [] then 0
    else At(bins[..|bins| - 1], v) + (if bins[|bins| - 1].value == v then bins[|bins| - 1].count else 0)
  }

  function Above(bins: seq<Bin>, limit: real): nat {
    if bins == [] then 0
    else Above(bins[..|bins| - 1], limit) + (if bins[|bins| - 1].value > limit then bins[|bins| - 1].count else 0)
  }

  ghost predicate BinsBelow(bins: seq<Bin>, w: real) {
    forall i :: 0 <= i < |bins| ==> bins[i].value < w
  }

  lemma {:induction false} AddToBelow(bins: seq<Bin>, value: real, count: nat, w: real)
    requires BinsBelow(bins, w) && value < w
    ensures BinsBelow(AddTo(bins, value, count), w)
  {
    if bins == [] {
    } else {
      AddToBelow(bins[..|bins| - 1], value, count, w);
    }
  }

  lemma HistogramAppend(bins: seq<Bin>, bin: Bin)
    requires Histogram(bins) && BinsBelow(bins, bin.value) && bin.count > 0
    ensures Histogram(bins + [bin])
  {
  }

  lemma {:induction false} LastAbove(bins: seq<Bin>)
    requires Histogram(bins) && bins != []
    ensures Histogram(bins[..|bins| - 1]) && BinsBelow(bins[..|bins| - 1], bins[|bins| - 1].value)
  {
  }

  lemma {:induction false} AddToSorted(bins: seq<Bin>, value: real, count: nat)
    requires Histogram(bins) && count > 0
    ensures Histogram(AddTo(bins, value, count))
  {
    if bins == [] {
    } else {
      var last := |bins| - 1;
      LastAbove(bins);
      if bins[last].value < value {
        HistogramAppend(bins, Bin(value, count));
      } else if bins[last].value == value {
        HistogramAppend(bins[..last], Bin(value, bins[last].count + count));
      } else {
        AddToSorted(bins[..last], value, count);
        AddToBelow(bins[..last], value, count, bins[last].value);
        HistogramAppend(AddTo(bins[..last], value, count), bins[last]);
      }
    }
  }

  lemma {:induction false} AddToTotal(bins: seq<Bin>, value: real, count: nat)
    ensures Total(AddTo(bins, value, count)) == Total(bins) + count
  {
    if bins == [] {
    } else {
      var last := |bins| - 1;
      AddToTotal(bins[..last], value, count);
      var r := AddTo(bins, value, count);
      if bins[last].value < value {
        assert r[..|bins|] == bins;
      } else if bins[last].value == value {
        assert r[..last] == bins[..last];
      } else {
        assert r[..|r| - 1] == AddTo(bins[..last], value, count);
      }
    }
  }

  lemma {:induction false} AddToCounts(bins: seq<Bin>, value: real, count: nat, v: real)
    ensures At(AddTo(bins, value, count), v) == At(bins, v) + (if v == value then count else 0)
    ensures Above(AddTo(bins, value, count), v) == Above(bins, v) + (if value > v then count else 0)
  {
    if bins == [] {
    } else {
      var last := |bins| - 1;
      if bins[last].value > value {
        AddToCounts(bins[..last], value, count, v);
        var lower := AddTo(bins[..last], value, count);
        assert (lower + [bins[last]])[..|lower|] == lower;
      } else if bins[last].value == value {
        var r := bins[..last] + [Bin(value, bins[last].count + count)];
        assert r[..last] == bins[..last];
      } else {
        assert (bins + [Bin(value, count)])[..|bins|] == bins;
      }
    }
  }

  /** The samples above a limit are those that are not up to it. */
  lemma {:induction false} AboveMeaning(bins: seq<Bin>, limit: real)
    ensures Above(bins, limit) + CountLe(Expand(bins), limit) == Total(bins)
  {
    if bins == [] {
    } else {
      var last := |bins| - 1;
      AboveMeaning(bins[..last], limit);
      CountsAppend(Expand(bins[..last]), limit, bins[last].value, bins[last].count);
    }
  }

  /** The bins and the sample counter kept beside them. */
  datatype Merged = Merged(bins: seq<Bin>, samples: nat) {
    ghost predicate Valid() {
      Histogram(bins) && Total(bins) == samples
    }

    function Add(value: real, count: nat): Merged {
      Merged(AddTo(bins, value, count), samples + count)
    }

    lemma AddFacts(value: real, count: nat)
      requires Valid() && count > 0
      ensures Add(value, count).Valid()
      ensures forall v :: At(Add(value, count).bins, v) == At(bins, v) + (if v == value then count else 0)
    {
      AddToSorted(bins, value, count);
      AddToTotal(bins, value, count);
      forall v ensures At(Add(value, count).bins, v) == At(bins, v) + (if v == value then count else 0) {
        AddToCounts(bins, value, count, v);
      }
    }
  }

  // -------------------------------------------------------------- all of them

  /** Which flows a merged histogram collects. */
  datatype Kind = Every | Up | Down | Voice

  /** Station k sends its voice traffic to the fourth of its four ports. */
  predicate VoicePort(f: Flow, base: nat, k: nat) {
    f.port == base + 4 * k + 3
  }

  /** A UDP flow to the access point or to a station, no direction of which is
      switched off, and of the kind asked for. */
  ghost predicate Collects(s: Setup, kind: Kind, f: Flow) {
    && f.protocol == 17
    && (f.destination == s.apAddr || f.destination in s.staAddrs)
    && (f.destination == s.apAddr ==> s.enableUl)
    && (f.destination in s.staAddrs ==> s.enableDl)
    && (kind == Up ==> f.destination == s.apAddr)
    && (kind == Down ==> f.destination in s.staAddrs)
    && (kind == Voice ==> exists k: nat :: k < s.nStas && (VoicePort(f, 7000, k) || VoicePort(f, 8000, k)))
  }

  lemma VoiceIff(s: Setup, f: Flow)
    ensures s.IsVo(f) <==> exists k: nat :: k < s.nStas && (VoicePort(f, 7000, k) || VoicePort(f, 8000, k))
  {
    if s.IsVo(f) {
      if f.port < 7000 + s.nStas * 4 {
        assert (f.port - 7000) % 4 == 3;
        assert VoicePort(f, 7000, (f.port - 7003) / 4);
      } else {
        assert VoicePort(f, 8000, (f.port - 8003) / 4);
      }
    }
  }

  /** The tests of the loop pick the flows of the four kinds. */
  lemma CollectsIff(s: Setup, f: Flow)
    ensures Collects(s, Every, f) <==> s.Counted(f)
    ensures Collects(s, Up, f) <==> s.Counted(f) && s.IsUl(f)
    ensures Collects(s, Down, f) <==> s.Counted(f) && s.IsDl(f)
    ensures Collects(s, Voice, f) <==> s.Counted(f) && s.IsVo(f)
  {
    VoiceIff(s, f);
  }

  /** Samples with value v in the first n bins of a flow: the n-th bin ends at n
      bin widths, given in seconds. */
  function FlowAt(f: Flow, n: nat, v: real): nat
    requires n <= |f.counts|
  {
    if n == 0 then 0
    else FlowAt(f, n - 1, v) + (if n as real * f.binWidth * 1000.0 == v then f.counts[n - 1] else 0)
  }

  function FlowTotal(f: Flow, n: nat): nat
    requires n <= |f.counts|
  {
    if n == 0 then 0 else FlowTotal(f, n - 1) + f.counts[n - 1]
  }

  /** Samples with value v in all flows of a kind. */
  ghost function FlowsAt(s: Setup, kind: Kind, flows: seq<Flow>, v: real): nat {
    if flows == [] then 0
    else
      var f := flows[|flows| - 1];
      FlowsAt(s, kind, flows[..|flows| - 1], v) + (if Collects(s, kind, f) then FlowAt(f, |f.counts|, v) else 0)
  }

  ghost function FlowsTotal(s: Setup, kind: Kind, flows: seq<Flow>): nat {
    if flows == [] then 0
    else
      var f := flows[|flows| - 1];
      FlowsTotal(s, kind, flows[..|flows| - 1]) + (if Collects(s, kind, f) then FlowTotal(f, |f.counts|) else 0)
  }

  /** A merged histogram holds exactly the samples of the flows of its kind, and
      of the first n bins of one more flow. */
  ghost predicate Holds(m: Merged, s: Setup, kind: Kind, flows: seq<Flow>, f: Flow, n: nat)
    requires n <= |f.counts|
  {
    && m.Valid()
    && m.samples == FlowsTotal(s, kind, flows) + (if Collects(s, kind, f) then FlowTotal(f, n) else 0)
    && forall v :: At(m.bins, v) == FlowsAt(s, kind, flows, v) + (if Collects(s, kind, f) then FlowAt(f, n, v) else 0)
  }

  lemma AddHolds(m: Merged, s: Setup, kind: Kind, flows: seq<Flow>, f: Flow, i: nat)
    requires i < |f.counts| && Holds(m, s, kind, flows, f, i)
    ensures f.counts[i] == 0 || !Collects(s, kind, f) ==> Holds(m, s, kind, flows, f, i + 1)
    ensures f.counts[i] > 0 && Collects(s, kind, f) ==>
              Holds(m.Add(BinEndMs(f, i), f.counts[i]), s, kind, flows, f, i + 1)
  {
    if f.counts[i] > 0 && Collects(s, kind, f) {
      var value, count := BinEndMs(f, i), f.counts[i];
      m.AddFacts(value, count);
      forall v
        ensures At(m.Add(value, count).bins, v) == FlowsAt(s, kind, flows, v) + FlowAt(f, i + 1, v)
      {
        assert At(m.bins, v) == FlowsAt(s, kind, flows, v) + FlowAt(f, i, v);
      }
    }
  }

  /** A finished flow moves into the list. */
  lemma NextFlow(m: Merged, s: Setup, kind: Kind, flows: seq<Flow>, f: Flow, g: Flow)
    requires Holds(m, s, kind, flows, f, |f.counts|)
    ensures Holds(m, s, kind, flows + [f], g, 0)
  {
    assert (flows + [f])[..|flows|] == flows;
  }

  datatype Result = Result(delay: Merged, ul: Merged, dl: Merged, vo: Merged, above10: nat, above20: nat)

  const EMPTY := Merged([], 0)

  ghost predicate ResultHolds(r: Result, s: Setup, flows: seq<Flow>, f: Flow, n: nat)
    requires n <= |f.counts|
  {
    && Holds(r.delay, s, Every, flows, f, n) && Holds(r.ul, s, Up, flows, f, n)
    && Holds(r.dl, s, Down, flows, f, n) && Holds(r.vo, s, Voice, flows, f, n)
    && r.above10 == Above(r.delay.bins, 10.0) && r.above20 == Above(r.delay.bins, 20.0)
  }

  lemma SkipHolds(s: Setup, f: Flow, r: Result, flows: seq<Flow>, i: nat)
    requires i < |f.counts| && f.counts[i] == 0 && ResultHolds(r, s, flows, f, i)
    ensures ResultHolds(r, s, flows, f, i + 1)
  {
    AddHolds(r.delay, s, Every, flows, f, i);
    AddHolds(r.ul, s, Up, flows, f, i);
    AddHolds(r.dl, s, Down, flows, f, i);
    AddHolds(r.vo, s, Voice, flows, f, i);
  }

  /** A histogram after bin i of flow f. */
  ghost function Added(m: Merged, s: Setup, kind: Kind, f: Flow, i: nat): Merged
    requires i < |f.counts|
  {
    if Collects(s, kind, f) then m.Add(BinEndMs(f, i), f.counts[i]) else m
  }

  lemma AddedHolds(m: Merged, s: Setup, kind: Kind, flows: seq<Flow>, f: Flow, i: nat)
    requires i < |f.counts| && f.counts[i] > 0 && Holds(m, s, kind, flows, f, i)
    ensures Holds(Added(m, s, kind, f, i), s, kind, flows, f, i + 1)
  {
    AddHolds(m, s, kind, flows, f, i);
  }

  /** What bin i of a counted flow makes of the result. */
  lemma AllAdded(s: Setup, f: Flow, r: Result, flows: seq<Flow>, i: nat, next: Result)
    requires i < |f.counts| && f.counts[i] > 0 && ResultHolds(r, s, flows, f, i)
    requires next.delay == Added(r.delay, s, Every, f, i) && next.ul == Added(r.ul, s, Up, f, i)
    requires next.dl == Added(r.dl, s, Down, f, i) && next.vo == Added(r.vo, s, Voice, f, i)
    requires next.above10 == Above(next.delay.bins, 10.0) && next.above20 == Above(next.delay.bins, 20.0)
    ensures ResultHolds(next, s, flows, f, i + 1)
  {
    AddedHolds(r.delay, s, Every, flows, f, i);
    AddedHolds(r.ul, s, Up, flows, f, i);
    AddedHolds(r.dl, s, Down, flows, f, i);
    AddedHolds(r.vo, s, Voice, flows, f, i);
  }

  /** The loop body for a bin that is not empty: its count joins the histograms of
      every kind that collects the flow, and no other. */
  method AddBin(s: Setup, f: Flow, r: Result, i: nat, ghost flows: seq<Flow>) returns (next: Result)
    requires i < |f.counts| && f.counts[i] > 0
    requires s.Counted(f) && ResultHolds(r, s, flows, f, i)
    ensures ResultHolds(next, s, flows, f, i + 1)
  {
    var count, binEndMs := f.counts[i], BinEndMs(f, i);
    var ul, dl, vo, above10, above20 := r.ul, r.dl, r.vo, r.above10, r.above20;
    if s.IsVo(f) {
      vo := vo.Add(binEndMs, count);
    }
    if s.IsUl(f) {
      ul := ul.Add(binEndMs, count);
    }
    if s.IsDl(f) {
      dl := dl.Add(binEndMs, count);
    }
    if binEndMs > 10.0 {
      above10 := above10 + count;
    }
    if binEndMs > 20.0 {
      above20 := above20 + count;
    }
    next := Result(r.delay.Add(binEndMs, count), ul, dl, vo, above10, above20);
    AddToCounts(r.delay.bins, binEndMs, count, 10.0);
    AddToCounts(r.delay.bins, binEndMs, count, 20.0);
    CollectsIff(s, f);
    AllAdded(s, f, r, flows, i, next);
  }

  /** The loop over the bins of one counted flow. */
  method AddFlow(s: Setup, f: Flow, r0: Result, ghost flows: seq<Flow>) returns (r: Result)
    requires s.Counted(f) && ResultHolds(r0, s, flows, f, 0)
    ensures ResultHolds(r, s, flows, f, |f.counts|)
  {
    r := r0;
    for i := 0 to |f.counts|
      invariant ResultHolds(r, s, flows, f, i)
    {
      var count := f.counts[i];
      if count == 0 {
        SkipHolds(s, f, r, flows, i);
        continue;
      }
      r := AddBin(s, f, r, i, flows);
    }
  }

  const NO_FLOW := Flow(0, 0, 0, [], 0.0)

  lemma Restart(r: Result, s: Setup, flows: seq<Flow>, f: Flow, g: Flow)
    requires ResultHolds(r, s, flows, f, 0)
    ensures ResultHolds(r, s, flows, g, 0)
  {
  }

  lemma Advance(r: Result, s: Setup, flows: seq<Flow>, f: Flow)
    requires ResultHolds(r, s, flows, f, if s.Counted(f) then |f.counts| else 0)
    ensures ResultHolds(r, s, flows + [f], NO_FLOW, 0)
  {
    CollectsIff(s, f);
    if !s.Counted(f) {
      assert ResultHolds(r, s, flows, f, |f.counts|);
    }
    NextFlow(r.delay, s, Every, flows, f, NO_FLOW);
    NextFlow(r.ul, s, Up, flows, f, NO_FLOW);
    NextFlow(r.dl, s, Down, flows, f, NO_FLOW);
    NextFlow(r.vo, s, Voice, flows, f, NO_FLOW);
  }

  /** The loop over the flows of the monitor. */
  method MergeDelays(s: Setup, flows: seq<Flow>) returns (r: Result)
    ensures ResultHolds(r, s, flows, NO_FLOW, 0)
    ensures r.above10 + CountLe(Expand(r.delay.bins), 10.0) == r.delay.samples
    ensures r.above20 + CountLe(Expand(r.delay.bins), 20.0) == r.delay.samples
  {
    r := Result(EMPTY, EMPTY, EMPTY, EMPTY, 0, 0);
    for k := 0 to |flows|
      invariant ResultHolds(r, s, flows[..k], NO_FLOW, 0)
    {
      var f := flows[k];
      ghost var before := flows[..k];
      assert flows[..k + 1] == before + [f];
      Restart(r, s, before, NO_FLOW, f);
      if s.Counted(f) {
        r := AddFlow(s, f, r, before);
      }
      Advance(r, s, before, f);
    }
    assert flows[..|flows|] == flows;
    AboveMeaning(r.delay.bins, 10.0);
    AboveMeaning(r.delay.bins, 20.0);
  }

  // --------------------------------------------------------------- consequences

  /** Samples of flows addressed both to the AP and to a station. */
  ghost function Overlap(s: Setup, flows: seq<Flow>): nat {
    if flows == [] then 0
    else
      var f := flows[|flows| - 1];
      Overlap(s, flows[..|flows| - 1]) +
      (if Collects(s, Up, f) && Collects(s, Down, f) then FlowTotal(f, |f.counts|) else 0)
  }

  /** Uplink and downlink samples add up to all samples, except that samples of
      both directions count twice; there are none unless the AP address is also
      a station address. */
  lemma {:induction false} DirectionsAddUp(s: Setup, flows: seq<Flow>)
    ensures FlowsTotal(s, Up, flows) + FlowsTotal(s, Down, flows) == FlowsTotal(s, Every, flows) + Overlap(s, flows)
    ensures s.apAddr !in s.staAddrs ==> Overlap(s, flows) == 0
  {
    if flows == [] {
    } else {
      DirectionsAddUp(s, flows[..|flows| - 1]);
    }
  }

  lemma {:induction false} RepeatCounts(x: real, n: nat, v: real)
    ensures multiset(Repeat(x, n))[v] == if x == v then n else 0
  {
    if n == 0 {
    } else {
      RepeatCounts(x, n - 1, v);
      assert Repeat(x, n) == Repeat(x, n - 1) + [x];
    }
  }

  lemma {:induction false} ExpandCounts(bins: seq<Bin>, v: real)
    ensures multiset(Expand(bins))[v] == At(bins, v)
  {
    if bins == [] {
    } else {
      var last := |bins| - 1;
      ExpandCounts(bins[..last], v);
      RepeatCounts(bins[last].value, bins[last].count, v);
    }
  }

  ghost predicate SamplesOf(samples: seq<real>, s: Setup, kind: Kind, flows: seq<Flow>) {
    forall v :: multiset(samples)[v] == FlowsAt(s, kind, flows, v)
  }

  /** p are the percentiles of the sorted samples of all flows of a kind, as long
      as there are fewer than 2^64 of them. */
  ghost predicate PercentilesOf(p: FiveNumbers, s: Setup, kind: Kind, flows: seq<Flow>) {
    FlowsTotal(s, kind, flows) < SIZE_T ==>
      forall samples ::
        Ascending(samples) && SamplesOf(samples, s, kind, flows) ==>
          p == PercentilesOfSorted(samples) && (samples == [] || AreQuantiles(samples, p))
  }

  lemma ReportIsFaithful(m: Merged, p: FiveNumbers, s: Setup, kind: Kind, flows: seq<Flow>)
    requires Holds(m, s, kind, flows, NO_FLOW, 0)
    requires m.samples < SIZE_T ==>
      forall samples :: Ascending(samples) && multiset(samples) == multiset(Expand(m.bins)) ==>
        p == PercentilesOfSorted(samples)
    ensures PercentilesOf(p, s, kind, flows)
  {
    if m.samples < SIZE_T {
      forall samples | Ascending(samples) && SamplesOf(samples, s, kind, flows)
        ensures p == PercentilesOfSorted(samples) && (samples == [] || AreQuantiles(samples, p))
      {
        forall v ensures multiset(samples)[v] == multiset(Expand(m.bins))[v] {
          ExpandCounts(m.bins, v);
        }
        assert multiset(samples) == multiset(Expand(m.bins));
        assert |samples| == |multiset(samples)|;
        ExpandLength(m.bins);
        assert |multiset(Expand(m.bins))| == |Expand(m.bins)|;
        if samples != [] {
          SortedAreQuantiles(samples);
        }
      }
    }
  }

  /** From flows to percentiles: what is reported for all flows, for the uplink,
      for the downlink and for voice are the percentiles of exactly the samples
      of those flows. */
  method ReportDelays(s: Setup, flows: seq<Flow>) returns (r: Result, delayPct: FiveNumbers, ulPct: FiveNumbers,
                                                           dlPct: FiveNumbers, voPct: FiveNumbers)
    ensures ResultHolds(r, s, flows, NO_FLOW, 0)
    ensures r.above10 + CountLe(Expand(r.delay.bins), 10.0) == r.delay.samples
    ensures r.above20 + CountLe(Expand(r.delay.bins), 20.0) == r.delay.samples
    ensures PercentilesOf(delayPct, s, Every, flows) && PercentilesOf(ulPct, s, Up, flows)
    ensures PercentilesOf(dlPct, s, Down, flows) && PercentilesOf(voPct, s, Voice, flows)
  {
    r := MergeDelays(s, flows);
    delayPct := GetHistogramPercentiles(r.delay.bins, r.delay.samples);
    ulPct := GetHistogramPercentiles(r.ul.bins, r.ul.samples);
    dlPct := GetHistogramPercentiles(r.dl.bins, r.dl.samples);
    voPct := GetHistogramPercentiles(r.vo.bins, r.vo.samples);
    ReportIsFaithful(r.delay, delayPct, s, Every, flows);
    ReportIsFaithful(r.ul, ulPct, s, Up, flows);
    ReportIsFaithful(r.dl, dlPct, s, Down, flows);
    ReportIsFaithful(r.vo, voPct, s, Voice, flows);
  }
}
