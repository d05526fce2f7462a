/** Which stations scratch/uhr-mld-mixed-pedca.cc configures for P-EDCA, on which
    preferred link, and how received bytes are summed over the two groups. */
module Stations {
  import opened Arithmetic
  import opened Fairness

  function CountTrue(marks: seq<bool>): nat {
    if marks == [] then 0 else CountTrue(marks[..|marks| - 1]) + (if marks[|marks| - 1] then 1 else 0)
  }

  lemma {:induction false} MarkOne(marks: seq<bool>, i: nat)
    requires i < |marks| && !marks[i]
    ensures CountTrue(marks[i := true]) == CountTrue(marks) + 1
  {
    var last := |marks| - 1;
    if i == last {
      assert marks[i := true][..last] == marks[..last];
    } else {
      assert marks[i := true][..last] == marks[..last][i := true];
      MarkOne(marks[..last], i);
    }
  }

  lemma {:induction false} NoneMarked(marks: seq<bool>)
    requires forall i :: 0 <= i < |marks| ==> !marks[i]
    ensures CountTrue(marks) == 0
  {
    if marks == [] {
    } else {
      NoneMarked(marks[..|marks| - 1]);
    }
  }

  /** The link of the k-th assignment; link ids are 8 bits wide. */
  function LinkOf(k: nat, nLinks: nat): nat {
    if nLinks > 0 then (k % nLinks) % 256 else 0
  }

  /** Position i of a deal of links 0, 1, ..., n - 1 in rounds is link 256 * over +
      id, of which the id is kept. */
  predicate Dealt(i: nat, n: nat, round: nat, over: nat, id: nat) {
    i == round * n + (256 * over + id) && 256 * over + id < n && id < 256
  }

  ghost predicate RoundRobin(i: nat, n: nat, id: nat) {
    if n == 0 then id == 0 else exists round: nat, over: nat :: Dealt(i, n, round, over, id)
  }

  lemma {:induction false} LinkIsRoundRobin(k: nat, nLinks: nat)
    ensures RoundRobin(k, nLinks, LinkOf(k, nLinks))
  {
    if nLinks > 0 {
      var round, link := k / nLinks, k % nLinks;
      assert k == round * nLinks + link;
      assert Dealt(k, nLinks, round, link / 256, link % 256);
    }
  }

  /** How many of the first m assignments go to a link. */
  function OnLink(m: nat, nLinks: nat, link: nat): nat {
    if m == 0 then 0 else OnLink(m - 1, nLinks, link) + (if LinkOf(m - 1, nLinks) == link then 1 else 0)
  }

  /** Marked stations that prefer a link. */
  function MarkedOn(marks: seq<bool>, links: seq<nat>, link: nat): nat
    requires |marks| == |links|
  {
    if marks == [] then 0
    else MarkedOn(marks[..|marks| - 1], links[..|marks| - 1], link) +
         (if marks[|marks| - 1] && links[|marks| - 1] == link then 1 else 0)
  }

  lemma {:induction false} MarkOneOn(marks: seq<bool>, links: seq<nat>, i: nat, l: nat, link: nat)
    requires |marks| == |links| && i < |marks| && !marks[i]
    ensures MarkedOn(marks[i := true], links[i := l], link) == MarkedOn(marks, links, link) + (if l == link then 1 else 0)
  {
    var last := |marks| - 1;
    if i == last {
      assert marks[i := true][..last] == marks[..last] && links[i := l][..last] == links[..last];
    } else {
      assert marks[i := true][..last] == marks[..last][i := true];
      assert links[i := l][..last] == links[..last][i := l];
      MarkOneOn(marks[..last], links[..last], i, l, link);
    }
  }

  lemma {:induction false} NoneOn(marks: seq<bool>, links: seq<nat>, link: nat)
    requires |marks| == |links| && forall i :: 0 <= i < |marks| ==> !marks[i]
    ensures MarkedOn(marks, links, link) == 0
  {
    if marks == [] {
    } else {
      NoneOn(marks[..|marks| - 1], links[..|marks| - 1], link);
    }
  }

  /** A shuffled station order: every index once. */
  ghost predicate Permutation(order: seq<nat>) {
    (forall i :: 0 <= i < |order| ==> order[i] < |order|) &&
    (forall i, j :: 0 <= i < j < |order| ==> order[i] != order[j])
  }

  /** The assignment loop over the shuffled stations: the first m of them are
      marked, the k-th on the k-th link of the round. */
  method AssignPedca(order: seq<nat>, numPedcaStas: nat, nLinks: nat)
    returns (isPedcaSta: seq<bool>, preferredLink: seq<nat>)
    requires Permutation(order)
    ensures |isPedcaSta| == |preferredLink| == |order|
    ensures CountTrue(isPedcaSta) == if numPedcaStas < |order| then numPedcaStas else |order|
    ensures forall i :: 0 <= i < |order| ==>
      (isPedcaSta[order[i]] <==> i < numPedcaStas) &&
      preferredLink[order[i]] == if isPedcaSta[order[i]] then LinkOf(i, nLinks) else 0
    ensures var m := if numPedcaStas < |order| then numPedcaStas else |order|;
      forall link :: MarkedOn(isPedcaSta, preferredLink, link) == OnLink(m, nLinks, link)
  {
    var nStas := |order|;
    isPedcaSta := seq(nStas, _ => false);
    preferredLink := seq(nStas, _ => 0);
    var count := if numPedcaStas < nStas then numPedcaStas else nStas;
    NoneMarked(isPedcaSta);
    forall link ensures MarkedOn(isPedcaSta, preferredLink, link) == 0 {
      NoneOn(isPedcaSta, preferredLink, link);
    }
    var assignmentIndex := 0;
    for i := 0 to count
      invariant assignmentIndex == i
      invariant |isPedcaSta| == |preferredLink| == nStas
      invariant forall s :: 0 <= s < nStas ==> (isPedcaSta[s] <==> s in order[..i])
      invariant forall k :: 0 <= k < i ==> preferredLink[order[k]] == LinkOf(k, nLinks)
      invariant forall k :: i <= k < nStas ==> preferredLink[order[k]] == 0
      invariant CountTrue(isPedcaSta) == i
      invariant forall link :: MarkedOn(isPedcaSta, preferredLink, link) == OnLink(i, nLinks, link)
    {
      var staIdx := order[i];
      assert order[..i + 1] == order[..i] + [staIdx];
      assert staIdx !in order[..i];
      MarkOne(isPedcaSta, staIdx);
      ghost var marks, links := isPedcaSta[staIdx := true], preferredLink[staIdx := LinkOf(i, nLinks)];
      forall link ensures MarkedOn(marks, links, link) == OnLink(i + 1, nLinks, link) {
        MarkOneOn(isPedcaSta, preferredLink, staIdx, LinkOf(i, nLinks), link);
      }
      isPedcaSta := isPedcaSta[staIdx := true];
      preferredLink := preferredLink[staIdx := LinkOf(assignmentIndex, nLinks)];
      assignmentIndex := assignmentIndex + 1;
    }
  }

  // ------------------------------------------------------------------ balance

  /** However many stations are assigned, the links differ by at most one station. */
  ghost predicate Balanced(nLinks: nat, m: nat) {
    forall a, b :: 0 <= a < nLinks && a < 256 && 0 <= b < nLinks && b < 256 ==>
      OnLink(m, nLinks, a) <= OnLink(m, nLinks, b) + 1
  }

  /** Round robin over n links with whole ids. */
  function Share(m: nat, n: nat, link: nat): nat
    requires n > 0
  {
    m / n + (if link < m % n then 1 else 0)
  }

  lemma NextDivMod(m: nat, n: nat)
    requires n > 0
    ensures m % n + 1 < n ==> (m + 1) / n == m / n && (m + 1) % n == m % n + 1
    ensures m % n + 1 == n ==> (m + 1) / n == m / n + 1 && (m + 1) % n == 0
  {
    var q, r := m / n, m % n;
    assert m + 1 == n * q + (r + 1);
    if r + 1 < n {
      SameQuotient((m + 1) / n, q, (m + 1) % n, r + 1, n);
    } else {
      assert n * (q + 1) == n * q + n;
      SameQuotient((m + 1) / n, q + 1, (m + 1) % n, 0, n);
    }
  }

  lemma ShareStep(m: nat, n: nat, link: nat)
    requires n > 0 && link < n
    ensures Share(m + 1, n, link) == Share(m, n, link) + (if m % n == link then 1 else 0)
  {
    NextDivMod(m, n);
  }

  lemma SmallMod(k: nat, n: nat)
    requires k < n
    ensures k % n == k && k / n == 0
  {
    SameQuotient(k / n, 0, k % n, k, n);
  }

  lemma {:induction false} SharesOf(m: nat, nLinks: nat, n: nat, link: nat)
    requires n > 0 && link < n && forall k: nat :: k < m ==> LinkOf(k, nLinks) == k % n
    ensures OnLink(m, nLinks, link) == Share(m, n, link)
  {
    if m > 0 {
      SharesOf(m - 1, nLinks, n, link);
      ShareStep(m - 1, n, link);
    } else {
      SmallMod(0, n);
    }
  }

  lemma ModMod(k: nat, c: nat)
    requires c > 0
    ensures (k % (256 * c)) % 256 == k % 256
  {
    var n := 256 * c;
    var q, r := k / n, k % n;
    assert k == n * q + r;
    assert n * q == 256 * (c * q);
    assert k == 256 * (c * q) + r;
    assert k == 256 * (c * q + r / 256) + r % 256;
    SameQuotient(k / 256, c * q + r / 256, k % 256, r % 256, 256);
  }

  lemma BalancedWhen(nLinks: nat, m: nat)
    requires 0 < nLinks <= 256 || (nLinks > 0 && nLinks % 256 == 0)
    ensures Balanced(nLinks, m)
  {
    var n := if nLinks <= 256 then nLinks else 256;
    forall k: nat | k < m ensures LinkOf(k, nLinks) == k % n {
      if nLinks > 256 {
        ModMod(k, nLinks / 256);
        assert nLinks == 256 * (nLinks / 256);
      }
    }
    forall a, b | 0 <= a < nLinks && a < 256 && 0 <= b < nLinks && b < 256
      ensures OnLink(m, nLinks, a) <= OnLink(m, nLinks, b) + 1
    {
      SharesOf(m, nLinks, n, a);
      SharesOf(m, nLinks, n, b);
    }
  }

  lemma LinkOfFirst(k: nat, nLinks: nat)
    requires k < nLinks
    ensures LinkOf(k, nLinks) == k % 256
  {
    SmallMod(k, nLinks);
  }

  lemma LinkOfSecond(k: nat, nLinks: nat)
    requires k < nLinks
    ensures LinkOf(nLinks + k, nLinks) == k % 256
  {
    SameQuotient((nLinks + k) / nLinks, 1, (nLinks + k) % nLinks, k, nLinks);
  }

  /** One full round over nLinks links, ids cut to 8 bits. */
  lemma {:induction false} OneRound(m: nat, nLinks: nat, link: nat)
    requires m <= nLinks && link < 256
    ensures OnLink(m, nLinks, link) == Share(m, 256, link)
  {
    if m == 0 {
    } else {
      OneRound(m - 1, nLinks, link);
      LinkOfFirst(m - 1, nLinks);
      ShareStep(m - 1, 256, link);
    }
  }

  lemma {:induction false} SecondRound(m: nat, nLinks: nat, link: nat)
    requires nLinks > 0 && m <= nLinks
    ensures OnLink(nLinks + m, nLinks, link) == OnLink(nLinks, nLinks, link) + OnLink(m, nLinks, link)
  {
    if m == 0 {
    } else {
      SecondRound(m - 1, nLinks, link);
      LinkOfFirst(m - 1, nLinks);
      LinkOfSecond(m - 1, nLinks);
    }
  }

  /** Otherwise two rounds leave link 0 two stations ahead of link 255. */
  lemma UnbalancedWhen(nLinks: nat)
    requires nLinks > 256 && nLinks % 256 != 0
    ensures !Balanced(nLinks, 2 * nLinks)
  {
    SecondRound(nLinks, nLinks, 0);
    SecondRound(nLinks, nLinks, 255);
    OneRound(nLinks, nLinks, 0);
    OneRound(nLinks, nLinks, 255);
    assert OnLink(2 * nLinks, nLinks, 0) == OnLink(2 * nLinks, nLinks, 255) + 2;
  }

  /** Every assignment is balanced exactly when link ids survive the cut to 8 bits
      evenly: at most 256 links, or a multiple of 256. */
  lemma BalancedIff(nLinks: nat)
    requires nLinks > 0
    ensures (forall m :: Balanced(nLinks, m)) <==> nLinks <= 256 || nLinks % 256 == 0
  {
    if nLinks <= 256 || nLinks % 256 == 0 {
      forall m ensures Balanced(nLinks, m) {
        BalancedWhen(nLinks, m);
      }
    } else {
      UnbalancedWhen(nLinks);
    }
  }

  // ------------------------------------------------------------ received bytes

  /** An uplink sink at the access point: whose, for which category, how much. */
  datatype Sink = Sink(sta: nat, isVo: bool, rx: nat)

  datatype Totals = Totals(
    totalRx: nat, voTotalRx: nat, pedcaRx: nat, edcaRx: nat, pedcaVoRx: nat, edcaVoRx: nat,
    pedcaStaCount: nat, edcaStaCount: nat)

  /** Bytes of the sinks of a group of stations, all of them or the voice ones. */
  function Received(sinks: seq<Sink>, marks: seq<bool>, group: bool, voOnly: bool): nat
    requires forall i :: 0 <= i < |sinks| ==> sinks[i].sta < |marks|
  {
    if sinks == [] then 0
    else
      var s := sinks[|sinks| - 1];
      Received(sinks[..|sinks| - 1], marks, group, voOnly) +
      (if marks[s.sta] == group && (s.isVo || !voOnly) then s.rx else 0)
  }

  /** Bytes of the sinks of one station, all of them or the voice ones. */
  function ReceivedBy(sinks: seq<Sink>, sta: nat, voOnly: bool): nat {
    if sinks == [] then 0
    else
      var s := sinks[|sinks| - 1];
      ReceivedBy(sinks[..|sinks| - 1], sta, voOnly) + (if s.sta == sta && (s.isVo || !voOnly) then s.rx else 0)
  }

  /** Entry s of the vector is what station s received. */
  ghost predicate BySta(rx: seq<nat>, sinks: seq<Sink>, nStas: nat, voOnly: bool) {
    |rx| == nStas && forall s :: 0 <= s < nStas ==> rx[s] == ReceivedBy(sinks, s, voOnly)
  }

  /** The part of a per-station vector that belongs to a group. */
  function GroupSum(rx: seq<nat>, marks: seq<bool>, group: bool): nat
    requires |rx| == |marks|
  {
    if rx == [] then 0
    else GroupSum(rx[..|rx| - 1], marks[..|rx| - 1], group) + (if marks[|rx| - 1] == group then rx[|rx| - 1] else 0)
  }

  lemma {:induction false} GroupAdd(rx: seq<nat>, marks: seq<bool>, group: bool, i: nat, x: nat)
    requires |rx| == |marks| && i < |rx|
    ensures GroupSum(rx[i := rx[i] + x], marks, group) == GroupSum(rx, marks, group) + (if marks[i] == group then x else 0)
  {
    var last := |rx| - 1;
    if i == last {
      assert rx[i := rx[i] + x][..last] == rx[..last];
    } else {
      assert rx[i := rx[i] + x][..last] == rx[..last][i := rx[i] + x];
      GroupAdd(rx[..last], marks[..last], group, i, x);
    }
  }

  lemma {:induction false} GroupsOfZero(rx: seq<nat>, marks: seq<bool>, group: bool)
    requires |rx| == |marks| && forall i :: 0 <= i < |rx| ==> rx[i] == 0
    ensures GroupSum(rx, marks, group) == 0
  {
    if rx == [] {
    } else {
      GroupsOfZero(rx[..|rx| - 1], marks[..|rx| - 1], group);
    }
  }

  lemma GroupStep(rx: seq<nat>, marks: seq<bool>, i: nat, group: bool)
    requires |rx| == |marks| && i < |rx|
    ensures GroupSum(rx[..i + 1], marks[..i + 1], group) ==
            GroupSum(rx[..i], marks[..i], group) + (if marks[i] == group then rx[i] else 0)
  {
    assert rx[..i + 1][..i] == rx[..i] && marks[..i + 1][..i] == marks[..i];
  }

  lemma CountStep(marks: seq<bool>, i: nat)
    requires i < |marks|
    ensures CountTrue(marks[..i + 1]) == CountTrue(marks[..i]) + (if marks[i] then 1 else 0)
  {
    assert marks[..i + 1][..i] == marks[..i];
  }

  /** One more sink, in the per-station vector. */
  lemma ByStaStep(sinks: seq<Sink>, nStas: nat, i: nat, rx: seq<nat>, voOnly: bool)
    requires i < |sinks| && sinks[i].sta < nStas && BySta(rx, sinks[..i], nStas, voOnly)
    ensures var s := sinks[i];
      var next := if s.isVo || !voOnly then rx[s.sta := rx[s.sta] + s.rx] else rx;
      BySta(next, sinks[..i + 1], nStas, voOnly)
  {
    assert sinks[..i + 1][..i] == sinks[..i];
  }

  /** The groups of the per-station vector hold what the sinks of the group received. */
  lemma {:induction false} GroupOfStations(sinks: seq<Sink>, marks: seq<bool>, rx: seq<nat>, g: bool, voOnly: bool)
    requires forall k :: 0 <= k < |sinks| ==> sinks[k].sta < |marks|
    requires BySta(rx, sinks, |marks|, voOnly)
    ensures GroupSum(rx, marks, g) == Received(sinks, marks, g, voOnly)
  {
    if sinks == [] {
      GroupsOfZero(rx, marks, g);
    } else {
      var last := |sinks| - 1;
      var s := sinks[last];
      var before := seq(|marks|, sta requires 0 <= sta < |marks| => ReceivedBy(sinks[..last], sta, voOnly));
      GroupOfStations(sinks[..last], marks, before, g, voOnly);
      if s.isVo || !voOnly {
        assert rx == before[s.sta := before[s.sta] + s.rx];
        GroupAdd(before, marks, g, s.sta, s.rx);
      } else {
        assert rx == before;
      }
    }
  }

  /** Bytes of all sinks, or of the voice ones. */
  function Sum(sinks: seq<Sink>, voOnly: bool): nat {
    if sinks == [] then 0
    else
      var s := sinks[|sinks| - 1];
      Sum(sinks[..|sinks| - 1], voOnly) + (if s.isVo || !voOnly then s.rx else 0)
  }

  /** Every sink belongs to a station of one of the two groups. */
  lemma {:induction false} GroupsAddUp(sinks: seq<Sink>, marks: seq<bool>, voOnly: bool)
    requires forall k :: 0 <= k < |sinks| ==> sinks[k].sta < |marks|
    ensures Sum(sinks, voOnly) == Received(sinks, marks, true, voOnly) + Received(sinks, marks, false, voOnly)
  {
    if sinks == [] {
    } else {
      GroupsAddUp(sinks[..|sinks| - 1], marks, voOnly);
    }
  }

  /** The loop over the sinks: totals, and sums per station. */
  method PerStation(sinks: seq<Sink>, nStas: nat)
    returns (totalRx: nat, voTotalRx: nat, rxBySta: seq<nat>, voRxBySta: seq<nat>)
    requires forall i :: 0 <= i < |sinks| ==> sinks[i].sta < nStas
    ensures BySta(rxBySta, sinks, nStas, false) && BySta(voRxBySta, sinks, nStas, true)
    ensures totalRx == Sum(sinks, false) && voTotalRx == Sum(sinks, true)
  {
    totalRx, voTotalRx := 0, 0;
    rxBySta, voRxBySta := seq(nStas, _ => 0), seq(nStas, _ => 0);
    for i := 0 to |sinks|
      invariant BySta(rxBySta, sinks[..i], nStas, false) && BySta(voRxBySta, sinks[..i], nStas, true)
      invariant totalRx == Sum(sinks[..i], false) && voTotalRx == Sum(sinks[..i], true)
    {
      var s := sinks[i];
      ByStaStep(sinks, nStas, i, rxBySta, false);
      ByStaStep(sinks, nStas, i, voRxBySta, true);
      assert sinks[..i + 1][..i] == sinks[..i];
      totalRx := totalRx + s.rx;
      rxBySta := rxBySta[s.sta := rxBySta[s.sta] + s.rx];
      if s.isVo {
        voTotalRx := voTotalRx + s.rx;
        voRxBySta := voRxBySta[s.sta := voRxBySta[s.sta] + s.rx];
      }
    }
    assert sinks[..|sinks|] == sinks;
  }

  /** The two aggregation loops: every group total is what its own sinks received,
      the groups add up to the totals, the vector holds what each station received,
      and the index is Jain's index of that vector. */
  method AggregateReceived(sinks: seq<Sink>, isPedcaSta: seq<bool>) returns (t: Totals, jfi: real, rxBySta: seq<nat>)
    requires forall i :: 0 <= i < |sinks| ==> sinks[i].sta < |isPedcaSta|
    ensures t.pedcaRx == Received(sinks, isPedcaSta, true, false) && t.edcaRx == Received(sinks, isPedcaSta, false, false)
    ensures t.pedcaVoRx == Received(sinks, isPedcaSta, true, true) && t.edcaVoRx == Received(sinks, isPedcaSta, false, true)
    ensures t.totalRx == t.pedcaRx + t.edcaRx && t.voTotalRx == t.pedcaVoRx + t.edcaVoRx
    ensures t.pedcaStaCount == CountTrue(isPedcaSta) && t.pedcaStaCount + t.edcaStaCount == |isPedcaSta|
    ensures t.totalRx == Sum(sinks, false) && t.voTotalRx == Sum(sinks, true)
    ensures BySta(rxBySta, sinks, |isPedcaSta|, false) && FairIndex(rxBySta, jfi)
  {
    var totalRx, voTotalRx, voRxBySta;
    totalRx, voTotalRx, rxBySta, voRxBySta := PerStation(sinks, |isPedcaSta|);
    var pedcaRx, edcaRx, pedcaVoRx, edcaVoRx, pedcaStaCount, edcaStaCount := 0, 0, 0, 0, 0, 0;
    for i := 0 to |isPedcaSta|
      invariant pedcaRx == GroupSum(rxBySta[..i], isPedcaSta[..i], true)
      invariant edcaRx == GroupSum(rxBySta[..i], isPedcaSta[..i], false)
      invariant pedcaVoRx == GroupSum(voRxBySta[..i], isPedcaSta[..i], true)
      invariant edcaVoRx == GroupSum(voRxBySta[..i], isPedcaSta[..i], false)
      invariant pedcaStaCount == CountTrue(isPedcaSta[..i]) && pedcaStaCount + edcaStaCount == i
    {
      GroupStep(rxBySta, isPedcaSta, i, true);
      GroupStep(rxBySta, isPedcaSta, i, false);
      GroupStep(voRxBySta, isPedcaSta, i, true);
      GroupStep(voRxBySta, isPedcaSta, i, false);
      CountStep(isPedcaSta, i);
      if isPedcaSta[i] {
        pedcaStaCount := pedcaStaCount + 1;
        pedcaRx := pedcaRx + rxBySta[i];
        pedcaVoRx := pedcaVoRx + voRxBySta[i];
      } else {
        edcaStaCount := edcaStaCount + 1;
        edcaRx := edcaRx + rxBySta[i];
        edcaVoRx := edcaVoRx + voRxBySta[i];
      }
    }
    assert rxBySta[..|isPedcaSta|] == rxBySta && voRxBySta[..|isPedcaSta|] == voRxBySta;
    assert isPedcaSta[..|isPedcaSta|] == isPedcaSta;
    GroupOfStations(sinks, isPedcaSta, rxBySta, true, false);
    GroupOfStations(sinks, isPedcaSta, rxBySta, false, false);
    GroupOfStations(sinks, isPedcaSta, voRxBySta, true, true);
    GroupOfStations(sinks, isPedcaSta, voRxBySta, false, true);
    GroupsAddUp(sinks, isPedcaSta, false);
    GroupsAddUp(sinks, isPedcaSta, true);
    jfi := JainOfReceived(rxBySta);
    t := Totals(totalRx, voTotalRx, pedcaRx, edcaRx, pedcaVoRx, edcaVoRx, pedcaStaCount, edcaStaCount);
  }
}
