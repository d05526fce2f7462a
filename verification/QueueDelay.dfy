/** The voice-queue delay bookkeeping of scratch/uhr-mld-mixed-pedca.cc: per
    station the enqueue time of every packet in the queue, and the list of delays
    recorded at dequeues, against a replay of all queue events. */
module QueueDelay {

  datatype Option<T> = None | Some(value: T)

  datatype Kind = Enqueue | Dequeue | Drop | DropBeforeEnqueue | Expired

  /** One queue callback; `uid` is None when it carries no packet. */
  datatype Event = Event(kind: Kind, sta: nat, uid: Option<nat>, at: real)

  // ------------------------------------------------------- the replayed meaning

  /** The event concerns packet `uid` of station `sta`. */
  predicate Touches(e: Event, sta: nat, uid: nat) {
    e.sta == sta && e.uid == Some(uid)
  }

  /** Event i is the enqueue that decides whether the packet is queued after the
      first k events: no later one of them concerns the packet. */
  ghost predicate QueuedSince(log: seq<Event>, k: nat, sta: nat, uid: nat, i: nat)
    requires k <= |log|
  {
    && i < k && Touches(log[i], sta, uid) && log[i].kind == Enqueue
    && forall j :: i < j < k ==> !Touches(log[j], sta, uid)
  }

  /** The enqueue time of a packet still queued after the log, if it is. */
  function QueuedAt(log: seq<Event>, sta: nat, uid: nat): Option<real> {
    if log == [] then None
    else
      var e := log[|log| - 1];
      if Touches(e, sta, uid) then (if e.kind == Enqueue then Some(e.at) else None)
      else QueuedAt(log[..|log| - 1], sta, uid)
  }

  lemma {:induction false} QueuedAtIffSince(log: seq<Event>, sta: nat, uid: nat)
    ensures QueuedAt(log, sta, uid).Some? <==> exists i: nat :: QueuedSince(log, |log|, sta, uid, i)
    ensures forall i: nat :: QueuedSince(log, |log|, sta, uid, i) ==> QueuedAt(log, sta, uid) == Some(log[i].at)
  {
    if log == [] {
    } else {
      var last := |log| - 1;
      var before := log[..last];
      QueuedAtIffSince(before, sta, uid);
      if Touches(log[last], sta, uid) {
        if log[last].kind == Enqueue {
          assert QueuedSince(log, |log|, sta, uid, last);
        }
      } else {
        forall i: nat ensures QueuedSince(log, |log|, sta, uid, i) <==> QueuedSince(before, |before|, sta, uid, i) {
          if QueuedSince(before, |before|, sta, uid, i) {
            assert forall j :: i < j < last ==> log[j] == before[j];
          }
          if QueuedSince(log, |log|, sta, uid, i) {
            assert forall j :: i < j < last ==> log[j] == before[j];
          }
        }
      }
    }
  }

  /** The enqueue time an event finds, when it takes the packet out. */
  function Found(before: seq<Event>, e: Event): Option<real> {
    match e.uid
    case None => None
    case Some(uid) => QueuedAt(before, e.sta, uid)
  }

  /** The delays, in milliseconds, of all dequeues of queued packets, in order. */
  function Delays(log: seq<Event>): seq<real> {
    if log == [] then []
    else
      var before, e := log[..|log| - 1], log[|log| - 1];
      if e.kind == Dequeue && Found(before, e).Some?
      then Delays(before) + [(e.at - Found(before, e).value) * 1000.0]
      else Delays(before)
  }

  /** Event k is the dequeue of a packet that is queued then. */
  predicate Records(log: seq<Event>, k: nat)
    requires k < |log|
  {
    log[k].kind == Dequeue && Found(log[..k], log[k]).Some?
  }

  /** The positions of those dequeues. */
  function Recorded(log: seq<Event>): seq<nat> {
    if log == [] then []
    else
      var last := |log| - 1;
      if Records(log, last) then Recorded(log[..last]) + [last] else Recorded(log[..last])
  }

  lemma RecordsEarlier(log: seq<Event>, k: nat)
    requires k < |log| - 1
    ensures Records(log, k) <==> Records(log[..|log| - 1], k)
  {
    assert log[..|log| - 1][..k] == log[..k];
  }

  /** A dequeue of a queued packet is recorded, and no other event is. */
  lemma {:induction false} RecordedIff(log: seq<Event>, k: nat)
    ensures k in Recorded(log) <==> k < |log| && Records(log, k)
  {
    if log == [] {
    } else {
      var last := |log| - 1;
      RecordedIff(log[..last], k);
      if k < last {
        RecordsEarlier(log, k);
      }
    }
  }

  /** One delay for each recorded dequeue, in the order of the log. */
  lemma {:induction false} RecordedInOrder(log: seq<Event>)
    ensures |Recorded(log)| == |Delays(log)|
    ensures forall n :: 0 <= n < |Recorded(log)| ==> Recorded(log)[n] < |log|
    ensures forall m, n :: 0 <= m < n < |Recorded(log)| ==> Recorded(log)[m] < Recorded(log)[n]
  {
    if log == [] {
    } else {
      RecordedInOrder(log[..|log| - 1]);
    }
  }

  /** The n-th delay is that of the n-th recorded dequeue, and is the time since
      the enqueue that decided about its packet. */
  lemma {:induction false} DelayMeaning(log: seq<Event>, n: nat) returns (k: nat, i: nat)
    requires n < |Delays(log)|
    ensures |Recorded(log)| == |Delays(log)| && k == Recorded(log)[n]
    ensures k < |log| && log[k].kind == Dequeue && log[k].uid.Some?
    ensures QueuedSince(log, k, log[k].sta, log[k].uid.value, i)
    ensures Delays(log)[n] == (log[k].at - log[i].at) * 1000.0
  {
    var last := |log| - 1;
    var before, e := log[..last], log[last];
    RecordedInOrder(log);
    RecordedInOrder(before);
    if n < |Delays(before)| {
      k, i := DelayMeaning(before, n);
      assert forall j :: 0 <= j < last ==> before[j] == log[j];
    } else {
      QueuedAtIffSince(before, e.sta, e.uid.value);
      k := last;
      i :| i < last && QueuedSince(before, last, e.sta, e.uid.value, i);
      assert forall j :: 0 <= j < last ==> before[j] == log[j];
    }
  }

  // ------------------------------------------------------------- conservation

  function Enqueues(log: seq<Event>): nat {
    if log == [] then 0
    else Enqueues(log[..|log| - 1]) +
         (if log[|log| - 1].kind == Enqueue && log[|log| - 1].uid.Some? then 1 else 0)
  }

  /** Drops and expiries of queued packets. */
  function Removals(log: seq<Event>): nat {
    if log == [] then 0
    else
      var before, e := log[..|log| - 1], log[|log| - 1];
      Removals(before) + (if e.kind != Enqueue && e.kind != Dequeue && Found(before, e).Some? then 1 else 0)
  }

  /** Enqueues of packets already queued, whose first enqueue time is lost. */
  function Overwrites(log: seq<Event>): nat {
    if log == [] then 0
    else
      var before, e := log[..|log| - 1], log[|log| - 1];
      Overwrites(before) + (if e.kind == Enqueue && Found(before, e).Some? then 1 else 0)
  }

  ghost predicate UniqueUids(log: seq<Event>) {
    forall i, j :: 0 <= i < j < |log| && log[i].kind == Enqueue && log[j].kind == Enqueue && log[i].uid.Some? ==>
      !(log[i].sta == log[j].sta && log[i].uid == log[j].uid)
  }

  lemma NotQueued(log: seq<Event>)
    requires UniqueUids(log) && log != [] && log[|log| - 1].kind == Enqueue && log[|log| - 1].uid.Some?
    ensures Found(log[..|log| - 1], log[|log| - 1]).None?
  {
    var last := |log| - 1;
    var before, e := log[..last], log[last];
    QueuedAtIffSince(before, e.sta, e.uid.value);
    forall i: nat ensures !QueuedSince(before, last, e.sta, e.uid.value, i) {
      assert i < last && log[i].kind == Enqueue ==> !Touches(log[i], e.sta, e.uid.value);
    }
  }

  lemma {:induction false} NoOverwrites(log: seq<Event>)
    requires UniqueUids(log)
    ensures Overwrites(log) == 0
  {
    if log == [] {
    } else {
      var last := |log| - 1;
      var before, e := log[..last], log[last];
      assert forall i :: 0 <= i < last ==> before[i] == log[i];
      NoOverwrites(before);
      if e.kind == Enqueue && e.uid.Some? {
        NotQueued(log);
      }
    }
  }

  // ------------------------------------------------------------ the callbacks

  /** The delay fields of VoStaStats. */
  datatype StaStats = StaStats(
    enqueueTimeByUid: map<nat, real>, queueDrops: nat, queueDropBeforeEnqueue: nat, queueExpiredDrops: nat)

  function TotalTracked(sta: seq<StaStats>): nat {
    if sta == [] then 0 else TotalTracked(sta[..|sta| - 1]) + |sta[|sta| - 1].enqueueTimeByUid|
  }

  lemma {:induction false} TrackedUpdate(sta: seq<StaStats>, i: nat, s: StaStats)
    requires i < |sta|
    ensures TotalTracked(sta[i := s]) ==
            TotalTracked(sta) - |sta[i].enqueueTimeByUid| + |s.enqueueTimeByUid|
    ensures TotalTracked(sta) >= |sta[i].enqueueTimeByUid|
  {
    var last := |sta| - 1;
    if i == last {
      assert sta[i := s][..last] == sta[..last];
    } else {
      assert sta[i := s][..last] == sta[..last][i := s];
      TrackedUpdate(sta[..last], i, s);
    }
  }

  function Count(log: seq<Event>, kind: Kind, sta: nat): nat {
    if log == [] then 0
    else Count(log[..|log| - 1], kind, sta) +
         (if log[|log| - 1].kind == kind && log[|log| - 1].sta == sta then 1 else 0)
  }

  /** The statistics of one station against the log. */
  ghost predicate StaOk(st: StaStats, log: seq<Event>, sta: nat) {
    && (forall uid :: uid in st.enqueueTimeByUid <==> QueuedAt(log, sta, uid).Some?)
    && (forall uid :: uid in st.enqueueTimeByUid ==> QueuedAt(log, sta, uid) == Some(st.enqueueTimeByUid[uid]))
    && st.queueDrops == Count(log, Drop, sta)
    && st.queueDropBeforeEnqueue == Count(log, DropBeforeEnqueue, sta)
    && st.queueExpiredDrops == Count(log, Expired, sta)
  }

  /** What one event does to the statistics of its station. */
  function StaAfter(st: StaStats, e: Event): StaStats {
    var removed := match e.uid
      case Some(uid) => st.enqueueTimeByUid - {uid}
      case None => st.enqueueTimeByUid;
    match e.kind
    case Enqueue =>
      (match e.uid
       case Some(uid) => st.(enqueueTimeByUid := st.enqueueTimeByUid[uid := e.at])
       case None => st)
    case Dequeue => st.(enqueueTimeByUid := removed)
    case Drop => st.(queueDrops := st.queueDrops + 1, enqueueTimeByUid := removed)
    case DropBeforeEnqueue => st.(queueDropBeforeEnqueue := st.queueDropBeforeEnqueue + 1, enqueueTimeByUid := removed)
    case Expired => st.(queueExpiredDrops := st.queueExpiredDrops + 1, enqueueTimeByUid := removed)
  }

  lemma StaExtends(st: StaStats, log: seq<Event>, e: Event)
    requires StaOk(st, log, e.sta)
    ensures StaOk(StaAfter(st, e), log + [e], e.sta)
  {
    assert (log + [e])[..|log|] == log;
  }

  lemma OtherExtends(st: StaStats, log: seq<Event>, e: Event, sta: nat)
    requires StaOk(st, log, sta) && sta != e.sta
    ensures StaOk(st, log + [e], sta)
  {
    assert (log + [e])[..|log|] == log;
  }

  lemma MapSizes(m: map<nat, real>, uid: nat, t: real)
    ensures |m[uid := t]| == |m| + (if uid in m then 0 else 1)
    ensures |m - {uid}| == |m| - (if uid in m then 1 else 0)
  {
    assert m[uid := t].Keys == m.Keys + {uid};
    assert (m - {uid}).Keys == m.Keys - {uid};
    assert |m| == |m.Keys| && |m[uid := t]| == |m[uid := t].Keys| && |m - {uid}| == |(m - {uid}).Keys|;
  }

  /** How many packets an event adds to, or takes from, its station's map. */
  lemma TrackedChange(st: StaStats, log: seq<Event>, e: Event)
    requires StaOk(st, log, e.sta)
    ensures var before, after := |st.enqueueTimeByUid|, |StaAfter(st, e).enqueueTimeByUid|;
      after == before
        + (if e.kind == Enqueue && e.uid.Some? && Found(log, e).None? then 1 else 0)
        - (if e.kind != Enqueue && Found(log, e).Some? then 1 else 0)
  {
    if e.uid.Some? {
      var m, uid := st.enqueueTimeByUid, e.uid.value;
      MapSizes(m, uid, e.at);
    }
  }

  lemma {:induction false} NothingTracked(sta: seq<StaStats>)
    requires forall s :: 0 <= s < |sta| ==> sta[s] == StaStats(map[], 0, 0, 0)
    ensures TotalTracked(sta) == 0
  {
    if sta == [] {
    } else {
      NothingTracked(sta[..|sta| - 1]);
    }
  }

  class VoMacStats {
    var sta: seq<StaStats>
    var queueDelayMs: seq<real>
    ghost var log: seq<Event>

    ghost predicate Valid()
      reads this
    {
      && (forall s :: 0 <= s < |sta| ==> StaOk(sta[s], log, s))
      && queueDelayMs == Delays(log)
      && Enqueues(log) == |queueDelayMs| + Removals(log) + Overwrites(log) + TotalTracked(sta)
    }

    constructor (nStas: nat)
      ensures Valid() && |sta| == nStas && log == []
    {
      sta := seq(nStas, _ => StaStats(map[], 0, 0, 0));
      queueDelayMs := [];
      log := [];
      new;
      NothingTracked(sta);
    }

    /** The invariant after an event was added to the log and its station updated. */
    lemma Extend(old_: seq<StaStats>, before: seq<Event>, e: Event)
      requires e.sta < |old_| && log == before + [e]
      requires forall s :: 0 <= s < |old_| ==> StaOk(old_[s], before, s)
      requires Enqueues(before) == |Delays(before)| + Removals(before) + Overwrites(before) + TotalTracked(old_)
      requires sta == old_[e.sta := StaAfter(old_[e.sta], e)]
      requires queueDelayMs == Delays(before + [e])
      ensures Valid()
    {
      assert (before + [e])[..|before|] == before;
      forall s | 0 <= s < |sta| ensures StaOk(sta[s], log, s) {
        if s == e.sta {
          StaExtends(old_[s], before, e);
        } else {
          OtherExtends(old_[s], before, e, s);
        }
      }
      TrackedUpdate(old_, e.sta, StaAfter(old_[e.sta], e));
      TrackedChange(old_[e.sta], before, e);
    }

    method OnVoQueueEnqueue(staIdx: nat, uid: Option<nat>, now: real)
      requires Valid() && staIdx < |sta|
      modifies this
      ensures Valid() && |sta| == |old(sta)| && log == old(log) + [Event(Enqueue, staIdx, uid, now)]
    {
      ghost var e := Event(Enqueue, staIdx, uid, now);
      log := log + [e];
      assert log[..|old(log)|] == old(log);
      if uid.Some? {
        var st := sta[staIdx];
        sta := sta[staIdx := st.(enqueueTimeByUid := st.enqueueTimeByUid[uid.value := now])];
      }
      Extend(old(sta), old(log), e);
    }

    method OnVoQueueDequeue(staIdx: nat, uid: Option<nat>, now: real)
      requires Valid() && staIdx < |sta|
      modifies this
      ensures Valid() && |sta| == |old(sta)| && log == old(log) + [Event(Dequeue, staIdx, uid, now)]
    {
      ghost var e := Event(Dequeue, staIdx, uid, now);
      log := log + [e];
      assert log[..|old(log)|] == old(log);
      var st := sta[staIdx];
      assert StaOk(st, old(log), staIdx);
      if uid.Some? {
        if uid.value in st.enqueueTimeByUid {
          queueDelayMs := queueDelayMs + [(now - st.enqueueTimeByUid[uid.value]) * 1000.0];
          sta := sta[staIdx := st.(enqueueTimeByUid := st.enqueueTimeByUid - {uid.value})];
        } else {
          assert st.enqueueTimeByUid - {uid.value} == st.enqueueTimeByUid;
        }
      }
      Extend(old(sta), old(log), e);
    }

    method OnVoQueueDrop(staIdx: nat, uid: Option<nat>, ghost now: real)
      requires Valid() && staIdx < |sta|
      modifies this
      ensures Valid() && |sta| == |old(sta)| && log == old(log) + [Event(Drop, staIdx, uid, now)]
    {
      ghost var e := Event(Drop, staIdx, uid, now);
      log := log + [e];
      assert log[..|old(log)|] == old(log);
      sta := sta[staIdx := sta[staIdx].(queueDrops := sta[staIdx].queueDrops + 1)];
      if uid.Some? {
        sta := sta[staIdx := sta[staIdx].(enqueueTimeByUid := sta[staIdx].enqueueTimeByUid - {uid.value})];
      }
      Extend(old(sta), old(log), e);
    }

    method OnVoQueueDropBeforeEnqueue(staIdx: nat, uid: Option<nat>, ghost now: real)
      requires Valid() && staIdx < |sta|
      modifies this
      ensures Valid() && |sta| == |old(sta)| && log == old(log) + [Event(DropBeforeEnqueue, staIdx, uid, now)]
    {
      ghost var e := Event(DropBeforeEnqueue, staIdx, uid, now);
      log := log + [e];
      assert log[..|old(log)|] == old(log);
      sta := sta[staIdx := sta[staIdx].(queueDropBeforeEnqueue := sta[staIdx].queueDropBeforeEnqueue + 1)];
      if uid.Some? {
        sta := sta[staIdx := sta[staIdx].(enqueueTimeByUid := sta[staIdx].enqueueTimeByUid - {uid.value})];
      }
      Extend(old(sta), old(log), e);
    }

    method OnVoQueueExpired(staIdx: nat, uid: Option<nat>, ghost now: real)
      requires Valid() && staIdx < |sta|
      modifies this
      ensures Valid() && |sta| == |old(sta)| && log == old(log) + [Event(Expired, staIdx, uid, now)]
    {
      ghost var e := Event(Expired, staIdx, uid, now);
      log := log + [e];
      assert log[..|old(log)|] == old(log);
      sta := sta[staIdx := sta[staIdx].(queueExpiredDrops := sta[staIdx].queueExpiredDrops + 1)];
      if uid.Some? {
        sta := sta[staIdx := sta[staIdx].(enqueueTimeByUid := sta[staIdx].enqueueTimeByUid - {uid.value})];
      }
      Extend(old(sta), old(log), e);
    }
  }
}
