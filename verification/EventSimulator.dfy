/** The part of the ns-3 simulator that the traffic application relies on: a queue
    of events ordered by time stamp and serial number, cancellation, and the test
    whether an event id is still pending (src/core/model/default-simulator-impl.cc). */
module EventSimulator {

  datatype EventId = NoEvent | Event(ts: real, uid: nat)

  /** What an event does: the traffic application's two handlers, or anything else. */
  datatype Handler = SendPacket(flow: nat) | ChangeProfile | Foreign

  datatype Entry = Entry(ts: real, handler: Handler, cancelled: bool)

  /** Time, serial number of the last event run, next serial number, and the events
      not yet run.  A cancelled event stays in the queue and does nothing. */
  datatype Sim = Sim(now: real, currentUid: nat, nextUid: nat, queue: map<nat, Entry>) {

    /** The event key lies after the last event run. */
    predicate After(ts: real, uid: nat) {
      ts > now || (ts == now && uid > currentUid)
    }

    ghost predicate Valid() {
      && currentUid < nextUid
      && forall u :: u in queue ==> u < nextUid && After(queue[u].ts, u)
    }

    /** An id handed out by Schedule, or none. */
    ghost predicate Known(id: EventId) {
      id.Event? ==>
        && id.uid < nextUid
        && (if id.uid in queue then queue[id.uid].ts == id.ts else !After(id.ts, id.uid))
    }

    /** EventId::IsPending, that is, not IsExpired. */
    predicate IsPending(id: EventId) {
      id.Event? && After(id.ts, id.uid) && !(id.uid in queue && queue[id.uid].cancelled)
    }

    /** The event is in the queue and will do something. */
    predicate Live(u: nat) {
      u in queue && !queue[u].cancelled
    }

    function Schedule(delay: real, handler: Handler): (r: (Sim, EventId)) {
      (Sim(now, currentUid, nextUid + 1, queue[nextUid := Entry(now + delay, handler, false)]),
       Event(now + delay, nextUid))
    }

    function Cancel(id: EventId): Sim {
      if IsPending(id) && id.uid in queue
      then this.(queue := queue[id.uid := queue[id.uid].(cancelled := true)]) else this
    }

    /** Event u is the next to be run. */
    ghost predicate IsNext(u: nat) {
      u in queue &&
      forall v :: v in queue && v != u ==>
        queue[u].ts < queue[v].ts || (queue[u].ts == queue[v].ts && u < v)
    }

    /** Time and serial number once event u was taken out to be run. */
    function Pop(u: nat): Sim
      requires u in queue
    {
      Sim(queue[u].ts, u, nextUid, queue - {u})
    }

    lemma PendingIffLive(id: EventId)
      requires Valid() && Known(id)
      ensures IsPending(id) <==> id.Event? && Live(id.uid)
    {
    }

    lemma ScheduleFacts(delay: real, handler: Handler)
      requires Valid() && delay >= 0.0
      ensures var (s, id) := Schedule(delay, handler);
        && id == Event(now + delay, nextUid) && s.now == now
        && id.uid in s.queue && s.queue[id.uid] == Entry(now + delay, handler, false)
        && s.Valid() && s.Known(id) && s.Live(id.uid) && !Live(id.uid)
        && (forall v :: Live(v) ==> s.Live(v) && s.queue[v] == queue[v])
        && (forall v :: s.Live(v) ==> v == id.uid || (Live(v) && s.queue[v] == queue[v]))
        && (forall other :: Known(other) ==> s.Known(other))
    {
      var (s, id) := Schedule(delay, handler);
      assert nextUid !in queue;
      forall other | Known(other) ensures s.Known(other) {
        if other.Event? {
          assert other.uid != nextUid;
        }
      }
    }

    lemma CancelFacts(id: EventId)
      requires Valid() && Known(id)
      ensures var s := Cancel(id);
        && s.Valid() && s.now == now && (id.Event? ==> !s.Live(id.uid))
        && (forall v :: s.Live(v) ==> Live(v) && s.queue[v] == queue[v])
        && (forall v :: Live(v) && !(id.Event? && v == id.uid) ==> s.Live(v))
        && (forall other :: Known(other) ==> s.Known(other))
    {
    }

    lemma PopFacts(u: nat)
      requires Valid() && IsNext(u)
      ensures var s := Pop(u);
        && s.Valid() && s.now == queue[u].ts >= now && !s.Live(u)
        && (forall v :: s.Live(v) ==> Live(v) && v != u && s.queue[v] == queue[v])
        && (forall v :: Live(v) && v != u ==> s.Live(v))
        && (forall other :: Known(other) ==> s.Known(other))
    {
    }
  }
}
