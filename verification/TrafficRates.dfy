/** How much the traffic application sends: never faster than its packet interval
    allows, never more bytes than its cap, and with a socket that takes all it is
    offered exactly as many bytes as its packets carry. */
module TrafficRates {
  import opened EventSimulator
  import opened TrafficModel
  import opened TrafficInvariant
  import opened TrafficTimers
  import opened TrafficMeaning

  // ------------------------------------------------------------------- rates

  /** n packet intervals. */
  function Span(n: int, interval: real): real {
    n as real * interval
  }

  /** Sends beyond the activations of a flow. */
  function Extra(w: World, f: nat): int
    requires f < |w.log.attempts| && f < |w.log.activations|
  {
    w.log.attempts[f] as int - w.log.activations[f] as int
  }

  /** Up to the last send, every send beyond the activations took one interval. */
  ghost predicate Paced(cfg: Config, w: World, f: nat)
    requires cfg.Valid() && Sized(cfg, w) && f < |cfg.flows|
  {
    w.log.start <= w.log.lastAttempt[f] <= w.sim.now &&
    Span(Extra(w, f), cfg.Interval(f)) <= w.log.lastAttempt[f] - w.log.start
  }

  /** A flow's timer goes off one interval after its last send. */
  ghost predicate Timed(cfg: Config, w: World)
    requires cfg.Valid() && Sized(cfg, w)
  {
    forall u, f: nat :: f < |cfg.flows| && LiveSend(w, u, f) ==>
      w.sim.queue[u].ts == w.log.lastAttempt[f] + cfg.Interval(f)
  }

  ghost predicate AllPaced(cfg: Config, w: World)
    requires cfg.Valid() && Sized(cfg, w)
  {
    Timed(cfg, w) && forall f :: 0 <= f < |cfg.flows| ==> Paced(cfg, w, f)
  }

  /** One more send of f now would still be paced. */
  ghost predicate Room(cfg: Config, w: World, f: nat)
    requires cfg.Valid() && Sized(cfg, w) && f < |cfg.flows|
  {
    w.log.start <= w.sim.now && Span(Extra(w, f) + 1, cfg.Interval(f)) <= w.sim.now - w.log.start
  }

  lemma SendPaced(cfg: Config, w: World, f: nat, reply: Reply)
    requires cfg.Valid() && Steady(cfg, w) && f < |cfg.flows|
    requires AllPaced(cfg, w) && NoTimer(w, f) && Room(cfg, w, f)
    ensures AllPaced(cfg, Send(cfg, w, f, reply))
  {
    if Sends(cfg, w, f) {
      var t := Transmit(cfg, w, f, reply);
      TransmitSteady(cfg, w, f, reply);
      assert forall u, g :: LiveSend(t, u, g) <==> LiveSend(w, u, g);
      NextTimers(cfg, t, f);
      var v := Send(cfg, w, f, reply);
      forall g | 0 <= g < |cfg.flows| ensures Paced(cfg, v, g) {
        assert Paced(cfg, w, g);
        assert v.log == t.log;
      }
      forall u, g: nat | g < |cfg.flows| && LiveSend(v, u, g)
        ensures v.sim.queue[u].ts == v.log.lastAttempt[g] + cfg.Interval(g)
      {
        if LiveSend(w, u, g) {
          assert g != f;
        }
      }
    }
  }

  lemma MarkPaced(cfg: Config, w: World, f: nat)
    requires cfg.Valid() && Steady(cfg, w) && AllPaced(cfg, w) && f < |cfg.flows|
    ensures AllPaced(cfg, MarkActive(cfg, w, f)) && Room(cfg, MarkActive(cfg, w, f), f)
  {
    var m := MarkActive(cfg, w, f);
    assert Extra(m, f) == Extra(w, f) - 1;
    forall g | 0 <= g < |cfg.flows| ensures Paced(cfg, m, g) {
      assert Paced(cfg, w, g);
    }
    assert Paced(cfg, w, f);
    forall u, g: nat | g < |cfg.flows| && LiveSend(m, u, g)
      ensures m.sim.queue[u].ts == m.log.lastAttempt[g] + cfg.Interval(g)
    {
      assert LiveSend(w, u, g);
    }
  }

  lemma ActivatePaced(cfg: Config, w: World, f: nat, reply: Reply)
    requires cfg.Valid() && Steady(cfg, w) && AllPaced(cfg, w) && f < |cfg.flows| && NoTimer(w, f)
    ensures AllPaced(cfg, Activate(cfg, w, f, reply))
  {
    MarkPaced(cfg, w, f);
    MarkTimers(cfg, w, f);
    SendPaced(cfg, MarkActive(cfg, w, f), f, reply);
  }

  /** Live packet timers may only go away, and time may pass. */
  lemma FewerTimersPaced(cfg: Config, w: World, v: World)
    requires cfg.Valid() && Sized(cfg, w) && Sized(cfg, v) && AllPaced(cfg, w)
    requires v.log == w.log && v.sim.now >= w.sim.now
    requires forall u, f :: LiveSend(v, u, f) ==> LiveSend(w, u, f) && v.sim.queue[u] == w.sim.queue[u]
    ensures AllPaced(cfg, v)
  {
    forall f | 0 <= f < |cfg.flows| ensures Paced(cfg, v, f) {
      assert Paced(cfg, w, f);
    }
  }

  lemma BothPaced(cfg: Config, w: World, d: Draws)
    requires cfg.Valid() && Steady(cfg, w) && OneTimer(w) && AllPaced(cfg, w) && d.Valid()
    requires !DoublePick(cfg, w, d)
    ensures AllPaced(cfg, BothActive(cfg, w, d))
  {
    var n, p := |cfg.flows|, cfg.PickFlow(-1, d.first);
    var v0, v := Deactivate(cfg, w, n), FirstActive(cfg, w, d);
    DeactivateSteady(cfg, w, n);
    DeactivateTimers(cfg, w, n);
    FewerTimersPaced(cfg, w, v0);
    assert NoTimer(v0, p);
    ActivatePaced(cfg, v0, p, d.reply1);
    FirstTimers(cfg, w, d);
    if UsesTwo(cfg, d) {
      var q := cfg.PickFlow(p, d.second);
      SecondPick(cfg, d);
      if NoTimer(v, q) {
        ActivatePaced(cfg, v, q, d.reply2);
      } else {
        MarkPaced(cfg, v, q);
        assert q == p && !Sends(cfg, MarkActive(cfg, v, q), q);
      }
    }
  }

  lemma ProfilePaced(cfg: Config, w: World, d: Draws)
    requires cfg.Valid() && Steady(cfg, w) && OneTimer(w) && AllPaced(cfg, w) && d.Valid()
    requires !DoublePick(cfg, w, d)
    ensures AllPaced(cfg, Profile(cfg, w, d))
  {
    BothPaced(cfg, w, d);
    BothActiveSteady(cfg, w, d);
    var b := BothActive(cfg, w, d);
    b.sim.ScheduleFacts(d.durationMs / 1000.0, ChangeProfile);
    var v := Profile(cfg, w, d);
    forall u, f | LiveSend(v, u, f) ensures LiveSend(b, u, f) && v.sim.queue[u] == b.sim.queue[u] {}
    FewerTimersPaced(cfg, b, v);
  }

  /** The paced invariant of a run. */
  ghost predicate Rated(cfg: Config, w: World)
    requires cfg.Valid()
  {
    w.phase != Idle ==> Sized(cfg, w) && AllPaced(cfg, w)
  }

  /** A packet timer goes off: one interval has passed since the flow's last send. */
  lemma TimerRoom(cfg: Config, w: World, u: nat, f: nat)
    requires cfg.Valid() && Sized(cfg, w) && AllPaced(cfg, w) && f < |cfg.flows| && LiveSend(w, u, f)
    ensures Room(cfg, w.(sim := w.sim.Pop(u)), f)
  {
    assert Paced(cfg, w, f);
  }

  lemma PopRated(cfg: Config, w: World, u: nat)
    requires cfg.Valid() && Steady(cfg, w) && OneTimer(w) && AllPaced(cfg, w) && w.sim.IsNext(u)
    ensures AllPaced(cfg, w.(sim := w.sim.Pop(u)))
  {
    var v := w.(sim := w.sim.Pop(u));
    w.sim.PopFacts(u);
    forall x, f | LiveSend(v, x, f) ensures LiveSend(w, x, f) && v.sim.queue[x] == w.sim.queue[x] {}
    FewerTimersPaced(cfg, w, v);
  }

  lemma TimerRated(cfg: Config, w: World, u: nat, f: nat, reply: Reply)
    requires cfg.Valid() && Steady(cfg, w) && OneTimer(w) && AllPaced(cfg, w) && w.sim.IsNext(u)
    requires f < |cfg.flows| && LiveSend(w, u, f)
    ensures var v := w.(sim := w.sim.Pop(u)); AllPaced(cfg, Send(cfg, v, f, reply))
  {
    PopTimers(cfg, w, u);
    PopRated(cfg, w, u);
    TimerRoom(cfg, w, u, f);
    SendPaced(cfg, w.(sim := w.sim.Pop(u)), f, reply);
  }

  lemma ProfileTickRated(cfg: Config, w: World, u: nat, d: Draws)
    requires cfg.Valid() && Steady(cfg, w) && OneTimer(w) && AllPaced(cfg, w) && w.sim.IsNext(u) && d.Valid()
    requires !DoublePick(cfg, w.(sim := w.sim.Pop(u)), d)
    ensures var v := w.(sim := w.sim.Pop(u)); AllPaced(cfg, Profile(cfg, v, d))
  {
    PopTimers(cfg, w, u);
    PopRated(cfg, w, u);
    ProfilePaced(cfg, w.(sim := w.sim.Pop(u)), d);
  }

  lemma TickRated(cfg: Config, w: World, u: nat, d: Draws)
    requires cfg.Valid() && Weak(cfg, w) && TimersOk(w) && Rated(cfg, w) && CanStep(cfg, w, Tick(u, d))
    requires !DoubleStep(cfg, w, Tick(u, d))
    ensures Rated(cfg, Step(cfg, w, Tick(u, d)))
  {
    if w.phase != Idle {
      if !w.sim.Live(u) || w.sim.queue[u].handler == Foreign {
        PopRated(cfg, w, u);
      } else if LiveProfile(w, u) {
        ProfileTickRated(cfg, w, u, d);
      } else {
        var f := w.sim.queue[u].handler.flow;
        assert LiveSend(w, u, f);
        TimerRated(cfg, w, u, f, d.reply1);
      }
    }
  }

  lemma StartRated(cfg: Config, w: World, d: Draws)
    requires cfg.Valid() && Weak(cfg, w) && TimersOk(w) && CanStep(cfg, w, Start(d))
    requires !DoubleStep(cfg, w, Start(d))
    ensures Rated(cfg, StartApp(cfg, w, d))
  {
    var o := Opened(cfg, w);
    assert forall u, f :: LiveSend(o, u, f) <==> LiveSend(w, u, f);
    forall f | 0 <= f < |cfg.flows| ensures Paced(cfg, o, f) {
      assert Extra(o, f) == 0;
    }
    ProfilePaced(cfg, o, d);
  }

  lemma StopNow(cfg: Config, w: World)
    requires cfg.Valid() && Weak(cfg, w) && w.phase == Running
    ensures StopApp(cfg, w).sim.now == w.sim.now
  {
    var v := w.(sim := w.sim.Cancel(w.app.profileEvent));
    w.sim.CancelFacts(w.app.profileEvent);
    CancelSteady(cfg, w, v, w.app.profileEvent);
    CloseSteady(cfg, v, |cfg.flows|);
  }

  lemma StopRated(cfg: Config, w: World)
    requires cfg.Valid() && Weak(cfg, w) && Rated(cfg, w) && w.phase == Running
    ensures Rated(cfg, StopApp(cfg, w))
  {
    StopWeak(cfg, w);
    StopNow(cfg, w);
    FewerTimersPaced(cfg, w, StopApp(cfg, w));
  }

  lemma ForeignRated(cfg: Config, w: World, i: Input)
    requires cfg.Valid() && Weak(cfg, w) && Rated(cfg, w) && CanStep(cfg, w, i)
    requires i.ForeignSchedule? || i.ForeignCancel?
    ensures Rated(cfg, Step(cfg, w, i))
  {
    var v := Step(cfg, w, i);
    if w.phase != Idle {
      if i.ForeignSchedule? {
        w.sim.ScheduleFacts(i.delay, Foreign);
      } else {
        w.sim.CancelFacts(i.id);
      }
      forall u, f | LiveSend(v, u, f) ensures LiveSend(w, u, f) && v.sim.queue[u] == w.sim.queue[u] {}
      FewerTimersPaced(cfg, w, v);
    }
  }

  lemma StepRated(cfg: Config, w: World, i: Input)
    requires cfg.Valid() && Weak(cfg, w) && TimersOk(w) && Rated(cfg, w) && CanStep(cfg, w, i)
    requires !DoubleStep(cfg, w, i)
    ensures Rated(cfg, Step(cfg, w, i))
  {
    match i
    case Start(d) => StartRated(cfg, w, d);
    case Stop => StopRated(cfg, w);
    case Tick(u, d) => TickRated(cfg, w, u, d);
    case _ => ForeignRated(cfg, w, i);
  }

  lemma {:induction false} RatedAt(cfg: Config, ws: seq<World>, inputs: seq<Input>, i: nat)
    requires cfg.Valid() && IsRun(cfg, ws, inputs) && i < |ws|
    requires forall k :: 0 <= k < |inputs| ==> !DoubleStep(cfg, ws[k], inputs[k])
    ensures Rated(cfg, ws[i])
  {
    if i == 0 {
    } else {
      RatedAt(cfg, ws, inputs, i - 1);
      RunWeak(cfg, ws, inputs, i - 1);
      TimersAt(cfg, ws, inputs, i - 1);
      StepRated(cfg, ws[i - 1], inputs[i - 1]);
    }
  }

  lemma InBits(extra: int, interval: real, rate: real, bits: real, elapsed: real)
    requires rate > 0.0 && interval * rate == bits && extra as real * interval <= elapsed
    ensures extra as real * bits <= rate * elapsed
  {
    var slack := elapsed - extra as real * interval;
    assert slack * rate >= 0.0;
    assert extra as real * interval * rate == extra as real * (interval * rate);
  }

  /** In a run without double picks, the bits of the sends of a flow beyond its
      activations are at most what its rate carries in the elapsed time. */
  lemma {:induction false} RateBound(cfg: Config, ws: seq<World>, inputs: seq<Input>, i: nat, f: nat)
    requires cfg.Valid() && IsRun(cfg, ws, inputs) && i < |ws| && ws[i].phase != Idle && f < |cfg.flows|
    requires forall k :: 0 <= k < |inputs| ==> !DoubleStep(cfg, ws[k], inputs[k])
    ensures Sized(cfg, ws[i])
    ensures (ws[i].log.attempts[f] as int - ws[i].log.activations[f] as int) as real * (cfg.packetSize * 8) as real <=
            cfg.flows[f].rateMbps * 1000000.0 * (ws[i].sim.now - ws[i].log.start)
  {
    RatedAt(cfg, ws, inputs, i);
    assert Paced(cfg, ws[i], f);
    IntervalCarriesPacket(cfg, f);
    InBits(Extra(ws[i], f), cfg.Interval(f), cfg.flows[f].rateMbps * 1000000.0, (cfg.packetSize * 8) as real,
           ws[i].sim.now - ws[i].log.start);
  }

  // ------------------------------------------------------------------- bytes

  /** How the socket treats offers: it takes at most, or exactly, what it is offered. */
  datatype Socket = AtMost | Exactly

  ghost predicate ReplyOk(s: Socket, reply: Reply) {
    forall k :: if s == AtMost then reply(k) <= k else reply(k) == k
  }

  ghost predicate RepliesOk(s: Socket, i: Input) {
    match i
    case Start(d) => ReplyOk(s, d.reply1) && ReplyOk(s, d.reply2)
    case Tick(_, d) => ReplyOk(s, d.reply1) && ReplyOk(s, d.reply2)
    case _ => true
  }

  /** Bytes sent after k sends: never above the cap; exact for an exact socket. */
  ghost predicate BytesOk(cfg: Config, s: Socket, sent: nat, k: nat) {
    && (cfg.maxBytes > 0 ==> sent <= cfg.maxBytes)
    && (s == Exactly ==>
          sent == if cfg.maxBytes > 0 && k * cfg.packetSize > cfg.maxBytes then cfg.maxBytes else k * cfg.packetSize)
  }

  ghost predicate AllBytesOk(cfg: Config, s: Socket, w: World)
    requires Sized(cfg, w)
  {
    forall f :: 0 <= f < |cfg.flows| ==> BytesOk(cfg, s, w.app.sentBytes[f], w.log.attempts[f])
  }

  lemma SendBytes(cfg: Config, s: Socket, w: World, f: nat, reply: Reply)
    requires cfg.Valid() && Sized(cfg, w) && f < |cfg.flows| && AllBytesOk(cfg, s, w) && ReplyOk(s, reply)
    ensures Sized(cfg, Send(cfg, w, f, reply)) && AllBytesOk(cfg, s, Send(cfg, w, f, reply))
  {
    assert BytesOk(cfg, s, w.app.sentBytes[f], w.log.attempts[f]);
    if Sends(cfg, w, f) {
    }
  }

  lemma ProfileBytes(cfg: Config, s: Socket, w: World, d: Draws)
    requires cfg.Valid() && Steady(cfg, w) && AllBytesOk(cfg, s, w)
    requires ReplyOk(s, d.reply1) && ReplyOk(s, d.reply2)
    ensures Sized(cfg, Profile(cfg, w, d)) && AllBytesOk(cfg, s, Profile(cfg, w, d))
  {
    var n, p := |cfg.flows|, cfg.PickFlow(-1, d.first);
    DeactivateSteady(cfg, w, n);
    var v0 := Deactivate(cfg, w, n);
    SendBytes(cfg, s, MarkActive(cfg, v0, p), p, d.reply1);
    var v := FirstActive(cfg, w, d);
    if UsesTwo(cfg, d) {
      var q := cfg.PickFlow(p, d.second);
      SendBytes(cfg, s, MarkActive(cfg, v, q), q, d.reply2);
    }
  }

  lemma StepBytes(cfg: Config, s: Socket, w: World, i: Input)
    requires cfg.Valid() && Weak(cfg, w) && CanStep(cfg, w, i) && RepliesOk(s, i)
    requires w.phase != Idle ==> AllBytesOk(cfg, s, w)
    ensures var v := Step(cfg, w, i); v.phase != Idle ==> Sized(cfg, v) && AllBytesOk(cfg, s, v)
  {
    match i
    case Start(d) =>
      var o := Opened(cfg, w);
      assert Steady(cfg, o);
      ProfileBytes(cfg, s, o, d);
    case Stop => StopWeak(cfg, w);
    case Tick(u, d) =>
      if w.phase != Idle && w.sim.Live(u) {
        var v := w.(sim := w.sim.Pop(u));
        w.sim.PopFacts(u);
        SimOnlySteady(cfg, w, v);
        match w.sim.queue[u].handler
        case Foreign =>
        case SendPacket(f) => SendBytes(cfg, s, v, f, d.reply1);
        case ChangeProfile => ProfileBytes(cfg, s, v, d);
      }
    case _ =>
  }

  /** In every run, double picks or not: a flow never sends more than its cap, and
      with a socket that takes all it is offered, k sends carry exactly
      min(k * packetSize, cap) bytes. */
  lemma {:induction false} BytesAt(cfg: Config, s: Socket, ws: seq<World>, inputs: seq<Input>, i: nat)
    requires cfg.Valid() && IsRun(cfg, ws, inputs) && i < |ws|
    requires forall k :: 0 <= k < |inputs| ==> RepliesOk(s, inputs[k])
    ensures ws[i].phase != Idle ==> Sized(cfg, ws[i]) && AllBytesOk(cfg, s, ws[i])
  {
    if i == 0 {
    } else {
      BytesAt(cfg, s, ws, inputs, i - 1);
      RunWeak(cfg, ws, inputs, i - 1);
      StepBytes(cfg, s, ws[i - 1], inputs[i - 1]);
    }
  }
}
