/** The packet timers of the traffic application: one live timer per flow, exactly
    as long as no profile change starts the same flow twice. */
module TrafficTimers {
  import opened EventSimulator
  import opened TrafficModel
  import opened TrafficInvariant
  import WeightedPick

  // ---------------------------------------------------------------- one timer

  /** A live packet timer is the stored one of its flow, and the flow is active;
      so there is at most one per flow. */
  ghost predicate OneTimer(w: World) {
    forall u, f: nat :: LiveSend(w, u, f) ==>
      f < |w.app.active| && f < |w.app.sendEvents| && w.app.active[f] &&
      w.app.sendEvents[f] == Event(w.sim.queue[u].ts, u)
  }

  ghost predicate NoTimer(w: World, f: nat) {
    forall u :: !LiveSend(w, u, f)
  }

  /** The profile change starts flow 0 twice, and both times there is something to
      send: it draws 0 for the second choice after flow 0 was its first, the socket
      is open, and the cap is not reached before or after the first packet. */
  ghost predicate DoublePick(cfg: Config, w: World, d: Draws)
    requires cfg.Valid() && Sized(cfg, w)
  {
    var sent := w.app.sentBytes[0];
    UsesTwo(cfg, d) && cfg.PickFlow(-1, d.first) == 0 && d.second == 0.0 &&
    w.app.open[0] && cfg.Offer(sent) > 0 && cfg.Offer(SentAfter(cfg, sent, d.reply1)) > 0
  }

  /** The second flow picked equals the first exactly when that is flow 0 and the
      draw is 0. */
  lemma SecondPick(cfg: Config, d: Draws)
    requires cfg.Valid() && d.Valid() && |cfg.flows| > 1
    ensures var p := cfg.PickFlow(-1, d.first);
      cfg.PickFlow(p, d.second) == p <==> p == 0 && d.second == 0.0
  {
    WeightedPick.ExcludedIff(cfg.Weights(), cfg.PickFlow(-1, d.first), d.second);
  }

  /** Scheduling the next packet: what the live packet timers are afterwards. */
  lemma NextTimers(cfg: Config, w: World, f: nat)
    requires cfg.Valid() && Steady(cfg, w) && f < |cfg.flows|
    ensures var v := ScheduleNext(cfg, w, f);
      && v.app.sendEvents == w.app.sendEvents[f := Event(w.sim.now + cfg.Interval(f), w.sim.nextUid)]
      && LiveSend(v, w.sim.nextUid, f) && !w.sim.Live(w.sim.nextUid)
      && v.sim.queue[w.sim.nextUid].ts == w.sim.now + cfg.Interval(f)
      && (forall u, g :: LiveSend(v, u, g) ==>
            (u == w.sim.nextUid && g == f) || (LiveSend(w, u, g) && v.sim.queue[u] == w.sim.queue[u]))
      && (forall u, g :: LiveSend(w, u, g) ==> LiveSend(v, u, g))
  {
    w.sim.ScheduleFacts(cfg.Interval(f), SendPacket(f));
  }

  lemma TransmitSteady(cfg: Config, w: World, f: nat, reply: Reply)
    requires cfg.Valid() && Steady(cfg, w) && f < |cfg.flows|
    ensures Steady(cfg, Transmit(cfg, w, f, reply))
  {
    var t := Transmit(cfg, w, f, reply);
    forall g | 0 <= g < |cfg.flows| ensures SendIdOk(t, g) {
      assert SendIdOk(w, g);
    }
  }

  /** Sending on a flow without a timer keeps one timer per flow; sending on a
      flow that has one breaks it. */
  lemma SendTimers(cfg: Config, w: World, f: nat, reply: Reply)
    requires cfg.Valid() && Steady(cfg, w) && f < |cfg.flows| && OneTimer(w)
    ensures NoTimer(w, f) || !Sends(cfg, w, f) ==> OneTimer(Send(cfg, w, f, reply))
    ensures !NoTimer(w, f) && Sends(cfg, w, f) ==> !OneTimer(Send(cfg, w, f, reply))
    ensures forall g :: g != f && NoTimer(w, g) ==> NoTimer(Send(cfg, w, f, reply), g)
    ensures Sends(cfg, w, f) ==> !NoTimer(Send(cfg, w, f, reply), f)
    ensures NoTimer(w, f) && !Sends(cfg, w, f) ==> NoTimer(Send(cfg, w, f, reply), f)
  {
    if Sends(cfg, w, f) {
      var t := Transmit(cfg, w, f, reply);
      TransmitSteady(cfg, w, f, reply);
      assert forall u, g :: LiveSend(t, u, g) <==> LiveSend(w, u, g);
      NextTimers(cfg, t, f);
      var v := Send(cfg, w, f, reply);
      if NoTimer(w, f) {
        forall u, g: nat | LiveSend(v, u, g)
          ensures g < |v.app.active| && v.app.active[g] && v.app.sendEvents[g] == Event(v.sim.queue[u].ts, u)
        {
          if LiveSend(w, u, g) {
            assert g != f;
          }
        }
      } else {
        var u :| LiveSend(w, u, f);
        assert LiveSend(v, u, f) && LiveSend(v, w.sim.nextUid, f);
        assert u != w.sim.nextUid;
      }
      forall g, u | g != f && NoTimer(w, g) ensures !LiveSend(v, u, g) {
        assert !LiveSend(w, u, g);
      }
    }
  }

  lemma MarkTimers(cfg: Config, w: World, f: nat)
    requires cfg.Valid() && Steady(cfg, w) && f < |cfg.flows|
    ensures Steady(cfg, MarkActive(cfg, w, f))
    ensures OneTimer(w) ==> OneTimer(MarkActive(cfg, w, f))
    ensures forall g :: NoTimer(MarkActive(cfg, w, f), g) <==> NoTimer(w, g)
  {
    var m := MarkActive(cfg, w, f);
    forall g | 0 <= g < |cfg.flows| ensures SendIdOk(m, g) {
      assert SendIdOk(w, g);
    }
    assert forall u, g :: LiveSend(m, u, g) <==> LiveSend(w, u, g);
    forall g ensures NoTimer(m, g) <==> NoTimer(w, g) {
      if NoTimer(m, g) {
        forall u ensures !LiveSend(w, u, g) {
          assert !LiveSend(m, u, g);
        }
      }
    }
  }

  /** One step of the first loop: cancelling the stored timer leaves flow f none. */
  lemma CancelTimers(cfg: Config, m: World, v: World, f: nat)
    requires Steady(cfg, m) && OneTimer(m) && f < |cfg.flows|
    requires v.sim == m.sim.Cancel(m.app.sendEvents[f])
    requires v.app == m.app.(active := m.app.active[f := false])
    ensures OneTimer(v) && NoTimer(v, f)
    ensures forall u :: v.sim.Live(u) ==> m.sim.Live(u) && v.sim.queue[u] == m.sim.queue[u]
  {
    assert SendIdOk(m, f);
    m.sim.CancelFacts(m.app.sendEvents[f]);
    forall u, g | LiveSend(v, u, g) ensures LiveSend(m, u, g) && g != f {}
  }

  /** After the first loop of ChangeProfile no packet timer is left. */
  lemma {:induction false} DeactivateTimers(cfg: Config, w: World, k: nat)
    requires Steady(cfg, w) && OneTimer(w) && k <= |cfg.flows|
    ensures var v := Deactivate(cfg, w, k);
      OneTimer(v) && (forall f :: 0 <= f < k ==> NoTimer(v, f)) &&
      (forall u :: v.sim.Live(u) ==> w.sim.Live(u) && v.sim.queue[u] == w.sim.queue[u])
  {
    if k == 0 {
    } else {
      DeactivateTimers(cfg, w, k - 1);
      DeactivateSteady(cfg, w, k - 1);
      var m, v := Deactivate(cfg, w, k - 1), Deactivate(cfg, w, k);
      CancelTimers(cfg, m, v, k - 1);
      forall f, u | 0 <= f < k - 1 ensures !LiveSend(v, u, f) {
        assert NoTimer(m, f);
        assert !LiveSend(m, u, f);
      }
    }
  }

  lemma ScheduleProfileTimers(v: World, durationMs: real)
    requires v.sim.Valid() && durationMs >= 0.0
    ensures OneTimer(ScheduleProfile(v, durationMs)) <==> OneTimer(v)
  {
    v.sim.ScheduleFacts(durationMs / 1000.0, ChangeProfile);
    var r := ScheduleProfile(v, durationMs);
    assert forall u, f :: LiveSend(r, u, f) <==> LiveSend(v, u, f);
    assert forall u, f :: LiveSend(v, u, f) ==> r.sim.queue[u] == v.sim.queue[u];
  }

  lemma FirstTimers(cfg: Config, w: World, d: Draws)
    requires cfg.Valid() && Steady(cfg, w) && OneTimer(w)
    ensures var p, v := cfg.PickFlow(-1, d.first), FirstActive(cfg, w, d);
      && Steady(cfg, v) && OneTimer(v)
      && (forall g :: 0 <= g < |cfg.flows| && g != p ==> NoTimer(v, g))
      && (NoTimer(v, p) <==> !(w.app.open[p] && cfg.Offer(w.app.sentBytes[p]) > 0))
      && v.app.active[p] && v.app.open == w.app.open
      && (NoTimer(v, p) || v.app.sentBytes[p] == SentAfter(cfg, w.app.sentBytes[p], d.reply1))
  {
    var n, p := |cfg.flows|, cfg.PickFlow(-1, d.first);
    var v0 := Deactivate(cfg, w, n);
    DeactivateSteady(cfg, w, n);
    DeactivateTimers(cfg, w, n);
    MarkTimers(cfg, v0, p);
    var m := MarkActive(cfg, v0, p);
    SendSteady(cfg, m, p, d.reply1);
    SendTimers(cfg, m, p, d.reply1);
    assert Sends(cfg, m, p) <==> w.app.open[p] && cfg.Offer(w.app.sentBytes[p]) > 0;
  }

  /** Activating a flow when only flow p may have a timer. */
  lemma SecondTimers(cfg: Config, v: World, p: nat, q: nat, reply: Reply)
    requires cfg.Valid() && Steady(cfg, v) && OneTimer(v) && q < |cfg.flows|
    requires forall g :: 0 <= g < |cfg.flows| && g != p ==> NoTimer(v, g)
    ensures OneTimer(Activate(cfg, v, q, reply)) <==>
            !(q == p && !NoTimer(v, p) && v.app.open[q] && cfg.Offer(v.app.sentBytes[q]) > 0)
  {
    MarkTimers(cfg, v, q);
    SendTimers(cfg, MarkActive(cfg, v, q), q, reply);
    assert q != p ==> NoTimer(v, q);
  }

  lemma BothTimersIff(cfg: Config, w: World, d: Draws)
    requires cfg.Valid() && Steady(cfg, w) && OneTimer(w) && d.Valid()
    ensures OneTimer(BothActive(cfg, w, d)) <==> !DoublePick(cfg, w, d)
  {
    var p, v := cfg.PickFlow(-1, d.first), FirstActive(cfg, w, d);
    FirstTimers(cfg, w, d);
    if UsesTwo(cfg, d) {
      SecondPick(cfg, d);
      SecondTimers(cfg, v, p, cfg.PickFlow(p, d.second), d.reply2);
    } else {
      assert BothActive(cfg, w, d) == v;
    }
  }

  /** A profile change keeps one timer per flow exactly when it is no double pick. */
  lemma ProfileTimersIff(cfg: Config, w: World, d: Draws)
    requires cfg.Valid() && Steady(cfg, w) && OneTimer(w) && d.Valid()
    ensures OneTimer(Profile(cfg, w, d)) <==> !DoublePick(cfg, w, d)
  {
    BothTimersIff(cfg, w, d);
    BothActiveSteady(cfg, w, d);
    ScheduleProfileTimers(BothActive(cfg, w, d), d.durationMs);
  }

  // --------------------------------------------------------- runs and timers

  /** This step changes the profile with a double pick. */
  ghost predicate DoubleStep(cfg: Config, w: World, i: Input)
    requires cfg.Valid() && Runnable(cfg, w) && CanStep(cfg, w, i)
  {
    match i
    case Start(d) => DoublePick(cfg, Opened(cfg, w), d)
    case Tick(u, d) =>
      LiveProfile(w, u) && w.phase != Idle && DoublePick(cfg, w.(sim := w.sim.Pop(u)), d)
    case _ => false
  }

  /** Packet timers of a world: one per flow, and none outside the running phase. */
  ghost predicate TimersOk(w: World) {
    OneTimer(w) && (w.phase != Running ==> forall u, f :: !LiveSend(w, u, f))
  }

  lemma PopTimers(cfg: Config, w: World, u: nat)
    requires Steady(cfg, w) && OneTimer(w) && w.sim.IsNext(u)
    ensures var v := w.(sim := w.sim.Pop(u));
      Steady(cfg, v) && OneTimer(v) && (forall x, f :: LiveSend(v, x, f) ==> LiveSend(w, x, f))
    ensures forall f :: LiveSend(w, u, f) ==> NoTimer(w.(sim := w.sim.Pop(u)), f)
  {
    var v := w.(sim := w.sim.Pop(u));
    w.sim.PopFacts(u);
    SimOnlySteady(cfg, w, v);
    forall x, f | LiveSend(v, x, f) ensures LiveSend(w, x, f) && v.sim.queue[x] == w.sim.queue[x] && x != u {}
  }

  lemma TickTimers(cfg: Config, w: World, u: nat, d: Draws)
    requires cfg.Valid() && Weak(cfg, w) && TimersOk(w) && CanStep(cfg, w, Tick(u, d))
    ensures TimersOk(Step(cfg, w, Tick(u, d))) <==> !DoubleStep(cfg, w, Tick(u, d))
  {
    var v := w.(sim := w.sim.Pop(u));
    w.sim.PopFacts(u);
    if w.phase == Idle {
      assert forall x, f :: LiveSend(v, x, f) ==> LiveSend(w, x, f);
    } else {
      PopTimers(cfg, w, u);
      if w.sim.Live(u) {
        match w.sim.queue[u].handler
        case Foreign =>
        case SendPacket(f) =>
          assert LiveSend(w, u, f);
          SendTimers(cfg, v, f, d.reply1);
        case ChangeProfile =>
          assert LiveProfile(w, u);
          BothActiveSteady(cfg, v, d);
          ProfileTimersIff(cfg, v, d);
      }
    }
  }

  lemma StartTimers(cfg: Config, w: World, d: Draws)
    requires cfg.Valid() && Weak(cfg, w) && TimersOk(w) && CanStep(cfg, w, Start(d))
    ensures TimersOk(Step(cfg, w, Start(d))) <==> !DoubleStep(cfg, w, Start(d))
  {
    var v := Opened(cfg, w);
    assert forall u, f :: LiveSend(v, u, f) <==> LiveSend(w, u, f);
    BothActiveSteady(cfg, v, d);
    ProfileTimersIff(cfg, v, d);
  }

  lemma StopTimers(cfg: Config, w: World)
    requires cfg.Valid() && Weak(cfg, w) && TimersOk(w) && w.phase == Running
    ensures TimersOk(StopApp(cfg, w))
  {
    StopWeak(cfg, w);
    var v := StopApp(cfg, w);
    forall u, f ensures !LiveSend(v, u, f) {
      if LiveSend(v, u, f) {
        assert LiveSend(w, u, f);
      }
    }
  }

  lemma ForeignTimers(cfg: Config, w: World, i: Input)
    requires cfg.Valid() && Weak(cfg, w) && TimersOk(w) && CanStep(cfg, w, i)
    requires i.ForeignSchedule? || i.ForeignCancel?
    ensures TimersOk(Step(cfg, w, i))
  {
    var v := Step(cfg, w, i);
    if i.ForeignSchedule? {
      w.sim.ScheduleFacts(i.delay, Foreign);
    } else {
      w.sim.CancelFacts(i.id);
    }
    assert forall u, f :: LiveSend(v, u, f) <==> LiveSend(w, u, f);
    assert forall u, f :: LiveSend(v, u, f) ==> v.sim.queue[u] == w.sim.queue[u];
  }

  lemma StepTimers(cfg: Config, w: World, i: Input)
    requires cfg.Valid() && Weak(cfg, w) && TimersOk(w) && CanStep(cfg, w, i)
    ensures TimersOk(Step(cfg, w, i)) <==> !DoubleStep(cfg, w, i)
  {
    match i
    case Start(d) => StartTimers(cfg, w, d);
    case Stop => StopTimers(cfg, w);
    case Tick(u, d) => TickTimers(cfg, w, u, d);
    case _ => ForeignTimers(cfg, w, i);
  }

  lemma {:induction false} TimersAt(cfg: Config, ws: seq<World>, inputs: seq<Input>, i: nat)
    requires cfg.Valid() && IsRun(cfg, ws, inputs) && i < |ws|
    requires forall k :: 0 <= k < |inputs| ==> !DoubleStep(cfg, ws[k], inputs[k])
    ensures TimersOk(ws[i])
  {
    if i == 0 {
    } else {
      TimersAt(cfg, ws, inputs, i - 1);
      RunWeak(cfg, ws, inputs, i - 1);
      StepTimers(cfg, ws[i - 1], inputs[i - 1]);
    }
  }

  /** In every run, every flow always has at most one live packet timer, the
      stored one, and only while it is active and the application is running,
      exactly when no profile change of the run is a double pick.  Draws that are
      strictly positive rule a double pick out. */
  lemma {:induction false} OneTimerIff(cfg: Config, ws: seq<World>, inputs: seq<Input>)
    requires cfg.Valid() && IsRun(cfg, ws, inputs)
    ensures (forall i :: 0 <= i < |ws| ==> TimersOk(ws[i])) <==>
            (forall i :: 0 <= i < |inputs| ==> !DoubleStep(cfg, ws[i], inputs[i]))
  {
    if forall i :: 0 <= i < |ws| ==> TimersOk(ws[i]) {
      forall i | 0 <= i < |inputs| ensures !DoubleStep(cfg, ws[i], inputs[i]) {
        RunWeak(cfg, ws, inputs, i);
        StepTimers(cfg, ws[i], inputs[i]);
        assert TimersOk(ws[i + 1]);
      }
    }
    if forall i :: 0 <= i < |inputs| ==> !DoubleStep(cfg, ws[i], inputs[i]) {
      forall i | 0 <= i < |ws| ensures TimersOk(ws[i]) {
        TimersAt(cfg, ws, inputs, i);
      }
    }
  }

  ghost predicate PositiveDraws(i: Input) {
    match i
    case Start(d) => d.second > 0.0
    case Tick(_, d) => d.second > 0.0
    case _ => true
  }

  lemma PositiveIsSingle(cfg: Config, w: World, i: Input)
    requires cfg.Valid() && Runnable(cfg, w) && CanStep(cfg, w, i) && PositiveDraws(i)
    ensures !DoubleStep(cfg, w, i)
  {
  }

  /** A zero draw does break the invariant: with two or more flows and no byte cap,
      all-zero draws start flow 0 twice, with two live timers. */
  lemma ZeroDrawsDouble(cfg: Config, w: World, reply: Reply)
    requires cfg.Valid() && |cfg.flows| > 1 && cfg.packetSize > 0 && cfg.maxBytes == 0 && cfg.probabilityTwo > 0.0
    requires Initial(w)
    ensures var i := Start(Draws(0.0, 0.0, 0.0, 0.0, reply, reply));
      Runnable(cfg, w) && CanStep(cfg, w, i) && DoubleStep(cfg, w, i) && !TimersOk(Step(cfg, w, i))
  {
    var d := Draws(0.0, 0.0, 0.0, 0.0, reply, reply);
    var ws := cfg.Weights();
    assert WeightedPick.Prefix(ws, 1) == WeightedPick.Prefix(ws, 0) + ws[0];
    assert cfg.PickFlow(-1, 0.0) == 0;
    assert Weak(cfg, w);
    StepTimers(cfg, w, Start(d));
  }
}
