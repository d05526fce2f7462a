/** What every run of the traffic application keeps, whatever is drawn. */
module TrafficInvariant {
  import opened EventSimulator
  import opened TrafficModel

  ghost predicate HandlersInRange(cfg: Config, w: World) {
    forall u :: u in w.sim.queue && w.sim.queue[u].handler.SendPacket? ==> w.sim.queue[u].handler.flow < |cfg.flows|
  }

  /** The stored id of flow f was handed out for SendPacket(f), or is empty. */
  ghost predicate SendIdOk(w: World, f: nat)
    requires f < |w.app.sendEvents|
  {
    var id := w.app.sendEvents[f];
    w.sim.Known(id) && (id.Event? && id.uid in w.sim.queue ==> w.sim.queue[id.uid].handler == SendPacket(f))
  }

  ghost predicate ProfileIdOk(w: World) {
    var id := w.app.profileEvent;
    w.sim.Known(id) && (id.Event? && id.uid in w.sim.queue ==> w.sim.queue[id.uid].handler == ChangeProfile)
  }

  /** The part of the invariant that also holds inside the handlers. */
  ghost predicate Steady(cfg: Config, w: World) {
    && w.sim.Valid() && HandlersInRange(cfg, w) && Sized(cfg, w)
    && (forall f :: 0 <= f < |cfg.flows| ==> SendIdOk(w, f))
    && ProfileIdOk(w)
  }

  ghost predicate LiveProfile(w: World, u: nat) {
    w.sim.Live(u) && w.sim.queue[u].handler == ChangeProfile
  }

  ghost predicate LiveSend(w: World, u: nat, f: nat) {
    w.sim.Live(u) && w.sim.queue[u].handler == SendPacket(f)
  }

  ghost predicate NoProfile(w: World) {
    forall u :: !LiveProfile(w, u)
  }

  /** Exactly one profile timer is live, and it is the stored one. */
  ghost predicate OneProfile(w: World) {
    w.app.profileEvent.Event? && LiveProfile(w, w.app.profileEvent.uid) &&
    forall u :: LiveProfile(w, u) ==> u == w.app.profileEvent.uid
  }

  function ActiveCount(active: seq<bool>): nat {
    if active == [] then 0 else ActiveCount(active[..|active| - 1]) + (if active[|active| - 1] then 1 else 0)
  }

  ghost predicate AllAre(s: seq<bool>, b: bool) {
    forall i :: 0 <= i < |s| ==> s[i] == b
  }

  ghost predicate Weak(cfg: Config, w: World) {
    && w.sim.Valid() && Runnable(cfg, w)
    && match w.phase
       case Idle => w.app.profileEvent == NoEvent
       case Running =>
         Steady(cfg, w) && AllAre(w.app.open, true) && OneProfile(w) && 1 <= ActiveCount(w.app.active) <= 2
       case Stopped => Steady(cfg, w) && AllAre(w.app.open, false) && NoProfile(w)
  }

  // ------------------------------------------------------------- active flows

  lemma {:induction false} ActiveSet(active: seq<bool>, f: nat, b: bool)
    requires f < |active|
    ensures ActiveCount(active[f := b]) ==
            ActiveCount(active) - (if active[f] then 1 else 0) + (if b then 1 else 0)
    ensures active[f] ==> ActiveCount(active) >= 1
  {
    var last := |active| - 1;
    if f == last {
      assert active[f := b][..last] == active[..last];
    } else {
      assert active[f := b][..last] == active[..last][f := b];
      ActiveSet(active[..last], f, b);
    }
  }

  lemma {:induction false} NoneActive(active: seq<bool>)
    requires AllAre(active, false)
    ensures ActiveCount(active) == 0
  {
    if active == [] {
    } else {
      NoneActive(active[..|active| - 1]);
    }
  }

  // ------------------------------------------------------ what handlers keep

  /** v differs from w only in packet timers, flow flags and counters. */
  ghost predicate OnlySends(w: World, v: World) {
    && v.phase == w.phase && v.app.open == w.app.open && v.app.profileEvent == w.app.profileEvent
    && v.sim.now == w.sim.now && v.log.start == w.log.start
    && (forall u :: LiveProfile(v, u) <==> LiveProfile(w, u))
  }

  lemma ScheduleNextSteady(cfg: Config, w: World, f: nat)
    requires cfg.Valid() && Steady(cfg, w) && f < |cfg.flows|
    ensures var v := ScheduleNext(cfg, w, f);
      Steady(cfg, v) && OnlySends(w, v) && v.app.active == w.app.active && v.log == w.log &&
      v.app.sentBytes == w.app.sentBytes
  {
    w.sim.ScheduleFacts(cfg.Interval(f), SendPacket(f));
    var v := ScheduleNext(cfg, w, f);
    forall g | 0 <= g < |cfg.flows| ensures SendIdOk(v, g) {
      assert SendIdOk(w, g);
    }
  }

  lemma SendSteady(cfg: Config, w: World, f: nat, reply: Reply)
    requires cfg.Valid() && Steady(cfg, w) && f < |cfg.flows|
    ensures var v := Send(cfg, w, f, reply);
      Steady(cfg, v) && OnlySends(w, v) && v.app.active == w.app.active && v.log.activations == w.log.activations
  {
    if Sends(cfg, w, f) {
      var t := Transmit(cfg, w, f, reply);
      forall g | 0 <= g < |cfg.flows| ensures SendIdOk(t, g) {
        assert SendIdOk(w, g);
      }
      ScheduleNextSteady(cfg, t, f);
    }
  }

  lemma ActivateSteady(cfg: Config, w: World, f: nat, reply: Reply)
    requires cfg.Valid() && Steady(cfg, w) && f < |cfg.flows|
    ensures var v := Activate(cfg, w, f, reply);
      Steady(cfg, v) && OnlySends(w, v) && v.app.active == w.app.active[f := true]
  {
    var m := MarkActive(cfg, w, f);
    forall g | 0 <= g < |cfg.flows| ensures SendIdOk(m, g) {
      assert SendIdOk(w, g);
    }
    SendSteady(cfg, m, f, reply);
  }

  lemma CancelSteady(cfg: Config, w: World, v: World, id: EventId)
    requires Steady(cfg, w) && w.sim.Known(id) && v.sim == w.sim.Cancel(id)
    requires v.app.sendEvents == w.app.sendEvents && v.app.profileEvent == w.app.profileEvent && Sized(cfg, v)
    ensures Steady(cfg, v)
  {
    w.sim.CancelFacts(id);
    forall g | 0 <= g < |cfg.flows| ensures SendIdOk(v, g) {
      assert SendIdOk(w, g);
    }
  }

  lemma {:induction false} DeactivateSteady(cfg: Config, w: World, k: nat)
    requires Steady(cfg, w) && k <= |cfg.flows|
    ensures var v := Deactivate(cfg, w, k);
      Steady(cfg, v) && OnlySends(w, v) && v.log == w.log && v.app.sentBytes == w.app.sentBytes &&
      (forall f :: 0 <= f < k ==> !v.app.active[f])
  {
    if k == 0 {
    } else {
      DeactivateSteady(cfg, w, k - 1);
      var m := Deactivate(cfg, w, k - 1);
      assert SendIdOk(m, k - 1);
      m.sim.CancelFacts(m.app.sendEvents[k - 1]);
      CancelSteady(cfg, m, Deactivate(cfg, w, k), m.app.sendEvents[k - 1]);
    }
  }

  /** One or two flows are active once ChangeProfile made its choice. */
  lemma BothActiveSteady(cfg: Config, w: World, d: Draws)
    requires cfg.Valid() && Steady(cfg, w)
    ensures var v := BothActive(cfg, w, d);
      Steady(cfg, v) && OnlySends(w, v) && 1 <= ActiveCount(v.app.active) <= 2
  {
    var n := |cfg.flows|;
    var v0 := Deactivate(cfg, w, n);
    DeactivateSteady(cfg, w, n);
    NoneActive(v0.app.active);
    var p := cfg.PickFlow(-1, d.first);
    var v1 := FirstActive(cfg, w, d);
    ActivateSteady(cfg, v0, p, d.reply1);
    ActiveSet(v0.app.active, p, true);
    if UsesTwo(cfg, d) {
      ActivateSteady(cfg, v1, cfg.PickFlow(p, d.second), d.reply2);
      ActiveSet(v1.app.active, cfg.PickFlow(p, d.second), true);
    }
  }

  /** The new profile timer is the only one. */
  lemma ProfileWeak(cfg: Config, w: World, d: Draws)
    requires cfg.Valid() && Steady(cfg, w) && NoProfile(w) && d.Valid()
    requires w.phase == Running && AllAre(w.app.open, true)
    ensures Weak(cfg, Profile(cfg, w, d)) && Profile(cfg, w, d).phase == Running
  {
    var v2, v := BothActive(cfg, w, d), Profile(cfg, w, d);
    BothActiveSteady(cfg, w, d);
    v2.sim.ScheduleFacts(d.durationMs / 1000.0, ChangeProfile);
    forall f | 0 <= f < |cfg.flows| ensures SendIdOk(v, f) {
      assert SendIdOk(v2, f);
    }
    forall u | LiveProfile(v, u) ensures u == v.app.profileEvent.uid {
      assert u == v.app.profileEvent.uid || LiveProfile(v2, u);
    }
  }

  lemma StartWeak(cfg: Config, w: World, d: Draws)
    requires cfg.Valid() && Weak(cfg, w) && w.phase == Idle && d.Valid()
    ensures Weak(cfg, StartApp(cfg, w, d))
  {
    var v := Opened(cfg, w);
    assert forall u :: LiveProfile(v, u) ==> w.sim.Live(u);
    assert Steady(cfg, v);
    ProfileWeak(cfg, v, d);
  }

  lemma {:induction false} CloseSteady(cfg: Config, w: World, k: nat)
    requires Steady(cfg, w) && k <= |cfg.flows|
    ensures var v := Close(cfg, w, k);
      && Steady(cfg, v) && v.phase == w.phase && v.app.profileEvent == w.app.profileEvent
      && v.app.active == w.app.active && v.app.sentBytes == w.app.sentBytes
      && v.log == w.log && v.sim.now == w.sim.now
      && (forall f :: 0 <= f < k ==> !v.app.open[f])
      && (forall u :: v.sim.Live(u) ==> w.sim.Live(u) && v.sim.queue[u] == w.sim.queue[u])
      && (forall u, f :: 0 <= f < k && w.app.sendEvents[f].Event? && u == w.app.sendEvents[f].uid ==> !v.sim.Live(u))
  {
    if k == 0 {
    } else {
      CloseSteady(cfg, w, k - 1);
      var m := Close(cfg, w, k - 1);
      assert SendIdOk(m, k - 1);
      m.sim.CancelFacts(m.app.sendEvents[k - 1]);
      CancelSteady(cfg, m, Close(cfg, w, k), m.app.sendEvents[k - 1]);
    }
  }

  lemma StopWeak(cfg: Config, w: World)
    requires cfg.Valid() && Weak(cfg, w) && w.phase == Running
    ensures Weak(cfg, StopApp(cfg, w)) && StopApp(cfg, w).phase == Stopped
    ensures StopApp(cfg, w).log == w.log && StopApp(cfg, w).app.sentBytes == w.app.sentBytes
    ensures forall u :: StopApp(cfg, w).sim.Live(u) ==>
      w.sim.Live(u) && StopApp(cfg, w).sim.queue[u] == w.sim.queue[u]
    ensures forall u, f :: 0 <= f < |cfg.flows| && w.app.sendEvents[f].Event? && u == w.app.sendEvents[f].uid ==>
      !StopApp(cfg, w).sim.Live(u)
  {
    var v := w.(sim := w.sim.Cancel(w.app.profileEvent));
    w.sim.CancelFacts(w.app.profileEvent);
    CancelSteady(cfg, w, v, w.app.profileEvent);
    forall x ensures !LiveProfile(v, x) {
      if LiveProfile(v, x) {
        assert LiveProfile(w, x);
      }
    }
    CloseSteady(cfg, v, |cfg.flows|);
    var r := StopApp(cfg, w);
    var c := Close(cfg, v, |cfg.flows|);
    assert r.sim == c.sim && r.app == c.app;
    forall f | 0 <= f < |cfg.flows| ensures SendIdOk(r, f) {
      assert SendIdOk(c, f);
    }
    assert forall u :: LiveProfile(r, u) ==> LiveProfile(v, u);
  }

  /** The simulator alone moves on: time, and events of other code. */
  lemma SimOnlySteady(cfg: Config, w: World, v: World)
    requires Steady(cfg, w) && v.sim.Valid() && HandlersInRange(cfg, v)
    requires v.app == w.app && v.log == w.log && v.phase == w.phase
    requires forall id :: w.sim.Known(id) ==> v.sim.Known(id)
    requires forall u :: u in v.sim.queue && u in w.sim.queue ==> v.sim.queue[u].handler == w.sim.queue[u].handler
    requires forall u :: u in v.sim.queue && u !in w.sim.queue ==> u >= w.sim.nextUid
    ensures Steady(cfg, v)
  {
    forall f | 0 <= f < |cfg.flows| ensures SendIdOk(v, f) {
      assert SendIdOk(w, f);
    }
  }

  lemma TickWeak(cfg: Config, w: World, u: nat, d: Draws)
    requires cfg.Valid() && Weak(cfg, w) && CanStep(cfg, w, Tick(u, d))
    ensures Weak(cfg, Step(cfg, w, Tick(u, d)))
    ensures w.phase == Stopped ==>
      var v := Step(cfg, w, Tick(u, d)); v.phase == Stopped && v.log == w.log && v.app.sentBytes == w.app.sentBytes
  {
    var v := w.(sim := w.sim.Pop(u));
    w.sim.PopFacts(u);
    if w.phase != Idle {
      SimOnlySteady(cfg, w, v);
    }
    if w.sim.Live(u) && w.phase != Idle {
      match w.sim.queue[u].handler
      case Foreign =>
        assert forall x :: LiveProfile(v, x) <==> LiveProfile(w, x);
      case SendPacket(f) =>
        SendSteady(cfg, v, f, d.reply1);
        assert forall x :: LiveProfile(v, x) <==> LiveProfile(w, x);
      case ChangeProfile =>
        assert LiveProfile(w, u);
        forall x ensures !LiveProfile(v, x) {
          if LiveProfile(v, x) {
            assert LiveProfile(w, x);
          }
        }
        ProfileWeak(cfg, v, d);
    } else {
      assert forall x :: LiveProfile(v, x) <==> LiveProfile(w, x);
    }
  }

  lemma ForeignWeak(cfg: Config, w: World, i: Input)
    requires cfg.Valid() && Weak(cfg, w) && CanStep(cfg, w, i) && (i.ForeignSchedule? || i.ForeignCancel?)
    ensures Weak(cfg, Step(cfg, w, i))
  {
    var v := Step(cfg, w, i);
    if i.ForeignSchedule? {
      w.sim.ScheduleFacts(i.delay, Foreign);
    } else {
      w.sim.CancelFacts(i.id);
    }
    if w.phase != Idle {
      SimOnlySteady(cfg, w, v);
    }
    assert forall x :: LiveProfile(v, x) <==> LiveProfile(w, x);
  }

  /** Every step keeps the invariant, whatever was drawn and replied. */
  lemma StepWeak(cfg: Config, w: World, i: Input)
    requires cfg.Valid() && Weak(cfg, w) && CanStep(cfg, w, i)
    ensures Weak(cfg, Step(cfg, w, i))
    ensures w.phase == Stopped ==>
      var v := Step(cfg, w, i); v.phase == Stopped && v.log == w.log && v.app.sentBytes == w.app.sentBytes
  {
    match i
    case Start(d) => StartWeak(cfg, w, d);
    case Stop => StopWeak(cfg, w);
    case Tick(u, d) => TickWeak(cfg, w, u, d);
    case _ => ForeignWeak(cfg, w, i);
  }

  // -------------------------------------------------------------------- runs

  /** Before the start: no events of the application. */
  ghost predicate Initial(w: World) {
    w.sim.Valid() && w.phase == Idle && w.app.profileEvent == NoEvent &&
    forall u :: u in w.sim.queue ==> w.sim.queue[u].handler == Foreign
  }

  ghost predicate IsRun(cfg: Config, ws: seq<World>, inputs: seq<Input>)
    requires cfg.Valid()
  {
    && |ws| == |inputs| + 1 && Initial(ws[0])
    && forall i :: 0 <= i < |inputs| ==>
         Runnable(cfg, ws[i]) && CanStep(cfg, ws[i], inputs[i]) && ws[i + 1] == Step(cfg, ws[i], inputs[i])
  }

  lemma {:induction false} RunWeak(cfg: Config, ws: seq<World>, inputs: seq<Input>, i: nat)
    requires cfg.Valid() && IsRun(cfg, ws, inputs) && i < |ws|
    ensures Weak(cfg, ws[i])
  {
    if i == 0 {
    } else {
      RunWeak(cfg, ws, inputs, i - 1);
      StepWeak(cfg, ws[i - 1], inputs[i - 1]);
    }
  }

  /** Nothing is sent after the stop, in any run. */
  lemma {:induction false} SilentAfterStop(cfg: Config, ws: seq<World>, inputs: seq<Input>, i: nat, j: nat)
    requires cfg.Valid() && IsRun(cfg, ws, inputs) && i <= j < |ws| && ws[i].phase == Stopped
    ensures ws[j].phase == Stopped
    ensures ws[j].log == ws[i].log && ws[j].app.sentBytes == ws[i].app.sentBytes
  {
    if i == j {
    } else {
      SilentAfterStop(cfg, ws, inputs, i, j - 1);
      RunWeak(cfg, ws, inputs, j - 1);
      StepWeak(cfg, ws[j - 1], inputs[j - 1]);
    }
  }
}
