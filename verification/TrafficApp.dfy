/** DynamicTrafficClientApp of scratch/uhr-mld-mixed-pedca.cc in its own form: an
    object whose handlers update its vectors and the simulator's event queue, each
    proved to do what the state machine of TrafficModel does. */
module TrafficApp {
  import opened EventSimulator
  import opened TrafficModel
  import opened TrafficMeaning
  import WeightedPick

  /** The simulator that all applications share. */
  class Simulator {
    var state: Sim

    constructor (start: real)
      ensures state == Sim(start, 0, 4, map[])
    {
      state := Sim(start, 0, 4, map[]);
    }

    method Schedule(delay: real, handler: Handler) returns (id: EventId)
      modifies this
      ensures (state, id) == old(state).Schedule(delay, handler)
    {
      var (next, event) := state.Schedule(delay, handler);
      state := next;
      id := event;
    }

    method Cancel(id: EventId)
      modifies this
      ensures state == old(state).Cancel(id)
    {
      state := state.Cancel(id);
    }
  }

  class DynamicTrafficClientApp {
    const cfg: Config
    const simulator: Simulator
    var isActive: seq<bool>
    var sockets: seq<bool>          // whether the flow's socket exists
    var sendEvents: seq<EventId>
    var sentBytes: seq<nat>
    var profileEvent: EventId
    ghost var log: Log
    ghost var phase: Phase

    ghost function View(): World
      reads this, simulator
    {
      World(simulator.state, App(isActive, sockets, sendEvents, sentBytes, profileEvent), log, phase)
    }

    constructor (cfg: Config, simulator: Simulator)
      ensures this.cfg == cfg && this.simulator == simulator
      ensures phase == Idle && profileEvent == NoEvent
    {
      this.cfg, this.simulator := cfg, simulator;
      isActive, sockets, sendEvents, sentBytes, profileEvent := [], [], [], [], NoEvent;
      log, phase := Log(0.0, [], [], []), Idle;
    }

    method StartApplication(d: Draws)
      requires cfg.Valid() && phase == Idle
      modifies this, simulator
      ensures View() == StartApp(cfg, old(View()), d)
    {
      var n := |cfg.flows|;
      sockets := All(n, false);
      sendEvents := All(n, NoEvent);
      isActive := All(n, false);
      sentBytes := All(n, 0);
      log := Log(simulator.state.now, All(n, 0), All(n, 0), All(n, simulator.state.now));
      phase := Running;
      for f := 0 to n
        invariant |sockets| == n && forall i :: 0 <= i < f ==> sockets[i]
        invariant isActive == All(n, false) && sendEvents == All(n, NoEvent) && sentBytes == All(n, 0)
        invariant profileEvent == old(profileEvent) && simulator.state == old(simulator.state)
        invariant log == Log(simulator.state.now, All(n, 0), All(n, 0), All(n, simulator.state.now)) && phase == Running
      {
        sockets := sockets[f := true];
      }
      assert sockets == All(n, true);
      assert View() == Opened(cfg, old(View()));
      ChangeProfileNow(d);
    }

    method StopApplication()
      requires Sized(cfg, View())
      modifies this, simulator
      ensures View() == StopApp(cfg, old(View()))
    {
      if simulator.state.IsPending(profileEvent) {
        simulator.Cancel(profileEvent);
      }
      ghost var v := old(View()).(sim := old(View()).sim.Cancel(profileEvent));
      assert View() == v;
      for f := 0 to |sockets|
        invariant Sized(cfg, v) && |sockets| == |cfg.flows|
        invariant View() == Close(cfg, v, f)
      {
        if simulator.state.IsPending(sendEvents[f]) {
          simulator.Cancel(sendEvents[f]);
        }
        if sockets[f] {
          sockets := sockets[f := false];
        }
      }
      phase := Stopped;
    }

    /** The weights of the flows, the excluded one at zero, and the choice. */
    method PickFlow(exclude: int, u: real) returns (flow: nat)
      requires cfg.Valid() && -1 <= exclude < |cfg.flows|
      ensures flow == cfg.PickFlow(exclude, u)
    {
      var weights := seq(|cfg.flows|, _ => 0.0);
      for f := 0 to |cfg.flows|
        invariant |weights| == |cfg.flows|
        invariant forall i :: 0 <= i < f ==> weights[i] == if i == exclude then 0.0 else cfg.Weights()[i]
        invariant forall i :: f <= i < |weights| ==> weights[i] == 0.0
      {
        if f == exclude {
          continue;
        }
        weights := weights[f := TrafficWeight(cfg.flows[f].name)];
      }
      assert weights == if exclude >= 0 then WeightedPick.Excluding(cfg.Weights(), exclude) else cfg.Weights();
      flow := WeightedPick.PickIndex(weights, u);
    }

    /** The first loop of ChangeProfile. */
    method DeactivateAll()
      requires Sized(cfg, View())
      modifies this, simulator
      ensures View() == Deactivate(cfg, old(View()), |cfg.flows|)
    {
      for f := 0 to |cfg.flows|
        invariant Sized(cfg, old(View()))
        invariant View() == Deactivate(cfg, old(View()), f)
      {
        isActive := isActive[f := false];
        if simulator.state.IsPending(sendEvents[f]) {
          simulator.Cancel(sendEvents[f]);
        }
      }
    }

    /** The choices of ChangeProfile. */
    method ActivateChosen(d: Draws)
      requires cfg.Valid() && Sized(cfg, View())
      modifies this, simulator
      ensures View() == BothActive(cfg, old(View()), d)
    {
      DeactivateAll();
      var useTwoFlows := |cfg.flows| > 1 && d.two < cfg.probabilityTwo;
      var primary := PickFlow(-1, d.first);
      ActivateFlow(primary, d.reply1);
      assert View() == FirstActive(cfg, old(View()), d);
      if useTwoFlows {
        var secondary := PickFlow(primary, d.second);
        ActivateFlow(secondary, d.reply2);
      }
    }

    /** ChangeProfile. */
    method ChangeProfileNow(d: Draws)
      requires cfg.Valid() && Sized(cfg, View())
      modifies this, simulator
      ensures View() == Profile(cfg, old(View()), d)
    {
      ActivateChosen(d);
      profileEvent := simulator.Schedule(d.durationMs / 1000.0, ChangeProfile);
    }

    method ActivateFlow(f: nat, reply: Reply)
      requires cfg.Valid() && Sized(cfg, View()) && f < |cfg.flows|
      modifies this, simulator
      ensures View() == Activate(cfg, old(View()), f, reply)
    {
      isActive := isActive[f := true];
      log := log.(activations := log.activations[f := log.activations[f] + 1]);
      SendPacketNow(f, reply);
    }

    method ScheduleNextPacket(f: nat)
      requires cfg.Valid() && Sized(cfg, View()) && f < |cfg.flows|
      modifies this, simulator
      ensures View() == ScheduleNext(cfg, old(View()), f)
      ensures Sized(cfg, View()) && TimerSet(cfg, View(), f)
    {
      ScheduleNextSets(cfg, View(), f);
      var intervalSeconds := cfg.Interval(f);
      var id := simulator.Schedule(intervalSeconds, SendPacket(f));
      sendEvents := sendEvents[f := id];
    }

    /** SendPacket. */
    method SendPacketNow(f: nat, reply: Reply)
      requires cfg.Valid() && Sized(cfg, View()) && f < |cfg.flows|
      modifies this, simulator
      ensures View() == Send(cfg, old(View()), f, reply)
    {
      if !isActive[f] || !sockets[f] {
        return;
      }
      if cfg.maxBytes > 0 && sentBytes[f] >= cfg.maxBytes {
        return;
      }
      var bytesToSend := cfg.packetSize;
      if cfg.maxBytes > 0 && cfg.maxBytes - sentBytes[f] < bytesToSend {
        bytesToSend := cfg.maxBytes - sentBytes[f];
      }
      if bytesToSend == 0 {
        return;
      }
      var sent := reply(bytesToSend);
      if sent > 0 {
        sentBytes := sentBytes[f := sentBytes[f] + sent];
      }
      log := log.(attempts := log.attempts[f := log.attempts[f] + 1],
                  lastAttempt := log.lastAttempt[f := simulator.state.now]);
      assert View() == Transmit(cfg, old(View()), f, reply);
      ScheduleNextPacket(f);
    }
  }
}
