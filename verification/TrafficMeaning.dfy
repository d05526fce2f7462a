/** What the handlers of the traffic application do, in bits, bytes, seconds and
    draws: the numbers of the source instead of the functions of the model. */
module TrafficMeaning {
  import opened EventSimulator
  import opened TrafficModel
  import opened TrafficInvariant
  import WeightedPick

  // ------------------------------------------------------------------ packets

  lemma QuotientTimes(a: real, b: real)
    requires b > 0.0
    ensures a / b * b == a
  {
  }

  /** A packet interval at the flow's rate carries the bits of one packet. */
  lemma IntervalCarriesPacket(cfg: Config, f: nat)
    requires cfg.Valid() && f < |cfg.flows|
    ensures cfg.Interval(f) * (cfg.flows[f].rateMbps * 1000000.0) == (cfg.packetSize * 8) as real
  {
    QuotientTimes((cfg.packetSize * 8) as real, cfg.flows[f].rateMbps * 1000000.0);
  }

  /** The timer of a flow: stored, live, and due when the rate has carried one packet. */
  ghost predicate TimerSet(cfg: Config, w: World, f: nat)
    requires Sized(cfg, w) && f < |cfg.flows|
  {
    var id := w.app.sendEvents[f];
    && id.Event? && id.uid in w.sim.queue && w.sim.queue[id.uid] == Entry(id.ts, SendPacket(f), false)
    && (id.ts - w.sim.now) * (cfg.flows[f].rateMbps * 1000000.0) == (cfg.packetSize * 8) as real
  }

  lemma ScheduleNextSets(cfg: Config, w: World, f: nat)
    requires cfg.Valid() && Sized(cfg, w) && f < |cfg.flows|
    ensures Sized(cfg, ScheduleNext(cfg, w, f)) && TimerSet(cfg, ScheduleNext(cfg, w, f), f)
  {
    IntervalCarriesPacket(cfg, f);
    var v := ScheduleNext(cfg, w, f);
    assert v.app.sendEvents[f].ts - v.sim.now == cfg.Interval(f);
  }

  /** There is something to send for the flow, and somebody to take it. */
  predicate MaySend(cfg: Config, w: World, f: nat)
    requires Sized(cfg, w) && f < |cfg.flows|
  {
    w.app.active[f] && w.app.open[f] && cfg.packetSize > 0 && (cfg.maxBytes == 0 || w.app.sentBytes[f] < cfg.maxBytes)
  }

  /** The bytes of the next packet: a whole packet, or what the cap leaves. */
  function PacketBytes(cfg: Config, sent: nat): nat
    requires cfg.maxBytes == 0 || sent <= cfg.maxBytes
  {
    if cfg.maxBytes == 0 || cfg.maxBytes - sent >= cfg.packetSize then cfg.packetSize else cfg.maxBytes - sent
  }

  /** SendPacket sends exactly when it may: one packet of those bytes, of which it
      counts what the socket took, and then the next timer is set.  Otherwise it
      does nothing, and other flows are not touched in any case. */
  lemma SendEffect(cfg: Config, w: World, f: nat, reply: Reply)
    requires cfg.Valid() && Sized(cfg, w) && f < |cfg.flows|
    ensures var v := Send(cfg, w, f, reply);
      && (!MaySend(cfg, w, f) ==> v == w)
      && (MaySend(cfg, w, f) ==>
            var taken := reply(PacketBytes(cfg, w.app.sentBytes[f]));
            && v.app.sentBytes == w.app.sentBytes[f := w.app.sentBytes[f] + (if taken > 0 then taken else 0)]
            && v.log.attempts == w.log.attempts[f := w.log.attempts[f] + 1]
            && v.sim.now == w.sim.now && TimerSet(cfg, v, f)
            && v.app.active == w.app.active && v.app.open == w.app.open
            && forall g :: 0 <= g < |cfg.flows| && g != f ==> v.app.sendEvents[g] == w.app.sendEvents[g])
  {
    if MaySend(cfg, w, f) {
      ScheduleNextSets(cfg, Transmit(cfg, w, f, reply), f);
    }
  }

  // ----------------------------------------------------------------- profiles

  lemma SendKeepsActive(cfg: Config, w: World, f: nat, reply: Reply)
    requires cfg.Valid() && Sized(cfg, w) && f < |cfg.flows|
    ensures Send(cfg, w, f, reply).app.active == w.app.active && Send(cfg, w, f, reply).sim.now == w.sim.now
  {
  }

  /** After a profile change exactly the chosen flows are active: the first choice,
      and the second if there are two flows to choose from and the draw is below the
      probability of two.  The next change is due after the drawn duration. */
  lemma {:induction false} ProfileEffect(cfg: Config, w: World, d: Draws)
    requires cfg.Valid() && Steady(cfg, w)
    ensures var v := Profile(cfg, w, d);
      var primary := cfg.PickFlow(-1, d.first);
      && (forall f :: 0 <= f < |cfg.flows| ==>
            (v.app.active[f] <==>
               f == primary ||
               (|cfg.flows| >= 2 && d.two < cfg.probabilityTwo && f == cfg.PickFlow(primary, d.second))))
      && v.app.profileEvent.Event? && v.app.profileEvent.uid in v.sim.queue
      && v.sim.queue[v.app.profileEvent.uid] == Entry(v.app.profileEvent.ts, ChangeProfile, false)
      && v.sim.now == w.sim.now && (v.app.profileEvent.ts - w.sim.now) * 1000.0 == d.durationMs
  {
    var n, p := |cfg.flows|, cfg.PickFlow(-1, d.first);
    var v0, v1, b := Deactivate(cfg, w, n), FirstActive(cfg, w, d), BothActive(cfg, w, d);
    DeactivateSteady(cfg, w, n);
    SendKeepsActive(cfg, MarkActive(cfg, v0, p), p, d.reply1);
    if UsesTwo(cfg, d) {
      var q := cfg.PickFlow(p, d.second);
      SendKeepsActive(cfg, MarkActive(cfg, v1, q), q, d.reply2);
    }
    QuotientTimes(d.durationMs, 1000.0);
    assert b.sim.now == w.sim.now;
  }

  /** The four access categories as the program lists them. */
  ghost predicate FourCategories(cfg: Config) {
    |cfg.flows| == 4 && cfg.flows[0].name == "BK" && cfg.flows[1].name == "BE" &&
    cfg.flows[2].name == "VI" && cfg.flows[3].name == "VO"
  }

  lemma {:induction false} FourSums(a: real, b: real, c: real, d: real)
    ensures var ws := [a, b, c, d];
      WeightedPick.Prefix(ws, 1) == a && WeightedPick.Prefix(ws, 2) == a + b &&
      WeightedPick.Prefix(ws, 3) == a + b + c && WeightedPick.Total(ws) == a + b + c + d
  {
    var ws := [a, b, c, d];
    assert WeightedPick.Prefix(ws, 0) == 0.0;
    assert WeightedPick.Prefix(ws, 1) == WeightedPick.Prefix(ws, 0) + ws[0];
    assert WeightedPick.Prefix(ws, 2) == WeightedPick.Prefix(ws, 1) + ws[1];
    assert WeightedPick.Prefix(ws, 3) == WeightedPick.Prefix(ws, 2) + ws[2];
    assert WeightedPick.Prefix(ws, 4) == WeightedPick.Prefix(ws, 3) + ws[3];
  }

  /** The first choice among the four: background on 2 draws of 100, best effort on
      8, video on 10, voice on the other 80. */
  lemma {:induction false} FirstChoice(cfg: Config, u: real)
    requires cfg.Valid() && FourCategories(cfg) && 0.0 <= u <= 1.0
    ensures cfg.PickFlow(-1, u) == if u <= 0.02 then 0 else if u <= 0.10 then 1 else if u <= 0.20 then 2 else 3
  {
    var ws := [0.02, 0.08, 0.10, 0.80];
    assert cfg.Weights() == ws;
    FourSums(0.02, 0.08, 0.10, 0.80);
    assert WeightedPick.Sample(u, WeightedPick.Total(ws)) == u;
    assert WeightedPick.Scan(ws, u, 0) == if u <= 0.02 then 0 else WeightedPick.Scan(ws, u, 1);
    assert WeightedPick.Scan(ws, u, 1) == if u <= 0.10 then 1 else WeightedPick.Scan(ws, u, 2);
    assert WeightedPick.Scan(ws, u, 2) == if u <= 0.20 then 2 else WeightedPick.Scan(ws, u, 3);
    assert WeightedPick.Scan(ws, u, 3) == 3;
  }

  /** The simpler program's four categories: 40, 10, 35 and 15 draws of 100. */
  lemma {:induction false} CategoryChoice(u: real)
    requires 0.0 <= u <= 1.0
    ensures WeightedPick.PickAccessCategory(-1, u) ==
            if u <= 0.40 then 0 else if u <= 0.50 then 1 else if u <= 0.85 then 2 else 3
  {
    var ws := [0.40, 0.10, 0.35, 0.15];
    FourSums(0.40, 0.10, 0.35, 0.15);
    assert WeightedPick.Sample(u, WeightedPick.Total(ws)) == u;
    assert WeightedPick.Scan(ws, u, 0) == if u <= 0.40 then 0 else WeightedPick.Scan(ws, u, 1);
    assert WeightedPick.Scan(ws, u, 1) == if u <= 0.50 then 1 else WeightedPick.Scan(ws, u, 2);
    assert WeightedPick.Scan(ws, u, 2) == if u <= 0.85 then 2 else WeightedPick.Scan(ws, u, 3);
    assert WeightedPick.Scan(ws, u, 3) == 3;
  }
}
