/** DynamicTrafficClientApp of scratch/uhr-mld-mixed-pedca.cc as a state machine
    over values: what each handler does to the simulator and to the application,
    and the runs of the two together.  Random draws, socket replies and foreign
    events are inputs; doubles and times are exact reals. */
module TrafficModel {
  import opened EventSimulator
  import WeightedPick

  // ---------------------------------------------------------- configuration

  datatype Flow = Flow(name: string, rateMbps: real)

  function TrafficWeight(name: string): (w: real)
    ensures w > 0.0
  {
    if name == "BE" then 0.08
    else if name == "BK" then 0.02
    else if name == "VI" then 0.10
    else if name == "VO" then 0.80
    else 1.0
  }

  datatype Config = Config(flows: seq<Flow>, packetSize: nat, maxBytes: nat, probabilityTwo: real) {
    predicate Valid() {
      flows != [] && forall f :: 0 <= f < |flows| ==> flows[f].rateMbps > 0.0
    }

    function Weights(): seq<real> {
      seq(|flows|, f requires 0 <= f < |flows| => TrafficWeight(flows[f].name))
    }

    /** PickFlow(exclude); -1 excludes nothing. */
    function PickFlow(exclude: int, u: real): (r: nat)
      requires Valid() && -1 <= exclude < |flows|
      ensures r < |flows|
    {
      WeightedPick.Pick(if exclude >= 0 then WeightedPick.Excluding(Weights(), exclude) else Weights(), u)
    }

    /** Seconds between two packets of a flow. */
    function Interval(f: nat): real
      requires Valid() && f < |flows|
    {
      (packetSize * 8) as real / (flows[f].rateMbps * 1000000.0)
    }

    /** The bytes the next packet of a flow carries; 0 when the cap is reached. */
    function Offer(sent: nat): nat {
      if maxBytes > 0 && sent >= maxBytes then 0
      else if maxBytes > 0 && maxBytes - sent < packetSize then maxBytes - sent
      else packetSize
    }
  }

  /** What a socket's Send returns for an offer of so many bytes. */
  type Reply = nat -> int

  /** The inputs of one handler: the draw that decides on two flows, the draws of
      the two picks, the profile duration, and the replies to up to two sends. */
  datatype Draws = Draws(two: real, first: real, second: real, durationMs: real, reply1: Reply, reply2: Reply)
  {
    ghost predicate Valid() {
      0.0 <= two <= 1.0 && 0.0 <= first <= 1.0 && 0.0 <= second <= 1.0 && durationMs >= 0.0
    }
  }

  // ------------------------------------------------------------------ state

  /** The fields of the application, one entry per flow. */
  datatype App = App(active: seq<bool>, open: seq<bool>, sendEvents: seq<EventId>, sentBytes: seq<nat>,
                     profileEvent: EventId)

  /** What happened so far, per flow: calls of Send on the socket, activations,
      and the time of the last call of Send. */
  datatype Log = Log(start: real, attempts: seq<nat>, activations: seq<nat>, lastAttempt: seq<real>)

  datatype Phase = Idle | Running | Stopped

  datatype World = World(sim: Sim, app: App, log: Log, phase: Phase)

  ghost predicate Sized(cfg: Config, w: World) {
    && |w.app.active| == |w.app.open| == |w.app.sendEvents| == |w.app.sentBytes| == |cfg.flows|
    && |w.log.attempts| == |w.log.activations| == |w.log.lastAttempt| == |cfg.flows|
  }

  // --------------------------------------------------------------- handlers

  /** ScheduleNextPacket. */
  function ScheduleNext(cfg: Config, w: World, f: nat): World
    requires cfg.Valid() && Sized(cfg, w) && f < |cfg.flows|
  {
    var (sim, id) := w.sim.Schedule(cfg.Interval(f), SendPacket(f));
    w.(sim := sim, app := w.app.(sendEvents := w.app.sendEvents[f := id]))
  }

  /** A flow's bytes after its socket replied to the offer of the next packet. */
  function SentAfter(cfg: Config, sent: nat, reply: Reply): nat {
    var r := reply(cfg.Offer(sent));
    if r > 0 then sent + r else sent
  }

  /** The part of SendPacket between the two early returns and the scheduling. */
  function Transmit(cfg: Config, w: World, f: nat, reply: Reply): World
    requires cfg.Valid() && Sized(cfg, w) && f < |cfg.flows|
  {
    w.(app := w.app.(sentBytes := w.app.sentBytes[f := SentAfter(cfg, w.app.sentBytes[f], reply)]),
       log := w.log.(attempts := w.log.attempts[f := w.log.attempts[f] + 1],
                     lastAttempt := w.log.lastAttempt[f := w.sim.now]))
  }

  /** SendPacket goes through to the socket. */
  predicate Sends(cfg: Config, w: World, f: nat)
    requires Sized(cfg, w) && f < |cfg.flows|
  {
    w.app.active[f] && w.app.open[f] && cfg.Offer(w.app.sentBytes[f]) > 0
  }

  /** SendPacket. */
  function Send(cfg: Config, w: World, f: nat, reply: Reply): (r: World)
    requires cfg.Valid() && Sized(cfg, w) && f < |cfg.flows|
    ensures Sized(cfg, r)
  {
    if Sends(cfg, w, f) then ScheduleNext(cfg, Transmit(cfg, w, f, reply), f) else w
  }

  function MarkActive(cfg: Config, w: World, f: nat): World
    requires Sized(cfg, w) && f < |cfg.flows|
  {
    w.(app := w.app.(active := w.app.active[f := true]),
       log := w.log.(activations := w.log.activations[f := w.log.activations[f] + 1]))
  }

  /** ActivateFlow. */
  function Activate(cfg: Config, w: World, f: nat, reply: Reply): (r: World)
    requires cfg.Valid() && Sized(cfg, w) && f < |cfg.flows|
    ensures Sized(cfg, r)
  {
    Send(cfg, MarkActive(cfg, w, f), f, reply)
  }

  /** The first loop of ChangeProfile, over the first k flows. */
  function Deactivate(cfg: Config, w: World, k: nat): (r: World)
    requires Sized(cfg, w) && k <= |cfg.flows|
    ensures Sized(cfg, r) && r.app.sendEvents == w.app.sendEvents
  {
    if k == 0 then w
    else
      var v := Deactivate(cfg, w, k - 1);
      v.(sim := v.sim.Cancel(v.app.sendEvents[k - 1]),
         app := v.app.(active := v.app.active[k - 1 := false]))
  }

  predicate UsesTwo(cfg: Config, d: Draws) {
    |cfg.flows| > 1 && d.two < cfg.probabilityTwo
  }

  function FirstActive(cfg: Config, w: World, d: Draws): (r: World)
    requires cfg.Valid() && Sized(cfg, w)
    ensures Sized(cfg, r)
  {
    Activate(cfg, Deactivate(cfg, w, |cfg.flows|), cfg.PickFlow(-1, d.first), d.reply1)
  }

  function BothActive(cfg: Config, w: World, d: Draws): (r: World)
    requires cfg.Valid() && Sized(cfg, w)
    ensures Sized(cfg, r)
  {
    var v := FirstActive(cfg, w, d);
    if UsesTwo(cfg, d)
    then Activate(cfg, v, cfg.PickFlow(cfg.PickFlow(-1, d.first), d.second), d.reply2)
    else v
  }

  /** The end of ChangeProfile: schedule the next one. */
  function ScheduleProfile(v: World, durationMs: real): World {
    var (sim, id) := v.sim.Schedule(durationMs / 1000.0, ChangeProfile);
    v.(sim := sim, app := v.app.(profileEvent := id))
  }

  /** ChangeProfile. */
  function Profile(cfg: Config, w: World, d: Draws): (r: World)
    requires cfg.Valid() && Sized(cfg, w)
    ensures Sized(cfg, r)
  {
    ScheduleProfile(BothActive(cfg, w, d), d.durationMs)
  }

  function All<T>(n: nat, x: T): (s: seq<T>)
    ensures |s| == n && forall i :: 0 <= i < n ==> s[i] == x
  {
    seq(n, _ => x)
  }

  /** StartApplication up to the call of ChangeProfile: fresh vectors, open sockets. */
  function Opened(cfg: Config, w: World): (r: World)
    ensures Sized(cfg, r)
  {
    var n := |cfg.flows|;
    World(w.sim, App(All(n, false), All(n, true), All(n, NoEvent), All(n, 0), w.app.profileEvent),
          Log(w.sim.now, All(n, 0), All(n, 0), All(n, w.sim.now)), Running)
  }

  function StartApp(cfg: Config, w: World, d: Draws): (r: World)
    requires cfg.Valid()
    ensures Sized(cfg, r)
  {
    Profile(cfg, Opened(cfg, w), d)
  }

  /** The loop of StopApplication over the first k flows. */
  function Close(cfg: Config, w: World, k: nat): (r: World)
    requires Sized(cfg, w) && k <= |cfg.flows|
    ensures Sized(cfg, r) && r.app.sendEvents == w.app.sendEvents
  {
    if k == 0 then w
    else
      var v := Close(cfg, w, k - 1);
      v.(sim := v.sim.Cancel(v.app.sendEvents[k - 1]),
         app := v.app.(open := v.app.open[k - 1 := false]))
  }

  /** StopApplication. */
  function StopApp(cfg: Config, w: World): (r: World)
    requires Sized(cfg, w)
    ensures Sized(cfg, r)
  {
    var v := w.(sim := w.sim.Cancel(w.app.profileEvent));
    Close(cfg, v, |cfg.flows|).(phase := Stopped)
  }

  // ------------------------------------------------------------------- runs

  datatype Input =
    | Start(d: Draws)
    | Stop
    | Tick(uid: nat, d: Draws)       // the simulator runs its next event
    | ForeignSchedule(delay: real)   // other code schedules an event of its own
    | ForeignCancel(id: EventId)     // other code cancels an event of its own

  /** The application is started once and stopped at most once, later. */
  ghost predicate CanStep(cfg: Config, w: World, i: Input) {
    match i
    case Start(d) => w.phase == Idle && d.Valid()
    case Stop => w.phase == Running
    case Tick(u, d) => w.sim.IsNext(u) && d.Valid()
    case ForeignSchedule(delay) => delay >= 0.0
    case ForeignCancel(id) => w.sim.Known(id) && (id.Event? && id.uid in w.sim.queue ==> w.sim.queue[id.uid].handler == Foreign)
  }

  /** The flows named by queued events exist, and handlers find their vectors. */
  ghost predicate Runnable(cfg: Config, w: World) {
    && (forall u :: u in w.sim.queue && w.sim.queue[u].handler.SendPacket? ==> w.sim.queue[u].handler.flow < |cfg.flows|)
    && (w.phase != Idle ==> Sized(cfg, w))
    && (w.phase == Idle ==> forall u :: w.sim.Live(u) ==> w.sim.queue[u].handler == Foreign)
  }

  function Step(cfg: Config, w: World, i: Input): World
    requires cfg.Valid() && Runnable(cfg, w) && CanStep(cfg, w, i)
  {
    match i
    case Start(d) => StartApp(cfg, w, d)
    case Stop => StopApp(cfg, w)
    case Tick(u, d) =>
      var v := w.(sim := w.sim.Pop(u));
      if w.sim.queue[u].cancelled then v
      else (
        match w.sim.queue[u].handler
        case Foreign => v
        case SendPacket(f) => Send(cfg, v, f, d.reply1)
        case ChangeProfile => Profile(cfg, v, d))
    case ForeignSchedule(delay) => w.(sim := w.sim.Schedule(delay, Foreign).0)
    case ForeignCancel(id) => w.(sim := w.sim.Cancel(id))
  }
}
