/**
 Serving and shutting down as a step system: one accept loop, the slot semaphore, the
 proxy gate, three tokens and any number of connection tasks
 (crates/sni_router/src/delivery/server.rs, gate.rs, connection.rs, proxy.rs).

 A poll of a cancellable stage is two steps: its token is checked, then its future is
 polled. Another task may act in between, so a stage may still complete just after the
 token fired; the next check then sees it.
 */
module Shutdown {
  import opened Wrappers
  import opened Gate

  datatype ConnectionOutcome =
    | Proxied | ProxyError | ClientClosed | HelloTimeout | InvalidHello | MissingSni | UnknownHost
    | LookupFailed | LookupTimeout | UpstreamConnectFailed | UpstreamTimeout | IdleTimeout
    | ShutdownCancelled | ShutdownForced | Aborted

  /** Where a connection's task is. `polling` says that its token was just seen not cancelled. */
  datatype Stage =
    | Spawned
    | Hello(polling: bool)
    | Lookup(polling: bool)
    | Upstream(polling: bool)
    | Alert(polling: bool, pending: ConnectionOutcome)
    | AtGate
    | Proxying(polling: bool)
    | DroppingPass(outcome: ConnectionOutcome)
    | Recording(outcome: ConnectionOutcome)
    | Unslotting(outcome: ConnectionOutcome)
    | Gone(outcome: ConnectionOutcome)

  datatype Milestone = AtHello | AtLookup | AtUpstream | AtAlert | AtTheGate | AtProxy

  /**
   `wasOpened` and `closes` are the metric events recorded for the connection. `visited`
   records the stages it has been in; no step looks at it.
   */
  datatype Connection = Connection(
    stage: Stage, wasOpened: bool, closes: seq<ConnectionOutcome>, visited: seq<Milestone>)

  const ACCEPTED := Connection(Spawned, false, [], [])

  datatype StageResult = Advance | Reject | Fail(outcome: ConnectionOutcome)

  datatype Move =
    | Open
    | Check
    | Pending
    | Ready(result: StageResult)
    | EnterGate
    | DropPass
    | Record
    | Release
    | Abort

  datatype AcceptStage = WantSlot(polling: bool) | Accepting(polling: bool) | Backoff | Stopped

  datatype AcceptMove = CheckShutdown | NotReady | TakeSlot | Accept | AcceptFails | Retry | Panic

  datatype ServePhase = Serving | Draining | Forcing | Returned

  datatype Config = Config(maxConnections: nat, shutdownGrace: nat)

  datatype System = System(
    now: nat,
    shutdown: bool,
    accept: AcceptStage,
    freeSlots: int,
    gate: GateState,
    closedAt: nat,
    force: bool,
    serve: ServePhase,
    connections: seq<Connection>)

  datatype Event =
    | Tick
    | ShutDown
    | AcceptStep(acceptMove: AcceptMove)
    | CloseGate
    | ForceRemaining
    | Return
    | ConnectionStep(id: nat, move: Move)

  function Initial(config: Config): System {
    System(0, false, WantSlot(false), config.maxConnections, OPEN_GATE, 0, false, Serving, [])
  }

  // ----- One connection -------------------------------------------------------------

  predicate IsHandshake(stage: Stage) {
    stage.Hello? || stage.Lookup? || stage.Upstream? || stage.Alert?
  }

  predicate CanFail(stage: Stage, outcome: ConnectionOutcome) {
    match stage
    case Hello(_) => outcome in {HelloTimeout, InvalidHello, ClientClosed}
    case Lookup(_) => outcome in {LookupFailed, LookupTimeout}
    case Upstream(_) => outcome in {UpstreamConnectFailed, UpstreamTimeout}
    case Proxying(_) => outcome in {Proxied, ProxyError, IdleTimeout}
    case _ => false
  }

  predicate HasPolling(stage: Stage) {
    IsHandshake(stage) || stage.Proxying?
  }

  predicate MoveEnabled(stage: Stage, move: Move) {
    match move
    case Open => stage.Spawned?
    case Check => HasPolling(stage) && !stage.polling
    case Pending => HasPolling(stage) && stage.polling
    case Ready(result) =>
      && HasPolling(stage) && stage.polling
      && (match result
          case Advance => IsHandshake(stage)
          case Reject => stage.Hello? || stage.Lookup?
          case Fail(outcome) => CanFail(stage, outcome))
    case EnterGate => stage.AtGate?
    case DropPass => stage.DroppingPass?
    case Record => stage.Recording?
    case Release => stage.Unslotting?
    case Abort => stage.Spawned? || HasPolling(stage) || stage.AtGate?
  }

  /** A token check at a stage boundary or a re-poll. */
  function Checked(stage: Stage, closed: bool, force: bool): Stage
    requires HasPolling(stage)
  {
    if stage.Proxying? then
      if force then DroppingPass(ShutdownForced) else Proxying(true)
    else if !closed then stage.(polling := true)
    else if stage.Alert? then Recording(stage.pending)
    else Recording(ShutdownCancelled)
  }

  function Completed(stage: Stage, result: StageResult): Stage
    requires MoveEnabled(stage, Ready(result))
  {
    match result
    case Fail(outcome) => if stage.Proxying? then DroppingPass(outcome) else Recording(outcome)
    case Reject => Alert(false, if stage.Hello? then MissingSni else UnknownHost)
    case Advance =>
      match stage
      case Hello(_) => Lookup(false)
      case Lookup(_) => Upstream(false)
      case Upstream(_) => AtGate
      case Alert(_, pending) => Recording(pending)
      case other => other
  }

  /** A connection is dropped or panics: what it holds is released in the same order. */
  function Unwound(stage: Stage): Stage {
    if stage.Proxying? then DroppingPass(Aborted)
    else if stage.Spawned? then Unslotting(Aborted)
    else Recording(Aborted)
  }

  function NextStage(stage: Stage, move: Move, gate: GateState, force: bool): Stage
    requires MoveEnabled(stage, move)
  {
    match move
    case Open => Hello(false)
    case Check => Checked(stage, gate.closed, force)
    case Pending => stage.(polling := false)
    case Ready(result) => Completed(stage, result)
    case EnterGate => if Enter(gate).1 then Proxying(false) else Recording(ShutdownCancelled)
    case DropPass => Recording(stage.outcome)
    case Record => Unslotting(stage.outcome)
    case Release => Gone(stage.outcome)
    case Abort => Unwound(stage)
  }

  function MilestoneOf(stage: Stage): Option<Milestone> {
    match stage
    case Hello(_) => Some(AtHello)
    case Lookup(_) => Some(AtLookup)
    case Upstream(_) => Some(AtUpstream)
    case Alert(_, _) => Some(AtAlert)
    case AtGate => Some(AtTheGate)
    case Proxying(_) => Some(AtProxy)
    case _ => None
  }

  /** The stages visited when a move leads from one stage to another, or leaves it where it is. */
  function Visited(visited: seq<Milestone>, from: Stage, to: Stage): seq<Milestone> {
    if MilestoneOf(to).Some? && MilestoneOf(to) != MilestoneOf(from) then visited + [MilestoneOf(to).value] else visited
  }

  function MoveConnection(s: System, id: nat, move: Move): System
    requires id < |s.connections| && MoveEnabled(s.connections[id].stage, move)
  {
    var connection := s.connections[id];
    var stage := NextStage(connection.stage, move, s.gate, s.force);
    var moved := connection.(
      stage := stage,
      wasOpened := connection.wasOpened || move.Open?,
      visited := Visited(connection.visited, connection.stage, stage),
      closes := if move.Record? then connection.closes + [connection.stage.outcome] else connection.closes);
    s.(connections := s.connections[id := moved],
       gate := (match move
                case EnterGate => Enter(s.gate).0
                case DropPass => Leave(s.gate)
                case _ => s.gate),
       freeSlots := if move.Release? then s.freeSlots + 1 else s.freeSlots)
  }

  // ----- The accept loop --------------------------------------------------------------

  predicate AcceptEnabled(s: System, move: AcceptMove) {
    match move
    case CheckShutdown => s.accept == WantSlot(false) || s.accept == Accepting(false) || (s.accept.Backoff? && s.shutdown)
    case NotReady => s.accept == WantSlot(true) || s.accept == Accepting(true)
    case TakeSlot => s.accept == WantSlot(true) && s.freeSlots > 0
    case Accept => s.accept == Accepting(true)
    case AcceptFails => s.accept == Accepting(true)
    case Retry => s.accept.Backoff?
    case Panic => !s.accept.Stopped?
  }

  /** Leaving the loop returns a slot it holds. */
  function StopAccepting(s: System): System {
    s.(accept := Stopped, freeSlots := if s.accept.Accepting? then s.freeSlots + 1 else s.freeSlots)
  }

  function MoveAccept(s: System, move: AcceptMove): System
    requires AcceptEnabled(s, move)
  {
    match move
    case CheckShutdown => if s.shutdown then StopAccepting(s) else s.(accept := s.accept.(polling := true))
    case NotReady => s.(accept := s.accept.(polling := false))
    case TakeSlot => s.(accept := Accepting(false), freeSlots := s.freeSlots - 1)
    case Accept => s.(accept := WantSlot(false), connections := s.connections + [ACCEPTED])
    case AcceptFails => s.(accept := Backoff, freeSlots := s.freeSlots + 1)
    case Retry => s.(accept := WantSlot(false))
    case Panic => StopAccepting(s)
  }

  // ----- Steps ------------------------------------------------------------------------

  predicate AllGone(connections: seq<Connection>) {
    forall i :: 0 <= i < |connections| ==> connections[i].stage.Gone?
  }

  predicate Enabled(s: System, e: Event, config: Config) {
    match e
    case Tick => true
    case ShutDown => !s.shutdown
    case AcceptStep(move) => AcceptEnabled(s, move)
    case CloseGate => s.serve.Serving? && s.shutdown && s.accept.Stopped?
    case ForceRemaining => s.serve.Draining? && s.now >= s.closedAt + config.shutdownGrace
    case Return => (s.serve.Draining? || s.serve.Forcing?) && AllGone(s.connections)
    case ConnectionStep(id, move) => id < |s.connections| && MoveEnabled(s.connections[id].stage, move)
  }

  function Apply(s: System, e: Event, config: Config): System
    requires Enabled(s, e, config)
  {
    match e
    case Tick => s.(now := s.now + 1)
    case ShutDown => s.(shutdown := true)
    case AcceptStep(move) => MoveAccept(s, move)
    case CloseGate => s.(gate := Close(s.gate), closedAt := s.now, serve := Draining)
    case ForceRemaining => s.(force := true, serve := Forcing)
    case Return => s.(serve := Returned)
    case ConnectionStep(id, move) => MoveConnection(s, id, move)
  }

  /** `s` leads to `t` by these events. */
  ghost predicate Leads(s: System, events: seq<Event>, t: System, config: Config)
    decreases |events|
  {
    if events == [] then t == s
    else Enabled(s, events[0], config) && Leads(Apply(s, events[0], config), events[1..], t, config)
  }

  // ----- Counting -----------------------------------------------------------------------

  function Total(weights: seq<nat>): nat {
    if weights == [] then 0 else weights[0] + Total(weights[1..])
  }

  function HoldsSlot(stage: Stage): nat {
    if stage.Gone? then 0 else 1
  }

  function HoldsPass(stage: Stage): nat {
    if stage.Proxying? || stage.DroppingPass? then 1 else 0
  }

  function SlotsHeld(connections: seq<Connection>): nat {
    Total(seq(|connections|, i requires 0 <= i < |connections| => HoldsSlot(connections[i].stage)))
  }

  function PassesHeld(connections: seq<Connection>): nat {
    Total(seq(|connections|, i requires 0 <= i < |connections| => HoldsPass(connections[i].stage)))
  }

  lemma {:induction false} TotalUpdate(weights: seq<nat>, id: nat, weight: nat)
    requires id < |weights|
    ensures Total(weights[id := weight]) == Total(weights) - weights[id] + weight
  {
    var updated := weights[id := weight];
    if id == 0 {
      assert updated[1..] == weights[1..];
    } else {
      TotalUpdate(weights[1..], id - 1, weight);
      assert updated[1..] == weights[1..][id - 1 := weight];
    }
  }

  lemma {:induction false} TotalAppend(weights: seq<nat>, weight: nat)
    ensures Total(weights + [weight]) == Total(weights) + weight
  {
    if weights == [] {
      assert (weights + [weight])[1..] == [];
    } else {
      TotalAppend(weights[1..], weight);
      assert (weights + [weight])[1..] == weights[1..] + [weight];
    }
  }

  lemma CountsUpdate(connections: seq<Connection>, id: nat, moved: Connection)
    requires id < |connections|
    ensures SlotsHeld(connections[id := moved])
            == SlotsHeld(connections) - HoldsSlot(connections[id].stage) + HoldsSlot(moved.stage)
    ensures PassesHeld(connections[id := moved])
            == PassesHeld(connections) - HoldsPass(connections[id].stage) + HoldsPass(moved.stage)
  {
    var slots := seq(|connections|, i requires 0 <= i < |connections| => HoldsSlot(connections[i].stage));
    var passes := seq(|connections|, i requires 0 <= i < |connections| => HoldsPass(connections[i].stage));
    var updated := connections[id := moved];
    TotalUpdate(slots, id, HoldsSlot(moved.stage));
    TotalUpdate(passes, id, HoldsPass(moved.stage));
    assert seq(|updated|, i requires 0 <= i < |updated| => HoldsSlot(updated[i].stage))
           == slots[id := HoldsSlot(moved.stage)];
    assert seq(|updated|, i requires 0 <= i < |updated| => HoldsPass(updated[i].stage))
           == passes[id := HoldsPass(moved.stage)];
  }

  lemma CountsAppend(connections: seq<Connection>, added: Connection)
    ensures SlotsHeld(connections + [added]) == SlotsHeld(connections) + HoldsSlot(added.stage)
    ensures PassesHeld(connections + [added]) == PassesHeld(connections) + HoldsPass(added.stage)
  {
    var slots := seq(|connections|, i requires 0 <= i < |connections| => HoldsSlot(connections[i].stage));
    var passes := seq(|connections|, i requires 0 <= i < |connections| => HoldsPass(connections[i].stage));
    var all := connections + [added];
    TotalAppend(slots, HoldsSlot(added.stage));
    TotalAppend(passes, HoldsPass(added.stage));
    assert seq(|all|, i requires 0 <= i < |all| => HoldsSlot(all[i].stage)) == slots + [HoldsSlot(added.stage)];
    assert seq(|all|, i requires 0 <= i < |all| => HoldsPass(all[i].stage)) == passes + [HoldsPass(added.stage)];
  }

  // ----- What holds in every reachable state ----------------------------------------------

  /** An outcome a task has already decided on. */
  function Decided(stage: Stage): Option<ConnectionOutcome> {
    match stage
    case Alert(_, pending) => Some(pending)
    case DroppingPass(outcome) => Some(outcome)
    case Recording(outcome) => Some(outcome)
    case Unslotting(outcome) => Some(outcome)
    case Gone(outcome) => Some(outcome)
    case _ => None
  }

  /** How a connection can end once it is proxying. */
  predicate IsProxyEnd(outcome: ConnectionOutcome) {
    outcome in {Proxied, ProxyError, IdleTimeout, ShutdownForced}
  }

  /** The books of one connection: opened once running, one close once recorded, blame only where due. */
  ghost predicate BooksOk(connection: Connection, closed: bool, force: bool) {
    var stage := connection.stage;
    && (stage.Spawned? ==> !connection.wasOpened)
    && (!connection.wasOpened ==> stage.Spawned? || stage.Unslotting? || stage.Gone?)
    && connection.closes == (if (stage.Unslotting? || stage.Gone?) && connection.wasOpened then [stage.outcome] else [])
    && (!connection.wasOpened && (stage.Unslotting? || stage.Gone?) ==> stage.outcome == Aborted)
    && (Decided(stage) == Some(ShutdownCancelled) ==> closed)
    && (Decided(stage) == Some(ShutdownForced) ==> force)
    && (stage.Alert? ==> stage.pending in {MissingSni, UnknownHost})
    && (stage.DroppingPass? ==> IsProxyEnd(stage.outcome) || stage.outcome == Aborted)
  }

  ghost predicate Inv(s: System, config: Config) {
    && s.freeSlots + (if s.accept.Accepting? then 1 else 0) + SlotsHeld(s.connections) == config.maxConnections
    && s.freeSlots >= 0
    && s.gate.proxying == PassesHeld(s.connections)
    && (s.gate.closed <==> !s.serve.Serving?)
    && (s.gate.closed ==> s.shutdown && s.accept.Stopped?)
    && (s.serve.Forcing? ==> s.force) && (s.force ==> s.serve.Forcing? || s.serve.Returned?)
    && (s.force ==> s.now >= s.closedAt + config.shutdownGrace)
    && (s.serve.Returned? ==> AllGone(s.connections))
    && forall i :: 0 <= i < |s.connections| ==> BooksOk(s.connections[i], s.gate.closed, s.force)
  }

  lemma MoveKeepsBooks(s: System, id: nat, move: Move)
    requires id < |s.connections| && MoveEnabled(s.connections[id].stage, move)
    requires BooksOk(s.connections[id], s.gate.closed, s.force)
    ensures BooksOk(MoveConnection(s, id, move).connections[id], s.gate.closed, s.force)
  {
  }

  lemma ConnectionStepKeeps(s: System, id: nat, move: Move, config: Config)
    requires Inv(s, config) && Enabled(s, ConnectionStep(id, move), config)
    ensures Inv(MoveConnection(s, id, move), config)
  {
    hide BooksOk, SlotsHeld, PassesHeld;
    var after := MoveConnection(s, id, move);
    MoveKeepsBooks(s, id, move);
    CountsUpdate(s.connections, id, after.connections[id]);
  }

  lemma AcceptStepKeeps(s: System, move: AcceptMove, config: Config)
    requires Inv(s, config) && AcceptEnabled(s, move)
    ensures Inv(MoveAccept(s, move), config)
  {
    CountsAppend(s.connections, ACCEPTED);
  }

  lemma StepKeeps(s: System, e: Event, config: Config)
    requires Inv(s, config) && Enabled(s, e, config)
    ensures Inv(Apply(s, e, config), config)
  {
    match e {
      case ConnectionStep(id, move) => ConnectionStepKeeps(s, id, move, config);
      case AcceptStep(move) => AcceptStepKeeps(s, move, config);
      case _ =>
    }
  }

  lemma InitialOk(config: Config)
    ensures Inv(Initial(config), config)
  {
  }

  /** Every state reachable from a good one is good; the initial one is. */
  lemma {:induction false} RunsKeep(s: System, events: seq<Event>, t: System, config: Config)
    requires Inv(s, config) && Leads(s, events, t, config)
    ensures Inv(t, config)
    decreases |events|
  {
    hide Inv, Enabled, Apply;
    if events != [] {
      StepKeeps(s, events[0], config);
      RunsKeep(Apply(s, events[0], config), events[1..], t, config);
    }
  }

  /**
   Safety in every reachable state: slots are conserved, the gate counts exactly the
   live passes, cancellation is reported only after the gate closed and force only after
   the grace period, and nothing accepts once the gate is closed.
   */
  lemma ShutdownIsSafe(events: seq<Event>, t: System, config: Config)
    requires Leads(Initial(config), events, t, config)
    ensures t.freeSlots >= 0
    ensures t.freeSlots + (if t.accept.Accepting? then 1 else 0) + SlotsHeld(t.connections) == config.maxConnections
    ensures t.gate.proxying == PassesHeld(t.connections)
    ensures t.gate.closed ==> t.shutdown && t.accept.Stopped?
    ensures forall i :: 0 <= i < |t.connections| ==>
              && (ShutdownCancelled in t.connections[i].closes ==> t.gate.closed)
              && (ShutdownForced in t.connections[i].closes ==>
                    t.gate.closed && t.now >= t.closedAt + config.shutdownGrace)
  {
    InitialOk(config);
    RunsKeep(Initial(config), events, t, config);
    forall i | 0 <= i < |t.connections|
      ensures && (ShutdownCancelled in t.connections[i].closes ==> t.gate.closed)
              && (ShutdownForced in t.connections[i].closes ==>
                    t.gate.closed && t.now >= t.closedAt + config.shutdownGrace)
    {
      assert BooksOk(t.connections[i], t.gate.closed, t.force);
    }
  }

  /** When `serve` returns, no task is left, and every opened connection recorded exactly one close. */
  lemma BooksAreClosed(events: seq<Event>, t: System, config: Config)
    requires Leads(Initial(config), events, t, config) && t.serve.Returned?
    ensures t.freeSlots == config.maxConnections && t.gate.proxying == 0
    ensures forall i :: 0 <= i < |t.connections| ==>
              && t.connections[i].stage.Gone?
              && |t.connections[i].closes| == (if t.connections[i].wasOpened then 1 else 0)
  {
    InitialOk(config);
    RunsKeep(Initial(config), events, t, config);
    NoneHeld(t.connections);
    forall i | 0 <= i < |t.connections|
      ensures |t.connections[i].closes| == (if t.connections[i].wasOpened then 1 else 0)
    {
      assert BooksOk(t.connections[i], t.gate.closed, t.force);
    }
  }

  lemma {:induction false} AllZero(weights: seq<nat>)
    requires forall i :: 0 <= i < |weights| ==> weights[i] == 0
    ensures Total(weights) == 0
  {
    if weights != [] {
      AllZero(weights[1..]);
    }
  }

  lemma NoneHeld(connections: seq<Connection>)
    requires AllGone(connections)
    ensures SlotsHeld(connections) == 0 && PassesHeld(connections) == 0
  {
    AllZero(seq(|connections|, i requires 0 <= i < |connections| => HoldsSlot(connections[i].stage)));
    AllZero(seq(|connections|, i requires 0 <= i < |connections| => HoldsPass(connections[i].stage)));
  }
}
