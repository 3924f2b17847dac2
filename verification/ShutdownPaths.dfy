/**
 Which way a connection comes to each of its outcomes, and what the gate and the tokens
 decide (crates/sni_router/src/delivery/connection.rs, gate.rs).
 */
module ShutdownPaths {
  import opened Wrappers
  import opened Gate
  import opened Shutdown
  import opened ShutdownTheorems

  // ----- What decides -----------------------------------------------------------------

  /** The gate admits a connection and counts it exactly while it is open; otherwise that ends it as cancelled. */
  lemma GateDecides(s: System, id: nat, config: Config)
    requires id < |s.connections| && s.connections[id].stage.AtGate?
    ensures Enabled(s, ConnectionStep(id, EnterGate), config)
    ensures var t := Apply(s, ConnectionStep(id, EnterGate), config);
            && t == s.(connections := t.connections, gate := t.gate) && |t.connections| == |s.connections|
            && t.gate == s.gate.(proxying := s.gate.proxying + if s.gate.closed then 0 else 1)
            && t.connections[id].stage == if s.gate.closed then Recording(ShutdownCancelled) else Proxying(false)
  {
  }

  /**
   A check lets a stage be polled unless its token has fired: the gate's, or when proxying
   the force token. Then it ends as cancelled or forced; only an alert keeps its outcome.
   */
  lemma TokensDecide(s: System, id: nat, config: Config)
    requires id < |s.connections| && Enabled(s, ConnectionStep(id, Check), config)
    ensures var before := s.connections[id].stage;
            var after := Apply(s, ConnectionStep(id, Check), config).connections[id].stage;
            if before.Proxying? then after == if s.force then DroppingPass(ShutdownForced) else Proxying(true)
            else if s.gate.closed then
              after == Recording(if before.Alert? then before.pending else ShutdownCancelled)
            else after == before.(polling := true)
  {
  }

  /** A task that fails, or is dropped or panics, ends with that as its outcome. */
  lemma FailuresDecide(s: System, id: nat, move: Move, config: Config)
    requires id < |s.connections| && Enabled(s, ConnectionStep(id, move), config)
    requires move.Abort? || (move.Ready? && move.result.Fail?)
    ensures Decided(Apply(s, ConnectionStep(id, move), config).connections[id].stage) ==
            Some(if move.Abort? then Aborted else move.result.outcome)
  {
  }

  // ----- Ways ---------------------------------------------------------------------------

  const WHOLE_WAY := [AtHello, AtLookup, AtUpstream, AtTheGate, AtProxy]

  /** The stages that lead to an outcome: for each of them one way only, unless it was cut short. */
  ghost predicate EndsWell(visited: seq<Milestone>, outcome: ConnectionOutcome) {
    match outcome
    case MissingSni => visited == [AtHello, AtAlert]
    case UnknownHost => visited == [AtHello, AtLookup, AtAlert]
    case HelloTimeout => visited == [AtHello]
    case InvalidHello => visited == [AtHello]
    case ClientClosed => visited == [AtHello]
    case LookupFailed => visited == [AtHello, AtLookup]
    case LookupTimeout => visited == [AtHello, AtLookup]
    case UpstreamConnectFailed => visited == [AtHello, AtLookup, AtUpstream]
    case UpstreamTimeout => visited == [AtHello, AtLookup, AtUpstream]
    case ShutdownCancelled => 1 <= |visited| <= 4 && visited == WHOLE_WAY[..|visited|]
    case Aborted =>
      || (|visited| <= 5 && visited == WHOLE_WAY[..|visited|])
      || visited == [AtHello, AtAlert] || visited == [AtHello, AtLookup, AtAlert]
    case _ => visited == WHOLE_WAY
  }

  ghost predicate IsOnItsWay(connection: Connection) {
    var visited := connection.visited;
    match connection.stage
    case Spawned => visited == []
    case Hello(_) => visited == [AtHello]
    case Lookup(_) => visited == [AtHello, AtLookup]
    case Upstream(_) => visited == [AtHello, AtLookup, AtUpstream]
    case AtGate => visited == [AtHello, AtLookup, AtUpstream, AtTheGate]
    case Proxying(_) => visited == WHOLE_WAY
    case Alert(_, outcome) => (outcome == MissingSni || outcome == UnknownHost) && EndsWell(visited, outcome)
    case DroppingPass(outcome) => visited == WHOLE_WAY && (IsProxyEnd(outcome) || outcome == Aborted)
    case Recording(outcome) => EndsWell(visited, outcome)
    case Unslotting(outcome) => EndsWell(visited, outcome)
    case Gone(outcome) => EndsWell(visited, outcome)
  }

  lemma WayPrefixes()
    ensures WHOLE_WAY[..0] == [] && WHOLE_WAY[..1] == [AtHello] && WHOLE_WAY[..2] == [AtHello, AtLookup]
    ensures WHOLE_WAY[..3] == [AtHello, AtLookup, AtUpstream]
    ensures WHOLE_WAY[..4] == [AtHello, AtLookup, AtUpstream, AtTheGate] && WHOLE_WAY[..5] == WHOLE_WAY
  {
  }

  lemma ReadyKeepsWay(connection: Connection, result: StageResult)
    requires MoveEnabled(connection.stage, Ready(result)) && IsOnItsWay(connection)
    ensures var stage := Completed(connection.stage, result);
            IsOnItsWay(connection.(stage := stage, visited := Visited(connection.visited, connection.stage, stage)))
  {
  }

  lemma AbortKeepsWay(connection: Connection)
    requires MoveEnabled(connection.stage, Abort) && IsOnItsWay(connection)
    ensures var stage := Unwound(connection.stage);
            IsOnItsWay(connection.(stage := stage, visited := Visited(connection.visited, connection.stage, stage)))
  {
    WayPrefixes();
  }

  lemma CheckKeepsWay(connection: Connection, closed: bool, force: bool)
    requires MoveEnabled(connection.stage, Check) && IsOnItsWay(connection)
    ensures var stage := Checked(connection.stage, closed, force);
            IsOnItsWay(connection.(stage := stage, visited := Visited(connection.visited, connection.stage, stage)))
  {
    WayPrefixes();
  }

  lemma OtherKeepsWay(connection: Connection, move: Move, gate: GateState, force: bool)
    requires MoveEnabled(connection.stage, move) && IsOnItsWay(connection)
    requires !move.Ready? && !move.Abort? && !move.Check?
    ensures var stage := NextStage(connection.stage, move, gate, force);
            IsOnItsWay(connection.(stage := stage, visited := Visited(connection.visited, connection.stage, stage)))
  {
    WayPrefixes();
  }

  /** What is recorded of closes and opening does not matter. */
  lemma SameWay(connection: Connection, other: Connection)
    requires other == connection.(wasOpened := other.wasOpened, closes := other.closes) && IsOnItsWay(connection)
    ensures IsOnItsWay(other)
  {
  }

  lemma MoveKeepsWay(s: System, id: nat, move: Move)
    requires id < |s.connections| && MoveEnabled(s.connections[id].stage, move) && IsOnItsWay(s.connections[id])
    ensures IsOnItsWay(MoveConnection(s, id, move).connections[id])
  {
    var connection := s.connections[id];
    match move {
      case Ready(result) => ReadyKeepsWay(connection, result);
      case Abort => AbortKeepsWay(connection);
      case Check => CheckKeepsWay(connection, s.gate.closed, s.force);
      case _ => OtherKeepsWay(connection, move, s.gate, s.force);
    }
    hide IsOnItsWay, Completed, Unwound, Checked, Visited;
    var stage := NextStage(connection.stage, move, s.gate, s.force);
    SameWay(connection.(stage := stage, visited := Visited(connection.visited, connection.stage, stage)),
            MoveConnection(s, id, move).connections[id]);
  }

  ghost predicate AllOnTheirWay(s: System) {
    forall i :: 0 <= i < |s.connections| ==> IsOnItsWay(s.connections[i])
  }

  lemma StepKeepsWays(s: System, e: Event, config: Config)
    requires AllOnTheirWay(s) && Enabled(s, e, config)
    ensures AllOnTheirWay(Apply(s, e, config))
  {
    if e.ConnectionStep? {
      MoveKeepsWay(s, e.id, e.move);
      hide IsOnItsWay;
    }
  }

  lemma {:induction false} RunsKeepWays(s: System, events: seq<Event>, t: System, config: Config)
    requires AllOnTheirWay(s) && Leads(s, events, t, config)
    ensures AllOnTheirWay(t)
    decreases |events|
  {
    hide Enabled, Apply, AllOnTheirWay;
    if events != [] {
      StepKeepsWays(s, events[0], config);
      RunsKeepWays(Apply(s, events[0], config), events[1..], t, config);
    }
  }

  /**
   In every run each recorded outcome was come to in its own way: a rejection through the
   alert from the stage that found its reason, a failure in the stage it is named after,
   and an end of the proxy stage through hello, lookup, upstream and gate in turn.
   */
  lemma OutcomesHaveTheirWays(events: seq<Event>, t: System, config: Config)
    requires Leads(Initial(config), events, t, config)
    ensures forall i :: 0 <= i < |t.connections| ==>
              forall outcome :: outcome in t.connections[i].closes ==> EndsWell(t.connections[i].visited, outcome)
  {
    hide Leads;
    InitialOk(config);
    RunsKeep(Initial(config), events, t, config);
    RunsKeepWays(Initial(config), events, t, config);
    forall i | 0 <= i < |t.connections|
      ensures forall outcome :: outcome in t.connections[i].closes ==> EndsWell(t.connections[i].visited, outcome)
    {
      assert BooksOk(t.connections[i], t.gate.closed, t.force);
      assert IsOnItsWay(t.connections[i]);
    }
  }

  // ----- A whole way --------------------------------------------------------------------------

  /** Only this connection moved, and it is where it is said to be. */
  ghost predicate OnlyMoved(s: System, t: System, id: nat, stage: Stage) {
    && id < |s.connections| && |t.connections| == |s.connections|
    && t == s.(connections := s.connections[id := t.connections[id]], gate := t.gate, freeSlots := t.freeSlots)
    && t.connections[id].stage == stage && !t.gate.closed
    && t.connections[id].wasOpened == s.connections[id].wasOpened
  }

  lemma StageCanAdvance(s: System, id: nat, config: Config) returns (events: seq<Event>, t: System)
    requires id < |s.connections| && !s.gate.closed
    requires s.connections[id].stage in {Hello(false), Lookup(false), Upstream(false)}
    ensures Leads(s, events, t, config)
    ensures OnlyMoved(s, t, id, match s.connections[id].stage
                                case Hello(_) => Lookup(false)
                                case Lookup(_) => Upstream(false)
                                case _ => AtGate)
    ensures t.connections[id].closes == s.connections[id].closes
    ensures t.freeSlots == s.freeSlots && t.gate == s.gate
  {
    var check, ready := ConnectionStep(id, Check), ConnectionStep(id, Ready(Advance));
    var polled := Apply(s, check, config);
    t := Apply(polled, ready, config);
    LeadsOneStep(s, check, config);
    LeadsOn(s, [check], polled, ready, config);
    events := [check] + [ready];
  }

  /** Through the open gate, and to the end of both directions. */
  lemma GateCanProxy(s: System, id: nat, config: Config) returns (events: seq<Event>, t: System)
    requires id < |s.connections| && !s.gate.closed && !s.force && s.connections[id].stage.AtGate?
    ensures Leads(s, events, t, config) && OnlyMoved(s, t, id, DroppingPass(Proxied))
    ensures t.connections[id].closes == s.connections[id].closes
    ensures t.freeSlots == s.freeSlots && t.gate.proxying == s.gate.proxying + 1
  {
    var enter, check, finish := ConnectionStep(id, EnterGate), ConnectionStep(id, Check),
                                ConnectionStep(id, Ready(StageResult.Fail(Proxied)));
    var s1 := Apply(s, enter, config);
    var s2 := Apply(s1, check, config);
    t := Apply(s2, finish, config);
    hide Leads;
    LeadsOneStep(s, enter, config);
    LeadsOn(s, [enter], s1, check, config);
    LeadsOn(s, [enter] + [check], s2, finish, config);
    events := [enter] + [check] + [finish];
  }

  /** What a decided connection holds is given back, and its close recorded. */
  lemma DoneCanLeave(s: System, id: nat, outcome: ConnectionOutcome, config: Config) returns (events: seq<Event>, t: System)
    requires id < |s.connections| && !s.gate.closed
    requires s.connections[id].stage == DroppingPass(outcome)
    ensures Leads(s, events, t, config) && OnlyMoved(s, t, id, Gone(outcome))
    ensures t.connections[id].closes == s.connections[id].closes + [outcome]
    ensures t.freeSlots == s.freeSlots + 1 && t.gate.proxying == s.gate.proxying - 1
  {
    var drop, record, release := ConnectionStep(id, DropPass), ConnectionStep(id, Record), ConnectionStep(id, Release);
    var s1 := Apply(s, drop, config);
    var s2 := Apply(s1, record, config);
    t := Apply(s2, release, config);
    hide Leads;
    LeadsOneStep(s, drop, config);
    LeadsOn(s, [drop], s1, record, config);
    LeadsOn(s, [drop] + [record], s2, release, config);
    events := [drop] + [record] + [release];
  }

  lemma LeadsOn(s: System, before: seq<Event>, t: System, e: Event, config: Config)
    requires Leads(s, before, t, config) && Enabled(t, e, config)
    ensures Leads(s, before + [e], Apply(t, e, config), config)
  {
    LeadsOneStep(t, e, config);
    LeadsThen(s, before, t, [e], Apply(t, e, config), config);
  }

  /** Before shutdown any connection that has just been opened can be proxied to its end by its own steps. */
  lemma OpenedCanBeProxied(s: System, id: nat, config: Config) returns (events: seq<Event>, t: System)
    requires id < |s.connections| && !s.gate.closed && !s.force
    requires s.connections[id].stage == Hello(false) && s.connections[id].closes == []
    ensures Leads(s, events, t, config) && OnlyMoved(s, t, id, Gone(Proxied)) && t.connections[id].closes == [Proxied]
    ensures t.freeSlots == s.freeSlots + 1 && t.gate.proxying == s.gate.proxying
  {
    hide Leads;
    var looking, connecting, gating, dropping, more;
    events, looking := StageCanAdvance(s, id, config);
    more, connecting := StageCanAdvance(looking, id, config);
    LeadsThen(s, events, looking, more, connecting, config);
    events := events + more;
    more, gating := StageCanAdvance(connecting, id, config);
    LeadsThen(s, events, connecting, more, gating, config);
    events := events + more;
    more, dropping := GateCanProxy(gating, id, config);
    LeadsThen(s, events, gating, more, dropping, config);
    events := events + more;
    more, t := DoneCanLeave(dropping, id, Proxied, config);
    LeadsThen(s, events, dropping, more, t, config);
    events := events + more;
    OnlyOneMoved(s, looking, connecting, id);
    OnlyOneMoved(s, connecting, gating, id);
    OnlyOneMoved(s, gating, dropping, id);
    OnlyOneMoved(s, dropping, t, id);
  }

  lemma OnlyOneMoved(s: System, t: System, u: System, id: nat)
    requires id < |s.connections| && |t.connections| == |s.connections| == |u.connections|
    requires OnlyMoved(s, t, id, t.connections[id].stage) && OnlyMoved(t, u, id, u.connections[id].stage)
    ensures OnlyMoved(s, u, id, u.connections[id].stage)
  {
  }

  /** And with a free slot and the loop ready for one, a client that comes is accepted and opened. */
  lemma ClientCanBeOpened(s: System, config: Config) returns (events: seq<Event>, t: System)
    requires s.accept == WantSlot(false) && !s.shutdown && s.freeSlots > 0
    ensures Leads(s, events, t, config)
    ensures t == s.(connections := t.connections, freeSlots := s.freeSlots - 1)
    ensures |t.connections| == |s.connections| + 1 && t.connections[..|s.connections|] == s.connections
    ensures t.connections[|s.connections|] == Connection(Hello(false), true, [], [AtHello])
  {
    var id := |s.connections|;
    var look, take, accept, open :=
      AcceptStep(CheckShutdown), AcceptStep(TakeSlot), AcceptStep(Accept), ConnectionStep(id, Open);
    var s1 := Apply(s, look, config);
    var s2 := Apply(s1, take, config);
    var s3 := Apply(s2, look, config);
    var s4 := Apply(s3, accept, config);
    t := Apply(s4, open, config);
    hide Leads;
    LeadsOneStep(s, look, config);
    LeadsOn(s, [look], s1, take, config);
    LeadsOn(s, [look] + [take], s2, look, config);
    LeadsOn(s, [look] + [take] + [look], s3, accept, config);
    LeadsOn(s, [look] + [take] + [look] + [accept], s4, open, config);
    events := [look] + [take] + [look] + [accept] + [open];
  }

  /** So with any capacity at all a first client can be accepted, proxied and recorded, and its slot comes back. */
  lemma ClientCanBeProxied(config: Config) returns (events: seq<Event>, t: System)
    requires config.maxConnections > 0
    ensures Leads(Initial(config), events, t, config)
    ensures |t.connections| == 1 && t.connections[0].closes == [Proxied] && t.connections[0].visited == WHOLE_WAY
    ensures t.freeSlots == config.maxConnections && t.gate == OPEN_GATE
  {
    var waiting, more;
    events, waiting := ClientCanBeOpened(Initial(config), config);
    more, t := OpenedCanBeProxied(waiting, 0, config);
    hide Leads, OnlyMoved;
    LeadsThen(Initial(config), events, waiting, more, t, config);
    events := events + more;
    ProxiedWay(events, t, config);
  }

  lemma ProxiedWay(events: seq<Event>, t: System, config: Config)
    requires Leads(Initial(config), events, t, config)
    ensures |t.connections| == 1 && t.connections[0].closes == [Proxied] ==> t.connections[0].visited == WHOLE_WAY
  {
    OutcomesHaveTheirWays(events, t, config);
    if |t.connections| == 1 && t.connections[0].closes == [Proxied] {
      assert Proxied in t.connections[0].closes;
    }
  }
}
