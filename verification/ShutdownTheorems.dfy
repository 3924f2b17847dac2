/** Which side of shutdown each connection lands on, and why shutdown ends. */
module ShutdownTheorems {
  import opened Shutdown

  // ----- One side or the other --------------------------------------------------------

  /** Will never proxy: whatever it ends with, it is not an end of the proxy stage. */
  ghost predicate HandshakeSide(stage: Stage) {
    && HoldsPass(stage) == 0
    && (Decided(stage).Some? ==> !IsProxyEnd(Decided(stage).value))
  }

  /** Proxying or done with it: it was not cancelled. */
  ghost predicate ProxySide(stage: Stage) {
    || stage.Proxying?
    || ((stage.DroppingPass? || stage.Recording? || stage.Unslotting? || stage.Gone?)
        && (IsProxyEnd(stage.outcome) || stage.outcome == Aborted))
  }

  lemma MoveKeepsSide(s: System, id: nat, move: Move)
    requires id < |s.connections| && MoveEnabled(s.connections[id].stage, move)
    requires s.gate.closed && BooksOk(s.connections[id], s.gate.closed, s.force)
    ensures var before := s.connections[id].stage;
            var after := NextStage(before, move, s.gate, s.force);
            && (HandshakeSide(before) ==> HandshakeSide(after))
            && (ProxySide(before) ==> ProxySide(after))
            && HoldsPass(after) <= HoldsPass(before)
  {
  }

  lemma SidesAreKept(s: System, e: Event, config: Config, i: nat)
    requires Inv(s, config) && s.gate.closed && Enabled(s, e, config) && i < |s.connections|
    ensures var after := Apply(s, e, config);
            && |after.connections| == |s.connections| && after.gate.closed
            && (HandshakeSide(s.connections[i].stage) ==> HandshakeSide(after.connections[i].stage))
            && (ProxySide(s.connections[i].stage) ==> ProxySide(after.connections[i].stage))
            && HoldsPass(after.connections[i].stage) <= HoldsPass(s.connections[i].stage)
  {
    assert BooksOk(s.connections[i], s.gate.closed, s.force);
    hide Inv, BooksOk, SlotsHeld, PassesHeld, HandshakeSide, ProxySide, HoldsPass, NextStage;
    if e.ConnectionStep? && e.id == i {
      MoveKeepsSide(s, i, e.move);
    }
  }

  lemma {:induction false} SidesAreKeptForever(s: System, events: seq<Event>, t: System, config: Config, i: nat)
    requires Inv(s, config) && s.gate.closed && Leads(s, events, t, config) && i < |s.connections|
    ensures |t.connections| == |s.connections|
    ensures HandshakeSide(s.connections[i].stage) ==> HandshakeSide(t.connections[i].stage)
    ensures ProxySide(s.connections[i].stage) ==> ProxySide(t.connections[i].stage)
    ensures HoldsPass(t.connections[i].stage) <= HoldsPass(s.connections[i].stage)
    decreases |events|
  {
    hide Inv, Enabled, Apply, HandshakeSide, ProxySide;
    if events != [] {
      SidesAreKept(s, events[0], config, i);
      StepKeeps(s, events[0], config);
      SidesAreKeptForever(Apply(s, events[0], config), events[1..], t, config, i);
    }
  }

  lemma {:induction false} NoneSpawned(s: System, events: seq<Event>, t: System, config: Config)
    requires Inv(s, config) && s.gate.closed && Leads(s, events, t, config)
    ensures |t.connections| == |s.connections| && t.gate.closed
    decreases |events|
  {
    hide Leads;
    if events != [] {
      LeadsOne(s, events, t, config);
      StepKeeps(s, events[0], config);
      NoneSpawned(Apply(s, events[0], config), events[1..], t, config);
    } else {
      LeadsOne(s, events, t, config);
    }
  }

  lemma LeadsOne(s: System, events: seq<Event>, t: System, config: Config)
    requires Leads(s, events, t, config)
    ensures events == [] ==> t == s
    ensures events != [] ==> Enabled(s, events[0], config) && Leads(Apply(s, events[0], config), events[1..], t, config)
  {
  }

  /**
   A connection racing shutdown lands on exactly one side. At the moment the gate closes,
   the passes it counts are the connections that may drain, and none of them is reported
   cancelled. No other one ever holds a pass again, and unless it had already left the
   proxy stage it does not end as a proxied connection does. None is spawned afterwards.
   */
  lemma OneSideEach(before: seq<Event>, s: System, after: seq<Event>, t: System, config: Config)
    requires Leads(Initial(config), before, s, config) && Enabled(s, CloseGate, config)
    requires Leads(Apply(s, CloseGate, config), after, t, config)
    ensures PassesHeld(s.connections) == s.gate.proxying && |t.connections| == |s.connections|
    ensures forall i :: 0 <= i < |s.connections| && HoldsPass(s.connections[i].stage) == 1 ==>
              ShutdownCancelled !in t.connections[i].closes
    ensures forall i :: 0 <= i < |s.connections| && HoldsPass(s.connections[i].stage) == 0 ==>
              HoldsPass(t.connections[i].stage) == 0
    ensures forall i :: 0 <= i < |s.connections| && HandshakeSide(s.connections[i].stage) ==>
              && HandshakeSide(t.connections[i].stage)
              && forall outcome :: outcome in t.connections[i].closes ==> !IsProxyEnd(outcome)
  {
    hide Leads;
    InitialOk(config);
    RunsKeep(Initial(config), before, s, config);
    var closing := Apply(s, CloseGate, config);
    StepKeeps(s, CloseGate, config);
    NoneSpawned(closing, after, t, config);
    RunsKeep(closing, after, t, config);
    forall i | 0 <= i < |s.connections|
      ensures HoldsPass(s.connections[i].stage) == 1 ==> ShutdownCancelled !in t.connections[i].closes
      ensures HoldsPass(s.connections[i].stage) == 0 ==> HoldsPass(t.connections[i].stage) == 0
      ensures HandshakeSide(s.connections[i].stage) ==>
                && HandshakeSide(t.connections[i].stage)
                && forall outcome :: outcome in t.connections[i].closes ==> !IsProxyEnd(outcome)
    {
      assert BooksOk(s.connections[i], s.gate.closed, s.force);
      assert BooksOk(t.connections[i], t.gate.closed, t.force);
      SidesAreKeptForever(closing, after, t, config, i);
    }
  }

  // ----- Remaining work -----------------------------------------------------------------

  /** Stages still ahead of a connection. */
  function StagesLeft(stage: Stage): nat {
    match stage
    case Spawned => 9
    case Hello(_) => 8
    case Lookup(_) => 7
    case Upstream(_) => 6
    case Alert(_, _) => 6
    case AtGate => 5
    case Proxying(_) => 4
    case DroppingPass(_) => 3
    case Recording(_) => 2
    case Unslotting(_) => 1
    case Gone(_) => 0
  }

  /** Steps still ahead of it at most, once it can no longer be polled again. */
  function StepsLeft(stage: Stage): nat {
    2 * StagesLeft(stage) + if HasPolling(stage) && stage.polling then 1 else 0
  }

  function TotalStages(connections: seq<Connection>): nat {
    Total(seq(|connections|, i requires 0 <= i < |connections| => StagesLeft(connections[i].stage)))
  }

  function TotalSteps(connections: seq<Connection>): nat {
    Total(seq(|connections|, i requires 0 <= i < |connections| => StepsLeft(connections[i].stage)))
  }

  lemma TotalsUpdate(connections: seq<Connection>, id: nat, moved: Connection)
    requires id < |connections|
    ensures TotalStages(connections[id := moved])
            == TotalStages(connections) - StagesLeft(connections[id].stage) + StagesLeft(moved.stage)
    ensures TotalSteps(connections[id := moved])
            == TotalSteps(connections) - StepsLeft(connections[id].stage) + StepsLeft(moved.stage)
  {
    var stages := seq(|connections|, i requires 0 <= i < |connections| => StagesLeft(connections[i].stage));
    var steps := seq(|connections|, i requires 0 <= i < |connections| => StepsLeft(connections[i].stage));
    var updated := connections[id := moved];
    TotalUpdate(stages, id, StagesLeft(moved.stage));
    TotalUpdate(steps, id, StepsLeft(moved.stage));
    assert seq(|updated|, i requires 0 <= i < |updated| => StagesLeft(updated[i].stage))
           == stages[id := StagesLeft(moved.stage)];
    assert seq(|updated|, i requires 0 <= i < |updated| => StepsLeft(updated[i].stage))
           == steps[id := StepsLeft(moved.stage)];
  }

  /**
   Every move of one connection: stages only ever go down; polls cost a step too once the
   gate is closed, except in the proxy stage before the force token fires.
   */
  lemma MovesDescend(s: System, id: nat, move: Move)
    requires id < |s.connections| && MoveEnabled(s.connections[id].stage, move)
    ensures var before := s.connections[id].stage;
            var after := NextStage(before, move, s.gate, s.force);
            && StagesLeft(after) <= StagesLeft(before)
            && (s.gate.closed && (s.force || !before.Proxying?) ==> StepsLeft(after) < StepsLeft(before))
  {
  }

  /** Once the gate is closed no step adds work, and each step of a connection that is not draining removes some. */
  lemma WorkOnlyShrinks(s: System, e: Event, config: Config)
    requires Inv(s, config) && s.gate.closed && Enabled(s, e, config)
    ensures TotalStages(Apply(s, e, config).connections) <= TotalStages(s.connections)
    ensures e.ConnectionStep? && (s.force || !s.connections[e.id].stage.Proxying?) ==>
              TotalSteps(Apply(s, e, config).connections) < TotalSteps(s.connections)
  {
    hide TotalStages, TotalSteps;
    if e.ConnectionStep? {
      MovesDescend(s, e.id, e.move);
      TotalsUpdate(s.connections, e.id, Apply(s, e, config).connections[e.id]);
    }
  }

  // ----- Termination -----------------------------------------------------------------------

  /** Accept-loop steps left once the shutdown token has fired. */
  function AcceptStepsLeft(accept: AcceptStage): nat {
    match accept
    case Stopped => 0
    case WantSlot(polling) => if polling then 2 else 1
    case Backoff => 2
    case Accepting(polling) => if polling then 3 else 1
  }

  /** The accept loop stops within three of its own steps of the shutdown token, and can always take one. */
  lemma AcceptLoopStops(s: System, config: Config)
    requires s.shutdown
    ensures AcceptStepsLeft(s.accept) <= 3
    ensures forall move :: AcceptEnabled(s, move) && !s.accept.Stopped? ==>
              AcceptStepsLeft(MoveAccept(s, move).accept) < AcceptStepsLeft(s.accept)
    ensures !s.accept.Stopped? ==>
              AcceptEnabled(s, CheckShutdown) || AcceptEnabled(s, NotReady)
    ensures s.accept.Stopped? && s.serve.Serving? ==> Enabled(s, CloseGate, config)
  {
  }

  function Measure(s: System): nat {
    TotalSteps(s.connections) + if s.serve.Returned? then 0 else 1
  }

  function Ticks(events: seq<Event>): nat {
    if events == [] then 0 else (if events[0].Tick? then 1 else 0) + Ticks(events[1..])
  }

  lemma ForcedStep(s: System, e: Event, config: Config)
    requires Inv(s, config) && s.force && Enabled(s, e, config)
    ensures Apply(s, e, config).force
    ensures Measure(Apply(s, e, config)) <= Measure(s) - (if e.Tick? then 0 else 1)
  {
    hide TotalSteps, TotalStages;
    WorkOnlyShrinks(s, e, config);
  }

  /** Once forced, every run has at most `Measure` steps besides the clock's. */
  lemma {:induction false} ForcedRunsAreShort(s: System, events: seq<Event>, t: System, config: Config)
    requires Inv(s, config) && s.force && Leads(s, events, t, config)
    ensures |events| - Ticks(events) + Measure(t) <= Measure(s)
    decreases |events|
  {
    hide Inv, Enabled, Apply, Measure;
    if events != [] {
      ForcedStep(s, events[0], config);
      StepKeeps(s, events[0], config);
      ForcedRunsAreShort(Apply(s, events[0], config), events[1..], t, config);
    }
  }

  /** The move a connection's task can always make before it is gone. */
  function SomeMove(stage: Stage): Move {
    match stage
    case Spawned => Open
    case AtGate => EnterGate
    case DroppingPass(_) => DropPass
    case Recording(_) => Record
    case Hello(polling) => if polling then Pending else Check
    case Lookup(polling) => if polling then Pending else Check
    case Upstream(polling) => if polling then Pending else Check
    case Alert(polling, _) => if polling then Pending else Check
    case Proxying(polling) => if polling then Pending else Check
    case _ => Release
  }

  /** Before `serve` returns, a forced system always has a step besides the clock's. */
  lemma ForcedCanStep(s: System, config: Config) returns (e: Event)
    requires Inv(s, config) && s.force && !s.serve.Returned?
    ensures Enabled(s, e, config) && !e.Tick?
  {
    if AllGone(s.connections) {
      e := Return;
    } else {
      var i :| 0 <= i < |s.connections| && !s.connections[i].stage.Gone?;
      e := ConnectionStep(i, SomeMove(s.connections[i].stage));
    }
  }

  /**
   Shutdown terminates: a forced system that takes its steps returns, with every
   task gone, after at most `Measure` of them.
   */
  lemma {:induction false} ForcedShutdownReturns(s: System, config: Config) returns (events: seq<Event>, t: System)
    requires Inv(s, config) && s.force
    ensures Leads(s, events, t, config) && t.serve.Returned? && AllGone(t.connections)
    ensures |events| <= Measure(s)
    decreases Measure(s)
  {
    hide Measure;
    if s.serve.Returned? {
      events, t := [], s;
    } else {
      var e := ForcedCanStep(s, config);
      ForcedStep(s, e, config);
      StepKeeps(s, e, config);
      var others;
      others, t := ForcedShutdownReturns(Apply(s, e, config), config);
      events := [e] + others;
      assert events[1..] == others;
    }
  }

  // ----- From the shutdown token to the end -------------------------------------------------

  lemma {:induction false} LeadsThen(s: System, before: seq<Event>, t: System, after: seq<Event>, u: System, config: Config)
    requires Leads(s, before, t, config) && Leads(t, after, u, config)
    ensures Leads(s, before + after, u, config)
    ensures Ticks(before + after) == Ticks(before) + Ticks(after)
    decreases |before|
  {
    hide Enabled, Apply;
    if before == [] {
      assert before + after == after;
    } else {
      LeadsThen(Apply(s, before[0], config), before[1..], t, after, u, config);
      assert (before + after)[1..] == before[1..] + after;
    }
  }

  lemma LeadsOneStep(s: System, e: Event, config: Config)
    requires Enabled(s, e, config)
    ensures Leads(s, [e], Apply(s, e, config), config) && Ticks([e]) == if e.Tick? then 1 else 0
  {
    assert [e][1..] == [];
  }

  /** A run that only stops the accept loop. */
  lemma {:induction false} AcceptCanStop(s: System, config: Config) returns (events: seq<Event>, t: System)
    requires Inv(s, config) && s.shutdown
    ensures Leads(s, events, t, config) && Inv(t, config)
    ensures t.accept.Stopped? && t == s.(accept := t.accept, freeSlots := t.freeSlots)
    ensures |events| <= AcceptStepsLeft(s.accept) && Ticks(events) == 0
    decreases AcceptStepsLeft(s.accept)
  {
    if s.accept.Stopped? {
      events, t := [], s;
    } else {
      var e := AcceptStep(if AcceptEnabled(s, CheckShutdown) then CheckShutdown else NotReady);
      AcceptLoopStops(s, config);
      StepKeeps(s, e, config);
      hide Inv;
      var others;
      others, t := AcceptCanStop(Apply(s, e, config), config);
      LeadsOneStep(s, e, config);
      LeadsThen(s, [e], Apply(s, e, config), others, t, config);
      events := [e] + others;
    }
  }

  lemma {:induction false} TimeCanPass(s: System, until: nat, config: Config) returns (events: seq<Event>, t: System)
    requires Inv(s, config)
    ensures Leads(s, events, t, config) && Inv(t, config)
    ensures t == s.(now := t.now) && t.now >= until && Ticks(events) == |events|
    decreases until - s.now
  {
    if s.now >= until {
      events, t := [], s;
    } else {
      StepKeeps(s, Tick, config);
      hide Inv;
      var others;
      others, t := TimeCanPass(Apply(s, Tick, config), until, config);
      LeadsOneStep(s, Tick, config);
      LeadsThen(s, [Tick], Apply(s, Tick, config), others, t, config);
      events := [Tick] + others;
    }
  }

  /** From the token to the closed gate. */
  lemma GateCanClose(s: System, config: Config) returns (events: seq<Event>, t: System)
    requires Inv(s, config) && s.shutdown && s.serve.Serving?
    ensures Leads(s, events, t, config) && Inv(t, config)
    ensures t.serve.Draining? && t.connections == s.connections && |events| <= 4 && Ticks(events) == 0
  {
    var stopped;
    events, stopped := AcceptCanStop(s, config);
    AcceptLoopStops(s, config);
    StepKeeps(stopped, CloseGate, config);
    hide Inv;
    t := Apply(stopped, CloseGate, config);
    LeadsOneStep(stopped, CloseGate, config);
    LeadsThen(s, events, stopped, [CloseGate], t, config);
    events := events + [CloseGate];
  }

  /** From the closed gate, through the grace period, to the force token. */
  lemma GraceCanEnd(s: System, config: Config) returns (events: seq<Event>, t: System)
    requires Inv(s, config) && s.serve.Draining?
    ensures Leads(s, events, t, config) && Inv(t, config)
    ensures t.force && t.serve.Forcing? && t.connections == s.connections && |events| - Ticks(events) == 1
  {
    var late;
    events, late := TimeCanPass(s, s.closedAt + config.shutdownGrace, config);
    StepKeeps(late, ForceRemaining, config);
    hide Inv;
    t := Apply(late, ForceRemaining, config);
    LeadsOneStep(late, ForceRemaining, config);
    LeadsThen(s, events, late, [ForceRemaining], t, config);
    events := events + [ForceRemaining];
  }

  /** From the closed gate to the end. */
  lemma ClosedCanReturn(s: System, config: Config) returns (events: seq<Event>, t: System)
    requires Inv(s, config) && s.serve.Draining?
    ensures Leads(s, events, t, config) && t.serve.Returned? && AllGone(t.connections)
    ensures |events| - Ticks(events) <= 2 + TotalSteps(s.connections)
  {
    var forced;
    events, forced := GraceCanEnd(s, config);
    hide Inv, TotalSteps;
    var rest;
    rest, t := ForcedShutdownReturns(forced, config);
    LeadsThen(s, events, forced, rest, t, config);
    TicksFew(rest);
    events := events + rest;
  }

  lemma TicksFew(events: seq<Event>)
    ensures Ticks(events) <= |events|
  {
  }

  /**
   From every reachable state in which the shutdown token has fired, some run makes
   `serve` return with every task gone, in a number of steps, the clock's aside, that
   the connections there are bound.
   */
  lemma ShutdownReturns(before: seq<Event>, s: System, config: Config) returns (events: seq<Event>, t: System)
    requires Leads(Initial(config), before, s, config) && s.shutdown
    ensures Leads(s, events, t, config) && t.serve.Returned? && AllGone(t.connections)
    ensures |events| - Ticks(events) <= 6 + TotalSteps(s.connections)
  {
    InitialOk(config);
    RunsKeep(Initial(config), before, s, config);
    match s.serve {
      case Returned => events, t := [], s;
      case Forcing =>
        assert s.force;
        events, t := ForcedShutdownReturns(s, config);
        TicksFew(events);
      case Draining => events, t := ClosedCanReturn(s, config);
      case Serving =>
        var closed, rest;
        events, closed := GateCanClose(s, config);
        hide Inv, TotalSteps;
        rest, t := ClosedCanReturn(closed, config);
        LeadsThen(s, events, closed, rest, t, config);
        events := events + rest;
    }
  }

  /** A poll that leaves a connection in the stage it is in. */
  predicate IdlePoll(s: System, e: Event, config: Config)
    requires Enabled(s, e, config)
  {
    e.ConnectionStep? && (e.move.Check? || e.move.Pending?)
    && StagesLeft(Apply(s, e, config).connections[e.id].stage) == StagesLeft(s.connections[e.id].stage)
  }

  /** The steps of a run that are neither the clock's nor idle polls. */
  ghost function Progress(s: System, events: seq<Event>, config: Config): nat
    decreases |events|
  {
    if events == [] || !Enabled(s, events[0], config) then 0
    else
      (if events[0].Tick? || IdlePoll(s, events[0], config) then 0 else 1)
      + Progress(Apply(s, events[0], config), events[1..], config)
  }

  /** What the accept loop may still do, one more connection included. */
  function AcceptWork(accept: AcceptStage): nat {
    match accept
    case Stopped => 0
    case WantSlot(polling) => if polling then 2 else 1
    case Backoff => 2
    case Accepting(polling) => if polling then 11 else 1
  }

  function ServeWork(serve: ServePhase): nat {
    match serve
    case Serving => 3
    case Draining => 2
    case Forcing => 1
    case Returned => 0
  }

  function ShutdownWork(s: System): nat {
    TotalStages(s.connections) + AcceptWork(s.accept) + ServeWork(s.serve)
  }

  lemma StagesAppend(connections: seq<Connection>, added: Connection)
    ensures TotalStages(connections + [added]) == TotalStages(connections) + StagesLeft(added.stage)
  {
    var stages := seq(|connections|, i requires 0 <= i < |connections| => StagesLeft(connections[i].stage));
    var all := connections + [added];
    TotalAppend(stages, StagesLeft(added.stage));
    assert seq(|all|, i requires 0 <= i < |all| => StagesLeft(all[i].stage)) == stages + [StagesLeft(added.stage)];
  }

  lemma MovesProgress(s: System, id: nat, move: Move)
    requires id < |s.connections| && MoveEnabled(s.connections[id].stage, move)
    ensures var before := s.connections[id].stage;
            var after := NextStage(before, move, s.gate, s.force);
            && StagesLeft(after) <= StagesLeft(before)
            && (StagesLeft(after) == StagesLeft(before) ==> move.Check? || move.Pending?)
  {
  }

  lemma ProgressWorks(s: System, e: Event, config: Config)
    requires Inv(s, config) && s.shutdown && Enabled(s, e, config)
    ensures Apply(s, e, config).shutdown
    ensures ShutdownWork(Apply(s, e, config)) <= ShutdownWork(s) - (if e.Tick? || IdlePoll(s, e, config) then 0 else 1)
  {
    hide Inv, TotalStages, TotalSteps;
    if e.ConnectionStep? {
      MovesProgress(s, e.id, e.move);
      TotalsUpdate(s.connections, e.id, Apply(s, e, config).connections[e.id]);
    }
    StagesAppend(s.connections, ACCEPTED);
  }

  lemma {:induction false} RunsProgressFew(s: System, events: seq<Event>, t: System, config: Config)
    requires Inv(s, config) && s.shutdown && Leads(s, events, t, config)
    ensures Progress(s, events, config) + ShutdownWork(t) <= ShutdownWork(s)
    decreases |events|
  {
    hide Inv, Enabled, Apply, ShutdownWork, IdlePoll;
    if events != [] {
      ProgressWorks(s, events[0], config);
      StepKeeps(s, events[0], config);
      RunsProgressFew(Apply(s, events[0], config), events[1..], t, config);
    }
  }

  /**
   And every run is bounded like that: from a reachable state in which the shutdown token
   has fired, no run has more steps than the stages, the accept loop and `serve` leave,
   aside from the clock's and polls that find nothing to do.
   */
  lemma ShutdownRunsAreShort(before: seq<Event>, s: System, events: seq<Event>, t: System, config: Config)
    requires Leads(Initial(config), before, s, config) && s.shutdown && Leads(s, events, t, config)
    ensures Progress(s, events, config) <= TotalStages(s.connections) + 14
  {
    hide Inv, Leads, TotalStages;
    InitialOk(config);
    RunsKeep(Initial(config), before, s, config);
    RunsProgressFew(s, events, t, config);
  }
}
