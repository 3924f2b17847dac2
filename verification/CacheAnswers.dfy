/**
 What each event of a run does, in full: what a lookup is told, what an ended load leaves
 cached, what making room and invalidating remove (crates/sni_router/src/cache.rs).
 */
module CacheAnswers {
  import opened Wrappers
  import opened Routing
  import opened CacheState
  import opened CacheKeeps
  import opened CacheRuns
  import opened CacheTheorems

  // ----- Lookups ----------------------------------------------------------------------

  predicate IsFresh(s: System, candidates: RouteCandidates, now: Time) {
    candidates in s.cache.entries && now < s.cache.entries[candidates].expires
  }

  predicate IsUsable(s: System, candidates: RouteCandidates, now: Time) {
    candidates in s.cache.entries && now < s.cache.entries[candidates].staleUntil
  }

  /** One more answer, to this lookup. */
  ghost predicate Answers(s: System, t: System, candidates: RouteCandidates, begun: nat, now: Time, source: Source,
                          hits: RouteHits)
  {
    exists load :: t == s.(answers := s.answers + [Answer(candidates, begun, now, source, hits, load)])
  }

  /** The lookup waits for `load`, with a copy of the entry that is stale but usable, if there is one. */
  ghost predicate Waits(s: System, waits: map<nat, Wait>, lookup: nat, candidates: RouteCandidates, load: nat, begun: nat,
                        now: Time)
  {
    exists stale: Option<Copy> ::
      && waits == s.waits[lookup := Wait(candidates, load, stale, begun, now)]
      && (stale.Some? <==> IsUsable(s, candidates, now))
      && (stale.Some? ==> stale.value.hits == s.cache.entries[candidates].hits)
  }

  /** What a lookup does, by what is cached, what is in flight and how many loads are running. */
  ghost predicate LookedUp(config: CacheConfig, s: System, t: System, lookup: nat, candidates: RouteCandidates, begun: nat,
                           now: Time)
  {
    if IsFresh(s, candidates, now) then
      Answers(s, t, candidates, begun, now, FromCache, s.cache.entries[candidates].hits)
    else if candidates in s.cache.inflight then
      t == s.(waits := t.waits) && Waits(s, t.waits, lookup, candidates, s.cache.inflight[candidates], begun, now)
    else if s.cache.runningLoads < config.maxInflightLoads then
      var id := s.cache.nextId;
      && id !in s.loads
      && t == s.(cache := s.cache.(inflight := s.cache.inflight[candidates := id], nextId := id + 1,
                                   runningLoads := s.cache.runningLoads + 1),
                 loads := s.loads[id := Load(candidates, begun, Running)],
                 waits := t.waits)
      && Waits(s, t.waits, lookup, candidates, id, begun, now)
    else if IsUsable(s, candidates, now) then
      Answers(s, t, candidates, begun, now, FromStale, s.cache.entries[candidates].hits)
    else t == s
  }

  /**
   In every run a lookup is answered from a fresh entry; else it joins the load in flight
   for its candidates; else it starts one, below the cap; else it is shed, and answered
   only with a usable stale entry.
   */
  lemma LookupsAreAnswered(config: CacheConfig, events: seq<Event>, lookup: nat, candidates: RouteCandidates, now: Time)
    requires Run(config, events).Some? && lookup !in Run(config, events).value.waits
    ensures var after := Run(config, events + [Lookup(lookup, candidates, now)]);
            && after.Some?
            && LookedUp(config, Run(config, events).value, after.value, lookup, candidates, |events|, now)
  {
    hide Run;
    var s := Run(config, events).value;
    var e := Lookup(lookup, candidates, now);
    RunsKeep(config, events);
    RunSnoc(config, events, e);
    assert LoadsOk(events, s);
    hide Inv;
    LookupApplies(config, s, e, |events|);
  }

  lemma LookupApplies(config: CacheConfig, s: System, e: Event, at: nat)
    requires e.Lookup? && Enabled(s, e)
    requires forall l :: l in s.loads ==> l < s.cache.nextId
    ensures LookedUp(config, s, Apply(s, e, at, config), e.lookup, e.candidates, at, e.now)
  {
  }

  /**
   A waiting lookup is told its load's hits, or when that failed, its stale copy's; without
   one it gets no answer but the error. Either way it waits no longer.
   */
  lemma WaitersAreTold(config: CacheConfig, events: seq<Event>, lookup: nat)
    requires Run(config, events).Some? && Enabled(Run(config, events).value, Deliver(lookup))
    ensures var s := Run(config, events).value;
            var wait := s.waits[lookup];
            var after := Run(config, events + [Deliver(lookup)]);
            && after.Some?
            && after.value == s.(answers := after.value.answers, waits := s.waits - {lookup})
            && after.value.answers == s.answers
               + match s.loads[wait.load].phase.result
                 case Success(hits) => [Answer(wait.candidates, wait.begun, wait.now, FromLoad, hits, wait.load)]
                 case Failure(_) =>
                   if wait.stale.Some?
                   then [Answer(wait.candidates, wait.begun, wait.now, FromStale, wait.stale.value.hits, wait.stale.value.load)]
                   else []
  {
    hide Run;
    RunSnoc(config, events, Deliver(lookup));
  }

  // ----- Making room --------------------------------------------------------------------

  /** A purge is due on the first full insert, and then once the negative TTL has passed since the last. */
  predicate MayPurge(state: State, now: Time, config: CacheConfig) {
    state.lastPurge.None? || now - state.lastPurge.value >= config.negativeTtl || config.negativeTtl == 0.0
  }

  /**
   What a full cache gives up: when it may purge and some entries are past their stale
   windows, those and no others; else the entry with the smallest id.
   */
  ghost predicate IsRoomMade(state: State, after: State, now: Time, config: CacheConfig) {
    && after == state.(entries := after.entries, order := after.order, lastPurge := after.lastPurge)
    && after.lastPurge == (if MayPurge(state, now, config) then Some(now) else state.lastPurge)
    && if MayPurge(state, now, config) && exists c :: c in state.entries && now >= state.entries[c].staleUntil then
         && (forall c :: c in after.entries <==> c in state.entries && now < state.entries[c].staleUntil)
         && (forall c :: c in after.entries ==> after.entries[c] == state.entries[c])
       else
         exists oldest :: IsOldest(state.entries, oldest) && after.entries == state.entries - {oldest}
  }

  lemma RoomIsMade(state: State, now: Time, config: CacheConfig)
    requires StateOk(state, config) && config.maxEntries > 0
    ensures if |state.entries| < config.maxEntries then MakeRoom(state, now, config) == state
            else IsRoomMade(state, MakeRoom(state, now, config), now, config)
  {
    hide IsOldest, Evict, Recorded;
    MakeRoomDrops(state, now, config);
    if |state.entries| >= config.maxEntries {
      assert PurgeDue(state, now, config) <==> MayPurge(state, now, config);
      assert Dead(state.entries, now) != {} <==> exists c :: c in state.entries && now >= state.entries[c].staleUntil by {
        assert forall c :: c in Dead(state.entries, now) <==> c in state.entries && now >= state.entries[c].staleUntil;
      }
    }
  }

  // ----- Loads that end ---------------------------------------------------------------------

  /** Stored at `now`: how long it stays fresh, and how long it is usable. */
  ghost predicate IsStoredFor(entry: Entry, now: Time, config: CacheConfig) {
    && entry.staleUntil == entry.expires + config.StaleWindow()
    && if entry.hits == [] then entry.expires == now + config.negativeTtl
       else now + config.ttl * (1.0 - config.Jitter()) <= entry.expires <= now + config.ttl * (1.0 + config.Jitter())
  }

  /** The new entry under a new id, in room made if there was none. */
  ghost predicate Stored(config: CacheConfig, state: State, after: State, candidates: RouteCandidates, hits: RouteHits,
                         now: Time)
  {
    && candidates in after.entries && after.entries[candidates].hits == hits
    && after.entries[candidates].id == state.nextId && IsStoredFor(after.entries[candidates], now, config)
    && if candidates in state.entries || |state.entries| < config.maxEntries then
         after.entries - {candidates} == state.entries - {candidates}
       else
         exists roomy :: IsRoomMade(state, roomy, now, config) && after.entries - {candidates} == roomy.entries
  }

  /** What ending a load leaves cached. */
  ghost predicate Settles(config: CacheConfig, state: State, after: State, candidates: RouteCandidates, load: nat,
                          result: LoadResult, now: Time)
  {
    match result
    case Success(hits) =>
      if candidates in state.inflight && state.inflight[candidates] == load && config.maxEntries > 0 then
        Stored(config, state, after, candidates, hits, now)
      else after.entries == state.entries
    case Failure(_) =>
      after.entries ==
      if candidates in state.entries && now >= state.entries[candidates].staleUntil
      then state.entries - {candidates} else state.entries
  }

  /** Its slot, and the others. */
  ghost predicate GivesUpSlot(state: State, after: State, candidates: RouteCandidates, load: nat) {
    && after.runningLoads == state.runningLoads - 1
    && after.inflight ==
       if candidates in state.inflight && state.inflight[candidates] == load
       then state.inflight - {candidates} else state.inflight
  }

  lemma StoredFor(hits: RouteHits, id: nat, now: Time, unit: Unit, config: CacheConfig)
    ensures IsStoredFor(NewEntry(hits, id, now, unit, config), now, config)
  {
    JitterBounds(config.ttl, unit, config);
  }

  lemma InsertSettles(state: State, candidates: RouteCandidates, hits: RouteHits, now: Time, unit: Unit, config: CacheConfig)
    requires StateOk(state, config) && config.maxEntries > 0
    ensures Stored(config, state, Insert(state, candidates, hits, now, unit, config), candidates, hits, now)
  {
    EntryFields(hits, state.nextId, now, unit, config);
    StoredFor(hits, state.nextId, now, unit, config);
    hide StateOk, MakeRoom, Insert, NewEntry, IsRoomMade, IsStoredFor;
    InsertStores(state, candidates, hits, now, unit, config);
    RoomIsMade(state, now, config);
    if candidates !in state.entries {
      MakeRoomNoMore(state, candidates, now, config);
    }
  }

  lemma MakeRoomNoMore(state: State, candidates: RouteCandidates, now: Time, config: CacheConfig)
    requires StateOk(state, config) && config.maxEntries > 0 && candidates !in state.entries
    ensures candidates !in MakeRoom(state, now, config).entries
  {
    hide IsOldest, Evict, Recorded;
    MakeRoomDrops(state, now, config);
  }

  /** Making room looks at neither slots nor the count of loads. */
  lemma SameRoom(state: State, ended: State, roomy: State, now: Time, config: CacheConfig)
    requires ended == state.(inflight := ended.inflight, runningLoads := ended.runningLoads)
    requires IsRoomMade(ended, roomy, now, config)
    ensures IsRoomMade(state, roomy.(inflight := state.inflight, runningLoads := state.runningLoads), now, config)
  {
    hide IsOldest;
  }

  lemma SameStored(config: CacheConfig, state: State, ended: State, after: State, candidates: RouteCandidates,
                   hits: RouteHits, now: Time)
    requires ended == state.(inflight := ended.inflight, runningLoads := ended.runningLoads)
    requires Stored(config, ended, after, candidates, hits, now)
    ensures Stored(config, state, after, candidates, hits, now)
  {
    hide IsStoredFor, IsRoomMade;
    if candidates !in state.entries && |state.entries| >= config.maxEntries {
      var roomy :| IsRoomMade(ended, roomy, now, config) && after.entries - {candidates} == roomy.entries;
      SameRoom(state, ended, roomy, now, config);
    }
  }

  /** A success of the slot's owner. */
  lemma OwnerSettles(config: CacheConfig, state: State, candidates: RouteCandidates, load: nat, hits: RouteHits, now: Time,
                     unit: Unit)
    requires StateOk(state, config) && OwnsSlot(state, candidates, load) && config.maxEntries > 0
    ensures Settles(config, state, Settle(state, candidates, load, Success(hits), now, unit, config), candidates, load,
                    Success(hits), now)
  {
    var ended := Released(state, candidates, load);
    assert StateOk(ended, config);
    hide Insert, Stored, StateOk;
    InsertSettles(ended, candidates, hits, now, unit, config);
    SameStored(config, state, ended, Insert(ended, candidates, hits, now, unit, config), candidates, hits, now);
  }

  lemma EntryFields(hits: RouteHits, id: nat, now: Time, unit: Unit, config: CacheConfig)
    ensures NewEntry(hits, id, now, unit, config).hits == hits && NewEntry(hits, id, now, unit, config).id == id
  {
  }

  lemma SettlesSo(config: CacheConfig, state: State, candidates: RouteCandidates, load: nat, result: LoadResult, now: Time,
                  unit: Unit)
    requires StateOk(state, config)
    ensures var after := Settle(state, candidates, load, result, now, unit, config);
            Settles(config, state, after, candidates, load, result, now) && GivesUpSlot(state, after, candidates, load)
  {
    SettledSlots(state, candidates, load, result, now, unit, config);
    if result.Success? && OwnsSlot(state, candidates, load) && config.maxEntries > 0 {
      OwnerSettles(config, state, candidates, load, result.value, now, unit);
    } else if result.Success? && OwnsSlot(state, candidates, load) {
      NoRoomNoInsert(Released(state, candidates, load), candidates, result.value, now, unit, config);
    }
    hide Insert, StateOk, Stored;
  }

  /**
   In every run: a load that succeeds and still owns its slot leaves its hits cached for at
   least `ttl` less its jitter, in room made as described; any other success stores nothing;
   and a failure only removes an entry past its stale window. Its slot is free afterwards,
   if it still was its own, and no other is touched.
   */
  lemma LoadsSettle(config: CacheConfig, events: seq<Event>, load: nat, result: LoadResult, now: Time, unit: Unit)
    requires Run(config, events).Some? && Enabled(Run(config, events).value, LoadEnds(load, result, now, unit))
    ensures var s := Run(config, events).value;
            var candidates := s.loads[load].candidates;
            var after := Run(config, events + [LoadEnds(load, result, now, unit)]);
            && after.Some?
            && Settles(config, s.cache, after.value.cache, candidates, load, result, now)
            && GivesUpSlot(s.cache, after.value.cache, candidates, load)
            && after.value.loads == s.loads[load := s.loads[load].(phase := Settled(result, now))]
            && after.value.waits == s.waits && after.value.answers == s.answers
  {
    hide Run, Settles, GivesUpSlot, Settle, StateOk;
    RunsKeep(config, events);
    RunSnoc(config, events, LoadEnds(load, result, now, unit));
    var s := Run(config, events).value;
    SettlesSo(config, s.cache, s.loads[load].candidates, load, result, now, unit);
  }

  // ----- Invalidation -----------------------------------------------------------------------

  /** Invalidation and clearing remove exactly what the key, or everything, covers, and end no load and no wait. */
  lemma InvalidationRemoves(config: CacheConfig, events: seq<Event>, e: Event)
    requires Run(config, events).Some? && (e.Invalidate? || e.Clear?)
    ensures var s := Run(config, events).value;
            var after := Run(config, events + [e]);
            && after.Some? && after.value == s.(cache := after.value.cache)
            && var cache := after.value.cache;
               && cache.nextId == s.cache.nextId && cache.runningLoads == s.cache.runningLoads
               && cache.lastPurge == s.cache.lastPurge
               && (forall c :: c in cache.entries <==> c in s.cache.entries && !Cancels(e, c))
               && (forall c :: c in cache.entries ==> cache.entries[c] == s.cache.entries[c])
               && (forall c :: c in cache.inflight <==> c in s.cache.inflight && !Cancels(e, c))
               && (forall c :: c in cache.inflight ==> cache.inflight[c] == s.cache.inflight[c])
  {
    hide Run;
    RunSnoc(config, events, e);
  }

  // ----- Single flight ------------------------------------------------------------------------

  /** Some event from number `from` on cancels the candidates. */
  ghost predicate CancelledSince(events: seq<Event>, candidates: RouteCandidates, from: nat, before: nat) {
    exists m :: from < m < before && m < |events| && Cancels(events[m], candidates)
  }

  /** A running load owns its slot, or its candidates were cancelled after it started. */
  ghost predicate OwnsOrCancelled(events: seq<Event>, s: System) {
    forall l :: l in s.loads && s.loads[l].phase.Running? ==>
      || (s.loads[l].candidates in s.cache.inflight && s.cache.inflight[s.loads[l].candidates] == l)
      || CancelledSince(events, s.loads[l].candidates, s.loads[l].start, |events|)
  }

  ghost predicate FlightsOk(events: seq<Event>, s: System) {
    forall k, l :: k in s.loads && l in s.loads && k != l && s.loads[k].candidates == s.loads[l].candidates
                   && s.loads[k].phase.Running? && s.loads[l].phase.Running? && s.loads[k].start <= s.loads[l].start ==>
      CancelledSince(events, s.loads[k].candidates, s.loads[k].start, s.loads[l].start)
  }

  lemma StillCancelled(events: seq<Event>, e: Event, candidates: RouteCandidates, from: nat, before: nat)
    requires CancelledSince(events, candidates, from, before)
    ensures CancelledSince(events + [e], candidates, from, before)
    ensures CancelledSince(events, candidates, from, |events|)
    ensures CancelledSince(events + [e], candidates, from, |events| + 1)
  {
    var m :| from < m < before && m < |events| && Cancels(events[m], candidates);
    assert (events + [e])[m] == events[m];
  }

  /** No load is started, and each that goes on keeps its slot unless it is cancelled. */
  ghost predicate StartsNone(s: System, t: System, e: Event) {
    && (forall l :: l in t.loads ==>
          && l in s.loads && t.loads[l].candidates == s.loads[l].candidates && t.loads[l].start == s.loads[l].start
          && (t.loads[l].phase.Running? ==> s.loads[l].phase.Running?))
    && (forall l :: l in t.loads && t.loads[l].phase.Running? ==>
          var c := s.loads[l].candidates;
          c in s.cache.inflight && s.cache.inflight[c] == l && !Cancels(e, c) ==>
            c in t.cache.inflight && t.cache.inflight[c] == l)
  }

  lemma NoneStarted(events: seq<Event>, e: Event, s: System, t: System)
    requires LoadsOk(events, s) && OwnsOrCancelled(events, s) && FlightsOk(events, s) && StartsNone(s, t, e)
    ensures OwnsOrCancelled(events + [e], t) && FlightsOk(events + [e], t)
  {
    hide CancelledSince;
    var all := events + [e];
    forall l | l in t.loads && t.loads[l].phase.Running?
      ensures || (t.loads[l].candidates in t.cache.inflight && t.cache.inflight[t.loads[l].candidates] == l)
              || CancelledSince(all, t.loads[l].candidates, t.loads[l].start, |all|)
    {
      var c := s.loads[l].candidates;
      if CancelledSince(events, c, s.loads[l].start, |events|) {
        StillCancelled(events, e, c, s.loads[l].start, |events|);
      } else if Cancels(e, c) {
        JustCancelled(events, e, c, s.loads[l].start);
      }
    }
    FlightsStay(events, e, s, t);
  }

  lemma JustCancelled(events: seq<Event>, e: Event, candidates: RouteCandidates, from: nat)
    requires Cancels(e, candidates) && from < |events|
    ensures CancelledSince(events + [e], candidates, from, |events| + 1)
  {
    assert (events + [e])[|events|] == e;
  }

  lemma FlightsStay(events: seq<Event>, e: Event, s: System, t: System)
    requires FlightsOk(events, s) && StartsNone(s, t, e)
    ensures FlightsOk(events + [e], t)
  {
    hide CancelledSince;
    forall k, l | k in t.loads && l in t.loads && k != l && t.loads[k].candidates == t.loads[l].candidates
                  && t.loads[k].phase.Running? && t.loads[l].phase.Running? && t.loads[k].start <= t.loads[l].start
      ensures CancelledSince(events + [e], t.loads[k].candidates, t.loads[k].start, t.loads[l].start)
    {
      StillCancelled(events, e, s.loads[k].candidates, s.loads[k].start, s.loads[l].start);
    }
  }

  /** A load starts only for candidates without a slot. */
  lemma OneStarted(events: seq<Event>, e: Event, s: System, t: System, candidates: RouteCandidates, id: nat)
    requires LoadsOk(events, s) && OwnsOrCancelled(events, s) && FlightsOk(events, s)
    requires candidates !in s.cache.inflight && id !in s.loads && t.cache.inflight == s.cache.inflight[candidates := id]
    requires t.loads == s.loads[id := Load(candidates, |events|, Running)]
    ensures OwnsOrCancelled(events + [e], t) && FlightsOk(events + [e], t)
  {
    hide CancelledSince;
    var all := events + [e];
    forall l | l in t.loads && t.loads[l].phase.Running?
      ensures || (t.loads[l].candidates in t.cache.inflight && t.cache.inflight[t.loads[l].candidates] == l)
              || CancelledSince(all, t.loads[l].candidates, t.loads[l].start, |all|)
    {
      if l != id && CancelledSince(events, s.loads[l].candidates, s.loads[l].start, |events|) {
        StillCancelled(events, e, s.loads[l].candidates, s.loads[l].start, |events|);
      }
    }
    forall k, l | k in t.loads && l in t.loads && k != l && t.loads[k].candidates == t.loads[l].candidates
                  && t.loads[k].phase.Running? && t.loads[l].phase.Running? && t.loads[k].start <= t.loads[l].start
      ensures CancelledSince(all, t.loads[k].candidates, t.loads[k].start, t.loads[l].start)
    {
      if l == id {
        StillCancelled(events, e, candidates, s.loads[k].start, |events|);
      } else {
        StillCancelled(events, e, s.loads[k].candidates, s.loads[k].start, s.loads[l].start);
      }
    }
  }

  lemma LookupFlights(config: CacheConfig, events: seq<Event>, e: Event, s: System, t: System)
    requires LoadsOk(events, s) && OwnsOrCancelled(events, s) && FlightsOk(events, s)
    requires e.Lookup? && LookedUp(config, s, t, e.lookup, e.candidates, |events|, e.now)
    ensures OwnsOrCancelled(events + [e], t) && FlightsOk(events + [e], t)
  {
    hide LoadsOk, OwnsOrCancelled, FlightsOk;
    if t.loads == s.loads {
      NoneStarted(events, e, s, t);
    } else {
      OneStarted(events, e, s, t, e.candidates, s.cache.nextId);
    }
  }

  lemma EndFlights(config: CacheConfig, events: seq<Event>, e: Event)
    requires Run(config, events).Some? && Enabled(Run(config, events).value, e) && e.LoadEnds?
    ensures Run(config, events + [e]).Some?
    ensures StartsNone(Run(config, events).value, Run(config, events + [e]).value, e)
  {
    hide Run, Settles;
    LoadsSettle(config, events, e.load, e.result, e.now, e.unit);
  }

  lemma CancelFlights(config: CacheConfig, events: seq<Event>, e: Event)
    requires Run(config, events).Some? && (e.Invalidate? || e.Clear?)
    ensures Run(config, events + [e]).Some?
    ensures StartsNone(Run(config, events).value, Run(config, events + [e]).value, e)
  {
    hide Run;
    InvalidationRemoves(config, events, e);
  }

  lemma OtherFlights(config: CacheConfig, events: seq<Event>, e: Event)
    requires Run(config, events).Some? && Enabled(Run(config, events).value, e)
    requires e.Publish? || e.Deliver? || e.Abandon?
    ensures Run(config, events + [e]).Some?
    ensures StartsNone(Run(config, events).value, Run(config, events + [e]).value, e)
  {
    hide Run;
    RunSnoc(config, events, e);
  }

  lemma FlightStep(config: CacheConfig, events: seq<Event>, e: Event)
    requires Run(config, events).Some? && Enabled(Run(config, events).value, e)
    requires OwnsOrCancelled(events, Run(config, events).value) && FlightsOk(events, Run(config, events).value)
    ensures Run(config, events + [e]).Some?
    ensures OwnsOrCancelled(events + [e], Run(config, events + [e]).value)
    ensures FlightsOk(events + [e], Run(config, events + [e]).value)
  {
    RunsKeep(config, events);
    var s := Run(config, events).value;
    assert LoadsOk(events, s);
    hide Run, Inv, LoadsOk, OwnsOrCancelled, FlightsOk, LookedUp, StartsNone;
    if e.Lookup? {
      LookupsAreAnswered(config, events, e.lookup, e.candidates, e.now);
      LookupFlights(config, events, e, s, Run(config, events + [e]).value);
    } else {
      match e {
        case LoadEnds(_, _, _, _) => EndFlights(config, events, e);
        case Invalidate(_) => CancelFlights(config, events, e);
        case Clear => CancelFlights(config, events, e);
        case _ => OtherFlights(config, events, e);
      }
      NoneStarted(events, e, s, Run(config, events + [e]).value);
    }
  }

  lemma {:induction false} FlightsKeep(config: CacheConfig, events: seq<Event>)
    requires Run(config, events).Some?
    ensures OwnsOrCancelled(events, Run(config, events).value) && FlightsOk(events, Run(config, events).value)
    decreases |events|
  {
    if events != [] {
      var before, e := events[..|events| - 1], events[|events| - 1];
      assert Run(config, before).Some? && Enabled(Run(config, before).value, e);
      assert events == before + [e];
      hide Run, OwnsOrCancelled, FlightsOk, Enabled;
      FlightsKeep(config, before);
      FlightStep(config, before, e);
    }
  }

  /**
   Single flight over every run: between the starts of two loads of the same candidates
   that are both still running, an invalidation or clear took the first one's slot away.
   */
  lemma LoadsAreSingleFlight(config: CacheConfig, events: seq<Event>, k: nat, l: nat) returns (m: nat)
    requires Run(config, events).Some?
    requires var loads := Run(config, events).value.loads;
             && k in loads && l in loads && k != l && loads[k].candidates == loads[l].candidates
             && loads[k].phase.Running? && loads[l].phase.Running? && loads[k].start <= loads[l].start
    ensures var loads := Run(config, events).value.loads;
            loads[k].start < m < loads[l].start && m < |events| && Cancels(events[m], loads[k].candidates)
  {
    hide Run;
    FlightsKeep(config, events);
    var loads := Run(config, events).value.loads;
    m :| loads[k].start < m < loads[l].start && m < |events| && Cancels(events[m], loads[k].candidates);
  }
}
