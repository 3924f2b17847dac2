/**
 Every run of the route cache: any interleaving of lookups, load completions,
 result deliveries, invalidations and clears (crates/sni_router/src/cache.rs).

 Each event is one locked region, or one publication or receipt of a load's result.
 Clock readings are arbitrary: nothing here needs them to be ordered.
 */
module CacheRuns {
  import opened Wrappers
  import opened Names
  import opened Routing
  import opened CacheState
  import opened CacheKeeps

  datatype Event =
    | Lookup(lookup: nat, candidates: RouteCandidates, now: Time)
    | LoadEnds(load: nat, result: LoadResult, now: Time, unit: Unit)
    | Publish(load: nat)
    | Deliver(lookup: nat)
    | Abandon(lookup: nat)
    | Invalidate(key: RouteKey)
    | Clear

  /** A load ends under the lock, and its result reaches the channel afterwards. */
  datatype Phase =
    | Running
    | Settled(result: LoadResult, at: Time)
    | Published(result: LoadResult, at: Time)

  /** `start` is the index of the event that started the load. */
  datatype Load = Load(candidates: RouteCandidates, start: nat, phase: Phase)

  /** A stale copy and the load it came from. */
  datatype Copy = Copy(hits: RouteHits, load: nat)

  /** A lookup waiting on `load`; `begun` is the index of the event that began it. */
  datatype Wait = Wait(candidates: RouteCandidates, load: nat, stale: Option<Copy>, begun: nat, now: Time)

  datatype Source = FromCache | FromLoad | FromStale

  /** A successful answer, with the load its hits came from. */
  datatype Answer = Answer(
    candidates: RouteCandidates, begun: nat, now: Time, source: Source, hits: RouteHits, load: nat)

  /** `origins` maps entry ids to the loads that stored them. */
  datatype System = System(
    cache: State,
    loads: map<nat, Load>,
    waits: map<nat, Wait>,
    origins: map<nat, nat>,
    answers: seq<Answer>)

  const INITIAL := System(EMPTY, map[], map[], map[], [])

  predicate Enabled(s: System, e: Event) {
    match e
    case Lookup(lookup, _, _) => lookup !in s.waits
    case LoadEnds(load, _, _, _) => load in s.loads && s.loads[load].phase.Running?
    case Publish(load) => load in s.loads && s.loads[load].phase.Settled?
    case Deliver(lookup) =>
      lookup in s.waits && s.waits[lookup].load in s.loads && s.loads[s.waits[lookup].load].phase.Published?
    case Abandon(lookup) => lookup in s.waits
    case Invalidate(_) => true
    case Clear => true
  }

  function CachedCopy(s: System, candidates: RouteCandidates): Copy
    requires candidates in s.cache.entries
  {
    var entry := s.cache.entries[candidates];
    Copy(entry.hits, if entry.id in s.origins then s.origins[entry.id] else 0)
  }

  function ApplyLookup(s: System, e: Event, at: nat, config: CacheConfig): System
    requires e.Lookup?
  {
    var (cache, begun) := BeginLookup(s.cache, e.candidates, e.now, config);
    var stale := if StaleCopy(s.cache, e.candidates, e.now).Some? then Some(CachedCopy(s, e.candidates)) else None;
    match begun
    case Hit(_) => s.(answers := s.answers + [AnswerWith(e.candidates, at, e.now, FromCache, CachedCopy(s, e.candidates))])
    case Shed(_) =>
      if stale.Some? then s.(answers := s.answers + [AnswerWith(e.candidates, at, e.now, FromStale, stale.value)]) else s
    case Joined(load, _) => s.(waits := s.waits[e.lookup := Wait(e.candidates, load, stale, at, e.now)])
    case Started(load, _) =>
      s.(cache := cache,
         loads := s.loads[load := Load(e.candidates, at, Running)],
         waits := s.waits[e.lookup := Wait(e.candidates, load, stale, at, e.now)])
  }

  function AnswerWith(candidates: RouteCandidates, begun: nat, now: Time, source: Source, copy: Copy): Answer {
    Answer(candidates, begun, now, source, copy.hits, copy.load)
  }

  function Delivered(s: System, wait: Wait): seq<Answer>
    requires wait.load in s.loads && s.loads[wait.load].phase.Published?
  {
    match s.loads[wait.load].phase.result
    case Success(hits) => [AnswerWith(wait.candidates, wait.begun, wait.now, FromLoad, Copy(hits, wait.load))]
    case Failure(_) =>
      if wait.stale.Some?
      then [AnswerWith(wait.candidates, wait.begun, wait.now, FromStale, wait.stale.value)]
      else []
  }

  /** Event number `at`. */
  function Apply(s: System, e: Event, at: nat, config: CacheConfig): System
    requires Enabled(s, e)
  {
    match e
    case Lookup(_, _, _) => ApplyLookup(s, e, at, config)
    case LoadEnds(load, result, now, unit) =>
      var candidates := s.loads[load].candidates;
      s.(cache := Settle(s.cache, candidates, load, result, now, unit, config),
         loads := s.loads[load := s.loads[load].(phase := Settled(result, now))],
         origins :=
           if Stores(s.cache, candidates, load, result, config) then s.origins[s.cache.nextId := load]
           else s.origins)
    case Publish(load) =>
      var phase := s.loads[load].phase;
      s.(loads := s.loads[load := s.loads[load].(phase := Published(phase.result, phase.at))])
    case Deliver(lookup) =>
      s.(answers := s.answers + Delivered(s, s.waits[lookup]), waits := s.waits - {lookup})
    case Abandon(lookup) => s.(waits := s.waits - {lookup})
    case Invalidate(key) => s.(cache := InvalidateKey(s.cache, key))
    case Clear => s.(cache := ClearAll(s.cache))
  }

  /** The system after these events, if each was possible when it happened. */
  function Run(config: CacheConfig, events: seq<Event>): Option<System> {
    if events == [] then Some(INITIAL)
    else
      var n := |events| - 1;
      match Run(config, events[..n])
      case None => None
      case Some(s) => if Enabled(s, events[n]) then Some(Apply(s, events[n], n, config)) else None
  }

  // ----- What holds in every reachable state --------------------------------------

  /** `e` invalidates whatever is cached or loading for `candidates`. */
  predicate Cancels(e: Event, candidates: RouteCandidates) {
    e.Clear? || (e.Invalidate? && candidates.Contains(e.key))
  }

  /** No event before number `end` cancels `candidates` at or after `start`. */
  ghost predicate Uncancelled(events: seq<Event>, candidates: RouteCandidates, start: nat, end: nat) {
    forall m :: 0 <= m < |events| && m < end && Cancels(events[m], candidates) ==> m < start
  }

  /** The longest an entry with these hits is served as fresh. */
  function Lifetime(hits: RouteHits, config: CacheConfig): real {
    if hits == [] then config.negativeTtl else config.ttl * (1.0 + config.Jitter())
  }

  /** `load` answered these hits for these candidates. */
  ghost predicate Gave(loads: map<nat, Load>, load: nat, candidates: RouteCandidates, hits: RouteHits) {
    && load in loads && loads[load].candidates == candidates
    && !loads[load].phase.Running? && loads[load].phase.result == Success(hits)
  }

  function Unfinished(loads: map<nat, Load>): set<nat> {
    set l | l in loads && loads[l].phase.Running?
  }

  ghost predicate LoadsOk(events: seq<Event>, s: System) {
    forall l :: l in s.loads ==>
      && l < s.cache.nextId
      && s.loads[l].start < |events|
      && events[s.loads[l].start].Lookup? && events[s.loads[l].start].candidates == s.loads[l].candidates
  }

  ghost predicate CountOk(config: CacheConfig, s: System) {
    s.cache.runningLoads == |Unfinished(s.loads)| <= config.maxInflightLoads
  }

  ghost predicate SlotOk(events: seq<Event>, s: System, candidates: RouteCandidates)
    requires candidates in s.cache.inflight
  {
    var l := s.cache.inflight[candidates];
    && l in s.loads && s.loads[l].candidates == candidates && s.loads[l].phase.Running?
    && Uncancelled(events, candidates, s.loads[l].start, |events|)
  }

  ghost predicate SlotsOk(events: seq<Event>, s: System) {
    forall c :: c in s.cache.inflight ==> SlotOk(events, s, c)
  }

  ghost predicate EntryOk(config: CacheConfig, events: seq<Event>, loads: map<nat, Load>, origins: map<nat, nat>,
                          candidates: RouteCandidates, entry: Entry)
  {
    && entry.id in origins
    && Gave(loads, origins[entry.id], candidates, entry.hits)
    && Uncancelled(events, candidates, loads[origins[entry.id]].start, |events|)
    && entry.expires <= loads[origins[entry.id]].phase.at + Lifetime(entry.hits, config)
    && entry.staleUntil == entry.expires + config.StaleWindow()
  }

  ghost predicate EntriesOk(config: CacheConfig, events: seq<Event>, s: System) {
    && (forall c :: c in s.cache.entries ==> EntryOk(config, events, s.loads, s.origins, c, s.cache.entries[c]))
    && (forall i :: i in s.origins ==> i < s.cache.nextId)
  }

  /** A stale copy still usable at `now` by a lookup begun at event `begun`. */
  ghost predicate CopyOk(config: CacheConfig, events: seq<Event>, loads: map<nat, Load>, candidates: RouteCandidates,
                         begun: nat, now: Time, copy: Copy)
  {
    && Gave(loads, copy.load, candidates, copy.hits)
    && Uncancelled(events, candidates, loads[copy.load].start, begun)
    && now < loads[copy.load].phase.at + Lifetime(copy.hits, config) + config.StaleWindow()
  }

  ghost predicate WaitOk(config: CacheConfig, events: seq<Event>, loads: map<nat, Load>, wait: Wait) {
    && wait.load in loads && loads[wait.load].candidates == wait.candidates
    && wait.begun < |events|
    && Uncancelled(events, wait.candidates, loads[wait.load].start, wait.begun)
    && (wait.stale.Some? ==> CopyOk(config, events, loads, wait.candidates, wait.begun, wait.now, wait.stale.value))
  }

  ghost predicate WaitsOk(config: CacheConfig, events: seq<Event>, s: System) {
    forall w :: w in s.waits ==> WaitOk(config, events, s.loads, s.waits[w])
  }

  ghost predicate AnswerOk(config: CacheConfig, events: seq<Event>, loads: map<nat, Load>, answer: Answer) {
    && Gave(loads, answer.load, answer.candidates, answer.hits)
    && answer.begun < |events|
    && Uncancelled(events, answer.candidates, loads[answer.load].start, answer.begun)
    && (answer.source == FromCache ==>
          answer.now < loads[answer.load].phase.at + Lifetime(answer.hits, config))
    && (answer.source == FromStale ==>
          answer.now < loads[answer.load].phase.at + Lifetime(answer.hits, config) + config.StaleWindow())
  }

  ghost predicate AnswersOk(config: CacheConfig, events: seq<Event>, s: System) {
    forall i :: 0 <= i < |s.answers| ==> AnswerOk(config, events, s.loads, s.answers[i])
  }

  /** Each end event names a load that has ended, and so. */
  ghost predicate EndsNameLoads(events: seq<Event>, loads: map<nat, Load>) {
    forall j :: 0 <= j < |events| && events[j].LoadEnds? ==>
      && events[j].load in loads && loads[events[j].load].start < j
      && !loads[events[j].load].phase.Running?
      && loads[events[j].load].phase.result == events[j].result
      && loads[events[j].load].phase.at == events[j].now
  }

  ghost predicate EndsDiffer(events: seq<Event>) {
    forall i, j :: 0 <= i < j < |events| && events[i].LoadEnds? && events[j].LoadEnds? ==>
      events[i].load != events[j].load
  }

  ghost predicate HasEnd(events: seq<Event>, load: nat) {
    exists j :: 0 <= j < |events| && events[j].LoadEnds? && events[j].load == load
  }

  ghost predicate EndedHaveEnds(events: seq<Event>, loads: map<nat, Load>) {
    forall l :: l in loads && !loads[l].phase.Running? ==> HasEnd(events, l)
  }

  /** The end events are exactly the loads that have ended, each once. */
  ghost predicate EndsOk(events: seq<Event>, s: System) {
    EndsNameLoads(events, s.loads) && EndsDiffer(events) && EndedHaveEnds(events, s.loads)
  }

  ghost predicate Inv(config: CacheConfig, events: seq<Event>, s: System) {
    && StateOk(s.cache, config)
    && LoadsOk(events, s) && CountOk(config, s) && SlotsOk(events, s)
    && EntriesOk(config, events, s) && WaitsOk(config, events, s) && AnswersOk(config, events, s)
    && EndsOk(events, s)
  }

  // ----- Facts that survive a step --------------------------------------------------

  /** Loads are only added, and an ended load's result never changes. */
  ghost predicate LoadsGrow(loads: map<nat, Load>, after: map<nat, Load>) {
    forall l :: l in loads ==>
      && l in after && after[l].candidates == loads[l].candidates && after[l].start == loads[l].start
      && (!loads[l].phase.Running? ==>
            && !after[l].phase.Running?
            && after[l].phase.result == loads[l].phase.result && after[l].phase.at == loads[l].phase.at)
  }

  lemma UncancelledStays(events: seq<Event>, e: Event, candidates: RouteCandidates, start: nat)
    ensures forall end: nat :: end <= |events| && Uncancelled(events, candidates, start, end) ==>
              Uncancelled(events + [e], candidates, start, end)
    ensures Uncancelled(events, candidates, start, |events|) && !Cancels(e, candidates) ==>
              Uncancelled(events + [e], candidates, start, |events| + 1)
  {
  }

  lemma EntryStays(config: CacheConfig, events: seq<Event>, e: Event, s: System, after: System,
                   candidates: RouteCandidates, entry: Entry)
    requires EntryOk(config, events, s.loads, s.origins, candidates, entry)
    requires LoadsGrow(s.loads, after.loads)
    requires entry.id in after.origins && after.origins[entry.id] == s.origins[entry.id]
    requires !Cancels(e, candidates)
    ensures EntryOk(config, events + [e], after.loads, after.origins, candidates, entry)
  {
    UncancelledStays(events, e, candidates, s.loads[s.origins[entry.id]].start);
  }

  lemma CopyStays(config: CacheConfig, events: seq<Event>, e: Event, loads: map<nat, Load>, after: map<nat, Load>,
                  candidates: RouteCandidates, begun: nat, now: Time, copy: Copy)
    requires CopyOk(config, events, loads, candidates, begun, now, copy) && begun <= |events|
    requires LoadsGrow(loads, after)
    ensures CopyOk(config, events + [e], after, candidates, begun, now, copy)
  {
    UncancelledStays(events, e, candidates, loads[copy.load].start);
  }

  lemma WaitsStay(config: CacheConfig, events: seq<Event>, e: Event, s: System, after: System)
    requires WaitsOk(config, events, s) && LoadsGrow(s.loads, after.loads)
    ensures forall w :: w in s.waits ==> WaitOk(config, events + [e], after.loads, s.waits[w])
  {
    forall w | w in s.waits ensures WaitOk(config, events + [e], after.loads, s.waits[w]) {
      var wait := s.waits[w];
      UncancelledStays(events, e, wait.candidates, s.loads[wait.load].start);
      if wait.stale.Some? {
        CopyStays(config, events, e, s.loads, after.loads, wait.candidates, wait.begun, wait.now, wait.stale.value);
      }
    }
  }

  lemma AnswersStay(config: CacheConfig, events: seq<Event>, e: Event, s: System, after: System)
    requires AnswersOk(config, events, s) && LoadsGrow(s.loads, after.loads)
    ensures forall i :: 0 <= i < |s.answers| ==> AnswerOk(config, events + [e], after.loads, s.answers[i])
  {
    forall i | 0 <= i < |s.answers| ensures AnswerOk(config, events + [e], after.loads, s.answers[i]) {
      UncancelledStays(events, e, s.answers[i].candidates, s.loads[s.answers[i].load].start);
    }
  }

  lemma EndStaysRecorded(events: seq<Event>, e: Event, load: nat)
    requires HasEnd(events, load)
    ensures HasEnd(events + [e], load)
  {
    var j :| 0 <= j < |events| && events[j].LoadEnds? && events[j].load == load;
    assert (events + [e])[j] == events[j];
  }

  /** Events that neither start nor end a load leave the end records as they are. */
  lemma EndsStay(events: seq<Event>, e: Event, s: System, after: System)
    requires EndsOk(events, s) && !e.LoadEnds? && LoadsGrow(s.loads, after.loads)
    requires forall l :: l in after.loads && !after.loads[l].phase.Running? ==> l in s.loads && !s.loads[l].phase.Running?
    ensures EndsOk(events + [e], after)
  {
    hide HasEnd;
    var all := events + [e];
    assert forall j :: 0 <= j < |events| ==> all[j] == events[j];
    forall l | l in after.loads && !after.loads[l].phase.Running? ensures HasEnd(all, l) {
      EndStaysRecorded(events, e, l);
    }
  }

  // ----- Lookups ----------------------------------------------------------------------

  /** What a lookup takes from the cache is as the answer or the copy must be. */
  lemma CachedCopyOk(config: CacheConfig, events: seq<Event>, s: System, e: Event)
    requires Inv(config, events, s) && e.Lookup? && e.candidates in s.cache.entries
    ensures var copy := CachedCopy(s, e.candidates);
            var entry := s.cache.entries[e.candidates];
            && Gave(s.loads, copy.load, e.candidates, copy.hits)
            && Uncancelled(events, e.candidates, s.loads[copy.load].start, |events|)
            && entry.expires <= s.loads[copy.load].phase.at + Lifetime(copy.hits, config)
            && (e.now < entry.staleUntil ==> CopyOk(config, events, s.loads, e.candidates, |events|, e.now, copy))
  {
    assert EntryOk(config, events, s.loads, s.origins, e.candidates, s.cache.entries[e.candidates]);
  }

  lemma StartedCount(loads: map<nat, Load>, id: nat, load: Load)
    requires id !in loads && load.phase.Running?
    ensures |Unfinished(loads[id := load])| == |Unfinished(loads)| + 1
  {
    assert Unfinished(loads[id := load]) == Unfinished(loads) + {id};
  }

  lemma EndedCount(loads: map<nat, Load>, id: nat, load: Load)
    requires id in loads && loads[id].phase.Running? && !load.phase.Running?
    ensures |Unfinished(loads[id := load])| == |Unfinished(loads)| - 1
  {
    assert Unfinished(loads[id := load]) == Unfinished(loads) - {id};
  }

  lemma SlotsStay(events: seq<Event>, e: Event, s: System, after: System)
    requires SlotsOk(events, s) && LoadsGrow(s.loads, after.loads)
    requires forall c :: c in after.cache.inflight ==>
               && c in s.cache.inflight && after.cache.inflight[c] == s.cache.inflight[c] && !Cancels(e, c)
               && (s.cache.inflight[c] in s.loads ==> after.loads[s.cache.inflight[c]].phase == s.loads[s.cache.inflight[c]].phase)
    ensures SlotsOk(events + [e], after)
  {
    forall c | c in after.cache.inflight ensures SlotOk(events + [e], after, c) {
      assert SlotOk(events, s, c);
      UncancelledStays(events, e, c, s.loads[s.cache.inflight[c]].start);
    }
  }

  lemma LoadsStay(events: seq<Event>, e: Event, s: System, after: System)
    requires LoadsOk(events, s) && s.cache.nextId <= after.cache.nextId && LoadsGrow(s.loads, after.loads)
    requires after.loads.Keys == s.loads.Keys
    ensures LoadsOk(events + [e], after)
  {
    assert forall l :: l in s.loads ==> (events + [e])[s.loads[l].start] == events[s.loads[l].start];
  }

  lemma EntriesStay(config: CacheConfig, events: seq<Event>, e: Event, s: System, after: System)
    requires EntriesOk(config, events, s) && LoadsGrow(s.loads, after.loads)
    requires after.origins == s.origins && s.cache.nextId <= after.cache.nextId
    requires forall c :: c in after.cache.entries ==>
               c in s.cache.entries && after.cache.entries[c] == s.cache.entries[c] && !Cancels(e, c)
    ensures EntriesOk(config, events + [e], after)
  {
    hide Uncancelled, Gave;
    forall c | c in after.cache.entries
      ensures EntryOk(config, events + [e], after.loads, after.origins, c, after.cache.entries[c])
    {
      assert EntryOk(config, events, s.loads, s.origins, c, s.cache.entries[c]);
      EntryStays(config, events, e, s, after, c, s.cache.entries[c]);
    }
  }

  /** The parts of the invariant about cache and loads when an event changes neither but in a result's whereabouts. */
  lemma QuietStep(config: CacheConfig, events: seq<Event>, e: Event, s: System, after: System)
    requires Inv(config, events, s) && LoadsGrow(s.loads, after.loads)
    requires !e.LoadEnds? && forall c :: !Cancels(e, c)
    requires after.cache == s.cache && after.origins == s.origins && after.loads.Keys == s.loads.Keys
    requires forall l :: l in s.loads ==> (after.loads[l].phase.Running? <==> s.loads[l].phase.Running?)
    ensures StateOk(after.cache, config)
    ensures LoadsOk(events + [e], after) && CountOk(config, after) && SlotsOk(events + [e], after)
    ensures EntriesOk(config, events + [e], after) && EndsOk(events + [e], after)
  {
    hide EntryOk, WaitOk, AnswerOk, StateOk, Uncancelled;
    assert Unfinished(after.loads) == Unfinished(s.loads);
    EndsStay(events, e, s, after);
    LoadsStay(events, e, s, after);
    EntriesStay(config, events, e, s, after);
    SlotsStay(events, e, s, after);
  }

  lemma AppendAnswers(config: CacheConfig, events: seq<Event>, e: Event, s: System, after: System, extra: seq<Answer>)
    requires AnswersOk(config, events, s) && LoadsGrow(s.loads, after.loads)
    requires after.answers == s.answers + extra
    requires forall i :: 0 <= i < |extra| ==> AnswerOk(config, events + [e], after.loads, extra[i])
    ensures AnswersOk(config, events + [e], after)
  {
    hide AnswerOk, LoadsGrow;
    AnswersStay(config, events, e, s, after);
  }

  // ----- Lookups answered at once ------------------------------------------------------

  lemma ServedShape(s: System, e: Event, at: nat, config: CacheConfig) returns (extra: seq<Answer>)
    requires e.Lookup? && Enabled(s, e)
    requires var begun := BeginLookup(s.cache, e.candidates, e.now, config).1; begun.Hit? || begun.Shed?
    ensures Apply(s, e, at, config) == s.(answers := s.answers + extra)
    ensures extra != [] ==>
            && e.candidates in s.cache.entries
            && var entry := s.cache.entries[e.candidates];
               var copy := CachedCopy(s, e.candidates);
               || (e.now < entry.expires && extra == [AnswerWith(e.candidates, at, e.now, FromCache, copy)])
               || (e.now < entry.staleUntil && extra == [AnswerWith(e.candidates, at, e.now, FromStale, copy)])
  {
    var after := Apply(s, e, at, config);
    extra := after.answers[|s.answers|..];
    assert s.answers + [] == s.answers;
  }

  lemma ServedAnswerOk(config: CacheConfig, events: seq<Event>, s: System, e: Event, source: Source)
    requires Inv(config, events, s) && e.Lookup? && e.candidates in s.cache.entries
    requires source == FromCache ==> e.now < s.cache.entries[e.candidates].expires
    requires source == FromStale ==> e.now < s.cache.entries[e.candidates].staleUntil
    requires source != FromLoad
    ensures AnswerOk(config, events + [e], s.loads,
                     AnswerWith(e.candidates, |events|, e.now, source, CachedCopy(s, e.candidates)))
  {
    hide Inv;
    CachedCopyOk(config, events, s, e);
    UncancelledStays(events, e, e.candidates, s.loads[CachedCopy(s, e.candidates).load].start);
  }

  lemma ServedLookup(config: CacheConfig, events: seq<Event>, s: System, e: Event)
    requires Inv(config, events, s) && e.Lookup? && Enabled(s, e)
    requires var begun := BeginLookup(s.cache, e.candidates, e.now, config).1; begun.Hit? || begun.Shed?
    ensures Inv(config, events + [e], Apply(s, e, |events|, config))
  {
    hide Apply, BeginLookup, StateOk, LoadsOk, CountOk, SlotsOk, EntriesOk, EndsOk, WaitOk, AnswerOk, Uncancelled;
    var extra := ServedShape(s, e, |events|, config);
    var after := Apply(s, e, |events|, config);
    QuietStep(config, events, e, s, after);
    WaitsStay(config, events, e, s, after);
    if extra != [] {
      ServedAnswerOk(config, events, s, e, extra[0].source);
    }
    AppendAnswers(config, events, e, s, after, extra);
  }

  // ----- Lookups that wait -----------------------------------------------------------------

  function StaleFor(s: System, e: Event): Option<Copy>
    requires e.Lookup?
  {
    if StaleCopy(s.cache, e.candidates, e.now).Some? then Some(CachedCopy(s, e.candidates)) else None
  }

  lemma NewWaitOk(config: CacheConfig, events: seq<Event>, s: System, e: Event, loads: map<nat, Load>, load: nat)
    requires Inv(config, events, s) && e.Lookup? && LoadsGrow(s.loads, loads)
    requires load in loads && loads[load].candidates == e.candidates
    requires Uncancelled(events, e.candidates, loads[load].start, |events|)
    ensures WaitOk(config, events + [e], loads, Wait(e.candidates, load, StaleFor(s, e), |events|, e.now))
  {
    hide Inv;
    UncancelledStays(events, e, e.candidates, loads[load].start);
    if StaleFor(s, e).Some? {
      CachedCopyOk(config, events, s, e);
      CopyStays(config, events, e, s.loads, loads, e.candidates, |events|, e.now, StaleFor(s, e).value);
    }
  }

  lemma JoinedLookup(config: CacheConfig, events: seq<Event>, s: System, e: Event)
    requires Inv(config, events, s) && e.Lookup? && Enabled(s, e)
    requires BeginLookup(s.cache, e.candidates, e.now, config).1.Joined?
    ensures Inv(config, events + [e], Apply(s, e, |events|, config))
  {
    hide StateOk, LoadsOk, CountOk, EntriesOk, EndsOk, WaitOk, AnswerOk, Uncancelled, StaleCopy;
    var after := Apply(s, e, |events|, config);
    var load := s.cache.inflight[e.candidates];
    assert SlotOk(events, s, e.candidates);
    assert after == s.(waits := s.waits[e.lookup := Wait(e.candidates, load, StaleFor(s, e), |events|, e.now)]);
    QuietStep(config, events, e, s, after);
    WaitsStay(config, events, e, s, after);
    AppendAnswers(config, events, e, s, after, []);
    NewWaitOk(config, events, s, e, s.loads, load);
  }

  /** A started load takes a new id, a slot and a place in the count. */
  lemma StartedShape(s: System, e: Event, at: nat, config: CacheConfig)
    requires e.Lookup? && Enabled(s, e)
    requires BeginLookup(s.cache, e.candidates, e.now, config).1.Started?
    ensures var id := s.cache.nextId;
            var after := Apply(s, e, at, config);
            && after.cache == s.cache.(nextId := id + 1, runningLoads := s.cache.runningLoads + 1,
                                       inflight := s.cache.inflight[e.candidates := id])
            && after == s.(cache := after.cache,
                           loads := s.loads[id := Load(e.candidates, at, Running)],
                           waits := s.waits[e.lookup := Wait(e.candidates, id, StaleFor(s, e), at, e.now)])
            && s.cache.runningLoads < config.maxInflightLoads
  {
  }

  lemma StartedLoads(config: CacheConfig, events: seq<Event>, s: System, e: Event, after: System)
    requires Inv(config, events, s) && e.Lookup?
    requires var id := s.cache.nextId;
             && after.cache == s.cache.(nextId := id + 1, runningLoads := s.cache.runningLoads + 1,
                                        inflight := s.cache.inflight[e.candidates := id])
             && after.loads == s.loads[id := Load(e.candidates, |events|, Running)]
             && s.cache.runningLoads < config.maxInflightLoads
    ensures s.cache.nextId !in s.loads && LoadsGrow(s.loads, after.loads)
    ensures LoadsOk(events + [e], after) && CountOk(config, after) && SlotsOk(events + [e], after)
  {
    hide EntriesOk, WaitsOk, AnswersOk, EndsOk, StateOk, Uncancelled;
    var all := events + [e];
    var id := s.cache.nextId;
    StartedCount(s.loads, id, Load(e.candidates, |events|, Running));
    assert forall l :: l in s.loads ==> all[s.loads[l].start] == events[s.loads[l].start];
    assert all[|events|] == e;
    forall c | c in after.cache.inflight ensures SlotOk(all, after, c) {
      if c != e.candidates {
        assert SlotOk(events, s, c);
        UncancelledStays(events, e, c, s.loads[s.cache.inflight[c]].start);
      } else {
        NothingCancelsBefore(events, c);
        UncancelledStays(events, e, c, |events|);
      }
    }
  }

  lemma NothingCancelsBefore(events: seq<Event>, candidates: RouteCandidates)
    ensures Uncancelled(events, candidates, |events|, |events|)
  {
  }

  lemma StartedKeeps(config: CacheConfig, events: seq<Event>, s: System, e: Event, after: System)
    requires Inv(config, events, s) && e.Lookup?
    requires var id := s.cache.nextId;
             && after.cache == s.cache.(nextId := id + 1, runningLoads := s.cache.runningLoads + 1,
                                        inflight := s.cache.inflight[e.candidates := id])
             && after == s.(cache := after.cache,
                            loads := s.loads[id := Load(e.candidates, |events|, Running)],
                            waits := s.waits[e.lookup := Wait(e.candidates, id, StaleFor(s, e), |events|, e.now)])
             && s.cache.runningLoads < config.maxInflightLoads
    requires StateOk(after.cache, config)
    ensures Inv(config, events + [e], after)
  {
    hide StateOk, LoadsOk, CountOk, SlotsOk, EntryOk, EndsOk, WaitOk, AnswerOk, Uncancelled, StaleCopy, StaleFor;
    StartedLoads(config, events, s, e, after);
    EndsStay(events, e, s, after);
    EntriesStay(config, events, e, s, after);
    WaitsStay(config, events, e, s, after);
    AppendAnswers(config, events, e, s, after, []);
    NothingCancelsBefore(events, e.candidates);
    NewWaitOk(config, events, s, e, after.loads, s.cache.nextId);
  }

  lemma StartedLookup(config: CacheConfig, events: seq<Event>, s: System, e: Event)
    requires Inv(config, events, s) && e.Lookup? && Enabled(s, e)
    requires BeginLookup(s.cache, e.candidates, e.now, config).1.Started?
    ensures Inv(config, events + [e], Apply(s, e, |events|, config))
  {
    assert StateOk(s.cache, config);
    hide Inv, StateOk;
    BeginKeeps(s.cache, e.candidates, e.now, config);
    StartedShape(s, e, |events|, config);
    StartedKeeps(config, events, s, e, Apply(s, e, |events|, config));
  }

  // ----- Load ends ----------------------------------------------------------------------

  lemma EndNamesLoad(events: seq<Event>, s: System, e: Event, after: map<nat, Load>)
    requires LoadsOk(events, s) && EndsNameLoads(events, s.loads) && e.LoadEnds?
    requires e.load in s.loads && s.loads[e.load].phase.Running?
    requires after == s.loads[e.load := s.loads[e.load].(phase := Settled(e.result, e.now))]
    ensures EndsNameLoads(events + [e], after)
  {
    var all := events + [e];
    forall j | 0 <= j < |all| && all[j].LoadEnds?
      ensures && all[j].load in after && after[all[j].load].start < j && !after[all[j].load].phase.Running?
              && after[all[j].load].phase.result == all[j].result && after[all[j].load].phase.at == all[j].now
    {
      assert j < |events| ==> all[j] == events[j];
    }
  }

  lemma EndDiffers(events: seq<Event>, s: System, e: Event)
    requires EndsNameLoads(events, s.loads) && EndsDiffer(events) && e.LoadEnds?
    requires e.load in s.loads && s.loads[e.load].phase.Running?
    ensures EndsDiffer(events + [e])
  {
    assert forall j :: 0 <= j < |events| ==> (events + [e])[j] == events[j];
  }

  lemma EndRecorded(events: seq<Event>, s: System, e: Event, after: System)
    requires LoadsOk(events, s) && EndsOk(events, s) && e.LoadEnds?
    requires e.load in s.loads && s.loads[e.load].phase.Running?
    requires after.loads == s.loads[e.load := s.loads[e.load].(phase := Settled(e.result, e.now))]
    ensures EndsOk(events + [e], after)
  {
    EndNamesLoad(events, s, e, after.loads);
    EndDiffers(events, s, e);
    hide LoadsOk, EndsNameLoads, EndsDiffer;
    var all := events + [e];
    forall l | l in after.loads && !after.loads[l].phase.Running? ensures HasEnd(all, l) {
      if l == e.load {
        assert all[|events|] == e;
      } else {
        EndStaysRecorded(events, e, l);
      }
    }
  }

  lemma NewEntryOk(config: CacheConfig, events: seq<Event>, s: System, e: Event, loads: map<nat, Load>, origins: map<nat, nat>)
    requires SlotsOk(events, s) && e.LoadEnds? && e.load in s.loads
    requires Stores(s.cache, s.loads[e.load].candidates, e.load, e.result, config)
    requires loads == s.loads[e.load := s.loads[e.load].(phase := Settled(e.result, e.now))]
    requires origins == s.origins[s.cache.nextId := e.load]
    ensures EntryOk(config, events + [e], loads, origins, s.loads[e.load].candidates,
                    NewEntry(e.result.value, s.cache.nextId, e.now, e.unit, config))
  {
    hide Jittered;
    var candidates := s.loads[e.load].candidates;
    assert SlotOk(events, s, candidates);
    UncancelledStays(events, e, candidates, s.loads[e.load].start);
    JitterBounds(config.ttl, e.unit, config);
  }

  lemma EndedEntries(config: CacheConfig, events: seq<Event>, s: System, e: Event, after: System)
    requires Inv(config, events, s) && e.LoadEnds? && Enabled(s, e)
    requires after == Apply(s, e, |events|, config)
    ensures EntriesOk(config, events + [e], after)
  {
    hide Settle, NewEntry, StateOk, LoadsOk, CountOk, WaitsOk, AnswersOk, EndsOk, Uncancelled, Gave;
    var candidates := s.loads[e.load].candidates;
    SettledEntries(s.cache, candidates, e.load, e.result, e.now, e.unit, config);
    forall c | c in after.cache.entries
      ensures EntryOk(config, events + [e], after.loads, after.origins, c, after.cache.entries[c])
    {
      if c in s.cache.entries && after.cache.entries[c] == s.cache.entries[c] {
        assert EntryOk(config, events, s.loads, s.origins, c, s.cache.entries[c]);
        EntryStays(config, events, e, s, after, c, s.cache.entries[c]);
      } else {
        NewEntryOk(config, events, s, e, after.loads, after.origins);
      }
    }
  }

  lemma EndedSlots(config: CacheConfig, events: seq<Event>, s: System, e: Event, after: System)
    requires Inv(config, events, s) && e.LoadEnds? && Enabled(s, e)
    requires after == Apply(s, e, |events|, config)
    ensures SlotsOk(events + [e], after) && CountOk(config, after) && LoadsOk(events + [e], after)
  {
    hide Settle, NewEntry, StateOk, EntriesOk, WaitsOk, AnswersOk, EndsOk, Uncancelled;
    var candidates := s.loads[e.load].candidates;
    SettledEntries(s.cache, candidates, e.load, e.result, e.now, e.unit, config);
    SettledSlots(s.cache, candidates, e.load, e.result, e.now, e.unit, config);
    EndedCount(s.loads, e.load, after.loads[e.load]);
    LoadsStay(events, e, s, after);
    forall c | c in after.cache.inflight
      ensures && c in s.cache.inflight && after.cache.inflight[c] == s.cache.inflight[c]
              && after.loads[s.cache.inflight[c]].phase == s.loads[s.cache.inflight[c]].phase
    {
      assert SlotOk(events, s, c);
    }
    SlotsStay(events, e, s, after);
  }

  lemma LoadEnded(config: CacheConfig, events: seq<Event>, s: System, e: Event)
    requires Inv(config, events, s) && e.LoadEnds? && Enabled(s, e)
    ensures Inv(config, events + [e], Apply(s, e, |events|, config))
  {
    hide Settle, StateOk, EndsOk, SlotsOk, LoadsOk, CountOk, EntriesOk, WaitOk, AnswerOk;
    var after := Apply(s, e, |events|, config);
    var candidates := s.loads[e.load].candidates;
    SettleKeeps(s.cache, candidates, e.load, e.result, e.now, e.unit, config);
    EndedEntries(config, events, s, e, after);
    EndedSlots(config, events, s, e, after);
    EndRecorded(events, s, e, after);
    WaitsStay(config, events, e, s, after);
    AppendAnswers(config, events, e, s, after, []);
  }

  // ----- The other events -------------------------------------------------------------------

  lemma Cancelled(config: CacheConfig, events: seq<Event>, s: System, e: Event)
    requires Enabled(s, e) && (e.Invalidate? || e.Clear?) && Inv(config, events, s)
    ensures Inv(config, events + [e], Apply(s, e, |events|, config))
  {
    hide StateOk, EndsOk, EntryOk, WaitOk, AnswerOk, SlotOk, Uncancelled;
    if e.Invalidate? {
      InvalidateKeeps(s.cache, e.key, config);
    } else {
      ClearKeeps(s.cache, config);
    }
    var after := Apply(s, e, |events|, config);
    assert e.Invalidate? ==> forall c :: c in after.cache.entries ==> c !in Answering(s.cache.entries, e.key);
    EndsStay(events, e, s, after);
    LoadsStay(events, e, s, after);
    EntriesStay(config, events, e, s, after);
    SlotsStay(events, e, s, after);
    WaitsStay(config, events, e, s, after);
    AppendAnswers(config, events, e, s, after, []);
  }

  lemma ClearKeeps(cache: State, config: CacheConfig)
    ensures StateOk(ClearAll(cache), config)
  {
  }

  lemma DeliveredOk(config: CacheConfig, events: seq<Event>, s: System, e: Event)
    requires WaitsOk(config, events, s) && e.Deliver? && Enabled(s, e)
    ensures var extra := Delivered(s, s.waits[e.lookup]);
            forall i :: 0 <= i < |extra| ==> AnswerOk(config, events + [e], s.loads, extra[i])
  {
    var wait := s.waits[e.lookup];
    assert WaitOk(config, events, s.loads, wait);
    UncancelledStays(events, e, wait.candidates, s.loads[wait.load].start);
    if wait.stale.Some? {
      UncancelledStays(events, e, wait.candidates, s.loads[wait.stale.value.load].start);
    }
  }

  lemma Communicated(config: CacheConfig, events: seq<Event>, s: System, e: Event)
    requires Inv(config, events, s) && Enabled(s, e) && (e.Publish? || e.Deliver? || e.Abandon?)
    ensures Inv(config, events + [e], Apply(s, e, |events|, config))
  {
    hide StateOk, LoadsOk, CountOk, SlotsOk, EntriesOk, EndsOk, WaitOk, AnswerOk, Delivered;
    var after := Apply(s, e, |events|, config);
    QuietStep(config, events, e, s, after);
    WaitsStay(config, events, e, s, after);
    if e.Deliver? {
      DeliveredOk(config, events, s, e);
      AppendAnswers(config, events, e, s, after, Delivered(s, s.waits[e.lookup]));
    } else {
      AppendAnswers(config, events, e, s, after, []);
    }
  }

  lemma StepKeeps(config: CacheConfig, events: seq<Event>, s: System, e: Event)
    requires Inv(config, events, s) && Enabled(s, e)
    ensures Inv(config, events + [e], Apply(s, e, |events|, config))
  {
    match e {
      case Lookup(_, candidates, now) =>
        match BeginLookup(s.cache, candidates, now, config).1 {
          case Hit(_) => ServedLookup(config, events, s, e);
          case Shed(_) => ServedLookup(config, events, s, e);
          case Joined(_, _) => JoinedLookup(config, events, s, e);
          case Started(_, _) => StartedLookup(config, events, s, e);
        }
      case LoadEnds(_, _, _, _) => LoadEnded(config, events, s, e);
      case Publish(_) => Communicated(config, events, s, e);
      case Deliver(_) => Communicated(config, events, s, e);
      case Abandon(_) => Communicated(config, events, s, e);
      case Invalidate(_) => Cancelled(config, events, s, e);
      case Clear => Cancelled(config, events, s, e);
    }
  }

  /** Every state of every run satisfies the invariant. */
  lemma {:induction false} RunsKeep(config: CacheConfig, events: seq<Event>)
    requires Run(config, events).Some?
    ensures Inv(config, events, Run(config, events).value)
  {
    hide Inv, Apply, Enabled;
    if events == [] {
      InitialOk(config);
    } else {
      var n := |events| - 1;
      RunsKeep(config, events[..n]);
      StepKeeps(config, events[..n], Run(config, events[..n]).value, events[n]);
      assert events == events[..n] + [events[n]];
    }
  }

  lemma InitialOk(config: CacheConfig)
    ensures Inv(config, [], INITIAL)
  {
    assert Unfinished(INITIAL.loads) == {};
  }
}
