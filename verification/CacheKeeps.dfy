/** What every locked region of the route cache keeps, and what eviction and storing do. */
module CacheKeeps {
  import opened Names
  import opened Routing
  import opened CacheState

  ghost predicate IsOldest(entries: map<RouteCandidates, Entry>, oldest: RouteCandidates) {
    oldest in entries && forall c :: c in entries && c != oldest ==> entries[oldest].id < entries[c].id
  }

  /** Dropping entries keeps the queue's structure; only their records become superseded. */
  lemma DroppingKeepsRecorded(entries: map<RouteCandidates, Entry>, gone: set<RouteCandidates>,
                              order: seq<(RouteCandidates, nat)>)
    requires Recorded(entries, order)
    ensures Recorded(entries - gone, order)
  {
    assert forall c :: c in entries - gone ==> c in entries && (entries - gone)[c] == entries[c];
  }

  lemma OneGoneIsOldest(entries: map<RouteCandidates, Entry>, left: map<RouteCandidates, Entry>)
    requires OldestGone(entries, left) && |left| == |entries| - 1
    ensures exists oldest :: IsOldest(entries, oldest) && left == entries - {oldest}
  {
    assert left.Keys <= entries.Keys;
    assert |left.Keys| == |left| && |entries.Keys| == |entries|;
    var gone := entries.Keys - left.Keys;
    assert |gone| == 1;
    var oldest :| oldest in gone;
    assert |gone - {oldest}| == 0;
    assert gone == {oldest};
    assert left == entries - {oldest};
    assert IsOldest(entries, oldest);
  }

  lemma FullEvictsOldest(entries: map<RouteCandidates, Entry>, order: seq<(RouteCandidates, nat)>)
    requires Recorded(entries, order) && entries != map[]
    ensures exists oldest :: IsOldest(entries, oldest) && Evict(entries, order, |entries|).0 == entries - {oldest}
  {
    assert |entries.Keys| == |entries| && entries.Keys != {};
    EvictFreesOneSlot(entries, order, |entries|);
    OneGoneIsOldest(entries, Evict(entries, order, |entries|).0);
  }

  /**
   Making room: nothing happens while there is room; a due purge that finds dead entries
   drops exactly those; otherwise exactly the oldest entry goes, whatever superseded
   records stand in front of its own.
   */
  lemma MakeRoomDrops(state: State, now: Time, config: CacheConfig)
    requires StateOk(state, config) && config.maxEntries > 0
    ensures var after := MakeRoom(state, now, config);
            var dead := Dead(state.entries, now);
            if |state.entries| < config.maxEntries then after == state
            else if PurgeDue(state, now, config) && dead != {} then after.entries == state.entries - dead
            else exists oldest :: IsOldest(state.entries, oldest) && after.entries == state.entries - {oldest}
  {
    hide Recorded, IsOldest, Evict;
    if |state.entries| >= config.maxEntries {
      var dead := Dead(state.entries, now);
      FewerEntries(state.entries, dead);
      if PurgeDue(state, now, config) && dead != {} {
        assert dead * state.entries.Keys == dead;
        EvictWithRoom(state.entries - dead, state.order, config.maxEntries);
      } else {
        assert dead == {} ==> state.entries - dead == state.entries;
        assert Purge(state, now, config).entries == state.entries;
        FullEvictsOldest(state.entries, state.order);
      }
    }
  }

  lemma EvictWithRoom(entries: map<RouteCandidates, Entry>, order: seq<(RouteCandidates, nat)>, max: nat)
    requires |entries| < max
    ensures Evict(entries, order, max) == (entries, order)
  {
  }

  /** Making room keeps the queue's structure and leaves a slot. */
  lemma MakeRoomKeeps(state: State, now: Time, config: CacheConfig)
    requires StateOk(state, config) && config.maxEntries > 0
    ensures var after := MakeRoom(state, now, config);
            && Recorded(after.entries, after.order) && |after.entries| < config.maxEntries
            && |after.order| <= |state.order| && after.order == state.order[|state.order| - |after.order|..]
            && after.inflight == state.inflight && after.runningLoads == state.runningLoads
            && after.nextId == state.nextId
  {
    hide Recorded, OldestGone, Evict, PurgeDue, Dead;
    if |state.entries| >= config.maxEntries {
      DroppingKeepsRecorded(state.entries, Dead(state.entries, now), state.order);
      EvictFreesOneSlot(Purge(state, now, config).entries, state.order, config.maxEntries);
    }
  }

  lemma AppendKeepsRecorded(entries: map<RouteCandidates, Entry>, order: seq<(RouteCandidates, nat)>,
                            candidates: RouteCandidates, entry: Entry)
    requires Recorded(entries, order)
    requires forall i :: 0 <= i < |order| ==> order[i].1 < entry.id
    ensures Recorded(entries[candidates := entry], order + [(candidates, entry.id)])
  {
    var all := order + [(candidates, entry.id)];
    assert all[|order|] == (candidates, entry.id);
    forall c | c in entries && c != candidates ensures (c, entries[c].id) in all {
      assert (c, entries[c].id) in order;
    }
  }

  lemma CompactKeepsRecorded(entries: map<RouteCandidates, Entry>, order: seq<(RouteCandidates, nat)>)
    requires Recorded(entries, order)
    ensures Recorded(entries, LiveRecords(order, entries))
    ensures |LiveRecords(order, entries)| <= |entries|
    ensures forall r :: r in LiveRecords(order, entries) ==> r in order
  {
    LiveRecordsKeep(order, entries);
    var live := LiveRecords(order, entries);
    assert forall i :: 0 <= i < |live| ==> live[i] in live;
    LiveRecordsFew(live, entries);
  }

  lemma StoreKeeps(state: State, candidates: RouteCandidates, entry: Entry, config: CacheConfig)
    requires Recorded(state.entries, state.order)
    requires forall i :: 0 <= i < |state.order| ==> state.order[i].1 < entry.id
    requires forall c :: c in state.inflight ==> state.inflight[c] < state.nextId
    requires entry.id < state.nextId
    requires candidates in state.entries || |state.entries| < config.maxEntries
    requires |state.entries| <= config.maxEntries && |state.order| <= 2 * config.maxEntries
    ensures StateOk(Store(state, candidates, entry, config), config)
  {
    hide Recorded, LiveRecords;
    var entries := state.entries[candidates := entry];
    var order := state.order + [(candidates, entry.id)];
    AppendKeepsRecorded(state.entries, state.order, candidates, entry);
    CompactKeepsRecorded(entries, order);
    assert entries.Keys == state.entries.Keys + {candidates};
    assert |entries.Keys| == |entries| && |state.entries.Keys| == |state.entries|;
    if candidates in state.entries {
      assert entries.Keys == state.entries.Keys;
    }
    assert forall r :: r in order ==> r.1 <= entry.id;
  }

  lemma InsertKeeps(state: State, candidates: RouteCandidates, hits: RouteHits, now: Time, unit: Unit,
                    config: CacheConfig)
    requires StateOk(state, config) && config.maxEntries > 0
    ensures StateOk(Insert(state, candidates, hits, now, unit, config), config)
  {
    hide Recorded, Store, MakeRoom;
    var counted := state.(nextId := state.nextId + 1);
    MakeRoomKeeps(counted, now, config);
    var roomy := if candidates in state.entries then counted else MakeRoom(counted, now, config);
    assert forall i :: 0 <= i < |roomy.order| ==> roomy.order[i] in state.order;
    StoreKeeps(roomy, candidates, NewEntry(hits, state.nextId, now, unit, config), config);
  }

  /** Storing puts in exactly the new entry and changes no other entry but by making room. */
  lemma InsertStores(state: State, candidates: RouteCandidates, hits: RouteHits, now: Time, unit: Unit,
                     config: CacheConfig)
    requires StateOk(state, config) && config.maxEntries > 0
    ensures var after := Insert(state, candidates, hits, now, unit, config);
            && after.entries == (if candidates in state.entries then state else MakeRoom(state, now, config))
                                .entries[candidates := NewEntry(hits, state.nextId, now, unit, config)]
            && after.nextId == state.nextId + 1
            && after.inflight == state.inflight && after.runningLoads == state.runningLoads
  {
    hide Recorded, Evict;
    var counted := state.(nextId := state.nextId + 1);
    MakeRoomKeeps(counted, now, config);
  }

  // ----- Every locked region --------------------------------------------------------

  lemma BeginKeeps(state: State, candidates: RouteCandidates, now: Time, config: CacheConfig)
    requires StateOk(state, config)
    ensures StateOk(BeginLookup(state, candidates, now, config).0, config)
  {
  }

  lemma SettleKeeps(state: State, candidates: RouteCandidates, load: nat, result: LoadResult, now: Time, unit: Unit,
                    config: CacheConfig)
    requires StateOk(state, config)
    ensures StateOk(Settle(state, candidates, load, result, now, unit, config), config)
  {
    hide Insert, Recorded;
    var ended := Released(state, candidates, load);
    assert StateOk(ended, config);
    if result.Success? && OwnsSlot(state, candidates, load) {
      if config.maxEntries > 0 {
        InsertKeeps(ended, candidates, result.value, now, unit, config);
      } else {
        NoRoomNoInsert(ended, candidates, result.value, now, unit, config);
      }
    }
    DroppingKeepsRecorded(state.entries, {candidates}, state.order);
    FewerEntries(state.entries, {candidates});
  }

  lemma NoRoomNoInsert(state: State, candidates: RouteCandidates, hits: RouteHits, now: Time, unit: Unit,
                       config: CacheConfig)
    requires config.maxEntries == 0
    ensures Insert(state, candidates, hits, now, unit, config) == state
  {
  }

  lemma InsertTouches(state: State, candidates: RouteCandidates, hits: RouteHits, now: Time, unit: Unit,
                      config: CacheConfig)
    ensures var after := Insert(state, candidates, hits, now, unit, config);
            after.inflight == state.inflight && after.runningLoads == state.runningLoads
  {
    hide Evict, LiveRecords;
  }

  lemma InvalidateKeeps(state: State, key: RouteKey, config: CacheConfig)
    requires StateOk(state, config)
    ensures StateOk(InvalidateKey(state, key), config)
  {
    DroppingKeepsRecorded(state.entries, Answering(state.entries, key), state.order);
    FewerEntries(state.entries, Answering(state.entries, key));
  }

  predicate Stores(state: State, candidates: RouteCandidates, load: nat, result: LoadResult, config: CacheConfig) {
    result.Success? && OwnsSlot(state, candidates, load) && config.maxEntries > 0
  }

  /** Ending a load always gives up its slot, and no other. */
  lemma SettledSlots(state: State, candidates: RouteCandidates, load: nat, result: LoadResult, now: Time, unit: Unit,
                     config: CacheConfig)
    ensures var after := Settle(state, candidates, load, result, now, unit, config);
            && after.inflight == Released(state, candidates, load).inflight
            && after.runningLoads == state.runningLoads - 1
  {
    hide Insert;
    if result.Success? {
      InsertTouches(Released(state, candidates, load), candidates, result.value, now, unit, config);
    }
  }

  /** What ending a load leaves cached: old entries, and the new one if the load still owned its slot. */
  lemma SettledEntries(state: State, candidates: RouteCandidates, load: nat, result: LoadResult, now: Time, unit: Unit,
                       config: CacheConfig)
    requires StateOk(state, config)
    ensures var after := Settle(state, candidates, load, result, now, unit, config);
            && (forall c :: c in after.entries ==>
                  || (c in state.entries && after.entries[c] == state.entries[c])
                  || (c == candidates && Stores(state, candidates, load, result, config)
                      && after.entries[c] == NewEntry(result.value, state.nextId, now, unit, config)))
            && after.nextId == state.nextId + (if Stores(state, candidates, load, result, config) then 1 else 0)
  {
    hide Recorded, Insert, MakeRoom;
    var ended := Released(state, candidates, load);
    if Stores(state, candidates, load, result, config) {
      InsertStores(ended, candidates, result.value, now, unit, config);
      MakeRoomDrops(ended, now, config);
    } else if result.Success? && OwnsSlot(state, candidates, load) {
      NoRoomNoInsert(ended, candidates, result.value, now, unit, config);
    }
  }

  /**
   A failed load stores nothing and removes nothing still inside its stale window; so
   does a load whose slot was taken away, even when it succeeds.
   */
  lemma OnlyOwnersStore(state: State, candidates: RouteCandidates, load: nat, result: LoadResult, now: Time,
                        unit: Unit, config: CacheConfig)
    requires result.Failure? || !OwnsSlot(state, candidates, load)
    ensures var after := Settle(state, candidates, load, result, now, unit, config).entries;
            && (forall c :: c in after ==> c in state.entries && after[c] == state.entries[c])
            && (forall c :: c in state.entries && (now < state.entries[c].staleUntil || c != candidates || result.Success?)
                  ==> c in after)
  {
  }

  // ----- Entry lifetimes --------------------------------------------------------------

  lemma Scale(a: real, low: real, x: real, high: real)
    requires a >= 0.0 && low <= x <= high
    ensures a * low <= a * x <= a * high
  {
  }

  /** The whole range is used, evenly: lifetimes are as far apart as the values they are derived from. */
  lemma JitterSpreads(ttl: Duration, unit: Unit, other: Unit, config: CacheConfig)
    ensures Jittered(ttl, config.Jitter(), 0.0) == ttl * (1.0 - config.Jitter())
    ensures Jittered(ttl, config.Jitter(), unit) - Jittered(ttl, config.Jitter(), other)
            == ttl * (2.0 * config.Jitter() * (unit - other))
  {
    var j := config.Jitter();
    assert ttl * (1.0 + j * (2.0 * unit - 1.0)) - ttl * (1.0 + j * (2.0 * other - 1.0))
           == ttl * ((1.0 + j * (2.0 * unit - 1.0)) - (1.0 + j * (2.0 * other - 1.0)));
  }

  /** A positive entry's lifetime is within `ttl` times one plus or minus the clamped jitter. */
  lemma JitterBounds(ttl: Duration, unit: Unit, config: CacheConfig)
    ensures 0.0 <= ttl * (1.0 - config.Jitter()) <= Jittered(ttl, config.Jitter(), unit) <= ttl * (1.0 + config.Jitter())
  {
    var j := config.Jitter();
    var swing := 2.0 * unit - 1.0;
    Scale(j, -1.0, swing, 1.0);
    Scale(ttl, 1.0 - j, 1.0 + j * swing, 1.0 + j);
    Scale(ttl, 0.0, 1.0 - j, 1.0 + j);
  }
}
