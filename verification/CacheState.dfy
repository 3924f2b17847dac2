/**
 The route cache's locked regions as functions on its state
 (crates/sni_router/src/cache.rs), and what each of them keeps.
 */
module CacheState {
  import opened Wrappers
  import opened Names
  import opened Routing

  type Time = real
  type Duration = d: real | d >= 0.0

  /** The uniform value in [0, 1) an entry's jitter is derived from. */
  type Unit = u: real | 0.0 <= u < 1.0

  datatype LookupError = LookupError(message: string)

  type LoadResult = Result<RouteHits, LookupError>

  const LOAD_ABORTED := LookupError("route load aborted before completing")

  datatype CacheConfig = CacheConfig(
    ttl: Duration,
    negativeTtl: Duration,
    jitter: real,
    maxEntries: nat,
    staleIfError: Option<Duration>,
    maxInflightLoads: nat)
  {
    function Jitter(): real {
      if jitter < 0.0 then 0.0 else if jitter > 1.0 then 1.0 else jitter
    }

    function StaleWindow(): Duration {
      if staleIfError.Some? then staleIfError.value else 0.0
    }
  }

  datatype Entry = Entry(hits: RouteHits, expires: Time, staleUntil: Time, id: nat)

  /** `inflight` maps candidates to the id of the load that owns their slot. */
  datatype State = State(
    entries: map<RouteCandidates, Entry>,
    order: seq<(RouteCandidates, nat)>,
    inflight: map<RouteCandidates, nat>,
    nextId: nat,
    runningLoads: int,
    lastPurge: Option<Time>)

  const EMPTY := State(map[], [], map[], 0, 0, None)

  /** How a lookup's locked region ends. */
  datatype Begun =
    | Hit(hits: RouteHits)
    | Joined(load: nat, stale: Option<RouteHits>)
    | Started(load: nat, stale: Option<RouteHits>)
    | Shed(stale: Option<RouteHits>)

  // ----- Lookups ----------------------------------------------------------------

  function StaleCopy(state: State, candidates: RouteCandidates, now: Time): Option<RouteHits> {
    if candidates in state.entries && now < state.entries[candidates].staleUntil
    then Some(state.entries[candidates].hits) else None
  }

  function BeginLookup(state: State, candidates: RouteCandidates, now: Time, config: CacheConfig): (State, Begun) {
    if candidates in state.entries && now < state.entries[candidates].expires then
      (state, Hit(state.entries[candidates].hits))
    else
      var stale := StaleCopy(state, candidates, now);
      if candidates in state.inflight then (state, Joined(state.inflight[candidates], stale))
      else if state.runningLoads >= config.maxInflightLoads then (state, Shed(stale))
      else
        var id := state.nextId;
        (state.(nextId := id + 1, runningLoads := state.runningLoads + 1,
                inflight := state.inflight[candidates := id]),
         Started(id, stale))
  }

  // ----- Making room ------------------------------------------------------------

  predicate IsLive(entries: map<RouteCandidates, Entry>, record: (RouteCandidates, nat)) {
    record.0 in entries && entries[record.0].id == record.1
  }

  function LiveRecords(order: seq<(RouteCandidates, nat)>, entries: map<RouteCandidates, Entry>)
    : seq<(RouteCandidates, nat)>
  {
    if order == [] then []
    else (if IsLive(entries, order[0]) then [order[0]] else []) + LiveRecords(order[1..], entries)
  }

  lemma NextRecord(order: seq<(RouteCandidates, nat)>, i: nat, entries: map<RouteCandidates, Entry>)
    requires i < |order|
    ensures LiveRecords(order[i..], entries) ==
            (if IsLive(entries, order[i]) then [order[i]] else []) + LiveRecords(order[i + 1..], entries)
  {
    assert order[i..][1..] == order[i + 1..];
  }

  /** Pops order records, dropping the entries they are live for, until there is room. */
  function Evict(entries: map<RouteCandidates, Entry>, order: seq<(RouteCandidates, nat)>, max: nat)
    : (map<RouteCandidates, Entry>, seq<(RouteCandidates, nat)>)
  {
    if |entries| < max || order == [] then (entries, order)
    else Evict(if IsLive(entries, order[0]) then entries - {order[0].0} else entries, order[1..], max)
  }

  function Elapsed(since: Time, now: Time): Duration {
    if now >= since then now - since else 0.0
  }

  predicate PurgeDue(state: State, now: Time, config: CacheConfig) {
    state.lastPurge.None? || Elapsed(state.lastPurge.value, now) >= config.negativeTtl
  }

  function Dead(entries: map<RouteCandidates, Entry>, now: Time): set<RouteCandidates> {
    set c | c in entries && now >= entries[c].staleUntil
  }

  /** The full scan for dead entries, when one is due. */
  function Purge(state: State, now: Time, config: CacheConfig): State {
    if PurgeDue(state, now, config)
    then state.(entries := state.entries - Dead(state.entries, now), lastPurge := Some(now))
    else state
  }

  function MakeRoom(state: State, now: Time, config: CacheConfig): State {
    if |state.entries| < config.maxEntries then state
    else
      var purged := Purge(state, now, config);
      var (entries, order) := Evict(purged.entries, purged.order, config.maxEntries);
      purged.(entries := entries, order := order)
  }

  // ----- Storing ------------------------------------------------------------------

  function Jittered(ttl: Duration, jitter: real, unit: Unit): real {
    ttl * (1.0 + jitter * (2.0 * unit - 1.0))
  }

  function TtlFor(hits: RouteHits, unit: Unit, config: CacheConfig): real {
    if hits == [] then config.negativeTtl else Jittered(config.ttl, config.Jitter(), unit)
  }

  function NewEntry(hits: RouteHits, id: nat, now: Time, unit: Unit, config: CacheConfig): Entry {
    var expires := now + TtlFor(hits, unit, config);
    Entry(hits, expires, expires + config.StaleWindow(), id)
  }

  /** Puts an entry and its order record in, compacting the queue when it has grown too long. */
  function Store(state: State, candidates: RouteCandidates, entry: Entry, config: CacheConfig): State {
    var entries := state.entries[candidates := entry];
    var order := state.order + [(candidates, entry.id)];
    state.(entries := entries,
           order := if |order| > 2 * config.maxEntries then LiveRecords(order, entries) else order)
  }

  function Insert(
    state: State, candidates: RouteCandidates, hits: RouteHits, now: Time, unit: Unit, config: CacheConfig): State
  {
    if config.maxEntries == 0 then state
    else
      var id := state.nextId;
      var counted := state.(nextId := id + 1);
      var roomy := if candidates in state.entries then counted else MakeRoom(counted, now, config);
      Store(roomy, candidates, NewEntry(hits, id, now, unit, config), config)
  }

  predicate OwnsSlot(state: State, candidates: RouteCandidates, load: nat) {
    candidates in state.inflight && state.inflight[candidates] == load
  }

  /** One load fewer, and its slot free if it still owned it. */
  function Released(state: State, candidates: RouteCandidates, load: nat): State {
    state.(
      runningLoads := state.runningLoads - 1,
      inflight := if OwnsSlot(state, candidates, load) then state.inflight - {candidates} else state.inflight)
  }

  /** The locked region that ends a load. */
  function Settle(
    state: State, candidates: RouteCandidates, load: nat, result: LoadResult, now: Time, unit: Unit,
    config: CacheConfig): State
  {
    var ended := Released(state, candidates, load);
    match result
    case Success(hits) =>
      if OwnsSlot(state, candidates, load) then Insert(ended, candidates, hits, now, unit, config) else ended
    case Failure(_) =>
      if candidates in ended.entries && now >= ended.entries[candidates].staleUntil
      then ended.(entries := ended.entries - {candidates})
      else ended
  }

  // ----- Invalidation ---------------------------------------------------------------

  function Answering(entries: map<RouteCandidates, Entry>, key: RouteKey): set<RouteCandidates> {
    set c | c in entries && c.Contains(key)
  }

  function InvalidateKey(state: State, key: RouteKey): State {
    state.(
      entries := state.entries - Answering(state.entries, key),
      inflight := map c | c in state.inflight && !c.Contains(key) :: state.inflight[c])
  }

  function ClearAll(state: State): State {
    state.(entries := map[], order := [], inflight := map[])
  }

  // ----- Structure ------------------------------------------------------------------

  ghost predicate Increasing(order: seq<(RouteCandidates, nat)>) {
    forall i, j :: 0 <= i < j < |order| ==> order[i].1 < order[j].1
  }

  /** Every entry has its record; ids increase along the queue, so it has only one. */
  ghost predicate Recorded(entries: map<RouteCandidates, Entry>, order: seq<(RouteCandidates, nat)>) {
    && Increasing(order)
    && forall c :: c in entries ==> (c, entries[c].id) in order
  }

  ghost predicate StateOk(state: State, config: CacheConfig) {
    && Recorded(state.entries, state.order)
    && (forall i :: 0 <= i < |state.order| ==> state.order[i].1 < state.nextId)
    && (forall c :: c in state.inflight ==> state.inflight[c] < state.nextId)
    && |state.entries| <= config.maxEntries
    && |state.order| <= 2 * config.maxEntries
  }

  lemma IdsAreUnique(entries: map<RouteCandidates, Entry>, order: seq<(RouteCandidates, nat)>,
                     c: RouteCandidates, d: RouteCandidates)
    requires Recorded(entries, order) && c in entries && d in entries && entries[c].id == entries[d].id
    ensures c == d
  {
    var i :| 0 <= i < |order| && order[i] == (c, entries[c].id);
    var j :| 0 <= j < |order| && order[j] == (d, entries[d].id);
  }

  lemma FewerEntries(entries: map<RouteCandidates, Entry>, gone: set<RouteCandidates>)
    ensures |entries - gone| <= |entries|
    ensures gone <= entries.Keys ==> |entries - gone| == |entries| - |gone|
    ensures gone * entries.Keys != {} ==> |entries - gone| < |entries|
  {
    assert (entries - gone).Keys == entries.Keys - gone;
    assert |entries.Keys| == |entries| && |(entries - gone).Keys| == |entries - gone|;
    var both := gone * entries.Keys;
    assert entries.Keys - gone == entries.Keys - both;
    assert |entries.Keys - both| == |entries.Keys| - |both|;
  }

  lemma NoOrderNoEntries(entries: map<RouteCandidates, Entry>)
    requires Recorded(entries, [])
    ensures entries == map[]
  {
    assert entries.Keys == {};
  }

  /** Dropping the head record, with its entry if it is live, keeps the rest recorded. */
  lemma PopKeepsRecorded(entries: map<RouteCandidates, Entry>, order: seq<(RouteCandidates, nat)>)
    requires Recorded(entries, order) && order != []
    ensures Recorded(if IsLive(entries, order[0]) then entries - {order[0].0} else entries, order[1..])
    ensures IsLive(entries, order[0]) ==>
              forall c :: c in entries && c != order[0].0 ==> entries[order[0].0].id < entries[c].id
  {
    var left := if IsLive(entries, order[0]) then entries - {order[0].0} else entries;
    assert order == [order[0]] + order[1..];
    forall c | c in left ensures (c, left[c].id) in order[1..] {
      assert (c, entries[c].id) in order;
    }
    forall c | IsLive(entries, order[0]) && c in entries && c != order[0].0
      ensures entries[order[0].0].id < entries[c].id
    {
      var i :| 0 <= i < |order| && order[i] == (c, entries[c].id);
      assert i > 0;
    }
  }

  /** `left` is `entries` without the ones with the smallest ids. */
  ghost predicate OldestGone(entries: map<RouteCandidates, Entry>, left: map<RouteCandidates, Entry>) {
    && (forall c :: c in left ==> c in entries && left[c] == entries[c])
    && (forall c, d :: c in entries && c !in left && d in left ==> entries[c].id < entries[d].id)
  }

  lemma OldestFirst(entries: map<RouteCandidates, Entry>, oldest: RouteCandidates, left: map<RouteCandidates, Entry>)
    requires oldest in entries
    requires forall c :: c in entries && c != oldest ==> entries[oldest].id < entries[c].id
    requires OldestGone(entries - {oldest}, left)
    ensures OldestGone(entries, left)
  {
    assert forall c :: c in entries && c != oldest ==> c in entries - {oldest};
  }

  lemma EvictOne(entries: map<RouteCandidates, Entry>, order: seq<(RouteCandidates, nat)>, max: nat)
    ensures |entries| < max || order == [] ==> Evict(entries, order, max) == (entries, order)
    ensures |entries| >= max && order != [] ==>
              Evict(entries, order, max) ==
              Evict(if IsLive(entries, order[0]) then entries - {order[0].0} else entries, order[1..], max)
  {
  }

  lemma LiveHasEntry(entries: map<RouteCandidates, Entry>, record: (RouteCandidates, nat))
    requires IsLive(entries, record)
    ensures record.0 in entries
  {
  }

  /** Eviction stops with exactly one slot free, having dropped the oldest entries only. */
  lemma {:induction false} EvictFreesOneSlot(
    entries: map<RouteCandidates, Entry>, order: seq<(RouteCandidates, nat)>, max: nat)
    requires Recorded(entries, order)
    requires max > 0
    ensures var (left, rest) := Evict(entries, order, max);
            && Recorded(left, rest) && OldestGone(entries, left)
            && |left| == (if |entries| < max then |entries| else max - 1)
            && |rest| <= |order| && rest == order[|order| - |rest|..]
    decreases |order|
  {
    hide Recorded, OldestGone, Evict, IsLive;
    EvictOne(entries, order, max);
    if |entries| < max {
      NothingGone(entries);
    } else if order == [] {
      NoOrderNoEntries(entries);
      NothingGone(entries);
    } else {
      var live := IsLive(entries, order[0]);
      var next := if live then entries - {order[0].0} else entries;
      PopKeepsRecorded(entries, order);
      if live {
        LiveHasEntry(entries, order[0]);
        FewerEntries(entries, {order[0].0});
      }
      EvictFreesOneSlot(next, order[1..], max);
      if live {
        OldestFirst(entries, order[0].0, Evict(next, order[1..], max).0);
      }
    }
  }

  lemma NothingGone(entries: map<RouteCandidates, Entry>)
    ensures OldestGone(entries, entries)
  {
  }

  lemma {:induction false} LiveRecordsKeep(order: seq<(RouteCandidates, nat)>, entries: map<RouteCandidates, Entry>)
    requires Increasing(order)
    ensures var live := LiveRecords(order, entries);
            && Increasing(live)
            && |live| <= |order|
            && (forall r :: r in live <==> r in order && IsLive(entries, r))
  {
    if order != [] {
      LiveRecordsKeep(order[1..], entries);
      var tail := LiveRecords(order[1..], entries);
      assert order == [order[0]] + order[1..];
      forall i | 0 <= i < |tail| ensures order[0].1 < tail[i].1 {
        assert tail[i] in order[1..];
      }
    }
  }

  /** Live records are as many as entries at most. */
  lemma {:induction false} LiveRecordsFew(order: seq<(RouteCandidates, nat)>, entries: map<RouteCandidates, Entry>)
    requires Increasing(order)
    requires forall i :: 0 <= i < |order| ==> IsLive(entries, order[i])
    ensures |order| <= |entries|
    decreases |order|
  {
    if order != [] {
      var c := order[0].0;
      FewerEntries(entries, {c});
      forall i | 0 < i < |order| ensures IsLive(entries - {c}, order[i]) {
        assert IsLive(entries, order[i]) && IsLive(entries, order[0]);
        assert order[0].1 < order[i].1;
      }
      LiveRecordsFew(order[1..], entries - {c});
    }
  }
}
