/**
 What a resolver should answer, from nothing but the history of its lookups' results:
 the reference that resolvers with a cache, pruned or not, are proved against
 (crates/sni_router/src/delivery/resolver.rs).
 */
module ResolverHistory {
  import opened Wrappers
  import opened ResolverState

  /** A lookup of one key that ended at a time with a result. */
  datatype Completion = Completion(lookup: nat, at: Time, result: Reply)

  type History = seq<Completion>

  function LastGood(history: History): Option<Completion> {
    if history == [] then None
    else if IsGood(history[|history| - 1].result) then Some(history[|history| - 1])
    else LastGood(history[..|history| - 1])
  }

  function UsableUntil(good: Completion, ttl: Duration): Time {
    good.at + ttl + STALE_IF_ERROR
  }

  /** The good answer still in use after the last lookup: that one did not end past its stale window. */
  function Usable(history: History, ttl: Duration): Option<Completion> {
    var good := LastGood(history);
    if good.Some? && history[|history| - 1].at < UsableUntil(good.value, ttl) then good else None
  }

  function FreshUntil(history: History, ttl: Duration): Time
    requires history != []
  {
    var last := history[|history| - 1];
    last.at + if IsGood(last.result) then ttl else NEGATIVE_TTL
  }

  /** What a caller at `now` is told without a lookup, if anything. */
  function Serve(history: History, now: Time, ttl: Duration): Option<Reply> {
    if history == [] || now >= FreshUntil(history, ttl) then None
    else if Usable(history, ttl).Some? then Some(Usable(history, ttl).value.result)
    else Some(Failure(NotFound))
  }

  /** What those who waited for the last lookup are told. */
  function Settle(history: History, ttl: Duration): Reply
    requires history != []
  {
    if Usable(history, ttl).Some? then Usable(history, ttl).value.result
    else Failure(ErrorOf(history[|history| - 1].result))
  }

  /** Completions are in order of time and of the lookups' starts, and none is later than `now`. */
  ghost predicate InOrder(history: History, now: Time) {
    && (forall i :: 0 <= i < |history| ==> history[i].at <= now)
    && (forall i, j :: 0 <= i < j < |history| ==>
          history[i].at <= history[j].at && history[i].lookup < history[j].lookup)
  }

  /** `good` is the newest good answer in the history. */
  ghost predicate IsNewestGood(history: History, j: nat) {
    && j < |history| && IsGood(history[j].result)
    && forall i :: j < i < |history| ==> !IsGood(history[i].result)
  }

  lemma {:induction false} LastGoodIsNewest(history: History) returns (j: nat)
    ensures LastGood(history).None? ==> forall i :: 0 <= i < |history| ==> !IsGood(history[i].result)
    ensures LastGood(history).Some? ==> IsNewestGood(history, j) && LastGood(history) == Some(history[j])
    decreases |history|
  {
    j := 0;
    if history != [] {
      var shorter := history[..|history| - 1];
      if IsGood(history[|history| - 1].result) {
        j := |history| - 1;
      } else {
        j := LastGoodIsNewest(shorter);
        assert forall i :: 0 <= i < |shorter| ==> history[i] == shorter[i];
      }
    }
  }

  /**
   A good answer obtained at t is served from memory only while it is the newest and only
   before t + ttl + 60 s + 1 s: a failed refresh inside the stale window is remembered for
   one more second.
   */
  lemma ServedAnswersAreRecent(history: History, now: Time, ttl: Duration, addrs: seq<SocketAddr>)
    requires InOrder(history, now) && Serve(history, now, ttl) == Some(Success(addrs))
    ensures addrs != []
    ensures exists j: nat :: IsNewestGood(history, j) && history[j].result == Success(addrs)
                     && history[j].at <= now < history[j].at + ttl + STALE_IF_ERROR + NEGATIVE_TTL
  {
    var j := LastGoodIsNewest(history);
    assert history[j].at <= now;
  }

  /**
   Exactly when a good answer outlives its stale window in memory: the key's last lookup
   came after it, failed inside the window, and is still remembered.
   */
  lemma OutlivesItsWindow(history: History, now: Time, ttl: Duration, j: nat)
    requires InOrder(history, now) && IsNewestGood(history, j) && now >= UsableUntil(history[j], ttl)
    ensures Serve(history, now, ttl) == Some(history[j].result) <==>
            var last := history[|history| - 1];
            j < |history| - 1 && last.at < UsableUntil(history[j], ttl) && now < last.at + NEGATIVE_TTL
  {
    var k := LastGoodIsNewest(history);
    assert k == j;
    var last := history[|history| - 1];
    assert IsGood(last.result) <==> j == |history| - 1;
  }

  /** Those who waited get a lookup's own good answer, or the newest good one within its stale window. */
  lemma SettledAnswersAreRecent(history: History, ttl: Duration, addrs: seq<SocketAddr>)
    requires history != [] && InOrder(history, history[|history| - 1].at) && Settle(history, ttl) == Success(addrs)
    ensures addrs != []
    ensures exists j: nat :: IsNewestGood(history, j) && history[j].result == Success(addrs)
                     && history[j].at <= history[|history| - 1].at < history[j].at + ttl + STALE_IF_ERROR
  {
    var j := LastGoodIsNewest(history);
    assert history[j].at <= history[|history| - 1].at;
  }

  /** Once a key has a good answer nothing fails before its TTL and stale window have passed. */
  lemma NoFailureInWindow(history: History, now: Time, ttl: Duration, j: nat)
    requires InOrder(history, now) && j < |history| && IsGood(history[j].result)
    requires now < UsableUntil(history[j], ttl)
    ensures Serve(history, now, ttl).Some? ==> Serve(history, now, ttl).value.Success?
    ensures Settle(history, ttl).Success?
  {
    var k := LastGoodIsNewest(history);
    assert j <= k;
    assert history[|history| - 1].at <= now;
  }

  /** A failure is repeated from memory for less than a second after it happened. */
  lemma FailuresAreBrief(history: History, now: Time, ttl: Duration, error: ErrorKind)
    requires Serve(history, now, ttl) == Some(Failure(error))
    ensures error == NotFound
    ensures var last := history[|history| - 1]; !IsGood(last.result) && now < last.at + NEGATIVE_TTL
  {
    var _ := LastGoodIsNewest(history);
    assert LastGood(history) == Some(history[|history| - 1]) || !IsGood(history[|history| - 1].result);
  }

  /** The extra second is reached: at any time in it some history still serves the old answer. */
  lemma StaleOutlastsItsWindow(t: Time, now: Time, ttl: Duration, addrs: seq<SocketAddr>) returns (history: History)
    requires addrs != []
    requires t + ttl + STALE_IF_ERROR <= now < t + ttl + STALE_IF_ERROR + NEGATIVE_TTL
    ensures InOrder(history, now) && history != [] && history[0] == Completion(0, t, Success(addrs))
    ensures Serve(history, now, ttl) == Some(Success(addrs))
  {
    var refused := (now - NEGATIVE_TTL + t + ttl + STALE_IF_ERROR) / 2.0;
    history := [Completion(0, t, Success(addrs)), Completion(1, refused, Failure(NotFound))];
    assert history[..1] == [history[0]];
    assert LastGood(history[..1]) == Some(history[0]);
  }

  // ----- The cache against the history ----------------------------------------------

  /** One key's cache record says what its history does, or is missing when that is of no more use. */
  ghost predicate Reflects(cache: Cache, key: Key, history: History, now: Time, ttl: Duration) {
    var usable := Usable(history, ttl);
    if key in cache then
      && history != []
      && cache[key].freshUntil == FreshUntil(history, ttl)
      && (match usable
          case None => cache[key].addrs.None?
          case Some(good) =>
            && cache[key].addrs.Some? && good.result == Success(cache[key].addrs.value)
            && cache[key].staleUntil == UsableUntil(good, ttl))
    else
      history == [] ||
      (now >= FreshUntil(history, ttl) && (usable.Some? ==> now >= UsableUntil(usable.value, ttl)))
  }

  lemma FreshServes(cache: Cache, key: Key, history: History, now: Time, ttl: Duration)
    requires Reflects(cache, key, history, now, ttl)
    ensures Fresh(cache, key, now) == Serve(history, now, ttl)
  {
    var _ := LastGoodIsNewest(history);
  }

  lemma LaterReflects(cache: Cache, key: Key, history: History, now: Time, later: Time, ttl: Duration)
    requires Reflects(cache, key, history, now, ttl) && now <= later
    ensures Reflects(cache, key, history, later, ttl)
  {
  }

  lemma PrunedReflects(cache: Cache, key: Key, history: History, now: Time, ttl: Duration)
    requires Reflects(cache, key, history, now, ttl)
    ensures Reflects(Pruned(cache, now), key, history, now, ttl)
  {
  }

  lemma StoreReflects(cache: Cache, key: Key, history: History, done: Completion, ttl: Duration)
    requires Reflects(cache, key, history, done.at, ttl) && InOrder(history, done.at)
    ensures var (stored, reply) := Store(cache, key, done.result, done.at, ttl);
            && Reflects(stored, key, history + [done], done.at, ttl)
            && reply == Settle(history + [done], ttl)
  {
    var longer := history + [done];
    assert longer[..|longer| - 1] == history;
    if history != [] {
      assert history[|history| - 1].at <= done.at;
    }
    var _ := LastGoodIsNewest(history);
  }
}

/**
 Every run of the resolver: callers arriving, lookups given a permit, and lookups ending,
 interleaved in any way (crates/sni_router/src/delivery/resolver.rs). The clock is read
 under the lock, so its readings never go back from one event to the next.
 */
module ResolverRuns {
  import opened Wrappers
  import opened ResolverState
  import opened ResolverHistory

  datatype Stage = Queued | Running | Ended(reply: Reply)

  datatype Lookup = Lookup(key: Key, stage: Stage)

  datatype Config = Config(ttl: Duration, maxConcurrent: nat, prunes: bool)
  {
    function Permits(): nat {
      if maxConcurrent == 0 then 1 else maxConcurrent
    }
  }

  datatype Event =
    | Resolve(key: Key, at: Time)
    | Admit(lookup: nat)
    | Complete(lookup: nat, result: Reply, at: Time)

  /** `histories` and `replies` record what happened; no step looks at them. */
  datatype System = System(
    resolver: State,
    now: Time,
    lookups: seq<Lookup>,
    histories: map<Key, History>,
    replies: seq<Begun>)

  const INITIAL := System(EMPTY, 0.0, [], map[], [])

  function HistoryOf(s: System, key: Key): History {
    if key in s.histories then s.histories[key] else []
  }

  function RunningLookups(lookups: seq<Lookup>): set<nat> {
    set i | 0 <= i < |lookups| && lookups[i].stage.Running?
  }

  predicate Enabled(s: System, e: Event, config: Config) {
    match e
    case Resolve(_, at) => at >= s.now
    case Admit(lookup) =>
      lookup < |s.lookups| && s.lookups[lookup].stage.Queued? && |RunningLookups(s.lookups)| < config.Permits()
    case Complete(lookup, _, at) => lookup < |s.lookups| && s.lookups[lookup].stage.Running? && at >= s.now
  }

  function Apply(s: System, e: Event, config: Config): System
    requires Enabled(s, e, config)
  {
    match e
    case Resolve(key, at) =>
      var (resolver, begun) := Begin(s.resolver, key, at);
      s.(resolver := resolver,
         now := at,
         lookups := if begun.Started? then s.lookups + [Lookup(key, Queued)] else s.lookups,
         replies := s.replies + [begun])
    case Admit(lookup) => s.(lookups := s.lookups[lookup := s.lookups[lookup].(stage := Running)])
    case Complete(lookup, result, at) =>
      var key := s.lookups[lookup].key;
      var (resolver, reply) := Finish(s.resolver, key, result, at, config.ttl, config.prunes);
      s.(resolver := resolver,
         now := at,
         lookups := s.lookups[lookup := Lookup(key, Ended(reply))],
         histories := s.histories[key := HistoryOf(s, key) + [Completion(lookup, at, result)]])
  }

  ghost predicate Leads(s: System, events: seq<Event>, t: System, config: Config)
    decreases |events|
  {
    if events == [] then t == s
    else Enabled(s, events[0], config) && Leads(Apply(s, events[0], config), events[1..], t, config)
  }

  // ----- What holds in every reachable state --------------------------------------------

  /** Each unfinished lookup owns its key's slot, so a key has at most one. */
  ghost predicate SlotsOk(s: System) {
    && s.resolver.nextLookup == |s.lookups|
    && (forall key :: key in s.resolver.inflight ==>
          && s.resolver.inflight[key] < |s.lookups|
          && s.lookups[s.resolver.inflight[key]].key == key
          && !s.lookups[s.resolver.inflight[key]].stage.Ended?)
    && (forall i :: 0 <= i < |s.lookups| && !s.lookups[i].stage.Ended? ==>
          s.lookups[i].key in s.resolver.inflight && s.resolver.inflight[s.lookups[i].key] == i)
  }

  /** Ended lookups of a key are older than its unfinished one, and than any to come. */
  ghost predicate StartedLater(history: History, key: Key, s: System) {
    forall i :: 0 <= i < |history| ==>
      && history[i].lookup < |s.lookups|
      && (key in s.resolver.inflight ==> history[i].lookup < s.resolver.inflight[key])
  }

  ghost predicate KeyOk(s: System, key: Key, config: Config) {
    && Reflects(s.resolver.cache, key, HistoryOf(s, key), s.now, config.ttl)
    && InOrder(HistoryOf(s, key), s.now)
    && StartedLater(HistoryOf(s, key), key, s)
  }

  ghost predicate Inv(s: System, config: Config) {
    && SlotsOk(s)
    && |RunningLookups(s.lookups)| <= config.Permits()
    && forall key :: KeyOk(s, key, config)
  }

  lemma InitialOk(config: Config)
    ensures Inv(INITIAL, config)
  {
    assert RunningLookups([]) == {};
  }

  lemma ResolveKeeps(s: System, key: Key, at: Time, config: Config)
    requires Inv(s, config) && at >= s.now
    ensures Inv(Apply(s, Resolve(key, at), config), config)
  {
    hide KeyOk, Fresh, SlotsOk, RunningLookups;
    StartKeepsSlots(s, key, at, config);
    forall other ensures KeyOk(Apply(s, Resolve(key, at), config), other, config) {
      ResolveKeepsKey(s, key, at, config, other);
    }
  }

  lemma StartKeepsSlots(s: System, key: Key, at: Time, config: Config)
    requires SlotsOk(s) && at >= s.now
    ensures var after := Apply(s, Resolve(key, at), config);
            SlotsOk(after) && RunningLookups(after.lookups) == RunningLookups(s.lookups)
  {
    hide Fresh;
  }

  lemma ResolveKeepsKey(s: System, key: Key, at: Time, config: Config, other: Key)
    requires SlotsOk(s) && KeyOk(s, other, config) && at >= s.now
    ensures KeyOk(Apply(s, Resolve(key, at), config), other, config)
  {
    hide Reflects, Fresh;
    LaterReflects(s.resolver.cache, other, HistoryOf(s, other), s.now, at, config.ttl);
  }

  lemma AdmitKeeps(s: System, lookup: nat, config: Config)
    requires Inv(s, config) && Enabled(s, Admit(lookup), config)
    ensures Inv(Apply(s, Admit(lookup), config), config)
  {
    hide Reflects, InOrder, KeyOk, RunningLookups;
    var after := Apply(s, Admit(lookup), config);
    OneMoreRuns(s.lookups, lookup);
    forall key ensures KeyOk(after, key, config) {
      AdmitKeepsKey(s, after, key, config);
    }
  }

  lemma OneMoreRuns(lookups: seq<Lookup>, lookup: nat)
    requires lookup < |lookups|
    ensures |RunningLookups(lookups[lookup := lookups[lookup].(stage := Running)])| <= |RunningLookups(lookups)| + 1
  {
    var after := lookups[lookup := lookups[lookup].(stage := Running)];
    assert RunningLookups(after) == RunningLookups(lookups) + {lookup};
  }

  lemma AdmitKeepsKey(s: System, after: System, key: Key, config: Config)
    requires KeyOk(s, key, config)
    requires after == s.(lookups := after.lookups) && |after.lookups| == |s.lookups|
    ensures KeyOk(after, key, config)
  {
  }

  /** The reply a lookup ends with, and its key's record, are those the history calls for. */
  lemma FinishReflects(s: System, lookup: nat, result: Reply, at: Time, config: Config)
    requires Inv(s, config) && Enabled(s, Complete(lookup, result, at), config)
    ensures var key := s.lookups[lookup].key;
            var (resolver, reply) := Finish(s.resolver, key, result, at, config.ttl, config.prunes);
            var history := HistoryOf(s, key) + [Completion(lookup, at, result)];
            Reflects(resolver.cache, key, history, at, config.ttl) && reply == Settle(history, config.ttl)
  {
    hide Reflects;
    var key := s.lookups[lookup].key;
    var history := HistoryOf(s, key);
    assert KeyOk(s, key, config);
    LaterReflects(s.resolver.cache, key, history, s.now, at, config.ttl);
    PrunedReflects(s.resolver.cache, key, history, at, config.ttl);
    var cache := if config.prunes && |s.resolver.cache| >= PRUNE_THRESHOLD then Pruned(s.resolver.cache, at)
                 else s.resolver.cache;
    StoreReflects(cache, key, history, Completion(lookup, at, result), config.ttl);
  }

  lemma OtherKeyReflects(s: System, lookup: nat, result: Reply, at: Time, config: Config, other: Key)
    requires Inv(s, config) && Enabled(s, Complete(lookup, result, at), config) && other != s.lookups[lookup].key
    ensures var (resolver, reply) := Finish(s.resolver, s.lookups[lookup].key, result, at, config.ttl, config.prunes);
            Reflects(resolver.cache, other, HistoryOf(s, other), at, config.ttl)
  {
    assert KeyOk(s, other, config);
    hide SlotsOk, KeyOk, Inv;
    LaterReflects(s.resolver.cache, other, HistoryOf(s, other), s.now, at, config.ttl);
    PrunedReflects(s.resolver.cache, other, HistoryOf(s, other), at, config.ttl);
  }

  lemma OneFewerRuns(lookups: seq<Lookup>, lookup: nat, ended: Lookup)
    requires lookup < |lookups| && ended.stage.Ended?
    ensures |RunningLookups(lookups[lookup := ended])| <= |RunningLookups(lookups)|
  {
    var before, after := RunningLookups(lookups), RunningLookups(lookups[lookup := ended]);
    assert after == before - {lookup};
    assert |before| == |after| + |before * {lookup}|;
  }

  lemma AppendedInOrder(history: History, now: Time, done: Completion)
    requires InOrder(history, now) && now <= done.at
    requires forall i :: 0 <= i < |history| ==> history[i].lookup < done.lookup
    ensures InOrder(history + [done], done.at)
  {
  }

  /** An unfinished lookup was started after every one of its key that ended. */
  lemma EndedBefore(s: System, lookup: nat, config: Config)
    requires Inv(s, config) && lookup < |s.lookups| && !s.lookups[lookup].stage.Ended?
    ensures var history := HistoryOf(s, s.lookups[lookup].key);
            && InOrder(history, s.now)
            && forall i :: 0 <= i < |history| ==> history[i].lookup < lookup
  {
    hide Reflects, InOrder, RunningLookups;
    assert KeyOk(s, s.lookups[lookup].key, config);
  }

  /** What completing a lookup changes for its key. */
  lemma Completed(s: System, lookup: nat, result: Reply, at: Time, config: Config)
    requires Enabled(s, Complete(lookup, result, at), config)
    ensures var after, key := Apply(s, Complete(lookup, result, at), config), s.lookups[lookup].key;
            && after.resolver.cache == Finish(s.resolver, key, result, at, config.ttl, config.prunes).0.cache
            && HistoryOf(after, key) == HistoryOf(s, key) + [Completion(lookup, at, result)]
            && after.now == at && |after.lookups| == |s.lookups| && key !in after.resolver.inflight
  {
    hide Store, Pruned, RunningLookups;
  }

  lemma SameKeyOk(s: System, lookup: nat, result: Reply, at: Time, config: Config)
    requires Inv(s, config) && Enabled(s, Complete(lookup, result, at), config)
    ensures KeyOk(Apply(s, Complete(lookup, result, at), config), s.lookups[lookup].key, config)
  {
    EndedBefore(s, lookup, config);
    Completed(s, lookup, result, at, config);
    FinishReflects(s, lookup, result, at, config);
    hide Inv, Apply, Finish, HistoryOf, Reflects, RunningLookups, InOrder;
    AppendedInOrder(HistoryOf(s, s.lookups[lookup].key), s.now, Completion(lookup, at, result));
  }

  lemma OtherKeyOk(s: System, lookup: nat, result: Reply, at: Time, config: Config, other: Key)
    requires Inv(s, config) && Enabled(s, Complete(lookup, result, at), config) && other != s.lookups[lookup].key
    ensures KeyOk(Apply(s, Complete(lookup, result, at), config), other, config)
  {
    hide Reflects, Store, RunningLookups;
    assert KeyOk(s, other, config);
    OtherKeyReflects(s, lookup, result, at, config, other);
  }

  lemma SlotsStay(s: System, lookup: nat, result: Reply, at: Time, config: Config)
    requires SlotsOk(s) && Enabled(s, Complete(lookup, result, at), config)
    ensures var after := Apply(s, Complete(lookup, result, at), config);
            SlotsOk(after) && |RunningLookups(after.lookups)| <= |RunningLookups(s.lookups)|
  {
    hide Store, Pruned, RunningLookups;
    var after := Apply(s, Complete(lookup, result, at), config);
    OneFewerRuns(s.lookups, lookup, after.lookups[lookup]);
  }

  lemma CompleteKeeps(s: System, lookup: nat, result: Reply, at: Time, config: Config)
    requires Inv(s, config) && Enabled(s, Complete(lookup, result, at), config)
    ensures Inv(Apply(s, Complete(lookup, result, at), config), config)
  {
    assert Enabled(s, Complete(lookup, result, at), config) && lookup < |s.lookups|;
    hide Apply, Enabled, SlotsOk, RunningLookups, KeyOk;
    SlotsStay(s, lookup, result, at, config);
    forall other ensures KeyOk(Apply(s, Complete(lookup, result, at), config), other, config) {
      if other == s.lookups[lookup].key {
        SameKeyOk(s, lookup, result, at, config);
      } else {
        OtherKeyOk(s, lookup, result, at, config, other);
      }
    }
  }

  lemma StepKeeps(s: System, e: Event, config: Config)
    requires Inv(s, config) && Enabled(s, e, config)
    ensures Inv(Apply(s, e, config), config)
  {
    hide Inv, Apply;
    match e {
      case Resolve(key, at) => ResolveKeeps(s, key, at, config);
      case Admit(lookup) => AdmitKeeps(s, lookup, config);
      case Complete(lookup, result, at) => CompleteKeeps(s, lookup, result, at, config);
    }
  }

  lemma {:induction false} RunsKeep(s: System, events: seq<Event>, t: System, config: Config)
    requires Inv(s, config) && Leads(s, events, t, config)
    ensures Inv(t, config)
    decreases |events|
  {
    hide Inv, Enabled, Apply;
    if events != [] {
      StepKeeps(s, events[0], config);
      RunsKeep(Apply(s, events[0], config), events[1..], t, config);
    }
  }

  // ----- Results ----------------------------------------------------------------------

  /**
   In every reachable state a caller is told exactly what its key's history of lookups
   calls for; a caller it does not answer waits for the one unfinished lookup of its key.
   */
  lemma CallersGetTheHistory(events: seq<Event>, s: System, key: Key, at: Time, config: Config)
    requires Leads(INITIAL, events, s, config) && at >= s.now
    ensures var begun := Begin(s.resolver, key, at).1;
            && InOrder(HistoryOf(s, key), at)
            && (match Serve(HistoryOf(s, key), at, config.ttl)
                case Some(reply) => begun == Answered(reply)
                case None =>
                  if exists i :: 0 <= i < |s.lookups| && s.lookups[i].key == key && !s.lookups[i].stage.Ended?
                  then begun.Joined? && begun.lookup < |s.lookups| && s.lookups[begun.lookup].key == key
                       && !s.lookups[begun.lookup].stage.Ended?
                  else begun == Started(|s.lookups|))
  {
    InitialOk(config);
    RunsKeep(INITIAL, events, s, config);
    assert KeyOk(s, key, config);
    LaterReflects(s.resolver.cache, key, HistoryOf(s, key), s.now, at, config.ttl);
    FreshServes(s.resolver.cache, key, HistoryOf(s, key), at, config.ttl);
  }

  /** Those who wait for a lookup are told what its key's history calls for once it has ended. */
  lemma WaitersGetTheHistory(events: seq<Event>, s: System, lookup: nat, result: Reply, at: Time, config: Config)
    requires Leads(INITIAL, events, s, config) && Enabled(s, Complete(lookup, result, at), config)
    ensures var after := Apply(s, Complete(lookup, result, at), config);
            var history := HistoryOf(after, s.lookups[lookup].key);
            && history == HistoryOf(s, s.lookups[lookup].key) + [Completion(lookup, at, result)]
            && InOrder(history, at)
            && after.lookups[lookup].stage == Ended(Settle(history, config.ttl))
  {
    InitialOk(config);
    RunsKeep(INITIAL, events, s, config);
    FinishReflects(s, lookup, result, at, config);
    CompleteKeeps(s, lookup, result, at, config);
    assert KeyOk(Apply(s, Complete(lookup, result, at), config), s.lookups[lookup].key, config);
  }

  /**
   Time bound and availability over every run: a caller answered from memory gets a
   non-empty answer less than ttl + 61 s after a lookup gave it, and gets no failure
   less than ttl + 60 s after any good answer.
   */
  lemma AnswersAreRecent(events: seq<Event>, s: System, key: Key, at: Time, config: Config)
    requires Leads(INITIAL, events, s, config) && at >= s.now && Begin(s.resolver, key, at).1.Answered?
    ensures var history, reply := HistoryOf(s, key), Begin(s.resolver, key, at).1.reply;
            match reply
            case Success(addrs) =>
              && addrs != []
              && exists j: nat :: IsNewestGood(history, j) && history[j].result == reply
                               && history[j].at <= at < history[j].at + config.ttl + STALE_IF_ERROR + NEGATIVE_TTL
            case Failure(_) =>
              forall j :: 0 <= j < |history| && IsGood(history[j].result) ==> at >= UsableUntil(history[j], config.ttl)
  {
    hide Leads, Begin, Serve;
    CallersGetTheHistory(events, s, key, at, config);
    var history := HistoryOf(s, key);
    match Serve(history, at, config.ttl).value {
      case Success(addrs) => ServedAnswersAreRecent(history, at, config.ttl, addrs);
      case Failure(_) =>
        forall j | 0 <= j < |history| && IsGood(history[j].result) ensures at >= UsableUntil(history[j], config.ttl) {
          if at < UsableUntil(history[j], config.ttl) {
            NoFailureInWindow(history, at, config.ttl, j);
          }
        }
    }
  }

  /**
   The same for those who wait, by the time their lookup ends: a non-empty answer is less
   than ttl + 60 s old, and there is no failure less than ttl + 60 s after any good answer.
   */
  lemma WaitersAreRecent(events: seq<Event>, s: System, lookup: nat, result: Reply, at: Time, config: Config)
    requires Leads(INITIAL, events, s, config) && Enabled(s, Complete(lookup, result, at), config)
    ensures var after := Apply(s, Complete(lookup, result, at), config);
            var history := HistoryOf(after, s.lookups[lookup].key);
            && after.lookups[lookup].stage.Ended?
            && var reply := after.lookups[lookup].stage.reply;
               match reply
               case Success(addrs) =>
                 && addrs != []
                 && exists j: nat :: IsNewestGood(history, j) && history[j].result == reply
                                  && history[j].at <= at < history[j].at + config.ttl + STALE_IF_ERROR
               case Failure(_) =>
                 forall j :: 0 <= j < |history| && IsGood(history[j].result) ==> at >= UsableUntil(history[j], config.ttl)
  {
    hide Leads, Apply, Settle;
    WaitersGetTheHistory(events, s, lookup, result, at, config);
    var history := HistoryOf(Apply(s, Complete(lookup, result, at), config), s.lookups[lookup].key);
    assert history[|history| - 1].at == at;
    match Settle(history, config.ttl) {
      case Success(addrs) => SettledAnswersAreRecent(history, config.ttl, addrs);
      case Failure(_) =>
        forall j | 0 <= j < |history| && IsGood(history[j].result) ensures at >= UsableUntil(history[j], config.ttl) {
          if at < UsableUntil(history[j], config.ttl) {
            NoFailureInWindow(history, at, config.ttl, j);
          }
        }
    }
  }

  /**
   In every reachable state, exactly when a caller is answered from memory with a good
   answer past its stale window: the newest one, and a refresh of it failed in time and
   is still remembered.
   */
  lemma AnswersOutlivingTheirWindow(events: seq<Event>, s: System, key: Key, at: Time, config: Config, j: nat)
    requires Leads(INITIAL, events, s, config) && at >= s.now
    requires IsNewestGood(HistoryOf(s, key), j) && at >= UsableUntil(HistoryOf(s, key)[j], config.ttl)
    ensures var history := HistoryOf(s, key);
            var last := history[|history| - 1];
            Begin(s.resolver, key, at).1 == Answered(history[j].result) <==>
            j < |history| - 1 && last.at < UsableUntil(history[j], config.ttl) && at < last.at + NEGATIVE_TTL
  {
    hide Leads, Begin, Serve;
    CallersGetTheHistory(events, s, key, at, config);
    OutlivesItsWindow(HistoryOf(s, key), at, config.ttl, j);
  }

  /** A name resolved at 0 and looked up again at the end of its TTL, which fails at `refused`. */
  function RefusedRefresh(key: Key, addrs: seq<SocketAddr>, ttl: Duration, refused: Time): seq<Event> {
    [Resolve(key, 0.0), Admit(0), Complete(0, Success(addrs), 0.0),
     Resolve(key, ttl), Admit(1), Complete(1, Failure(NotFound), refused)]
  }

  /** The extra second in a run: after that a caller is served the old answer for a second from the failure. */
  lemma RefusedRefreshIsServed(key: Key, addrs: seq<SocketAddr>, refused: Time, at: Time, config: Config)
    returns (s: System)
    requires addrs != [] && config.ttl <= refused < config.ttl + STALE_IF_ERROR
    requires refused <= at < refused + NEGATIVE_TTL
    ensures Leads(INITIAL, RefusedRefresh(key, addrs, config.ttl, refused), s, config) && at >= s.now
    ensures Begin(s.resolver, key, at).1 == Answered(Success(addrs))
  {
    hide Apply, Enabled, Begin;
    var events := RefusedRefresh(key, addrs, config.ttl, refused);
    var s1, s2 := FirstAsked(key, config);
    var s3 := AnsweredOnce(key, addrs, config);
    FirstAnswer(s2, key, addrs, config);
    var s4, s5 := AskedAgain(key, addrs, config);
    s := RefusedAgain(s5, key, addrs, refused, at, config);
    SixSteps(INITIAL, s1, s2, s3, s4, s5, s, events, config);
  }

  /** The resolver with its first answer, and the only lookup ended. */
  function AnsweredOnce(key: Key, addrs: seq<SocketAddr>, config: Config): System {
    System(State(map[key := Entry(Some(addrs), config.ttl, config.ttl + STALE_IF_ERROR)], map[], 1), 0.0,
           [Lookup(key, Ended(Success(addrs)))], map[key := [Completion(0, 0.0, Success(addrs))]], [Started(0)])
  }

  lemma FirstAsked(key: Key, config: Config) returns (asked: System, running: System)
    ensures Enabled(INITIAL, Resolve(key, 0.0), config) && asked == Apply(INITIAL, Resolve(key, 0.0), config)
    ensures Enabled(asked, Admit(0), config) && running == Apply(asked, Admit(0), config)
    ensures running == System(State(map[], map[key := 0], 1), 0.0, [Lookup(key, Running)], map[], [Started(0)])
  {
    asked := Apply(INITIAL, Resolve(key, 0.0), config);
    NoneRun(asked.lookups);
    running := Apply(asked, Admit(0), config);
  }

  lemma FirstAnswer(s: System, key: Key, addrs: seq<SocketAddr>, config: Config)
    requires addrs != []
    requires s == System(State(map[], map[key := 0], 1), 0.0, [Lookup(key, Running)], map[], [Started(0)])
    ensures Enabled(s, Complete(0, Success(addrs), 0.0), config)
    ensures Apply(s, Complete(0, Success(addrs), 0.0), config) == AnsweredOnce(key, addrs, config)
  {
    var after := Apply(s, Complete(0, Success(addrs), 0.0), config);
    assert after.resolver.inflight == map[];
    assert after.lookups == [Lookup(key, Ended(Success(addrs)))];
    assert HistoryOf(s, key) == [];
    assert [] + [Completion(0, 0.0, Success(addrs))] == [Completion(0, 0.0, Success(addrs))];
  }

  lemma AskedAgain(key: Key, addrs: seq<SocketAddr>, config: Config) returns (asked: System, running: System)
    ensures var s := AnsweredOnce(key, addrs, config);
            Enabled(s, Resolve(key, config.ttl), config) && asked == Apply(s, Resolve(key, config.ttl), config)
    ensures Enabled(asked, Admit(1), config) && running == Apply(asked, Admit(1), config)
    ensures running.lookups == [Lookup(key, Ended(Success(addrs))), Lookup(key, Running)]
    ensures running.now == config.ttl && running.resolver.cache == AnsweredOnce(key, addrs, config).resolver.cache
  {
    asked := Apply(AnsweredOnce(key, addrs, config), Resolve(key, config.ttl), config);
    NoneRun(asked.lookups);
    running := Apply(asked, Admit(1), config);
  }

  lemma RefusedAgain(s: System, key: Key, addrs: seq<SocketAddr>, refused: Time, at: Time, config: Config)
    returns (after: System)
    requires s.lookups == [Lookup(key, Ended(Success(addrs))), Lookup(key, Running)] && s.now == config.ttl
    requires s.resolver.cache == AnsweredOnce(key, addrs, config).resolver.cache
    requires config.ttl <= refused < config.ttl + STALE_IF_ERROR && refused <= at < refused + NEGATIVE_TTL
    ensures Enabled(s, Complete(1, Failure(NotFound), refused), config)
    ensures after == Apply(s, Complete(1, Failure(NotFound), refused), config) && after.now == refused
    ensures Begin(after.resolver, key, at).1 == Answered(Success(addrs))
  {
    after := Apply(s, Complete(1, Failure(NotFound), refused), config);
    assert |s.resolver.cache| == 1;
  }

  lemma NoneRun(lookups: seq<Lookup>)
    requires forall i :: 0 <= i < |lookups| ==> !lookups[i].stage.Running?
    ensures RunningLookups(lookups) == {}
  {
  }

  lemma SixSteps(s0: System, s1: System, s2: System, s3: System, s4: System, s5: System, s6: System,
                 events: seq<Event>, config: Config)
    requires |events| == 6
    requires Enabled(s0, events[0], config) && s1 == Apply(s0, events[0], config)
    requires Enabled(s1, events[1], config) && s2 == Apply(s1, events[1], config)
    requires Enabled(s2, events[2], config) && s3 == Apply(s2, events[2], config)
    requires Enabled(s3, events[3], config) && s4 == Apply(s3, events[3], config)
    requires Enabled(s4, events[4], config) && s5 == Apply(s4, events[4], config)
    requires Enabled(s5, events[5], config) && s6 == Apply(s5, events[5], config)
    ensures Leads(s0, events, s6, config)
  {
    hide Enabled, Apply;
    assert Leads(s6, events[6..], s6, config);
    assert Leads(s5, events[5..], s6, config) by { assert events[5..][1..] == events[6..]; }
    assert Leads(s4, events[4..], s6, config) by { assert events[4..][1..] == events[5..]; }
    assert Leads(s3, events[3..], s6, config) by { assert events[3..][1..] == events[4..]; }
    assert Leads(s2, events[2..], s6, config) by { assert events[2..][1..] == events[3..]; }
    assert Leads(s1, events[1..], s6, config) by { assert events[1..][1..] == events[2..]; }
  }

  /** For instance, with a TTL of 30 s an answer obtained at 0 is served at 90.25 s. */
  lemma ServedAfterItsWindow(key: Key, addrs: seq<SocketAddr>) returns (s: System)
    requires addrs != []
    ensures Leads(INITIAL, RefusedRefresh(key, addrs, 30.0, 89.5), s, Config(30.0, 1, true))
    ensures Begin(s.resolver, key, 90.25).1 == Answered(Success(addrs))
  {
    s := RefusedRefreshIsServed(key, addrs, 89.5, 90.25, Config(30.0, 1, true));
  }

  /** At most one lookup of a key is unfinished, and at most `Permits` block a thread. */
  lemma LookupsAreSingleFlight(events: seq<Event>, s: System, config: Config)
    requires Leads(INITIAL, events, s, config)
    ensures forall i, j :: 0 <= i < j < |s.lookups| && s.lookups[i].key == s.lookups[j].key ==>
              s.lookups[i].stage.Ended? || s.lookups[j].stage.Ended?
    ensures |RunningLookups(s.lookups)| <= config.Permits()
  {
    InitialOk(config);
    RunsKeep(INITIAL, events, s, config);
  }

  /** The states of two resolvers that differ in what they still hold of dead entries. */
  ghost predicate SameButCache(s: System, t: System) {
    t == s.(resolver := s.resolver.(cache := t.resolver.cache))
  }

  lemma StepsAgree(s: System, t: System, e: Event, config: Config, config': Config)
    requires Inv(s, config) && Inv(t, config') && SameButCache(s, t)
    requires config' == config.(prunes := config'.prunes) && Enabled(s, e, config)
    ensures Enabled(t, e, config') && SameButCache(Apply(s, e, config), Apply(t, e, config'))
  {
    match e {
      case Resolve(key, at) =>
        assert KeyOk(s, key, config) && KeyOk(t, key, config');
        LaterReflects(s.resolver.cache, key, HistoryOf(s, key), s.now, at, config.ttl);
        LaterReflects(t.resolver.cache, key, HistoryOf(s, key), s.now, at, config.ttl);
        FreshServes(s.resolver.cache, key, HistoryOf(s, key), at, config.ttl);
        FreshServes(t.resolver.cache, key, HistoryOf(s, key), at, config.ttl);
      case Admit(_) =>
      case Complete(lookup, result, at) =>
        FinishReflects(s, lookup, result, at, config);
        FinishReflects(t, lookup, result, at, config');
    }
  }

  lemma {:induction false} RunsAgree(s: System, t: System, events: seq<Event>, s': System, config: Config,
                                     config': Config) returns (t': System)
    requires Inv(s, config) && Inv(t, config') && SameButCache(s, t)
    requires config' == config.(prunes := config'.prunes) && Leads(s, events, s', config)
    ensures Leads(t, events, t', config') && SameButCache(s', t')
    decreases |events|
  {
    hide Inv, Enabled, Apply, SameButCache;
    if events == [] {
      t' := t;
    } else {
      StepsAgree(s, t, events[0], config, config');
      StepKeeps(s, events[0], config);
      StepKeeps(t, events[0], config');
      t' := RunsAgree(Apply(s, events[0], config), Apply(t, events[0], config'), events[1..], s', config, config');
    }
  }

  /**
   Pruning is invisible: over any run, a resolver that prunes and one that never does
   give every caller and every waiter the same reply, and start the same lookups.
   */
  lemma PruningIsInvisible(events: seq<Event>, s: System, ttl: Duration, maxConcurrent: nat) returns (t: System)
    requires Leads(INITIAL, events, s, Config(ttl, maxConcurrent, true))
    ensures Leads(INITIAL, events, t, Config(ttl, maxConcurrent, false))
    ensures t.replies == s.replies && t.lookups == s.lookups && t.histories == s.histories
  {
    InitialOk(Config(ttl, maxConcurrent, true));
    InitialOk(Config(ttl, maxConcurrent, false));
    t := RunsAgree(INITIAL, INITIAL, events, s, Config(ttl, maxConcurrent, true), Config(ttl, maxConcurrent, false));
  }
}
