/**
 The route cache as it runs: maps, a reverse index and a queue updated in place
 (crates/sni_router/src/cache.rs). Every method is proved against the functions of
 `CacheState`; the reverse index appears only here.
 */
module Cache {
  import opened Wrappers
  import opened Names
  import opened Routing
  import opened CacheState

  type Index = map<RouteKey, set<RouteCandidates>>

  /** `key`'s index record is exactly `answers`, and absent when that is empty or `key` is in `hole`. */
  ghost predicate KeyIndexed(index: Index, key: RouteKey, answers: set<RouteCandidates>, hole: set<RouteKey>) {
    && (key in index <==> key !in hole && answers != {})
    && (key in index ==> index[key] == answers)
  }

  /** The index lists, for every key outside `hole`, exactly the entries that contain it. */
  ghost predicate Indexed(index: Index, entries: map<RouteCandidates, Entry>, hole: set<RouteKey>) {
    forall key :: KeyIndexed(index, key, Answering(entries, key), hole)
  }

  lemma AnsweringWithout(entries: map<RouteCandidates, Entry>, candidates: RouteCandidates, key: RouteKey)
    ensures Answering(entries - {candidates}, key) == Answering(entries, key) - {candidates}
    ensures !candidates.Contains(key) ==> Answering(entries - {candidates}, key) == Answering(entries, key)
  {
  }

  lemma AnsweringWith(entries: map<RouteCandidates, Entry>, candidates: RouteCandidates, entry: Entry, key: RouteKey)
    ensures Answering(entries[candidates := entry], key) ==
            if candidates.Contains(key) then Answering(entries, key) + {candidates} else Answering(entries, key)
  {
  }

  /** The index while `done` of the keys follow `after` and the others still follow `before`. */
  ghost predicate PartlyIndexed(
    index: Index, before: map<RouteCandidates, Entry>, after: map<RouteCandidates, Entry>, done: seq<RouteKey>,
    hole: set<RouteKey>)
  {
    forall key :: KeyIndexed(index, key, Answering(if key in done then after else before, key), hole)
  }

  /** One key's record loses `candidates`, and goes when that leaves it empty. */
  function Unindex(index: Index, candidates: RouteCandidates, key: RouteKey): Index {
    if key !in index then index
    else
      var left := index[key] - {candidates};
      if left == {} then index - {key} else index[key := left]
  }

  function AddIndex(index: Index, candidates: RouteCandidates, key: RouteKey): Index {
    index[key := (if key in index then index[key] else {}) + {candidates}]
  }

  lemma UnindexStep(index: Index, entries: map<RouteCandidates, Entry>, candidates: RouteCandidates,
                    done: seq<RouteKey>, key: RouteKey, hole: set<RouteKey>)
    requires PartlyIndexed(index, entries, entries - {candidates}, done, hole)
    ensures PartlyIndexed(Unindex(index, candidates, key), entries, entries - {candidates}, done + [key], hole)
  {
    var after := entries - {candidates};
    forall other
      ensures KeyIndexed(Unindex(index, candidates, key), other,
                         Answering(if other in done + [key] then after else entries, other), hole)
    {
      assert KeyIndexed(index, other, Answering(if other in done then after else entries, other), hole);
      AnsweringWithout(entries, candidates, other);
    }
  }

  lemma AddIndexStep(index: Index, entries: map<RouteCandidates, Entry>, candidates: RouteCandidates, entry: Entry,
                     done: seq<RouteKey>, key: RouteKey)
    requires candidates.Contains(key)
    requires PartlyIndexed(index, entries, entries[candidates := entry], done, {})
    ensures PartlyIndexed(AddIndex(index, candidates, key), entries, entries[candidates := entry], done + [key], {})
  {
    var after := entries[candidates := entry];
    forall other
      ensures KeyIndexed(AddIndex(index, candidates, key), other,
                         Answering(if other in done + [key] then after else entries, other), {})
    {
      assert KeyIndexed(index, other, Answering(if other in done then after else entries, other), {});
      AnsweringWith(entries, candidates, entry, other);
    }
  }

  lemma PartlyIsWhole(index: Index, before: map<RouteCandidates, Entry>, after: map<RouteCandidates, Entry>,
                      candidates: RouteCandidates, done: seq<RouteKey>, hole: set<RouteKey>)
    requires PartlyIndexed(index, before, after, done, hole) && done == candidates.Keys()
    requires after - {candidates} == before - {candidates}
    ensures Indexed(index, after, hole)
  {
    forall key ensures KeyIndexed(index, key, Answering(after, key), hole) {
      assert KeyIndexed(index, key, Answering(if key in done then after else before, key), hole);
      AnsweringWithout(before, candidates, key);
      AnsweringWithout(after, candidates, key);
    }
  }

  lemma NothingIndexedYet(index: Index, before: map<RouteCandidates, Entry>, after: map<RouteCandidates, Entry>,
                          hole: set<RouteKey>)
    requires Indexed(index, before, hole)
    ensures PartlyIndexed(index, before, after, [], hole)
  {
    forall key ensures KeyIndexed(index, key, Answering(if key in [] then after else before, key), hole) {
      assert KeyIndexed(index, key, Answering(before, key), hole);
    }
  }

  lemma ReplacedStaysIndexed(index: Index, entries: map<RouteCandidates, Entry>, candidates: RouteCandidates,
                             entry: Entry)
    requires Indexed(index, entries, {}) && candidates in entries
    ensures Indexed(index, entries[candidates := entry], {})
  {
    var after := entries[candidates := entry];
    forall key ensures KeyIndexed(index, key, Answering(after, key), {}) {
      AnsweringWith(entries, candidates, entry, key);
      assert KeyIndexed(index, key, Answering(entries, key), {});
      assert Answering(after, key) == Answering(entries, key);
    }
  }

  class CachedLookup {
    const config: CacheConfig
    var entries: map<RouteCandidates, Entry>
    var index: Index
    var order: seq<(RouteCandidates, nat)>
    var inflight: map<RouteCandidates, nat>
    var nextId: nat
    var runningLoads: nat
    var lastPurge: Option<Time>

    ghost predicate Valid()
      reads this
    {
      Indexed(index, entries, {})
    }

    function Model(): State
      reads this
    {
      State(entries, order, inflight, nextId, runningLoads, lastPurge)
    }

    constructor (config: CacheConfig)
      ensures Valid() && Model() == EMPTY && this.config == config
    {
      this.config := config;
      entries, index, order, inflight := map[], map[], [], map[];
      nextId, runningLoads, lastPurge := 0, 0, None;
    }

    method TakeId() returns (id: nat)
      modifies this`nextId
      ensures id == old(nextId) && nextId == id + 1
    {
      id := nextId;
      nextId := nextId + 1;
    }

    /** Takes one entry out of the map, and its candidates out of each of their keys' records. */
    method RemoveEntry(candidates: RouteCandidates, ghost hole: set<RouteKey>)
      requires Indexed(index, entries, hole)
      modifies this`entries, this`index
      ensures Indexed(index, entries, hole) && entries == old(entries) - {candidates}
    {
      if candidates !in entries {
        assert entries == entries - {candidates};
        return;
      }
      entries := entries - {candidates};
      NothingIndexedYet(index, old(entries), entries, hole);
      var keys := candidates.Keys();
      for i := 0 to |keys|
        invariant entries == old(entries) - {candidates}
        invariant PartlyIndexed(index, old(entries), entries, keys[..i], hole)
      {
        UnindexStep(index, old(entries), candidates, keys[..i], keys[i], hole);
        assert keys[..i + 1] == keys[..i] + [keys[i]];
        if keys[i] in index {
          var indexed := index[keys[i]] - {candidates};
          index := if indexed == {} then index - {keys[i]} else index[keys[i] := indexed];
        }
      }
      assert keys[..|keys|] == keys;
      assert entries - {candidates} == old(entries) - {candidates};
      PartlyIsWhole(index, old(entries), entries, candidates, keys, hole);
    }

    method RemoveEntries(gone: set<RouteCandidates>, ghost hole: set<RouteKey>)
      requires Indexed(index, entries, hole)
      modifies this`entries, this`index
      ensures Indexed(index, entries, hole) && entries == old(entries) - gone
    {
      var left := gone;
      while left != {}
        invariant left <= gone
        invariant Indexed(index, entries, hole) && entries == old(entries) - (gone - left)
        decreases |left|
      {
        var candidates :| candidates in left;
        RemoveEntry(candidates, hole);
        left := left - {candidates};
      }
    }

    /** Adds index records for candidates that are about to be stored. */
    method AddToIndex(candidates: RouteCandidates, ghost entry: Entry)
      requires Valid()
      modifies this`index
      ensures Indexed(index, entries[candidates := entry], {})
    {
      ghost var stored := entries[candidates := entry];
      NothingIndexedYet(index, entries, stored, {});
      var keys := candidates.Keys();
      for i := 0 to |keys|
        invariant PartlyIndexed(index, entries, stored, keys[..i], {})
      {
        AddIndexStep(index, entries, candidates, entry, keys[..i], keys[i]);
        assert keys[..i + 1] == keys[..i] + [keys[i]];
        var indexed := if keys[i] in index then index[keys[i]] else {};
        index := index[keys[i] := indexed + {candidates}];
      }
      assert keys[..|keys|] == keys;
      PartlyIsWhole(index, entries, stored, candidates, keys, {});
    }

    method EvictOldest()
      requires Valid()
      modifies this`entries, this`index, this`order
      ensures Valid() && (entries, order) == Evict(old(entries), old(order), config.maxEntries)
    {
      while |entries| >= config.maxEntries
        invariant Valid()
        invariant Evict(entries, order, config.maxEntries) == Evict(old(entries), old(order), config.maxEntries)
        decreases |order|
      {
        if order == [] {
          break;
        }
        var record := order[0];
        order := order[1..];
        if record.0 in entries && entries[record.0].id == record.1 {
          RemoveEntry(record.0, {});
        }
      }
    }

    method MakeRoomFor(now: Time)
      requires Valid()
      modifies this`entries, this`index, this`order, this`lastPurge
      ensures Valid() && Model() == MakeRoom(old(Model()), now, config)
    {
      if |entries| < config.maxEntries {
        return;
      }
      if lastPurge.None? || Elapsed(lastPurge.value, now) >= config.negativeTtl {
        RemoveEntries(Dead(entries, now), {});
        lastPurge := Some(now);
      }
      EvictOldest();
    }

    method Compact()
      modifies this`order
      ensures order == LiveRecords(old(order), entries)
    {
      assert order[0..] == order && LiveRecords([], entries) == [];
      hide LiveRecords;
      var kept := [];
      for i := 0 to |order|
        invariant order == old(order)
        invariant kept + LiveRecords(order[i..], entries) == LiveRecords(old(order), entries)
      {
        NextRecord(order, i, entries);
        if order[i].0 in entries && entries[order[i].0].id == order[i].1 {
          kept := kept + [order[i]];
        }
      }
      order := kept;
    }

    method InsertEntry(candidates: RouteCandidates, hits: RouteHits, now: Time, unit: Unit)
      requires Valid()
      modifies this
      ensures Valid() && Model() == Insert(old(Model()), candidates, hits, now, unit, config)
    {
      hide MakeRoom, LiveRecords;
      if config.maxEntries == 0 {
        return;
      }
      var id := TakeId();
      var entry := NewEntry(hits, id, now, unit, config);
      if candidates !in entries {
        MakeRoomFor(now);
        AddToIndex(candidates, entry);
      } else {
        ReplacedStaysIndexed(index, entries, candidates, entry);
      }
      ghost var roomy := Model();
      entries := entries[candidates := entry];
      order := order + [(candidates, id)];
      if |order| > config.maxEntries * 2 {
        Compact();
      }
      assert Model() == Store(roomy, candidates, entry, config);
    }

    /** The locked region of a lookup, with `now` read before the lock was taken. */
    method Begin(candidates: RouteCandidates, now: Time) returns (begun: Begun)
      requires Valid()
      modifies this`inflight, this`nextId, this`runningLoads
      ensures Valid() && (Model(), begun) == BeginLookup(old(Model()), candidates, now, config)
    {
      var stale := None;
      if candidates in entries {
        var entry := entries[candidates];
        if now < entry.expires {
          return Hit(entry.hits);
        }
        if now < entry.staleUntil {
          stale := Some(entry.hits);
        }
      }
      if candidates in inflight {
        return Joined(inflight[candidates], stale);
      }
      if runningLoads >= config.maxInflightLoads {
        return Shed(stale);
      }
      var id := TakeId();
      runningLoads := runningLoads + 1;
      inflight := inflight[candidates := id];
      begun := Started(id, stale);
    }

    /** Empties the cache and the slots of all candidates with `key`; the index is short of it until the end. */
    method Invalidate(key: RouteKey)
      requires Valid()
      modifies this`entries, this`index, this`inflight
      ensures Valid() && Model() == InvalidateKey(old(Model()), key)
    {
      assert KeyIndexed(index, key, Answering(entries, key), {});
      var answers := if key in index then index[key] else {};
      index := index - {key};
      forall other ensures KeyIndexed(index, other, Answering(entries, other), {key}) {
        assert KeyIndexed(old(index), other, Answering(entries, other), {});
      }
      RemoveEntries(answers, {key});
      inflight := map c | c in inflight && !c.Contains(key) :: inflight[c];
      assert Answering(entries, key) == {};
      forall other ensures KeyIndexed(index, other, Answering(entries, other), {}) {
        assert KeyIndexed(index, other, Answering(entries, other), {key});
      }
    }

    method Clear()
      requires Valid()
      modifies this`entries, this`index, this`order, this`inflight
      ensures Valid() && Model() == ClearAll(old(Model()))
    {
      entries, index, order, inflight := map[], map[], [], map[];
    }
  }

  /** Owns one load's completion: `sender` is taken by whichever of completion or drop comes first. */
  class LoadGuard {
    const candidates: RouteCandidates
    const id: nat
    var sender: bool
    var sent: seq<LoadResult>

    constructor (candidates: RouteCandidates, id: nat)
      ensures this.candidates == candidates && this.id == id && sender && sent == []
    {
      this.candidates, this.id := candidates, id;
      sender, sent := true, [];
    }

    method Finish(cache: CachedLookup, result: LoadResult, now: Time, unit: Unit)
      requires cache.Valid() && (sender ==> cache.runningLoads > 0)
      modifies this, cache
      ensures cache.Valid() && !sender
      ensures !old(sender) ==> cache.Model() == old(cache.Model()) && sent == old(sent)
      ensures old(sender) ==>
                && cache.Model() == Settle(old(cache.Model()), candidates, id, result, now, unit, cache.config)
                && sent == old(sent) + [result]
    {
      if !sender {
        return;
      }
      sender := false;
      cache.runningLoads := cache.runningLoads - 1;
      var ownsSlot := candidates in cache.inflight && cache.inflight[candidates] == id;
      if ownsSlot {
        cache.inflight := cache.inflight - {candidates};
      }
      match result {
        case Success(hits) =>
          if ownsSlot {
            cache.InsertEntry(candidates, hits, now, unit);
          }
        case Failure(_) =>
          if candidates in cache.entries && now >= cache.entries[candidates].staleUntil {
            cache.RemoveEntry(candidates, {});
          }
      }
      sent := sent + [result];
    }

    /**
     A load's task from start to end: the guard is completed with the result, or only
     dropped when the load panics. Either way it settles once and sends one result.
     */
    method RunToEnd(cache: CachedLookup, outcome: Option<LoadResult>, now: Time, unit: Unit)
      requires cache.Valid() && cache.runningLoads > 0
      requires sender && sent == []
      modifies this, cache
      ensures cache.Valid()
      ensures var result := if outcome.Some? then outcome.value else Failure(LOAD_ABORTED);
              && sent == [result]
              && cache.Model() == Settle(old(cache.Model()), candidates, id, result, now, unit, cache.config)
    {
      if outcome.Some? {
        Finish(cache, outcome.value, now, unit);
      }
      Finish(cache, Failure(LOAD_ABORTED), now, unit);
    }
  }
}
