/**
 The backend resolver's locked regions as functions on its state
 (crates/sni_router/src/delivery/resolver.rs).
 */
module ResolverState {
  import opened Wrappers
  import opened Remainders

  /** Seconds on the monotone clock. */
  type Time = real
  type Duration = d: real | d >= 0.0

  datatype Key = Key(name: string, port: nat)

  datatype SocketAddr = SocketAddr(ip: nat, port: nat)

  datatype ErrorKind = NotFound | Failed(code: nat)

  /** What one system lookup gave, and what a caller is told. */
  type Reply = Result<seq<SocketAddr>, ErrorKind>

  /** A failure is answered from memory for this long. */
  const NEGATIVE_TTL: Duration := 1.0
  /** A refresh that fails within this long of the TTL's end leaves the old answer in use. */
  const STALE_IF_ERROR: Duration := 60.0
  const PRUNE_THRESHOLD := 4096

  datatype Entry = Entry(addrs: Option<seq<SocketAddr>>, freshUntil: Time, staleUntil: Time)

  type Cache = map<Key, Entry>

  /** `inflight` maps a key to the lookup its callers wait on. */
  datatype State = State(cache: Cache, inflight: map<Key, nat>, nextLookup: nat)

  const EMPTY := State(map[], map[], 0)

  datatype Begun =
    | Answered(reply: Reply)
    | Joined(lookup: nat)
    | Started(lookup: nat)

  function Fresh(cache: Cache, key: Key, now: Time): Option<Reply> {
    if key in cache && now < cache[key].freshUntil then
      Some(if cache[key].addrs.Some? then Success(cache[key].addrs.value) else Failure(NotFound))
    else
      None
  }

  /** The locked region of `resolve`. */
  function Begin(s: State, key: Key, now: Time): (State, Begun) {
    var cached := Fresh(s.cache, key, now);
    if cached.Some? then (s, Answered(cached.value))
    else if key in s.inflight then (s, Joined(s.inflight[key]))
    else (s.(inflight := s.inflight[key := s.nextLookup], nextLookup := s.nextLookup + 1), Started(s.nextLookup))
  }

  predicate IsGood(result: Reply) {
    result.Success? && result.value != []
  }

  function ErrorOf(result: Reply): ErrorKind {
    if result.Failure? then result.error else NotFound
  }

  predicate IsKept(entry: Entry, now: Time) {
    now < entry.staleUntil || now < entry.freshUntil
  }

  function Pruned(cache: Cache, now: Time): Cache {
    map key | key in cache && IsKept(cache[key], now) :: cache[key]
  }

  /** The entry that a lookup result makes of the one before it. */
  function Refreshed(previous: Option<Entry>, result: Reply, now: Time, ttl: Duration): Entry {
    if IsGood(result) then
      Entry(Some(result.value), now + ttl, now + ttl + STALE_IF_ERROR)
    else if previous.Some? && previous.value.addrs.Some? && now < previous.value.staleUntil then
      previous.value.(freshUntil := now + NEGATIVE_TTL)
    else
      Entry(None, now + NEGATIVE_TTL, if previous.Some? then previous.value.staleUntil else now)
  }

  function Store(cache: Cache, key: Key, result: Reply, now: Time, ttl: Duration): (Cache, Reply) {
    var entry := Refreshed(if key in cache then Some(cache[key]) else None, result, now, ttl);
    (cache[key := entry], if entry.addrs.Some? then Success(entry.addrs.value) else Failure(ErrorOf(result)))
  }

  /** The locked region that ends a lookup, in a resolver that prunes or in one that never does. */
  function Finish(s: State, key: Key, result: Reply, now: Time, ttl: Duration, prunes: bool): (State, Reply) {
    var cache := if prunes && |s.cache| >= PRUNE_THRESHOLD then Pruned(s.cache, now) else s.cache;
    var (stored, reply) := Store(cache, key, result, now, ttl);
    (s.(cache := stored, inflight := s.inflight - {key}), reply)
  }

  function Rotation(addrs: seq<SocketAddr>, counter: nat): (rotated: seq<SocketAddr>)
    ensures |rotated| == |addrs|
  {
    var start := if addrs == [] then 0 else counter % |addrs|;
    addrs[start..] + addrs[..start]
  }

  /** The rotation counter is a machine word. */
  const USIZE_COUNT: nat := 0x1_0000_0000_0000_0000

  /** The position of the address tried first `turn` calls after the counter read `counter`. */
  function FirstTried(count: nat, counter: nat, turn: nat): nat
    requires count > 0
  {
    (counter + turn) % USIZE_COUNT % count
  }

  function Around(count: nat, start: nat, steps: nat): nat
    requires start < count && steps < count
  {
    if start + steps < count then start + steps else start + steps - count
  }

  /** A rotation tries every address, in cyclic order from its first. */
  lemma RotationIsCyclic(addrs: seq<SocketAddr>, counter: nat)
    requires addrs != []
    ensures multiset(Rotation(addrs, counter)) == multiset(addrs)
    ensures forall i :: 0 <= i < |addrs| ==>
              Rotation(addrs, counter)[i] == addrs[Around(|addrs|, counter % |addrs|, i)]
  {
    var start := counter % |addrs|;
    assert addrs == addrs[..start] + addrs[start..];
  }

  /** A run of counter values that does not wrap, or wraps evenly, goes round the positions in order. */
  lemma TurnsGoRound(count: nat, counter: nat, turn: nat)
    requires turn < count && counter < USIZE_COUNT && count <= USIZE_COUNT
    requires counter + turn < USIZE_COUNT || USIZE_COUNT % count == 0
    ensures FirstTried(count, counter, turn) == Around(count, counter % count, turn)
  {
    ModSums(counter, turn, count);
    if counter + turn >= USIZE_COUNT {
      AfterWrap(counter, turn, USIZE_COUNT);
      MultiplesDrop(counter + turn, USIZE_COUNT, count);
    }
  }

  /**
   As many consecutive calls as there are addresses try each of them first exactly when
   the counter does not wrap among them or the addresses divide its range.
   */
  lemma FirstTriesSpread(count: nat, counter: nat)
    requires 0 < count <= USIZE_COUNT && counter < USIZE_COUNT
    ensures (forall turn, other :: 0 <= turn < other < count ==>
               FirstTried(count, counter, turn) != FirstTried(count, counter, other))
            <==> (counter + count <= USIZE_COUNT || USIZE_COUNT % count == 0)
    ensures counter + count <= USIZE_COUNT || USIZE_COUNT % count == 0 ==>
              forall which :: 0 <= which < count ==> TriedFirst(count, counter, which)
  {
    if counter + count <= USIZE_COUNT || USIZE_COUNT % count == 0 {
      forall turn | 0 <= turn < count
        ensures FirstTried(count, counter, turn) == Around(count, counter % count, turn)
      {
        TurnsGoRound(count, counter, turn);
      }
      hide FirstTried;
      var start := counter % count;
      forall which | 0 <= which < count ensures TriedFirst(count, counter, which) {
        assert FirstTried(count, counter, if which >= start then which - start else which + count - start) == which;
      }
    } else {
      var turn, other := UnevenWrapRepeats(counter, USIZE_COUNT, count);
      assert FirstTried(count, counter, turn) == FirstTried(count, counter, other);
    }
  }

  ghost predicate TriedFirst(count: nat, counter: nat, which: nat)
    requires count > 0
  {
    exists turn :: 0 <= turn < count && FirstTried(count, counter, turn) == which
  }
}

/** The resolver as an object (crates/sni_router/src/delivery/resolver.rs). */
module Resolver {
  import opened Wrappers
  import opened ResolverState

  class Resolver {
    const ttl: Duration
    var cache: Cache
    var inflight: map<Key, nat>
    var nextLookup: nat
    var rotation: nat

    function Model(): State
      reads this
    {
      State(cache, inflight, nextLookup)
    }

    constructor (ttl: Duration)
      ensures Model() == EMPTY && rotation == 0 && this.ttl == ttl
    {
      this.ttl := ttl;
      cache, inflight, nextLookup, rotation := map[], map[], 0, 0;
    }

    method BeginResolve(key: Key, now: Time) returns (begun: Begun)
      modifies this`inflight, this`nextLookup
      ensures (Model(), begun) == Begin(old(Model()), key, now)
    {
      if key in cache && now < cache[key].freshUntil {
        match cache[key].addrs
        case Some(addrs) => return Answered(Success(addrs));
        case None => return Answered(Failure(NotFound));
      }
      if key in inflight {
        return Joined(inflight[key]);
      }
      begun := Started(nextLookup);
      inflight := inflight[key := nextLookup];
      nextLookup := nextLookup + 1;
    }

    method Prune(now: Time)
      modifies this`cache
      ensures cache == Pruned(old(cache), now)
    {
      var left := cache.Keys;
      while left != {}
        invariant left <= old(cache).Keys && left <= cache.Keys
        invariant forall key :: key in cache <==>
                    key in left || (key in old(cache) && IsKept(old(cache)[key], now))
        invariant forall key :: key in cache ==> key in old(cache) && cache[key] == old(cache)[key]
        decreases |left|
      {
        var key :| key in left;
        left := left - {key};
        if !(now < cache[key].staleUntil || now < cache[key].freshUntil) {
          cache := cache - {key};
        }
      }
    }

    /** Ends a lookup: frees its slot, and records what it gave. */
    method FinishLookup(key: Key, result: Reply, now: Time) returns (reply: Reply)
      modifies this`cache, this`inflight
      ensures (Model(), reply) == Finish(old(Model()), key, result, now, ttl, true)
    {
      inflight := inflight - {key};
      if |cache| >= PRUNE_THRESHOLD {
        Prune(now);
      }
      if result.Success? && result.value != [] {
        var freshUntil := now + ttl;
        cache := cache[key := Entry(Some(result.value), freshUntil, freshUntil + STALE_IF_ERROR)];
        return Success(result.value);
      }
      var error := if result.Failure? then result.error else NotFound;
      var entry := if key in cache then cache[key] else Entry(None, now, now);
      entry := entry.(freshUntil := now + NEGATIVE_TTL);
      if entry.addrs.Some? && now < entry.staleUntil {
        reply := Success(entry.addrs.value);
      } else {
        entry := entry.(addrs := None);
        reply := Failure(error);
      }
      cache := cache[key := entry];
    }

    /** The addresses in the order this caller tries them; the counter wraps as a machine word. */
    method Rotated(addrs: seq<SocketAddr>) returns (rotated: seq<SocketAddr>)
      modifies this`rotation
      ensures rotated == Rotation(addrs, old(rotation))
      ensures rotation == (old(rotation) + 1) % USIZE_COUNT
    {
      var start := rotation % (if |addrs| > 1 then |addrs| else 1);
      rotation := (rotation + 1) % USIZE_COUNT;
      rotated := addrs[start..] + addrs[..start];
    }
  }
}
