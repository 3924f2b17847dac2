/**
 The lookup contract and the choice of a route (crates/sni_router/src/lookup/mod.rs,
 crates/sni_router/src/lookup/memory.rs, crates/sni_router/src/routing/mod.rs).
 */
module Routing {
  import opened Wrappers
  import opened Bytes
  import opened Names

  datatype Backend = Backend(host: seq<byte>, port: nat)

  datatype RouteCandidates = RouteCandidates(exact: RouteKey, wildcard: Option<RouteKey>) {
    /** Keys in precedence order. */
    function Keys(): seq<RouteKey> {
      [exact] + if wildcard.Some? then [wildcard.value] else []
    }

    predicate Contains(key: RouteKey) {
      key in Keys()
    }
  }

  type RouteHits = seq<(RouteKey, Backend)>

  type RouteTable = map<RouteKey, Backend>

  datatype RouteMatch = RouteMatch(key: RouteKey, backend: Backend)

  datatype Selection = Selection(matched: Option<RouteMatch>, ignoredHits: nat)

  function CandidatesFor(host: Hostname): RouteCandidates {
    RouteCandidates(ExactKey(host), WildcardFor(host))
  }

  /** The backend of the first hit stored under exactly `key`. */
  function Get(hits: RouteHits, key: RouteKey): Option<Backend> {
    if hits == [] then None
    else if hits[0].0 == key then Some(hits[0].1)
    else Get(hits[1..], key)
  }

  function CountIgnored(candidates: RouteCandidates, hits: RouteHits): nat {
    if hits == [] then 0
    else (if candidates.Contains(hits[0].0) then 0 else 1) + CountIgnored(candidates, hits[1..])
  }

  function FirstMatch(keys: seq<RouteKey>, hits: RouteHits): Option<RouteMatch> {
    if keys == [] then None
    else
      match Get(hits, keys[0])
      case Some(backend) => Some(RouteMatch(keys[0], backend))
      case None => FirstMatch(keys[1..], hits)
  }

  function SelectRoute(candidates: RouteCandidates, hits: RouteHits): Selection {
    Selection(FirstMatch(candidates.Keys(), hits), CountIgnored(candidates, hits))
  }

  function TableHits(routes: RouteTable, keys: seq<RouteKey>): RouteHits {
    if keys == [] then []
    else (if keys[0] in routes then [(keys[0], routes[keys[0]])] else []) + TableHits(routes, keys[1..])
  }

  /** A fixed route table held in memory. */
  class InMemoryLookup {
    var routes: RouteTable

    constructor ()
      ensures routes == map[]
    {
      routes := map[];
    }

    method Insert(key: RouteKey, backend: Backend) returns (previous: Option<Backend>)
      modifies this
      ensures routes == old(routes)[key := backend]
      ensures previous == if key in old(routes) then Some(old(routes)[key]) else None
    {
      previous := if key in routes then Some(routes[key]) else None;
      routes := routes[key := backend];
    }

    function Hits(candidates: RouteCandidates): (hits: RouteHits)
      reads this
      ensures AnswersFrom(routes, candidates, hits)
      ensures |hits| <= |candidates.Keys()| && forall i :: 0 <= i < |hits| ==> candidates.Contains(hits[i].0)
    {
      TableHitsAnswer(routes, candidates.Keys(), candidates);
      TableHits(routes, candidates.Keys())
    }
  }

  // ----- The lookup contract ------------------------------------------------

  /** `hits` says of every candidate key exactly what `table` stores; other hits are unconstrained. */
  ghost predicate AnswersFrom(table: RouteTable, candidates: RouteCandidates, hits: RouteHits) {
    && (forall key :: key in candidates.Keys() && key in table ==> (key, table[key]) in hits)
    && (forall i :: 0 <= i < |hits| && hits[i].0 in candidates.Keys() ==>
          hits[i].0 in table && table[hits[i].0] == hits[i].1)
  }

  lemma {:induction false} TableHitsAnswer(routes: RouteTable, keys: seq<RouteKey>, candidates: RouteCandidates)
    ensures forall i :: 0 <= i < |TableHits(routes, keys)| ==>
              var hit := TableHits(routes, keys)[i];
              hit.0 in keys && hit.0 in routes && routes[hit.0] == hit.1
    ensures forall key :: key in keys && key in routes ==> (key, routes[key]) in TableHits(routes, keys)
    ensures |TableHits(routes, keys)| <= |keys|
  {
    if keys != [] {
      TableHitsAnswer(routes, keys[1..], candidates);
      assert keys == [keys[0]] + keys[1..];
    }
  }

  lemma {:induction false} GetFinds(hits: RouteHits, key: RouteKey)
    ensures Get(hits, key).Some? ==> (key, Get(hits, key).value) in hits
    ensures Get(hits, key).None? ==> forall backend :: (key, backend) !in hits
    ensures Get(hits, key).Some? ==>
              exists i :: 0 <= i < |hits| && hits[i] == (key, Get(hits, key).value) && forall j :: 0 <= j < i ==> hits[j].0 != key
  {
    if hits != [] && hits[0].0 != key {
      GetFinds(hits[1..], key);
      assert hits == [hits[0]] + hits[1..];
      if Get(hits, key).Some? {
        var i :| 0 <= i < |hits| - 1 && hits[1..][i] == (key, Get(hits, key).value)
                 && forall j :: 0 <= j < i ==> hits[1..][j].0 != key;
        assert hits[i + 1] == (key, Get(hits, key).value);
        assert forall j :: 0 < j <= i ==> hits[j] == hits[1..][j - 1];
      }
    }
  }

  /** What `GetFinds` gives on an answer: precisely the table. */
  lemma GetIsTheTable(table: RouteTable, candidates: RouteCandidates, hits: RouteHits, key: RouteKey)
    requires AnswersFrom(table, candidates, hits)
    requires candidates.Contains(key)
    ensures Get(hits, key) == if key in table then Some(table[key]) else None
  {
    GetFinds(hits, key);
  }

  /**
   Exact beats wildcard beats nothing, whatever order the hits come in and whatever
   extra hits come with them; extra hits are counted.
   */
  lemma SelectionFollowsTable(table: RouteTable, candidates: RouteCandidates, hits: RouteHits)
    requires AnswersFrom(table, candidates, hits)
    ensures SelectRoute(candidates, hits).matched ==
            if candidates.exact in table then
              Some(RouteMatch(candidates.exact, table[candidates.exact]))
            else if candidates.wildcard.Some? && candidates.wildcard.value in table then
              Some(RouteMatch(candidates.wildcard.value, table[candidates.wildcard.value]))
            else None
  {
    GetIsTheTable(table, candidates, hits, candidates.exact);
    var keys := candidates.Keys();
    assert keys[0] == candidates.exact;
    if candidates.wildcard.Some? {
      GetIsTheTable(table, candidates, hits, candidates.wildcard.value);
      var tail := keys[1..];
      assert tail == [candidates.wildcard.value];
      assert FirstMatch(tail[1..], hits).None?;
      assert FirstMatch(tail, hits) ==
             if tail[0] in table then Some(RouteMatch(tail[0], table[tail[0]])) else None;
    } else {
      assert keys[1..] == [];
      assert FirstMatch(keys[1..], hits).None?;
    }
  }

  lemma {:induction false} IgnoredSplits(candidates: RouteCandidates, left: RouteHits, right: RouteHits)
    ensures CountIgnored(candidates, left + right) == CountIgnored(candidates, left) + CountIgnored(candidates, right)
  {
    if left == [] {
      assert left + right == right;
    } else {
      IgnoredSplits(candidates, left[1..], right);
      assert (left + right)[1..] == left[1..] + right;
    }
  }

  lemma WithoutOne(hits: RouteHits, others: RouteHits, i: nat)
    requires hits != [] && multiset(hits) == multiset(others)
    requires i < |others| && others[i] == hits[0]
    ensures multiset(hits[1..]) == multiset(others[..i] + others[i + 1..])
  {
    assert hits == [hits[0]] + hits[1..];
    assert others == others[..i] + [others[i]] + others[i + 1..];
    var one := multiset{hits[0]};
    assert multiset(hits) == one + multiset(hits[1..]);
    assert multiset(others) == one + multiset(others[..i] + others[i + 1..]);
    assert multiset(hits[1..]) == multiset(hits) - one;
    assert multiset(others[..i] + others[i + 1..]) == multiset(others) - one;
  }

  /** The count of ignored hits does not depend on their order, and is zero only without any. */
  lemma {:induction false} IgnoredIgnoresOrder(candidates: RouteCandidates, hits: RouteHits, others: RouteHits)
    requires multiset(hits) == multiset(others)
    ensures CountIgnored(candidates, hits) == CountIgnored(candidates, others)
    ensures CountIgnored(candidates, hits) == 0 <==> forall hit :: hit in hits ==> candidates.Contains(hit.0)
    decreases |hits|
  {
    hide RouteCandidates.Contains;
    if hits == [] {
      assert |multiset(others)| == 0;
    } else {
      assert hits[0] in multiset(others);
      var i :| 0 <= i < |others| && others[i] == hits[0];
      var rest := others[..i] + others[i + 1..];
      WithoutOne(hits, others, i);
      IgnoredIgnoresOrder(candidates, hits[1..], rest);
      assert others == others[..i] + ([others[i]] + others[i + 1..]);
      assert hits == [hits[0]] + hits[1..];
      assert forall hit :: hit in hits <==> hit == hits[0] || hit in hits[1..];
      IgnoredSplits(candidates, others[..i], others[i + 1..]);
      IgnoredSplits(candidates, others[..i], [others[i]] + others[i + 1..]);
      assert ([others[i]] + others[i + 1..])[1..] == others[i + 1..];
    }
  }

  /** The positions of hits for keys that were not asked for. */
  ghost function Uncalled(candidates: RouteCandidates, hits: RouteHits): set<nat> {
    set i: nat | i < |hits| && !candidates.Contains(hits[i].0)
  }

  /** The count is how many hits were for keys that were not asked for. */
  lemma {:induction false} IgnoredAreCounted(candidates: RouteCandidates, hits: RouteHits)
    ensures SelectRoute(candidates, hits).ignoredHits == |Uncalled(candidates, hits)|
    decreases |hits|
  {
    hide RouteCandidates.Contains, FirstMatch;
    if hits != [] {
      var front, last := hits[..|hits| - 1], hits[|hits| - 1];
      IgnoredAreCounted(candidates, front);
      IgnoredSplits(candidates, front, [last]);
      assert front + [last] == hits && [last][1..] == [];
      assert Uncalled(candidates, hits) ==
             Uncalled(candidates, front) + if candidates.Contains(last.0) then {} else {|hits| - 1};
    }
  }

  // ----- The whole policy ---------------------------------------------------

  /** What a stored key promises to match: the same name, or one label in front of the same parent. */
  ghost predicate Covers(key: RouteKey, host: Hostname) {
    if key.wildcard then
      && WILDCARD_PREFIX <= key.text
      && exists piece: seq<byte> :: piece != [] && DOT !in piece && host.text == piece + [DOT] + key.text[2..]
    else key.text == host.text
  }

  /** Every key of the table was parsed from stored text. */
  ghost predicate Stored(table: RouteTable) {
    forall key :: key in table ==> exists text: seq<byte> :: ParseRouteKey(text) == Success(key)
  }

  lemma OneOfTwo(candidates: RouteCandidates, key: RouteKey)
    ensures candidates.Contains(key) <==> key == candidates.exact || candidates.wildcard == Some(key)
  {
  }

  lemma CandidatesAreCovering(table: RouteTable, host: Hostname, key: RouteKey)
    requires Stored(table) && IsHostname(host) && key in table
    ensures CandidatesFor(host).Contains(key) <==> Covers(key, host)
  {
    var text: seq<byte> :| ParseRouteKey(text) == Success(key);
    assert WildcardFor(host).Some? ==> WildcardFor(host).value.wildcard;
    OneOfTwo(CandidatesFor(host), key);
    hide ParseRouteKey, WildcardFor, IsHostname, RouteCandidates.Keys;
    if key.wildcard {
      StoredWildcard(text, key);
      WildcardCoversOneLabel(text, key, host);
    } else {
      assert key == RouteKey(key.text, false);
    }
  }

  /**
   For every stored table, valid host and conforming answer, the route chosen is the
   most specific stored key that covers the host; there is none exactly when no stored
   key covers it.
   */
  lemma HostIsRouted(table: RouteTable, host: Hostname, hits: RouteHits)
    requires Stored(table) && IsHostname(host)
    requires AnswersFrom(table, CandidatesFor(host), hits)
    ensures var matched := SelectRoute(CandidatesFor(host), hits).matched;
            && (matched.Some? <==> exists key :: key in table && Covers(key, host))
            && (matched.Some? ==>
                  var route := matched.value;
                  && route.key in table && table[route.key] == route.backend && Covers(route.key, host)
                  && (route.key.wildcard ==> ExactKey(host) !in table)
                  && (forall key :: key in table && Covers(key, host) && key != route.key ==> key.wildcard))
  {
    var candidates := CandidatesFor(host);
    SelectionFollowsTable(table, candidates, hits);
    forall key | key in table ensures candidates.Contains(key) <==> Covers(key, host) {
      CandidatesAreCovering(table, host, key);
    }
    assert candidates.Keys()[0] == ExactKey(host);
    assert forall key :: candidates.Contains(key) ==> key == candidates.exact || candidates.wildcard == Some(key);
  }
}
