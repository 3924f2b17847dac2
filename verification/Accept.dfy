/** Choosing among several listeners (crates/sni_router/src/delivery/server.rs, `accept_any`). */
module Accept {
  import opened Wrappers
  import opened Remainders

  /** How many listeners are polled before `index` when polling starts at `next`. */
  function Ahead(next: nat, index: nat, count: nat): (offset: nat)
    requires index < count
    ensures offset < count
  {
    var start := next % count;
    if index >= start then index - start else index + count - start
  }

  /** The listener polled after `offset` others. */
  function At(next: nat, offset: nat, count: nat): (index: nat)
    requires offset < count
    ensures index < count && Ahead(next, index, count) == offset
  {
    var start := next % count;
    if start + offset < count then start + offset else start + offset - count
  }

  lemma AtAhead(next: nat, index: nat, count: nat)
    requires index < count
    ensures At(next, Ahead(next, index, count), count) == index
  {
  }

  /** The index polling starts at after `index` was taken. */
  function Behind(index: nat, count: nat): (next: nat)
    requires index < count
    ensures next < count && next == (index + 1) % count
  {
    UniqueRemainder(index + 1, count, if index + 1 == count then 1 else 0, if index + 1 == count then 0 else index + 1);
    if index + 1 == count then 0 else index + 1
  }

  /** The ready listener nearest to `next` is taken, and polling next starts behind it. */
  ghost predicate IsPick(ready: seq<bool>, next: nat, chosen: Option<nat>, after: nat) {
    match chosen
    case None => after == next && forall i :: 0 <= i < |ready| ==> !ready[i]
    case Some(index) =>
      && index < |ready| && ready[index]
      && after == Behind(index, |ready|)
      && forall i :: 0 <= i < |ready| && ready[i] ==> Ahead(next, index, |ready|) <= Ahead(next, i, |ready|)
  }

  method AcceptAny(ready: seq<bool>, next: nat) returns (chosen: Option<nat>, after: nat)
    ensures IsPick(ready, next, chosen, after)
  {
    var count := |ready|;
    for offset := 0 to count
      invariant forall i :: 0 <= i < count && ready[i] ==> offset <= Ahead(next, i, count)
    {
      ModSums(next, offset, count);
      var index := (next + offset) % count;
      assert index == At(next, offset, count);
      if ready[index] {
        assert Behind(index, count) == (index + 1) % count;
        return Some(index), (index + 1) % count;
      }
      forall i | 0 <= i < count && ready[i] ensures offset + 1 <= Ahead(next, i, count) {
        AtAhead(next, i, count);
      }
    }
    return None, next;
  }

  lemma PickIsUnique(ready: seq<bool>, next: nat, chosen: Option<nat>, after: nat, chosen': Option<nat>, after': nat)
    requires IsPick(ready, next, chosen, after) && IsPick(ready, next, chosen', after')
    ensures chosen == chosen' && after == after'
  {
    if chosen.Some? && chosen'.Some? {
      AtAhead(next, chosen.value, |ready|);
      AtAhead(next, chosen'.value, |ready|);
    }
  }

  // ----- Fairness over a run of accepts ---------------------------------------------

  /** One accept result: which listeners were ready, and which was taken. */
  datatype Accepted = Accepted(ready: seq<bool>, index: nat)

  /** Results of consecutive accepts over `count` listeners, polling first from `next`. */
  ghost predicate IsRun(results: seq<Accepted>, next: nat, count: nat) {
    results == [] ||
    (&& |results[0].ready| == count
     && exists after :: IsPick(results[0].ready, next, Some(results[0].index), after)
                     && IsRun(results[1..], after, count))
  }

  ghost predicate StaysReady(results: seq<Accepted>, index: nat) {
    forall k :: 0 <= k < |results| ==> index < |results[k].ready| && results[k].ready[index]
  }

  /** A pick of another listener leaves a ready one strictly nearer. */
  lemma PicksComeNearer(ready: seq<bool>, next: nat, chosen: nat, after: nat, waiting: nat)
    requires IsPick(ready, next, Some(chosen), after)
    requires waiting < |ready| && ready[waiting] && waiting != chosen
    ensures Ahead(next, waiting, |ready|) == Ahead(next, chosen, |ready|) + 1 + Ahead(after, waiting, |ready|)
  {
    var count := |ready|;
    AtAhead(next, chosen, count);
    AtAhead(next, waiting, count);
    UniqueRemainder(after, count, 0, after);
  }

  /** A listener that stays ready is taken after at most as many others as are ahead of it. */
  lemma {:induction false} TakenInTurn(results: seq<Accepted>, next: nat, count: nat, waiting: nat) returns (k: nat)
    requires IsRun(results, next, count) && StaysReady(results, waiting) && waiting < count
    requires |results| > Ahead(next, waiting, count)
    ensures k <= Ahead(next, waiting, count) && results[k].index == waiting
    decreases |results|
  {
    if results[0].index == waiting {
      k := 0;
    } else {
      var after :| IsPick(results[0].ready, next, Some(results[0].index), after) && IsRun(results[1..], after, count);
      PicksComeNearer(results[0].ready, next, results[0].index, after, waiting);
      var rest := TakenInTurn(results[1..], after, count, waiting);
      k := rest + 1;
    }
  }

  /** Bounded fairness: whatever the others do, `count` results include a listener that stays ready. */
  lemma AcceptIsFair(results: seq<Accepted>, next: nat, count: nat, waiting: nat)
    requires IsRun(results, next, count) && StaysReady(results, waiting) && waiting < count
    requires |results| >= count
    ensures exists k :: 0 <= k < count && results[k].index == waiting
  {
    var k := TakenInTurn(results, next, count, waiting);
  }

  /** While a ready listener waits, the ones taken come in polling order, so none is taken twice. */
  lemma {:induction false} NoneOvertakesTwice(results: seq<Accepted>, next: nat, count: nat, waiting: nat)
    requires IsRun(results, next, count) && StaysReady(results, waiting) && waiting < count
    requires forall k :: 0 <= k < |results| ==> results[k].index != waiting
    ensures forall k :: 0 <= k < |results| ==>
              results[k].index < count && Ahead(next, results[k].index, count) < Ahead(next, waiting, count)
    ensures forall j, k :: 0 <= j < k < |results| ==>
              Ahead(next, results[j].index, count) < Ahead(next, results[k].index, count)
    decreases |results|
  {
    if results != [] {
      var first := results[0].index;
      var after :| IsPick(results[0].ready, next, Some(first), after) && IsRun(results[1..], after, count);
      PicksComeNearer(results[0].ready, next, first, after, waiting);
      NoneOvertakesTwice(results[1..], after, count, waiting);
      forall k | 1 <= k < |results|
        ensures results[k].index < count
        ensures Ahead(next, results[k].index, count) == Ahead(next, first, count) + 1 + Ahead(after, results[k].index, count)
      {
        assert results[k] == results[1..][k - 1];
        SameLap(next, first, after, results[k].index, count);
      }
      assert forall k :: 1 <= k < |results| ==> results[k] == results[1..][k - 1];
    }
  }

  /** A listener still ahead after a pick was behind the picked one before it. */
  lemma SameLap(next: nat, first: nat, after: nat, later: nat, count: nat)
    requires first < count && later < count
    requires after == Behind(first, count)
    requires Ahead(next, first, count) + 1 + Ahead(after, later, count) < count
    ensures Ahead(next, later, count) == Ahead(next, first, count) + 1 + Ahead(after, later, count)
  {
    UniqueRemainder(after, count, 0, after);
  }

  /** With every listener always ready the picks go round in order, so no bound below `count` would do. */
  lemma {:induction false} RoundRobin(results: seq<Accepted>, next: nat, count: nat)
    requires IsRun(results, next, count)
    requires forall k, i :: 0 <= k < |results| && 0 <= i < |results[k].ready| ==> results[k].ready[i]
    ensures forall k :: 0 <= k < |results| ==> count > 0 && results[k].index == (next + k) % count
    decreases |results|
  {
    if results != [] {
      var first := results[0].index;
      var after :| IsPick(results[0].ready, next, Some(first), after) && IsRun(results[1..], after, count);
      assert results[0].ready[next % count] && Ahead(next, next % count, count) == 0;
      AtAhead(next, first, count);
      RoundRobin(results[1..], after, count);
      forall k | 1 <= k < |results| ensures results[k].index == (next + k) % count {
        assert results[k] == results[1..][k - 1];
        ModAbsorbs(next, 1, count);
        ModAbsorbs(first + 1, k - 1, count);
        ModAbsorbs(next + 1, k - 1, count);
      }
    }
  }
}
