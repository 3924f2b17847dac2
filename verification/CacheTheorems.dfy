/** What the route cache promises of every run (crates/sni_router/src/cache.rs). */
module CacheTheorems {
  import opened Wrappers
  import opened CacheState
  import opened CacheRuns

  /**
   Invalidation freshness: an answer to a lookup that began after an invalidation or
   clear covering its candidates comes from a load that started after it too, however
   late older loads end, and whether the answer is a hit, a shared load or a stale copy.
   */
  lemma AnswersAreFresh(config: CacheConfig, events: seq<Event>, i: nat, m: nat)
    requires Run(config, events).Some? && i < |Run(config, events).value.answers|
    requires var answer := Run(config, events).value.answers[i];
             m < answer.begun && m < |events| && Cancels(events[m], answer.candidates)
    ensures var s := Run(config, events).value;
            var answer := s.answers[i];
            && answer.load in s.loads
            && m < s.loads[answer.load].start < |events|
            && events[s.loads[answer.load].start].Lookup?
            && events[s.loads[answer.load].start].candidates == answer.candidates
  {
    hide Run, StateOk;
    RunsKeep(config, events);
    var s := Run(config, events).value;
    assert AnswerOk(config, events, s.loads, s.answers[i]);
  }

  /**
   Agreement with the store: every answer is what one load of exactly those candidates
   returned, and at the lookup's clock reading it is younger than its lifetime allows.
   */
  lemma AnswersAgreeWithStore(config: CacheConfig, events: seq<Event>, i: nat) returns (end: nat)
    requires Run(config, events).Some? && i < |Run(config, events).value.answers|
    ensures var s := Run(config, events).value;
            var answer := s.answers[i];
            && answer.load in s.loads && s.loads[answer.load].candidates == answer.candidates
            && s.loads[answer.load].start < end < |events|
            && events[end].LoadEnds? && events[end].load == answer.load && events[end].result == Success(answer.hits)
            && (answer.source == FromCache ==>
                  answer.now < events[end].now + Lifetime(answer.hits, config))
            && (answer.source == FromStale ==>
                  answer.now < events[end].now + Lifetime(answer.hits, config) + config.StaleWindow())
  {
    hide Run, StateOk;
    RunsKeep(config, events);
    var s := Run(config, events).value;
    var answer := s.answers[i];
    assert AnswerOk(config, events, s.loads, answer);
    end :| 0 <= end < |events| && events[end].LoadEnds? && events[end].load == answer.load;
  }

  /**
   Load accounting: the counter is the number of loads that have not ended, within its
   cap and positive whenever one has yet to end; each slot is one unfinished load's for
   the same candidates, and no two slots are the same load's.
   */
  lemma LoadsAreCounted(config: CacheConfig, events: seq<Event>)
    requires Run(config, events).Some?
    ensures var s := Run(config, events).value;
            && s.cache.runningLoads == |Unfinished(s.loads)| <= config.maxInflightLoads
            && (forall l :: l in s.loads && s.loads[l].phase.Running? ==> s.cache.runningLoads > 0)
            && (forall c :: c in s.cache.inflight ==>
                  && s.cache.inflight[c] in Unfinished(s.loads)
                  && s.loads[s.cache.inflight[c]].candidates == c)
            && (forall c, d :: c in s.cache.inflight && d in s.cache.inflight && c != d ==>
                  s.cache.inflight[c] != s.cache.inflight[d])
  {
    hide Run, StateOk;
    RunsKeep(config, events);
    var s := Run(config, events).value;
    forall l | l in s.loads && s.loads[l].phase.Running? ensures s.cache.runningLoads > 0 {
      assert l in Unfinished(s.loads);
    }
    forall c | c in s.cache.inflight
      ensures s.cache.inflight[c] in Unfinished(s.loads) && s.loads[s.cache.inflight[c]].candidates == c
    {
      assert SlotOk(events, s, c);
    }
  }

  /**
   A load has ended, with one result, exactly when it is not running. That its end is a
   single event is part of the step system, where only running loads end: it stands for
   the guard's taken sender, whose second end `Cache.LoadGuard.RunToEnd` proves idle.
   */
  lemma LoadsEndOnce(config: CacheConfig, events: seq<Event>, load: nat)
    requires Run(config, events).Some? && load in Run(config, events).value.loads
    ensures var running := Run(config, events).value.loads[load].phase.Running?;
            running <==> forall j :: 0 <= j < |events| && events[j].LoadEnds? ==> events[j].load != load
    ensures forall i, j :: 0 <= i < j < |events| && events[i].LoadEnds? && events[j].LoadEnds? ==>
              !(events[i].load == load && events[j].load == load)
  {
    hide Run, StateOk, LoadsOk, CountOk, SlotsOk, EntriesOk, WaitsOk, AnswersOk;
    RunsKeep(config, events);
  }

  /** A load that ends gives up its slot: no key stays "in flight" without a load running for it. */
  lemma EndFreesSlot(config: CacheConfig, events: seq<Event>, e: Event)
    requires e.LoadEnds? && Run(config, events + [e]).Some?
    ensures var s := Run(config, events + [e]).value;
            forall c :: c in s.cache.inflight ==> s.cache.inflight[c] != e.load
  {
    hide Run, StateOk;
    RunsKeep(config, events + [e]);
    var s := Run(config, events + [e]).value;
    assert (events + [e])[|events|] == e;
    forall c | c in s.cache.inflight ensures s.cache.inflight[c] != e.load {
      assert SlotOk(events + [e], s, c);
    }
  }

  lemma RunSnoc(config: CacheConfig, events: seq<Event>, e: Event)
    requires Run(config, events).Some? && Enabled(Run(config, events).value, e)
    ensures Run(config, events + [e]) == Some(Apply(Run(config, events).value, e, |events|, config))
  {
    assert (events + [e])[..|events|] == events;
  }

  /**
   No waiter is left unanswered: from every reachable state, whatever its load returns,
   a waiting lookup is released within three further events.
   */
  lemma WaitersAreReleased(config: CacheConfig, events: seq<Event>, lookup: nat, result: LoadResult, now: Time, unit: Unit)
    returns (more: seq<Event>)
    requires Run(config, events).Some? && lookup in Run(config, events).value.waits
    ensures |more| <= 3 && Run(config, events + more).Some?
    ensures lookup !in Run(config, events + more).value.waits
  {
    hide Run, StateOk, Settle;
    RunsKeep(config, events);
    var s := Run(config, events).value;
    assert WaitOk(config, events, s.loads, s.waits[lookup]);
    var load := s.waits[lookup].load;
    more := [];
    assert events + more == events;
    if s.loads[load].phase.Running? {
      RunSnoc(config, events, LoadEnds(load, result, now, unit));
      s := Apply(s, LoadEnds(load, result, now, unit), |events|, config);
      more := [LoadEnds(load, result, now, unit)];
    }
    if s.loads[load].phase.Settled? {
      RunSnoc(config, events + more, Publish(load));
      assert events + (more + [Publish(load)]) == events + more + [Publish(load)];
      s := Apply(s, Publish(load), |events + more|, config);
      more := more + [Publish(load)];
    }
    RunSnoc(config, events + more, Deliver(lookup));
    assert events + (more + [Deliver(lookup)]) == events + more + [Deliver(lookup)];
    more := more + [Deliver(lookup)];
  }

  /** In every reachable state the cache is within its bounds and its queue orders its entries. */
  lemma CacheStaysInBounds(config: CacheConfig, events: seq<Event>)
    requires Run(config, events).Some?
    ensures var cache := Run(config, events).value.cache;
            && |cache.entries| <= config.maxEntries && |cache.order| <= 2 * config.maxEntries
            && Increasing(cache.order)
            && (forall c :: c in cache.entries ==>
                  exists i :: 0 <= i < |cache.order| && cache.order[i] == (c, cache.entries[c].id)
                           && forall j :: 0 <= j < |cache.order| && cache.order[j].1 == cache.entries[c].id ==> j == i)
  {
    hide Run;
    RunsKeep(config, events);
    var cache := Run(config, events).value.cache;
    forall c | c in cache.entries
      ensures exists i :: 0 <= i < |cache.order| && cache.order[i] == (c, cache.entries[c].id)
                       && forall j :: 0 <= j < |cache.order| && cache.order[j].1 == cache.entries[c].id ==> j == i
    {
      assert (c, cache.entries[c].id) in cache.order;
      var i :| 0 <= i < |cache.order| && cache.order[i] == (c, cache.entries[c].id);
      assert forall j :: 0 <= j < |cache.order| && j != i ==> cache.order[j].1 != cache.order[i].1;
    }
  }
}
