/** What each caller of the idempotency middleware is answered: when a request is refused as a
    conflict, when a repeat is answered from the cache, and which responses are cached at all. */
module IdempotencyReplies {
  import opened Digests
  import OM = OrderedMap
  import opened Idempotency

  /** The store holds an entry of this principal, route and key under another body hash. */
  predicate OtherBodyStored(s: Store, k: Key) {
    exists i :: 0 <= i < |s.items| &&
      s.items[i].0.principal == k.principal && s.items[i].0.route == k.route &&
      s.items[i].0.key == k.key && s.items[i].0.bodyHash != k.bodyHash
  }

  /** In every run, a step leaves a request refused if and only if it was refused before or it is its
      arrival and the store holds the same principal, route and key under another body hash. */
  lemma RefusedExactly(cfg: Config, steps: seq<Step>, step: Step, r: nat)
    requires cfg.maxEntries >= 1 && Possible(cfg, steps) && Enabled(After(cfg, steps), step)
    requires r in Apply(cfg, After(cfg, steps), step).requests
    ensures var sys, next := After(cfg, steps), Apply(cfg, After(cfg, steps), step);
            next.requests[r].phase.Conflicted? <==>
              || (r in sys.requests && sys.requests[r].phase.Conflicted?)
              || (step.Arrive? && step.rid == r && OtherBodyStored(sys.store, step.key))
  {
    var sys := After(cfg, steps);
    if step.Arrive? {
      if OtherBodyStored(sys.store, step.key) {
        var i :| 0 <= i < |sys.store.items| &&
          sys.store.items[i].0.principal == step.key.principal && sys.store.items[i].0.route == step.key.route &&
          sys.store.items[i].0.key == step.key.key && sys.store.items[i].0.bodyHash != step.key.bodyHash;
        assert SameRequestOtherBody(sys.store.items[i].0, step.key);
      }
    }
  }

  // ---------------------------------------------------------------- where entries come from

  /** Every cached key was asked for. */
  ghost predicate KeysWereAsked(sys: System) {
    forall i | 0 <= i < |sys.store.items| :: Asked(sys, sys.store.items[i].0)
  }

  ghost predicate Asked(sys: System, k: Key) {
    exists r :: r in sys.requests && sys.requests[r].key == k
  }

  lemma AskedStays(cfg: Config, sys: System, step: Step, k: Key)
    requires cfg.maxEntries >= 1 && Enabled(sys, step) && Asked(sys, k)
    ensures Asked(Apply(cfg, sys, step), k)
  {
    var r :| r in sys.requests && sys.requests[r].key == k;
    assert r in Apply(cfg, sys, step).requests && Apply(cfg, sys, step).requests[r].key == k;
  }

  /** Looking up and saving bring in no key but their own. */
  lemma KeysAfter(cfg: Config, sys: System, step: Step, p: (Key, Entry))
    requires cfg.maxEntries >= 1 && StoreOk(cfg, sys.store) && Enabled(sys, step)
    requires p in Apply(cfg, sys, step).store.items
    ensures p in sys.store.items || (step.Finish? && p.0 == sys.requests[step.rid].key)
  {
    match step
    case Arrive(_, key, _) => LookupKeys(sys.store, key, step.now, p);
    case Wake(rid, now) => LookupKeys(sys.store, sys.requests[rid].key, now, p);
    case Finish(rid, outcome) =>
      if Cacheable(outcome) {
        var kept := Trimmed(cfg, sys.store.items);
        if |sys.store.items| >= cfg.maxEntries { OM.PopFirstProperties(sys.store.items); }
        OM.PutProperties(kept, sys.requests[rid].key,
                         Entry(outcome.response.status, outcome.response.body, outcome.now + cfg.ttl));
        assert p in kept ==> p in sys.store.items;
      }
  }

  lemma LookupKeys(s: Store, k: Key, now: int, p: (Key, Entry))
    requires OM.Distinct(s.items)
    ensures p in Lookup(s, k, now).0.items ==> p in s.items
  {
    OM.RemoveProperties(s.items, k);
    OM.GetMeansMember(s.items, k);
  }

  lemma {:induction false} EveryKeyWasAsked(cfg: Config, steps: seq<Step>)
    requires cfg.maxEntries >= 1 && Possible(cfg, steps)
    ensures KeysWereAsked(After(cfg, steps))
    decreases |steps|
  {
    if steps != [] {
      var before, step := steps[..|steps| - 1], steps[|steps| - 1];
      var sys, next := After(cfg, before), After(cfg, steps);
      EveryKeyWasAsked(cfg, before);
      CacheStaysBounded(cfg, before);
      forall i | 0 <= i < |next.store.items|
        ensures Asked(next, next.store.items[i].0)
      {
        var p := next.store.items[i];
        KeysAfter(cfg, sys, step, p);
        if step.Finish? && p.0 == sys.requests[step.rid].key {
          assert Asked(sys, p.0);
        } else {
          assert p in sys.store.items;
        }
        AskedStays(cfg, sys, step, p.0);
      }
    }
  }

  // ---------------------------------------------------------------- one body per key

  /** Nobody used the principal, route and key of `k` with another body. */
  predicate OneBody(sys: System, k: Key) {
    forall r | r in sys.requests && sys.requests[r].key.principal == k.principal
               && sys.requests[r].key.route == k.route && sys.requests[r].key.key == k.key ::
      sys.requests[r].key.bodyHash == k.bodyHash
  }

  lemma OneBodyNeverConflicts(cfg: Config, steps: seq<Step>, k: Key)
    requires cfg.maxEntries >= 1 && Possible(cfg, steps) && OneBody(After(cfg, steps), k)
    ensures !OtherBodyStored(After(cfg, steps).store, k) && !Conflicts(After(cfg, steps).store, k)
  {
    var sys := After(cfg, steps);
    EveryKeyWasAsked(cfg, steps);
    forall i | 0 <= i < |sys.store.items|
      ensures !SameRequestOtherBody(sys.store.items[i].0, k)
    {
      assert Asked(sys, sys.store.items[i].0);
    }
  }

  /** No request is refused when all requests with its principal, route and key carry one body,
      whatever expires, fails or is evicted meanwhile. */
  lemma {:induction false} OneBodyIsNeverRefused(cfg: Config, steps: seq<Step>, k: Key, r: nat)
    requires cfg.maxEntries >= 1 && Possible(cfg, steps) && OneBody(After(cfg, steps), k)
    requires r in After(cfg, steps).requests && After(cfg, steps).requests[r].key == k
    ensures !After(cfg, steps).requests[r].phase.Conflicted?
    decreases |steps|
  {
    if steps != [] {
      var before, step := steps[..|steps| - 1], steps[|steps| - 1];
      var sys, next := After(cfg, before), After(cfg, steps);
      forall x | x in sys.requests
        ensures x in next.requests && next.requests[x].key == sys.requests[x].key
      {
      }
      OneBodyNeverConflicts(cfg, before, k);
      RefusedExactly(cfg, before, step, r);
      if r in sys.requests { OneBodyIsNeverRefused(cfg, before, k, r); }
    }
  }

  /** A repeat after the handler's run: in an undisturbed run whose handler run for `k` has finished
      in request `o`, a newly arriving request is answered at once, without the handler and with the
      response of `o`, if and only if the cached response has not expired and the store holds no
      other body of the same principal, route and key. */
  lemma RepeatIsAnsweredExactly(cfg: Config, steps: seq<Step>, k: Key, o: nat, rid: nat, now: int)
    requires cfg.maxEntries >= 1 && Possible(cfg, steps) && UndisturbedRun(cfg, steps, k)
    requires var sys := After(cfg, steps);
             && o in sys.requests && sys.requests[o].key == k && sys.requests[o].ran && sys.requests[o].phase.Done?
             && rid !in sys.requests
    ensures var sys, next := After(cfg, steps), Apply(cfg, After(cfg, steps), Arrive(rid, k, now));
            && OM.Get(sys.store.items, k).Some?
            && (next.requests[rid] == Request(k, Done(sys.requests[o].phase.response), false) <==>
                  now < OM.Get(sys.store.items, k).value.expiresAt && !OtherBodyStored(sys.store, k))
  {
    var sys := After(cfg, steps);
    EveryRunFlies(cfg, steps, k);
    RefusedExactly(cfg, steps, Arrive(rid, k, now), rid);
    FinishedIsSettled(sys, k, o);
  }

  lemma FinishedIsSettled(sys: System, k: Key, o: nat)
    requires Flight(sys, k) && o in sys.requests && sys.requests[o].key == k
    requires sys.requests[o].ran && sys.requests[o].phase.Done?
    ensures Settled(sys, k, o)
  {
    assert !Fresh(sys, k);
    assert forall w :: !InFlight(sys, k, w);
    var w :| Settled(sys, k, w);
    assert w == o;
  }

  /** An ordinary retry, with one body per key and before the expiry, gets the first answer. */
  lemma RetryGetsTheFirstAnswer(cfg: Config, steps: seq<Step>, k: Key, o: nat, rid: nat, now: int)
    requires cfg.maxEntries >= 1 && Possible(cfg, steps) && UndisturbedRun(cfg, steps, k)
    requires OneBody(After(cfg, steps), k)
    requires var sys := After(cfg, steps);
             && o in sys.requests && sys.requests[o].key == k && sys.requests[o].ran && sys.requests[o].phase.Done?
             && rid !in sys.requests && Undisturbed(cfg, sys, Arrive(rid, k, now), k)
    ensures var sys := After(cfg, steps);
            Apply(cfg, sys, Arrive(rid, k, now)).requests[rid] == Request(k, Done(sys.requests[o].phase.response), false)
  {
    RepeatIsAnsweredExactly(cfg, steps, k, o, rid, now);
    OneBodyNeverConflicts(cfg, steps, k);
  }

  // ---------------------------------------------------------------- which responses are replayed

  /** In every run, a response that ends a handler run of a key without cached response answers the
      next request of that key if and only if its status is below 400, it has not expired and no other
      body of the key is stored; otherwise the handler runs again, or the request is refused. */
  lemma ReplayedExactlyBelow400(cfg: Config, steps: seq<Step>, rid: nat, response: Response, t: int, next: nat, now: int)
    requires cfg.maxEntries >= 1 && Possible(cfg, steps)
    requires var sys := After(cfg, steps);
             && rid in sys.requests && sys.requests[rid].phase.Running?
             && OM.Get(sys.store.items, sys.requests[rid].key).None? && next !in sys.requests
    ensures var sys := After(cfg, steps);
            var k, done := sys.requests[rid].key, Apply(cfg, sys, Finish(rid, Returned(response, t)));
            var end := Apply(cfg, done, Arrive(next, k, now));
            && (end.requests[next] == Request(k, Done(response), false) <==>
                  response.status < 400 && now < t + cfg.ttl && !OtherBodyStored(done.store, k))
            && (end.requests[next] == Request(k, Running, true) <==>
                  !(response.status < 400 && now < t + cfg.ttl) && !OtherBodyStored(done.store, k))
            && (end.requests[next] == Request(k, Conflicted, false) <==> OtherBodyStored(done.store, k))
  {
    var sys := After(cfg, steps);
    var k, done := sys.requests[rid].key, Apply(cfg, sys, Finish(rid, Returned(response, t)));
    CacheStaysBounded(cfg, steps);
    FinishStore(cfg, sys, Finish(rid, Returned(response, t)));
    if response.status < 400 { SaveProperties(cfg, sys.store, k, response.status, response.body, t); }
    assert OtherBodyStored(done.store, k) <==> Conflicts(done.store, k) by {
      if OtherBodyStored(done.store, k) {
        var i :| 0 <= i < |done.store.items| &&
          done.store.items[i].0.principal == k.principal && done.store.items[i].0.route == k.route &&
          done.store.items[i].0.key == k.key && done.store.items[i].0.bodyHash != k.bodyHash;
        assert SameRequestOtherBody(done.store.items[i].0, k);
      }
    }
  }

  /** The refusal outlives the entry it protects: an entry that has expired but has not been looked up
      or purged still refuses another body. */
  lemma ExpiredEntryStillRefuses(cfg: Config, k: Key, other: Key, response: Response)
    requires cfg.maxEntries >= 1 && response.status < 400 && SameRequestOtherBody(k, other)
    ensures var steps := [Arrive(0, k, 0), Finish(0, Returned(response, 0)), Arrive(1, other, cfg.ttl)];
            && Possible(cfg, steps) && After(cfg, steps).requests[1] == Request(other, Conflicted, false)
  {
    var s1, s2 := [Arrive(0, k, 0)], [Arrive(0, k, 0), Finish(0, Returned(response, 0))];
    Extend(cfg, [], Arrive(0, k, 0), s1);
    Extend(cfg, s1, Finish(0, Returned(response, 0)), s2);
    assert After(cfg, s2).store.items == [(k, Entry(response.status, response.body, cfg.ttl))];
    assert SameRequestOtherBody(After(cfg, s2).store.items[0].0, other);
    Extend(cfg, s2, Arrive(1, other, cfg.ttl), [Arrive(0, k, 0), Finish(0, Returned(response, 0)), Arrive(1, other, cfg.ttl)]);
  }

  /** Exactly once, answered: in an undisturbed run with one body per key, one request `o` invokes the
      handler and no other does, nobody is refused or fails, and everyone who has an answer has the
      answer of `o`. */
  lemma OneRunServesAll(cfg: Config, steps: seq<Step>, k: Key, a: nat) returns (o: nat)
    requires cfg.maxEntries >= 1 && Possible(cfg, steps) && UndisturbedRun(cfg, steps, k)
    requires OneBody(After(cfg, steps), k)
    requires a in After(cfg, steps).requests && After(cfg, steps).requests[a].key == k
    ensures var reqs := After(cfg, steps).requests;
            && o in reqs && reqs[o].key == k && reqs[o].ran && (reqs[o].phase.Running? || reqs[o].phase.Done?)
            && forall r | r in reqs && reqs[r].key == k && r != o ::
                 !reqs[r].ran && (reqs[r].phase.Waiting? || (reqs[r].phase.Done? && reqs[r].phase == reqs[o].phase))
  {
    var sys := After(cfg, steps);
    EveryRunFlies(cfg, steps, k);
    forall r | r in sys.requests && sys.requests[r].key == k
      ensures !sys.requests[r].phase.Conflicted?
    {
      OneBodyIsNeverRefused(cfg, steps, k, r);
    }
    assert !Fresh(sys, k);
    if x :| InFlight(sys, k, x) {
      o := x;
    } else {
      var y :| Settled(sys, k, y);
      o := y;
    }
  }

  // ---------------------------------------------------------------- which responses stay cached

  /** How many entries stand in front of a key: the front is evicted first. */
  function Ahead(items: seq<(Key, Entry)>, k: Key): nat {
    if items == [] || items[0].0 == k then 0 else 1 + Ahead(items[1..], k)
  }

  lemma {:induction false} AheadOfRemove(d: seq<(Key, Entry)>, x: Key, k: Key)
    requires x != k && OM.Get(d, k).Some?
    ensures OM.Get(OM.Remove(d, x), k) == OM.Get(d, k) && Ahead(OM.Remove(d, x), k) + 1 >= Ahead(d, k)
  {
    if d[0].0 != x && d[0].0 != k { AheadOfRemove(d[1..], x, k); }
  }

  lemma {:induction false} AheadOfConcat(a: seq<(Key, Entry)>, b: seq<(Key, Entry)>, k: Key)
    ensures Ahead(a + b, k) == if OM.Get(a, k).Some? then Ahead(a, k) else |a| + Ahead(b, k)
  {
    if a == [] {
      assert a + b == b;
    } else {
      assert (a + b)[1..] == a[1..] + b;
      AheadOfConcat(a[1..], b, k);
    }
  }

  lemma {:induction false} AheadOfPut(d: seq<(Key, Entry)>, x: Key, e: Entry, k: Key)
    requires OM.Get(d, k).Some?
    ensures OM.Get(OM.Put(d, x, e), k).Some? && Ahead(OM.Put(d, x, e), k) == Ahead(d, k)
  {
    if d[0].0 != x && d[0].0 != k { AheadOfPut(d[1..], x, e, k); }
  }

  /** Looking a key up puts it behind all others. */
  lemma HitGoesToTheBack(cfg: Config, s: Store, k: Key, now: int)
    requires StoreOk(cfg, s) && Lookup(s, k, now).1.Some?
    ensures var s' := Lookup(s, k, now).0;
            OM.Get(s'.items, k) == OM.Get(s.items, k) && |s'.items| == |s.items| && Ahead(s'.items, k) == |s.items| - 1
  {
    OM.RemoveProperties(s.items, k);
    OM.MoveToEndProperties(s.items, k);
    AheadOfConcat(OM.Remove(s.items, k), [(k, OM.Get(s.items, k).value)], k);
  }

  lemma LookupKeepsPlace(cfg: Config, s: Store, x: Key, now: int, k: Key)
    requires StoreOk(cfg, s) && OM.Get(s.items, k).Some?
    requires x == k ==> now < OM.Get(s.items, k).value.expiresAt
    ensures var s' := Lookup(s, x, now).0; OM.Get(s'.items, k).Some? && Ahead(s'.items, k) + 1 >= Ahead(s.items, k)
  {
    if x == k {
      HitGoesToTheBack(cfg, s, k, now);
      AheadIsInside(s.items, k);
    } else {
      AheadOfRemove(s.items, x, k);
      var found := OM.Get(s.items, x);
      if found.Some? {
        AheadOfConcat(OM.Remove(s.items, x), [(x, found.value)], k);
        OM.GetOfConcat(OM.Remove(s.items, x), [(x, found.value)], k);
      }
    }
  }

  lemma {:induction false} AheadIsInside(d: seq<(Key, Entry)>, k: Key)
    requires OM.Get(d, k).Some?
    ensures Ahead(d, k) < |d|
  {
    if d[0].0 != k { AheadIsInside(d[1..], k); }
  }

  /** One step moves a key at most one place towards the front, and cannot evict it unless it is
      already there. */
  lemma StepKeepsPlace(cfg: Config, sys: System, step: Step, k: Key)
    requires cfg.maxEntries >= 1 && StoreOk(cfg, sys.store) && Enabled(sys, step)
    requires OM.Get(sys.store.items, k).Some? && Ahead(sys.store.items, k) >= 1 && !FindsExpired(sys, step, k)
    ensures var items := Apply(cfg, sys, step).store.items;
            OM.Get(items, k).Some? && Ahead(items, k) + 1 >= Ahead(sys.store.items, k)
  {
    match step
    case Arrive(_, key, now) => if !Conflicts(sys.store, key) { LookupKeepsPlace(cfg, sys.store, key, now, k); }
    case Wake(rid, now) => LookupKeepsPlace(cfg, sys.store, sys.requests[rid].key, now, k);
    case Finish(rid, outcome) =>
      if Cacheable(outcome) {
        AheadOfPut(Trimmed(cfg, sys.store.items), sys.requests[rid].key,
                   Entry(outcome.response.status, outcome.response.body, outcome.now + cfg.ttl), k);
      }
  }

  /** No step of the run after position `m` looks `k` up after its expiry. */
  predicate NeverFoundExpired(cfg: Config, steps: seq<Step>, m: nat, k: Key)
    requires cfg.maxEntries >= 1 && Possible(cfg, steps)
  {
    |steps| <= m ||
    (NeverFoundExpired(cfg, steps[..|steps| - 1], m, k)
     && !FindsExpired(After(cfg, steps[..|steps| - 1]), steps[|steps| - 1], k))
  }

  lemma {:induction false} KeepsPlace(cfg: Config, steps: seq<Step>, m: nat, k: Key)
    requires cfg.maxEntries >= 1 && Possible(cfg, steps) && m <= |steps| && NeverFoundExpired(cfg, steps, m, k)
    requires Possible(cfg, steps[..m])
    requires OM.Get(After(cfg, steps[..m]).store.items, k).Some?
    requires |steps| - m <= Ahead(After(cfg, steps[..m]).store.items, k)
    ensures var items := After(cfg, steps).store.items;
            && OM.Get(items, k).Some?
            && Ahead(items, k) + (|steps| - m) >= Ahead(After(cfg, steps[..m]).store.items, k)
    decreases |steps|
  {
    if |steps| == m {
      assert steps[..m] == steps;
    } else {
      var before := steps[..|steps| - 1];
      assert before[..m] == steps[..m];
      KeepsPlace(cfg, before, m, k);
      CacheStaysBounded(cfg, before);
      StepKeepsPlace(cfg, After(cfg, before), steps[|steps| - 1], k);
    }
  }

  /** Least recently used goes first: a response that the first `m` steps of a run end by replaying
      is still cached after any further steps, as long as these are fewer than the cached entries and
      none of them looks it up after its expiry. */
  lemma ReplayedResponseSurvives(cfg: Config, steps: seq<Step>, m: nat, k: Key)
    requires cfg.maxEntries >= 1 && Possible(cfg, steps) && 1 <= m <= |steps| && NeverFoundExpired(cfg, steps, m, k)
    requires Possible(cfg, steps[..m]) && Possible(cfg, steps[..m - 1]) && Enabled(After(cfg, steps[..m - 1]), steps[m - 1])
    requires var sys, step := After(cfg, steps[..m - 1]), steps[m - 1];
             step.Arrive? && step.key == k && !Conflicts(sys.store, k) && Lookup(sys.store, k, step.now).1.Some?
    requires |steps| - m < |After(cfg, steps[..m]).store.items|
    ensures OM.Get(After(cfg, steps).store.items, k).Some?
  {
    var sys, step := After(cfg, steps[..m - 1]), steps[m - 1];
    assert steps[..m][..m - 1] == steps[..m - 1];
    CacheStaysBounded(cfg, steps[..m - 1]);
    HitGoesToTheBack(cfg, sys.store, k, step.now);
    KeepsPlace(cfg, steps, m, k);
  }
}
