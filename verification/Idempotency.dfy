/** The idempotency middleware: a bounded cache of responses, single-flight slots with wake-up
    events, and the concurrent protocol of `dispatch`.

    None of the store's lock bodies awaits anything, so those locks never suspend: the checks
    from the conflict test to the slot acquisition run as one step, and so do the final put and
    release. The handler and the wait for an event are the only suspension points. */
module Idempotency {
  import opened Digests
  import OM = OrderedMap

  datatype Key = Key(principal: string, route: string, key: string, bodyHash: string)
  datatype Entry = Entry(status: int, body: string, expiresAt: int)
  datatype Config = Config(ttl: int, maxEntries: nat)

  /** `inflight` maps a key to its event; `fired` are the events already set; `events` counts
      the events created. */
  datatype Store = Store(items: seq<(Key, Entry)>, inflight: map<Key, nat>, fired: set<nat>, events: nat)

  // ---------------------------------------------------------------- store operations

  function Lookup(s: Store, k: Key, now: int): (Store, Option<Entry>) {
    var found := OM.Get(s.items, k);
    if found.None? then (s, None)
    else if now >= found.value.expiresAt then (s.(items := OM.Remove(s.items, k)), None)
    else (s.(items := OM.MoveToEnd(s.items, k)), found)
  }

  function Trimmed(cfg: Config, items: seq<(Key, Entry)>): seq<(Key, Entry)>
    requires cfg.maxEntries >= 1
  {
    if |items| >= cfg.maxEntries then items[1..] else items
  }

  function Save(cfg: Config, s: Store, k: Key, status: int, body: string, now: int): Store
    requires cfg.maxEntries >= 1
  {
    s.(items := OM.Put(Trimmed(cfg, s.items), k, Entry(status, body, now + cfg.ttl)))
  }

  function Acquire(s: Store, k: Key): Store {
    if k in s.inflight then s
    else s.(inflight := s.inflight[k := s.events], events := s.events + 1)
  }

  function Release(s: Store, k: Key): Store {
    if k in s.inflight then s.(inflight := s.inflight - {k}, fired := s.fired + {s.inflight[k]}) else s
  }

  predicate SameRequestOtherBody(a: Key, b: Key) {
    a.principal == b.principal && a.route == b.route && a.key == b.key && a.bodyHash != b.bodyHash
  }

  predicate Conflicts(s: Store, k: Key) {
    exists i :: 0 <= i < |s.items| && SameRequestOtherBody(s.items[i].0, k)
  }

  class IdempotencyStore {
    const cfg: Config
    var items: seq<(Key, Entry)>
    var inflight: map<Key, nat>
    var fired: set<nat>
    var events: nat

    function State(): Store
      reads this
    {
      Store(items, inflight, fired, events)
    }

    constructor (cfg: Config)
      ensures this.cfg == cfg && State() == Store([], map[], {}, 0)
    {
      this.cfg := cfg;
      items, inflight, fired, events := [], map[], {}, 0;
    }

    method Get(k: Key, now: int) returns (r: Option<Entry>)
      modifies this`items
      ensures (State(), r) == Lookup(old(State()), k, now)
    {
      r := OM.Get(items, k);
      if r.None? {
        return;
      }
      if now >= r.value.expiresAt {
        items := OM.Remove(items, k);
        return None;
      }
      items := OM.MoveToEnd(items, k);
    }

    method Put(k: Key, status: int, body: string, now: int)
      requires cfg.maxEntries >= 1
      modifies this`items
      ensures State() == Save(cfg, old(State()), k, status, body, now)
    {
      if |items| >= cfg.maxEntries {
        items := items[1..];
      }
      items := OM.Put(items, k, Entry(status, body, now + cfg.ttl));
    }

    /** `acquire_or_wait` up to the wait: the event to wait for, or ownership. */
    method AcquireOrWait(k: Key) returns (owner: bool, event: nat)
      modifies this`inflight, this`events
      ensures State() == Acquire(old(State()), k)
      ensures owner <==> k !in old(inflight)
      ensures k in inflight && event == inflight[k]
    {
      if k in inflight {
        return false, inflight[k];
      }
      event := events;
      inflight := inflight[k := event];
      events := events + 1;
      owner := true;
    }

    method ReleaseSlot(k: Key)
      modifies this`inflight, this`fired
      ensures State() == Release(old(State()), k)
    {
      if k in inflight {
        fired := fired + {inflight[k]};
        inflight := inflight - {k};
      }
    }

    method CheckConflict(k: Key) returns (r: Option<string>)
      ensures r.Some? <==> Conflicts(State(), k)
      ensures r.Some? ==> exists i :: 0 <= i < |items| && SameRequestOtherBody(items[i].0, k) && items[i].0.bodyHash == r.value
    {
      var i := 0;
      while i < |items|
        invariant 0 <= i <= |items|
        invariant forall j | 0 <= j < i :: !SameRequestOtherBody(items[j].0, k)
      {
        if SameRequestOtherBody(items[i].0, k) {
          return Some(items[i].0.bodyHash);
        }
        i := i + 1;
      }
      r := None;
    }

    /** Drops exactly the expired entries and keeps the order of the others. */
    method PurgeExpired(now: int) returns (dropped: nat)
      modifies this`items
      ensures items == Unexpired(old(items), now)
      ensures dropped == |old(items)| - |items|
    {
      var kept := [];
      var i := 0;
      while i < |items|
        invariant 0 <= i <= |items| && |kept| <= i
        invariant kept == Unexpired(items[..i], now)
        invariant items == old(items)
      {
        UnexpiredStep(items, i, now);
        if now < items[i].1.expiresAt {
          kept := kept + [items[i]];
        }
        i := i + 1;
      }
      assert items[..i] == items;
      dropped := |items| - |kept|;
      items := kept;
    }
  }

  function Unexpired(items: seq<(Key, Entry)>, now: int): seq<(Key, Entry)> {
    if items == [] then []
    else (if now < items[0].1.expiresAt then [items[0]] else []) + Unexpired(items[1..], now)
  }

  lemma {:induction false} UnexpiredConcat(a: seq<(Key, Entry)>, b: seq<(Key, Entry)>, now: int)
    ensures Unexpired(a + b, now) == Unexpired(a, now) + Unexpired(b, now)
  {
    if a == [] {
      assert a + b == b;
    } else {
      assert (a + b)[1..] == a[1..] + b;
      UnexpiredConcat(a[1..], b, now);
    }
  }

  lemma UnexpiredStep(items: seq<(Key, Entry)>, i: nat, now: int)
    requires i < |items|
    ensures Unexpired(items[..i + 1], now) ==
            Unexpired(items[..i], now) + if now < items[i].1.expiresAt then [items[i]] else []
  {
    assert items[..i + 1] == items[..i] + [items[i]];
    UnexpiredConcat(items[..i], [items[i]], now);
  }

  // ---------------------------------------------------------------- the protocol

  datatype Response = Response(status: int, body: string)
  datatype Outcome = Returned(response: Response, now: int) | Raised

  datatype Phase = Waiting(event: nat) | Running | Done(response: Response) | Conflicted | Failed
  /** `ran` records that this request invoked the handler. */
  datatype Request = Request(key: Key, phase: Phase, ran: bool)

  datatype System = System(store: Store, requests: map<nat, Request>)

  datatype Step =
    | Arrive(rid: nat, key: Key, now: int)
    | Finish(rid: nat, outcome: Outcome)
    | Wake(rid: nat, now: int)

  predicate Enabled(sys: System, step: Step) {
    match step
    case Arrive(rid, _, _) => rid !in sys.requests
    case Finish(rid, _) => rid in sys.requests && sys.requests[rid].phase.Running?
    case Wake(rid, _) =>
      && rid in sys.requests && sys.requests[rid].phase.Waiting?
      && sys.requests[rid].phase.event in sys.store.fired
  }

  function FromEntry(e: Entry): Response {
    Response(e.status, e.body)
  }

  predicate Cacheable(outcome: Outcome) {
    outcome.Returned? && outcome.response.status < 400
  }

  function Set(sys: System, store: Store, rid: nat, r: Request): System {
    System(store, sys.requests[rid := r])
  }

  function Apply(cfg: Config, sys: System, step: Step): System
    requires cfg.maxEntries >= 1 && Enabled(sys, step)
  {
    match step
    case Arrive(rid, key, now) =>
      if Conflicts(sys.store, key) then Set(sys, sys.store, rid, Request(key, Conflicted, false))
      else
        var (store, hit) := Lookup(sys.store, key, now);
        if hit.Some? then Set(sys, store, rid, Request(key, Done(FromEntry(hit.value)), false))
        else if key in store.inflight then Set(sys, store, rid, Request(key, Waiting(store.inflight[key]), false))
        else Set(sys, Acquire(store, key), rid, Request(key, Running, true))
    case Finish(rid, outcome) =>
      var r := sys.requests[rid];
      var store := if Cacheable(outcome)
                   then Save(cfg, sys.store, r.key, outcome.response.status, outcome.response.body, outcome.now)
                   else sys.store;
      Set(sys, Release(store, r.key), rid,
          r.(phase := if outcome.Returned? then Done(outcome.response) else Failed))
    case Wake(rid, now) =>
      var r := sys.requests[rid];
      var (store, hit) := Lookup(sys.store, r.key, now);
      if hit.Some? then Set(sys, store, rid, r.(phase := Done(FromEntry(hit.value))))
      else Set(sys, store, rid, r.(phase := Running, ran := true))
  }

  const IDLE: System := System(Store([], map[], {}, 0), map[])

  predicate Possible(cfg: Config, steps: seq<Step>)
    requires cfg.maxEntries >= 1
    decreases |steps|, 0
  {
    steps == [] ||
    (Possible(cfg, steps[..|steps| - 1]) && Enabled(After(cfg, steps[..|steps| - 1]), steps[|steps| - 1]))
  }

  function After(cfg: Config, steps: seq<Step>): System
    requires cfg.maxEntries >= 1 && Possible(cfg, steps)
    decreases |steps|, 1
  {
    if steps == [] then IDLE else Apply(cfg, After(cfg, steps[..|steps| - 1]), steps[|steps| - 1])
  }

  // ---------------------------------------------------------------- single flight

  /** Conditions on one step for key `k`: its handler runs end below 400, its cached entry is
      neither looked up after expiry nor the one evicted. */
  predicate Undisturbed(cfg: Config, sys: System, step: Step, k: Key)
    requires cfg.maxEntries >= 1
  {
    var cached := OM.Get(sys.store.items, k);
    match step
    case Arrive(_, key, now) => key == k && cached.Some? ==> now < cached.value.expiresAt
    case Wake(rid, now) =>
      rid in sys.requests && sys.requests[rid].key == k && cached.Some? ==> now < cached.value.expiresAt
    case Finish(rid, outcome) =>
      && (rid in sys.requests && sys.requests[rid].key == k ==> Cacheable(outcome))
      && (Cacheable(outcome) && |sys.store.items| >= cfg.maxEntries ==> sys.store.items[0].0 != k)
  }

  predicate UndisturbedRun(cfg: Config, steps: seq<Step>, k: Key)
    requires cfg.maxEntries >= 1 && Possible(cfg, steps)
  {
    steps == [] ||
    (UndisturbedRun(cfg, steps[..|steps| - 1], k)
     && Undisturbed(cfg, After(cfg, steps[..|steps| - 1]), steps[|steps| - 1], k))
  }

  predicate StoreOk(cfg: Config, s: Store) {
    && OM.Distinct(s.items) && |s.items| <= cfg.maxEntries
    && (forall e | e in s.fired :: e < s.events)
    && (forall k | k in s.inflight :: s.inflight[k] < s.events && s.inflight[k] !in s.fired)
    && (forall j, k | j in s.inflight && k in s.inflight && s.inflight[j] == s.inflight[k] :: j == k)
  }

  /** Nobody has asked for `k` yet. */
  predicate Fresh(sys: System, k: Key) {
    && OM.Get(sys.store.items, k).None? && k !in sys.store.inflight
    && forall r | r in sys.requests && sys.requests[r].key == k ::
         sys.requests[r].phase.Conflicted? && !sys.requests[r].ran
  }

  /** Request `o` runs the handler for `k`; the others wait for its event. */
  predicate InFlight(sys: System, k: Key, o: nat) {
    && OM.Get(sys.store.items, k).None? && k in sys.store.inflight
    && o in sys.requests && sys.requests[o] == Request(k, Running, true)
    && forall r | r in sys.requests && sys.requests[r].key == k && r != o ::
         && !sys.requests[r].ran
         && (sys.requests[r].phase.Conflicted? || sys.requests[r].phase == Waiting(sys.store.inflight[k]))
  }

  /** The single run by `o` is over; everyone has its response or will read it from the cache. */
  predicate Settled(sys: System, k: Key, o: nat) {
    && k !in sys.store.inflight
    && o in sys.requests && sys.requests[o].key == k && sys.requests[o].ran && sys.requests[o].phase.Done?
    && OM.Get(sys.store.items, k).Some?
    && FromEntry(OM.Get(sys.store.items, k).value) == sys.requests[o].phase.response
    && forall r | r in sys.requests && sys.requests[r].key == k && r != o ::
         && !sys.requests[r].ran
         && (|| sys.requests[r].phase.Conflicted?
             || (sys.requests[r].phase.Waiting? && sys.requests[r].phase.event in sys.store.fired)
             || sys.requests[r].phase == sys.requests[o].phase)
  }

  ghost predicate Flight(sys: System, k: Key) {
    || Fresh(sys, k)
    || (exists o :: InFlight(sys, k, o))
    || (exists o :: Settled(sys, k, o))
  }

  lemma LookupProperties(cfg: Config, s: Store, k: Key, now: int)
    requires StoreOk(cfg, s)
    ensures var (s', hit) := Lookup(s, k, now);
            && StoreOk(cfg, s') && s'.inflight == s.inflight && s'.fired == s.fired && s'.events == s.events
            && (forall x | x != k :: OM.Get(s'.items, x) == OM.Get(s.items, x))
            && OM.Get(s'.items, k) == hit
  {
    OM.RemoveProperties(s.items, k);
    OM.MoveToEndProperties(s.items, k);
  }

  lemma SaveProperties(cfg: Config, s: Store, k: Key, status: int, body: string, now: int)
    requires StoreOk(cfg, s) && cfg.maxEntries >= 1
    ensures var s' := Save(cfg, s, k, status, body, now);
            && StoreOk(cfg, s')
            && OM.Get(s'.items, k) == Some(Entry(status, body, now + cfg.ttl))
            && (forall x | x != k && !(|s.items| >= cfg.maxEntries && x == s.items[0].0) ::
                  OM.Get(s'.items, x) == OM.Get(s.items, x))
            && (forall x | x != k && OM.Get(s.items, x).None? :: OM.Get(s'.items, x).None?)
  {
    if |s.items| >= cfg.maxEntries { OM.PopFirstProperties(s.items); }
    OM.PutProperties(Trimmed(cfg, s.items), k, Entry(status, body, now + cfg.ttl));
  }

  lemma StepKeepsStore(cfg: Config, sys: System, step: Step)
    requires cfg.maxEntries >= 1 && StoreOk(cfg, sys.store) && Enabled(sys, step)
    ensures StoreOk(cfg, Apply(cfg, sys, step).store)
  {
    match step
    case Arrive(rid, key, now) => LookupProperties(cfg, sys.store, key, now);
    case Finish(rid, outcome) =>
      if Cacheable(outcome) {
        SaveProperties(cfg, sys.store, sys.requests[rid].key, outcome.response.status, outcome.response.body, outcome.now);
      }
    case Wake(rid, now) => LookupProperties(cfg, sys.store, sys.requests[rid].key, now);
  }

  lemma ArriveWhenFresh(cfg: Config, sys: System, step: Step, k: Key)
    requires cfg.maxEntries >= 1 && StoreOk(cfg, sys.store) && Enabled(sys, step) && step.Arrive? && Fresh(sys, k)
    ensures Fresh(Apply(cfg, sys, step), k) || InFlight(Apply(cfg, sys, step), k, step.rid)
  {
    LookupProperties(cfg, sys.store, step.key, step.now);
  }

  lemma ArriveInFlight(cfg: Config, sys: System, step: Step, k: Key, o: nat)
    requires cfg.maxEntries >= 1 && StoreOk(cfg, sys.store) && Enabled(sys, step) && step.Arrive? && InFlight(sys, k, o)
    ensures InFlight(Apply(cfg, sys, step), k, o)
  {
    LookupProperties(cfg, sys.store, step.key, step.now);
  }

  lemma ArriveWhenSettled(cfg: Config, sys: System, step: Step, k: Key, o: nat)
    requires cfg.maxEntries >= 1 && StoreOk(cfg, sys.store) && Enabled(sys, step) && step.Arrive? && Settled(sys, k, o)
    requires Undisturbed(cfg, sys, step, k)
    ensures Settled(Apply(cfg, sys, step), k, o)
  {
    LookupProperties(cfg, sys.store, step.key, step.now);
  }

  lemma ArriveKeepsFlight(cfg: Config, sys: System, step: Step, k: Key)
    requires cfg.maxEntries >= 1 && StoreOk(cfg, sys.store) && Enabled(sys, step) && step.Arrive?
    requires Flight(sys, k) && Undisturbed(cfg, sys, step, k)
    ensures Flight(Apply(cfg, sys, step), k)
  {
    if Fresh(sys, k) {
      ArriveWhenFresh(cfg, sys, step, k);
    } else if o :| InFlight(sys, k, o) {
      ArriveInFlight(cfg, sys, step, k, o);
    } else {
      var o :| Settled(sys, k, o);
      ArriveWhenSettled(cfg, sys, step, k, o);
    }
  }

  lemma WakeKeepsFlight(cfg: Config, sys: System, step: Step, k: Key)
    requires cfg.maxEntries >= 1 && StoreOk(cfg, sys.store) && Enabled(sys, step) && step.Wake?
    requires Flight(sys, k) && Undisturbed(cfg, sys, step, k)
    ensures Flight(Apply(cfg, sys, step), k)
  {
    var sys' := Apply(cfg, sys, step);
    LookupProperties(cfg, sys.store, sys.requests[step.rid].key, step.now);
    if Fresh(sys, k) {
      assert Fresh(sys', k);
    } else if o :| InFlight(sys, k, o) {
      assert InFlight(sys', k, o);
    } else {
      var o :| Settled(sys, k, o);
      assert Settled(sys', k, o);
    }
  }

  /** What a finished run leaves in the store: another key's entry stays, unless it is evicted. */
  lemma FinishStore(cfg: Config, sys: System, step: Step)
    requires cfg.maxEntries >= 1 && StoreOk(cfg, sys.store) && Enabled(sys, step) && step.Finish?
    ensures var s, key := Apply(cfg, sys, step).store, sys.requests[step.rid].key;
            && s.inflight == sys.store.inflight - {key}
            && s.fired == sys.store.fired + (if key in sys.store.inflight then {sys.store.inflight[key]} else {})
            && (Cacheable(step.outcome) ==>
                  && OM.Get(s.items, key).Some? && FromEntry(OM.Get(s.items, key).value) == step.outcome.response)
            && (!Cacheable(step.outcome) ==> s.items == sys.store.items)
            && (forall x | x != key && OM.Get(sys.store.items, x).None? :: OM.Get(s.items, x).None?)
            && (forall x | x != key && Undisturbed(cfg, sys, step, x) :: OM.Get(s.items, x) == OM.Get(sys.store.items, x))
  {
    var r, outcome := sys.requests[step.rid], step.outcome;
    if Cacheable(outcome) {
      SaveProperties(cfg, sys.store, r.key, outcome.response.status, outcome.response.body, outcome.now);
    }
  }

  lemma FinishInFlight(cfg: Config, sys: System, step: Step, k: Key, o: nat)
    requires cfg.maxEntries >= 1 && StoreOk(cfg, sys.store) && Enabled(sys, step) && step.Finish? && InFlight(sys, k, o)
    requires Undisturbed(cfg, sys, step, k)
    ensures if step.rid == o then Settled(Apply(cfg, sys, step), k, o) else InFlight(Apply(cfg, sys, step), k, o)
  {
    FinishStore(cfg, sys, step);
  }

  lemma FinishWhenSettled(cfg: Config, sys: System, step: Step, k: Key, o: nat)
    requires cfg.maxEntries >= 1 && StoreOk(cfg, sys.store) && Enabled(sys, step) && step.Finish? && Settled(sys, k, o)
    requires Undisturbed(cfg, sys, step, k)
    ensures Settled(Apply(cfg, sys, step), k, o)
  {
    FinishStore(cfg, sys, step);
  }

  lemma FinishKeepsFlight(cfg: Config, sys: System, step: Step, k: Key)
    requires cfg.maxEntries >= 1 && StoreOk(cfg, sys.store) && Enabled(sys, step) && step.Finish?
    requires Flight(sys, k) && Undisturbed(cfg, sys, step, k)
    ensures Flight(Apply(cfg, sys, step), k)
  {
    if Fresh(sys, k) {
      FinishStore(cfg, sys, step);
      assert Fresh(Apply(cfg, sys, step), k);
    } else if o :| InFlight(sys, k, o) {
      FinishInFlight(cfg, sys, step, k, o);
    } else {
      var o :| Settled(sys, k, o);
      FinishWhenSettled(cfg, sys, step, k, o);
    }
  }

  lemma {:induction false} EveryRunFlies(cfg: Config, steps: seq<Step>, k: Key)
    requires cfg.maxEntries >= 1 && Possible(cfg, steps) && UndisturbedRun(cfg, steps, k)
    ensures StoreOk(cfg, After(cfg, steps).store) && Flight(After(cfg, steps), k)
    decreases |steps|
  {
    if steps != [] {
      var before, step := steps[..|steps| - 1], steps[|steps| - 1];
      EveryRunFlies(cfg, before, k);
      var sys := After(cfg, before);
      StepKeepsStore(cfg, sys, step);
      match step
      case Arrive(_, _, _) => ArriveKeepsFlight(cfg, sys, step, k);
      case Wake(_, _) => WakeKeepsFlight(cfg, sys, step, k);
      case Finish(_, _) => FinishKeepsFlight(cfg, sys, step, k);
    }
  }

  /** Exactly-once: for every interleaving of requests with one four-part key, whatever other
      keys do meanwhile, one of them invokes the handler unless all were refused as conflicts,
      no second one does, every response other than a conflict is the response of that run, and
      a request that waits either waits for that run or can go on. */
  lemma SingleFlight(cfg: Config, steps: seq<Step>, k: Key, a: nat, b: nat)
    requires cfg.maxEntries >= 1 && Possible(cfg, steps) && UndisturbedRun(cfg, steps, k)
    requires var reqs := After(cfg, steps).requests; a in reqs && b in reqs && reqs[a].key == reqs[b].key == k
    ensures var reqs := After(cfg, steps).requests;
            && (reqs[a].ran && reqs[b].ran ==> a == b)
            && (reqs[a].phase.Done? && reqs[b].phase.Done? ==> reqs[a].phase == reqs[b].phase)
            && !reqs[a].phase.Failed?
            && (reqs[a].phase.Done? ==>
                  exists o :: o in reqs && reqs[o].key == k && reqs[o].ran && reqs[o].phase == reqs[a].phase)
            && (!reqs[a].phase.Conflicted? ==> exists o :: o in reqs && reqs[o].key == k && reqs[o].ran)
            && (reqs[a].phase.Waiting? && reqs[a].phase.event !in After(cfg, steps).store.fired ==>
                  exists o :: o in reqs && reqs[o] == Request(k, Running, true))
  {
    EveryRunFlies(cfg, steps, k);
  }

  /** The cache never outgrows its bound, in any run at all. */
  lemma {:induction false} CacheStaysBounded(cfg: Config, steps: seq<Step>)
    requires cfg.maxEntries >= 1 && Possible(cfg, steps)
    ensures StoreOk(cfg, After(cfg, steps).store)
    decreases |steps|
  {
    if steps != [] {
      CacheStaysBounded(cfg, steps[..|steps| - 1]);
      StepKeepsStore(cfg, After(cfg, steps[..|steps| - 1]), steps[|steps| - 1]);
    }
  }

  // ---------------------------------------------------------------- when the owner does not cache

  /** A waiter woken after the owner's run invokes the handler itself exactly when that run was
      not cached. */
  lemma WaiterRunsExactlyWhenOwnerDidNotCache(
    cfg: Config, sys: System, k: Key, o: nat, w: nat, outcome: Outcome, now: int)
    requires cfg.maxEntries >= 1 && StoreOk(cfg, sys.store) && InFlight(sys, k, o)
    requires w in sys.requests && w != o && sys.requests[w] == Request(k, Waiting(sys.store.inflight[k]), false)
    requires outcome.Returned? ==> now < outcome.now + cfg.ttl
    ensures Enabled(sys, Finish(o, outcome)) && Enabled(Apply(cfg, sys, Finish(o, outcome)), Wake(w, now))
    ensures var end := Apply(cfg, Apply(cfg, sys, Finish(o, outcome)), Wake(w, now));
            && (end.requests[w].ran <==> !Cacheable(outcome))
            && (Cacheable(outcome) ==> end.requests[w].phase == Done(outcome.response))
  {
    if Cacheable(outcome) {
      SaveProperties(cfg, sys.store, k, outcome.response.status, outcome.response.body, outcome.now);
    }
  }

  function WakeAll(cfg: Config, sys: System, ws: seq<nat>, now: int): System
    requires cfg.maxEntries >= 1
    decreases |ws|
  {
    if ws == [] || !Enabled(sys, Wake(ws[0], now)) then sys
    else WakeAll(cfg, Apply(cfg, sys, Wake(ws[0], now)), ws[1..], now)
  }

  /** The stampede: with `k` neither cached nor in flight, every woken waiter runs the handler. */
  lemma {:induction false} UncachedWaitersAllRun(cfg: Config, sys: System, k: Key, ws: seq<nat>, now: int)
    requires cfg.maxEntries >= 1 && OM.Get(sys.store.items, k).None?
    requires forall i, j | 0 <= i < j < |ws| :: ws[i] != ws[j]
    requires forall w | w in ws :: Enabled(sys, Wake(w, now)) && sys.requests[w].key == k
    ensures var end := WakeAll(cfg, sys, ws, now);
            && (forall w | w in ws :: w in end.requests && end.requests[w].ran && end.requests[w].phase.Running?)
            && (forall r | r in sys.requests && r !in ws :: r in end.requests && end.requests[r] == sys.requests[r])
    decreases |ws|
  {
    if ws != [] {
      var next := Apply(cfg, sys, Wake(ws[0], now));
      assert Enabled(sys, Wake(ws[0], now));
      forall w | w in ws[1..]
        ensures Enabled(next, Wake(w, now)) && next.requests[w].key == k
      {
        assert w in ws && w != ws[0];
      }
      UncachedWaitersAllRun(cfg, next, k, ws[1..], now);
      assert ws[0] !in ws[1..];
    }
  }

  // ---------------------------------------------------------------- runs with more than one handler run

  lemma Extend(cfg: Config, steps: seq<Step>, step: Step, longer: seq<Step>)
    requires cfg.maxEntries >= 1 && Possible(cfg, steps) && Enabled(After(cfg, steps), step) && longer == steps + [step]
    ensures Possible(cfg, longer) && After(cfg, longer) == Apply(cfg, After(cfg, steps), step)
  {
    assert longer[..|longer| - 1] == steps;
  }

  /** Two requests share a key, the owner's handler raises, and the woken waiter runs it again. */
  lemma FailedOwnerRunStampedes(cfg: Config, k: Key)
    requires cfg.maxEntries >= 1
    ensures var steps := [Arrive(0, k, 0), Arrive(1, k, 0), Finish(0, Raised), Wake(1, 0)];
            && Possible(cfg, steps)
            && After(cfg, steps) == System(Store([], map[], {0}, 1),
                                           map[0 := Request(k, Failed, true), 1 := Request(k, Running, true)])
  {
    var s1, s2 := [Arrive(0, k, 0)], [Arrive(0, k, 0), Arrive(1, k, 0)];
    var s3 := [Arrive(0, k, 0), Arrive(1, k, 0), Finish(0, Raised)];
    Extend(cfg, [], Arrive(0, k, 0), s1);
    assert After(cfg, s1) == System(Store([], map[k := 0], {}, 1), map[0 := Request(k, Running, true)]);
    Extend(cfg, s1, Arrive(1, k, 0), s2);
    Extend(cfg, s2, Finish(0, Raised), s3);
    assert After(cfg, s3).store == Store([], map[], {0}, 1);
    Extend(cfg, s3, Wake(1, 0), [Arrive(0, k, 0), Arrive(1, k, 0), Finish(0, Raised), Wake(1, 0)]);
  }

  /** A woken waiter does not own the slot it releases: while request 2 runs under a slot of its own,
      the end of request 1 frees that slot, and request 3 runs the handler beside request 2. */
  lemma FallenThroughWaiterFreesALaterSlot(cfg: Config, k: Key)
    requires cfg.maxEntries >= 1
    ensures var steps := [Arrive(0, k, 0), Arrive(1, k, 0), Finish(0, Raised), Wake(1, 0)]
                         + [Arrive(2, k, 0)] + [Finish(1, Raised)] + [Arrive(3, k, 0)];
            && Possible(cfg, steps)
            && var reqs := After(cfg, steps).requests;
               2 in reqs && 3 in reqs && reqs[2] == Request(k, Running, true) && reqs[3] == Request(k, Running, true)
  {
    var s4 := [Arrive(0, k, 0), Arrive(1, k, 0), Finish(0, Raised), Wake(1, 0)];
    FailedOwnerRunStampedes(cfg, k);
    Extend(cfg, s4, Arrive(2, k, 0), s4 + [Arrive(2, k, 0)]);
    assert After(cfg, s4 + [Arrive(2, k, 0)]).store == Store([], map[k := 1], {0}, 2);
    Extend(cfg, s4 + [Arrive(2, k, 0)], Finish(1, Raised), s4 + [Arrive(2, k, 0)] + [Finish(1, Raised)]);
    assert After(cfg, s4 + [Arrive(2, k, 0)] + [Finish(1, Raised)]).store == Store([], map[], {0, 1}, 2);
    Extend(cfg, s4 + [Arrive(2, k, 0)] + [Finish(1, Raised)], Arrive(3, k, 0),
           s4 + [Arrive(2, k, 0)] + [Finish(1, Raised)] + [Arrive(3, k, 0)]);
  }

  /** The step makes a request with this key run the handler that had not run it. */
  predicate StartsRun(cfg: Config, sys: System, step: Step, k: Key)
    requires cfg.maxEntries >= 1 && Enabled(sys, step)
  {
    exists r :: r in Apply(cfg, sys, step).requests && NewlyRan(sys, Apply(cfg, sys, step), r, k)
  }

  predicate NewlyRan(sys: System, next: System, r: nat, k: Key)
    requires r in next.requests
  {
    next.requests[r].key == k && next.requests[r].ran && !(r in sys.requests && sys.requests[r].ran)
  }

  /** The step looks the key up when its cached response has expired. */
  predicate FindsExpired(sys: System, step: Step, k: Key) {
    var cached := OM.Get(sys.store.items, k);
    && cached.Some?
    && match step
       case Arrive(_, key, now) => key == k && !Conflicts(sys.store, k) && now >= cached.value.expiresAt
       case Wake(rid, now) => rid in sys.requests && sys.requests[rid].key == k && now >= cached.value.expiresAt
       case Finish(_, _) => false
  }

  lemma SecondRunFromFlight(cfg: Config, sys: System, step: Step, k: Key)
    requires cfg.maxEntries >= 1 && StoreOk(cfg, sys.store) && Enabled(sys, step)
    requires (exists o :: InFlight(sys, k, o)) || exists o :: Settled(sys, k, o)
    ensures StartsRun(cfg, sys, step, k) <==> FindsExpired(sys, step, k)
  {
    var next := Apply(cfg, sys, step);
    if FindsExpired(sys, step, k) { assert NewlyRan(sys, next, step.rid, k); }
    if StartsRun(cfg, sys, step, k) {
      var r :| r in next.requests && NewlyRan(sys, next, r, k);
      assert r == step.rid;
    }
  }

  /** After an undisturbed run in which the handler ran for a key, the next step runs it again if and
      only if it looks the key up after the cached response expired. */
  lemma {:induction false} SecondRunExactlyAfterExpiry(cfg: Config, steps: seq<Step>, step: Step, k: Key, o: nat)
    requires cfg.maxEntries >= 1 && Possible(cfg, steps) && UndisturbedRun(cfg, steps, k)
    requires Enabled(After(cfg, steps), step)
    requires var reqs := After(cfg, steps).requests; o in reqs && reqs[o].key == k && reqs[o].ran
    ensures StartsRun(cfg, After(cfg, steps), step, k) <==> FindsExpired(After(cfg, steps), step, k)
  {
    EveryRunFlies(cfg, steps, k);
    SecondRunFromFlight(cfg, After(cfg, steps), step, k);
  }
}
