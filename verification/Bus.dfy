/** The in-process event bus: global sequence numbers, a ring buffer per channel with
    least-recently-used channel eviction, bounded subscriber queues that drop their oldest event
    when full, and advisories that account for the drops. */
module Bus {
  import opened Digests
  import OM = OrderedMap

  datatype Event = Event(sequence: nat, channel: string, payload: string)

  /** A queue bound of 0 or less means unbounded, as in asyncio. */
  datatype Sub = Sub(channel: string, maxQueue: int, queue: seq<Event>, dropped: nat, closed: bool)

  datatype Config = Config(ringSize: nat, maxChannels: nat)

  datatype BusState = BusState(sequence: nat, rings: seq<(string, seq<Event>)>, subs: map<nat, Sub>)

  // ---------------------------------------------------------------- operations

  predicate Full(s: Sub) {
    s.maxQueue > 0 && |s.queue| >= s.maxQueue
  }

  function Offer(s: Sub, e: Event): Sub {
    if Full(s) then s.(queue := s.queue[1..] + [e], dropped := s.dropped + 1)
    else s.(queue := s.queue + [e])
  }

  predicate Listens(s: Sub, channel: string) {
    !s.closed && s.channel == channel
  }

  /** The ring after `deque(maxlen=ringSize).append`. */
  function Pushed(cfg: Config, ring: seq<Event>, e: Event): seq<Event> {
    var all := ring + [e];
    if |all| > cfg.ringSize then all[|all| - cfg.ringSize..] else all
  }

  /** A known channel becomes the most recently used; a new one may evict the least. */
  function Touched(cfg: Config, rings: seq<(string, seq<Event>)>, channel: string): seq<(string, seq<Event>)>
    requires cfg.maxChannels >= 1
  {
    if OM.Get(rings, channel).Some? then OM.MoveToEnd(rings, channel)
    else OM.Put(if |rings| >= cfg.maxChannels then rings[1..] else rings, channel, [])
  }

  function RingOf(rings: seq<(string, seq<Event>)>, channel: string): seq<Event> {
    var r := OM.Get(rings, channel);
    if r.Some? then r.value else []
  }

  function Publish(cfg: Config, b: BusState, channel: string, payload: string): BusState
    requires cfg.maxChannels >= 1
  {
    var e := Event(b.sequence + 1, channel, payload);
    var rings := Touched(cfg, b.rings, channel);
    BusState(b.sequence + 1,
             OM.Put(rings, channel, Pushed(cfg, RingOf(rings, channel), e)),
             map id | id in b.subs :: if Listens(b.subs[id], channel) then Offer(b.subs[id], e) else b.subs[id])
  }

  function After(es: seq<Event>, since: int): seq<Event> {
    if es == [] then [] else (if es[0].sequence > since then [es[0]] else []) + After(es[1..], since)
  }

  /** Buffered events newer than `since`, as many as fit; the first that does not fit ends it. */
  function Replay(ring: seq<Event>, since: Option<int>, maxQueue: int): seq<Event> {
    if since.None? then []
    else
      var newer := After(ring, since.value);
      if maxQueue > 0 && |newer| > maxQueue then newer[..maxQueue] else newer
  }

  function Subscribe(b: BusState, id: nat, channel: string, since: Option<int>, maxQueue: int): BusState {
    b.(rings := OM.MoveToEnd(b.rings, channel),
       subs := b.subs[id := Sub(channel, maxQueue, Replay(RingOf(b.rings, channel), since, maxQueue), 0, false)])
  }

  datatype Item = Delivered(event: Event) | Advisory(droppedCount: nat) | Stop | MustWait

  function Next(s: Sub): (Sub, Item) {
    if s.closed then (s, Stop)
    else if s.dropped > 0 then (s.(dropped := 0), Advisory(s.dropped))
    else if s.queue == [] then (s, MustWait)
    else (s.(queue := s.queue[1..]), Delivered(s.queue[0]))
  }

  // ---------------------------------------------------------------- the object

  function ListOf(lists: map<string, seq<nat>>, channel: string): seq<nat> {
    if channel in lists then lists[channel] else []
  }

  predicate NoRepeats(ids: seq<nat>) {
    forall i, j | 0 <= i < j < |ids| :: ids[i] != ids[j]
  }

  /** A channel's list names exactly its open subscriptions, once each. */
  ghost predicate ListsOk(lists: map<string, seq<nat>>, subs: map<nat, Sub>) {
    && (forall c :: NoRepeats(ListOf(lists, c)))
    && (forall c, id :: id in ListOf(lists, c) <==> id in subs && Listens(subs[id], c))
  }

  lemma SameListeners(lists: map<string, seq<nat>>, subs: map<nat, Sub>, subs': map<nat, Sub>)
    requires ListsOk(lists, subs) && subs.Keys == subs'.Keys
    requires forall id | id in subs :: subs'[id].channel == subs[id].channel && subs'[id].closed == subs[id].closed
    ensures ListsOk(lists, subs')
  {
  }

  lemma SubscribeKeepsLists(lists: map<string, seq<nat>>, subs: map<nat, Sub>, id: nat, sub: Sub)
    requires ListsOk(lists, subs) && id !in subs && !sub.closed
    ensures ListsOk(lists[sub.channel := ListOf(lists, sub.channel) + [id]], subs[id := sub])
  {
    var lists' := lists[sub.channel := ListOf(lists, sub.channel) + [id]];
    assert id !in ListOf(lists, sub.channel);
    forall c
      ensures NoRepeats(ListOf(lists', c))
      ensures forall x :: x in ListOf(lists', c) <==> x in ListOf(lists, c) || (c == sub.channel && x == id)
    {
      assert NoRepeats(ListOf(lists, c));
    }
  }

  /** The lists after a subscription left its channel's list. */
  function Unlisted(lists: map<string, seq<nat>>, channel: string, id: nat): map<string, seq<nat>> {
    var kept := RemoveFirst(ListOf(lists, channel), id);
    if kept == [] then lists - {channel} else lists[channel := kept]
  }

  lemma UnlistedProperties(lists: map<string, seq<nat>>, channel: string, id: nat, c: string)
    requires NoRepeats(ListOf(lists, c))
    ensures NoRepeats(ListOf(Unlisted(lists, channel, id), c))
    ensures forall x :: x in ListOf(Unlisted(lists, channel, id), c) <==> x in ListOf(lists, c) && !(c == channel && x == id)
  {
    if c == channel { RemoveFirstProperties(ListOf(lists, c), id); }
  }

  lemma CloseKeepsLists(lists: map<string, seq<nat>>, subs: map<nat, Sub>, id: nat)
    requires ListsOk(lists, subs) && id in subs
    ensures ListsOk(Unlisted(lists, subs[id].channel, id), subs[id := subs[id].(closed := true)])
  {
    var lists', subs' := Unlisted(lists, subs[id].channel, id), subs[id := subs[id].(closed := true)];
    forall c
      ensures NoRepeats(ListOf(lists', c))
      ensures forall x :: x in ListOf(lists', c) <==> x in subs' && Listens(subs'[x], c)
    {
      assert NoRepeats(ListOf(lists, c));
      UnlistedProperties(lists, subs[id].channel, id, c);
    }
  }

  class EventBus {
    const cfg: Config
    var sequence: nat
    var rings: seq<(string, seq<Event>)>
    var lists: map<string, seq<nat>>
    var subs: map<nat, Sub>

    function State(): BusState
      reads this
    {
      BusState(sequence, rings, subs)
    }

    ghost predicate Valid()
      reads this
    {
      && cfg.maxChannels >= 1 && OM.Distinct(rings) && |rings| <= cfg.maxChannels
      && ListsOk(lists, subs)
    }

    constructor (cfg: Config)
      requires cfg.maxChannels >= 1
      ensures Valid() && this.cfg == cfg && State() == BusState(0, [], map[])
    {
      this.cfg := cfg;
      sequence, rings, lists, subs := 0, [], map[], map[];
    }

    method StoreInRing(e: Event)
      requires cfg.maxChannels >= 1 && OM.Distinct(rings) && |rings| <= cfg.maxChannels
      modifies this`rings
      ensures OM.Distinct(rings) && |rings| <= cfg.maxChannels
      ensures var touched := Touched(cfg, old(rings), e.channel);
              rings == OM.Put(touched, e.channel, Pushed(cfg, RingOf(touched, e.channel), e))
    {
      if OM.Get(rings, e.channel).None? {
        if |rings| >= cfg.maxChannels {
          rings := rings[1..];
        }
        rings := OM.Put(rings, e.channel, []);
      } else {
        rings := OM.MoveToEnd(rings, e.channel);
      }
      PublishKeepsRings(cfg, old(rings), e.channel, Pushed(cfg, RingOf(rings, e.channel), e));
      rings := OM.Put(rings, e.channel, Pushed(cfg, RingOf(rings, e.channel), e));
    }

    method SendToAll(targets: seq<nat>, e: Event)
      requires NoRepeats(targets)
      requires forall i | 0 <= i < |targets| :: targets[i] in subs
      modifies this`subs
      ensures subs == map id | id in old(subs) :: if id in targets then Offer(old(subs)[id], e) else old(subs)[id]
    {
      var i := 0;
      while i < |targets|
        invariant 0 <= i <= |targets|
        invariant subs.Keys == old(subs.Keys)
        invariant forall id | id in subs ::
                    subs[id] == if id in targets[..i] then Offer(old(subs)[id], e) else old(subs)[id]
      {
        var id := targets[i];
        assert id !in targets[..i];
        subs := subs[id := Offer(subs[id], e)];
        i := i + 1;
      }
      assert targets[..i] == targets;
    }

    method PublishEvent(channel: string, payload: string) returns (e: Event)
      requires Valid()
      modifies this
      ensures Valid() && State() == Publish(cfg, old(State()), channel, payload)
      ensures e == Event(sequence, channel, payload)
    {
      sequence := sequence + 1;
      e := Event(sequence, channel, payload);
      StoreInRing(e);
      var targets := ListOf(lists, channel);
      assert NoRepeats(targets);
      SendToAll(targets, e);
      SameListeners(lists, old(subs), subs);
    }

    method TouchRing(channel: string)
      requires OM.Distinct(rings)
      modifies this`rings
      ensures rings == OM.MoveToEnd(old(rings), channel)
      ensures OM.Distinct(rings) && |rings| == |old(rings)| && RingOf(rings, channel) == RingOf(old(rings), channel)
    {
      OM.MoveToEndProperties(rings, channel);
      rings := OM.MoveToEnd(rings, channel);
    }

    method SubscribeTo(id: nat, channel: string, since: Option<int>, maxQueue: int)
      requires Valid() && id !in subs
      modifies this
      ensures Valid() && State() == Subscribe(old(State()), id, channel, since, maxQueue)
    {
      TouchRing(channel);
      var queue: seq<Event> := [];
      if since.Some? {
        queue := ReplayLoop(RingOf(rings, channel), since.value, maxQueue);
      }
      var sub := Sub(channel, maxQueue, queue, 0, false);
      SubscribeKeepsLists(lists, subs, id, sub);
      lists := lists[channel := ListOf(lists, channel) + [id]];
      subs := subs[id := sub];
    }

    method Close(id: nat)
      requires Valid() && id in subs
      modifies this
      ensures Valid() && State() == old(State()).(subs := old(subs)[id := old(subs)[id].(closed := true)])
    {
      var s := subs[id];
      subs := subs[id := s.(closed := true)];
      CloseKeepsLists(lists, old(subs), id);
      if s.channel in lists {
        var kept := RemoveFirst(lists[s.channel], id);
        lists := if kept == [] then lists - {s.channel} else lists[s.channel := kept];
      } else {
        assert lists == lists - {s.channel};
      }
    }

    method NextItem(id: nat) returns (item: Item)
      requires Valid() && id in subs
      modifies this`subs
      ensures Valid()
      ensures item == Next(old(subs)[id]).1 && subs == old(subs)[id := Next(old(subs)[id]).0]
    {
      var s := subs[id];
      if s.closed {
        item := Stop;
      } else if s.dropped > 0 {
        item := Advisory(s.dropped);
        subs := subs[id := s.(dropped := 0)];
      } else if s.queue == [] {
        item := MustWait;
      } else {
        item := Delivered(s.queue[0]);
        subs := subs[id := s.(queue := s.queue[1..])];
      }
      SameListeners(lists, old(subs), subs);
    }
  }

  /** `list.remove`. */
  function RemoveFirst(xs: seq<nat>, x: nat): seq<nat> {
    if xs == [] then [] else if xs[0] == x then xs[1..] else [xs[0]] + RemoveFirst(xs[1..], x)
  }

  lemma {:induction false} RemoveFirstProperties(xs: seq<nat>, x: nat)
    requires NoRepeats(xs)
    ensures forall y :: y in RemoveFirst(xs, x) <==> y in xs && y != x
    ensures NoRepeats(RemoveFirst(xs, x))
  {
    if xs != [] && xs[0] != x {
      RemoveFirstProperties(xs[1..], x);
      var rest := RemoveFirst(xs[1..], x);
      forall j | 0 <= j < |rest|
        ensures rest[j] != xs[0]
      {
        assert rest[j] in rest;
      }
    }
  }

  lemma PublishKeepsRings(cfg: Config, rings: seq<(string, seq<Event>)>, channel: string, ring: seq<Event>)
    requires cfg.maxChannels >= 1 && OM.Distinct(rings) && |rings| <= cfg.maxChannels
    ensures OM.Distinct(Touched(cfg, rings, channel)) && OM.Get(Touched(cfg, rings, channel), channel).Some?
    ensures RingOf(Touched(cfg, rings, channel), channel) == RingOf(rings, channel)
    ensures OM.Distinct(OM.Put(Touched(cfg, rings, channel), channel, ring))
    ensures |OM.Put(Touched(cfg, rings, channel), channel, ring)| <= cfg.maxChannels
    ensures forall c | c != channel ::
              || OM.Get(Touched(cfg, rings, channel), c) == OM.Get(rings, c)
              || OM.Get(Touched(cfg, rings, channel), c).None?
  {
    if OM.Get(rings, channel).Some? {
      OM.MoveToEndProperties(rings, channel);
    } else {
      if |rings| >= cfg.maxChannels { OM.PopFirstProperties(rings); }
      OM.PutProperties(if |rings| >= cfg.maxChannels then rings[1..] else rings, channel, []);
    }
    OM.PutProperties(Touched(cfg, rings, channel), channel, ring);
  }

  /** The replay loop of `subscribe`: it stops at the first event that does not fit. */
  method ReplayLoop(ring: seq<Event>, since: int, maxQueue: int) returns (queue: seq<Event>)
    ensures queue == Replay(ring, Some(since), maxQueue)
  {
    queue := [];
    var i := 0;
    while i < |ring|
      invariant 0 <= i <= |ring|
      invariant queue == After(ring[..i], since)
      invariant maxQueue > 0 ==> |queue| <= maxQueue
    {
      AfterConcat(ring[..i], [ring[i]], since);
      assert ring[..i + 1] == ring[..i] + [ring[i]];
      if ring[i].sequence > since {
        if maxQueue > 0 && |queue| >= maxQueue {
          AfterConcat(ring[..i + 1], ring[i + 1..], since);
          assert ring == ring[..i + 1] + ring[i + 1..];
          return;
        }
        queue := queue + [ring[i]];
      }
      i := i + 1;
    }
    assert ring[..i] == ring;
  }

  lemma {:induction false} AfterConcat(a: seq<Event>, b: seq<Event>, since: int)
    ensures After(a + b, since) == After(a, since) + After(b, since)
  {
    if a == [] {
      assert a + b == b;
    } else {
      assert (a + b)[1..] == a[1..] + b;
      AfterConcat(a[1..], b, since);
    }
  }
}
