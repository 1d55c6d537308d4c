/** Whole runs of the event bus: exact accounting of drops for every subscriber and gap-free
    resumption from a sequence number. */
module BusRuns {
  import opened Digests
  import opened Bus
  import OM = OrderedMap

  /** What happened to one subscription: the events put on its queue, those it returned, the sum
      of its advisories; and its start: how many events were published, what it asked for, and its
      channel's ring then. */
  datatype Hist = Hist(
    offered: seq<Event>, delivered: seq<Event>, advised: nat, start: nat, since: Option<int>, ring: seq<Event>)

  datatype System = System(bus: BusState, log: seq<Event>, hists: map<nat, Hist>)

  datatype Step =
    | DoPublish(channel: string, payload: string)
    | DoSubscribe(id: nat, channel: string, since: Option<int>, maxQueue: int)
    | DoNext(id: nat)
    | DoClose(id: nat)

  predicate Enabled(s: System, step: Step) {
    match step
    case DoPublish(_, _) => true
    case DoSubscribe(id, _, _, _) => id !in s.bus.subs
    case DoNext(id) => id in s.bus.subs && !Next(s.bus.subs[id]).1.MustWait?
    case DoClose(id) => id in s.bus.subs
  }

  function OfChannel(log: seq<Event>, channel: string): seq<Event> {
    if log == [] then []
    else OfChannel(log[..|log| - 1], channel) + if log[|log| - 1].channel == channel then [log[|log| - 1]] else []
  }

  /** The events of a channel newer than `since`. */
  function Owed(log: seq<Event>, channel: string, since: int): seq<Event> {
    After(OfChannel(log, channel), since)
  }

  function Started(s: System, channel: string, since: Option<int>, maxQueue: int): Hist {
    var ring := RingOf(s.bus.rings, channel);
    Hist(Replay(ring, since, maxQueue), [], 0, |s.log|, since, ring)
  }

  function HistNext(h: Hist, item: Item): Hist {
    match item
    case Delivered(e) => h.(delivered := h.delivered + [e])
    case Advisory(n) => h.(advised := h.advised + n)
    case Stop => h
    case MustWait => h
  }

  function Apply(cfg: Config, s: System, step: Step): System
    requires cfg.maxChannels >= 1 && Enabled(s, step)
  {
    match step
    case DoPublish(channel, payload) =>
      var e := Event(s.bus.sequence + 1, channel, payload);
      System(Publish(cfg, s.bus, channel, payload), s.log + [e],
             map id | id in s.hists ::
               if id in s.bus.subs && Listens(s.bus.subs[id], channel)
               then s.hists[id].(offered := s.hists[id].offered + [e]) else s.hists[id])
    case DoSubscribe(id, channel, since, maxQueue) =>
      s.(bus := Subscribe(s.bus, id, channel, since, maxQueue),
         hists := s.hists[id := Started(s, channel, since, maxQueue)])
    case DoNext(id) =>
      var (sub, item) := Next(s.bus.subs[id]);
      s.(bus := s.bus.(subs := s.bus.subs[id := sub]),
         hists := if id in s.hists then s.hists[id := HistNext(s.hists[id], item)] else s.hists)
    case DoClose(id) =>
      s.(bus := s.bus.(subs := s.bus.subs[id := s.bus.subs[id].(closed := true)]))
  }

  const START: System := System(BusState(0, [], map[]), [], map[])

  predicate Possible(cfg: Config, steps: seq<Step>)
    requires cfg.maxChannels >= 1
    decreases |steps|, 0
  {
    steps == [] || (Possible(cfg, steps[..|steps| - 1]) && Enabled(Ran(cfg, steps[..|steps| - 1]), steps[|steps| - 1]))
  }

  function Ran(cfg: Config, steps: seq<Step>): System
    requires cfg.maxChannels >= 1 && Possible(cfg, steps)
    decreases |steps|, 1
  {
    if steps == [] then START else Apply(cfg, Ran(cfg, steps[..|steps| - 1]), steps[|steps| - 1])
  }

  // ---------------------------------------------------------------- lists of events

  predicate Rising(es: seq<Event>) {
    forall i, j | 0 <= i < j < |es| :: es[i].sequence < es[j].sequence
  }

  predicate AtMost(es: seq<Event>, n: nat) {
    forall i | 0 <= i < |es| :: es[i].sequence <= n
  }

  predicate Suffix(a: seq<Event>, b: seq<Event>) {
    |a| <= |b| && a == b[|b| - |a|..]
  }

  lemma RisingPush(es: seq<Event>, e: Event, n: nat)
    requires Rising(es) && AtMost(es, n) && e.sequence > n
    ensures Rising(es + [e]) && AtMost(es + [e], e.sequence)
  {
  }

  lemma {:induction false} AfterProperties(es: seq<Event>, since: int)
    requires Rising(es)
    ensures Suffix(After(es, since), es)
    ensures forall e :: e in After(es, since) <==> e in es && e.sequence > since
    ensures forall i | 0 <= i < |es| && es[i].sequence > since :: |es| - i <= |After(es, since)|
  {
    if es != [] {
      AfterProperties(es[1..], since);
      if es[0].sequence > since {
        assert forall i | 0 <= i < |es| :: es[i].sequence > since;
        AllAfter(es, since);
      } else {
        forall i | 0 <= i < |es| && es[i].sequence > since
          ensures |es| - i <= |After(es, since)|
        {
          assert es[1..][i - 1] == es[i];
        }
      }
    }
  }

  lemma {:induction false} AllAfter(es: seq<Event>, since: int)
    requires forall i | 0 <= i < |es| :: es[i].sequence > since
    ensures After(es, since) == es
  {
    if es != [] { AllAfter(es[1..], since); }
  }

  lemma SuffixRising(a: seq<Event>, b: seq<Event>, n: nat)
    requires Suffix(a, b) && Rising(b) && AtMost(b, n)
    ensures Rising(a) && AtMost(a, n)
  {
    assert forall i | 0 <= i < |a| :: a[i] == b[|b| - |a| + i];
  }

  // ---------------------------------------------------------------- invariant of one subscription

  /** The accounting: nothing offered is unaccounted for, and order is kept. */
  predicate Accounted(sub: Sub, h: Hist, n: nat) {
    && Rising(h.offered) && AtMost(h.offered, n)
    && Suffix(sub.queue, h.offered)
    && Rising(h.delivered + sub.queue) && AtMost(h.delivered + sub.queue, n)
    && |h.offered| == |h.delivered| + |sub.queue| + h.advised + sub.dropped
  }

  /** Without a drop, an open subscription has been given its replay and then every event that its
      channel published since, whatever it asked for. */
  predicate GapFree(sub: Sub, h: Hist, log: seq<Event>) {
    && h.start <= |log| && RingOk(log[..h.start], sub.channel, h.ring)
    && (!sub.closed && h.advised == 0 && sub.dropped == 0 ==>
          h.delivered + sub.queue == Replay(h.ring, h.since, sub.maxQueue) + OfChannel(log[h.start..], sub.channel))
  }

  predicate RingOk(log: seq<Event>, channel: string, ring: seq<Event>) {
    Suffix(ring, OfChannel(log, channel))
  }

  ghost predicate Inv(cfg: Config, s: System) {
    && s.bus.sequence == |s.log|
    && (forall i | 0 <= i < |s.log| :: s.log[i].sequence == i + 1)
    && OM.Distinct(s.bus.rings) && |s.bus.rings| <= cfg.maxChannels
    && (forall c: string :: RingOk(s.log, c, RingOf(s.bus.rings, c)))
    && s.hists.Keys == s.bus.subs.Keys
    && (forall id | id in s.hists :: Accounted(s.bus.subs[id], s.hists[id], |s.log|))
    && (forall id | id in s.hists :: GapFree(s.bus.subs[id], s.hists[id], s.log))
  }

  lemma {:induction false} ChannelRising(log: seq<Event>, channel: string)
    requires forall i | 0 <= i < |log| :: log[i].sequence == i + 1
    ensures Rising(OfChannel(log, channel)) && AtMost(OfChannel(log, channel), |log|)
    decreases |log|
  {
    if log != [] {
      var before, e := log[..|log| - 1], log[|log| - 1];
      ChannelRising(before, channel);
      if e.channel == channel { RisingPush(OfChannel(before, channel), e, |before|); }
    }
  }

  /** What a publication adds to the events since `start`. */
  lemma LaterAfterPublish(log: seq<Event>, e: Event, channel: string, start: nat)
    requires start <= |log|
    ensures (log + [e])[..start] == log[..start]
    ensures OfChannel((log + [e])[start..], channel) ==
            OfChannel(log[start..], channel) + if e.channel == channel then [e] else []
  {
    assert (log + [e])[start..] == log[start..] + [e];
    assert (log[start..] + [e])[..|log[start..]|] == log[start..];
  }

  /** Offering an event keeps the accounting, full queue or not. */
  lemma OfferKeepsAccounted(sub: Sub, h: Hist, e: Event, n: nat)
    requires Accounted(sub, h, n) && e.sequence == n + 1
    ensures Accounted(Offer(sub, e), h.(offered := h.offered + [e]), n + 1)
  {
    var sub', offered := Offer(sub, e), h.offered + [e];
    RisingPush(h.offered, e, n);
    RisingPush(h.delivered + sub.queue, e, n);
    if Full(sub) {
      RisingWithout(h.delivered, sub.queue, e, n + 1);
    } else {
      assert h.delivered + sub'.queue == h.delivered + sub.queue + [e];
    }
    assert sub'.queue == offered[|offered| - |sub'.queue|..];
  }

  /** Leaving one event out keeps the order. */
  lemma RisingWithout(delivered: seq<Event>, queue: seq<Event>, e: Event, n: nat)
    requires queue != [] && Rising(delivered + queue + [e]) && AtMost(delivered + queue + [e], n)
    ensures Rising(delivered + (queue[1..] + [e])) && AtMost(delivered + (queue[1..] + [e]), n)
  {
    var base, got := delivered + queue + [e], delivered + (queue[1..] + [e]);
    assert forall i | 0 <= i < |got| :: got[i] == base[if i < |delivered| then i else i + 1];
  }

  lemma NextKeepsAccounted(sub: Sub, h: Hist, n: nat)
    requires Accounted(sub, h, n)
    ensures var (sub', item) := Next(sub); Accounted(sub', HistNext(h, item), n)
  {
    var (sub', item) := Next(sub);
    if item.Delivered? {
      assert h.delivered + sub.queue == h.delivered + [sub.queue[0]] + sub'.queue;
      assert sub'.queue == h.offered[|h.offered| - |sub'.queue|..];
    }
  }

  lemma NextKeepsGapFree(sub: Sub, h: Hist, log: seq<Event>)
    requires GapFree(sub, h, log)
    ensures var (sub', item) := Next(sub); GapFree(sub', HistNext(h, item), log)
  {
    var (sub', item) := Next(sub);
    if item.Delivered? {
      assert h.delivered + sub.queue == h.delivered + [sub.queue[0]] + sub'.queue;
    }
  }

  lemma OfferKeepsGapFree(sub: Sub, h: Hist, log: seq<Event>, e: Event)
    requires GapFree(sub, h, log) && Listens(sub, e.channel)
    ensures GapFree(Offer(sub, e), h.(offered := h.offered + [e]), log + [e])
  {
    LaterAfterPublish(log, e, sub.channel, h.start);
    if h.advised == 0 && !Full(sub) && sub.dropped == 0 {
      assert h.delivered + (sub.queue + [e]) == h.delivered + sub.queue + [e];
    }
  }

  lemma OtherChannelKeepsGapFree(sub: Sub, h: Hist, log: seq<Event>, e: Event)
    requires GapFree(sub, h, log) && !Listens(sub, e.channel)
    ensures GapFree(sub, h, log + [e])
  {
    LaterAfterPublish(log, e, sub.channel, h.start);
  }

  // ---------------------------------------------------------------- resumption

  /** Events that fell out of the ring cannot be in it. */
  lemma PartsDisjoint(gone: seq<Event>, ring: seq<Event>, e: Event)
    requires Rising(gone + ring) && e in gone
    ensures e !in ring
  {
    var i :| 0 <= i < |gone| && gone[i] == e;
    forall j | 0 <= j < |ring|
      ensures ring[j] != e
    {
      assert (gone + ring)[i] == e && (gone + ring)[|gone| + j] == ring[j];
    }
  }

  lemma GoneAreNotInRing(gone: seq<Event>, ring: seq<Event>, since: int)
    requires Rising(gone + ring) && Rising(gone)
    requires forall e | e in After(gone, since) + After(ring, since) :: e in ring
    ensures After(gone, since) == []
  {
    AfterProperties(gone, since);
    if After(gone, since) != [] {
      var e := (After(gone, since) + After(ring, since))[0];
      assert e in After(gone, since) && e in ring;
      PartsDisjoint(gone, ring, e);
    }
  }

  /** The ring holds all newer events exactly when none of them fell out of it. */
  lemma CoveredExactly(gone: seq<Event>, ring: seq<Event>, since: int)
    requires Rising(gone + ring)
    ensures (forall e | e in After(gone, since) + After(ring, since) :: e in ring) <==> After(gone, since) == []
  {
    assert Rising(gone) by { assert forall i | 0 <= i < |gone| :: gone[i] == (gone + ring)[i]; }
    SuffixRisingPart(gone, ring);
    AfterProperties(ring, since);
    if forall e | e in After(gone, since) + After(ring, since) :: e in ring {
      GoneAreNotInRing(gone, ring, since);
    }
  }

  lemma SuffixRisingPart(gone: seq<Event>, ring: seq<Event>)
    requires Rising(gone + ring)
    ensures Rising(ring)
  {
    assert forall i | 0 <= i < |ring| :: ring[i] == (gone + ring)[|gone| + i];
  }

  /** The replay at subscription is exactly what the channel owes if and only if the ring still
      holds all of it and it fits the queue. */
  lemma ReplayIsCompleteExactly(log: seq<Event>, channel: string, ring: seq<Event>, since: int, maxQueue: int)
    requires forall i | 0 <= i < |log| :: log[i].sequence == i + 1
    requires RingOk(log, channel, ring)
    ensures Replay(ring, Some(since), maxQueue) == Owed(log, channel, since) <==>
            && (forall e | e in Owed(log, channel, since) :: e in ring)
            && (maxQueue > 0 ==> |Owed(log, channel, since)| <= maxQueue)
  {
    var all := OfChannel(log, channel);
    ChannelRising(log, channel);
    var gone := all[..|all| - |ring|];
    assert all == gone + ring;
    AfterConcat(gone, ring, since);
    CoveredExactly(gone, ring, since);
  }

  lemma ReplayIsRising(ring: seq<Event>, since: int, maxQueue: int, n: nat)
    requires Rising(ring) && AtMost(ring, n)
    ensures Rising(Replay(ring, Some(since), maxQueue)) && AtMost(Replay(ring, Some(since), maxQueue), n)
  {
    AfterProperties(ring, since);
    var newer, replay := After(ring, since), Replay(ring, Some(since), maxQueue);
    SuffixRising(newer, ring, n);
    assert forall i | 0 <= i < |replay| :: replay[i] == newer[i];
  }

  lemma SubscribeKeepsAccounted(cfg: Config, s: System, channel: string, since: Option<int>, maxQueue: int)
    requires Inv(cfg, s)
    ensures var sub := Sub(channel, maxQueue, Replay(RingOf(s.bus.rings, channel), since, maxQueue), 0, false);
            Accounted(sub, Started(s, channel, since, maxQueue), |s.log|)
  {
    var ring := RingOf(s.bus.rings, channel);
    assert RingOk(s.log, channel, ring);
    ChannelRising(s.log, channel);
    SuffixRising(ring, OfChannel(s.log, channel), |s.log|);
    if since.Some? {
      ReplayIsRising(ring, since.value, maxQueue, |s.log|);
      assert [] + Replay(ring, since, maxQueue) == Replay(ring, since, maxQueue);
    }
  }

  lemma SubscribeKeepsGapFree(cfg: Config, s: System, channel: string, since: Option<int>, maxQueue: int)
    requires Inv(cfg, s)
    ensures var sub := Sub(channel, maxQueue, Replay(RingOf(s.bus.rings, channel), since, maxQueue), 0, false);
            GapFree(sub, Started(s, channel, since, maxQueue), s.log)
  {
    var ring := RingOf(s.bus.rings, channel);
    assert RingOk(s.log, channel, ring);
    assert s.log[..|s.log|] == s.log && s.log[|s.log|..] == [];
  }

  // ---------------------------------------------------------------- every step

  lemma PushedRing(cfg: Config, log: seq<Event>, e: Event, ring: seq<Event>)
    requires RingOk(log, e.channel, ring)
    ensures RingOk(log + [e], e.channel, Pushed(cfg, ring, e))
  {
    assert (log + [e])[..|log|] == log;
  }

  lemma PublishKeepsRingOk(cfg: Config, s: System, e: Event, c: string)
    requires cfg.maxChannels >= 1 && Inv(cfg, s)
    requires e == Event(s.bus.sequence + 1, e.channel, e.payload)
    ensures RingOk(s.log + [e], c, RingOf(Publish(cfg, s.bus, e.channel, e.payload).rings, c))
  {
    var touched := Touched(cfg, s.bus.rings, e.channel);
    var ring := Pushed(cfg, RingOf(touched, e.channel), e);
    PublishKeepsRings(cfg, s.bus.rings, e.channel, ring);
    OM.PutProperties(touched, e.channel, ring);
    assert RingOk(s.log, c, RingOf(s.bus.rings, c));
    if c == e.channel {
      PushedRing(cfg, s.log, e, RingOf(s.bus.rings, c));
    } else {
      assert (s.log + [e])[..|s.log|] == s.log;
    }
  }

  lemma PublishKeepsSub(cfg: Config, s: System, e: Event, id: nat)
    requires cfg.maxChannels >= 1 && Inv(cfg, s) && id in s.hists
    requires e == Event(s.bus.sequence + 1, e.channel, e.payload)
    ensures var next := Apply(cfg, s, DoPublish(e.channel, e.payload));
            && Accounted(next.bus.subs[id], next.hists[id], |next.log|)
            && GapFree(next.bus.subs[id], next.hists[id], next.log)
  {
    var sub, h := s.bus.subs[id], s.hists[id];
    if Listens(sub, e.channel) {
      OfferKeepsAccounted(sub, h, e, |s.log|);
      OfferKeepsGapFree(sub, h, s.log, e);
    } else {
      OtherChannelKeepsGapFree(sub, h, s.log, e);
    }
  }

  lemma PublishKeepsInv(cfg: Config, s: System, step: Step)
    requires cfg.maxChannels >= 1 && Inv(cfg, s) && step.DoPublish?
    ensures Inv(cfg, Apply(cfg, s, step))
  {
    var e := Event(s.bus.sequence + 1, step.channel, step.payload);
    var next := Apply(cfg, s, step);
    var touched := Touched(cfg, s.bus.rings, e.channel);
    PublishKeepsRings(cfg, s.bus.rings, e.channel, Pushed(cfg, RingOf(touched, e.channel), e));
    forall c: string
      ensures RingOk(next.log, c, RingOf(next.bus.rings, c))
    {
      PublishKeepsRingOk(cfg, s, e, c);
    }
    forall id | id in next.hists
      ensures Accounted(next.bus.subs[id], next.hists[id], |next.log|)
      ensures GapFree(next.bus.subs[id], next.hists[id], next.log)
    {
      PublishKeepsSub(cfg, s, e, id);
    }
  }

  lemma SubscribeKeepsInv(cfg: Config, s: System, step: Step)
    requires cfg.maxChannels >= 1 && Inv(cfg, s) && Enabled(s, step) && step.DoSubscribe?
    ensures Inv(cfg, Apply(cfg, s, step))
  {
    var next := Apply(cfg, s, step);
    OM.MoveToEndProperties(s.bus.rings, step.channel);
    forall c: string
      ensures RingOk(next.log, c, RingOf(next.bus.rings, c))
    {
      assert RingOk(s.log, c, RingOf(s.bus.rings, c));
    }
    forall id | id in next.hists
      ensures Accounted(next.bus.subs[id], next.hists[id], |next.log|) && GapFree(next.bus.subs[id], next.hists[id], next.log)
    {
      SubscribeKeepsSub(cfg, s, step, id);
    }
  }

  lemma SubscribeKeepsSub(cfg: Config, s: System, step: Step, id: nat)
    requires cfg.maxChannels >= 1 && Inv(cfg, s) && Enabled(s, step) && step.DoSubscribe? && (id in s.hists || id == step.id)
    ensures var next := Apply(cfg, s, step);
            && id in next.hists && id in next.bus.subs
            && Accounted(next.bus.subs[id], next.hists[id], |next.log|) && GapFree(next.bus.subs[id], next.hists[id], next.log)
  {
    if id == step.id {
      SubscribeKeepsAccounted(cfg, s, step.channel, step.since, step.maxQueue);
      SubscribeKeepsGapFree(cfg, s, step.channel, step.since, step.maxQueue);
    } else {
      assert Accounted(s.bus.subs[id], s.hists[id], |s.log|) && GapFree(s.bus.subs[id], s.hists[id], s.log);
    }
  }

  lemma NextKeepsInv(cfg: Config, s: System, step: Step)
    requires cfg.maxChannels >= 1 && Inv(cfg, s) && Enabled(s, step) && step.DoNext?
    ensures Inv(cfg, Apply(cfg, s, step))
  {
    NextKeepsAccounted(s.bus.subs[step.id], s.hists[step.id], |s.log|);
    NextKeepsGapFree(s.bus.subs[step.id], s.hists[step.id], s.log);
  }

  lemma StepKeepsInv(cfg: Config, s: System, step: Step)
    requires cfg.maxChannels >= 1 && Inv(cfg, s) && Enabled(s, step)
    ensures Inv(cfg, Apply(cfg, s, step))
  {
    match step
    case DoPublish(_, _) => PublishKeepsInv(cfg, s, step);
    case DoSubscribe(_, _, _, _) => SubscribeKeepsInv(cfg, s, step);
    case DoNext(_) => NextKeepsInv(cfg, s, step);
    case DoClose(id) =>
      assert Accounted(s.bus.subs[id], s.hists[id], |s.log|) && GapFree(s.bus.subs[id], s.hists[id], s.log);
  }

  lemma {:induction false} EveryRunKeeps(cfg: Config, steps: seq<Step>)
    requires cfg.maxChannels >= 1 && Possible(cfg, steps)
    ensures Inv(cfg, Ran(cfg, steps))
    decreases |steps|
  {
    if steps != [] {
      EveryRunKeeps(cfg, steps[..|steps| - 1]);
      StepKeepsInv(cfg, Ran(cfg, steps[..|steps| - 1]), steps[|steps| - 1]);
    }
  }

  /** Exact accounting, in every run and for every subscriber: its queue is the end of what it was
      offered, what it received comes in strictly rising sequence, and offered events are exactly
      the delivered, the queued, the advised drops and the drops still to be advised. */
  lemma DropsAreAccountedFor(cfg: Config, steps: seq<Step>, id: nat)
    requires cfg.maxChannels >= 1 && Possible(cfg, steps) && id in Ran(cfg, steps).hists
    ensures var s := Ran(cfg, steps);
            && id in s.bus.subs && Accounted(s.bus.subs[id], s.hists[id], |s.log|)
            && Rising(s.hists[id].delivered)
  {
    EveryRunKeeps(cfg, steps);
    var s := Ran(cfg, steps);
    assert Accounted(s.bus.subs[id], s.hists[id], |s.log|);
    var h := s.hists[id];
    assert forall i | 0 <= i < |h.delivered| :: (h.delivered + s.bus.subs[id].queue)[i] == h.delivered[i];
  }

  /** An open subscription that has had no drop. */
  predicate Undropped(s: System, id: nat) {
    && id in s.hists && id in s.bus.subs
    && !s.bus.subs[id].closed && s.hists[id].advised == 0 && s.bus.subs[id].dropped == 0
  }

  function Given(s: System, id: nat): seq<Event>
    requires id in s.hists && id in s.bus.subs
  {
    s.hists[id].delivered + s.bus.subs[id].queue
  }

  /** In every run, whatever it asked for: a subscriber without drops has been given its replay and
      then exactly the events its channel published since, in order, with no gap and no repeat. */
  lemma SubscriberGetsReplayThenLater(cfg: Config, steps: seq<Step>, id: nat)
    requires cfg.maxChannels >= 1 && Possible(cfg, steps) && Undropped(Ran(cfg, steps), id)
    ensures var s := Ran(cfg, steps);
            var h, sub := s.hists[id], s.bus.subs[id];
            && h.start <= |s.log|
            && Given(s, id) == Replay(h.ring, h.since, sub.maxQueue) + OfChannel(s.log[h.start..], sub.channel)
  {
    EveryRunKeeps(cfg, steps);
    assert GapFree(Ran(cfg, steps).bus.subs[id], Ran(cfg, steps).hists[id], Ran(cfg, steps).log);
  }

  lemma {:induction false} OfChannelConcat(a: seq<Event>, b: seq<Event>, channel: string)
    ensures OfChannel(a + b, channel) == OfChannel(a, channel) + OfChannel(b, channel)
    decreases |b|
  {
    if b == [] {
      assert a + b == a;
    } else {
      assert (a + b)[..|a + b| - 1] == a + b[..|b| - 1];
      OfChannelConcat(a, b[..|b| - 1], channel);
    }
  }

  lemma {:induction false} ChannelMembers(log: seq<Event>, channel: string, e: Event)
    requires e in OfChannel(log, channel)
    ensures e in log
    decreases |log|
  {
    if e != log[|log| - 1] { ChannelMembers(log[..|log| - 1], channel, e); }
  }

  /** Events up to `n` followed by events past `n`: equal lists have equal halves. */
  lemma HalvesEqual(p: seq<Event>, q: seq<Event>, a: seq<Event>, b: seq<Event>, n: nat)
    requires AtMost(p, n) && AtMost(a, n) && Past(q, n) && Past(b, n)
    ensures p + q == a + b <==> p == a && q == b
  {
    if p + q == a + b {
      var whole := p + q;
      SplitPlace(p, q, n);
      SplitPlace(a, b, n);
      SamePlace(whole, |p|, |a|, n);
      assert p == whole[..|p|] && q == whole[|p|..] && a == whole[..|a|] && b == whole[|a|..];
    }
  }

  lemma SamePlace(whole: seq<Event>, m: nat, k: nat, n: nat)
    requires m <= |whole| && k <= |whole|
    requires forall i | 0 <= i < |whole| :: whole[i].sequence <= n <==> i < m
    requires forall i | 0 <= i < |whole| :: whole[i].sequence <= n <==> i < k
    ensures m == k
  {
    if m < |whole| { var atM := whole[m]; }
    if k < |whole| { var atK := whole[k]; }
  }

  predicate Past(es: seq<Event>, n: nat) {
    forall i | 0 <= i < |es| :: es[i].sequence > n
  }

  lemma SplitPlace(p: seq<Event>, q: seq<Event>, n: nat)
    requires AtMost(p, n) && Past(q, n)
    ensures forall i | 0 <= i < |p + q| :: (p + q)[i].sequence <= n <==> i < |p|
  {
  }

  /** `After` drops nothing exactly when everything is newer. */
  lemma {:induction false} AfterKeepsAllExactly(es: seq<Event>, since: int)
    ensures |After(es, since)| <= |es|
    ensures After(es, since) == es <==> forall i | 0 <= i < |es| :: es[i].sequence > since
  {
    if es != [] {
      AfterKeepsAllExactly(es[1..], since);
      if After(es, since) == es {
        assert es[0].sequence > since;
        assert After(es[1..], since) == es[1..];
      }
      if forall i | 0 <= i < |es| :: es[i].sequence > since { AllAfter(es, since); }
    }
  }

  /** The start was complete: the ring held everything owed then, and it fitted the queue. */
  predicate StartCovered(h: Hist, early: seq<Event>, channel: string, since: int, maxQueue: int) {
    && (forall e | e in Owed(early, channel, since) :: e in h.ring)
    && (maxQueue > 0 ==> |Owed(early, channel, since)| <= maxQueue)
  }

  /** Nothing published since the start carries a number the subscriber claims to have. */
  predicate NothingOldPublished(later: seq<Event>, channel: string, since: int) {
    forall i | 0 <= i < |OfChannel(later, channel)| :: OfChannel(later, channel)[i].sequence > since
  }

  lemma LaterIsPast(log: seq<Event>, start: nat, channel: string)
    requires start <= |log| && forall i | 0 <= i < |log| :: log[i].sequence == i + 1
    ensures Past(OfChannel(log[start..], channel), start)
  {
    var later := log[start..];
    forall i | 0 <= i < |OfChannel(later, channel)|
      ensures OfChannel(later, channel)[i].sequence > start
    {
      var e := OfChannel(later, channel)[i];
      ChannelMembers(later, channel, e);
      var k :| 0 <= k < |later| && later[k] == e;
      assert log[start + k] == e;
    }
  }

  lemma EarlyIsAtMost(early: seq<Event>, channel: string, since: int, maxQueue: int, ring: seq<Event>)
    requires (forall i | 0 <= i < |early| :: early[i].sequence == i + 1) && RingOk(early, channel, ring)
    ensures AtMost(Replay(ring, Some(since), maxQueue), |early|) && AtMost(Owed(early, channel, since), |early|)
  {
    ChannelRising(early, channel);
    SuffixRising(ring, OfChannel(early, channel), |early|);
    ReplayIsRising(ring, since, maxQueue, |early|);
    AfterProperties(OfChannel(early, channel), since);
    SuffixRising(Owed(early, channel, since), OfChannel(early, channel), |early|);
  }

  lemma PartsOfOwed(log: seq<Event>, start: nat, channel: string, since: int)
    requires start <= |log|
    ensures Owed(log, channel, since) == Owed(log[..start], channel, since) + After(OfChannel(log[start..], channel), since)
  {
    assert log == log[..start] + log[start..];
    OfChannelConcat(log[..start], log[start..], channel);
    AfterConcat(OfChannel(log[..start], channel), OfChannel(log[start..], channel), since);
  }

  lemma {:induction false} AfterOfLater(q: seq<Event>, since: int, n: nat)
    requires Past(q, n)
    ensures Past(After(q, since), n)
    decreases |q|
  {
    if q != [] { AfterOfLater(q[1..], since, n); }
  }

  /** Resumption, in every run and for every `since_sequence`: a subscriber without drops has been
      given exactly its channel's events with larger sequence if and only if its start was covered
      and nothing published since has a sequence it claims to have. */
  lemma {:induction false} ResumedSubscriberMissesNothingExactly(cfg: Config, steps: seq<Step>, id: nat)
    requires cfg.maxChannels >= 1 && Possible(cfg, steps) && Undropped(Ran(cfg, steps), id)
    requires Ran(cfg, steps).hists[id].since.Some?
    ensures var s := Ran(cfg, steps);
            var h, sub := s.hists[id], s.bus.subs[id];
            && h.start <= |s.log|
            && (Given(s, id) == Owed(s.log, sub.channel, h.since.value) <==>
                && StartCovered(h, s.log[..h.start], sub.channel, h.since.value, sub.maxQueue)
                && NothingOldPublished(s.log[h.start..], sub.channel, h.since.value))
  {
    EveryRunKeeps(cfg, steps);
    SubscriberGetsReplayThenLater(cfg, steps, id);
    var s := Ran(cfg, steps);
    var h, sub, log := s.hists[id], s.bus.subs[id], s.log;
    assert GapFree(sub, h, log);
    var early, q := log[..h.start], OfChannel(log[h.start..], sub.channel);
    ReplayIsCompleteExactly(early, sub.channel, h.ring, h.since.value, sub.maxQueue);
    PartsOfOwed(log, h.start, sub.channel, h.since.value);
    EarlyIsAtMost(early, sub.channel, h.since.value, sub.maxQueue, h.ring);
    LaterIsPast(log, h.start, sub.channel);
    AfterOfLater(q, h.since.value, h.start);
    AfterKeepsAllExactly(q, h.since.value);
    HalvesEqual(Replay(h.ring, h.since, sub.maxQueue), q, Owed(early, sub.channel, h.since.value), After(q, h.since.value), h.start);
  }

  /** A sequence of the past claims nothing that is still to be published. */
  lemma PastSinceClaimsNothingNew(log: seq<Event>, start: nat, channel: string, since: int)
    requires start <= |log| && (forall i | 0 <= i < |log| :: log[i].sequence == i + 1) && since <= start
    ensures NothingOldPublished(log[start..], channel, since)
  {
    LaterIsPast(log, start, channel);
  }

  lemma Extend(cfg: Config, steps: seq<Step>, step: Step, longer: seq<Step>)
    requires cfg.maxChannels >= 1 && Possible(cfg, steps) && Enabled(Ran(cfg, steps), step) && longer == steps + [step]
    ensures Possible(cfg, longer) && Ran(cfg, longer) == Apply(cfg, Ran(cfg, steps), step)
  {
    assert longer[..|longer| - 1] == steps;
  }

  /** A client that comes back after the server restarted asks for events after a sequence that the
      new bus has not reached. Its start is covered and nothing is dropped, and yet it is given an
      event it asked not to get. */
  lemma ResumeAheadOfTheBusGetsOldNumbers(cfg: Config, channel: string, payload: string, since: int)
    requires cfg.maxChannels >= 1 && since >= 1
    ensures var steps := [DoSubscribe(0, channel, Some(since), 10), DoPublish(channel, payload)];
            && Possible(cfg, steps) && Undropped(Ran(cfg, steps), 0)
            && var s := Ran(cfg, steps);
               Given(s, 0) == [Event(1, channel, payload)] && Owed(s.log, channel, since) == []
  {
    var one := [DoSubscribe(0, channel, Some(since), 10)];
    Extend(cfg, [], DoSubscribe(0, channel, Some(since), 10), one);
    assert Ran(cfg, one).bus.subs[0] == Sub(channel, 10, [], 0, false);
    var two := [DoSubscribe(0, channel, Some(since), 10), DoPublish(channel, payload)];
    Extend(cfg, one, DoPublish(channel, payload), two);
    var e := Event(1, channel, payload);
    var s := Ran(cfg, two);
    assert s.log == [e] && [e][..0] == [];
    assert OfChannel([e], channel) == OfChannel([e][..0], channel) + [e];
    assert After([e], since) == After([e][1..], since);
  }
}
