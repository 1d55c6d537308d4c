/** What the bus's ring buffers hold: an unbounded recency list and unbounded per-channel lists, cut
    to their bounds. */
module BusRings {
  import opened Digests
  import opened Bus
  import opened BusRuns
  import OM = OrderedMap

  // ---------------------------------------------------------------- the simple form

  function Without(cs: seq<string>, c: string): (r: seq<string>)
    ensures forall x :: x in r <==> x in cs && x != c
    ensures |r| <= |cs|
  {
    if cs == [] then [] else (if cs[0] == c then [] else [cs[0]]) + Without(cs[1..], c)
  }

  /** All channels ever published to, by last use. A publication uses its channel; a subscription uses
      its own only while that is buffered. */
  function Recency(cfg: Config, steps: seq<Step>): seq<string> {
    if steps == [] then []
    else
      var cs, step := Recency(cfg, steps[..|steps| - 1]), steps[|steps| - 1];
      if step.DoPublish? || (step.DoSubscribe? && step.channel in LastN(cs, cfg.maxChannels))
      then Without(cs, step.channel) + [step.channel] else cs
  }

  /** The channel is among the most recently used that there is room for. */
  predicate Buffered(cfg: Config, steps: seq<Step>, c: string) {
    c in LastN(Recency(cfg, steps), cfg.maxChannels)
  }

  /** The events of the channel since it was last not buffered. */
  function SinceBuffered(cfg: Config, steps: seq<Step>, c: string): seq<Event>
    requires cfg.maxChannels >= 1 && Possible(cfg, steps)
  {
    if steps == [] then []
    else
      var before, step := steps[..|steps| - 1], steps[|steps| - 1];
      if step.DoPublish? && step.channel == c then
        (if Buffered(cfg, before, c) then SinceBuffered(cfg, before, c) else [])
        + [Event(|Ran(cfg, before).log| + 1, c, step.payload)]
      else SinceBuffered(cfg, before, c)
  }

  // ---------------------------------------------------------------- lists of channels

  predicate DistinctNames(cs: seq<string>) {
    forall i, j | 0 <= i < j < |cs| :: cs[i] != cs[j]
  }

  function Names(rings: seq<(string, seq<Event>)>): (r: seq<string>)
    ensures |r| == |rings|
  {
    seq(|rings|, i requires 0 <= i < |rings| => rings[i].0)
  }

  lemma {:induction false} WithoutAbsent(cs: seq<string>, c: string)
    requires c !in cs
    ensures Without(cs, c) == cs
  {
    if cs != [] { WithoutAbsent(cs[1..], c); }
  }

  lemma {:induction false} WithoutDistinct(cs: seq<string>, c: string)
    requires DistinctNames(cs)
    ensures DistinctNames(Without(cs, c)) && |Without(cs, c)| == if c in cs then |cs| - 1 else |cs|
  {
    if cs != [] {
      WithoutDistinct(cs[1..], c);
      if cs[0] == c { WithoutAbsent(cs[1..], c); }
      var rest := Without(cs[1..], c);
      forall j | 0 <= j < |rest|
        ensures rest[j] in cs[1..]
      {
        assert rest[j] in rest;
      }
    }
  }

  lemma {:induction false} WithoutConcat(a: seq<string>, b: seq<string>, c: string)
    ensures Without(a + b, c) == Without(a, c) + Without(b, c)
  {
    if a == [] {
      assert a + b == b;
    } else {
      assert (a + b)[1..] == a[1..] + b;
      WithoutConcat(a[1..], b, c);
    }
  }

  lemma LastNTail(front: seq<string>, back: seq<string>, n: nat)
    requires |back| == n || (front == [] && |back| <= n)
    ensures LastN(front + back, n) == back
  {
    if front == [] { assert front + back == back; }
  }

  lemma SplitWindow(cs: seq<string>, n: nat) returns (front: seq<string>, back: seq<string>)
    ensures cs == front + back && back == LastN(cs, n)
    ensures |back| == n || (front == [] && |back| <= n)
  {
    var k := if |cs| <= n then 0 else |cs| - n;
    front, back := cs[..k], cs[k..];
  }

  lemma DistinctParts(front: seq<string>, back: seq<string>, c: string)
    requires DistinctNames(front + back)
    ensures DistinctNames(back) && (c in back ==> c !in front)
  {
    var all := front + back;
    assert forall i | 0 <= i < |back| :: back[i] == all[|front| + i];
    if c in back {
      var j :| 0 <= j < |back| && back[j] == c;
      forall i | 0 <= i < |front|
        ensures front[i] != c
      {
        assert all[i] == front[i] && all[|front| + j] == c;
      }
    }
  }

  /** Using a channel that is in the window moves it to the end of the window. */
  lemma UseInWindow(cs: seq<string>, n: nat, c: string)
    requires DistinctNames(cs) && c in LastN(cs, n)
    ensures LastN(Without(cs, c) + [c], n) == Without(LastN(cs, n), c) + [c]
  {
    var front, back := SplitWindow(cs, n);
    DistinctParts(front, back, c);
    WithoutConcat(front, back, c);
    WithoutAbsent(front, c);
    WithoutDistinct(back, c);
    assert Without(cs, c) + [c] == front + (Without(back, c) + [c]);
    LastNTail(front, Without(back, c) + [c], n);
  }

  /** Using one that is not drops the oldest of a full window. */
  lemma UseOutsideWindow(cs: seq<string>, n: nat, c: string)
    requires DistinctNames(cs) && c !in LastN(cs, n) && n >= 1
    ensures var w := LastN(cs, n);
            LastN(Without(cs, c) + [c], n) == (if |w| >= n then w[1..] else w) + [c]
  {
    var front, back := SplitWindow(cs, n);
    WithoutConcat(front, back, c);
    WithoutAbsent(back, c);
    if |back| >= n {
      OldestGoes(Without(front, c), back, n, c);
    } else {
      assert Without(cs, c) + [c] == [] + (back + [c]);
      LastNTail([], back + [c], n);
    }
  }

  lemma OldestGoes(front: seq<string>, back: seq<string>, n: nat, c: string)
    requires |back| == n && n >= 1
    ensures LastN(front + back + [c], n) == back[1..] + [c]
  {
    assert front + back + [c] == (front + [back[0]]) + (back[1..] + [c]);
    LastNTail(front + [back[0]], back[1..] + [c], n);
  }

  lemma NamesSplit(rings: seq<(string, seq<Event>)>)
    requires rings != []
    ensures Names(rings) == [rings[0].0] + Names(rings[1..])
  {
  }

  lemma {:induction false} NamesOfRemove(rings: seq<(string, seq<Event>)>, c: string)
    requires OM.Distinct(rings)
    ensures Names(OM.Remove(rings, c)) == Without(Names(rings), c)
    ensures OM.Get(rings, c).Some? <==> c in Names(rings)
  {
    if rings != [] {
      NamesSplit(rings);
      if rings[0].0 == c {
        assert c !in Names(rings[1..]);
        WithoutAbsent(Names(rings[1..]), c);
      } else {
        NamesOfRemove(rings[1..], c);
        NamesSplit(OM.Remove(rings, c));
      }
    }
  }

  lemma {:induction false} NamesOfPut(rings: seq<(string, seq<Event>)>, c: string, ring: seq<Event>)
    requires OM.Distinct(rings)
    ensures Names(OM.Put(rings, c, ring)) == if c in Names(rings) then Names(rings) else Names(rings) + [c]
  {
    if rings != [] {
      assert Names(rings) == [rings[0].0] + Names(rings[1..]);
      if rings[0].0 != c {
        NamesOfPut(rings[1..], c, ring);
        assert Names(OM.Put(rings, c, ring)) == [rings[0].0] + Names(OM.Put(rings[1..], c, ring));
      } else {
        assert Names(OM.Put(rings, c, ring)) == [c] + Names(rings[1..]);
      }
    }
  }

  lemma NamesOfMove(rings: seq<(string, seq<Event>)>, c: string)
    requires OM.Distinct(rings) && c in Names(rings)
    ensures Names(OM.MoveToEnd(rings, c)) == Without(Names(rings), c) + [c]
  {
    NamesOfRemove(rings, c);
  }

  /** The channels after a publication. */
  lemma NamesAfterTouch(cfg: Config, rings: seq<(string, seq<Event>)>, c: string)
    requires cfg.maxChannels >= 1 && OM.Distinct(rings)
    ensures OM.Distinct(Touched(cfg, rings, c)) && OM.Get(Touched(cfg, rings, c), c).Some?
    ensures Names(Touched(cfg, rings, c)) ==
            if c in Names(rings) then Without(Names(rings), c) + [c]
            else (if |rings| >= cfg.maxChannels then Names(rings)[1..] else Names(rings)) + [c]
  {
    NamesOfRemove(rings, c);
    if c in Names(rings) {
      NamesOfMove(rings, c);
      OM.MoveToEndProperties(rings, c);
    } else {
      var kept := if |rings| >= cfg.maxChannels then rings[1..] else rings;
      if |rings| >= cfg.maxChannels {
        OM.PopFirstProperties(rings);
        assert Names(kept) == Names(rings)[1..];
      }
      NamesOfPut(kept, c, []);
      OM.PutProperties(kept, c, []);
    }
  }

  // ---------------------------------------------------------------- every run

  lemma {:induction false} RecencyDistinct(cfg: Config, steps: seq<Step>)
    ensures DistinctNames(Recency(cfg, steps))
    decreases |steps|
  {
    if steps != [] {
      var cs, step := Recency(cfg, steps[..|steps| - 1]), steps[|steps| - 1];
      RecencyDistinct(cfg, steps[..|steps| - 1]);
      if step.DoPublish? || step.DoSubscribe? { WithoutDistinct(cs, step.channel); }
    }
  }

  /** The buffered channels of every run are the last `maxChannels` of the recency list, in order: only
      the least recently used one ever goes. */
  lemma {:induction false} BufferedAreTheMostRecent(cfg: Config, steps: seq<Step>)
    requires cfg.maxChannels >= 1 && Possible(cfg, steps)
    ensures OM.Distinct(Ran(cfg, steps).bus.rings)
    ensures Names(Ran(cfg, steps).bus.rings) == LastN(Recency(cfg, steps), cfg.maxChannels)
    decreases |steps|
  {
    if steps != [] {
      var before, step := steps[..|steps| - 1], steps[|steps| - 1];
      BufferedAreTheMostRecent(cfg, before);
      RecencyDistinct(cfg, before);
      var rings, cs := Ran(cfg, before).bus.rings, Recency(cfg, before);
      match step
      case DoPublish(channel, payload) => PublishKeepsNames(cfg, Ran(cfg, before).bus, cs, channel, payload);
      case DoSubscribe(_, channel, _, _) =>
        NamesOfRemove(rings, channel);
        OM.MoveToEndProperties(rings, channel);
        if channel in Names(rings) {
          NamesOfMove(rings, channel);
          UseInWindow(cs, cfg.maxChannels, channel);
        }
      case DoNext(_) =>
      case DoClose(_) =>
    }
  }

  lemma PublishKeepsNames(cfg: Config, b: BusState, cs: seq<string>, channel: string, payload: string)
    requires cfg.maxChannels >= 1 && OM.Distinct(b.rings) && DistinctNames(cs)
    requires Names(b.rings) == LastN(cs, cfg.maxChannels)
    ensures OM.Distinct(Publish(cfg, b, channel, payload).rings)
    ensures Names(Publish(cfg, b, channel, payload).rings) == LastN(Without(cs, channel) + [channel], cfg.maxChannels)
  {
    var touched := Touched(cfg, b.rings, channel);
    var ring := Pushed(cfg, RingOf(touched, channel), Event(b.sequence + 1, channel, payload));
    NamesAfterTouch(cfg, b.rings, channel);
    NamesOfRemove(touched, channel);
    NamesOfPut(touched, channel, ring);
    OM.PutProperties(touched, channel, ring);
    if channel in Names(b.rings) {
      UseInWindow(cs, cfg.maxChannels, channel);
    } else {
      UseOutsideWindow(cs, cfg.maxChannels, channel);
    }
  }

  lemma PushedIsLast(cfg: Config, all: seq<Event>, e: Event)
    ensures Pushed(cfg, LastN(all, cfg.ringSize), e) == LastN(all + [e], cfg.ringSize)
  {
    LastNStep(all, e, cfg.ringSize);
  }

  /** The rings after a channel was used: a new one starts empty, and the least recently used goes when
      there is no room. */
  lemma TouchedRings(cfg: Config, rings: seq<(string, seq<Event>)>, channel: string, c: string)
    requires cfg.maxChannels >= 1 && OM.Distinct(rings)
    ensures OM.Get(Touched(cfg, rings, channel), c) ==
              if c == channel then Some(RingOf(rings, channel))
              else if OM.Get(rings, channel).None? && |rings| >= cfg.maxChannels && c == rings[0].0 then None
              else OM.Get(rings, c)
  {
    if OM.Get(rings, channel).Some? {
      OM.MoveToEndProperties(rings, channel);
    } else {
      var kept := if |rings| >= cfg.maxChannels then rings[1..] else rings;
      if |rings| >= cfg.maxChannels { OM.PopFirstProperties(rings); }
      OM.PutProperties(kept, channel, []);
    }
  }

  /** The rings of the other channels survive a publication unless their channel is evicted. */
  lemma RingsAfterPublish(cfg: Config, b: BusState, channel: string, payload: string, c: string)
    requires cfg.maxChannels >= 1 && OM.Distinct(b.rings)
    ensures var e, next := Event(b.sequence + 1, channel, payload), Publish(cfg, b, channel, payload);
            OM.Get(next.rings, c) ==
              if c == channel then Some(Pushed(cfg, RingOf(b.rings, channel), e))
              else if OM.Get(b.rings, channel).None? && |b.rings| >= cfg.maxChannels && c == b.rings[0].0 then None
              else OM.Get(b.rings, c)
  {
    var touched := Touched(cfg, b.rings, channel);
    var ring := Pushed(cfg, RingOf(touched, channel), Event(b.sequence + 1, channel, payload));
    NamesAfterTouch(cfg, b.rings, channel);
    TouchedRings(cfg, b.rings, channel, channel);
    TouchedRings(cfg, b.rings, channel, c);
    OM.PutProperties(touched, channel, ring);
  }

  /** The ring of a channel in every run: if the channel is buffered, the last `ringSize` of its events
      since it was last not buffered; otherwise there is none. */
  lemma {:induction false} RingsHoldTheNewest(cfg: Config, steps: seq<Step>, c: string)
    requires cfg.maxChannels >= 1 && Possible(cfg, steps)
    ensures OM.Get(Ran(cfg, steps).bus.rings, c) ==
            if Buffered(cfg, steps, c) then Some(LastN(SinceBuffered(cfg, steps, c), cfg.ringSize)) else None
    decreases |steps|
  {
    BufferedAreTheMostRecent(cfg, steps);
    NamesOfRemove(Ran(cfg, steps).bus.rings, c);
    if steps != [] {
      var before, step := steps[..|steps| - 1], steps[|steps| - 1];
      RingsHoldTheNewest(cfg, before, c);
      BufferedAreTheMostRecent(cfg, before);
      var bus := Ran(cfg, before).bus;
      match step
      case DoPublish(channel, payload) =>
        EveryRunKeeps(cfg, before);
        RingsAfterPublish(cfg, bus, channel, payload, c);
        if c == channel {
          var kept := if Buffered(cfg, before, c) then SinceBuffered(cfg, before, c) else [];
          PushedIsLast(cfg, kept, Event(bus.sequence + 1, channel, payload));
        }
      case DoSubscribe(_, channel, _, _) => OM.MoveToEndProperties(bus.rings, channel);
      case DoNext(_) =>
      case DoClose(_) =>
    }
  }

  lemma {:induction false} AllBuffered(cfg: Config, steps: seq<Step>, c: string)
    requires cfg.maxChannels >= 1 && Possible(cfg, steps) && |Recency(cfg, steps)| <= cfg.maxChannels
    ensures SinceBuffered(cfg, steps, c) == OfChannel(Ran(cfg, steps).log, c)
    ensures c !in Recency(cfg, steps) ==> OfChannel(Ran(cfg, steps).log, c) == []
    decreases |steps|
  {
    if steps != [] {
      var before, step := steps[..|steps| - 1], steps[|steps| - 1];
      RecencyDistinct(cfg, before);
      if step.DoPublish? || step.DoSubscribe? { WithoutDistinct(Recency(cfg, before), step.channel); }
      AllBuffered(cfg, before, c);
      EveryRunKeeps(cfg, before);
      if step.DoPublish? {
        var log := Ran(cfg, before).log;
        assert Ran(cfg, steps).log[..|log|] == log;
      }
    }
  }

  /** As long as no more channels were published to than there is room for, every ring holds exactly the
      last min(n, ringSize) events of its channel. */
  lemma FewChannelsLoseNothing(cfg: Config, steps: seq<Step>, c: string)
    requires cfg.maxChannels >= 1 && Possible(cfg, steps) && |Recency(cfg, steps)| <= cfg.maxChannels
    ensures RingOf(Ran(cfg, steps).bus.rings, c) == LastN(OfChannel(Ran(cfg, steps).log, c), cfg.ringSize)
  {
    RingsHoldTheNewest(cfg, steps, c);
    AllBuffered(cfg, steps, c);
  }
}
