/** What a reconnecting agent is sent: the commands it was sent and has not acknowledged, in the
    order they were first sent, before everything else. */
module StreamReplay {
  import opened Digests
  import opened Dispatcher
  import opened StreamLoop
  import OM = OrderedMap

  // ---------------------------------------------------------------- what a connect queues

  /** While no stream is open, no pulled command is in hand. */
  lemma {:induction false} NothingHeldOffline(steps: seq<Step>)
    requires Possible(steps)
    ensures !After(steps).host.connected ==> After(steps).held.None?
    decreases |steps|
  {
    if steps != [] { NothingHeldOffline(steps[..|steps| - 1]); }
  }

  /** After a reconnect the queue is the un-acked commands, each once and in order, and then exactly
      what was queued before; nothing else changes but the connection. */
  lemma ConnectQueuesUnacked(steps: seq<Step>)
    requires Possible(steps) && Enabled(After(steps), Connect)
    ensures var l, next := After(steps), Apply(After(steps), Connect);
            && Upcoming(next) == next.host.queue
            && |next.host.queue| == |l.host.unacked| + |l.host.queue|
            && (forall i | 0 <= i < |l.host.unacked| :: next.host.queue[i] == l.host.unacked[i].1)
            && next.host.queue[|l.host.unacked|..] == l.host.queue
            && next.host.unacked == l.host.unacked && next.sent == l.sent && next.enqueued == l.enqueued
  {
    NothingHeldOffline(steps);
  }

  /** A stream at work: commands arrive, are pulled, sent and acknowledged; none is put back. */
  predicate Working(step: Step) {
    step.Enqueue? || step.Ack? || step.Pull? || step.Send?
  }

  lemma PossiblePrefix(steps: seq<Step>, m: nat)
    requires Possible(steps) && m <= |steps|
    ensures Possible(steps[..m])
    decreases |steps|
  {
    if m < |steps| {
      PossiblePrefix(steps[..|steps| - 1], m);
      assert steps[..|steps| - 1][..m] == steps[..m];
    } else {
      assert steps[..m] == steps;
    }
  }

  /** Sends and upcoming commands together only grow at the end. */
  lemma {:induction false} WorkingIsFifo(steps: seq<Step>, m: nat) returns (more: seq<Command>)
    requires Possible(steps) && m <= |steps| && Possible(steps[..m])
    requires forall j | m <= j < |steps| :: Working(steps[j])
    ensures var l, end := After(steps[..m]), After(steps);
            l.sent <= end.sent && end.sent + Upcoming(end) == l.sent + Upcoming(l) + more
    decreases |steps|
  {
    if m == |steps| {
      assert steps[..m] == steps;
      more := [];
    } else {
      var before, step := steps[..|steps| - 1], steps[|steps| - 1];
      assert before[..m] == steps[..m];
      var fewer := WorkingIsFifo(before, m);
      var start := After(steps[..m]);
      more := if step.Enqueue? then fewer + [step.c] else fewer;
      WorkingStep(After(before), step);
      assert step.Enqueue? ==>
          start.sent + Upcoming(start) + more == (start.sent + Upcoming(start) + fewer) + [step.c];
    }
  }

  lemma WorkingStep(l: Link, step: Step)
    requires Enabled(l, step) && Working(step)
    ensures l.sent <= Apply(l, step).sent
    ensures Apply(l, step).sent + Upcoming(Apply(l, step)) ==
            l.sent + Upcoming(l) + if step.Enqueue? then [step.c] else []
  {
    var next := Apply(l, step);
    match step
    case Enqueue(c) => assert Upcoming(next) == Upcoming(l) + [c];
    case Ack(_) =>
    case Pull => assert Upcoming(next) == Upcoming(l);
    case Send => assert next.sent + Upcoming(next) == l.sent + Upcoming(l);
  }

  /** The sends since the connect of `l`: first the commands un-acked then, in their order, then the
      commands queued then, in theirs. */
  predicate ResentFirst(l: Link, sent: seq<Command>) {
    var n := |l.host.unacked|;
    && l.sent <= sent
    && var since := sent[|l.sent|..];
       && (forall i | 0 <= i < |since| && i < n :: since[i] == l.host.unacked[i].1)
       && (forall i | 0 <= i < |l.host.queue| && n + i < |since| :: since[n + i] == l.host.queue[i])
  }

  /** The queue that a connect leaves. */
  predicate ReplayQueue(l: Link, queue: seq<Command>) {
    && |queue| == |l.host.unacked| + |l.host.queue| && queue[|l.host.unacked|..] == l.host.queue
    && forall i | 0 <= i < |l.host.unacked| :: queue[i] == l.host.unacked[i].1
  }

  lemma SentFromQueue(l: Link, queue: seq<Command>, more: seq<Command>, sent: seq<Command>, upcoming: seq<Command>)
    requires ReplayQueue(l, queue) && l.sent <= sent && sent + upcoming == l.sent + queue + more
    ensures ResentFirst(l, sent)
  {
    var n, since := |l.host.unacked|, sent[|l.sent|..];
    assert since + upcoming == queue + more by {
      assert (sent + upcoming)[|l.sent|..] == since + upcoming;
      assert (l.sent + queue + more)[|l.sent|..] == queue + more;
    }
    forall i | 0 <= i < |since| && i < |queue|
      ensures since[i] == queue[i]
    {
      assert (since + upcoming)[i] == (queue + more)[i];
    }
    assert forall i | 0 <= i < |l.host.queue| :: queue[n + i] == queue[n..][i];
  }

  lemma SentSinceConnect(steps: seq<Step>, m: nat) returns (l: Link, queue: seq<Command>, more: seq<Command>)
    requires Possible(steps) && m < |steps| && steps[m] == Connect
    requires forall j | m < j < |steps| :: Working(steps[j])
    ensures Possible(steps[..m]) && l == After(steps[..m]) && ReplayQueue(l, queue) && l.sent <= After(steps).sent
    ensures After(steps).sent + Upcoming(After(steps)) == l.sent + queue + more
  {
    PossiblePrefix(steps, m);
    PossiblePrefix(steps, m + 1);
    assert steps[..m + 1][..m] == steps[..m];
    ConnectQueuesUnacked(steps[..m]);
    l := After(steps[..m]);
    queue := After(steps[..m + 1]).host.queue;
    more := WorkingIsFifo(steps, m + 1);
  }

  /** In every run, what the agent is sent after a reconnect, while the stream works without a
      put-back or a cancellation, starts with the commands un-acked at the connect, in their order. */
  lemma UnackedAreResentFirst(steps: seq<Step>, m: nat)
    requires Possible(steps) && m < |steps| && steps[m] == Connect
    requires forall j | m < j < |steps| :: Working(steps[j])
    ensures Possible(steps[..m]) && ResentFirst(After(steps[..m]), After(steps).sent)
  {
    var l, queue, more := SentSinceConnect(steps, m);
    SentFromQueue(l, queue, more, After(steps).sent, Upcoming(After(steps)));
  }

  // ---------------------------------------------------------------- which commands are un-acked

  /** Statement `j` of the run sends `c`. */
  predicate Sends(steps: seq<Step>, j: nat, c: Command)
    requires Possible(steps)
  {
    && j < |steps| && steps[j].Send?
    && (PossiblePrefix(steps, j); After(steps[..j]).held == Some(c))
  }

  predicate SendsId(steps: seq<Step>, j: nat, id: string)
    requires Possible(steps)
  {
    && j < |steps| && steps[j].Send?
    && (PossiblePrefix(steps, j); After(steps[..j]).held.Some? && After(steps[..j]).held.value.id == id)
  }

  /** A send of the id that no acknowledgement follows. */
  predicate OpenSend(steps: seq<Step>, j: nat, id: string)
    requires Possible(steps)
  {
    SendsId(steps, j, id) && forall k | j < k < |steps| :: steps[k] != Ack(id)
  }

  /** The first of them. */
  predicate Standing(steps: seq<Step>, j: nat, id: string)
    requires Possible(steps)
  {
    OpenSend(steps, j, id) && forall i: nat | i < j :: !OpenSend(steps, i, id)
  }

  /** `c` is the newest command sent under its id. */
  ghost predicate LastSent(steps: seq<Step>, c: Command)
    requires Possible(steps)
  {
    exists j: nat :: Sends(steps, j, c) && forall k: nat | k > j :: !SendsId(steps, k, c.id)
  }

  /** A position in the run. */
  datatype At = At(pos: nat)

  /** Where each un-acked id was first sent since its last acknowledgement. */
  function Since(steps: seq<Step>): seq<(string, At)>
    requires Possible(steps)
  {
    if steps == [] then []
    else
      var before := steps[..|steps| - 1];
      SinceNext(Since(before), After(before), steps[|steps| - 1], |before|)
  }

  /** Step number `m`: a send of an id not listed lists it, an acknowledgement takes it off. */
  function SinceNext(since: seq<(string, At)>, l: Link, step: Step, m: nat): seq<(string, At)>
    requires Enabled(l, step)
  {
    if step.Send? && OM.Get(since, l.held.value.id).None? then since + [(l.held.value.id, At(m))]
    else if step.Ack? then OM.Remove(since, step.id)
    else since
  }

  predicate SameIds(unacked: seq<(string, Command)>, since: seq<(string, At)>) {
    |unacked| == |since| && forall i | 0 <= i < |unacked| :: unacked[i].0 == since[i].0
  }

  predicate Rising(since: seq<(string, At)>, m: nat) {
    && (forall i | 0 <= i < |since| :: since[i].1.pos < m)
    && (forall i, j | 0 <= i < j < |since| :: since[i].1.pos < since[j].1.pos)
  }

  lemma {:induction false} RemoveAlike(unacked: seq<(string, Command)>, since: seq<(string, At)>, id: string)
    requires SameIds(unacked, since)
    ensures SameIds(OM.Remove(unacked, id), OM.Remove(since, id))
    ensures OM.Get(unacked, id).Some? <==> OM.Get(since, id).Some?
  {
    if unacked != [] && unacked[0].0 != id { RemoveAlike(unacked[1..], since[1..], id); }
  }

  lemma {:induction false} PutAlike(unacked: seq<(string, Command)>, since: seq<(string, At)>, c: Command, m: nat)
    requires SameIds(unacked, since)
    ensures SameIds(OM.Put(unacked, c.id, c), if OM.Get(since, c.id).None? then since + [(c.id, At(m))] else since)
  {
    if unacked != [] && unacked[0].0 != c.id {
      PutAlike(unacked[1..], since[1..], c, m);
      assert (since + [(c.id, At(m))])[1..] == since[1..] + [(c.id, At(m))];
    }
  }

  lemma {:induction false} RemoveKeepsRising(since: seq<(string, At)>, id: string, m: nat)
    requires Rising(since, m)
    ensures Rising(OM.Remove(since, id), m)
    ensures forall p | p in OM.Remove(since, id) :: p in since
  {
    if since != [] && since[0].0 != id {
      RemoveKeepsRising(since[1..], id, m);
      var rest := OM.Remove(since[1..], id);
      forall j | 0 <= j < |rest|
        ensures since[0].1.pos < rest[j].1.pos
      {
        assert rest[j] in since[1..];
      }
    }
  }

  predicate SinceOk(unacked: seq<(string, Command)>, since: seq<(string, At)>, m: nat) {
    SameIds(unacked, since) && Rising(since, m) && OM.Distinct(since)
  }

  lemma SendSince(unacked: seq<(string, Command)>, since: seq<(string, At)>, c: Command, m: nat)
    requires SinceOk(unacked, since, m)
    ensures SinceOk(OM.Put(unacked, c.id, c), if OM.Get(since, c.id).None? then since + [(c.id, At(m))] else since, m + 1)
  {
    PutAlike(unacked, since, c, m);
    OM.GetMeansMember(since, c.id);
  }

  lemma AckSince(unacked: seq<(string, Command)>, since: seq<(string, At)>, id: string, m: nat)
    requires SinceOk(unacked, since, m)
    ensures SinceOk(OM.Remove(unacked, id), OM.Remove(since, id), m + 1)
  {
    RemoveAlike(unacked, since, id);
    RemoveKeepsRising(since, id, m);
    OM.RemoveProperties(since, id);
  }

  lemma {:induction false} SinceAgrees(steps: seq<Step>)
    requires Possible(steps)
    ensures SinceOk(After(steps).host.unacked, Since(steps), |steps|)
    decreases |steps|
  {
    if steps != [] {
      var before, step := steps[..|steps| - 1], steps[|steps| - 1];
      SinceAgrees(before);
      StepSince(After(before), Since(before), step, |before|);
    }
  }

  lemma StepSince(l: Link, since: seq<(string, At)>, step: Step, m: nat)
    requires Enabled(l, step) && SinceOk(l.host.unacked, since, m)
    ensures SinceOk(Apply(l, step).host.unacked, SinceNext(since, l, step, m), m + 1)
  {
    if step.Send? {
      SendSince(l.host.unacked, since, l.held.value, m);
    } else if step.Ack? {
      AckSince(l.host.unacked, since, step.id, m);
    }
  }

  // ---------------------------------------------------------------- the run tells the un-acked list

  lemma SendsSame(steps: seq<Step>, j: nat, id: string, c: Command)
    requires Possible(steps) && steps != [] && j < |steps| - 1
    ensures SendsId(steps, j, id) <==> SendsId(steps[..|steps| - 1], j, id)
    ensures Sends(steps, j, c) <==> Sends(steps[..|steps| - 1], j, c)
  {
    assert steps[..|steps| - 1][..j] == steps[..j];
  }

  lemma OpenSendStep(steps: seq<Step>, j: nat, id: string)
    requires Possible(steps) && steps != []
    ensures var before, step := steps[..|steps| - 1], steps[|steps| - 1];
            OpenSend(steps, j, id) <==>
              || (OpenSend(before, j, id) && step != Ack(id))
              || (j == |before| && SendsId(steps, j, id))
  {
    var before, step := steps[..|steps| - 1], steps[|steps| - 1];
    if j < |before| {
      SendsSame(steps, j, id, Command("", ""));
      assert forall k | j < k < |before| :: before[k] == steps[k];
      if OpenSend(before, j, id) && step != Ack(id) {
        forall k | j < k < |steps|
          ensures steps[k] != Ack(id)
        {
        }
      }
    }
  }

  /** The ledger of first sends, read off the run. */
  ghost predicate SinceReads(steps: seq<Step>)
    requires Possible(steps)
  {
    && (forall id: string, j: nat :: (id, At(j)) in Since(steps) <==> Standing(steps, j, id))
    && (forall id: string, j: nat | OpenSend(steps, j, id) :: OM.Get(Since(steps), id).Some?)
  }

  lemma NewestSend(steps: seq<Step>, id: string)
    requires Possible(steps) && steps != []
    ensures var before, step := steps[..|steps| - 1], steps[|steps| - 1];
            SendsId(steps, |before|, id) <==> step.Send? && After(before).held.value.id == id
  {
  }

  lemma SinceMembers(steps: seq<Step>, id: string, p: (string, At))
    requires Possible(steps) && steps != [] && p.0 == id
    ensures var before, step := steps[..|steps| - 1], steps[|steps| - 1];
            p in Since(steps) <==>
              || (p in Since(before) && step != Ack(id))
              || (step.Send? && After(before).held.value.id == id && OM.Get(Since(before), id).None? && p.1 == At(|before|))
  {
    var before, step := steps[..|steps| - 1], steps[|steps| - 1];
    SinceAgrees(before);
    if step.Ack? {
      OM.RemoveProperties(Since(before), step.id);
      if p in Since(before) && step.id != id { RemoveKeepsRest(Since(before), step.id, p); }
    }
  }

  lemma StandingStep(steps: seq<Step>, id: string, j: nat)
    requires Possible(steps) && steps != []
    ensures var before, step := steps[..|steps| - 1], steps[|steps| - 1];
            Standing(steps, j, id) <==>
              || (Standing(before, j, id) && step != Ack(id))
              || (j == |before| && SendsId(steps, j, id) && forall i: nat :: !OpenSend(before, i, id))
  {
    var before, step := steps[..|steps| - 1], steps[|steps| - 1];
    forall i: nat
      ensures OpenSend(steps, i, id) <==>
              (OpenSend(before, i, id) && step != Ack(id)) || (i == |before| && SendsId(steps, i, id))
    {
      OpenSendStep(steps, i, id);
    }
    assert forall i: nat | OpenSend(before, i, id) :: i < |before|;
  }

  lemma StandingIsListed(steps: seq<Step>, id: string, j: nat)
    requires Possible(steps) && steps != [] && SinceReads(steps[..|steps| - 1])
    ensures (id, At(j)) in Since(steps) <==> Standing(steps, j, id)
  {
    var before := steps[..|steps| - 1];
    SinceMembers(steps, id, (id, At(j)));
    StandingStep(steps, id, j);
    NewestSend(steps, id);
    OldestStands(before, id);
    assert (id, At(j)) in Since(before) <==> Standing(before, j, id);
  }

  /** An id with an open send has a standing one. */
  lemma OldestStands(steps: seq<Step>, id: string)
    requires Possible(steps) && SinceReads(steps)
    ensures OM.Get(Since(steps), id).None? <==> forall i: nat :: !OpenSend(steps, i, id)
  {
    SinceAgrees(steps);
    OM.GetMeansMember(Since(steps), id);
    if OM.Get(Since(steps), id).Some? {
      var i :| 0 <= i < |Since(steps)| && Since(steps)[i].0 == id;
      assert (id, At(Since(steps)[i].1.pos)) in Since(steps);
      assert Standing(steps, Since(steps)[i].1.pos, id);
    }
  }

  lemma {:induction false} RemoveKeepsRest(since: seq<(string, At)>, id: string, p: (string, At))
    requires p in since && p.0 != id
    ensures p in OM.Remove(since, id)
  {
    if since[0].0 != id && since[0] != p { RemoveKeepsRest(since[1..], id, p); }
  }

  lemma OpenIsListed(steps: seq<Step>, id: string, j: nat)
    requires Possible(steps) && steps != [] && SinceReads(steps[..|steps| - 1]) && OpenSend(steps, j, id)
    ensures OM.Get(Since(steps), id).Some?
  {
    var before, step := steps[..|steps| - 1], steps[|steps| - 1];
    var since := Since(before);
    OpenSendStep(steps, j, id);
    SinceAgrees(before);
    if step.Ack? {
      OM.RemoveProperties(since, step.id);
    } else if step.Send? {
      var sent := After(before).held.value.id;
      OM.GetOfConcat(since, [(sent, At(|before|))], id);
      NewestSend(steps, id);
    }
  }

  lemma {:induction false} EverySinceReads(steps: seq<Step>)
    requires Possible(steps)
    ensures SinceReads(steps)
    decreases |steps|
  {
    if steps != [] {
      EverySinceReads(steps[..|steps| - 1]);
      forall id: string, j: nat
        ensures (id, At(j)) in Since(steps) <==> Standing(steps, j, id)
      {
        StandingIsListed(steps, id, j);
      }
      forall id: string, j: nat | OpenSend(steps, j, id)
        ensures OM.Get(Since(steps), id).Some?
      {
        OpenIsListed(steps, id, j);
      }
    }
  }

  lemma LastSentStays(steps: seq<Step>, c: Command)
    requires Possible(steps) && steps != [] && LastSent(steps[..|steps| - 1], c)
    requires !SendsId(steps, |steps| - 1, c.id)
    ensures LastSent(steps, c)
  {
    var before := steps[..|steps| - 1];
    var j: nat :| Sends(before, j, c) && forall k: nat | k > j :: !SendsId(before, k, c.id);
    SendsSame(steps, j, c.id, c);
    forall k: nat | k > j
      ensures !SendsId(steps, k, c.id)
    {
      if k < |before| { SendsSame(steps, k, c.id, c); }
    }
  }

  lemma {:induction false} EveryUnackedWasLastSent(steps: seq<Step>)
    requires Possible(steps)
    ensures OwnIds(After(steps).host.unacked)
    ensures forall p | p in After(steps).host.unacked :: LastSent(steps, p.1)
    decreases |steps|
  {
    if steps != [] {
      var before, step := steps[..|steps| - 1], steps[|steps| - 1];
      EveryUnackedWasLastSent(before);
      var l, next := After(before), After(steps);
      StepKeepsOwnIds(l, step);
      forall p | p in next.host.unacked
        ensures LastSent(steps, p.1)
      {
        UnackedComesFrom(l, step, p);
        if step.Send? && p.1 == l.held.value {
          assert Sends(steps, |before|, p.1);
        } else {
          NewestSend(steps, p.1.id);
          LastSentStays(steps, p.1);
        }
      }
    }
  }

  /** An entry of the un-acked list is the command just sent or was there before under another id. */
  lemma UnackedComesFrom(l: Link, step: Step, p: (string, Command))
    requires Enabled(l, step) && OwnIds(l.host.unacked) && p in Apply(l, step).host.unacked
    ensures || (step.Send? && p.1 == l.held.value)
            || (p in l.host.unacked && (step.Send? ==> p.1.id != l.held.value.id))
  {
    if step.Send? {
      var c := l.held.value;
      var unacked := Apply(l, step).host.unacked;
      OM.PutProperties(l.host.unacked, c.id, c);
      StepKeepsOwnIds(l, step);
      OM.GetMeansMember(unacked, c.id);
      var i :| 0 <= i < |unacked| && unacked[i] == p;
      assert unacked[i].0 == p.1.id;
    } else if step.Ack? {
      OM.RemoveProperties(l.host.unacked, step.id);
    }
  }

  /** In every run, the un-acked list is exactly the ids with a send that no acknowledgement follows,
      in the order of the first such sends, each with the command last sent under it. */
  lemma UnackedInFirstSendOrder(steps: seq<Step>) returns (at: seq<nat>)
    requires Possible(steps)
    ensures var unacked := After(steps).host.unacked;
            && |at| == |unacked|
            && (forall i | 0 <= i < |at| :: Standing(steps, at[i], unacked[i].0) && LastSent(steps, unacked[i].1))
            && (forall i, j | 0 <= i < j < |at| :: at[i] < at[j])
            && (forall id: string, j: nat | OpenSend(steps, j, id) :: OM.Get(unacked, id).Some?)
  {
    var unacked, since := After(steps).host.unacked, Since(steps);
    SinceAgrees(steps);
    EverySinceReads(steps);
    EveryUnackedWasLastSent(steps);
    at := seq(|since|, i requires 0 <= i < |since| => since[i].1.pos);
    forall i | 0 <= i < |at|
      ensures Standing(steps, at[i], unacked[i].0) && LastSent(steps, unacked[i].1)
    {
      assert since[i] == (unacked[i].0, At(at[i]));
      assert (unacked[i].0, At(at[i])) in since;
      assert unacked[i] in unacked;
    }
    forall id: string, j: nat | OpenSend(steps, j, id)
      ensures OM.Get(unacked, id).Some?
    {
      RemoveAlike(unacked, since, id);
    }
  }
}
