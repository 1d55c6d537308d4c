/** One host's delivery path: the dispatcher's queue and un-acked map together with the select
    loop of the stream handler. The loop pulls a command, may put it back at the tail, marks it
    in flight and sends it. History fields record what was enqueued, sent, replayed and lost. */
module StreamLoop {
  import opened Digests
  import opened Dispatcher
  import OM = OrderedMap

  /** `held` is the result of a finished pull task; `orphans` are pull tasks that outlived a
      cancelled handler. */
  datatype Link = Link(
    host: Host, held: Option<Command>, orphans: nat,
    enqueued: seq<Command>, sent: seq<Command>, replayed: seq<Command>, lost: seq<Command>,
    acked: set<string>)

  const UNUSED: Link := Link(NEW_HOST, None, 0, [], [], [], [], {})

  datatype Step =
    | Enqueue(c: Command)
    | Connect
    | Pull
    | Send
    | Control
    | End
    | Ack(id: string)
    | CancelHandler
    | OrphanPull

  predicate Enabled(l: Link, step: Step) {
    match step
    case Enqueue(_) => true
    case Ack(_) => true
    case Connect => !l.host.connected
    case Pull => l.host.connected && l.held.None? && l.host.queue != []
    case Send => l.host.connected && l.held.Some?
    case Control => l.host.connected
    case End => l.host.connected
    case CancelHandler => l.host.connected
    case OrphanPull => l.orphans > 0 && l.host.queue != []
  }

  function HeldSeq(l: Link): seq<Command> {
    if l.held.Some? then [l.held.value] else []
  }

  /** What the loop will send next, in order, if nothing is put back. */
  function Upcoming(l: Link): seq<Command> {
    HeldSeq(l) + l.host.queue
  }

  /** A pulled command goes back at the tail. */
  function PutBack(l: Link): Link {
    l.(host := l.host.(queue := l.host.queue + HeldSeq(l)), held := None)
  }

  function Apply(l: Link, step: Step): Link
    requires Enabled(l, step)
  {
    match step
    case Enqueue(c) => l.(host := l.host.(queue := l.host.queue + [c]), enqueued := l.enqueued + [c])
    case Connect =>
      l.(host := Registered(l.host), replayed := l.replayed + Values(l.host.unacked))
    case Pull => l.(held := Some(l.host.queue[0]), host := l.host.(queue := l.host.queue[1..]))
    case Send =>
      var c := l.held.value;
      l.(host := Marked(l.host, c), held := None, sent := l.sent + [c])
    case Control => PutBack(l)
    case End => var b := PutBack(l); b.(host := b.host.(connected := false))
    case Ack(id) => l.(host := Acked(l.host, id), acked := l.acked + {id})
    case CancelHandler =>
      l.(host := l.host.(connected := false), held := None, lost := l.lost + HeldSeq(l),
         orphans := if l.held.None? then l.orphans + 1 else l.orphans)
    case OrphanPull =>
      l.(host := l.host.(queue := l.host.queue[1..]), lost := l.lost + [l.host.queue[0]], orphans := l.orphans - 1)
  }

  predicate Possible(steps: seq<Step>)
    decreases |steps|, 0
  {
    steps == [] || (Possible(steps[..|steps| - 1]) && Enabled(After(steps[..|steps| - 1]), steps[|steps| - 1]))
  }

  function After(steps: seq<Step>): Link
    requires Possible(steps)
    decreases |steps|, 1
  {
    if steps == [] then UNUSED else Apply(After(steps[..|steps| - 1]), steps[|steps| - 1])
  }

  lemma Extend(steps: seq<Step>, step: Step, longer: seq<Step>)
    requires Possible(steps) && Enabled(After(steps), step) && longer == steps + [step]
    ensures Possible(longer) && After(longer) == Apply(After(steps), step)
  {
    assert longer[..|longer| - 1] == steps;
  }

  // ---------------------------------------------------------------- conservation and no loss

  /** Sends, queued copies, the held copy and lost copies are together the enqueues and replays. */
  ghost predicate Conserved(l: Link) {
    multiset(l.sent) + multiset(Upcoming(l)) + multiset(l.lost) == multiset(l.enqueued) + multiset(l.replayed)
  }

  predicate Mentions(cs: seq<Command>, id: string) {
    exists i :: 0 <= i < |cs| && cs[i].id == id
  }

  /** A command with this id is on its way: queued, held or waiting for its ack. */
  predicate Carried(l: Link, id: string) {
    Mentions(Upcoming(l), id) || OM.Get(l.host.unacked, id).Some?
  }

  predicate Accounted(l: Link, id: string) {
    Carried(l, id) || Mentions(l.lost, id) || id in l.acked
  }

  ghost predicate NothingForgotten(l: Link) {
    OwnIds(l.host.unacked) && forall i | 0 <= i < |l.enqueued| :: Accounted(l, l.enqueued[i].id)
  }

  /** Nothing is invented: whatever is queued, held, un-acked or sent was enqueued. */
  ghost predicate NothingInvented(l: Link) {
    && (forall c | c in Upcoming(l) :: c in l.enqueued)
    && (forall i | 0 <= i < |l.host.unacked| :: l.host.unacked[i].1 in l.sent)
    && (forall c | c in l.sent :: c in l.enqueued)
  }

  /** Copies arrive: by an enqueue or by a replay. */
  lemma CopiesArrive(s: multiset<Command>, u: multiset<Command>, x: multiset<Command>,
                     e: multiset<Command>, r: multiset<Command>, v: multiset<Command>)
    requires s + u + x == e + r
    ensures s + (u + v) + x == e + (r + v)
    ensures s + (u + v) + x == (e + v) + r
  {
    assert s + (u + v) + x == (s + u + x) + v;
    assert e + (r + v) == (e + r) + v;
    assert (e + v) + r == (e + r) + v;
  }

  /** Copies leave: sent, or lost to a cancelled handler. */
  lemma CopiesLeave(s: multiset<Command>, u: multiset<Command>, x: multiset<Command>,
                    e: multiset<Command>, r: multiset<Command>, v: multiset<Command>)
    requires s + (u + v) + x == e + r
    ensures (s + v) + u + x == e + r
    ensures s + u + (x + v) == e + r
  {
    assert (s + v) + u + x == s + (u + v) + x;
    assert s + u + (x + v) == s + (u + v) + x;
  }

  lemma UpcomingSplits(l: Link)
    ensures multiset(Upcoming(l)) == multiset(l.host.queue) + multiset(HeldSeq(l))
  {
  }

  lemma EnqueueConserves(l: Link, c: Command)
    requires Conserved(l)
    ensures Conserved(Apply(l, Enqueue(c)))
  {
    CopiesArrive(multiset(l.sent), multiset(Upcoming(l)), multiset(l.lost),
                 multiset(l.enqueued), multiset(l.replayed), multiset([c]));
    assert Upcoming(Apply(l, Enqueue(c))) == Upcoming(l) + [c];
  }

  lemma ConnectConserves(l: Link)
    requires Conserved(l) && Enabled(l, Connect)
    ensures Conserved(Apply(l, Connect))
  {
    var next, v := Apply(l, Connect), Values(l.host.unacked);
    CopiesArrive(multiset(l.sent), multiset(Upcoming(l)), multiset(l.lost),
                 multiset(l.enqueued), multiset(l.replayed), multiset(v));
    UpcomingSplits(l);
    UpcomingSplits(next);
    assert multiset(next.host.queue) == multiset(v) + multiset(l.host.queue);
    assert multiset(Upcoming(next)) == multiset(Upcoming(l)) + multiset(v);
    assert multiset(next.replayed) == multiset(l.replayed) + multiset(v);
  }

  lemma SendConserves(l: Link)
    requires Conserved(l) && Enabled(l, Send)
    ensures Conserved(Apply(l, Send))
  {
    var next, c := Apply(l, Send), l.held.value;
    UpcomingSplits(l);
    assert Upcoming(next) == l.host.queue && HeldSeq(l) == [c];
    CopiesLeave(multiset(l.sent), multiset(l.host.queue), multiset(l.lost),
                multiset(l.enqueued), multiset(l.replayed), multiset([c]));
    assert multiset(next.sent) == multiset(l.sent) + multiset([c]);
  }

  lemma PutBackConserves(l: Link)
    ensures multiset(Upcoming(PutBack(l))) == multiset(Upcoming(l))
  {
    UpcomingSplits(l);
    UpcomingSplits(PutBack(l));
  }

  lemma CancelConserves(l: Link)
    requires Conserved(l) && Enabled(l, CancelHandler)
    ensures Conserved(Apply(l, CancelHandler))
  {
    var next := Apply(l, CancelHandler);
    UpcomingSplits(l);
    assert Upcoming(next) == l.host.queue;
    CopiesLeave(multiset(l.sent), multiset(l.host.queue), multiset(l.lost),
                multiset(l.enqueued), multiset(l.replayed), multiset(HeldSeq(l)));
  }

  lemma OrphanConserves(l: Link)
    requires Conserved(l) && Enabled(l, OrphanPull)
    ensures Conserved(Apply(l, OrphanPull))
  {
    var next, c := Apply(l, OrphanPull), l.host.queue[0];
    UpcomingSplits(l);
    UpcomingSplits(next);
    assert l.host.queue == [c] + next.host.queue;
    assert multiset(Upcoming(l)) == multiset(Upcoming(next)) + multiset([c]);
    CopiesLeave(multiset(l.sent), multiset(Upcoming(next)), multiset(l.lost),
                multiset(l.enqueued), multiset(l.replayed), multiset([c]));
    assert multiset(next.lost) == multiset(l.lost) + multiset([c]);
  }

  lemma StepConserves(l: Link, step: Step)
    requires Conserved(l) && Enabled(l, step)
    ensures Conserved(Apply(l, step))
  {
    match step
    case Enqueue(c) => EnqueueConserves(l, c);
    case Connect => ConnectConserves(l);
    case Pull => assert Upcoming(Apply(l, step)) == Upcoming(l);
    case Send => SendConserves(l);
    case Control => PutBackConserves(l);
    case End => PutBackConserves(l);
    case Ack(_) => assert Upcoming(Apply(l, step)) == Upcoming(l);
    case CancelHandler => CancelConserves(l);
    case OrphanPull => OrphanConserves(l);
  }

  lemma MentionsConcat(a: seq<Command>, b: seq<Command>, id: string)
    ensures Mentions(a + b, id) <==> Mentions(a, id) || Mentions(b, id)
  {
    if Mentions(a, id) {
      var i :| 0 <= i < |a| && a[i].id == id;
      assert (a + b)[i].id == id;
    }
    if Mentions(b, id) {
      var i :| 0 <= i < |b| && b[i].id == id;
      assert (a + b)[|a| + i].id == id;
    }
  }

  /** What is carried stays carried, unless it is acked or lost. */
  lemma CarriedAfter(l: Link, step: Step, id: string)
    requires NothingForgotten(l) && Enabled(l, step) && Carried(l, id)
    ensures var next := Apply(l, step); Carried(next, id) || Mentions(next.lost, id) || id in next.acked
  {
    var next := Apply(l, step);
    MentionsConcat(HeldSeq(l), l.host.queue, id);
    MentionsConcat(HeldSeq(next), next.host.queue, id);
    match step
    case Enqueue(c) => MentionsConcat(l.host.queue, [c], id);
    case Connect => MentionsConcat(Values(l.host.unacked), l.host.queue, id);
    case Pull => assert Upcoming(next) == Upcoming(l);
    case Send =>
      OM.PutProperties(l.host.unacked, l.held.value.id, l.held.value);
    case Control => MentionsConcat(l.host.queue, HeldSeq(l), id);
    case End => MentionsConcat(l.host.queue, HeldSeq(l), id);
    case Ack(done) => OM.RemoveProperties(l.host.unacked, done);
    case CancelHandler => MentionsConcat(l.lost, HeldSeq(l), id);
    case OrphanPull =>
      assert l.host.queue == [l.host.queue[0]] + next.host.queue;
      MentionsConcat([l.host.queue[0]], next.host.queue, id);
      MentionsConcat(l.lost, [l.host.queue[0]], id);
  }

  lemma LostStaysLost(l: Link, step: Step, id: string)
    requires Enabled(l, step) && Mentions(l.lost, id)
    ensures Mentions(Apply(l, step).lost, id)
  {
    if step.CancelHandler? { MentionsConcat(l.lost, HeldSeq(l), id); }
    if step.OrphanPull? { MentionsConcat(l.lost, [l.host.queue[0]], id); }
  }

  lemma EnqueuedIsCarried(l: Link, c: Command)
    ensures Carried(Apply(l, Enqueue(c)), c.id)
  {
    var up := Upcoming(Apply(l, Enqueue(c)));
    assert up[|up| - 1] == c;
  }

  /** Un-acked entries keep their distinct ids, each over its own command. */
  predicate OwnIds(unacked: seq<(string, Command)>) {
    OM.Distinct(unacked) && forall i | 0 <= i < |unacked| :: unacked[i].0 == unacked[i].1.id
  }

  lemma StepKeepsOwnIds(l: Link, step: Step)
    requires OwnIds(l.host.unacked) && Enabled(l, step)
    ensures OwnIds(Apply(l, step).host.unacked)
  {
    if step.Send? { OM.PutProperties(l.host.unacked, l.held.value.id, l.held.value); }
    if step.Ack? { OM.RemoveProperties(l.host.unacked, step.id); }
    var unacked := Apply(l, step).host.unacked;
    assert forall i | 0 <= i < |unacked| :: unacked[i] in unacked;
  }

  lemma StepForgetsNothing(l: Link, step: Step)
    requires NothingForgotten(l) && Enabled(l, step)
    ensures NothingForgotten(Apply(l, step))
  {
    var next := Apply(l, step);
    StepKeepsOwnIds(l, step);
    forall i | 0 <= i < |next.enqueued|
      ensures Accounted(next, next.enqueued[i].id)
    {
      if i == |l.enqueued| {
        EnqueuedIsCarried(l, step.c);
      } else {
        var id := l.enqueued[i].id;
        assert Accounted(l, id);
        if Carried(l, id) {
          CarriedAfter(l, step, id);
        } else if Mentions(l.lost, id) {
          LostStaysLost(l, step, id);
        }
      }
    }
  }

  lemma ConnectInventsNothing(l: Link)
    requires NothingInvented(l) && Enabled(l, Connect)
    ensures NothingInvented(Apply(l, Connect))
  {
    var next, front := Apply(l, Connect), Values(l.host.unacked);
    forall c | c in Upcoming(next)
      ensures c in l.enqueued
    {
      if c in front {
        var i :| 0 <= i < |front| && front[i] == c;
        assert l.host.unacked[i].1 in l.sent;
      } else {
        assert c in Upcoming(l);
      }
    }
  }

  lemma SendInventsNothing(l: Link)
    requires NothingInvented(l) && OM.Distinct(l.host.unacked) && Enabled(l, Send)
    ensures NothingInvented(Apply(l, Send))
  {
    var next, c := Apply(l, Send), l.held.value;
    assert Upcoming(l)[0] == c;
    assert forall x | x in Upcoming(next) :: x in Upcoming(l);
    OM.PutProperties(l.host.unacked, c.id, c);
    forall i | 0 <= i < |next.host.unacked|
      ensures next.host.unacked[i].1 in next.sent
    {
      var p := next.host.unacked[i];
      if p != (c.id, c) { assert p in l.host.unacked; }
    }
  }

  lemma StepInventsNothing(l: Link, step: Step)
    requires NothingInvented(l) && OM.Distinct(l.host.unacked) && Enabled(l, step)
    ensures NothingInvented(Apply(l, step))
  {
    if step.Connect? {
      ConnectInventsNothing(l);
    } else if step.Send? {
      SendInventsNothing(l);
    } else {
      OthersInventNothing(l, step);
    }
  }

  lemma OthersInventNothing(l: Link, step: Step)
    requires NothingInvented(l) && OM.Distinct(l.host.unacked) && Enabled(l, step) && !step.Connect? && !step.Send?
    ensures NothingInvented(Apply(l, step))
  {
    var next := Apply(l, step);
    assert forall c | c in Upcoming(next) :: c in Upcoming(l) || (step.Enqueue? && c == step.c);
    if step.Ack? {
      OM.RemoveProperties(l.host.unacked, step.id);
      forall i | 0 <= i < |next.host.unacked|
        ensures next.host.unacked[i].1 in l.sent
      {
        assert next.host.unacked[i] in l.host.unacked;
      }
    }
  }

  /** Every run, cancelled handlers included: copies are conserved, every enqueued command is
      carried, acked or recorded as lost, and only enqueued commands are ever carried or sent. */
  lemma {:induction false} EveryRunConserves(steps: seq<Step>)
    requires Possible(steps)
    ensures Conserved(After(steps)) && NothingForgotten(After(steps)) && NothingInvented(After(steps))
    decreases |steps|
  {
    if steps != [] {
      var before, step := steps[..|steps| - 1], steps[|steps| - 1];
      EveryRunConserves(before);
      StepConserves(After(before), step);
      StepForgetsNothing(After(before), step);
      StepInventsNothing(After(before), step);
    }
  }

  // ---------------------------------------------------------------- what cancellation loses

  /** A leftover pull task takes a command, or a handler is cancelled with its pull finished. */
  predicate Loses(l: Link, step: Step) {
    step.OrphanPull? || (step.CancelHandler? && l.held.Some?)
  }

  predicate LosslessRun(steps: seq<Step>)
    requires Possible(steps)
  {
    steps == [] || (LosslessRun(steps[..|steps| - 1]) && !Loses(After(steps[..|steps| - 1]), steps[|steps| - 1]))
  }

  lemma {:induction false} LostOnlyInLossyRuns(steps: seq<Step>)
    requires Possible(steps)
    ensures After(steps).lost == [] <==> LosslessRun(steps)
    decreases |steps|
  {
    if steps != [] { LostOnlyInLossyRuns(steps[..|steps| - 1]); }
  }

  /** Sends plus queued and held copies are exactly enqueues plus replays if and only if no step
      of the run loses a copy. */
  lemma {:induction false} CopiesConservedExactlyInLosslessRuns(steps: seq<Step>)
    requires Possible(steps)
    ensures var l := After(steps);
            multiset(l.sent) + multiset(Upcoming(l)) == multiset(l.enqueued) + multiset(l.replayed) <==> LosslessRun(steps)
  {
    var l := After(steps);
    EveryRunConserves(steps);
    LostOnlyInLossyRuns(steps);
    if l.lost == [] {
      assert multiset(l.lost) == multiset{};
    } else {
      var kept, c := multiset(l.sent) + multiset(Upcoming(l)), l.lost[0];
      assert (kept + multiset(l.lost))[c] == kept[c] + multiset(l.lost)[c] > kept[c];
    }
  }

  function CountId(cs: seq<Command>, id: string): nat {
    if cs == [] then 0 else CountId(cs[..|cs| - 1], id) + if cs[|cs| - 1].id == id then 1 else 0
  }

  lemma {:induction false} CountConcat(a: seq<Command>, b: seq<Command>, id: string)
    ensures CountId(a + b, id) == CountId(a, id) + CountId(b, id)
    decreases |b|
  {
    if b == [] {
      assert a + b == a;
    } else {
      assert (a + b)[..|a + b| - 1] == a + b[..|b| - 1];
      CountConcat(a, b[..|b| - 1], id);
    }
  }

  lemma {:induction false} CountedMeansMentioned(cs: seq<Command>, id: string)
    ensures CountId(cs, id) > 0 <==> Mentions(cs, id)
    decreases |cs|
  {
    if cs != [] {
      CountedMeansMentioned(cs[..|cs| - 1], id);
      assert cs == cs[..|cs| - 1] + [cs[|cs| - 1]];
      MentionsConcat(cs[..|cs| - 1], [cs[|cs| - 1]], id);
      assert Mentions([cs[|cs| - 1]], id) <==> [cs[|cs| - 1]][0].id == id;
    }
  }

  /** The copies a step loses: the leftover pull's command, or the cancelled handler's. */
  function Swallowed(l: Link, step: Step): seq<Command>
    requires Enabled(l, step)
  {
    if step.OrphanPull? then [l.host.queue[0]] else if step.CancelHandler? then HeldSeq(l) else []
  }

  /** How many copies under this id the run loses. */
  function SwallowedCopies(steps: seq<Step>, id: string): nat
    requires Possible(steps)
  {
    if steps == [] then 0
    else
      SwallowedCopies(steps[..|steps| - 1], id) + CountId(Swallowed(After(steps[..|steps| - 1]), steps[|steps| - 1]), id)
  }

  /** An id never sent is nowhere un-acked and its copies are upcoming or swallowed; an id sent and
      not acked is un-acked. */
  ghost predicate Traced(l: Link, id: string, swallowed: nat) {
    && (!Mentions(l.sent, id) ==>
          OM.Get(l.host.unacked, id).None? && CountId(Upcoming(l), id) + swallowed == CountId(l.enqueued, id))
    && (Mentions(l.sent, id) && id !in l.acked ==> OM.Get(l.host.unacked, id).Some?)
  }

  lemma UnknownIsNotReplayed(unacked: seq<(string, Command)>, id: string)
    requires OwnIds(unacked) && OM.Get(unacked, id).None?
    ensures CountId(Values(unacked), id) == 0
  {
    OM.GetMeansMember(unacked, id);
    CountedMeansMentioned(Values(unacked), id);
    assert forall i | 0 <= i < |unacked| :: Values(unacked)[i].id == unacked[i].0 != id;
  }

  lemma CountUpcoming(l: Link, id: string)
    ensures CountId(Upcoming(l), id) == CountId(HeldSeq(l), id) + CountId(l.host.queue, id)
  {
    CountConcat(HeldSeq(l), l.host.queue, id);
  }

  lemma CountTail(queue: seq<Command>, id: string)
    requires queue != []
    ensures CountId(queue, id) == CountId([queue[0]], id) + CountId(queue[1..], id)
  {
    assert queue == [queue[0]] + queue[1..];
    CountConcat([queue[0]], queue[1..], id);
  }

  lemma ArrivingCopies(l: Link, step: Step, id: string)
    requires OwnIds(l.host.unacked) && Enabled(l, step) && OM.Get(l.host.unacked, id).None?
    requires step.Enqueue? || step.Connect?
    ensures var next := Apply(l, step);
            CountId(Upcoming(next), id) + CountId(l.enqueued, id) == CountId(Upcoming(l), id) + CountId(next.enqueued, id)
  {
    CountUpcoming(l, id);
    CountUpcoming(Apply(l, step), id);
    if step.Enqueue? {
      CountConcat(l.host.queue, [step.c], id);
      CountConcat(l.enqueued, [step.c], id);
    } else {
      UnknownIsNotReplayed(l.host.unacked, id);
      CountConcat(Values(l.host.unacked), l.host.queue, id);
    }
  }

  lemma MovingCopies(l: Link, step: Step, id: string)
    requires Enabled(l, step) && (step.Pull? || step.Control? || step.End? || step.Ack?)
    ensures CountId(Upcoming(Apply(l, step)), id) == CountId(Upcoming(l), id)
  {
    if step.Control? || step.End? {
      CountUpcoming(l, id);
      CountUpcoming(Apply(l, step), id);
      CountConcat(l.host.queue, HeldSeq(l), id);
    } else {
      assert Upcoming(Apply(l, step)) == Upcoming(l);
    }
  }

  lemma LeavingCopies(l: Link, step: Step, id: string)
    requires Enabled(l, step) && (step.Send? || step.CancelHandler? || step.OrphanPull?)
    requires step.Send? ==> l.held.value.id != id
    ensures CountId(Upcoming(Apply(l, step)), id) + CountId(Swallowed(l, step), id) == CountId(Upcoming(l), id)
  {
    var next := Apply(l, step);
    CountUpcoming(l, id);
    CountUpcoming(next, id);
    if step.OrphanPull? {
      CountTail(l.host.queue, id);
    } else if step.Send? {
      assert CountId([l.held.value], id) == CountId([l.held.value][..0], id);
    }
  }

  /** What a step does to the copies of an id that has not been sent. */
  lemma CopiesAfter(l: Link, step: Step, id: string)
    requires OwnIds(l.host.unacked) && Enabled(l, step) && OM.Get(l.host.unacked, id).None?
    requires step.Send? ==> l.held.value.id != id
    ensures var next := Apply(l, step);
            CountId(Upcoming(next), id) + CountId(Swallowed(l, step), id) + CountId(l.enqueued, id)
            == CountId(Upcoming(l), id) + CountId(next.enqueued, id)
  {
    if step.Enqueue? || step.Connect? {
      ArrivingCopies(l, step, id);
    } else if step.Pull? || step.Control? || step.End? || step.Ack? {
      MovingCopies(l, step, id);
    } else {
      LeavingCopies(l, step, id);
    }
  }

  lemma SendKeepsTraced(l: Link, id: string, swallowed: nat)
    requires OwnIds(l.host.unacked) && Enabled(l, Send) && Traced(l, id, swallowed)
    ensures Traced(Apply(l, Send), id, swallowed)
  {
    var c := l.held.value;
    MentionsConcat(l.sent, [c], id);
    assert Mentions([c], id) <==> [c][0].id == id;
    OM.PutProperties(l.host.unacked, c.id, c);
    if !Mentions(l.sent + [c], id) { CopiesAfter(l, Send, id); }
  }

  lemma AckKeepsTraced(l: Link, done: string, id: string, swallowed: nat)
    requires OwnIds(l.host.unacked) && Traced(l, id, swallowed)
    ensures Traced(Apply(l, Ack(done)), id, swallowed)
  {
    assert Upcoming(Apply(l, Ack(done))) == Upcoming(l);
    OM.RemoveProperties(l.host.unacked, done);
  }

  lemma StepKeepsTraced(l: Link, step: Step, id: string, swallowed: nat)
    requires OwnIds(l.host.unacked) && Enabled(l, step) && Traced(l, id, swallowed)
    ensures Traced(Apply(l, step), id, swallowed + CountId(Swallowed(l, step), id))
  {
    if step.Send? {
      SendKeepsTraced(l, id, swallowed);
    } else if step.Ack? {
      AckKeepsTraced(l, step.id, id, swallowed);
    } else if !Mentions(l.sent, id) {
      CopiesAfter(l, step, id);
    }
  }

  lemma {:induction false} EveryRunTraced(steps: seq<Step>, id: string)
    requires Possible(steps)
    ensures Traced(After(steps), id, SwallowedCopies(steps, id))
    decreases |steps|
  {
    if steps != [] {
      var before := steps[..|steps| - 1];
      EveryRunTraced(before, id);
      EveryRunConserves(before);
      StepKeepsTraced(After(before), steps[|steps| - 1], id, SwallowedCopies(before, id));
    }
  }

  /** In every run: an enqueued command that was never acked is no longer queued, held or un-acked
      if and only if it was never sent and every copy of it was swallowed. */
  lemma {:induction false} CommandVanishesExactlyWhenSwallowed(steps: seq<Step>, id: string)
    requires Possible(steps) && Mentions(After(steps).enqueued, id) && id !in After(steps).acked
    ensures var l := After(steps);
            !Carried(l, id) <==> !Mentions(l.sent, id) && SwallowedCopies(steps, id) == CountId(l.enqueued, id)
  {
    var l := After(steps);
    EveryRunTraced(steps, id);
    CountedMeansMentioned(Upcoming(l), id);
    CountedMeansMentioned(l.enqueued, id);
  }

  /** Every stream of the run ends through one of the loop's own exits. */
  predicate OwnExits(steps: seq<Step>) {
    forall i | 0 <= i < |steps| :: !steps[i].CancelHandler?
  }

  lemma {:induction false} OwnExitsLeaveNoOrphans(steps: seq<Step>)
    requires Possible(steps) && OwnExits(steps)
    ensures After(steps).orphans == 0 && LosslessRun(steps)
    decreases |steps|
  {
    if steps != [] { OwnExitsLeaveNoOrphans(steps[..|steps| - 1]); }
  }

  /** When streams end through the loop's own exits, every command enqueued and never acked is in
      the queue, held by the loop or un-acked, and sends plus queued copies are exactly enqueues
      plus replays. */
  lemma {:induction false} OwnExitsLoseNothing(steps: seq<Step>)
    requires Possible(steps) && OwnExits(steps)
    ensures var l := After(steps);
            && l.lost == []
            && multiset(l.sent) + multiset(Upcoming(l)) == multiset(l.enqueued) + multiset(l.replayed)
            && forall i | 0 <= i < |l.enqueued| :: Carried(l, l.enqueued[i].id) || l.enqueued[i].id in l.acked
  {
    EveryRunConserves(steps);
    OwnExitsLeaveNoOrphans(steps);
    LostOnlyInLossyRuns(steps);
    var l := After(steps);
    forall i | 0 <= i < |l.enqueued|
      ensures Carried(l, l.enqueued[i].id) || l.enqueued[i].id in l.acked
    {
      assert Accounted(l, l.enqueued[i].id);
    }
  }

  /** A handler cancelled while it waits leaves its pull running; that pull takes the next
      command, which is then neither sent nor queued nor un-acked. */
  lemma CancelledHandlerSwallowsACommand(c: Command)
    ensures var steps := [Connect, CancelHandler, Enqueue(c), OrphanPull];
            && Possible(steps)
            && var l := After(steps);
               l.enqueued == [c] && l.sent == [] && l.acked == {} && !Carried(l, c.id) && l.lost == [c]
  {
    var s1, s2 := [Connect], [Connect, CancelHandler];
    var s3 := [Connect, CancelHandler, Enqueue(c)];
    Extend([], Connect, s1);
    Extend(s1, CancelHandler, s2);
    Extend(s2, Enqueue(c), s3);
    assert After(s3).host.queue == [c] && After(s3).orphans == 1;
    Extend(s3, OrphanPull, [Connect, CancelHandler, Enqueue(c), OrphanPull]);
  }
}
