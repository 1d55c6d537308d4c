/** The order in which the stream loop sends commands: which steps keep first sends in enqueue
    order with replays ahead, stated on what was sent and what is upcoming. */
module StreamOrder {
  import opened Dispatcher
  import opened StreamLoop

  /** The commands of `t` at their first occurrence, those already in `s` left out. */
  function FirstIn(s: seq<Command>, t: seq<Command>): seq<Command> {
    if t == [] then []
    else
      var before, c := t[..|t| - 1], t[|t| - 1];
      FirstIn(s, before) + if c in s || c in before then [] else [c]
  }

  predicate NoRepeats(cs: seq<Command>) {
    forall i, j | 0 <= i < j < |cs| :: cs[i] != cs[j]
  }

  lemma {:induction false} FirstInConcat(s: seq<Command>, t: seq<Command>, u: seq<Command>)
    ensures FirstIn(s, t + u) == FirstIn(s, t) + FirstIn(s + t, u)
    decreases |u|
  {
    if u == [] {
      assert t + u == t;
    } else {
      assert (t + u)[..|t + u| - 1] == t + u[..|u| - 1];
      FirstInConcat(s, t, u[..|u| - 1]);
    }
  }

  lemma {:induction false} FirstInOfSent(s: seq<Command>, t: seq<Command>)
    requires forall x | x in t :: x in s
    ensures FirstIn(s, t) == []
    decreases |t|
  {
    if t != [] {
      assert t[|t| - 1] in t;
      FirstInOfSent(s, t[..|t| - 1]);
    }
  }

  lemma {:induction false} FirstInOfNew(s: seq<Command>, t: seq<Command>)
    requires NoRepeats(t) && forall x | x in t :: x !in s
    ensures FirstIn(s, t) == t
    decreases |t|
  {
    if t != [] {
      assert t[|t| - 1] in t;
      FirstInOfNew(s, t[..|t| - 1]);
      assert t == t[..|t| - 1] + [t[|t| - 1]];
    }
  }

  lemma {:induction false} FirstInBySet(s: seq<Command>, s': seq<Command>, t: seq<Command>)
    requires forall x :: x in s <==> x in s'
    ensures FirstIn(s, t) == FirstIn(s', t)
    decreases |t|
  {
    if t != [] { FirstInBySet(s, s', t[..|t| - 1]); }
  }

  lemma {:induction false} FirstInMembers(s: seq<Command>, t: seq<Command>, x: Command)
    ensures x in FirstIn(s, t) ==> x in t
    decreases |t|
  {
    if t != [] { FirstInMembers(s, t[..|t| - 1], x); }
  }

  /** First sends, past and to come, are the enqueues in order; and what was sent before comes
      before what was never sent. */
  ghost predicate InOrder(l: Link) {
    FirstIn([], l.sent + Upcoming(l)) == l.enqueued && SentFirst(Upcoming(l), l.sent)
  }

  predicate SentFirst(upcoming: seq<Command>, sent: seq<Command>) {
    forall i, j | 0 <= i < j < |upcoming| && upcoming[j] in sent :: upcoming[i] in sent
  }

  /** A command never sent has one upcoming copy. */
  predicate OneNewCopy(upcoming: seq<Command>, sent: seq<Command>) {
    forall i, j | 0 <= i < j < |upcoming| && upcoming[i] == upcoming[j] :: upcoming[i] in sent
  }

  /** What the loop can tell before a step: a put-back overtakes nothing, and only copies of
      commands sent before get lost. */
  predicate Orderly(l: Link, step: Step)
    requires Enabled(l, step)
  {
    if step.Control? || step.End? then
      l.held.Some? ==> forall x | x in l.host.queue :: x == l.held.value || (x in l.sent && l.held.value in l.sent)
    else forall x | x in Swallowed(l, step) :: x in l.sent
  }

  predicate OrderlyRun(steps: seq<Step>)
    requires Possible(steps)
  {
    steps == [] || (OrderlyRun(steps[..|steps| - 1]) && Orderly(After(steps[..|steps| - 1]), steps[|steps| - 1]))
  }

  ghost predicate InOrderThroughout(steps: seq<Step>)
    requires Possible(steps)
  {
    InOrder(After(steps)) && (steps != [] ==> InOrderThroughout(steps[..|steps| - 1]))
  }

  /** Removing or adding copies of sent commands does not change the first sends. */
  lemma SentCopiesAddNothing(sent: seq<Command>, a: seq<Command>, b: seq<Command>, c: seq<Command>)
    requires forall x | x in b :: x in sent
    ensures FirstIn(sent, a + b + c) == FirstIn(sent, a + c)
  {
    FirstInConcat(sent, a + b, c);
    FirstInConcat(sent, a, b);
    FirstInConcat(sent, a, c);
    FirstInOfSent(sent + a, b);
    FirstInBySet(sent + (a + b), sent + a, c);
  }

  lemma FirstSendsSplit(sent: seq<Command>, upcoming: seq<Command>)
    ensures FirstIn([], sent + upcoming) == FirstIn([], sent) + FirstIn(sent, upcoming)
  {
    FirstInConcat([], sent, upcoming);
    assert [] + sent == sent;
  }

  lemma SentCopiesDoNotMatter(sent: seq<Command>, a: seq<Command>, b: seq<Command>, c: seq<Command>)
    requires forall x | x in b :: x in sent
    ensures FirstIn([], sent + (a + b + c)) == FirstIn([], sent + (a + c))
  {
    SentCopiesAddNothing(sent, a, b, c);
    FirstSendsSplit(sent, a + b + c);
    FirstSendsSplit(sent, a + c);
  }

  /** Nothing behind a command never sent was sent before, and nothing repeats. */
  lemma NewHead(sent: seq<Command>, h: Command, queue: seq<Command>)
    requires h !in sent && SentFirst([h] + queue, sent) && OneNewCopy([h] + queue, sent)
    ensures forall x | x in queue :: x !in sent && x != h
    ensures NoRepeats([h] + queue) && NoRepeats(queue + [h])
    ensures SentFirst(queue + [h], sent)
  {
    var front, back := [h] + queue, queue + [h];
    forall i | 0 <= i < |front|
      ensures front[i] !in sent
    {
      assert front[0] == h;
    }
    forall i | 0 <= i < |queue|
      ensures queue[i] !in sent && queue[i] != h
    {
      assert front[0] == h && front[i + 1] == queue[i];
    }
    forall i, j | 0 <= i < j < |back|
      ensures back[i] != back[j]
    {
      if j < |queue| { assert front[i + 1] == back[i] && front[j + 1] == back[j]; }
    }
  }

  /** The heart: with nothing sent behind it, a held command goes back without changing the first
      sends exactly when the queue is empty. */
  lemma NewHeadPutBack(sent: seq<Command>, h: Command, queue: seq<Command>)
    requires h !in sent && SentFirst([h] + queue, sent) && OneNewCopy([h] + queue, sent)
    ensures FirstIn([], sent + (queue + [h])) == FirstIn([], sent + ([h] + queue)) <==> queue == []
  {
    NewHead(sent, h, queue);
    FirstInOfNew(sent, [h] + queue);
    FirstInOfNew(sent, queue + [h]);
    FirstSendsSplit(sent, [h] + queue);
    FirstSendsSplit(sent, queue + [h]);
    SameAfterPrefix(FirstIn([], sent), h, queue);
  }

  lemma SameAfterPrefix(first: seq<Command>, h: Command, queue: seq<Command>)
    requires NoRepeats([h] + queue)
    ensures first + (queue + [h]) == first + ([h] + queue) <==> queue == []
  {
    var back, front := first + (queue + [h]), first + ([h] + queue);
    if queue == [] {
      assert queue + [h] == [h] + queue;
    } else {
      assert front[|first|] == ([h] + queue)[0] != ([h] + queue)[1] == back[|first|];
    }
  }

  lemma SentHeadSameFirsts(sent: seq<Command>, h: Command, queue: seq<Command>)
    requires h in sent
    ensures FirstIn([], sent + (queue + [h])) == FirstIn([], sent + ([h] + queue))
  {
    SentCopiesDoNotMatter(sent, queue, [h], []);
    SentCopiesDoNotMatter(sent, [], [h], queue);
    assert queue + [h] + [] == queue + [h];
    assert queue + [] == queue == [] + queue;
    assert [] + [h] + queue == [h] + queue;
  }

  /** A held command that was sent before stays before the commands never sent exactly when there
      are none. */
  lemma SentHeadStaysFirst(sent: seq<Command>, h: Command, queue: seq<Command>)
    requires h in sent
    ensures SentFirst(queue + [h], sent) <==> forall x | x in queue :: x in sent
  {
    var back := queue + [h];
    if SentFirst(back, sent) {
      forall x | x in queue
        ensures x in sent
      {
        var i :| 0 <= i < |queue| && queue[i] == x;
        assert back[i] == x && back[|queue|] == h;
      }
    }
    if forall x | x in queue :: x in sent {
      assert forall i | 0 <= i < |queue| :: back[i] in queue;
    }
  }

  lemma PutBackOrder(sent: seq<Command>, h: Command, queue: seq<Command>)
    requires SentFirst([h] + queue, sent) && OneNewCopy([h] + queue, sent)
    ensures (FirstIn([], sent + (queue + [h])) == FirstIn([], sent + ([h] + queue)) && SentFirst(queue + [h], sent))
            <==> forall x | x in queue :: x == h || (x in sent && h in sent)
  {
    if h in sent {
      SentHeadSameFirsts(sent, h, queue);
      SentHeadStaysFirst(sent, h, queue);
    } else {
      NewHeadPutBack(sent, h, queue);
      NewHead(sent, h, queue);
      if queue != [] { assert queue[0] in queue; }
    }
  }

  lemma PutBackKeepsOrderExactly(l: Link)
    requires InOrder(l) && OneNewCopy(Upcoming(l), l.sent)
    ensures InOrder(PutBack(l)) <==>
            (l.held.Some? ==> forall x | x in l.host.queue :: x == l.held.value || (x in l.sent && l.held.value in l.sent))
  {
    if l.held.Some? {
      assert Upcoming(l) == [l.held.value] + l.host.queue && Upcoming(PutBack(l)) == l.host.queue + [l.held.value];
      PutBackOrder(l.sent, l.held.value, l.host.queue);
    } else {
      assert Upcoming(PutBack(l)) == Upcoming(l);
    }
  }

  lemma EnqueueKeepsOrder(l: Link, c: Command)
    requires InOrder(l) && NothingInvented(l) && c !in l.enqueued
    ensures InOrder(Apply(l, Enqueue(c)))
  {
    var next, all := Apply(l, Enqueue(c)), l.sent + Upcoming(l);
    assert next.sent + Upcoming(next) == all + [c];
    assert (all + [c])[..|all|] == all;
    assert Upcoming(next) == Upcoming(l) + [c];
  }

  lemma ConnectKeepsOrder(l: Link)
    requires InOrder(l) && NothingInvented(l) && Enabled(l, Connect) && l.held.None?
    ensures InOrder(Apply(l, Connect))
  {
    var next, front := Apply(l, Connect), Values(l.host.unacked);
    assert Upcoming(next) == HeldSeq(l) + front + l.host.queue;
    assert Upcoming(l) == HeldSeq(l) + l.host.queue;
    SentCopiesDoNotMatter(l.sent, HeldSeq(l), front, l.host.queue);
    ReplaySentFirst(HeldSeq(l), front, l.host.queue, l.sent);
  }

  lemma ReplaySentFirst(held: seq<Command>, front: seq<Command>, queue: seq<Command>, sent: seq<Command>)
    requires held == [] && SentFirst(held + queue, sent) && forall x | x in front :: x in sent
    ensures SentFirst(held + front + queue, sent)
  {
    var all := held + front + queue;
    forall i, j | 0 <= i < j < |all| && all[j] in sent
      ensures all[i] in sent
    {
      if i < |front| {
        assert all[i] == front[i];
      } else {
        assert all[i] == (held + queue)[i - |front|] && all[j] == (held + queue)[j - |front|];
      }
    }
  }

  lemma SendSentFirst(c: Command, queue: seq<Command>, sent: seq<Command>)
    requires SentFirst([c] + queue, sent) && OneNewCopy([c] + queue, sent)
    ensures SentFirst(queue, sent + [c])
  {
    var all := [c] + queue;
    forall i, j | 0 <= i < j < |queue| && queue[j] in sent + [c]
      ensures queue[i] in sent + [c]
    {
      assert all[i + 1] == queue[i] && all[j + 1] == queue[j] && all[0] == c;
    }
  }

  lemma SendKeepsOrder(l: Link)
    requires InOrder(l) && OneNewCopy(Upcoming(l), l.sent) && Enabled(l, Send)
    ensures InOrder(Apply(l, Send))
  {
    var next, c := Apply(l, Send), l.held.value;
    assert Upcoming(l) == [c] + l.host.queue && Upcoming(next) == l.host.queue;
    assert next.sent + Upcoming(next) == l.sent + Upcoming(l);
    SendSentFirst(c, l.host.queue, l.sent);
  }

  /** Only a connected loop holds a command, and commands never sent have one upcoming copy. */
  predicate Steady(l: Link) {
    (l.held.Some? ==> l.host.connected) && OneNewCopy(Upcoming(l), l.sent)
  }

  lemma RotationKeepsNewCopies(h: Command, queue: seq<Command>, sent: seq<Command>)
    requires OneNewCopy([h] + queue, sent)
    ensures OneNewCopy(queue + [h], sent)
  {
    var front, back := [h] + queue, queue + [h];
    forall i, j | 0 <= i < j < |back| && back[i] == back[j]
      ensures back[i] in sent
    {
      assert front[i + 1] == back[i];
      if j < |queue| { assert front[j + 1] == back[j]; } else { assert front[0] == back[j]; }
    }
  }

  lemma ReplayKeepsNewCopies(front: seq<Command>, queue: seq<Command>, sent: seq<Command>)
    requires OneNewCopy(queue, sent) && forall x | x in front :: x in sent
    ensures OneNewCopy(front + queue, sent)
  {
    var all := front + queue;
    forall i, j | 0 <= i < j < |all| && all[i] == all[j]
      ensures all[i] in sent
    {
      if i < |front| {
        assert all[i] == front[i];
      } else {
        assert all[i] == queue[i - |front|] && all[j] == queue[j - |front|];
      }
    }
  }

  /** A step that takes away copies keeps the ones left single. */
  lemma FewerCopies(l: Link, next: Link, drop: nat)
    requires OneNewCopy(Upcoming(l), l.sent) && drop <= |Upcoming(l)| && Upcoming(next) == Upcoming(l)[drop..]
    requires forall x | x in l.sent :: x in next.sent
    ensures OneNewCopy(Upcoming(next), next.sent)
  {
    var a, b := Upcoming(l), Upcoming(next);
    assert forall i | 0 <= i < |b| :: b[i] == a[drop + i];
  }

  lemma WithoutOneCopy(a: seq<Command>, c: Command, b: seq<Command>, sent: seq<Command>)
    requires OneNewCopy(a + [c] + b, sent)
    ensures OneNewCopy(a + b, sent)
    ensures c !in sent ==> c !in a + b
  {
    var all, rest := a + [c] + b, a + b;
    forall i | 0 <= i < |rest|
      ensures rest[i] == all[if i < |a| then i else i + 1]
    {
    }
    assert all[|a|] == c;
    forall i, j | 0 <= i < j < |rest| && rest[i] == rest[j]
      ensures rest[i] in sent
    {
      assert all[if i < |a| then i else i + 1] == all[if j < |a| then j else j + 1];
    }
  }

  lemma OrphanKeepsNewCopies(l: Link)
    requires OneNewCopy(Upcoming(l), l.sent) && Enabled(l, OrphanPull)
    ensures OneNewCopy(Upcoming(Apply(l, OrphanPull)), l.sent)
  {
    var c, rest := l.host.queue[0], l.host.queue[1..];
    assert Upcoming(l) == HeldSeq(l) + [c] + rest;
    WithoutOneCopy(HeldSeq(l), c, rest, l.sent);
  }

  lemma StepKeepsSteady(l: Link, step: Step)
    requires Steady(l) && NothingInvented(l) && Enabled(l, step) && NoRepeats(Apply(l, step).enqueued)
    ensures Steady(Apply(l, step))
  {
    var next := Apply(l, step);
    match step
    case Enqueue(c) =>
      assert next.enqueued[|l.enqueued|] == c && forall i | 0 <= i < |l.enqueued| :: next.enqueued[i] == l.enqueued[i];
      assert Upcoming(next) == Upcoming(l) + [c] && c !in Upcoming(l);
    case Connect =>
      assert Upcoming(l) == l.host.queue && Upcoming(next) == Values(l.host.unacked) + l.host.queue;
      ReplayKeepsNewCopies(Values(l.host.unacked), l.host.queue, l.sent);
    case Pull => assert Upcoming(next) == Upcoming(l);
    case Send => FewerCopies(l, next, 1);
    case Control => PutBackSteady(l);
    case End => PutBackSteady(l);
    case Ack(_) => assert Upcoming(next) == Upcoming(l);
    case CancelHandler => FewerCopies(l, next, |HeldSeq(l)|);
    case OrphanPull => OrphanKeepsNewCopies(l);
  }

  lemma PutBackSteady(l: Link)
    requires OneNewCopy(Upcoming(l), l.sent)
    ensures OneNewCopy(Upcoming(PutBack(l)), l.sent)
  {
    if l.held.Some? {
      assert Upcoming(l) == [l.held.value] + l.host.queue && Upcoming(PutBack(l)) == l.host.queue + [l.held.value];
      RotationKeepsNewCopies(l.held.value, l.host.queue, l.sent);
    } else {
      assert Upcoming(PutBack(l)) == Upcoming(l);
    }
  }

  /** Losing a copy of a sent command keeps the order; losing the only copy of another one leaves a
      command that will never be sent. */
  lemma LossKeepsOrderExactly(sent: seq<Command>, a: seq<Command>, c: Command, b: seq<Command>, enqueued: seq<Command>)
    requires FirstIn([], sent + (a + [c] + b)) == enqueued && SentFirst(a + [c] + b, sent)
    requires OneNewCopy(a + [c] + b, sent) && c in enqueued
    ensures FirstIn([], sent + (a + b)) == enqueued && SentFirst(a + b, sent) <==> c in sent
  {
    if c in sent {
      SentCopiesDoNotMatter(sent, a, [c], b);
      SentFirstWithout(a, c, b, sent);
    } else {
      WithoutOneCopy(a, c, b, sent);
      FirstInMembers([], sent + (a + b), c);
    }
  }

  lemma SentFirstWithout(a: seq<Command>, c: Command, b: seq<Command>, sent: seq<Command>)
    requires SentFirst(a + [c] + b, sent)
    ensures SentFirst(a + b, sent)
  {
    var all, rest := a + [c] + b, a + b;
    forall i, j | 0 <= i < j < |rest| && rest[j] in sent
      ensures rest[i] in sent
    {
      assert rest[i] == all[if i < |a| then i else i + 1] && rest[j] == all[if j < |a| then j else j + 1];
    }
  }

  lemma LossStepOrder(l: Link, step: Step)
    requires InOrder(l) && Steady(l) && NothingInvented(l) && Enabled(l, step) && (step.CancelHandler? || step.OrphanPull?)
    ensures InOrder(Apply(l, step)) <==> Orderly(l, step)
  {
    var next := Apply(l, step);
    if step.OrphanPull? {
      var c := l.host.queue[0];
      assert l.host.queue == [c] + next.host.queue;
      assert Upcoming(l) == HeldSeq(l) + [c] + next.host.queue && Upcoming(l)[|HeldSeq(l)|] == c;
      LossKeepsOrderExactly(l.sent, HeldSeq(l), c, next.host.queue, l.enqueued);
    } else if l.held.Some? {
      var c := l.held.value;
      assert Upcoming(l) == [] + [c] + l.host.queue && Upcoming(next) == [] + l.host.queue && Upcoming(l)[0] == c;
      LossKeepsOrderExactly(l.sent, [], c, l.host.queue, l.enqueued);
    } else {
      assert Upcoming(next) == Upcoming(l);
    }
  }

  /** For every step: order is kept if and only if the step is orderly. */
  lemma StepKeepsOrderExactly(l: Link, step: Step)
    requires InOrder(l) && Steady(l) && NothingInvented(l) && Enabled(l, step) && NoRepeats(Apply(l, step).enqueued)
    ensures InOrder(Apply(l, step)) <==> Orderly(l, step)
  {
    match step
    case Enqueue(c) =>
      var grown := Apply(l, step).enqueued;
      assert grown[|l.enqueued|] == c && forall i | 0 <= i < |l.enqueued| :: grown[i] == l.enqueued[i];
      EnqueueKeepsOrder(l, c);
    case Connect => ConnectKeepsOrder(l);
    case Pull => assert Upcoming(Apply(l, step)) == Upcoming(l);
    case Send => SendKeepsOrder(l);
    case Control => PutBackKeepsOrderExactly(l);
    case End => PutBackKeepsOrderExactly(l);
    case Ack(_) => assert Upcoming(Apply(l, step)) == Upcoming(l);
    case CancelHandler => LossStepOrder(l, step);
    case OrphanPull => LossStepOrder(l, step);
  }

  lemma {:induction false} EveryRunSteady(steps: seq<Step>)
    requires Possible(steps) && NoRepeats(After(steps).enqueued)
    ensures Steady(After(steps))
    decreases |steps|
  {
    if steps != [] {
      var before := steps[..|steps| - 1];
      EarlierNoRepeats(steps);
      EveryRunSteady(before);
      EveryRunConserves(before);
      StepKeepsSteady(After(before), steps[|steps| - 1]);
    }
  }

  lemma EarlierNoRepeats(steps: seq<Step>)
    requires Possible(steps) && steps != [] && NoRepeats(After(steps).enqueued)
    ensures NoRepeats(After(steps[..|steps| - 1]).enqueued)
  {
    EnqueuedGrows(After(steps[..|steps| - 1]), steps[|steps| - 1]);
  }

  lemma EnqueuedGrows(l: Link, step: Step)
    requires Enabled(l, step) && NoRepeats(Apply(l, step).enqueued)
    ensures NoRepeats(l.enqueued)
  {
    if step.Enqueue? {
      assert forall i | 0 <= i < |l.enqueued| :: l.enqueued[i] == (l.enqueued + [step.c])[i];
    }
  }

  /** In every run over distinct commands, cancelled handlers included: at each point the first
      sends so far and to come are the enqueues in order, with replays before commands never sent,
      if and only if every step was orderly. */
  lemma {:induction false} OrderKeptExactlyInOrderlyRuns(steps: seq<Step>)
    requires Possible(steps) && NoRepeats(After(steps).enqueued)
    ensures InOrderThroughout(steps) <==> OrderlyRun(steps)
    decreases |steps|
  {
    if steps != [] {
      var before := steps[..|steps| - 1];
      EarlierNoRepeats(steps);
      OrderKeptExactlyInOrderlyRuns(before);
      if InOrderThroughout(before) {
        EveryRunSteady(before);
        EveryRunConserves(before);
        StepKeepsOrderExactly(After(before), steps[|steps| - 1]);
      }
    }
  }

  /** In an orderly run the first sends follow enqueue order: the commands of `sent`, each at its
      first occurrence, are the first enqueued commands. */
  lemma {:induction false} FirstSendsFollowEnqueueOrder(steps: seq<Step>)
    requires Possible(steps) && NoRepeats(After(steps).enqueued) && OrderlyRun(steps)
    ensures FirstIn([], After(steps).sent) <= After(steps).enqueued
    ensures SentFirst(Upcoming(After(steps)), After(steps).sent)
  {
    OrderKeptExactlyInOrderlyRuns(steps);
    FirstInConcat([], After(steps).sent, Upcoming(After(steps)));
  }

  /** A control message that arrives together with a pulled command reverses two commands. */
  lemma TailPutBackOvertakes(a: Command, b: Command)
    requires a != b
    ensures var steps := [Enqueue(a), Enqueue(b), Connect, Pull, Control, Pull, Send];
            Possible(steps) && After(steps).enqueued == [a, b] && After(steps).sent == [b]
  {
    var s1, s2, s3 := [Enqueue(a)], [Enqueue(a), Enqueue(b)], [Enqueue(a), Enqueue(b), Connect];
    Extend([], Enqueue(a), s1);
    Extend(s1, Enqueue(b), s2);
    Extend(s2, Connect, s3);
    assert After(s3).host.queue == [a, b];
    var s4, s5 := s3 + [Pull], s3 + [Pull, Control];
    Extend(s3, Pull, s4);
    Extend(s4, Control, s5);
    assert After(s5).host.queue == [b, a];
    Extend(s5, Pull, s5 + [Pull]);
    Extend(s5 + [Pull], Send, [Enqueue(a), Enqueue(b), Connect, Pull, Control, Pull, Send]);
  }
}
