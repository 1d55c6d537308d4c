/** The bridge from committed commands to the live dispatcher: it subscribes to the bus, scans the
    table for QUEUED commands, then follows the bus. Commits, publications that happen some time
    after their commit, status changes and the bridge's own statements interleave freely. */
module CommandBridge {
  import opened Digests
  import Bus

  datatype Status = Queued | Other
  datatype Row = Row(status: Status, hasEnvelope: bool)

  datatype Phase = NotStarted | Subscribed | Scanning(rows: seq<string>) | Following

  /** `scheduled` are the payloads of publications that wait for their turn after a commit; `live` is what
      the bridge put on the live dispatcher. The flags record a failed scan, a dropped event and
      a failed dispatch of an event. */
  datatype State = State(
    table: map<string, Row>, scheduled: seq<string>, sub: Option<Bus.Sub>, sequence: nat,
    phase: Phase, live: seq<string>, scanFailed: bool, overflowed: bool, dispatchFailed: bool)

  datatype Step =
    | Commit(id: string, hasEnvelope: bool)
    | RequestApproval
    | RunPublish(at: nat)
    | ChangeStatus(id: string)
    | Delete(id: string)
    | SubscribeBus(maxQueue: int)
    | ScanRead(rows: seq<string>)
    | ScanEnqueue
    | ScanDone
    | ScanError
    | Follow(fails: bool)

  /** The scan returns the QUEUED rows in some order, each once. */
  predicate IsScan(table: map<string, Row>, rows: seq<string>) {
    && (forall i, j | 0 <= i < j < |rows| :: rows[i] != rows[j])
    && (forall id | id in rows :: id in table && table[id].status.Queued?)
    && (forall id | id in table && table[id].status.Queued? :: id in rows)
  }

  predicate Enabled(s: State, step: Step) {
    match step
    case Commit(id, _) => id !in s.table
    case RequestApproval => true
    case RunPublish(at) => at < |s.scheduled|
    case ChangeStatus(id) => id in s.table
    case Delete(id) => id in s.table
    case SubscribeBus(_) => s.phase.NotStarted?
    case ScanRead(rows) => s.phase.Subscribed? && IsScan(s.table, rows)
    case ScanEnqueue => s.phase.Scanning? && s.phase.rows != []
    case ScanDone => s.phase.Scanning? && s.phase.rows == []
    case ScanError => s.phase.Scanning? || s.phase.Subscribed?
    case Follow(_) => s.phase.Following? && s.sub.Some? && (s.sub.value.dropped > 0 || s.sub.value.queue != [])
  }

  const CHANNEL := "commands"

  /** What a `command.issued` event says; the other events of the channel, such as
      `command.pending_approval`, say something else and the bridge skips them. */
  function Issued(id: string): string {
    "i" + id
  }

  const APPROVAL := "a"

  predicate IsIssued(payload: string) {
    payload != [] && payload[0] == 'i'
  }

  lemma IssuedExactly(payload: string, id: string)
    ensures payload == Issued(id) <==> IsIssued(payload) && payload[1..] == id
  {
    if IsIssued(payload) { assert payload == [payload[0]] + payload[1..]; }
  }

  function Publish(s: State, at: nat): State
    requires at < |s.scheduled|
  {
    var e := Bus.Event(s.sequence + 1, CHANNEL, s.scheduled[at]);
    var rest := s.(scheduled := s.scheduled[..at] + s.scheduled[at + 1..], sequence := s.sequence + 1);
    if s.sub.None? then rest
    else rest.(sub := Some(Bus.Offer(s.sub.value, e)), overflowed := s.overflowed || Bus.Full(s.sub.value))
  }

  /** One turn of the event loop: an advisory is skipped, an event looks its command up. */
  function FollowStep(s: State, fails: bool): State
    requires s.sub.Some?
  {
    var (sub, item) := Bus.Next(s.sub.value);
    var rest := s.(sub := Some(sub));
    if !item.Delivered? then rest
    else
      var payload := item.event.payload;
      if !IsIssued(payload) then rest
      else if fails then rest.(dispatchFailed := true)
      else if payload[1..] in s.table && s.table[payload[1..]].hasEnvelope then rest.(live := s.live + [payload[1..]])
      else rest
  }

  function Apply(s: State, step: Step): State
    requires Enabled(s, step)
  {
    match step
    case Commit(id, hasEnvelope) =>
      s.(table := s.table[id := Row(Queued, hasEnvelope)], scheduled := s.scheduled + [Issued(id)])
    case RequestApproval => s.(scheduled := s.scheduled + [APPROVAL])
    case RunPublish(at) => Publish(s, at)
    case ChangeStatus(id) => s.(table := s.table[id := s.table[id].(status := Other)])
    case Delete(id) => s.(table := s.table - {id})
    case SubscribeBus(maxQueue) =>
      s.(sub := Some(Bus.Sub(CHANNEL, maxQueue, [], 0, false)), phase := Subscribed)
    case ScanRead(rows) =>
      // Rows without an envelope are skipped by the enqueue loop.
      s.(phase := Scanning(WithEnvelope(s.table, rows)))
    case ScanEnqueue => s.(live := s.live + [s.phase.rows[0]], phase := Scanning(s.phase.rows[1..]))
    case ScanDone => s.(phase := Following)
    case ScanError => s.(phase := Following, scanFailed := true)
    case Follow(fails) => FollowStep(s, fails)
  }

  function WithEnvelope(table: map<string, Row>, rows: seq<string>): seq<string> {
    if rows == [] then []
    else (if rows[0] in table && table[rows[0]].hasEnvelope then [rows[0]] else []) + WithEnvelope(table, rows[1..])
  }

  lemma {:induction false} WithEnvelopeConcat(table: map<string, Row>, a: seq<string>, b: seq<string>)
    ensures WithEnvelope(table, a + b) == WithEnvelope(table, a) + WithEnvelope(table, b)
  {
    if a == [] {
      assert a + b == b;
    } else {
      assert (a + b)[1..] == a[1..] + b;
      WithEnvelopeConcat(table, a[1..], b);
    }
  }

  /** The enqueue loop over the scanned rows, when nothing interrupts it. */
  method ReplayQueued(table: map<string, Row>, rows: seq<string>) returns (enqueued: seq<string>)
    ensures enqueued == WithEnvelope(table, rows)
  {
    enqueued := [];
    var i := 0;
    while i < |rows|
      invariant 0 <= i <= |rows|
      invariant enqueued == WithEnvelope(table, rows[..i])
    {
      WithEnvelopeConcat(table, rows[..i], [rows[i]]);
      assert rows[..i + 1] == rows[..i] + [rows[i]];
      if rows[i] in table && table[rows[i]].hasEnvelope {
        enqueued := enqueued + [rows[i]];
      }
      i := i + 1;
    }
    assert rows[..i] == rows;
  }

  /** Whatever the table held when the process started. */
  function Boot(table: map<string, Row>): State {
    State(table, [], None, 0, NotStarted, [], false, false, false)
  }

  predicate Possible(table: map<string, Row>, steps: seq<Step>)
    decreases |steps|, 0
  {
    steps == [] ||
    (Possible(table, steps[..|steps| - 1])
     && Enabled(Ran(table, steps[..|steps| - 1]), steps[|steps| - 1]))
  }

  function Ran(table: map<string, Row>, steps: seq<Step>): State
    requires Possible(table, steps)
    decreases |steps|, 1
  {
    if steps == [] then Boot(table) else Apply(Ran(table, steps[..|steps| - 1]), steps[|steps| - 1])
  }

  // ---------------------------------------------------------------- delivery

  predicate Waits(s: State, id: string) {
    s.sub.Some? && exists i :: 0 <= i < |s.sub.value.queue| && s.sub.value.queue[i].payload == Issued(id)
  }

  /** The command is on the live dispatcher or something will still put it there. */
  predicate OnItsWay(s: State, id: string) {
    || id in s.live || Issued(id) in s.scheduled || Waits(s, id)
    || s.phase.NotStarted? || s.phase.Subscribed? || (s.phase.Scanning? && id in s.phase.rows)
  }

  predicate Deliverable(s: State, id: string) {
    id in s.table && s.table[id] == Row(Queued, true)
  }

  predicate Clean(s: State) {
    !s.scanFailed && !s.overflowed && !s.dispatchFailed
  }

  ghost predicate Inv(s: State) {
    && (s.sub.Some? <==> !s.phase.NotStarted?)
    && (s.sub.Some? ==> !s.sub.value.closed)
    && (Clean(s) ==> s.sub.Some? ==> s.sub.value.dropped == 0)
    && (Clean(s) ==> forall id | Deliverable(s, id) :: OnItsWay(s, id))
  }

  lemma {:induction false} WithEnvelopeKeeps(table: map<string, Row>, rows: seq<string>, id: string)
    requires id in rows && id in table && table[id].hasEnvelope
    ensures id in WithEnvelope(table, rows)
  {
    if rows[0] != id { WithEnvelopeKeeps(table, rows[1..], id); }
  }

  lemma PublishKeeps(s: State, at: nat, id: string)
    requires Inv(s) && at < |s.scheduled| && Clean(Publish(s, at)) && Deliverable(s, id)
    ensures OnItsWay(Publish(s, at), id)
  {
    var next := Publish(s, at);
    assert OnItsWay(s, id);
    if Issued(id) in s.scheduled {
      var i :| 0 <= i < |s.scheduled| && s.scheduled[i] == Issued(id);
      if i < at {
        assert next.scheduled[i] == Issued(id);
      } else if i > at {
        assert next.scheduled[i - 1] == Issued(id);
      } else if next.sub.Some? {
        assert next.sub.value.queue[|s.sub.value.queue|].payload == Issued(id);
      }
    }
    if Waits(s, id) {
      var i :| 0 <= i < |s.sub.value.queue| && s.sub.value.queue[i].payload == Issued(id);
      assert next.sub.value.queue[i].payload == Issued(id);
    }
  }

  lemma FollowKeeps(s: State, id: string)
    requires Inv(s) && Clean(s) && s.phase.Following? && s.sub.value.queue != [] && Deliverable(s, id)
    ensures OnItsWay(FollowStep(s, false), id)
  {
    var next := FollowStep(s, false);
    assert OnItsWay(s, id);
    if Waits(s, id) {
      var i :| 0 <= i < |s.sub.value.queue| && s.sub.value.queue[i].payload == Issued(id);
      IssuedExactly(s.sub.value.queue[0].payload, id);
      if i > 0 { assert next.sub.value.queue[i - 1].payload == Issued(id); }
    }
  }

  lemma StepKeepsInv(s: State, step: Step)
    requires Inv(s) && Enabled(s, step)
    ensures Inv(Apply(s, step))
  {
    var next := Apply(s, step);
    if Clean(next) {
      forall id | Deliverable(next, id)
        ensures OnItsWay(next, id)
      {
        match step
        case Commit(c, _) =>
          assert id == c || OnItsWay(s, id);
          assert Apply(s, step).scheduled[|s.scheduled|] == Issued(c);
        case RequestApproval => assert OnItsWay(s, id);
        case RunPublish(at) => PublishKeeps(s, at, id);
        case ChangeStatus(_) => assert OnItsWay(s, id);
        case Delete(_) => assert OnItsWay(s, id);
        case SubscribeBus(_) =>
        case ScanRead(rows) => WithEnvelopeKeeps(s.table, rows, id);
        case ScanEnqueue => assert OnItsWay(s, id);
        case ScanDone => assert OnItsWay(s, id);
        case ScanError => assert false;
        case Follow(_) => FollowKeeps(s, id);
      }
    }
  }

  lemma {:induction false} EveryRunKeeps(table: map<string, Row>, steps: seq<Step>)
    requires Possible(table, steps)
    ensures Inv(Ran(table, steps))
    decreases |steps|
  {
    if steps != [] {
      EveryRunKeeps(table, steps[..|steps| - 1]);
      StepKeepsInv(Ran(table, steps[..|steps| - 1]), steps[|steps| - 1]);
    }
  }

  /** Nothing is left to do: every publication has run, the scan is over, the queue is empty. */
  predicate Quiet(s: State) {
    s.phase.Following? && s.scheduled == [] && (s.sub.Some? ==> s.sub.value.queue == [])
  }

  /** For every interleaving, over whatever table the process starts with: without a failed scan,
      a dropped event or a failed dispatch, each command that is still QUEUED is on the live
      dispatcher or on its way there, and once things are quiet it is on the live dispatcher. */
  lemma {:induction false} QueuedCommandsReachTheDispatcher(table: map<string, Row>, steps: seq<Step>, id: string)
    requires Possible(table, steps)
    requires Clean(Ran(table, steps)) && Deliverable(Ran(table, steps), id)
    ensures OnItsWay(Ran(table, steps), id)
    ensures Quiet(Ran(table, steps)) ==> id in Ran(table, steps).live
  {
    EveryRunKeeps(table, steps);
  }

  // ---------------------------------------------------------------- what the queue bound can do

  lemma Extend(table: map<string, Row>, steps: seq<Step>, step: Step, longer: seq<Step>)
    requires Possible(table, steps) && Enabled(Ran(table, steps), step) && longer == steps + [step]
    ensures Possible(table, longer) && Ran(table, longer) == Apply(Ran(table, steps), step)
  {
    assert longer[..|longer| - 1] == steps;
  }

  /** The queue bound strands a command in a run without any failure: two publications meet a queue
      of one, the first event is dropped, and the advisory that follows is skipped. */
  lemma FullQueueStrandsACommand(a: string, b: string)
    requires a != b
    ensures var steps := [SubscribeBus(1), ScanRead([]), ScanDone, Commit(a, true), Commit(b, true),
                          RunPublish(0), RunPublish(0), Follow(false), Follow(false)];
            && Possible(map[], steps)
            && var s := Ran(map[], steps);
               !s.scanFailed && !s.dispatchFailed && Quiet(s) && Deliverable(s, a) && a !in s.live
  {
    var first := [SubscribeBus(1), ScanRead([]), ScanDone, Commit(a, true), Commit(b, true)];
    var table := map[a := Row(Queued, true), b := Row(Queued, true)];
    var s := State(table, [Issued(a), Issued(b)], Some(Bus.Sub(CHANNEL, 1, [], 0, false)), 0, Following, [], false, false, false);
    TwoCommitsAfterTheScan(a, b);
    var one := s.(scheduled := [Issued(b)], sequence := 1, sub := Some(Bus.Sub(CHANNEL, 1, [Bus.Event(1, CHANNEL, Issued(a))], 0, false)));
    assert [Issued(a), Issued(b)][..0] + [Issued(a), Issued(b)][1..] == [Issued(b)] && [] + [Bus.Event(1, CHANNEL, Issued(a))] == [Bus.Event(1, CHANNEL, Issued(a))];
    Extend(map[], first, RunPublish(0), first + [RunPublish(0)]);
    assert Publish(s, 0) == one;
    Extend(map[], first + [RunPublish(0)], RunPublish(0), first + [RunPublish(0)] + [RunPublish(0)]);
    SecondEventDropsFirst(first + [RunPublish(0)] + [RunPublish(0)], one, a, b);
    assert first + [RunPublish(0)] + [RunPublish(0)] + [Follow(false)] + [Follow(false)]
        == [SubscribeBus(1), ScanRead([]), ScanDone, Commit(a, true), Commit(b, true),
            RunPublish(0), RunPublish(0), Follow(false), Follow(false)];
  }

  lemma TwoCommitsAfterTheScan(a: string, b: string)
    requires a != b
    ensures var steps := [SubscribeBus(1), ScanRead([]), ScanDone, Commit(a, true), Commit(b, true)];
            && Possible(map[], steps)
            && Ran(map[], steps)
               == State(map[a := Row(Queued, true), b := Row(Queued, true)], [Issued(a), Issued(b)],
                        Some(Bus.Sub(CHANNEL, 1, [], 0, false)), 0, Following, [], false, false, false)
  {
    var s1, s2 := [SubscribeBus(1)], [SubscribeBus(1), ScanRead([])];
    var s3 := [SubscribeBus(1), ScanRead([]), ScanDone];
    var s4 := [SubscribeBus(1), ScanRead([]), ScanDone, Commit(a, true)];
    Extend(map[], [], SubscribeBus(1), s1);
    Extend(map[], s1, ScanRead([]), s2);
    Extend(map[], s2, ScanDone, s3);
    Extend(map[], s3, Commit(a, true), s4);
    Extend(map[], s4, Commit(b, true), s4 + [Commit(b, true)]);
    assert s4 + [Commit(b, true)] == [SubscribeBus(1), ScanRead([]), ScanDone, Commit(a, true), Commit(b, true)];
  }

  lemma SecondEventDropsFirst(steps: seq<Step>, one: State, a: string, b: string)
    requires one.scheduled == [Issued(b)] && one.sub == Some(Bus.Sub(CHANNEL, 1, [Bus.Event(1, CHANNEL, Issued(a))], 0, false))
    requires one.sequence == 1 && one.phase.Following? && one.live == [] && a != b
    requires Possible(map[], steps) && Ran(map[], steps) == Publish(one, 0)
    ensures var longer := steps + [Follow(false)] + [Follow(false)];
            && Possible(map[], longer)
            && var s := Ran(map[], longer);
               && s.table == one.table && s.scanFailed == one.scanFailed && s.dispatchFailed == one.dispatchFailed
               && Quiet(s) && a !in s.live
  {
    var two := Publish(one, 0);
    assert [Bus.Event(1, CHANNEL, Issued(a))][1..] + [Bus.Event(2, CHANNEL, Issued(b))] == [Bus.Event(2, CHANNEL, Issued(b))];
    assert two.scheduled == [] && two.sub == Some(Bus.Sub(CHANNEL, 1, [Bus.Event(2, CHANNEL, Issued(b))], 1, false));
    Extend(map[], steps, Follow(false), steps + [Follow(false)]);
    var three := FollowStep(two, false);
    assert three == two.(sub := Some(Bus.Sub(CHANNEL, 1, [Bus.Event(2, CHANNEL, Issued(b))], 0, false)));
    Extend(map[], steps + [Follow(false)], Follow(false), steps + [Follow(false)] + [Follow(false)]);
  }

  // ---------------------------------------------------------------- exactly which commands are stranded

  /** The publication finds a full queue whose oldest event is about this command. */
  predicate Drops(s: State, step: Step, id: string) {
    step.RunPublish? && s.sub.Some? && Bus.Full(s.sub.value) && s.sub.value.queue != [] && s.sub.value.queue[0].payload == Issued(id)
  }

  predicate Dropped(table: map<string, Row>, steps: seq<Step>, id: string)
    requires Possible(table, steps)
  {
    steps != []
    && (Dropped(table, steps[..|steps| - 1], id)
        || Drops(Ran(table, steps[..|steps| - 1]), steps[|steps| - 1], id))
  }

  /** The scan listed this command. */
  predicate Listed(steps: seq<Step>, id: string) {
    exists i :: 0 <= i < |steps| && steps[i].ScanRead? && id in steps[i].rows
  }

  function Commits(steps: seq<Step>, id: string): nat {
    if steps == [] then 0
    else Commits(steps[..|steps| - 1], id) + if steps[|steps| - 1].Commit? && steps[|steps| - 1].id == id then 1 else 0
  }

  function Payloads(queue: seq<Bus.Event>): (r: seq<string>)
    ensures |r| == |queue|
  {
    seq(|queue|, i requires 0 <= i < |queue| => queue[i].payload)
  }

  /** Events about this command that have not reached the bridge. */
  function Copies(s: State, id: string): nat {
    multiset(s.scheduled)[Issued(id)] + if s.sub.Some? then multiset(Payloads(s.sub.value.queue))[Issued(id)] else 0
  }

  /** What has happened to one command: its commits, whether an event about it was dropped, whether
      the scan listed it, and whether it was ever in the table. */
  datatype Trace = Trace(commits: nat, dropped: bool, listed: bool, known: bool)

  function TraceOf(table: map<string, Row>, steps: seq<Step>, id: string): Trace
    requires Possible(table, steps)
  {
    Trace(Commits(steps, id), Dropped(table, steps, id), Listed(steps, id), id in table || Commits(steps, id) > 0)
  }

  function Moved(s: State, step: Step, id: string, t: Trace): Trace {
    var commit := step.Commit? && step.id == id;
    Trace(t.commits + if commit then 1 else 0, t.dropped || Drops(s, step, id),
          t.listed || (step.ScanRead? && id in step.rows), t.known || commit)
  }

  /** One commit makes at most one event, which is waiting, dropped or delivered. */
  predicate OneEvent(s: State, id: string, t: Trace) {
    Copies(s, id) + (if t.dropped then 1 else 0) + (if id in s.live && !t.listed then 1 else 0) <= t.commits
  }

  predicate ScanTraced(s: State, id: string, t: Trace) {
    && (s.phase.Scanning? && id in s.phase.rows ==> t.listed)
    && (t.listed || id in s.table ==> t.known)
  }

  /** Where a deliverable command is: what the scan listed is live or about to be; what it did not
      list is live, on its way, or had its event dropped. */
  predicate Placed(s: State, id: string, t: Trace) {
    Deliverable(s, id) && !s.scanFailed && !s.dispatchFailed ==>
      if t.listed then id in s.live || (s.phase.Scanning? && id in s.phase.rows)
      else
        || id in s.live || Issued(id) in s.scheduled || Waits(s, id) || s.phase.NotStarted? || s.phase.Subscribed?
        || t.dropped
  }

  predicate Started(s: State) {
    (s.sub.Some? <==> !s.phase.NotStarted?) && (s.sub.Some? ==> !s.sub.value.closed)
  }

  lemma RemovedAt(xs: seq<string>, at: nat, id: string)
    requires at < |xs|
    ensures multiset(xs[..at] + xs[at + 1..])[id] + (if xs[at] == id then 1 else 0) == multiset(xs)[id]
  {
    assert xs == xs[..at] + [xs[at]] + xs[at + 1..];
  }

  lemma PayloadsAfterHead(queue: seq<Bus.Event>, id: string)
    requires queue != []
    ensures multiset(Payloads(queue[1..]))[id] + (if queue[0].payload == id then 1 else 0) == multiset(Payloads(queue))[id]
  {
    assert Payloads(queue) == [queue[0].payload] + Payloads(queue[1..]);
  }

  lemma PayloadsPush(queue: seq<Bus.Event>, e: Bus.Event, id: string)
    ensures multiset(Payloads(queue + [e]))[id] == multiset(Payloads(queue))[id] + if e.payload == id then 1 else 0
  {
    assert Payloads(queue + [e]) == Payloads(queue) + [e.payload];
  }

  /** Offering an event adds it and may push out the oldest. */
  lemma OfferedPayloads(sub: Bus.Sub, e: Bus.Event, id: string)
    ensures multiset(Payloads(Bus.Offer(sub, e).queue))[id]
            + (if Bus.Full(sub) && sub.queue != [] && sub.queue[0].payload == id then 1 else 0)
            == multiset(Payloads(sub.queue))[id] + if e.payload == id then 1 else 0
  {
    if Bus.Full(sub) {
      PayloadsAfterHead(sub.queue, id);
      PayloadsPush(sub.queue[1..], e, id);
    } else {
      PayloadsPush(sub.queue, e, id);
    }
  }

  lemma CopiesAfterPublish(s: State, at: nat, id: string)
    requires at < |s.scheduled|
    ensures Copies(Publish(s, at), id) + (if Drops(s, RunPublish(at), id) then 1 else 0) <= Copies(s, id)
  {
    RemovedAt(s.scheduled, at, Issued(id));
    if s.sub.Some? { OfferedPayloads(s.sub.value, Bus.Event(s.sequence + 1, CHANNEL, s.scheduled[at]), Issued(id)); }
  }

  lemma PublishOneEvent(s: State, at: nat, id: string, t: Trace)
    requires OneEvent(s, id, t) && at < |s.scheduled|
    ensures OneEvent(Publish(s, at), id, Moved(s, RunPublish(at), id, t))
  {
    CopiesAfterPublish(s, at, id);
    assert Publish(s, at).live == s.live;
  }

  lemma FollowOneEvent(s: State, fails: bool, id: string, t: Trace)
    requires OneEvent(s, id, t) && s.sub.Some?
    ensures OneEvent(FollowStep(s, fails), id, t)
  {
    if Bus.Next(s.sub.value).1.Delivered? {
      PayloadsAfterHead(s.sub.value.queue, Issued(id));
      IssuedExactly(s.sub.value.queue[0].payload, id);
    }
  }

  lemma StepKeepsOneEvent(s: State, step: Step, id: string, t: Trace)
    requires OneEvent(s, id, t) && ScanTraced(s, id, t) && Started(s) && Enabled(s, step)
    ensures OneEvent(Apply(s, step), id, Moved(s, step, id, t))
  {
    if step.RunPublish? {
      PublishOneEvent(s, step.at, id, t);
    } else if step.Follow? {
      FollowOneEvent(s, step.fails, id, t);
    } else if step.SubscribeBus? {
      assert Payloads([]) == [];
    } else if step.Commit? {
      IssuedExactly(Issued(step.id), id);
    } else if step.RequestApproval? {
      IssuedExactly(APPROVAL, id);
    }
  }

  lemma {:induction false} WithEnvelopeOnly(table: map<string, Row>, rows: seq<string>, id: string)
    requires id in WithEnvelope(table, rows)
    ensures id in rows
  {
    if rows[0] != id { WithEnvelopeOnly(table, rows[1..], id); }
  }

  lemma StepKeepsScanTraced(s: State, step: Step, id: string, t: Trace)
    requires ScanTraced(s, id, t) && Enabled(s, step)
    ensures ScanTraced(Apply(s, step), id, Moved(s, step, id, t))
  {
    if step.ScanRead? && id in WithEnvelope(s.table, step.rows) { WithEnvelopeOnly(s.table, step.rows, id); }
  }

  lemma PublishPlaced(s: State, at: nat, id: string, t: Trace)
    requires Placed(s, id, t) && at < |s.scheduled| && Started(s)
    ensures Placed(Publish(s, at), id, Moved(s, RunPublish(at), id, t))
  {
    var next := Publish(s, at);
    if Issued(id) in s.scheduled {
      var i :| 0 <= i < |s.scheduled| && s.scheduled[i] == Issued(id);
      if i < at {
        assert next.scheduled[i] == Issued(id);
      } else if i > at {
        assert next.scheduled[i - 1] == Issued(id);
      } else if next.sub.Some? {
        assert next.sub.value.queue[|next.sub.value.queue| - 1].payload == Issued(id);
      }
    }
    if Waits(s, id) {
      var i :| 0 <= i < |s.sub.value.queue| && s.sub.value.queue[i].payload == Issued(id);
      if !Bus.Full(s.sub.value) {
        assert next.sub.value.queue[i].payload == Issued(id);
      } else if i > 0 {
        assert next.sub.value.queue[i - 1].payload == Issued(id);
      }
    }
  }

  lemma FollowPlaced(s: State, fails: bool, id: string, t: Trace)
    requires Placed(s, id, t) && Started(s) && Enabled(s, Follow(fails))
    ensures Placed(FollowStep(s, fails), id, t)
  {
    var next := FollowStep(s, fails);
    if s.sub.value.queue != [] { IssuedExactly(s.sub.value.queue[0].payload, id); }
    if Waits(s, id) {
      var i :| 0 <= i < |s.sub.value.queue| && s.sub.value.queue[i].payload == Issued(id);
      if s.sub.value.dropped > 0 {
        assert next.sub.value.queue[i].payload == Issued(id);
      } else if i > 0 {
        assert next.sub.value.queue[i - 1].payload == Issued(id);
      }
    }
  }

  lemma ScanPlaced(s: State, step: Step, id: string, t: Trace)
    requires Placed(s, id, t) && Enabled(s, step)
    requires step.ScanRead? || step.ScanEnqueue? || step.ScanDone? || step.ScanError?
    ensures Placed(Apply(s, step), id, Moved(s, step, id, t))
  {
    if step.ScanRead? && Deliverable(s, id) { WithEnvelopeKeeps(s.table, step.rows, id); }
    assert Waits(Apply(s, step), id) == Waits(s, id);
  }

  lemma TablePlaced(s: State, step: Step, id: string, t: Trace)
    requires Placed(s, id, t) && Started(s) && ScanTraced(s, id, t) && Enabled(s, step)
    requires step.Commit? || step.RequestApproval? || step.ChangeStatus? || step.Delete? || step.SubscribeBus?
    requires step.Commit? && step.id == id ==> !t.known
    ensures Placed(Apply(s, step), id, Moved(s, step, id, t))
  {
    var next := Apply(s, step);
    if step.Commit? {
      assert next.scheduled[|s.scheduled|] == Issued(step.id);
      assert Issued(id) in s.scheduled ==> Issued(id) in next.scheduled;
    }
    if !step.SubscribeBus? { assert Waits(next, id) == Waits(s, id); }
  }

  lemma StepKeepsPlaced(s: State, step: Step, id: string, t: Trace)
    requires Placed(s, id, t) && Started(s) && ScanTraced(s, id, t) && Enabled(s, step)
    requires step.Commit? && step.id == id ==> !t.known
    ensures Placed(Apply(s, step), id, Moved(s, step, id, t))
  {
    if step.RunPublish? {
      PublishPlaced(s, step.at, id, t);
    } else if step.Follow? {
      FollowPlaced(s, step.fails, id, t);
    } else if step.ScanRead? || step.ScanEnqueue? || step.ScanDone? || step.ScanError? {
      ScanPlaced(s, step, id, t);
    } else {
      TablePlaced(s, step, id, t);
    }
  }

  lemma TraceMoves(table: map<string, Row>, steps: seq<Step>, id: string)
    requires Possible(table, steps) && steps != []
    ensures var before := steps[..|steps| - 1];
            TraceOf(table, steps, id)
            == Moved(Ran(table, before), steps[|steps| - 1], id, TraceOf(table, before, id))
  {
    var before, last := steps[..|steps| - 1], steps[|steps| - 1];
    if Listed(steps, id) {
      var i :| 0 <= i < |steps| && steps[i].ScanRead? && id in steps[i].rows;
      if i < |before| { assert before[i] == steps[i]; }
    }
    if Listed(before, id) {
      var i :| 0 <= i < |before| && before[i].ScanRead? && id in before[i].rows;
      assert steps[i] == before[i];
    }
    if last.ScanRead? && id in last.rows { assert steps[|before|] == last; }
  }

  /** A command id is given to one command only. */
  predicate Once(table: map<string, Row>, steps: seq<Step>, id: string) {
    Commits(steps, id) + (if id in table then 1 else 0) <= 1
  }

  lemma {:induction false} EveryRunTraced(table: map<string, Row>, steps: seq<Step>, id: string)
    requires Possible(table, steps) && Once(table, steps, id)
    ensures var s, t := Ran(table, steps), TraceOf(table, steps, id);
            OneEvent(s, id, t) && ScanTraced(s, id, t) && Placed(s, id, t)
    decreases |steps|
  {
    if steps != [] {
      var before, step := steps[..|steps| - 1], steps[|steps| - 1];
      var s, t := Ran(table, before), TraceOf(table, before, id);
      EveryRunTraced(table, before, id);
      EveryRunKeeps(table, before);
      assert Started(s);
      TraceMoves(table, steps, id);
      StepKeepsOneEvent(s, step, id, t);
      StepKeepsScanTraced(s, step, id, t);
      StepKeepsPlaced(s, step, id, t);
    }
  }

  /** For every interleaving without a failed scan or dispatch: once things are quiet, a command that
      is still QUEUED is not on the live dispatcher if and only if the event about it was the oldest
      of a full queue at some publication and the scan did not list it. */
  lemma {:induction false} StrandedExactlyWhenDroppedAndNotListed(table: map<string, Row>, steps: seq<Step>, id: string)
    requires Possible(table, steps) && Once(table, steps, id)
    requires var s := Ran(table, steps);
             Quiet(s) && Deliverable(s, id) && !s.scanFailed && !s.dispatchFailed
    ensures id !in Ran(table, steps).live <==> Dropped(table, steps, id) && !Listed(steps, id)
  {
    EveryRunTraced(table, steps, id);
    EveryRunKeeps(table, steps);
  }
}
