/** How often the bridge puts a command on the live dispatcher: at most once for its event and once
    for the scan, and never a command that nobody issued. */
module BridgeCopies {
  import opened Digests
  import Bus
  import opened CommandBridge

  /** Copies of an `issued` event on the bridge's queue. */
  function EventCopies(queue: seq<Bus.Event>, id: string): nat {
    if queue == [] then 0
    else (if queue[0].payload == Issued(id) then 1 else 0) + EventCopies(queue[1..], id)
  }

  lemma {:induction false} EventCopiesConcat(a: seq<Bus.Event>, b: seq<Bus.Event>, id: string)
    ensures EventCopies(a + b, id) == EventCopies(a, id) + EventCopies(b, id)
  {
    if a == [] {
      assert a + b == b;
    } else {
      assert (a + b)[1..] == a[1..] + b;
      EventCopiesConcat(a[1..], b, id);
    }
  }

  function QueuedCopies(s: State, id: string): nat {
    if s.sub.Some? then EventCopies(s.sub.value.queue, id) else 0
  }

  function ListedCopies(s: State, id: string): nat {
    if s.phase.Scanning? then multiset(s.phase.rows)[id] else 0
  }

  /** Everything that is or may still come onto the dispatcher. */
  function Copies(s: State, id: string): nat {
    multiset(s.live)[id] + QueuedCopies(s, id) + multiset(s.scheduled)[Issued(id)] + ListedCopies(s, id)
  }

  predicate Scanned(s: State) {
    s.phase.Scanning? || s.phase.Following?
  }

  /** How often the run commits the command, and whether it has read the table. */
  function Commits(steps: seq<Step>, id: string): nat {
    if steps == [] then 0
    else
      var step := steps[|steps| - 1];
      Commits(steps[..|steps| - 1], id) + if step.Commit? && step.id == id then 1 else 0
  }

  /** Offering an event adds its copy; a full queue loses its oldest. */
  lemma OfferCopies(sub: Bus.Sub, e: Bus.Event, id: string)
    ensures EventCopies(Bus.Offer(sub, e).queue, id) <= EventCopies(sub.queue, id) + if e.payload == Issued(id) then 1 else 0
  {
    EventCopiesConcat(sub.queue, [e], id);
    if Bus.Full(sub) { EventCopiesConcat(sub.queue[1..], [e], id); }
  }

  lemma TakenOut(xs: seq<string>, at: nat, x: string)
    requires at < |xs|
    ensures multiset(xs)[x] == multiset(xs[..at] + xs[at + 1..])[x] + if xs[at] == x then 1 else 0
  {
    assert xs == xs[..at] + [xs[at]] + xs[at + 1..];
    assert multiset(xs) == multiset(xs[..at] + xs[at + 1..]) + multiset{xs[at]};
  }

  lemma PublishCopies(s: State, at: nat, id: string)
    requires at < |s.scheduled|
    ensures Copies(Publish(s, at), id) <= Copies(s, id)
  {
    TakenOut(s.scheduled, at, Issued(id));
    if s.sub.Some? { OfferCopies(s.sub.value, Bus.Event(s.sequence + 1, CHANNEL, s.scheduled[at]), id); }
  }

  lemma FollowCopies(s: State, fails: bool, id: string)
    requires s.sub.Some?
    ensures Copies(FollowStep(s, fails), id) <= Copies(s, id)
  {
    var (sub, item) := Bus.Next(s.sub.value);
    if item.Delivered? {
      var payload := item.event.payload;
      IssuedExactly(payload, id);
      assert s.sub.value.queue == [s.sub.value.queue[0]] + sub.queue;
    }
  }

  lemma {:induction false} EnvelopeOnce(table: map<string, Row>, rows: seq<string>, id: string)
    requires forall i, j | 0 <= i < j < |rows| :: rows[i] != rows[j]
    ensures multiset(WithEnvelope(table, rows))[id] <= 1
    ensures id in WithEnvelope(table, rows) ==> id in rows && id in table && table[id].hasEnvelope
  {
    if rows != [] {
      EnvelopeOnce(table, rows[1..], id);
      assert rows == [rows[0]] + rows[1..];
      if rows[0] == id { assert id !in rows[1..]; }
    }
  }

  lemma ScanCopies(s: State, step: Step, id: string)
    requires Enabled(s, step) && (step.ScanRead? || step.ScanEnqueue?)
    ensures Copies(Apply(s, step), id) <= Copies(s, id) + if step.ScanRead? then 1 else 0
  {
    if step.ScanRead? {
      EnvelopeOnce(s.table, step.rows, id);
    } else {
      assert s.phase.rows == [s.phase.rows[0]] + s.phase.rows[1..];
    }
  }

  lemma StepCopies(s: State, step: Step, id: string)
    requires Enabled(s, step)
    ensures var next := Apply(s, step);
            Copies(next, id) <= Copies(s, id) + (if step.Commit? && step.id == id then 1 else 0)
                                + (if Scanned(next) && !Scanned(s) then 1 else 0)
  {
    match step
    case Commit(x, _) => IssuedExactly(Issued(x), id);
    case RequestApproval => assert Issued(id)[0] == 'i' && APPROVAL[0] == 'a';
    case RunPublish(at) => PublishCopies(s, at, id);
    case Follow(fails) => FollowCopies(s, fails, id);
    case ScanRead(_) => ScanCopies(s, step, id);
    case ScanEnqueue => ScanCopies(s, step, id);
    case ChangeStatus(_) =>
    case Delete(_) =>
    case SubscribeBus(_) =>
    case ScanDone =>
    case ScanError =>
  }

  lemma {:induction false} CopiesBounded(table: map<string, Row>, steps: seq<Step>, id: string)
    requires Possible(table, steps)
    ensures Copies(Ran(table, steps), id) <= Commits(steps, id) + if Scanned(Ran(table, steps)) then 1 else 0
    decreases |steps|
  {
    if steps != [] {
      CopiesBounded(table, steps[..|steps| - 1], id);
      StepCopies(Ran(table, steps[..|steps| - 1]), steps[|steps| - 1], id);
    }
  }

  /** For every interleaving, failures and overflows included: the bridge has put a command on the
      dispatcher at most once for each time it was committed, and once more for the scan. */
  lemma AtMostOnceForEventAndScan(table: map<string, Row>, steps: seq<Step>, id: string)
    requires Possible(table, steps)
    ensures multiset(Ran(table, steps).live)[id] <= Commits(steps, id) + 1
  {
    CopiesBounded(table, steps, id);
  }

  // ---------------------------------------------------------------- nothing invented

  /** The command was in the table at the start, or is committed in the run, with an envelope. */
  ghost predicate Known(table: map<string, Row>, steps: seq<Step>, id: string) {
    || (id in table && table[id].hasEnvelope)
    || exists i :: 0 <= i < |steps| && steps[i] == Commit(id, true)
  }

  lemma KnownStays(table: map<string, Row>, steps: seq<Step>, id: string)
    requires steps != [] && Known(table, steps[..|steps| - 1], id)
    ensures Known(table, steps, id)
  {
    var before := steps[..|steps| - 1];
    if i :| 0 <= i < |before| && before[i] == Commit(id, true) {
      assert steps[i] == Commit(id, true);
    }
  }

  ghost predicate AllKnown(table: map<string, Row>, steps: seq<Step>, s: State) {
    && (forall id | id in s.table && s.table[id].hasEnvelope :: Known(table, steps, id))
    && (forall id | id in s.live :: Known(table, steps, id))
    && (s.phase.Scanning? ==> forall id | id in s.phase.rows :: Known(table, steps, id))
  }

  /** Where the commands on the dispatcher, and those about to come, were before. */
  lemma ComesFrom(s: State, step: Step, id: string)
    requires Enabled(s, step)
    ensures id in Apply(s, step).live ==>
              id in s.live || (id in s.table && s.table[id].hasEnvelope) || (s.phase.Scanning? && id in s.phase.rows)
    ensures Apply(s, step).phase.Scanning? && id in Apply(s, step).phase.rows ==>
              (id in s.table && s.table[id].hasEnvelope) || (s.phase.Scanning? && id in s.phase.rows)
    ensures id in Apply(s, step).table && Apply(s, step).table[id].hasEnvelope ==>
              (id in s.table && s.table[id].hasEnvelope) || step == Commit(id, true)
  {
    if step.ScanRead? { EnvelopeOnce(s.table, step.rows, id); }
  }

  lemma {:induction false} EveryRunIsKnown(table: map<string, Row>, steps: seq<Step>)
    requires Possible(table, steps)
    ensures AllKnown(table, steps, Ran(table, steps))
    decreases |steps|
  {
    if steps != [] {
      var before, step := steps[..|steps| - 1], steps[|steps| - 1];
      EveryRunIsKnown(table, before);
      var s, next := Ran(table, before), Ran(table, steps);
      forall id: string
        ensures id in next.live ==> Known(table, steps, id)
        ensures id in next.table && next.table[id].hasEnvelope ==> Known(table, steps, id)
        ensures next.phase.Scanning? && id in next.phase.rows ==> Known(table, steps, id)
      {
        ComesFrom(s, step, id);
        if Known(table, before, id) { KnownStays(table, steps, id); }
        if step == Commit(id, true) { assert steps[|before|] == step; }
      }
    }
  }

  /** The bridge delivers only commands that were issued with an envelope: every command it ever puts on
      the dispatcher was in the table at the start or is committed in the run, with one. */
  lemma OnlyIssuedCommandsReachTheDispatcher(table: map<string, Row>, steps: seq<Step>, id: string)
    requires Possible(table, steps) && id in Ran(table, steps).live
    ensures Known(table, steps, id)
  {
    EveryRunIsKnown(table, steps);
  }
}
