/** The two replay gates: the agent's in-memory verifier and the server's SQLite-backed store.
    Both demand growing sequence numbers and remember a bounded window of nonces. */
module ReplayGates {
  import opened Digests

  datatype Body = Body(
    host: string, sequence: nat, nonce: string, action: Option<string>, risk: int,
    issuedAt: Option<int>, expiresAt: Option<int>)
  /** A signature is the signer's key and the signed body. */
  datatype Envelope = Envelope(body: Body, signer: nat, signedBody: Body)

  datatype Verdict =
    | Accepted | BadSignature | ActionNotAllowed | RiskTooHigh | Expired | Replay
    | ClockSkew | SequenceRegression | DuplicateNonce

  predicate Distinct<T(==)>(xs: seq<T>) {
    forall i, j | 0 <= i < j < |xs| :: xs[i] != xs[j]
  }

  // ---------------------------------------------------------------- the agent's verifier

  datatype Policy = Policy(serverKey: nat, allowed: set<string>, maxRisk: int, skew: int, nonceCap: nat)

  datatype Gate = Gate(lastSeq: nat, seen: set<string>, order: seq<string>)

  /** The stateless checks, in order. */
  function Admission(p: Policy, env: Envelope, now: int): Verdict {
    var b := env.body;
    if env.signer != p.serverKey || env.signedBody != b then BadSignature
    else if b.action.None? || b.action.value !in p.allowed then ActionNotAllowed
    else if b.risk > p.maxRisk then RiskTooHigh
    else if b.expiresAt.Some? && b.expiresAt.value < now then Expired
    else if b.issuedAt.Some? && (b.issuedAt.value > now + p.skew || b.issuedAt.value < now - 2 * p.skew) then Expired
    else Accepted
  }

  function SetOf(xs: seq<string>): set<string> {
    set x | x in xs
  }

  function GateAccept(p: Policy, g: Gate, env: Envelope, now: int): (Gate, Verdict) {
    var admission := Admission(p, env, now);
    var b := env.body;
    if admission != Accepted then (g, admission)
    else if b.sequence <= g.lastSeq then (g, Replay)
    else if b.nonce in g.seen then (g.(lastSeq := b.sequence), Replay)
    else
      var order := LastN(g.order + [b.nonce], p.nonceCap);
      (Gate(b.sequence, SetOf(order), order), Accepted)
  }

  predicate GateOk(p: Policy, g: Gate) {
    Distinct(g.order) && g.seen == SetOf(g.order) && |g.order| <= p.nonceCap
  }

  lemma PushKeepsDistinct(xs: seq<string>, x: string)
    requires Distinct(xs) && x !in xs
    ensures Distinct(xs + [x]) && SetOf(xs + [x]) == SetOf(xs) + {x}
  {
  }

  lemma PopKeepsDistinct(xs: seq<string>, n: nat)
    requires Distinct(xs) && |xs| > n
    ensures Distinct(xs[1..]) && SetOf(xs[1..]) == SetOf(xs) - {xs[0]}
    ensures LastN(xs[1..], n) == LastN(xs, n)
  {
    assert xs == [xs[0]] + xs[1..];
  }

  lemma LastNKeepsDistinct(xs: seq<string>, n: nat)
    requires Distinct(xs)
    ensures Distinct(LastN(xs, n)) && |LastN(xs, n)| <= n
  {
  }

  class Verifier {
    const policy: Policy
    var lastSeq: nat
    var seenNonces: set<string>
    var nonceOrder: seq<string>

    function State(): Gate
      reads this
    {
      Gate(lastSeq, seenNonces, nonceOrder)
    }

    constructor (policy: Policy)
      ensures this.policy == policy && State() == Gate(0, {}, []) && GateOk(policy, State())
    {
      this.policy := policy;
      lastSeq, seenNonces, nonceOrder := 0, {}, [];
    }

    method Accept(env: Envelope, now: int) returns (v: Verdict)
      requires GateOk(policy, State())
      modifies this
      ensures GateOk(policy, State())
      ensures (State(), v) == GateAccept(policy, old(State()), env, now)
    {
      v := Admission(policy, env, now);
      if v != Accepted {
        return;
      }
      if env.body.sequence <= lastSeq {
        return Replay;
      }
      lastSeq := env.body.sequence;
      var nonce := env.body.nonce;
      if nonce in seenNonces {
        return Replay;
      }
      PushKeepsDistinct(nonceOrder, nonce);
      seenNonces := seenNonces + {nonce};
      nonceOrder := nonceOrder + [nonce];
      EvictOldest();
      v := Accepted;
    }

    /** The eviction loop: first in, first out. */
    method EvictOldest()
      requires Distinct(nonceOrder) && seenNonces == SetOf(nonceOrder)
      modifies this`seenNonces, this`nonceOrder
      ensures nonceOrder == LastN(old(nonceOrder), policy.nonceCap)
      ensures Distinct(nonceOrder) && seenNonces == SetOf(nonceOrder)
    {
      while |nonceOrder| > policy.nonceCap
        invariant Distinct(nonceOrder) && seenNonces == SetOf(nonceOrder)
        invariant LastN(nonceOrder, policy.nonceCap) == LastN(old(nonceOrder), policy.nonceCap)
        decreases |nonceOrder|
      {
        var oldest := nonceOrder[0];
        PopKeepsDistinct(nonceOrder, policy.nonceCap);
        nonceOrder := nonceOrder[1..];
        seenNonces := seenNonces - {oldest};
      }
    }
  }

  datatype Arrival = Arrival(env: Envelope, now: int)

  function GateAfter(p: Policy, run: seq<Arrival>): Gate {
    if run == [] then Gate(0, {}, [])
    else GateAccept(p, GateAfter(p, run[..|run| - 1]), run[|run| - 1].env, run[|run| - 1].now).0
  }

  /** The bodies the gate accepted, in order. */
  function GateAccepted(p: Policy, run: seq<Arrival>): seq<Body> {
    if run == [] then []
    else
      var before := run[..|run| - 1];
      var last := run[|run| - 1];
      GateAccepted(p, before) +
      if GateAccept(p, GateAfter(p, before), last.env, last.now).1 == Accepted then [last.env.body] else []
  }

  function Nonces(bs: seq<Body>): (r: seq<string>)
    ensures |r| == |bs|
  {
    seq(|bs|, i requires 0 <= i < |bs| => bs[i].nonce)
  }

  predicate Growing(bs: seq<Body>) {
    forall i, j | 0 <= i < j < |bs| :: bs[i].sequence < bs[j].sequence
  }

  /** Accepted sequences grow strictly, the set and the list of nonces agree, and the window is
      the last min(n, cap) accepted nonces. */
  predicate GateInv(p: Policy, g: Gate, acc: seq<Body>) {
    && GateOk(p, g) && Growing(acc)
    && (forall i | 0 <= i < |acc| :: acc[i].sequence <= g.lastSeq)
    && g.order == LastN(Nonces(acc), p.nonceCap)
  }

  lemma GateStep(p: Policy, g: Gate, acc: seq<Body>, env: Envelope, now: int)
    requires GateInv(p, g, acc)
    ensures var (g', v) := GateAccept(p, g, env, now);
            GateInv(p, g', if v == Accepted then acc + [env.body] else acc)
  {
    var (g', v) := GateAccept(p, g, env, now);
    if v == Accepted {
      PushKeepsDistinct(g.order, env.body.nonce);
      LastNKeepsDistinct(g.order + [env.body.nonce], p.nonceCap);
      LastNStep(Nonces(acc), env.body.nonce, p.nonceCap);
      assert Nonces(acc + [env.body]) == Nonces(acc) + [env.body.nonce];
    }
  }

  lemma {:induction false} GateRun(p: Policy, run: seq<Arrival>)
    ensures GateInv(p, GateAfter(p, run), GateAccepted(p, run))
    decreases |run|
  {
    if run != [] {
      var before, last := run[..|run| - 1], run[|run| - 1];
      GateRun(p, before);
      GateStep(p, GateAfter(p, before), GateAccepted(p, before), last.env, last.now);
      if GateAccept(p, GateAfter(p, before), last.env, last.now).1 != Accepted {
        assert GateAccepted(p, run) == GateAccepted(p, before);
      }
    }
  }

  lemma {:induction false} GateLastSeqGrows(p: Policy, run: seq<Arrival>, more: seq<Arrival>)
    ensures GateAfter(p, run).lastSeq <= GateAfter(p, run + more).lastSeq
    decreases |more|
  {
    if more == [] {
      assert run + more == run;
    } else {
      GateLastSeqGrows(p, run, more[..|more| - 1]);
      assert (run + more)[..|run + more| - 1] == run + more[..|more| - 1];
    }
  }

  /** An accepted envelope is never accepted again, however many later nonces evict its own. */
  lemma AcceptedStaysRejected(p: Policy, run: seq<Arrival>, a: Arrival, more: seq<Arrival>, now: int)
    requires GateAccept(p, GateAfter(p, run), a.env, a.now).1 == Accepted
    ensures GateAccept(p, GateAfter(p, run + [a] + more), a.env, now).1 != Accepted
  {
    assert (run + [a])[..|run|] == run;
    GateLastSeqGrows(p, run + [a], more);
  }

  // ---------------------------------------------------------------- the server's store

  datatype Limits = Limits(window: nat, skew: int, maxForwardGap: nat)
  datatype Seen = Seen(nonce: string, at: int)
  /** Per host: the last sequence, when a row exists, and the nonce rows in row-id order. */
  datatype HostRows = HostRows(last: Option<nat>, rows: seq<Seen>)

  const NO_ROWS: HostRows := HostRows(None, [])

  function RowsOf(db: map<string, HostRows>, host: string): HostRows {
    if host in db then db[host] else NO_ROWS
  }

  predicate HasNonce(rows: seq<Seen>, nonce: string) {
    exists i :: 0 <= i < |rows| && rows[i].nonce == nonce
  }

  /** ORDER BY seen_at DESC, rowid DESC. */
  predicate Newer(rows: seq<Seen>, j: nat, i: nat)
    requires i < |rows| && j < |rows|
  {
    rows[j].at > rows[i].at || (rows[j].at == rows[i].at && j > i)
  }

  /** How many rows from index `k` on come before row `i` in that order. */
  function CountNewer(rows: seq<Seen>, i: nat, k: nat): nat
    requires i < |rows| && k <= |rows|
    decreases |rows| - k
  {
    if k == |rows| then 0 else (if Newer(rows, k, i) then 1 else 0) + CountNewer(rows, i, k + 1)
  }

  predicate AmongNewest(rows: seq<Seen>, window: nat, i: nat)
    requires i < |rows|
  {
    CountNewer(rows, i, 0) < window
  }

  /** The rows from `i` on that are among the `window` newest of all rows. */
  function KeepFrom(rows: seq<Seen>, window: nat, i: nat): seq<Seen>
    requires i <= |rows|
    decreases |rows| - i
  {
    if i == |rows| then []
    else (if AmongNewest(rows, window, i) then [rows[i]] else []) + KeepFrom(rows, window, i + 1)
  }

  function Trim(rows: seq<Seen>, window: nat): seq<Seen> {
    KeepFrom(rows, window, 0)
  }

  function StoreAccept(l: Limits, h: HostRows, b: Body, now: int): (HostRows, Verdict) {
    var last := if h.last.Some? then h.last.value else 0;
    if b.issuedAt.Some? && b.issuedAt.value > now + l.skew then (h, ClockSkew)
    else if (if b.expiresAt.Some? then b.expiresAt.value else 0) <= now then (h, Expired)
    else if b.sequence <= last then (h, SequenceRegression)
    else if l.maxForwardGap > 0 && h.last.Some? && b.sequence - last > l.maxForwardGap then (h, SequenceRegression)
    else if HasNonce(h.rows, b.nonce) then (h, DuplicateNonce)
    else (HostRows(Some(b.sequence), Trim(h.rows + [Seen(b.nonce, now)], l.window)), Accepted)
  }

  class PersistentReplayStore {
    const limits: Limits
    var db: map<string, HostRows>

    constructor (limits: Limits)
      ensures this.limits == limits && db == map[]
    {
      this.limits := limits;
      db := map[];
    }

    /** One transaction: every rejection leaves the whole database as it was. */
    method Accept(b: Body, now: int) returns (v: Verdict)
      modifies this
      ensures v == StoreAccept(limits, RowsOf(old(db), b.host), b, now).1
      ensures db == if v == Accepted then old(db)[b.host := StoreAccept(limits, RowsOf(old(db), b.host), b, now).0]
                    else old(db)
    {
      if b.issuedAt.Some? && b.issuedAt.value > now + limits.skew {
        return ClockSkew;
      }
      var expires := if b.expiresAt.Some? then b.expiresAt.value else 0;
      if expires <= now {
        return Expired;
      }
      var h := RowsOf(db, b.host);
      var last := if h.last.Some? then h.last.value else 0;
      if b.sequence <= last {
        return SequenceRegression;
      }
      if limits.maxForwardGap > 0 && h.last.Some? && b.sequence - last > limits.maxForwardGap {
        return SequenceRegression;
      }
      if HasNonce(h.rows, b.nonce) {
        return DuplicateNonce;
      }
      var rows := h.rows + [Seen(b.nonce, now)];
      db := db[b.host := HostRows(Some(b.sequence), Trim(rows, limits.window))];
      v := Accepted;
    }
  }

  // ---------------------------------------------------------------- trimming

  predicate ByTime(rows: seq<Seen>) {
    forall i, j | 0 <= i < j < |rows| :: rows[i].at <= rows[j].at
  }

  lemma {:induction false} CountByTime(rows: seq<Seen>, i: nat, k: nat)
    requires ByTime(rows) && i < |rows| && k <= |rows|
    ensures CountNewer(rows, i, k) == if k > i then |rows| - k else |rows| - 1 - i
    decreases |rows| - k
  {
    if k < |rows| { CountByTime(rows, i, k + 1); }
  }

  lemma {:induction false} KeepFromByTime(rows: seq<Seen>, window: nat, i: nat)
    requires ByTime(rows) && i <= |rows|
    ensures KeepFrom(rows, window, i) == if |rows| - i <= window then rows[i..] else rows[|rows| - window..]
    decreases |rows| - i
  {
    if i < |rows| {
      CountByTime(rows, i, 0);
      KeepFromByTime(rows, window, i + 1);
    }
  }

  lemma ByTimeSuffix(rows: seq<Seen>, row: Seen, n: nat)
    requires ByTime(rows + [row])
    ensures ByTime(LastN(rows, n) + [row])
  {
    var k := if |rows| <= n then 0 else |rows| - n;
    var all, part := rows + [row], LastN(rows, n) + [row];
    forall i, j | 0 <= i < j < |part|
      ensures part[i].at <= part[j].at
    {
      assert part[i] == all[k + i] && part[j] == all[k + j];
    }
  }

  /** Rows written under a clock that does not run backwards are trimmed first-in first-out. */
  lemma TrimByTime(rows: seq<Seen>, window: nat)
    requires ByTime(rows)
    ensures Trim(rows, window) == LastN(rows, window)
  {
    KeepFromByTime(rows, window, 0);
    assert rows[0..] == rows;
  }

  /** A row survives the trim exactly when it is among the newest. */
  lemma {:induction false} KeptExactly(rows: seq<Seen>, window: nat, i: nat, k: nat)
    requires i <= k < |rows| && Distinct(rows)
    ensures rows[k] in KeepFrom(rows, window, i) <==> AmongNewest(rows, window, k)
    decreases |rows| - i
  {
    var rest := KeepFrom(rows, window, i + 1);
    if i < k {
      KeptExactly(rows, window, i + 1, k);
      assert rows[i] != rows[k];
    } else {
      NeverKept(rows, window, i + 1, k);
    }
  }

  lemma {:induction false} NeverKept(rows: seq<Seen>, window: nat, i: nat, k: nat)
    requires k < i <= |rows| && Distinct(rows)
    ensures rows[k] !in KeepFrom(rows, window, i)
    decreases |rows| - i
  {
    if i < |rows| {
      NeverKept(rows, window, i + 1, k);
      assert rows[i] != rows[k];
    }
  }

  lemma {:induction false} CountBound(rows: seq<Seen>, i: nat, k: nat)
    requires i < |rows| && k <= |rows|
    ensures CountNewer(rows, i, k) <= |rows| - k - if k <= i then 1 else 0
    decreases |rows| - k
  {
    if k < |rows| { CountBound(rows, i, k + 1); }
  }

  /** When everything from `k` on except row `i` itself is newer than row `i`. */
  lemma {:induction false} CountAll(rows: seq<Seen>, i: nat, k: nat)
    requires i < |rows| && k <= |rows|
    requires forall j | k <= j < |rows| && j != i :: Newer(rows, j, i)
    ensures CountNewer(rows, i, k) == |rows| - k - if k <= i then 1 else 0
    decreases |rows| - k
  {
    if k < |rows| { CountAll(rows, i, k + 1); }
  }

  lemma {:induction false} CountMissesOne(rows: seq<Seen>, i: nat, m: nat, k: nat)
    requires i < |rows| && m < |rows| && m != i && !Newer(rows, m, i) && k <= |rows|
    ensures CountNewer(rows, i, k) <= |rows| - k - (if k <= i then 1 else 0) - (if k <= m then 1 else 0)
    decreases |rows| - k
  {
    if k < |rows| { CountMissesOne(rows, i, m, k + 1); }
  }

  /** With a full window in time order, inserting a row evicts the oldest row, rather than the
      new one, exactly when the new reading of the clock is not behind the oldest row. */
  lemma FullWindowEvictsOldestExactly(rows: seq<Seen>, added: Seen)
    requires ByTime(rows) && rows != [] && Distinct(rows + [added])
    ensures rows[0] !in Trim(rows + [added], |rows|) <==> added.at >= rows[0].at
    ensures added in Trim(rows + [added], |rows|) <==> added.at >= rows[0].at
  {
    var all, n := rows + [added], |rows|;
    KeptExactly(all, n, 0, 0);
    KeptExactly(all, n, 0, n);
    assert all[0] == rows[0] && all[n] == added;
    if added.at >= rows[0].at {
      CountAll(all, 0, 0);
      CountMissesOne(all, n, 0, 0);
    } else {
      CountMissesOne(all, 0, n, 0);
      CountAll(all, n, 0);
    }
  }

  // ---------------------------------------------------------------- runs of the store

  /** What one host sends, with the server's clock. */
  datatype Delivery = Delivery(body: Body, now: int)

  function StoreAfter(l: Limits, run: seq<Delivery>): HostRows {
    if run == [] then NO_ROWS
    else StoreAccept(l, StoreAfter(l, run[..|run| - 1]), run[|run| - 1].body, run[|run| - 1].now).0
  }

  function StoreAccepted(l: Limits, run: seq<Delivery>): seq<Delivery> {
    if run == [] then []
    else
      var before := run[..|run| - 1];
      var last := run[|run| - 1];
      StoreAccepted(l, before) +
      if StoreAccept(l, StoreAfter(l, before), last.body, last.now).1 == Accepted then [last] else []
  }

  function Rows(ds: seq<Delivery>): (r: seq<Seen>)
    ensures |r| == |ds|
  {
    seq(|ds|, i requires 0 <= i < |ds| => Seen(ds[i].body.nonce, ds[i].now))
  }

  predicate ClockForward(run: seq<Delivery>) {
    forall i, j | 0 <= i < j < |run| :: run[i].now <= run[j].now
  }

  predicate GrowingTo(acc: seq<Delivery>, last: Option<nat>) {
    && (forall i, j | 0 <= i < j < |acc| :: acc[i].body.sequence < acc[j].body.sequence)
    && (forall i | 0 <= i < |acc| :: last.Some? && acc[i].body.sequence <= last.value)
  }

  lemma GrowByOne(acc: seq<Delivery>, last: Option<nat>, d: Delivery)
    requires GrowingTo(acc, last) && (last.Some? ==> d.body.sequence > last.value)
    ensures GrowingTo(acc + [d], Some(d.body.sequence))
  {
  }

  lemma AcceptFacts(l: Limits, h: HostRows, b: Body, now: int)
    ensures var (h', v) := StoreAccept(l, h, b, now);
            if v == Accepted then
              && (h.last.Some? ==> b.sequence > h.last.value)
              && h' == HostRows(Some(b.sequence), Trim(h.rows + [Seen(b.nonce, now)], l.window))
            else h' == h
  {
  }

  /** Accepted sequences grow strictly in every run. */
  lemma {:induction false} StoreSequencesGrow(l: Limits, run: seq<Delivery>)
    ensures GrowingTo(StoreAccepted(l, run), StoreAfter(l, run).last)
    decreases |run|
  {
    if run != [] {
      var before, last := run[..|run| - 1], run[|run| - 1];
      StoreSequencesGrow(l, before);
      AcceptFacts(l, StoreAfter(l, before), last.body, last.now);
      if StoreAccept(l, StoreAfter(l, before), last.body, last.now).1 == Accepted {
        GrowByOne(StoreAccepted(l, before), StoreAfter(l, before).last, last);
      } else {
        assert StoreAccepted(l, run) == StoreAccepted(l, before);
      }
    }
  }

  lemma {:induction false} AcceptedComeFromRun(l: Limits, run: seq<Delivery>, d: Delivery)
    requires d in StoreAccepted(l, run)
    ensures d in run
    decreases |run|
  {
    if d != run[|run| - 1] { AcceptedComeFromRun(l, run[..|run| - 1], d); }
  }

  lemma AcceptedByTime(l: Limits, run: seq<Delivery>, last: Delivery)
    requires ClockForward(run + [last]) && ByTime(Rows(StoreAccepted(l, run)))
    ensures ByTime(Rows(StoreAccepted(l, run)) + [Seen(last.body.nonce, last.now)])
  {
    var acc := StoreAccepted(l, run);
    forall i | 0 <= i < |acc|
      ensures acc[i].now <= last.now
    {
      AcceptedComeFromRun(l, run, acc[i]);
      var k :| 0 <= k < |run| && run[k] == acc[i];
      assert (run + [last])[k] == acc[i] && (run + [last])[|run|] == last;
    }
  }

  /** Under a forward clock the stored window is the last min(n, window) accepted nonces: the
      same window as the agent's first-in first-out list. */
  lemma {:induction false} StoreWindow(l: Limits, run: seq<Delivery>)
    requires ClockForward(run)
    ensures StoreAfter(l, run).rows == LastN(Rows(StoreAccepted(l, run)), l.window)
    ensures ByTime(Rows(StoreAccepted(l, run)))
    decreases |run|
  {
    if run != [] {
      var before, last := run[..|run| - 1], run[|run| - 1];
      StoreWindow(l, before);
      assert run == before + [last];
      AcceptedByTime(l, before, last);
      AcceptFacts(l, StoreAfter(l, before), last.body, last.now);
      if StoreAccept(l, StoreAfter(l, before), last.body, last.now).1 == Accepted {
        assert Rows(StoreAccepted(l, run)) == Rows(StoreAccepted(l, before)) + [Seen(last.body.nonce, last.now)];
        WindowStep(Rows(StoreAccepted(l, before)), Seen(last.body.nonce, last.now), l.window);
      } else {
        assert StoreAccepted(l, run) == StoreAccepted(l, before);
      }
    }
  }

  lemma WindowStep(rows: seq<Seen>, row: Seen, window: nat)
    requires ByTime(rows + [row])
    ensures Trim(LastN(rows, window) + [row], window) == LastN(rows + [row], window)
  {
    ByTimeSuffix(rows, row, window);
    TrimByTime(LastN(rows, window) + [row], window);
    LastNStep(rows, row, window);
  }

  lemma {:induction false} StoreLastGrows(l: Limits, run: seq<Delivery>, more: seq<Delivery>)
    ensures var a, b := StoreAfter(l, run).last, StoreAfter(l, run + more).last;
            a.Some? ==> b.Some? && a.value <= b.value
    decreases |more|
  {
    if more == [] {
      assert run + more == run;
    } else {
      StoreLastGrows(l, run, more[..|more| - 1]);
      assert (run + more)[..|run + more| - 1] == run + more[..|more| - 1];
    }
  }

  lemma StoredStaysRejected(l: Limits, run: seq<Delivery>, d: Delivery, more: seq<Delivery>, now: int)
    requires StoreAccept(l, StoreAfter(l, run), d.body, d.now).1 == Accepted
    ensures StoreAccept(l, StoreAfter(l, run + [d] + more), d.body, now).1 != Accepted
  {
    assert (run + [d])[..|run|] == run;
    StoreLastGrows(l, run + [d], more);
  }
}
