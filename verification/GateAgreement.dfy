/** The agent's verifier and the server's store fed with the same traffic of one host: when the two
    gates accept the same bodies, and where they part. */
module GateAgreement {
  import opened Digests
  import opened ReplayGates

  /** What the server's store sees of the agent's arrivals. */
  function Deliveries(run: seq<Arrival>): (r: seq<Delivery>)
    ensures |r| == |run|
  {
    seq(|run|, i requires 0 <= i < |run| => Delivery(run[i].env.body, run[i].now))
  }

  function Bodies(ds: seq<Delivery>): (r: seq<Body>)
    ensures |r| == |ds|
  {
    seq(|ds|, i requires 0 <= i < |ds| => ds[i].body)
  }

  /** The checks that do not look at sequence or nonce pass at both gates. */
  predicate BothAdmit(p: Policy, l: Limits, a: Arrival) {
    && Admission(p, a.env, a.now) == Accepted
    && (a.env.body.issuedAt.Some? ==> a.env.body.issuedAt.value <= a.now + l.skew)
    && a.env.body.expiresAt.Some? && a.env.body.expiresAt.value > a.now
  }

  /** Equal windows, no limit on forward gaps, admitted traffic, a clock that does not run back. */
  ghost predicate SameTraffic(p: Policy, l: Limits, run: seq<Arrival>) {
    && p.nonceCap == l.window && l.maxForwardGap == 0
    && (forall i | 0 <= i < |run| :: BothAdmit(p, l, run[i]))
    && ClockForward(Deliveries(run))
  }

  function LastSequence(acc: seq<Body>): nat {
    if acc == [] then 0 else acc[|acc| - 1].sequence
  }

  /** A new nonce under a sequence above the last accepted one that the agent has already used up. */
  predicate UsedUp(p: Policy, before: seq<Arrival>, b: Body) {
    && b.nonce !in GateAfter(p, before).seen
    && LastSequence(GateAccepted(p, before)) < b.sequence <= GateAfter(p, before).lastSeq
  }

  predicate NoneUsedUp(p: Policy, run: seq<Arrival>) {
    run == [] || (NoneUsedUp(p, run[..|run| - 1]) && !UsedUp(p, run[..|run| - 1], run[|run| - 1].env.body))
  }

  predicate SameAccepted(p: Policy, l: Limits, run: seq<Arrival>) {
    Bodies(StoreAccepted(l, Deliveries(run))) == GateAccepted(p, run)
  }

  predicate SameAcceptedThroughout(p: Policy, l: Limits, run: seq<Arrival>) {
    SameAccepted(p, l, run) && (run != [] ==> SameAcceptedThroughout(p, l, run[..|run| - 1]))
  }

  // ---------------------------------------------------------------- the two states

  lemma DeliveriesOfPrefix(run: seq<Arrival>)
    requires run != []
    ensures Deliveries(run)[..|run| - 1] == Deliveries(run[..|run| - 1])
    ensures ClockForward(Deliveries(run)) ==> ClockForward(Deliveries(run[..|run| - 1]))
  {
    var all, before := Deliveries(run), Deliveries(run[..|run| - 1]);
    assert forall i | 0 <= i < |before| :: before[i] == all[i];
  }

  lemma SameTrafficPrefix(p: Policy, l: Limits, run: seq<Arrival>)
    requires run != [] && SameTraffic(p, l, run)
    ensures SameTraffic(p, l, run[..|run| - 1])
  {
    DeliveriesOfPrefix(run);
  }

  /** The store's last sequence is that of the last accepted body. */
  lemma {:induction false} StoreLastIsLastAccepted(l: Limits, run: seq<Delivery>)
    ensures var acc := StoreAccepted(l, run);
            StoreAfter(l, run).last == if acc == [] then None else Some(acc[|acc| - 1].body.sequence)
    decreases |run|
  {
    if run != [] {
      var before, last := run[..|run| - 1], run[|run| - 1];
      StoreLastIsLastAccepted(l, before);
      AcceptFacts(l, StoreAfter(l, before), last.body, last.now);
    }
  }

  lemma WindowsHoldSameNonces(acc: seq<Delivery>, window: nat, nonce: string)
    ensures HasNonce(LastN(Rows(acc), window), nonce) <==> nonce in SetOf(LastN(Nonces(Bodies(acc)), window))
  {
    var rows, nonces := LastN(Rows(acc), window), LastN(Nonces(Bodies(acc)), window);
    assert |rows| == |nonces|;
    assert forall i | 0 <= i < |rows| :: rows[i].nonce == nonces[i];
    if nonce in nonces {
      var i :| 0 <= i < |nonces| && nonces[i] == nonce;
      assert rows[i].nonce == nonce;
    }
  }

  /** While the gates have accepted the same bodies, the store knows the nonces the agent knows. */
  lemma NoncesCompare(p: Policy, l: Limits, run: seq<Arrival>, nonce: string)
    requires SameTraffic(p, l, run) && SameAccepted(p, l, run)
    ensures HasNonce(StoreAfter(l, Deliveries(run)).rows, nonce) <==> nonce in GateAfter(p, run).seen
  {
    GateRun(p, run);
    StoreWindow(l, Deliveries(run));
    WindowsHoldSameNonces(StoreAccepted(l, Deliveries(run)), l.window, nonce);
  }

  /** The store's last sequence is the last accepted one, which the agent's is never below. */
  lemma SequencesCompare(p: Policy, l: Limits, run: seq<Arrival>)
    requires SameAccepted(p, l, run)
    ensures var h := StoreAfter(l, Deliveries(run));
            (if h.last.Some? then h.last.value else 0) == LastSequence(GateAccepted(p, run)) <= GateAfter(p, run).lastSeq
  {
    GateRun(p, run);
    StoreLastIsLastAccepted(l, Deliveries(run));
    var acc := StoreAccepted(l, Deliveries(run));
    if acc != [] { assert Bodies(acc)[|acc| - 1] == acc[|acc| - 1].body; }
  }

  /** From there, the verdicts on an admitted body differ exactly when it is used up; the server
      then accepts what the agent refuses. */
  lemma VerdictsDifferExactly(p: Policy, l: Limits, run: seq<Arrival>, a: Arrival)
    requires SameTraffic(p, l, run) && SameAccepted(p, l, run) && BothAdmit(p, l, a)
    ensures var agent := GateAccept(p, GateAfter(p, run), a.env, a.now).1 == Accepted;
            var server := StoreAccept(l, StoreAfter(l, Deliveries(run)), a.env.body, a.now).1 == Accepted;
            && (agent != server <==> UsedUp(p, run, a.env.body))
            && (agent ==> server)
  {
    NoncesCompare(p, l, run, a.env.body.nonce);
    SequencesCompare(p, l, run);
  }

  lemma AcceptedOneMore(p: Policy, l: Limits, run: seq<Arrival>)
    requires run != [] && SameAccepted(p, l, run[..|run| - 1])
    ensures var before, a := run[..|run| - 1], run[|run| - 1];
            var agent := GateAccept(p, GateAfter(p, before), a.env, a.now).1 == Accepted;
            var server := StoreAccept(l, StoreAfter(l, Deliveries(before)), a.env.body, a.now).1 == Accepted;
            SameAccepted(p, l, run) <==> agent == server
  {
    var before, a := run[..|run| - 1], run[|run| - 1];
    DeliveriesOfPrefix(run);
    var was, acc := StoreAccepted(l, Deliveries(before)), StoreAccepted(l, Deliveries(run));
    var d := Delivery(a.env.body, a.now);
    assert Deliveries(run)[|run| - 1] == d;
    assert Bodies(was + [d]) == Bodies(was) + [a.env.body];
    assert was + [] == was;
  }

  /** For every run of the same traffic: both gates accept the same list at every point if and only
      if no arrival carries a new nonce under a sequence that the agent has used up. */
  lemma {:induction false} GatesAgreeExactly(p: Policy, l: Limits, run: seq<Arrival>)
    requires SameTraffic(p, l, run)
    ensures SameAcceptedThroughout(p, l, run) <==> NoneUsedUp(p, run)
    decreases |run|
  {
    if run != [] {
      var before := run[..|run| - 1];
      SameTrafficPrefix(p, l, run);
      GatesAgreeExactly(p, l, before);
      if SameAcceptedThroughout(p, l, before) {
        VerdictsDifferExactly(p, l, before, run[|run| - 1]);
        AcceptedOneMore(p, l, run);
      }
    }
  }

  // ---------------------------------------------------------------- how a sequence gets used up

  /** A fresh sequence with a nonce the agent remembers. */
  predicate KnownNonce(p: Policy, before: seq<Arrival>, b: Body) {
    b.sequence > GateAfter(p, before).lastSeq && b.nonce in GateAfter(p, before).seen
  }

  predicate NoKnownNonce(p: Policy, run: seq<Arrival>) {
    run == [] || (NoKnownNonce(p, run[..|run| - 1]) && !KnownNonce(p, run[..|run| - 1], run[|run| - 1].env.body))
  }

  lemma {:induction false} LastSeqIsLastAccepted(p: Policy, run: seq<Arrival>)
    requires NoKnownNonce(p, run)
    ensures GateAfter(p, run).lastSeq == LastSequence(GateAccepted(p, run))
    decreases |run|
  {
    if run != [] { LastSeqIsLastAccepted(p, run[..|run| - 1]); }
  }

  /** Only known nonces part the gates: without a fresh sequence under a known nonce they accept
      the same list. */
  lemma {:induction false} GatesAgreeWithoutKnownNonces(p: Policy, l: Limits, run: seq<Arrival>)
    requires SameTraffic(p, l, run) && NoKnownNonce(p, run)
    ensures NoneUsedUp(p, run) && SameAcceptedThroughout(p, l, run)
    decreases |run|
  {
    if run != [] {
      SameTrafficPrefix(p, l, run);
      GatesAgreeWithoutKnownNonces(p, l, run[..|run| - 1]);
      LastSeqIsLastAccepted(p, run[..|run| - 1]);
    }
    GatesAgreeExactly(p, l, run);
  }

  /** After the first such arrival `e`, which both refuse, the gates differ on the next admitted
      body with a new nonce if and only if its sequence is above the last accepted one and not above
      that of `e`. */
  lemma {:induction false} KnownNonceUsesUpSequenceOnlyAtTheAgent(p: Policy, l: Limits, run: seq<Arrival>, e: Arrival, b: Arrival)
    requires SameTraffic(p, l, run + [e]) && NoKnownNonce(p, run) && KnownNonce(p, run, e.env.body)
    requires BothAdmit(p, l, b) && b.env.body.nonce !in GateAfter(p, run).seen
    ensures SameAccepted(p, l, run + [e]) && GateAccepted(p, run + [e]) == GateAccepted(p, run)
    ensures var agent := GateAccept(p, GateAfter(p, run + [e]), b.env, b.now).1 == Accepted;
            var server := StoreAccept(l, StoreAfter(l, Deliveries(run + [e])), b.env.body, b.now).1 == Accepted;
            agent != server <==> LastSequence(GateAccepted(p, run)) < b.env.body.sequence <= e.env.body.sequence
  {
    var longer := run + [e];
    assert longer[..|run|] == run;
    assert BothAdmit(p, l, longer[|run|]);
    SameTrafficPrefix(p, l, longer);
    GatesAgreeWithoutKnownNonces(p, l, run);
    LastSeqIsLastAccepted(p, run);
    VerdictsDifferExactly(p, l, run, e);
    AcceptedOneMore(p, l, longer);
    VerdictsDifferExactly(p, l, longer, b);
  }
}
