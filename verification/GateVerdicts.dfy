/** The verdict of both replay gates on every arrival of every run, stated on the envelope and on
    what arrived before it. */
module GateVerdicts {
  import opened Digests
  import opened ReplayGates

  // ---------------------------------------------------------------- the agent's verifier

  /** The server's key signed exactly this body. */
  predicate Signed(p: Policy, env: Envelope) {
    env.signer == p.serverKey && env.signedBody == env.body
  }

  predicate Allowed(p: Policy, b: Body) {
    b.action.Some? && b.action.value in p.allowed
  }

  /** Not expired, and issued neither more than `skew` ahead nor more than twice `skew` ago. */
  predicate Timely(p: Policy, b: Body, now: int) {
    && (b.expiresAt.Some? ==> now <= b.expiresAt.value)
    && (b.issuedAt.Some? ==> now - 2 * p.skew <= b.issuedAt.value <= now + p.skew)
  }

  predicate InOrder(p: Policy, a: Arrival) {
    Signed(p, a.env) && Allowed(p, a.env.body) && a.env.body.risk <= p.maxRisk && Timely(p, a.env.body, a.now)
  }

  /** The sequence is above zero and above that of every earlier arrival that was in order. */
  predicate NewSequence(p: Policy, run: seq<Arrival>, sequence: nat) {
    sequence > 0 && forall i | 0 <= i < |run| && InOrder(p, run[i]) :: run[i].env.body.sequence < sequence
  }

  /** The last sequence is used up by every arrival in order, accepted or not, and by no other. */
  lemma {:induction false} SequencesUsedUp(p: Policy, run: seq<Arrival>, sequence: nat)
    ensures NewSequence(p, run, sequence) <==> sequence > GateAfter(p, run).lastSeq
    decreases |run|
  {
    if run != [] {
      var before, last := run[..|run| - 1], run[|run| - 1];
      SequencesUsedUp(p, before, sequence);
      assert NewSequence(p, run, sequence) <==>
          NewSequence(p, before, sequence) && (InOrder(p, last) ==> last.env.body.sequence < sequence) by {
        assert forall i | 0 <= i < |before| :: before[i] == run[i];
      }
    }
  }

  /** The nonce is none of the last min(n, cap) accepted ones. */
  predicate NewNonce(p: Policy, run: seq<Arrival>, nonce: string) {
    nonce !in LastN(Nonces(GateAccepted(p, run)), p.nonceCap)
  }

  /** The agent's verdict on an arrival after any run: accepted if and only if the server signed this
      very body, the action is allowed, the risk is not too high, expiry and issue time are in order,
      the sequence is new and the nonce is; otherwise the verdict names the first of these that fails. */
  lemma AgentVerdictExactly(p: Policy, run: seq<Arrival>, a: Arrival)
    ensures var v, b := GateAccept(p, GateAfter(p, run), a.env, a.now).1, a.env.body;
            var unused := NewSequence(p, run, b.sequence) && NewNonce(p, run, b.nonce);
            && (v == Accepted <==> Signed(p, a.env) && Allowed(p, b) && b.risk <= p.maxRisk && Timely(p, b, a.now) && unused)
            && (v == BadSignature <==> !Signed(p, a.env))
            && (v == ActionNotAllowed <==> Signed(p, a.env) && !Allowed(p, b))
            && (v == RiskTooHigh <==> Signed(p, a.env) && Allowed(p, b) && b.risk > p.maxRisk)
            && (v == Expired <==> Signed(p, a.env) && Allowed(p, b) && b.risk <= p.maxRisk && !Timely(p, b, a.now))
            && (v == Replay <==> InOrder(p, a) && !unused)
  {
    GateRun(p, run);
    SequencesUsedUp(p, run, a.env.body.sequence);
  }

  /** Forged or altered envelopes leave no trace: the gate is as if they had never arrived. */
  lemma RefusedEnvelopesChangeNothing(p: Policy, run: seq<Arrival>, a: Arrival)
    requires !InOrder(p, a)
    ensures GateAfter(p, run + [a]) == GateAfter(p, run) && GateAccepted(p, run + [a]) == GateAccepted(p, run)
  {
    assert (run + [a])[..|run|] == run;
    AgentVerdictExactly(p, run, a);
  }

  // ---------------------------------------------------------------- the server's store

  predicate NotFromTheFuture(l: Limits, d: Delivery) {
    d.body.issuedAt.Some? ==> d.body.issuedAt.value <= d.now + l.skew
  }

  /** A missing expiry reads as the epoch. */
  predicate Unexpired(d: Delivery) {
    d.now < if d.body.expiresAt.Some? then d.body.expiresAt.value else 0
  }

  /** Above zero, above the last accepted sequence, and not too far above it. */
  predicate NextSequence(l: Limits, acc: seq<Delivery>, sequence: nat) {
    && sequence > 0
    && (acc != [] ==> sequence > acc[|acc| - 1].body.sequence)
    && (acc != [] && l.maxForwardGap > 0 ==> sequence <= acc[|acc| - 1].body.sequence + l.maxForwardGap)
  }

  predicate NonceStored(l: Limits, acc: seq<Delivery>, nonce: string) {
    exists i :: 0 <= i < |acc| && i + l.window >= |acc| && acc[i].body.nonce == nonce
  }

  lemma {:induction false} LastIsLastAccepted(l: Limits, run: seq<Delivery>)
    ensures var acc := StoreAccepted(l, run);
            StoreAfter(l, run).last == if acc == [] then None else Some(acc[|acc| - 1].body.sequence)
    decreases |run|
  {
    if run != [] {
      var before, last := run[..|run| - 1], run[|run| - 1];
      LastIsLastAccepted(l, before);
      if StoreAccept(l, StoreAfter(l, before), last.body, last.now).1 != Accepted {
        assert StoreAccepted(l, run) == StoreAccepted(l, before);
      }
    }
  }

  lemma StoredNonces(l: Limits, run: seq<Delivery>, nonce: string)
    requires ClockForward(run)
    ensures HasNonce(StoreAfter(l, run).rows, nonce) <==> NonceStored(l, StoreAccepted(l, run), nonce)
  {
    StoreWindow(l, run);
    var acc := StoreAccepted(l, run);
    if HasNonce(StoreAfter(l, run).rows, nonce) { RowIsAccepted(l, acc, nonce); }
    if NonceStored(l, acc, nonce) { AcceptedIsRow(l, acc, nonce); }
  }

  lemma RowIsAccepted(l: Limits, acc: seq<Delivery>, nonce: string)
    requires HasNonce(LastN(Rows(acc), l.window), nonce)
    ensures NonceStored(l, acc, nonce)
  {
    var rows := LastN(Rows(acc), l.window);
    var i :| 0 <= i < |rows| && rows[i].nonce == nonce;
    var k := |acc| - |rows| + i;
    assert rows[i] == Rows(acc)[k];
    assert acc[k].body.nonce == nonce;
  }

  lemma AcceptedIsRow(l: Limits, acc: seq<Delivery>, nonce: string)
    requires NonceStored(l, acc, nonce)
    ensures HasNonce(LastN(Rows(acc), l.window), nonce)
  {
    var rows := LastN(Rows(acc), l.window);
    var k :| 0 <= k < |acc| && k + l.window >= |acc| && acc[k].body.nonce == nonce;
    var i := k - (|acc| - |rows|);
    assert rows[i] == Rows(acc)[k];
    assert rows[i].nonce == nonce;
  }

  /** The server's verdict after any run under a forward clock: accepted if and only if the command is
      not issued too far ahead, has not expired, its sequence follows the last accepted one within the
      allowed gap, and its nonce is none of the last min(n, window) accepted ones; otherwise the
      verdict names the first of these that fails. */
  lemma StoreVerdictExactly(l: Limits, run: seq<Delivery>, d: Delivery)
    requires ClockForward(run)
    ensures var v, acc := StoreAccept(l, StoreAfter(l, run), d.body, d.now).1, StoreAccepted(l, run);
            var timely, next := NotFromTheFuture(l, d) && Unexpired(d), NextSequence(l, acc, d.body.sequence);
            && (v == Accepted <==> timely && next && !NonceStored(l, acc, d.body.nonce))
            && (v == ClockSkew <==> !NotFromTheFuture(l, d))
            && (v == Expired <==> NotFromTheFuture(l, d) && !Unexpired(d))
            && (v == SequenceRegression <==> timely && !next)
            && (v == DuplicateNonce <==> timely && next && NonceStored(l, acc, d.body.nonce))
  {
    LastIsLastAccepted(l, run);
    StoredNonces(l, run, d.body.nonce);
    StoreVerdict(l, StoreAfter(l, run), StoreAccepted(l, run), d);
  }

  lemma StoreVerdict(l: Limits, h: HostRows, acc: seq<Delivery>, d: Delivery)
    requires h.last == if acc == [] then None else Some(acc[|acc| - 1].body.sequence)
    ensures var v := StoreAccept(l, h, d.body, d.now).1;
            var timely, next := NotFromTheFuture(l, d) && Unexpired(d), NextSequence(l, acc, d.body.sequence);
            && (v == Accepted <==> timely && next && !HasNonce(h.rows, d.body.nonce))
            && (v == ClockSkew <==> !NotFromTheFuture(l, d))
            && (v == Expired <==> NotFromTheFuture(l, d) && !Unexpired(d))
            && (v == SequenceRegression <==> timely && !next)
            && (v == DuplicateNonce <==> timely && next && HasNonce(h.rows, d.body.nonce))
  {
  }
}
