/** The in-memory audit chain: hash-linked entries, Merkle checkpoints and the verifier that
    the SQL chain shares with it. */
module AuditChain {
  import opened Digests
  import opened Signing
  import Merkle

  datatype Entry = Entry(content: Content, prevHash: Digest, entryHash: Digest)
  datatype Checkpoint = Checkpoint(
    sequence: nat, root: Digest, signature: Signature, pubkey: PublicKey, timestamp: int)

  function EntryHashes(entries: seq<Entry>): (r: seq<Digest>)
    ensures |r| == |entries|
  {
    seq(|entries|, i requires 0 <= i < |entries| => entries[i].entryHash)
  }

  function HeadHash(entries: seq<Entry>): Digest {
    if entries == [] then Genesis else entries[|entries| - 1].entryHash
  }

  function Seal(content: Content, prev: Digest): Entry {
    Entry(content, prev, EntryHash(content, prev))
  }

  function SignCheckpoint(leaves: seq<Entry>, sequence: nat, key: Key, timestamp: int): Checkpoint {
    var root := Merkle.Root(EntryHashes(leaves));
    Checkpoint(sequence, root, Sig(key, CheckpointMessage(sequence, root)), Pem(key), timestamp)
  }

  // ---------------------------------------------------------------- verification

  predicate LinkOk(entries: seq<Entry>, i: nat)
    requires i < |entries|
  {
    && entries[i].prevHash == HeadHash(entries[..i])
    && entries[i].entryHash == EntryHash(entries[i].content, entries[i].prevHash)
  }

  predicate Linked(entries: seq<Entry>) {
    forall i | 0 <= i < |entries| :: LinkOk(entries, i)
  }

  predicate CheckpointOk(entries: seq<Entry>, c: Checkpoint) {
    && c.sequence < |entries|
    && c.root == Merkle.Root(EntryHashes(entries[..c.sequence + 1]))
    && VerifyWithPubkey(CheckpointMessage(c.sequence, c.root), c.signature, c.pubkey)
  }

  predicate Accepted(entries: seq<Entry>, checkpoints: seq<Checkpoint>) {
    && Linked(entries)
    && forall i | 0 <= i < |checkpoints| :: CheckpointOk(entries, checkpoints[i])
  }

  datatype Verdict = Verified | ChainBroken(entry: nat) | CheckpointError(checkpoint: nat)

  /** The verifier's walk: it accepts exactly the accepted chains and otherwise names the first
      broken link, or the first bad checkpoint of a well linked chain. */
  method VerifyChain(entries: seq<Entry>, checkpoints: seq<Checkpoint>) returns (v: Verdict)
    ensures v.Verified? <==> Accepted(entries, checkpoints)
    ensures v.ChainBroken? <==> !Linked(entries)
    ensures v.ChainBroken? ==>
              && v.entry < |entries| && !LinkOk(entries, v.entry)
              && forall i | 0 <= i < v.entry :: LinkOk(entries, i)
    ensures v.CheckpointError? ==>
              && v.checkpoint < |checkpoints| && !CheckpointOk(entries, checkpoints[v.checkpoint])
              && forall i | 0 <= i < v.checkpoint :: CheckpointOk(entries, checkpoints[i])
  {
    if entries != [] && entries[0].prevHash != Genesis {
      assert !LinkOk(entries, 0);
      return ChainBroken(0);
    }
    var i := 0;
    while i < |entries|
      invariant 0 <= i <= |entries|
      invariant forall j | 0 <= j < i :: LinkOk(entries, j)
    {
      if i > 0 && entries[i].prevHash != entries[i - 1].entryHash {
        assert !LinkOk(entries, i);
        return ChainBroken(i);
      }
      if EntryHash(entries[i].content, entries[i].prevHash) != entries[i].entryHash {
        assert !LinkOk(entries, i);
        return ChainBroken(i);
      }
      i := i + 1;
    }
    i := 0;
    while i < |checkpoints|
      invariant 0 <= i <= |checkpoints|
      invariant forall j | 0 <= j < i :: CheckpointOk(entries, checkpoints[j])
    {
      var c := checkpoints[i];
      if c.sequence >= |entries| {
        return CheckpointError(i);
      }
      var root := Merkle.MerkleRoot(EntryHashes(entries[..c.sequence + 1]));
      if root != c.root {
        return CheckpointError(i);
      }
      if !VerifyWithPubkey(CheckpointMessage(c.sequence, c.root), c.signature, c.pubkey) {
        return CheckpointError(i);
      }
      i := i + 1;
    }
    v := Verified;
  }

  // ---------------------------------------------------------------- operations

  datatype Log = Log(entries: seq<Entry>, checkpoints: seq<Checkpoint>, anchors: Anchors)

  datatype Op =
    | Append(timestamp: int, actor: string, action: string, subject: Option<string>, payload: string, now: int)
    | ForceCheckpoint(at: int)
    | RotateSigner(rotation: Rotation)

  function ContentOf(op: Op, sequence: nat): Content
    requires op.Append?
  {
    Content(sequence, op.timestamp, op.actor, op.action, op.subject, op.payload)
  }

  /** Checkpoint the whole chain, signed by the current key. */
  function Checkpointed(log: Log, timestamp: int): Log
    requires log.entries != []
  {
    log.(checkpoints := log.checkpoints + [SignCheckpoint(log.entries, |log.entries| - 1, log.anchors.current, timestamp)])
  }

  function Step(interval: int, log: Log, op: Op): Log
    requires interval != 0
  {
    match op
    case Append(_, _, _, _, _, now) =>
      var grown := log.(entries := log.entries + [Seal(ContentOf(op, |log.entries|), HeadHash(log.entries))]);
      if |grown.entries| % interval == 0 then Checkpointed(grown, now) else grown
    case ForceCheckpoint(at) =>
      if log.entries == [] then log else Checkpointed(log, at)
    case RotateSigner(r) => log.(anchors := Rotate(log.anchors, r))
  }

  class Chain {
    const backend: FileBackend
    const interval: int
    var entries: seq<Entry>
    var checkpoints: seq<Checkpoint>

    ghost predicate Valid()
      reads this, backend
    {
      backend.Valid() && interval != 0
    }

    function State(): Log
      reads this, backend
    {
      Log(entries, checkpoints, backend.State())
    }

    constructor (backend: FileBackend, interval: int)
      requires backend.Valid() && interval != 0
      ensures Valid() && this.backend == backend && this.interval == interval
      ensures State() == Log([], [], backend.State())
    {
      this.backend, this.interval := backend, interval;
      entries, checkpoints := [], [];
    }

    method AddCheckpoint(timestamp: int)
      requires Valid() && entries != []
      modifies this`checkpoints
      ensures State() == Checkpointed(old(State()), timestamp)
    {
      var root := Merkle.MerkleRoot(EntryHashes(entries));
      var sequence := |entries| - 1;
      var signature := backend.Sign(CheckpointMessage(sequence, root));
      var pub := backend.PublicKeyBytes();
      checkpoints := checkpoints + [Checkpoint(sequence, root, signature, pub, timestamp)];
    }

    method AppendEntry(op: Op) returns (entry: Entry)
      requires Valid() && op.Append?
      modifies this`entries, this`checkpoints
      ensures Valid() && State() == Step(interval, old(State()), op)
      ensures entries == old(entries) + [entry]
    {
      var prev := if entries == [] then Genesis else entries[|entries| - 1].entryHash;
      entry := Seal(ContentOf(op, |entries|), prev);
      entries := entries + [entry];
      if |entries| % interval == 0 {
        AddCheckpoint(op.now);
      }
    }

    method Force(at: int) returns (ok: bool)
      requires Valid()
      modifies this`checkpoints
      ensures Valid() && State() == Step(interval, old(State()), ForceCheckpoint(at))
      ensures ok <==> entries != []
    {
      ok := entries != [];
      if ok {
        AddCheckpoint(at);
      }
    }

    method Verify() returns (v: Verdict)
      ensures v.Verified? <==> Accepted(entries, checkpoints)
      ensures v.ChainBroken? <==> !Linked(entries)
    {
      v := VerifyChain(entries, checkpoints);
    }
  }

  // ---------------------------------------------------------------- whole runs

  function RunOf(interval: int, key: Key, ops: seq<Op>): Log
    requires interval != 0
  {
    if ops == [] then Log([], [], Anchors(key, map[], []))
    else Step(interval, RunOf(interval, key, ops[..|ops| - 1]), ops[|ops| - 1])
  }

  /** Growing a linked chain by one sealed entry keeps it linked. */
  lemma SealKeepsLinks(entries: seq<Entry>, e: Entry)
    requires Linked(entries) && e == Seal(e.content, HeadHash(entries))
    ensures Linked(entries + [e])
  {
    var grown := entries + [e];
    forall i | 0 <= i < |grown|
      ensures LinkOk(grown, i)
    {
      assert grown[..i] == entries[..i];
      if i < |entries| {
        assert LinkOk(entries, i);
      } else {
        assert entries[..i] == entries;
      }
    }
  }

  lemma CheckpointSurvivesGrowth(entries: seq<Entry>, more: seq<Entry>, c: Checkpoint)
    requires CheckpointOk(entries, c)
    ensures CheckpointOk(entries + more, c)
  {
    assert (entries + more)[..c.sequence + 1] == entries[..c.sequence + 1];
  }

  lemma FreshCheckpointOk(entries: seq<Entry>, key: Key, timestamp: int)
    requires entries != []
    ensures CheckpointOk(entries, SignCheckpoint(entries, |entries| - 1, key, timestamp))
  {
    assert entries[..|entries|] == entries;
  }

  /** Every operation, key rotation included, keeps the chain acceptable and only ever extends
      the entries and the checkpoints. */
  lemma StepKeepsAccepted(interval: int, log: Log, op: Op)
    requires interval != 0 && Accepted(log.entries, log.checkpoints)
    ensures var next := Step(interval, log, op);
            && Accepted(next.entries, next.checkpoints)
            && log.entries <= next.entries && log.checkpoints <= next.checkpoints
  {
    match op
    case Append(_, _, _, _, _, now) =>
      var e := Seal(ContentOf(op, |log.entries|), HeadHash(log.entries));
      SealKeepsLinks(log.entries, e);
      forall i | 0 <= i < |log.checkpoints|
        ensures CheckpointOk(log.entries + [e], log.checkpoints[i])
      {
        CheckpointSurvivesGrowth(log.entries, [e], log.checkpoints[i]);
      }
      FreshCheckpointOk(log.entries + [e], log.anchors.current, now);
    case ForceCheckpoint(at) =>
      if log.entries != [] { FreshCheckpointOk(log.entries, log.anchors.current, at); }
    case RotateSigner(_) =>
  }

  lemma {:induction false} EveryRunVerifies(interval: int, key: Key, ops: seq<Op>)
    requires interval != 0
    ensures var log := RunOf(interval, key, ops); Accepted(log.entries, log.checkpoints)
    ensures forall i | 0 <= i < |RunOf(interval, key, ops).entries| ::
              RunOf(interval, key, ops).entries[i].content.sequence == i
    decreases |ops|
  {
    if ops != [] {
      var n := |ops| - 1;
      EveryRunVerifies(interval, key, ops[..n]);
      StepKeepsAccepted(interval, RunOf(interval, key, ops[..n]), ops[n]);
    }
  }

  // ---------------------------------------------------------------- what a run leaves in the log

  function Appends(ops: seq<Op>): seq<Op> {
    if ops == [] then []
    else Appends(ops[..|ops| - 1]) + if ops[|ops| - 1].Append? then [ops[|ops| - 1]] else []
  }

  /** The k-th entry of every run is the k-th append: position, time, actor, action, subject and
      payload as they were passed in. */
  lemma {:induction false} EntriesAreTheAppends(interval: int, key: Key, ops: seq<Op>)
    requires interval != 0
    ensures |RunOf(interval, key, ops).entries| == |Appends(ops)|
    ensures forall k | 0 <= k < |Appends(ops)| ::
              var op, content := Appends(ops)[k], RunOf(interval, key, ops).entries[k].content;
              && op.Append? && op in ops && content.sequence == k
              && content.timestamp == op.timestamp && content.actor == op.actor && content.action == op.action
              && content.subject == op.subject && content.payload == op.payload
    decreases |ops|
  {
    if ops != [] {
      EntriesAreTheAppends(interval, key, ops[..|ops| - 1]);
    }
  }

  /** The sequences from `lo` to before `hi` at which the interval is complete. */
  function DueIn(interval: int, lo: nat, hi: nat): (r: seq<nat>)
    requires interval != 0
    ensures forall q: nat :: q in r <==> lo <= q < hi && (q + 1) % interval == 0
    ensures forall i, j | 0 <= i < j < |r| :: r[i] < r[j]
  {
    if lo >= hi then []
    else
      var before := DueIn(interval, lo, hi - 1);
      assert forall i | 0 <= i < |before| :: before[i] in before ==> before[i] < hi - 1;
      before + if hi % interval == 0 then [hi - 1] else []
  }

  function Covered(cs: seq<Checkpoint>): (r: seq<nat>)
    ensures |r| == |cs| && forall i | 0 <= i < |cs| :: r[i] == cs[i].sequence
  {
    seq(|cs|, i requires 0 <= i < |cs| => cs[i].sequence)
  }

  predicate HasCheckpoint(cs: seq<Checkpoint>, q: nat) {
    exists i :: 0 <= i < |cs| && cs[i].sequence == q
  }

  /** Every complete interval has its checkpoint; without forced ones there are no others. */
  predicate Places(interval: int, cs: seq<Checkpoint>, lo: nat, hi: nat, forced: bool)
    requires interval != 0
  {
    && (forall q: nat | lo <= q < hi && (q + 1) % interval == 0 :: HasCheckpoint(cs, q))
    && (!forced ==> Covered(cs) == DueIn(interval, lo, hi))
  }

  lemma MoreCheckpoints(cs: seq<Checkpoint>, c: Checkpoint)
    ensures Covered(cs + [c]) == Covered(cs) + [c.sequence]
    ensures forall q: nat | HasCheckpoint(cs, q) || q == c.sequence :: HasCheckpoint(cs + [c], q)
  {
    var more := cs + [c];
    forall q: nat | HasCheckpoint(cs, q) || q == c.sequence
      ensures HasCheckpoint(more, q)
    {
      if q == c.sequence {
        assert more[|cs|].sequence == q;
      } else {
        var i :| 0 <= i < |cs| && cs[i].sequence == q;
        assert more[i].sequence == q;
      }
    }
  }

  /** One more entry that completes no interval. */
  lemma PlacesSkip(interval: int, cs: seq<Checkpoint>, lo: nat, hi: nat, forced: bool)
    requires interval != 0 && lo <= hi && Places(interval, cs, lo, hi, forced) && (hi + 1) % interval != 0
    ensures Places(interval, cs, lo, hi + 1, forced)
  {
  }

  /** One more entry that completes an interval, with its checkpoint. */
  lemma PlacesGrow(interval: int, cs: seq<Checkpoint>, lo: nat, hi: nat, forced: bool, c: Checkpoint)
    requires interval != 0 && lo <= hi && Places(interval, cs, lo, hi, forced)
    requires (hi + 1) % interval == 0 && c.sequence == hi
    ensures Places(interval, cs + [c], lo, hi + 1, forced)
  {
    MoreCheckpoints(cs, c);
  }

  lemma PlacesForced(interval: int, cs: seq<Checkpoint>, lo: nat, hi: nat, forced: bool, c: Checkpoint)
    requires interval != 0 && Places(interval, cs, lo, hi, forced)
    ensures Places(interval, cs + [c], lo, hi, true)
  {
    MoreCheckpoints(cs, c);
  }

  predicate HasForce(ops: seq<Op>) {
    exists i :: 0 <= i < |ops| && ops[i].ForceCheckpoint?
  }

  lemma {:induction false} RunPlaces(interval: int, key: Key, ops: seq<Op>)
    requires interval != 0
    ensures var log := RunOf(interval, key, ops); Places(interval, log.checkpoints, 0, |log.entries|, HasForce(ops))
    decreases |ops|
  {
    if ops != [] {
      var before, op := ops[..|ops| - 1], ops[|ops| - 1];
      var log := RunOf(interval, key, before);
      RunPlaces(interval, key, before);
      assert HasForce(ops) <==> HasForce(before) || op.ForceCheckpoint? by {
        assert forall i | 0 <= i < |before| :: before[i] == ops[i];
      }
      match op
      case Append(_, _, _, _, _, now) =>
        var grown := log.entries + [Seal(ContentOf(op, |log.entries|), HeadHash(log.entries))];
        if |grown| % interval == 0 {
          var c := SignCheckpoint(grown, |log.entries|, log.anchors.current, now);
          PlacesGrow(interval, log.checkpoints, 0, |log.entries|, HasForce(before), c);
        } else {
          PlacesSkip(interval, log.checkpoints, 0, |log.entries|, HasForce(before));
        }
      case ForceCheckpoint(at) =>
        if log.entries != [] {
          var c := SignCheckpoint(log.entries, |log.entries| - 1, log.anchors.current, at);
          PlacesForced(interval, log.checkpoints, 0, |log.entries|, HasForce(before), c);
        }
      case RotateSigner(_) =>
    }
  }

  /** In every run each complete interval of entries has a checkpoint that covers exactly up to its
      last entry. Without forced checkpoints these are all, in order. */
  lemma CheckpointsFallOnTheInterval(interval: int, key: Key, ops: seq<Op>)
    requires interval != 0
    ensures var log := RunOf(interval, key, ops);
            && (forall q: nat | q < |log.entries| && (q + 1) % interval == 0 :: HasCheckpoint(log.checkpoints, q))
            && ((forall i | 0 <= i < |ops| :: !ops[i].ForceCheckpoint?) ==>
                  && (forall i | 0 <= i < |log.checkpoints| ::
                        log.checkpoints[i].sequence < |log.entries| && (log.checkpoints[i].sequence + 1) % interval == 0)
                  && (forall i, j | 0 <= i < j < |log.checkpoints| ::
                        log.checkpoints[i].sequence < log.checkpoints[j].sequence))
  {
    var log := RunOf(interval, key, ops);
    RunPlaces(interval, key, ops);
    if !HasForce(ops) { DueListIsPlaced(interval, log.checkpoints, 0, |log.entries|); }
  }

  lemma DueListIsPlaced(interval: int, cs: seq<Checkpoint>, lo: nat, hi: nat)
    requires interval != 0 && Covered(cs) == DueIn(interval, lo, hi)
    ensures forall i | 0 <= i < |cs| :: lo <= cs[i].sequence < hi && (cs[i].sequence + 1) % interval == 0
    ensures forall i, j | 0 <= i < j < |cs| :: cs[i].sequence < cs[j].sequence
  {
    forall i | 0 <= i < |cs|
      ensures cs[i].sequence == Covered(cs)[i] && Covered(cs)[i] in DueIn(interval, lo, hi)
    {
    }
  }

  /** One history per head: two accepted chains with the same head hash are entry-for-entry
      equal, whatever their lengths and sequence numbers claim. */
  lemma {:induction false} HeadDeterminesHistory(xs: seq<Entry>, ys: seq<Entry>)
    requires Linked(xs) && Linked(ys) && HeadHash(xs) == HeadHash(ys)
    ensures xs == ys
    decreases |xs|
  {
    if xs != [] { assert LinkOk(xs, |xs| - 1); }
    if ys != [] { assert LinkOk(ys, |ys| - 1); }
    if xs != [] && ys != [] {
      LinkedPrefix(xs, |xs| - 1);
      LinkedPrefix(ys, |ys| - 1);
      HeadDeterminesHistory(xs[..|xs| - 1], ys[..|ys| - 1]);
      assert xs == xs[..|xs| - 1] + [xs[|xs| - 1]];
      assert ys == ys[..|ys| - 1] + [ys[|ys| - 1]];
    }
  }

  lemma LinkedPrefix(entries: seq<Entry>, n: nat)
    requires Linked(entries) && n <= |entries|
    ensures Linked(entries[..n])
  {
    forall i | 0 <= i < n
      ensures LinkOk(entries[..n], i)
    {
      assert LinkOk(entries, i);
      assert entries[..n][..i] == entries[..i];
    }
  }

  /** The signed pair of a checkpoint pins every entry it covers: two accepted chains holding
      checkpoints with the same sequence and root agree on all entries up to it. */
  lemma CheckpointDeterminesHistory(xs: seq<Entry>, ys: seq<Entry>, c: Checkpoint, d: Checkpoint)
    requires Linked(xs) && Linked(ys) && CheckpointOk(xs, c) && CheckpointOk(ys, d)
    requires c.sequence == d.sequence && c.root == d.root
    ensures xs[..c.sequence + 1] == ys[..c.sequence + 1]
  {
    var n := c.sequence + 1;
    var hx, hy := EntryHashes(xs[..n]), EntryHashes(ys[..n]);
    Merkle.RootAndLengthDetermineLeaves(hx, hy);
    assert hx[n - 1] == hy[n - 1];
    LinkedPrefix(xs, n);
    LinkedPrefix(ys, n);
    HeadDeterminesHistory(xs[..n], ys[..n]);
  }

  /** How many entries stand behind a digest. */
  function ChainLength(d: Digest): nat {
    if d.EntryHash? then 1 + ChainLength(d.prev) else 0
  }

  lemma {:induction false} HashCountsEntries(entries: seq<Entry>, i: nat)
    requires Linked(entries) && i < |entries|
    ensures ChainLength(entries[i].entryHash) == i + 1
  {
    assert LinkOk(entries, i);
    if i > 0 { HashCountsEntries(entries, i - 1); }
  }

  // ---------------------------------------------------------------- stored keys and trust anchors

  /** The signature check the verifier's description promises: against the trust anchors. */
  predicate SignedByAnchor(anchors: Anchors, c: Checkpoint, now: int) {
    exists k :: k in Trusted(anchors, now) && VerifyWithPubkey(CheckpointMessage(c.sequence, c.root), c.signature, Pem(k))
  }

  /** The check the verifier makes instead accepts the head checkpoint under any key at all; the
      described one does so only for trusted keys. */
  lemma StoredKeyIsAcceptedWhateverItIs(entries: seq<Entry>, key: Key, timestamp: int, anchors: Anchors, now: int)
    requires Linked(entries) && entries != []
    ensures var c := SignCheckpoint(entries, |entries| - 1, key, timestamp);
            Accepted(entries, [c]) && (SignedByAnchor(anchors, c, now) <==> key in Trusted(anchors, now))
  {
    FreshCheckpointOk(entries, key, timestamp);
    var c := SignCheckpoint(entries, |entries| - 1, key, timestamp);
    assert key in Trusted(anchors, now) ==>
        VerifyWithPubkey(CheckpointMessage(c.sequence, c.root), c.signature, Pem(key));
  }

  function Rotations(ops: seq<Op>): seq<Rotation> {
    if ops == [] then []
    else
      Rotations(ops[..|ops| - 1]) + if ops[|ops| - 1].RotateSigner? then [ops[|ops| - 1].rotation] else []
  }

  lemma {:induction false} AnchorsOfRun(interval: int, key: Key, ops: seq<Op>)
    requires interval != 0
    ensures RunOf(interval, key, ops).anchors == AfterRotations(key, Rotations(ops))
    decreases |ops|
  {
    if ops != [] {
      AnchorsOfRun(interval, key, ops[..|ops| - 1]);
      var before := Rotations(ops[..|ops| - 1]);
      if ops[|ops| - 1].RotateSigner? {
        assert (before + [ops[|ops| - 1].rotation])[..|before|] == before;
      } else {
        assert Rotations(ops) == before;
      }
    }
  }

  /** A checkpoint the verifier accepts passes the described check exactly when its stored key is a
      trust anchor. */
  lemma AnchorCheckIsStoredKey(entries: seq<Entry>, c: Checkpoint, anchors: Anchors, now: int)
    requires CheckpointOk(entries, c)
    ensures SignedByAnchor(anchors, c, now) <==> c.pubkey.key in Trusted(anchors, now)
  {
    var m := CheckpointMessage(c.sequence, c.root);
    assert c.signature == Sig(c.pubkey.key, m);
    assert VerifyWithPubkey(m, c.signature, Pem(c.pubkey.key));
  }

  /** In every run of appends, forced checkpoints and rotations, the verifier accepts the chain, and
      the described check would accept all its checkpoints at `now` if and only if each signing key
      is the current one or is still published by its rotation. */
  lemma {:induction false} DescribedCheckAcceptsExactly(interval: int, key: Key, ops: seq<Op>, now: int)
    requires interval != 0
    ensures var log := RunOf(interval, key, ops);
            && Accepted(log.entries, log.checkpoints)
            && ((forall i | 0 <= i < |log.checkpoints| :: SignedByAnchor(log.anchors, log.checkpoints[i], now)) <==>
                forall i | 0 <= i < |log.checkpoints| ::
                  || log.checkpoints[i].pubkey.key == log.anchors.current
                  || PublishedKey(key, Rotations(ops), now, log.checkpoints[i].pubkey.key))
  {
    var log := RunOf(interval, key, ops);
    EveryRunVerifies(interval, key, ops);
    AnchorsOfRun(interval, key, ops);
    forall i | 0 <= i < |log.checkpoints|
      ensures SignedByAnchor(log.anchors, log.checkpoints[i], now) <==>
              || log.checkpoints[i].pubkey.key == log.anchors.current
              || PublishedKey(key, Rotations(ops), now, log.checkpoints[i].pubkey.key)
    {
      AnchorCheckIsStoredKey(log.entries, log.checkpoints[i], log.anchors, now);
      TrustedExactly(key, Rotations(ops), now, log.checkpoints[i].pubkey.key);
    }
  }
}
