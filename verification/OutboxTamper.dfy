/** Which error the verification walk returns, and what it says about files somebody changed. */
module OutboxTamper {
  import opened Digests
  import opened Outbox

  /** What the walk finds wrong with one id, on its own. */
  datatype Defect = Sound | Absent | Unlinked | Tampered

  function DefectAt(cfg: Config, b: Box, id: nat): Defect {
    var found := Find(b.bucket, id);
    if found.None? then (if id in b.acked then Sound else Absent)
    else if id !in b.prev then Unlinked
    else if DecryptEntry(cfg.key, id, b.prev[id], found.value).None? then Tampered
    else Sound
  }

  /** `id` is the first unsound id of the box. */
  predicate FirstDefect(cfg: Config, b: Box, id: nat, d: Defect) {
    && 1 <= id <= b.lastId && DefectAt(cfg, b, id) == d && d != Sound
    && forall x: nat | 1 <= x < id :: DefectAt(cfg, b, x).Sound?
  }

  predicate AllSound(cfg: Config, b: Box) {
    forall x: nat | 1 <= x <= b.lastId :: DefectAt(cfg, b, x).Sound?
  }

  function ErrorOf(d: Defect, id: nat): Outcome<Sha>
    requires d != Sound
  {
    match d
    case Absent => ChainTruncated
    case Unlinked => MissingPrev(id)
    case Tampered => ChainBroken
  }

  lemma {:induction false} WalkStopsAtFirstDefect(cfg: Config, b: Box, id: nat, tip: Sha, x: nat, d: Defect)
    requires FirstDefect(cfg, b, x, d) && 1 <= id <= x
    ensures Walk(cfg, b, id, tip) == ErrorOf(d, x)
    decreases x - id
  {
    if id < x {
      assert DefectAt(cfg, b, id).Sound?;
      WalkStopsAtFirstDefect(cfg, b, id + 1, ChainTip(id, BlobAt(b, id).value, tip), x, d);
    }
  }

  /** The fold of the blobs the walk meets: 1, 2, ..., last_id. */
  function FoldOfBlobs(b: Box, id: nat): Sha {
    if id == 0 then Zeros
    else ChainTip(id, if BlobAt(b, id).Some? then BlobAt(b, id).value else [], FoldOfBlobs(b, id - 1))
  }

  lemma {:induction false} SoundWalkFolds(cfg: Config, b: Box, id: nat)
    requires AllSound(cfg, b) && 1 <= id <= b.lastId + 1
    ensures Walk(cfg, b, id, FoldOfBlobs(b, id - 1)) == Fine(FoldOfBlobs(b, b.lastId))
    decreases b.lastId + 1 - id
  {
    if id <= b.lastId {
      assert DefectAt(cfg, b, id).Sound?;
      SoundWalkFolds(cfg, b, id + 1);
    }
  }

  lemma {:induction false} SomeFirstDefect(cfg: Config, b: Box, n: nat) returns (x: nat)
    requires n <= b.lastId && exists y: nat :: 1 <= y <= n && !DefectAt(cfg, b, y).Sound?
    ensures FirstDefect(cfg, b, x, DefectAt(cfg, b, x))
  {
    if exists y: nat :: 1 <= y <= n - 1 && !DefectAt(cfg, b, y).Sound? {
      x := SomeFirstDefect(cfg, b, n - 1);
    } else {
      x := n;
    }
  }

  /** The walk's verdict for every box, whoever wrote it: an id that is neither present nor
      acknowledged is a truncation, a present id without previous digest is named, one that does not
      decrypt breaks the chain, whichever comes first; without any of these the chain is broken if
      and only if the stored tip is not the fold of the blobs. */
  lemma VerifyReturnsExactly(cfg: Config, b: Box)
    ensures Verify(cfg, b) == ChainTruncated <==> exists x: nat :: FirstDefect(cfg, b, x, Absent)
    ensures forall x: nat :: Verify(cfg, b) == MissingPrev(x) <==> FirstDefect(cfg, b, x, Unlinked)
    ensures Verify(cfg, b) == ChainBroken <==>
            || (exists x: nat :: FirstDefect(cfg, b, x, Tampered))
            || (AllSound(cfg, b) && b.lastId > 0 && b.tip.Some? && b.tip.value != FoldOfBlobs(b, b.lastId))
    ensures Verify(cfg, b) == Fine(()) <==>
            AllSound(cfg, b) && (b.lastId > 0 && b.tip.Some? ==> b.tip.value == FoldOfBlobs(b, b.lastId))
  {
    if AllSound(cfg, b) {
      if b.lastId > 0 { SoundWalkFolds(cfg, b, 1); }
      forall x: nat, d: Defect
        ensures !FirstDefect(cfg, b, x, d)
      {
      }
    } else {
      var x := SomeFirstDefect(cfg, b, b.lastId);
      var d := DefectAt(cfg, b, x);
      WalkStopsAtFirstDefect(cfg, b, 1, Zeros, x, d);
      forall y: nat, e: Defect | FirstDefect(cfg, b, y, e)
        ensures y == x && e == d
      {
      }
    }
  }

  // ---------------------------------------------------------------- changed files

  lemma GaplessRunIsSound(cfg: Config, ops: seq<Op>)
    requires PossibleRun(cfg, ops) && Gapless(After(cfg, ops).hist)
    ensures AllSound(cfg, After(cfg, ops).box)
    ensures After(cfg, ops).box.lastId > 0 ==>
              After(cfg, ops).box.tip == Some(FoldOfBlobs(After(cfg, ops).box, After(cfg, ops).box.lastId))
    ensures Sorted(After(cfg, ops).box.bucket)
  {
    EveryRunKeeps(cfg, ops);
    VerifyNilExactlyWhenGapless(cfg, ops);
    VerifyReturnsExactly(cfg, After(cfg, ops).box);
  }

  /** Removing a stored entry that was not acknowledged is reported as a truncation. */
  lemma RemovedEntryIsATruncation(cfg: Config, ops: seq<Op>, id: nat)
    requires PossibleRun(cfg, ops) && Gapless(After(cfg, ops).hist)
    requires Find(After(cfg, ops).box.bucket, id).Some?
    ensures var b := After(cfg, ops).box; Verify(cfg, b.(bucket := Delete(b.bucket, id))) == ChainTruncated
  {
    var b := After(cfg, ops).box;
    var b' := b.(bucket := Delete(b.bucket, id));
    GaplessRunIsSound(cfg, ops);
    EveryRunKeeps(cfg, ops);
    assert OnePlace(b, After(cfg, ops).hist, id);
    forall x: nat | 1 <= x <= b.lastId
      ensures DefectAt(cfg, b', x) == if x == id then Absent else Sound
    {
      FindAfterDelete(b.bucket, id, x);
      assert DefectAt(cfg, b, x).Sound?;
    }
    VerifyReturnsExactly(cfg, b');
    assert FirstDefect(cfg, b', id, Absent);
  }

  lemma {:induction false} FoldsDiffer(b: Box, b': Box, id: nat, n: nat)
    requires 1 <= id <= n && BlobAt(b, id).Some? && BlobAt(b', id).Some? && BlobAt(b, id) != BlobAt(b', id)
    ensures FoldOfBlobs(b, n) != FoldOfBlobs(b', n)
  {
    var x := if BlobAt(b, n).Some? then BlobAt(b, n).value else [];
    var y := if BlobAt(b', n).Some? then BlobAt(b', n).value else [];
    if FoldOfBlobs(b, n) == FoldOfBlobs(b', n) {
      ChainTipInjective(n, x, FoldOfBlobs(b, n - 1), n, y, FoldOfBlobs(b', n - 1));
      if id < n { FoldsDiffer(b, b', id, n - 1); }
    }
  }

  /** A box that differs from the agent's in one blob: present or acknowledged, with previous digests
      and everything else as they were. */
  ghost predicate OneBlobChanged(b: Box, b': Box, id: nat) {
    && b'.prev == b.prev && b'.tip == b.tip && b'.lastId == b.lastId
    && 1 <= id <= b.lastId && BlobAt(b', id).Some? && BlobAt(b', id) != BlobAt(b, id)
    && (Find(b'.bucket, id).Some? <==> Find(b.bucket, id).Some?)
    && forall x: nat | x != id ::
         Find(b'.bucket, x) == Find(b.bucket, x) && (x in b'.acked <==> x in b.acked)
         && (x in b.acked ==> b'.acked[x] == b.acked[x])
  }

  /** Changing the blob of any entry, sent or not, is reported as a broken chain: even where the new
      blob decrypts, the tip no longer comes out. */
  lemma ChangedBlobBreaksTheChain(cfg: Config, ops: seq<Op>, b': Box, id: nat)
    requires PossibleRun(cfg, ops) && Gapless(After(cfg, ops).hist)
    requires OneBlobChanged(After(cfg, ops).box, b', id)
    ensures Verify(cfg, b') == ChainBroken
  {
    var b := After(cfg, ops).box;
    GaplessRunIsSound(cfg, ops);
    forall x: nat | 1 <= x <= b.lastId && x != id
      ensures DefectAt(cfg, b', x).Sound?
    {
      assert DefectAt(cfg, b, x).Sound?;
    }
    assert DefectAt(cfg, b, id).Sound?;
    assert DefectAt(cfg, b', id).Sound? || DefectAt(cfg, b', id).Tampered?;
    VerifyReturnsExactly(cfg, b');
    if DefectAt(cfg, b', id).Tampered? {
      assert FirstDefect(cfg, b', id, Tampered);
    } else {
      FoldsDiffer(b, b', id, b.lastId);
    }
  }

  // ---------------------------------------------------------------- what each entry is sealed over

  /** No present entry lies strictly between the two ids. */
  predicate NothingBetween(bucket: seq<Item>, lo: nat, hi: nat) {
    forall i | 0 <= i < |bucket| :: !(lo < bucket[i].id < hi)
  }

  ghost predicate SealedOver(b: Box, hist: seq<Rec>, id: nat, k: nat) {
    && k < |hist| && hist[k].id < id && id in b.prev && b.prev[id] == EntryDigest(hist[k].id, hist[k].blob)
    && NothingBetween(b.bucket, hist[k].id, id)
  }

  /** The entry's previous digest is that of an appended entry right in front of it, sent or not; or it
      is zeros and no present entry is older. */
  ghost predicate SealOk(b: Box, hist: seq<Rec>, id: nat) {
    || (id in b.prev && b.prev[id] == Zeros && NothingBetween(b.bucket, 0, id))
    || exists k: nat :: SealedOver(b, hist, id, k)
  }

  ghost predicate AllSealed(b: Box, hist: seq<Rec>) {
    forall i | 0 <= i < |b.bucket| :: SealOk(b, hist, b.bucket[i].id)
  }

  /** Fewer entries and more history: seals stay. */
  lemma SealStays(b: Box, hist: seq<Rec>, b': Box, hist': seq<Rec>, id: nat)
    requires SealOk(b, hist, id) && hist <= hist'
    requires id in b.prev ==> id in b'.prev && b'.prev[id] == b.prev[id]
    requires forall i | 0 <= i < |b'.bucket| :: b'.bucket[i] in b.bucket || b'.bucket[i].id >= id
    ensures SealOk(b', hist', id)
  {
    forall lo: nat | NothingBetween(b.bucket, lo, id)
      ensures NothingBetween(b'.bucket, lo, id)
    {
    }
    if k: nat :| SealedOver(b, hist, id, k) {
      assert SealedOver(b', hist', id, k);
    }
  }

  lemma RetireKeepsSeals(b: Box, hist: seq<Rec>, id: nat)
    requires Sorted(b.bucket) && AllSealed(b, hist)
    ensures AllSealed(Retire(b, id), hist)
  {
    var b' := Retire(b, id);
    DeleteKeepsOrder(b.bucket, id);
    forall i | 0 <= i < |b'.bucket|
      ensures SealOk(b', hist, b'.bucket[i].id)
    {
      assert b'.bucket[i] in b.bucket;
      SealStays(b, hist, b', hist, b'.bucket[i].id);
    }
  }

  lemma {:induction false} CapsKeepSeals(cfg: Config, b: Box, hist: seq<Rec>)
    requires Sorted(b.bucket) && AllSealed(b, hist)
    ensures AllSealed(EnforceCap(cfg, b), hist)
    decreases |b.bucket|
  {
    if !(b.bucket == [] || (|b.bucket| <= cfg.maxEntries && TotalSize(b.bucket) <= cfg.maxBytes)) {
      RetireKeepsSeals(b, hist, b.bucket[0].id);
      CapsKeepSeals(cfg, Retire(b, b.bucket[0].id), hist);
    }
  }

  lemma NewestIsSealed(cfg: Config, r: Run, blob: Blob, b': Box, hist': seq<Rec>)
    requires Inv(cfg, r) && r.isOpen && r.hist <= hist'
    requires b'.bucket == r.box.bucket + [Item(r.box.nextId, blob)]
    requires b'.prev == r.box.prev[r.box.nextId := PrevHash(r.box)]
    ensures SealOk(b', hist', r.box.nextId)
  {
    var b := r.box;
    if b.bucket != [] {
      var last := b.bucket[|b.bucket| - 1];
      assert Genuine(cfg, b, r.hist, last);
      var k :| 0 <= k < |r.hist| && r.hist[k].id == last.id && r.hist[k].blob == last.blob
               && DecryptEntry(cfg.key, last.id, b.prev[last.id], last.blob) == Some(r.hist[k].payload);
      assert hist'[k] == r.hist[k];
      assert SealedOver(b', hist', b.nextId, k);
    }
  }

  lemma AppendKeepsSeals(cfg: Config, r: Run, nonce: seq<Atom>, payload: seq<nat>)
    requires Inv(cfg, r) && r.isOpen && IsNonce(nonce) && AllSealed(r.box, r.hist)
    ensures var r' := Step(cfg, r, AppendOk(nonce, payload)); AllSealed(r'.box, r'.hist)
  {
    var b, b' := r.box, Stored(cfg, r.box, nonce, payload);
    var hist' := Step(cfg, r, AppendOk(nonce, payload)).hist;
    StoredIsSorted(cfg, r, nonce, payload);
    PutAtEnd(b.bucket, b.nextId, NewBlob(cfg, b, nonce, payload));
    NewestIsSealed(cfg, r, NewBlob(cfg, b, nonce, payload), b', hist');
    forall i | 0 <= i < |b'.bucket|
      ensures SealOk(b', hist', b'.bucket[i].id)
    {
      if i < |b.bucket| {
        forall j | 0 <= j < |b'.bucket|
          ensures b'.bucket[j] in b.bucket || b'.bucket[j].id >= b.bucket[i].id
        {
          if j < |b.bucket| { assert b'.bucket[j] == b.bucket[j]; }
        }
        SealStays(b, r.hist, b', hist', b.bucket[i].id);
      }
    }
    CapsKeepSeals(cfg, b', hist');
  }

  /** In every run, each entry present is sealed over the digest of the entry that was right in front of
      it when it was appended, sent since or not, or over zeros when nothing was in front of it. */
  lemma {:induction false} EveryEntryIsSealedOverItsPredecessor(cfg: Config, ops: seq<Op>)
    requires PossibleRun(cfg, ops)
    ensures AllSealed(After(cfg, ops).box, After(cfg, ops).hist)
    decreases |ops|
  {
    if ops != [] {
      var before, op := ops[..|ops| - 1], ops[|ops| - 1];
      EveryEntryIsSealedOverItsPredecessor(cfg, before);
      EveryRunKeeps(cfg, before);
      var r, r' := After(cfg, before), After(cfg, ops);
      match op
      case AppendOk(nonce, payload) => AppendKeepsSeals(cfg, r, nonce, payload);
      case AckId(id) => RetireKeepsSeals(r.box, r.hist, id);
      case AppendFails => SameSeals(r.box, r'.box, r.hist);
      case Reopen => SameSeals(r.box, r'.box, r.hist);
    }
  }

  lemma SameSeals(b: Box, b': Box, hist: seq<Rec>)
    requires AllSealed(b, hist) && b'.bucket == b.bucket && b'.prev == b.prev
    ensures AllSealed(b', hist)
  {
    forall i | 0 <= i < |b'.bucket|
      ensures SealOk(b', hist, b'.bucket[i].id)
    {
      SealStays(b, hist, b', hist, b.bucket[i].id);
    }
  }
}
