/** The agent's outbox: an encrypted, hash-chained store with append, acknowledgement in any
    order, cap eviction, reopen and a full verification walk.

    Byte strings are sequences of fixed-width atoms: an 8-byte id, a 32-byte digest, an AEAD
    ciphertext or a single byte. Concatenation stays unframed, as in the code. */
module Outbox {
  import opened Digests

  datatype Atom =
    | U64(id: nat)
    | Hash32(digest: Sha)
    | Sealed(key: nat, nonce: seq<Atom>, aad: seq<Atom>, payload: seq<nat>)
    | Byte(value: nat)

  datatype Sha = Zeros | Sha256(preimage: seq<Atom>)

  type Blob = seq<Atom>

  const NONCE_LEN := 12

  function Width(a: Atom): nat {
    match a
    case U64(_) => 8
    case Hash32(_) => 32
    case Sealed(_, _, _, payload) => |payload| + 16
    case Byte(_) => 1
  }

  function Size(blob: Blob): nat {
    if blob == [] then 0 else Width(blob[0]) + Size(blob[1..])
  }

  // ---------------------------------------------------------------- outbox_chain.go

  function EntryDigest(id: nat, blob: Blob): Sha {
    Sha256([U64(id)] + blob)
  }

  function ChainTip(id: nat, blob: Blob, prev: Sha): Sha {
    Sha256([U64(id)] + blob + [Hash32(prev)])
  }

  function Aad(id: nat, prevHash: Sha): seq<Atom> {
    [U64(id), Hash32(prevHash)]
  }

  function EncryptEntry(key: nat, nonce: seq<Atom>, id: nat, prevHash: Sha, payload: seq<nat>): Blob {
    nonce + [Sealed(key, nonce, Aad(id, prevHash), payload)]
  }

  /** Opens exactly what was sealed under this key, nonce and associated data. */
  function DecryptEntry(key: nat, id: nat, prevHash: Sha, blob: Blob): Option<seq<nat>> {
    if |blob| != NONCE_LEN + 1 then None
    else
      var a := blob[NONCE_LEN];
      if a.Sealed? && a.key == key && a.nonce == blob[..NONCE_LEN] && a.aad == Aad(id, prevHash)
      then Some(a.payload) else None
  }

  /** The pre-image of a chain tip has no frame around the blob, yet it determines all three parts. */
  lemma ChainTipInjective(i: nat, a: Blob, s: Sha, j: nat, b: Blob, t: Sha)
    requires ChainTip(i, a, s) == ChainTip(j, b, t)
    ensures i == j && a == b && s == t
  {
    var x, y := [U64(i)] + a + [Hash32(s)], [U64(j)] + b + [Hash32(t)];
    assert x[0] == y[0] && x[|x| - 1] == y[|y| - 1];
    assert a == x[1..|x| - 1] && b == y[1..|y| - 1];
  }

  lemma DecryptUndoesEncrypt(key: nat, nonce: seq<Atom>, id: nat, prevHash: Sha, payload: seq<nat>)
    requires |nonce| == NONCE_LEN
    ensures DecryptEntry(key, id, prevHash, EncryptEntry(key, nonce, id, prevHash, payload)) == Some(payload)
  {
    assert EncryptEntry(key, nonce, id, prevHash, payload)[..NONCE_LEN] == nonce;
  }

  // ---------------------------------------------------------------- state

  datatype Item = Item(id: nat, blob: Blob)

  /** The entry bucket in key order, the metadata bucket split by key prefix (`lastId` is 0 and
      `tip` is None when absent) and the in-memory next id. */
  datatype Box = Box(
    bucket: seq<Item>, prev: map<nat, Sha>, acked: map<nat, Blob>,
    tip: Option<Sha>, lastId: nat, nextId: nat)

  datatype Config = Config(key: nat, maxEntries: int, maxBytes: int)

  function Find(bucket: seq<Item>, id: nat): Option<Blob> {
    if bucket == [] then None
    else if bucket[0].id == id then Some(bucket[0].blob)
    else Find(bucket[1..], id)
  }

  function Put(bucket: seq<Item>, id: nat, blob: Blob): seq<Item> {
    if bucket == [] || id < bucket[0].id then [Item(id, blob)] + bucket
    else if bucket[0].id == id then [Item(id, blob)] + bucket[1..]
    else [bucket[0]] + Put(bucket[1..], id, blob)
  }

  function Delete(bucket: seq<Item>, id: nat): seq<Item> {
    if bucket == [] then []
    else if bucket[0].id == id then bucket[1..]
    else [bucket[0]] + Delete(bucket[1..], id)
  }

  predicate Sorted(bucket: seq<Item>) {
    forall i, j | 0 <= i < j < |bucket| :: bucket[i].id < bucket[j].id
  }

  function TotalSize(bucket: seq<Item>): nat {
    if bucket == [] then 0 else TotalSize(bucket[..|bucket| - 1]) + Size(bucket[|bucket| - 1].blob)
  }

  function MaxId(bucket: seq<Item>): nat {
    if bucket == [] then 0 else bucket[|bucket| - 1].id
  }

  // ---------------------------------------------------------------- operations

  /** Move an entry from the bucket to the acknowledged blobs. */
  function Retire(b: Box, id: nat): Box {
    var found := Find(b.bucket, id);
    b.(bucket := Delete(b.bucket, id),
       acked := if found.Some? then b.acked[id := found.value] else b.acked,
       prev := b.prev - {id})
  }

  function EnforceCap(cfg: Config, b: Box): Box
    decreases |b.bucket|
  {
    if b.bucket == [] || (|b.bucket| <= cfg.maxEntries && TotalSize(b.bucket) <= cfg.maxBytes) then b
    else EnforceCap(cfg, Retire(b, b.bucket[0].id))
  }

  function PrevHash(b: Box): Sha {
    if b.bucket == [] then Zeros
    else EntryDigest(b.bucket[|b.bucket| - 1].id, b.bucket[|b.bucket| - 1].blob)
  }

  function NewBlob(cfg: Config, b: Box, nonce: seq<Atom>, payload: seq<nat>): Blob {
    EncryptEntry(cfg.key, nonce, b.nextId, PrevHash(b), payload)
  }

  function Stored(cfg: Config, b: Box, nonce: seq<Atom>, payload: seq<nat>): Box {
    var blob := NewBlob(cfg, b, nonce, payload);
    Box(Put(b.bucket, b.nextId, blob),
        b.prev[b.nextId := PrevHash(b)],
        b.acked,
        Some(ChainTip(b.nextId, blob, if b.tip.Some? then b.tip.value else Zeros)),
        b.nextId,
        b.nextId + 1)
  }

  function Append(cfg: Config, b: Box, nonce: seq<Atom>, payload: seq<nat>): Box {
    EnforceCap(cfg, Stored(cfg, b, nonce, payload))
  }

  /** A failed transaction leaves the buckets alone but has already taken the id. */
  function FailedAppend(b: Box): Box {
    b.(nextId := b.nextId + 1)
  }

  /** `init` refuses when the newest id is gone while older entries remain. */
  predicate RefusesToOpen(b: Box) {
    b.lastId > 0 && MaxId(b.bucket) > 0 && b.lastId > MaxId(b.bucket)
  }

  function Reopened(b: Box): Box {
    b.(nextId := MaxId(b.bucket) + 1)
  }

  datatype Outcome<+T> = Fine(value: T) | MissingPrev(id: nat) | ChainBroken | ChainTruncated

  /** The verification walk from `id` with the tip recomputed so far. */
  function Walk(cfg: Config, b: Box, id: nat, tip: Sha): Outcome<Sha>
    decreases b.lastId + 1 - id
  {
    if id > b.lastId then Fine(tip)
    else
      var found := Find(b.bucket, id);
      if found.Some? then
        if id !in b.prev then MissingPrev(id)
        else if DecryptEntry(cfg.key, id, b.prev[id], found.value).None? then ChainBroken
        else Walk(cfg, b, id + 1, ChainTip(id, found.value, tip))
      else if id in b.acked then Walk(cfg, b, id + 1, ChainTip(id, b.acked[id], tip))
      else ChainTruncated
  }

  function Verify(cfg: Config, b: Box): Outcome<()> {
    if b.lastId == 0 then Fine(())
    else
      var walk := Walk(cfg, b, 1, Zeros);
      match walk
      case Fine(tip) => if b.tip.Some? && tip != b.tip.value then ChainBroken else Fine(())
      case MissingPrev(id) => MissingPrev(id)
      case ChainBroken => ChainBroken
      case ChainTruncated => ChainTruncated
  }

  datatype Message = Message(id: nat, payload: seq<nat>)

  function Peek(cfg: Config, b: Box, n: nat): Outcome<seq<Message>>
  {
    PeekFrom(cfg, b, 0, if n <= |b.bucket| then n else |b.bucket|)
  }

  function PeekFrom(cfg: Config, b: Box, i: nat, n: nat): Outcome<seq<Message>>
    requires i <= n <= |b.bucket|
    decreases n - i
  {
    if i == n then Fine([])
    else
      var item := b.bucket[i];
      if item.id !in b.prev then MissingPrev(item.id)
      else
        var p := DecryptEntry(cfg.key, item.id, b.prev[item.id], item.blob);
        if p.None? then ChainBroken
        else
          var rest := PeekFrom(cfg, b, i + 1, n);
          if rest.Fine? then Fine([Message(item.id, p.value)] + rest.value) else rest
  }

  lemma {:induction false} TotalSizeStep(bucket: seq<Item>, i: nat)
    requires i < |bucket|
    ensures TotalSize(bucket[..i + 1]) == TotalSize(bucket[..i]) + Size(bucket[i].blob)
  {
    assert bucket[..i + 1][..i] == bucket[..i];
  }

  // ---------------------------------------------------------------- the object

  class Store {
    const cfg: Config
    var bucket: seq<Item>
    var prev: map<nat, Sha>
    var acked: map<nat, Blob>
    var tip: Option<Sha>
    var lastId: nat
    var nextId: nat

    function State(): Box
      reads this
    {
      Box(bucket, prev, acked, tip, lastId, nextId)
    }

    constructor (cfg: Config)
      ensures this.cfg == cfg && State() == Box([], map[], map[], None, 0, 1)
    {
      this.cfg := cfg;
      bucket, prev, acked, tip, lastId, nextId := [], map[], map[], None, 0, 1;
    }

    /** `init` on the files another process left. */
    method Open() returns (ok: bool)
      modifies this`nextId
      ensures ok <==> !RefusesToOpen(old(State()))
      ensures State() == if ok then Reopened(old(State())) else old(State())
    {
      var maxId := if bucket == [] then 0 else bucket[|bucket| - 1].id;
      if lastId > 0 && maxId > 0 && lastId > maxId {
        return false;
      }
      nextId := 0;
      if maxId > 0 {
        nextId := maxId + 1;
      }
      if nextId == 0 {
        nextId := 1;
      }
      ok := true;
    }

    /** `failed` is the environment's choice: the random source or the transaction fails. */
    method AppendMessage(nonce: seq<Atom>, payload: seq<nat>, failed: bool) returns (id: nat)
      modifies this
      ensures State() == if failed then FailedAppend(old(State())) else Append(cfg, old(State()), nonce, payload)
      ensures id == if failed then 0 else old(nextId)
    {
      var prevHash := Zeros;
      if bucket != [] {
        prevHash := EntryDigest(bucket[|bucket| - 1].id, bucket[|bucket| - 1].blob);
      }
      id := nextId;
      nextId := nextId + 1;
      if failed {
        return 0;
      }
      var blob := EncryptEntry(cfg.key, nonce, id, prevHash, payload);
      bucket := Put(bucket, id, blob);
      prev := prev[id := prevHash];
      var prevTip := if tip.Some? then tip.value else Zeros;
      tip := Some(ChainTip(id, blob, prevTip));
      lastId := id;
      EnforceCaps();
    }

    method EnforceCaps()
      modifies this`bucket, this`prev, this`acked
      ensures State() == EnforceCap(cfg, old(State()))
    {
      while true
        invariant EnforceCap(cfg, State()) == EnforceCap(cfg, old(State()))
        invariant tip == old(tip) && lastId == old(lastId) && nextId == old(nextId)
        decreases |bucket|
      {
        var count, size := 0, 0;
        while count < |bucket|
          invariant 0 <= count <= |bucket|
          invariant size == TotalSize(bucket[..count])
          modifies {}
        {
          TotalSizeStep(bucket, count);
          size := size + Size(bucket[count].blob);
          count := count + 1;
        }
        assert bucket[..count] == bucket;
        if count <= cfg.maxEntries && size <= cfg.maxBytes {
          return;
        }
        if bucket == [] {
          return;
        }
        var oldest := bucket[0];
        bucket := bucket[1..];
        acked := acked[oldest.id := oldest.blob];
        prev := prev - {oldest.id};
      }
    }

    method Ack(id: nat)
      modifies this`bucket, this`prev, this`acked
      ensures State() == Retire(old(State()), id)
    {
      var blob := Find(bucket, id);
      if blob.Some? {
        acked := acked[id := blob.value];
      }
      bucket := Delete(bucket, id);
      prev := prev - {id};
    }

    method PeekMessages(n: nat) returns (r: Outcome<seq<Message>>)
      ensures r == Peek(cfg, State(), n)
    {
      var stop := if n <= |bucket| then n else |bucket|;
      var out: seq<Message> := [];
      ghost var all := PeekFrom(cfg, State(), 0, stop);
      assert all.Fine? ==> out + all.value == all.value;
      var i := 0;
      while i < stop
        invariant 0 <= i <= stop
        invariant var rest := PeekFrom(cfg, State(), i, stop);
                  PeekFrom(cfg, State(), 0, stop) == if rest.Fine? then Fine(out + rest.value) else rest
      {
        var item := bucket[i];
        if item.id !in prev {
          return MissingPrev(item.id);
        }
        var p := DecryptEntry(cfg.key, item.id, prev[item.id], item.blob);
        if p.None? {
          return ChainBroken;
        }
        ghost var rest := PeekFrom(cfg, State(), i + 1, stop);
        ghost var here := [Message(item.id, p.value)];
        assert rest.Fine? ==> out + (here + rest.value) == (out + here) + rest.value;
        out := out + [Message(item.id, p.value)];
        i := i + 1;
      }
      assert out + [] == out;
      r := Fine(out);
    }

    method VerifyAll() returns (r: Outcome<()>)
      ensures r == Verify(cfg, State())
    {
      if lastId == 0 {
        return Fine(());
      }
      var walked := Zeros;
      var id := 1;
      while id <= lastId
        invariant 1 <= id <= lastId + 1
        invariant Walk(cfg, State(), 1, Zeros) == Walk(cfg, State(), id, walked)
      {
        var found := Find(bucket, id);
        if found.Some? {
          if id !in prev {
            return MissingPrev(id);
          }
          if DecryptEntry(cfg.key, id, prev[id], found.value).None? {
            return ChainBroken;
          }
          walked := ChainTip(id, found.value, walked);
        } else if id in acked {
          walked := ChainTip(id, acked[id], walked);
        } else {
          return ChainTruncated;
        }
        id := id + 1;
      }
      if tip.Some? && walked != tip.value {
        return ChainBroken;
      }
      r := Fine(());
    }
  }

  // ---------------------------------------------------------------- whole runs

  /** Everything that ever succeeded in being appended, in order. */
  datatype Rec = Rec(id: nat, blob: Blob, payload: seq<nat>)

  datatype Op =
    | AppendOk(nonce: seq<Atom>, payload: seq<nat>)
    | AppendFails
    | AckId(id: nat)
    | Reopen

  /** `isOpen` is false after a refused open: only another open can follow. */
  datatype Run = Run(box: Box, isOpen: bool, hist: seq<Rec>)

  const EMPTY: Run := Run(Box([], map[], map[], None, 0, 1), true, [])

  predicate IsNonce(nonce: seq<Atom>) {
    |nonce| == NONCE_LEN && forall i | 0 <= i < |nonce| :: nonce[i].Byte?
  }

  predicate Possible(r: Run, op: Op) {
    match op
    case AppendOk(nonce, _) => r.isOpen && IsNonce(nonce)
    case AppendFails => r.isOpen
    case AckId(_) => r.isOpen
    case Reopen => true
  }

  function Step(cfg: Config, r: Run, op: Op): Run {
    match op
    case AppendOk(nonce, payload) =>
      r.(box := Append(cfg, r.box, nonce, payload),
         hist := r.hist + [Rec(r.box.nextId, NewBlob(cfg, r.box, nonce, payload), payload)])
    case AppendFails => r.(box := FailedAppend(r.box))
    case AckId(id) => r.(box := Retire(r.box, id))
    case Reopen =>
      if RefusesToOpen(r.box) then r.(isOpen := false) else Run(Reopened(r.box), true, r.hist)
  }

  function After(cfg: Config, ops: seq<Op>): Run {
    if ops == [] then EMPTY else Step(cfg, After(cfg, ops[..|ops| - 1]), ops[|ops| - 1])
  }

  predicate PossibleRun(cfg: Config, ops: seq<Op>) {
    ops == [] || (PossibleRun(cfg, ops[..|ops| - 1]) && Possible(After(cfg, ops[..|ops| - 1]), ops[|ops| - 1]))
  }

  function Fold(hist: seq<Rec>): Sha {
    if hist == [] then Zeros
    else ChainTip(hist[|hist| - 1].id, hist[|hist| - 1].blob, Fold(hist[..|hist| - 1]))
  }

  /** The appended ids are 1, 2, ..., n. */
  predicate Gapless(hist: seq<Rec>) {
    forall i | 0 <= i < |hist| :: hist[i].id == i + 1
  }

  /** The entry came from an append and decrypts to what was appended. */
  ghost predicate Genuine(cfg: Config, b: Box, hist: seq<Rec>, item: Item) {
    && item.id in b.prev
    && exists k :: 0 <= k < |hist| && hist[k].id == item.id && hist[k].blob == item.blob
                   && DecryptEntry(cfg.key, item.id, b.prev[item.id], item.blob) == Some(hist[k].payload)
  }

  /** What every run keeps, gaps or not. */
  ghost predicate Inv(cfg: Config, r: Run) {
    && Sorted(r.box.bucket)
    && r.box.nextId >= 1
    && (r.isOpen ==> forall i | 0 <= i < |r.box.bucket| :: r.box.bucket[i].id < r.box.nextId)
    && (forall i | 0 <= i < |r.box.bucket| :: r.box.bucket[i].id >= 1)
    && r.box.tip == (if r.hist == [] then None else Some(Fold(r.hist)))
    && r.box.lastId == (if r.hist == [] then 0 else r.hist[|r.hist| - 1].id)
    && (forall i | 0 <= i < |r.hist| :: r.hist[i].id >= 1)
    && (forall i | 0 <= i < |r.box.bucket| :: Genuine(cfg, r.box, r.hist, r.box.bucket[i]))
  }

  /** Each appended id is in exactly one of bucket and acknowledged blobs, with its own blob. */
  ghost predicate Partition(b: Box, hist: seq<Rec>) {
    forall id: nat :: OnePlace(b, hist, id)
  }

  ghost predicate OnePlace(b: Box, hist: seq<Rec>, id: nat) {
    if 1 <= id <= |hist| then
      || (Find(b.bucket, id) == Some(hist[id - 1].blob) && id !in b.acked)
      || (Find(b.bucket, id) == None && id in b.acked && b.acked[id] == hist[id - 1].blob)
    else Find(b.bucket, id) == None && id !in b.acked
  }

  // ---------------------------------------------------------------- bucket lemmas

  lemma {:induction false} FindMeansPresent(bucket: seq<Item>, id: nat)
    requires Sorted(bucket)
    ensures Find(bucket, id).Some? <==> exists i :: 0 <= i < |bucket| && bucket[i].id == id
    ensures forall i | 0 <= i < |bucket| && bucket[i].id == id :: Find(bucket, id) == Some(bucket[i].blob)
  {
    if bucket != [] && bucket[0].id != id {
      FindMeansPresent(bucket[1..], id);
      forall i | 0 <= i < |bucket| && bucket[i].id == id
        ensures Find(bucket, id) == Some(bucket[i].blob)
      {
        assert bucket[1..][i - 1] == bucket[i];
      }
    }
  }

  lemma {:induction false} PutAtEnd(bucket: seq<Item>, id: nat, blob: Blob)
    requires forall i | 0 <= i < |bucket| :: bucket[i].id < id
    ensures Put(bucket, id, blob) == bucket + [Item(id, blob)]
  {
    if bucket != [] { PutAtEnd(bucket[1..], id, blob); }
  }

  lemma {:induction false} FindAfterPut(bucket: seq<Item>, id: nat, blob: Blob, x: nat)
    ensures Find(bucket + [Item(id, blob)], x) ==
            if Find(bucket, x).Some? then Find(bucket, x) else if x == id then Some(blob) else None
  {
    if bucket != [] {
      assert (bucket + [Item(id, blob)])[1..] == bucket[1..] + [Item(id, blob)];
      FindAfterPut(bucket[1..], id, blob, x);
    }
  }

  lemma {:induction false} DeleteKeepsOrder(bucket: seq<Item>, id: nat)
    requires Sorted(bucket)
    ensures Sorted(Delete(bucket, id))
    ensures forall item | item in Delete(bucket, id) :: item in bucket && item.id != id
  {
    if bucket != [] {
      if bucket[0].id == id {
        forall item | item in bucket[1..]
          ensures item.id != id
        {
        }
      } else {
        DeleteKeepsOrder(bucket[1..], id);
        var rest := Delete(bucket[1..], id);
        forall j | 0 <= j < |rest|
          ensures bucket[0].id < rest[j].id
        {
          assert rest[j] in bucket[1..];
        }
      }
    }
  }

  lemma {:induction false} FindAfterDelete(bucket: seq<Item>, id: nat, x: nat)
    requires Sorted(bucket)
    ensures Find(Delete(bucket, id), x) == if x == id then None else Find(bucket, x)
  {
    if bucket != [] {
      if bucket[0].id == id {
        FindMeansPresent(bucket[1..], id);
      } else {
        FindAfterDelete(bucket[1..], id, x);
      }
    }
  }

  // ---------------------------------------------------------------- every step keeps the invariant

  lemma GenuineMore(cfg: Config, b: Box, hist: seq<Rec>, item: Item, b': Box, more: seq<Rec>)
    requires Genuine(cfg, b, hist, item)
    requires item.id in b'.prev && b'.prev[item.id] == b.prev[item.id]
    ensures Genuine(cfg, b', hist + more, item)
  {
    var k :| 0 <= k < |hist| && hist[k].id == item.id && hist[k].blob == item.blob
             && DecryptEntry(cfg.key, item.id, b.prev[item.id], item.blob) == Some(hist[k].payload);
    assert (hist + more)[k] == hist[k];
  }

  lemma RetireKeepsInv(cfg: Config, r: Run, id: nat)
    requires Inv(cfg, r)
    ensures Inv(cfg, r.(box := Retire(r.box, id)))
  {
    var b, b' := r.box, Retire(r.box, id);
    DeleteKeepsOrder(b.bucket, id);
    forall i | 0 <= i < |b'.bucket|
      ensures Genuine(cfg, b', r.hist, b'.bucket[i])
    {
      var item := b'.bucket[i];
      assert item in b.bucket && item.id != id;
      GenuineMore(cfg, b, r.hist, item, b', []);
      assert r.hist + [] == r.hist;
    }
  }

  lemma RetireKeepsPartition(b: Box, hist: seq<Rec>, id: nat)
    requires Sorted(b.bucket) && Partition(b, hist)
    ensures Partition(Retire(b, id), hist)
  {
    forall x: nat
      ensures OnePlace(Retire(b, id), hist, x)
    {
      FindAfterDelete(b.bucket, id, x);
      assert OnePlace(b, hist, x) && OnePlace(b, hist, id);
    }
  }

  lemma {:induction false} EnforceCapKeeps(cfg: Config, r: Run)
    requires Inv(cfg, r)
    ensures Inv(cfg, r.(box := EnforceCap(cfg, r.box)))
    ensures Partition(r.box, r.hist) ==> Partition(EnforceCap(cfg, r.box), r.hist)
    ensures EnforceCap(cfg, r.box).nextId == r.box.nextId && EnforceCap(cfg, r.box).lastId == r.box.lastId
    decreases |r.box.bucket|
  {
    var b := r.box;
    if !(b.bucket == [] || (|b.bucket| <= cfg.maxEntries && TotalSize(b.bucket) <= cfg.maxBytes)) {
      var id := b.bucket[0].id;
      RetireKeepsInv(cfg, r, id);
      if Partition(b, r.hist) { RetireKeepsPartition(b, r.hist, id); }
      EnforceCapKeeps(cfg, r.(box := Retire(b, id)));
    }
  }

  lemma StoredIsGenuine(cfg: Config, r: Run, nonce: seq<Atom>, payload: seq<nat>, i: nat)
    requires Inv(cfg, r) && r.isOpen && IsNonce(nonce) && i <= |r.box.bucket|
    ensures var b' := Stored(cfg, r.box, nonce, payload);
            var rec := Rec(r.box.nextId, NewBlob(cfg, r.box, nonce, payload), payload);
            && b'.bucket == r.box.bucket + [Item(rec.id, rec.blob)]
            && Genuine(cfg, b', r.hist + [rec], b'.bucket[i])
  {
    var b, b' := r.box, Stored(cfg, r.box, nonce, payload);
    var rec := Rec(b.nextId, NewBlob(cfg, b, nonce, payload), payload);
    PutAtEnd(b.bucket, b.nextId, rec.blob);
    if i < |b.bucket| {
      assert b.bucket[i].id != b.nextId;
      GenuineMore(cfg, b, r.hist, b.bucket[i], b', [rec]);
    } else {
      DecryptUndoesEncrypt(cfg.key, nonce, b.nextId, PrevHash(b), payload);
      assert (r.hist + [rec])[|r.hist|] == rec;
    }
  }

  lemma StoredKeepsInv(cfg: Config, r: Run, nonce: seq<Atom>, payload: seq<nat>)
    requires Inv(cfg, r) && r.isOpen && IsNonce(nonce)
    ensures Inv(cfg, Run(Stored(cfg, r.box, nonce, payload), true,
                         r.hist + [Rec(r.box.nextId, NewBlob(cfg, r.box, nonce, payload), payload)]))
  {
    var b, b' := r.box, Stored(cfg, r.box, nonce, payload);
    var rec := Rec(b.nextId, NewBlob(cfg, b, nonce, payload), payload);
    StoredIsSorted(cfg, r, nonce, payload);
    FoldOneMore(r.hist, rec);
    forall i | 0 <= i < |b'.bucket|
      ensures Genuine(cfg, b', r.hist + [rec], b'.bucket[i])
    {
      StoredIsGenuine(cfg, r, nonce, payload, i);
    }
  }

  lemma FoldOneMore(hist: seq<Rec>, rec: Rec)
    ensures Fold(hist + [rec]) == ChainTip(rec.id, rec.blob, Fold(hist))
  {
    assert (hist + [rec])[..|hist|] == hist;
  }

  lemma StoredIsSorted(cfg: Config, r: Run, nonce: seq<Atom>, payload: seq<nat>)
    requires Inv(cfg, r) && r.isOpen
    ensures var b := Stored(cfg, r.box, nonce, payload);
            && |b.bucket| == |r.box.bucket| + 1 && Sorted(b.bucket)
            && forall i | 0 <= i < |b.bucket| :: 1 <= b.bucket[i].id < b.nextId
  {
    PutAtEnd(r.box.bucket, r.box.nextId, NewBlob(cfg, r.box, nonce, payload));
  }

  lemma StoredKeepsPartition(cfg: Config, r: Run, nonce: seq<Atom>, payload: seq<nat>)
    requires Inv(cfg, r) && r.isOpen && Partition(r.box, r.hist) && r.box.nextId == |r.hist| + 1
    ensures Partition(Stored(cfg, r.box, nonce, payload),
                      r.hist + [Rec(r.box.nextId, NewBlob(cfg, r.box, nonce, payload), payload)])
  {
    var b, b' := r.box, Stored(cfg, r.box, nonce, payload);
    var blob := NewBlob(cfg, b, nonce, payload);
    PutAtEnd(b.bucket, b.nextId, blob);
    forall id: nat
      ensures OnePlace(b', r.hist + [Rec(b.nextId, blob, payload)], id)
    {
      assert OnePlace(b, r.hist, id);
      FindAfterPut(b.bucket, b.nextId, blob, id);
    }
  }

  /** Changing only the next id or the open flag. */
  lemma SameEntriesKeepInv(cfg: Config, r: Run, nextId: nat, isOpen: bool)
    requires Inv(cfg, r) && nextId >= 1
    requires isOpen ==> forall i | 0 <= i < |r.box.bucket| :: r.box.bucket[i].id < nextId
    ensures Inv(cfg, Run(r.box.(nextId := nextId), isOpen, r.hist))
  {
    forall i | 0 <= i < |r.box.bucket|
      ensures Genuine(cfg, r.box.(nextId := nextId), r.hist, r.box.bucket[i])
    {
      assert Genuine(cfg, r.box, r.hist, r.box.bucket[i]);
    }
  }

  lemma {:induction false} StepKeepsInv(cfg: Config, r: Run, op: Op)
    requires Inv(cfg, r) && Possible(r, op)
    ensures Inv(cfg, Step(cfg, r, op))
  {
    match op
    case AppendOk(nonce, payload) =>
      StoredKeepsInv(cfg, r, nonce, payload);
      EnforceCapKeeps(cfg, Run(Stored(cfg, r.box, nonce, payload), true,
                               r.hist + [Rec(r.box.nextId, NewBlob(cfg, r.box, nonce, payload), payload)]));
    case AppendFails => SameEntriesKeepInv(cfg, r, r.box.nextId + 1, r.isOpen);
    case AckId(id) => RetireKeepsInv(cfg, r, id);
    case Reopen =>
      if RefusesToOpen(r.box) {
        SameEntriesKeepInv(cfg, r, r.box.nextId, false);
      } else {
        SameEntriesKeepInv(cfg, r, MaxId(r.box.bucket) + 1, true);
      }
  }

  lemma StepKeepsPartition(cfg: Config, r: Run, op: Op)
    requires Inv(cfg, r) && Possible(r, op)
    requires Gapless(r.hist) ==> Partition(r.box, r.hist)
    ensures var r' := Step(cfg, r, op); Gapless(r'.hist) ==> Partition(r'.box, r'.hist)
  {
    var r' := Step(cfg, r, op);
    if Gapless(r'.hist) {
      match op
      case AppendOk(nonce, payload) =>
        assert forall i | 0 <= i < |r.hist| :: r'.hist[i] == r.hist[i];
        assert r'.hist[|r.hist|].id == |r.hist| + 1;
        StoredKeepsInv(cfg, r, nonce, payload);
        StoredKeepsPartition(cfg, r, nonce, payload);
        EnforceCapKeeps(cfg, Run(Stored(cfg, r.box, nonce, payload), true, r'.hist));
      case AppendFails => SameBuckets(r.box, r'.box, r.hist);
      case AckId(id) => RetireKeepsPartition(r.box, r.hist, id);
      case Reopen => SameBuckets(r.box, r'.box, r.hist);
    }
  }

  lemma SameBuckets(b: Box, b': Box, hist: seq<Rec>)
    requires Partition(b, hist) && b'.bucket == b.bucket && b'.acked == b.acked
    ensures Partition(b', hist)
  {
    forall id: nat
      ensures OnePlace(b', hist, id)
    {
      assert OnePlace(b, hist, id);
    }
  }

  lemma {:induction false} EveryRunKeeps(cfg: Config, ops: seq<Op>)
    requires PossibleRun(cfg, ops)
    ensures Inv(cfg, After(cfg, ops))
    ensures Gapless(After(cfg, ops).hist) ==> Partition(After(cfg, ops).box, After(cfg, ops).hist)
    decreases |ops|
  {
    if ops == [] {
      forall id: nat
        ensures OnePlace(EMPTY.box, [], id)
      {
      }
    } else {
      var before := ops[..|ops| - 1];
      EveryRunKeeps(cfg, before);
      StepKeepsInv(cfg, After(cfg, before), ops[|ops| - 1]);
      StepKeepsPartition(cfg, After(cfg, before), ops[|ops| - 1]);
    }
  }

  // ---------------------------------------------------------------- verification

  /** The blob the walk uses for an id. */
  function BlobAt(b: Box, id: nat): Option<Blob> {
    if Find(b.bucket, id).Some? then Find(b.bucket, id)
    else if id in b.acked then Some(b.acked[id]) else None
  }

  /** A finished walk is the fold of the blobs it met. */
  lemma {:induction false} WalkIsFold(cfg: Config, b: Box, hist: seq<Rec>, id: nat)
    requires Gapless(hist) && 1 <= id && |hist| == b.lastId && id <= b.lastId + 1
    requires forall i | 1 <= i <= b.lastId :: BlobAt(b, i) == Some(hist[i - 1].blob)
    requires Walk(cfg, b, id, Fold(hist[..id - 1])).Fine?
    ensures Walk(cfg, b, id, Fold(hist[..id - 1])) == Fine(Fold(hist))
    decreases b.lastId + 1 - id
  {
    if id <= b.lastId {
      var upTo := hist[..id];
      assert upTo[..id - 1] == hist[..id - 1] && upTo[id - 1] == hist[id - 1];
      assert hist[id - 1].id == id && hist[..id + 1 - 1] == upTo;
      assert Fold(upTo) == ChainTip(id, hist[id - 1].blob, Fold(hist[..id - 1]));
      assert BlobAt(b, id) == Some(hist[id - 1].blob);
      assert Walk(cfg, b, id, Fold(hist[..id - 1])) == Walk(cfg, b, id + 1, Fold(upTo));
      WalkIsFold(cfg, b, hist, id + 1);
    } else {
      assert hist[..id - 1] == hist;
    }
  }

  /** The blobs that a successful walk met, as a history without gaps. */
  lemma {:induction false} WalkMeets(cfg: Config, b: Box, id: nat, tip: Sha) returns (met: seq<Rec>)
    requires 1 <= id <= b.lastId + 1 && Walk(cfg, b, id, tip).Fine?
    ensures |met| == b.lastId + 1 - id
    ensures forall i | 0 <= i < |met| :: met[i].id == id + i && BlobAt(b, id + i) == Some(met[i].blob)
    decreases b.lastId + 1 - id
  {
    met := [];
    if id <= b.lastId {
      var blob := BlobAt(b, id).value;
      var rest := WalkMeets(cfg, b, id + 1, ChainTip(id, blob, tip));
      met := [Rec(id, blob, [])] + rest;
    }
  }

  lemma {:induction false} FoldInjective(xs: seq<Rec>, ys: seq<Rec>)
    requires Fold(xs) == Fold(ys)
    ensures |xs| == |ys| && forall i | 0 <= i < |xs| :: xs[i].id == ys[i].id && xs[i].blob == ys[i].blob
    decreases |xs|
  {
    if xs != [] && ys != [] {
      var x, y := xs[|xs| - 1], ys[|ys| - 1];
      ChainTipInjective(x.id, x.blob, Fold(xs[..|xs| - 1]), y.id, y.blob, Fold(ys[..|ys| - 1]));
      FoldInjective(xs[..|xs| - 1], ys[..|ys| - 1]);
    }
  }

  lemma {:induction false} PartitionWalks(cfg: Config, r: Run, id: nat, tip: Sha)
    requires Inv(cfg, r) && Gapless(r.hist) && Partition(r.box, r.hist) && 1 <= id <= r.box.lastId + 1
    ensures Walk(cfg, r.box, id, tip).Fine?
    decreases r.box.lastId + 1 - id
  {
    if id <= r.box.lastId {
      assert OnePlace(r.box, r.hist, id);
      var found := Find(r.box.bucket, id);
      if found.Some? {
        FindMeansPresent(r.box.bucket, id);
        var i :| 0 <= i < |r.box.bucket| && r.box.bucket[i].id == id;
        assert Genuine(cfg, r.box, r.hist, r.box.bucket[i]);
        PartitionWalks(cfg, r, id + 1, ChainTip(id, found.value, tip));
      } else {
        PartitionWalks(cfg, r, id + 1, ChainTip(id, r.box.acked[id], tip));
      }
    }
  }

  /** A walk that ends well over a box with a stored tip gives back the fold of what it met. */
  lemma AcceptedTip(cfg: Config, b: Box) returns (met: seq<Rec>)
    requires b.lastId > 0 && b.tip.Some? && Verify(cfg, b) == Fine(())
    ensures |met| == b.lastId && Gapless(met) && b.tip.value == Fold(met)
    ensures forall id | 1 <= id <= b.lastId :: BlobAt(b, id) == Some(met[id - 1].blob)
  {
    met := WalkMeets(cfg, b, 1, Zeros);
    assert Fold(met[..0]) == Zeros;
    forall id | 1 <= id <= b.lastId
      ensures BlobAt(b, id) == Some(met[id - 1].blob)
    {
      assert met[id - 1].id == 1 + (id - 1);
    }
    WalkIsFold(cfg, b, met, 1);
  }

  /** In every run with appends, failed appends, acknowledgements in any order, evictions and
      reopens, `Verify` returns nil exactly when the appended ids are 1, 2, ..., n. */
  lemma VerifyNilExactlyWhenGapless(cfg: Config, ops: seq<Op>)
    requires PossibleRun(cfg, ops)
    ensures Verify(cfg, After(cfg, ops).box) == Fine(()) <==> Gapless(After(cfg, ops).hist)
  {
    var r := After(cfg, ops);
    EveryRunKeeps(cfg, ops);
    if r.hist != [] {
      if Gapless(r.hist) {
        PartitionWalks(cfg, r, 1, Zeros);
        assert r.hist[..0] == [];
        forall id | 1 <= id <= r.box.lastId
          ensures BlobAt(r.box, id) == Some(r.hist[id - 1].blob)
        {
          assert OnePlace(r.box, r.hist, id);
        }
        WalkIsFold(cfg, r.box, r.hist, 1);
      } else if Verify(cfg, r.box) == Fine(()) {
        var met := AcceptedTip(cfg, r.box);
        FoldInjective(r.hist, met);
      }
    }
  }

  /** The guard a caller can look at before an append: it keeps the ids gapless exactly when the
      next id follows the last one. */
  lemma AppendKeepsGaplessExactlyWhenNextFollowsLast(cfg: Config, r: Run, nonce: seq<Atom>, payload: seq<nat>)
    requires Inv(cfg, r) && Gapless(r.hist)
    ensures Gapless(Step(cfg, r, AppendOk(nonce, payload)).hist) <==> r.box.nextId == r.box.lastId + 1
  {
    var hist' := Step(cfg, r, AppendOk(nonce, payload)).hist;
    assert hist'[|r.hist|].id == r.box.nextId;
    assert forall i | 0 <= i < |r.hist| :: hist'[i] == r.hist[i];
  }

  /** Where that guard comes from: it survives an append and an acknowledgement, a failed append
      destroys it, and a successful reopen restores it exactly when the newest entry is still in
      the bucket (or nothing was ever appended). */
  lemma NextFollowsLast(cfg: Config, r: Run, op: Op)
    requires Inv(cfg, r) && Possible(r, op)
    ensures op.AppendOk? ==> Step(cfg, r, op).box.nextId == Step(cfg, r, op).box.lastId + 1
    ensures op.AckId? ==> Step(cfg, r, op).box.nextId == r.box.nextId && Step(cfg, r, op).box.lastId == r.box.lastId
    ensures op.AppendFails? && r.box.nextId == r.box.lastId + 1 ==>
              Step(cfg, r, op).box.nextId != Step(cfg, r, op).box.lastId + 1
    ensures op.Reopen? && !RefusesToOpen(r.box) ==>
              (Step(cfg, r, op).box.nextId == r.box.lastId + 1 <==> MaxId(r.box.bucket) == r.box.lastId)
  {
    if op.AppendOk? {
      StoredKeepsInv(cfg, r, op.nonce, op.payload);
      EnforceCapKeeps(cfg, Run(Stored(cfg, r.box, op.nonce, op.payload), true,
                               r.hist + [Rec(r.box.nextId, NewBlob(cfg, r.box, op.nonce, op.payload), op.payload)]));
    }
  }

  /** A gapless run keeps each id 1..last_id in exactly one of the two places. */
  lemma {:induction false} GaplessRunPartitions(cfg: Config, ops: seq<Op>, id: nat)
    requires PossibleRun(cfg, ops) && Gapless(After(cfg, ops).hist)
    ensures var r := After(cfg, ops);
            && r.box.lastId == |r.hist|
            && (r.hist != [] ==> r.box.tip == Some(Fold(r.hist)))
            && (1 <= id <= r.box.lastId ==>
                  && (Find(r.box.bucket, id).Some? <==> id !in r.box.acked)
                  && BlobAt(r.box, id) == Some(r.hist[id - 1].blob))
  {
    EveryRunKeeps(cfg, ops);
    assert OnePlace(After(cfg, ops).box, After(cfg, ops).hist, id);
  }

  /** A gapless store refuses to open exactly when its newest entry is gone and an older one is not. */
  lemma OpenRefusedExactlyWhenNewestGone(cfg: Config, ops: seq<Op>)
    requires PossibleRun(cfg, ops) && Gapless(After(cfg, ops).hist)
    ensures var b := After(cfg, ops).box;
            RefusesToOpen(b) <==> b.bucket != [] && Find(b.bucket, b.lastId).None?
  {
    EveryRunKeeps(cfg, ops);
    NewestGone(cfg, After(cfg, ops));
  }

  lemma NewestGone(cfg: Config, r: Run)
    requires Inv(cfg, r) && Gapless(r.hist) && Partition(r.box, r.hist)
    ensures RefusesToOpen(r.box) <==> r.box.bucket != [] && Find(r.box.bucket, r.box.lastId).None?
  {
    var b := r.box;
    FindMeansPresent(b.bucket, b.lastId);
    if b.bucket != [] {
      var newest := b.bucket[|b.bucket| - 1];
      FindMeansPresent(b.bucket, newest.id);
      assert OnePlace(b, r.hist, newest.id);
      assert newest.id <= b.lastId;
    }
  }

  /** Acknowledging everything and reopening restarts the ids at 1: the next append breaks the chain. */
  lemma RestartAfterEmptyBreaksChain(cfg: Config, r: Run, nonce: seq<Atom>, payload: seq<nat>)
    requires Inv(cfg, r) && r.hist != [] && r.box.bucket == []
    ensures !RefusesToOpen(r.box)
    ensures Step(cfg, r, Reopen).box.nextId == 1
    ensures !Gapless(Step(cfg, Step(cfg, r, Reopen), AppendOk(nonce, payload)).hist)
  {
    var hist' := Step(cfg, Step(cfg, r, Reopen), AppendOk(nonce, payload)).hist;
    assert hist'[|r.hist|].id == 1;
  }

  lemma Extend(cfg: Config, ops: seq<Op>, op: Op, longer: seq<Op>)
    requires PossibleRun(cfg, ops) && Possible(After(cfg, ops), op) && longer == ops + [op]
    ensures PossibleRun(cfg, longer) && After(cfg, longer) == Step(cfg, After(cfg, ops), op)
  {
    assert longer[..|longer| - 1] == ops;
  }

  lemma FirstAppend(cfg: Config, nonce: seq<Atom>, payload: seq<nat>)
    requires IsNonce(nonce)
    ensures var r := After(cfg, [AppendOk(nonce, payload)]);
            && PossibleRun(cfg, [AppendOk(nonce, payload)]) && r.isOpen && |r.hist| == 1 && r.hist[0].id == 1
            && r.box.lastId == 1 && (r.box.bucket == [] || (|r.box.bucket| == 1 && r.box.bucket[0].id == 1))
  {
    Extend(cfg, [], AppendOk(nonce, payload), [AppendOk(nonce, payload)]);
    FirstStored(cfg, nonce, payload);
    OneEntryCapped(cfg, Stored(cfg, EMPTY.box, nonce, payload));
  }

  lemma FirstStored(cfg: Config, nonce: seq<Atom>, payload: seq<nat>)
    ensures var b := Stored(cfg, EMPTY.box, nonce, payload); |b.bucket| == 1 && b.bucket[0].id == 1 && b.lastId == 1
  {
  }

  lemma OneEntryCapped(cfg: Config, b: Box)
    requires |b.bucket| == 1
    ensures EnforceCap(cfg, b).bucket == b.bucket || EnforceCap(cfg, b).bucket == []
    ensures EnforceCap(cfg, b).lastId == b.lastId
  {
    assert Retire(b, b.bucket[0].id).bucket == [];
  }

  /** A run that empties the store and reopens it: the ids start over and `Verify` fails. */
  lemma AckedAndReopenedRunFails(cfg: Config, nonce: seq<Atom>, payload: seq<nat>)
    requires IsNonce(nonce)
    ensures var ops := [AppendOk(nonce, payload), AckId(1), Reopen, AppendOk(nonce, payload)];
            PossibleRun(cfg, ops) && Verify(cfg, After(cfg, ops).box) != Fine(())
  {
    var o1, o2 := [AppendOk(nonce, payload)], [AppendOk(nonce, payload), AckId(1)];
    var o3 := [AppendOk(nonce, payload), AckId(1), Reopen];
    var ops := [AppendOk(nonce, payload), AckId(1), Reopen, AppendOk(nonce, payload)];
    FirstAppend(cfg, nonce, payload);
    Extend(cfg, o1, AckId(1), o2);
    assert After(cfg, o2).box.bucket == [];
    EveryRunKeeps(cfg, o2);
    RestartAfterEmptyBreaksChain(cfg, After(cfg, o2), nonce, payload);
    Extend(cfg, o2, Reopen, o3);
    Extend(cfg, o3, AppendOk(nonce, payload), ops);
    VerifyNilExactlyWhenGapless(cfg, ops);
  }

  /** A run with a failed append: its id is used up and `Verify` fails after the next append. */
  lemma FailedAppendRunFails(cfg: Config, nonce: seq<Atom>, payload: seq<nat>)
    requires IsNonce(nonce)
    ensures var ops := [AppendFails, AppendOk(nonce, payload)];
            PossibleRun(cfg, ops) && Verify(cfg, After(cfg, ops).box) != Fine(())
  {
    var ops := [AppendFails, AppendOk(nonce, payload)];
    Extend(cfg, [], AppendFails, [AppendFails]);
    Extend(cfg, [AppendFails], AppendOk(nonce, payload), ops);
    assert After(cfg, ops).hist[0].id == 2;
    VerifyNilExactlyWhenGapless(cfg, ops);
  }

  /** Two accepted outboxes with the same last id and tip hold the same blobs, present or acked. */
  lemma TipDeterminesBlobs(cfg: Config, b: Box, cfg': Config, b': Box, id: nat)
    requires b.tip.Some? && b.tip == b'.tip && b.lastId == b'.lastId
    requires Verify(cfg, b) == Fine(()) && Verify(cfg', b') == Fine(())
    requires 1 <= id <= b.lastId
    ensures BlobAt(b, id).Some? && BlobAt(b, id) == BlobAt(b', id)
  {
    var met := AcceptedTip(cfg, b);
    var met' := AcceptedTip(cfg', b');
    FoldInjective(met, met');
  }

  /** Peek returns the oldest entries in id order, each with a payload that was appended under
      that id, and never fails on a store the agent wrote. */
  lemma {:induction false} PeekReturnsAppended(cfg: Config, r: Run, i: nat, n: nat)
    requires Inv(cfg, r) && i <= n <= |r.box.bucket|
    ensures var p := PeekFrom(cfg, r.box, i, n);
            && p.Fine? && |p.value| == n - i
            && forall j | 0 <= j < n - i ::
                 && p.value[j].id == r.box.bucket[i + j].id
                 && exists k :: 0 <= k < |r.hist| && r.hist[k].id == p.value[j].id
                                && r.hist[k].blob == r.box.bucket[i + j].blob && r.hist[k].payload == p.value[j].payload
    decreases n - i
  {
    if i < n {
      assert Genuine(cfg, r.box, r.hist, r.box.bucket[i]);
      PeekReturnsAppended(cfg, r, i + 1, n);
      var rest := PeekFrom(cfg, r.box, i + 1, n).value;
      var p := PeekFrom(cfg, r.box, i, n).value;
      forall j | 0 <= j < n - i
        ensures p[j].id == r.box.bucket[i + j].id
        ensures exists k :: 0 <= k < |r.hist| && r.hist[k].id == p[j].id
                            && r.hist[k].blob == r.box.bucket[i + j].blob && r.hist[k].payload == p[j].payload
      {
        if j > 0 { assert p[j] == rest[j - 1] && r.box.bucket[i + 1 + (j - 1)] == r.box.bucket[i + j]; }
      }
    }
  }
}
