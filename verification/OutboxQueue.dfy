/** The outbox as its user sees it: a bounded queue of messages. Cap enforcement drops the oldest
    entries, and no more of them than it must; `Peek` shows the queue. */
module OutboxQueue {
  import opened Digests
  import opened Outbox

  // ---------------------------------------------------------------- what the caps evict

  predicate Fits(cfg: Config, bucket: seq<Item>) {
    |bucket| <= cfg.maxEntries && TotalSize(bucket) <= cfg.maxBytes
  }

  lemma {:induction false} TotalSizeAdds(a: seq<Item>, b: seq<Item>)
    ensures TotalSize(a + b) == TotalSize(a) + TotalSize(b)
    decreases |b|
  {
    if b == [] {
      assert a + b == a;
    } else {
      assert (a + b)[..|a + b| - 1] == a + b[..|b| - 1];
      TotalSizeAdds(a, b[..|b| - 1]);
    }
  }

  /** A nonce of twelve bytes and a sealed payload with its tag of sixteen. */
  lemma {:induction false} NonceSize(nonce: seq<Atom>, rest: Blob)
    requires forall i | 0 <= i < |nonce| :: nonce[i].Byte?
    ensures Size(nonce + rest) == |nonce| + Size(rest)
  {
    if nonce == [] {
      assert nonce + rest == rest;
    } else {
      assert (nonce + rest)[1..] == nonce[1..] + rest;
      NonceSize(nonce[1..], rest);
    }
  }

  lemma BlobSize(key: nat, nonce: seq<Atom>, id: nat, prevHash: Sha, payload: seq<nat>)
    requires IsNonce(nonce)
    ensures Size(EncryptEntry(key, nonce, id, prevHash, payload)) == |payload| + 28
  {
    NonceSize(nonce, [Sealed(key, nonce, Aad(id, prevHash), payload)]);
  }

  lemma RetireFirst(b: Box)
    requires b.bucket != []
    ensures var first := b.bucket[0];
            Retire(b, first.id) == b.(bucket := b.bucket[1..], acked := b.acked[first.id := first.blob], prev := b.prev - {first.id})
  {
  }

  function Ids(items: seq<Item>): set<nat> {
    set i | 0 <= i < |items| :: items[i].id
  }

  /** The blobs of some entries by id. */
  function ById(items: seq<Item>): (m: map<nat, Blob>)
    ensures m.Keys == Ids(items)
  {
    if items == [] then map[]
    else
      assert Ids(items) == {items[0].id} + Ids(items[1..]) by { IdsOfTail(items); }
      map[items[0].id := items[0].blob] + ById(items[1..])
  }

  lemma IdsOfTail(items: seq<Item>)
    requires items != []
    ensures Ids(items) == {items[0].id} + Ids(items[1..])
  {
    forall id | id in Ids(items)
      ensures id in {items[0].id} + Ids(items[1..])
    {
      var i :| 0 <= i < |items| && items[i].id == id;
      if i > 0 { assert items[1..][i - 1].id == id; }
    }
    forall id | id in Ids(items[1..])
      ensures id in Ids(items)
    {
      var i :| 0 <= i < |items[1..]| && items[1..][i].id == id;
      assert items[i + 1].id == id;
    }
  }

  lemma {:induction false} ByIdHolds(items: seq<Item>, i: nat)
    requires Sorted(items) && i < |items|
    ensures items[i].id in ById(items) && ById(items)[items[i].id] == items[i].blob
  {
    if i > 0 {
      ByIdHolds(items[1..], i - 1);
    } else {
      assert items[0].id in ById(items);
      assert items[0].id !in Ids(items[1..]);
    }
  }

  /** Cap enforcement keeps a suffix of the bucket: the longest one that fits both caps, or none.
      The entries in front of it, and no others, become acknowledged blobs and lose their previous
      digests; nothing else changes. */
  lemma {:induction false} CapsEvictOldestExactly(cfg: Config, b: Box) returns (k: nat)
    ensures k <= |b.bucket|
    ensures EnforceCap(cfg, b) ==
            b.(bucket := b.bucket[k..], acked := b.acked + ById(b.bucket[..k]), prev := b.prev - Ids(b.bucket[..k]))
    ensures b.bucket[k..] == [] || Fits(cfg, b.bucket[k..])
    ensures forall j: nat | j < k :: !Fits(cfg, b.bucket[j..])
    decreases |b.bucket|
  {
    assert b.bucket[0..] == b.bucket;
    if b.bucket == [] || Fits(cfg, b.bucket) {
      k := 0;
      assert b.acked + ById([]) == b.acked && b.prev - Ids([]) == b.prev;
    } else {
      RetireFirst(b);
      var b' := Retire(b, b.bucket[0].id);
      var m := CapsEvictOldestExactly(cfg, b');
      k := m + 1;
      forall j: nat | j < k
        ensures !Fits(cfg, b.bucket[j..])
      {
        if j > 0 { assert b.bucket[j..] == b'.bucket[j - 1..]; }
      }
      EvictOneMore(b, b', m);
    }
  }

  lemma EvictOneMore(b: Box, b': Box, m: nat)
    requires b.bucket != [] && b' == Retire(b, b.bucket[0].id) && m <= |b'.bucket|
    requires b'.bucket == b.bucket[1..]
    ensures b'.(bucket := b'.bucket[m..], acked := b'.acked + ById(b'.bucket[..m]), prev := b'.prev - Ids(b'.bucket[..m])) ==
            b.(bucket := b.bucket[m + 1..], acked := b.acked + ById(b.bucket[..m + 1]), prev := b.prev - Ids(b.bucket[..m + 1]))
  {
    var gone := b.bucket[..m + 1];
    RetireFirst(b);
    assert b.bucket[1..][m..] == b.bucket[m + 1..];
    assert gone[0] == b.bucket[0] && gone[1..] == b'.bucket[..m];
    AckedOneMore(b.acked, gone);
    PrevOneMore(b.prev, gone);
  }

  lemma AckedOneMore(acked: map<nat, Blob>, gone: seq<Item>)
    requires gone != []
    ensures acked + ById(gone) == acked[gone[0].id := gone[0].blob] + ById(gone[1..])
  {
    UpdateThenMerge(acked, gone[0].id, gone[0].blob, ById(gone[1..]));
  }

  lemma UpdateThenMerge<K, V>(m: map<K, V>, k: K, v: V, rest: map<K, V>)
    ensures m + (map[k := v] + rest) == m[k := v] + rest
  {
  }

  lemma PrevOneMore(prev: map<nat, Sha>, gone: seq<Item>)
    requires gone != []
    ensures prev - Ids(gone) == prev - {gone[0].id} - Ids(gone[1..])
  {
    IdsOfTail(gone);
  }

  /** An append leaves the longest suffix that fits of the entries present and the new one. */
  lemma AppendEvictsOldestExactly(cfg: Config, ops: seq<Op>, nonce: seq<Atom>, payload: seq<nat>) returns (k: nat)
    requires PossibleRun(cfg, ops) && Possible(After(cfg, ops), AppendOk(nonce, payload))
    ensures var r, r' := After(cfg, ops), After(cfg, ops + [AppendOk(nonce, payload)]);
            var all := r.box.bucket + [Item(r.box.nextId, NewBlob(cfg, r.box, nonce, payload))];
            && k <= |all| && r'.box.bucket == all[k..] && r'.box.acked == r.box.acked + ById(all[..k])
            && (all[k..] == [] || Fits(cfg, all[k..])) && forall j: nat | j < k :: !Fits(cfg, all[j..])
  {
    var r := After(cfg, ops);
    EveryRunKeeps(cfg, ops);
    Extend(cfg, ops, AppendOk(nonce, payload), ops + [AppendOk(nonce, payload)]);
    PutAtEnd(r.box.bucket, r.box.nextId, NewBlob(cfg, r.box, nonce, payload));
    k := CapsEvictOldestExactly(cfg, Stored(cfg, r.box, nonce, payload));
  }

  /** An append keeps every present entry and the new one if and only if they fit the caps together,
      the new one at its payload's length plus 28; and it keeps the new one at all if and only if
      that one fits alone. */
  lemma AppendKeepsExactlyWhatFits(cfg: Config, ops: seq<Op>, nonce: seq<Atom>, payload: seq<nat>)
    requires PossibleRun(cfg, ops) && Possible(After(cfg, ops), AppendOk(nonce, payload))
    ensures var r, r' := After(cfg, ops), After(cfg, ops + [AppendOk(nonce, payload)]);
            var newest := Item(r.box.nextId, NewBlob(cfg, r.box, nonce, payload));
            && (r'.box.bucket == r.box.bucket + [newest] <==>
                  |r.box.bucket| + 1 <= cfg.maxEntries && TotalSize(r.box.bucket) + |payload| + 28 <= cfg.maxBytes)
            && (r'.box.bucket != [] <==> 1 <= cfg.maxEntries && |payload| + 28 <= cfg.maxBytes)
            && (r'.box.bucket != [] ==> r'.box.bucket[|r'.box.bucket| - 1] == newest)
  {
    var r := After(cfg, ops);
    var newest := Item(r.box.nextId, NewBlob(cfg, r.box, nonce, payload));
    var all := r.box.bucket + [newest];
    var k := AppendEvictsOldestExactly(cfg, ops, nonce, payload);
    BlobSize(cfg.key, nonce, r.box.nextId, PrevHash(r.box), payload);
    assert TotalSize([newest]) == |payload| + 28 by { assert [newest][..0] == []; }
    TotalSizeAdds(r.box.bucket, [newest]);
    assert all[0..] == all;
    assert all[|all| - 1..] == [newest];
    if k < |all| {
      TotalSizeAdds(all[k..|all| - 1], [newest]);
      assert all[k..] == all[k..|all| - 1] + [newest];
    }
  }

  // ---------------------------------------------------------------- the bounded queue

  /** Messages waiting to be sent, oldest first, the id of the next one, and the last id ever stored. */
  datatype Queue = Queue(waiting: seq<Message>, next: nat, last: nat)

  function Bytes(waiting: seq<Message>): nat {
    if waiting == [] then 0 else Bytes(waiting[..|waiting| - 1]) + |waiting[|waiting| - 1].payload| + 28
  }

  predicate WithinCaps(cfg: Config, waiting: seq<Message>) {
    |waiting| <= cfg.maxEntries && Bytes(waiting) <= cfg.maxBytes
  }

  /** The longest suffix within the caps. */
  function Newest(cfg: Config, waiting: seq<Message>): (r: seq<Message>)
    ensures r == [] || WithinCaps(cfg, r)
    ensures |r| <= |waiting| && r == waiting[|waiting| - |r|..]
    ensures forall k: nat | k < |waiting| - |r| :: !WithinCaps(cfg, waiting[k..])
  {
    assert waiting[0..] == waiting;
    if waiting == [] || WithinCaps(cfg, waiting) then waiting
    else
      var r := Newest(cfg, waiting[1..]);
      assert forall k: nat | 0 < k < |waiting| - |r| :: waiting[k..] == waiting[1..][k - 1..];
      r
  }

  function Without(waiting: seq<Message>, id: nat): (r: seq<Message>)
    ensures forall m :: m in r <==> m in waiting && m.id != id
  {
    if waiting == [] then []
    else if waiting[0].id == id then Without(waiting[1..], id)
    else [waiting[0]] + Without(waiting[1..], id)
  }

  function NewestId(waiting: seq<Message>): nat {
    if waiting == [] then 0 else waiting[|waiting| - 1].id
  }

  function QueueStep(cfg: Config, q: Queue, op: Op): Queue {
    match op
    case AppendOk(_, payload) => Queue(Newest(cfg, q.waiting + [Message(q.next, payload)]), q.next + 1, q.next)
    case AppendFails => q.(next := q.next + 1)
    case AckId(id) => q.(waiting := Without(q.waiting, id))
    case Reopen =>
      if 0 < NewestId(q.waiting) < q.last then q else q.(next := NewestId(q.waiting) + 1)
  }

  function QueueAfter(cfg: Config, ops: seq<Op>): Queue {
    if ops == [] then Queue([], 1, 0) else QueueStep(cfg, QueueAfter(cfg, ops[..|ops| - 1]), ops[|ops| - 1])
  }

  /** The stored entry decrypts to the message and has its size. */
  predicate Shows(key: nat, prev: map<nat, Sha>, item: Item, m: Message) {
    && m.id == item.id && item.id in prev
    && DecryptEntry(key, item.id, prev[item.id], item.blob) == Some(m.payload)
    && Size(item.blob) == |m.payload| + 28
  }

  predicate Mirrors(key: nat, prev: map<nat, Sha>, bucket: seq<Item>, waiting: seq<Message>) {
    |bucket| == |waiting| && forall i | 0 <= i < |bucket| :: Shows(key, prev, bucket[i], waiting[i])
  }

  predicate Agrees(cfg: Config, b: Box, q: Queue) {
    Mirrors(cfg.key, b.prev, b.bucket, q.waiting) && b.nextId == q.next && b.lastId == q.last
  }

  lemma {:induction false} MirrorBytes(key: nat, prev: map<nat, Sha>, bucket: seq<Item>, waiting: seq<Message>)
    requires Mirrors(key, prev, bucket, waiting)
    ensures TotalSize(bucket) == Bytes(waiting)
    decreases |bucket|
  {
    if bucket != [] {
      var n := |bucket| - 1;
      assert Shows(key, prev, bucket[n], waiting[n]);
      MirrorBytes(key, prev, bucket[..n], waiting[..n]);
    }
  }

  lemma MirrorTail(key: nat, prev: map<nat, Sha>, bucket: seq<Item>, waiting: seq<Message>)
    requires Mirrors(key, prev, bucket, waiting) && Sorted(bucket) && bucket != []
    ensures Mirrors(key, prev - {bucket[0].id}, bucket[1..], waiting[1..])
  {
    forall i | 0 <= i < |bucket[1..]|
      ensures Shows(key, prev - {bucket[0].id}, bucket[1..][i], waiting[1..][i])
    {
      assert Shows(key, prev, bucket[i + 1], waiting[i + 1]);
    }
  }

  lemma {:induction false} CapsMirror(cfg: Config, b: Box, waiting: seq<Message>)
    requires Mirrors(cfg.key, b.prev, b.bucket, waiting) && Sorted(b.bucket)
    ensures var e := EnforceCap(cfg, b); Mirrors(cfg.key, e.prev, e.bucket, Newest(cfg, waiting))
    decreases |b.bucket|
  {
    MirrorBytes(cfg.key, b.prev, b.bucket, waiting);
    if !(b.bucket == [] || WithinCaps(cfg, waiting)) {
      RetireFirst(b);
      MirrorTail(cfg.key, b.prev, b.bucket, waiting);
      CapsMirror(cfg, Retire(b, b.bucket[0].id), waiting[1..]);
    }
  }

  lemma {:induction false} WithoutAbsent(waiting: seq<Message>, id: nat)
    requires forall i | 0 <= i < |waiting| :: waiting[i].id != id
    ensures Without(waiting, id) == waiting
  {
    if waiting != [] { WithoutAbsent(waiting[1..], id); }
  }

  lemma {:induction false} AckMirror(key: nat, prev: map<nat, Sha>, bucket: seq<Item>, waiting: seq<Message>, id: nat)
    requires Mirrors(key, prev, bucket, waiting) && Sorted(bucket)
    ensures Mirrors(key, prev - {id}, Delete(bucket, id), Without(waiting, id))
    decreases |bucket|
  {
    if bucket != [] {
      assert Shows(key, prev, bucket[0], waiting[0]);
      if bucket[0].id == id {
        MirrorTail(key, prev, bucket, waiting);
        RestIsOther(key, prev, bucket, waiting);
        WithoutAbsent(waiting[1..], id);
      } else {
        TailMirrors(key, prev, bucket, waiting);
        AckMirror(key, prev, bucket[1..], waiting[1..], id);
        HeadMirrors(key, prev - {id}, bucket[0], waiting[0], Delete(bucket[1..], id), Without(waiting[1..], id));
      }
    }
  }

  lemma HeadMirrors(key: nat, prev: map<nat, Sha>, item: Item, m: Message, bucket: seq<Item>, waiting: seq<Message>)
    requires Shows(key, prev, item, m) && Mirrors(key, prev, bucket, waiting)
    ensures Mirrors(key, prev, [item] + bucket, [m] + waiting)
  {
  }

  lemma RestIsOther(key: nat, prev: map<nat, Sha>, bucket: seq<Item>, waiting: seq<Message>)
    requires Mirrors(key, prev, bucket, waiting) && Sorted(bucket) && bucket != []
    ensures forall i | 0 <= i < |waiting[1..]| :: waiting[1..][i].id != bucket[0].id
  {
    forall i | 0 <= i < |waiting[1..]|
      ensures waiting[1..][i].id != bucket[0].id
    {
      assert Shows(key, prev, bucket[i + 1], waiting[i + 1]);
    }
  }

  lemma TailMirrors(key: nat, prev: map<nat, Sha>, bucket: seq<Item>, waiting: seq<Message>)
    requires Mirrors(key, prev, bucket, waiting) && bucket != []
    ensures Mirrors(key, prev, bucket[1..], waiting[1..])
  {
    forall i | 0 <= i < |bucket[1..]|
      ensures Shows(key, prev, bucket[1..][i], waiting[1..][i])
    {
      assert Shows(key, prev, bucket[i + 1], waiting[i + 1]);
    }
  }

  lemma StoredMirror(cfg: Config, r: Run, q: Queue, nonce: seq<Atom>, payload: seq<nat>)
    requires Inv(cfg, r) && r.isOpen && IsNonce(nonce) && Agrees(cfg, r.box, q)
    ensures var b := Stored(cfg, r.box, nonce, payload);
            Sorted(b.bucket) && Mirrors(cfg.key, b.prev, b.bucket, q.waiting + [Message(q.next, payload)])
  {
    var b, b' := r.box, Stored(cfg, r.box, nonce, payload);
    var waiting := q.waiting + [Message(q.next, payload)];
    StoredIsSorted(cfg, r, nonce, payload);
    PutAtEnd(b.bucket, b.nextId, NewBlob(cfg, b, nonce, payload));
    BlobSize(cfg.key, nonce, b.nextId, PrevHash(b), payload);
    DecryptUndoesEncrypt(cfg.key, nonce, b.nextId, PrevHash(b), payload);
    forall i | 0 <= i < |b'.bucket|
      ensures Shows(cfg.key, b'.prev, b'.bucket[i], waiting[i])
    {
      if i < |b.bucket| { assert Shows(cfg.key, b.prev, b.bucket[i], q.waiting[i]); }
    }
  }

  lemma StepAgrees(cfg: Config, r: Run, q: Queue, op: Op)
    requires Inv(cfg, r) && Possible(r, op) && Agrees(cfg, r.box, q)
    ensures Agrees(cfg, Step(cfg, r, op).box, QueueStep(cfg, q, op))
  {
    match op
    case AppendOk(nonce, payload) =>
      StoredMirror(cfg, r, q, nonce, payload);
      CapsMirror(cfg, Stored(cfg, r.box, nonce, payload), q.waiting + [Message(q.next, payload)]);
      var k := CapsEvictOldestExactly(cfg, Stored(cfg, r.box, nonce, payload));
    case AppendFails =>
    case AckId(id) => AckMirror(cfg.key, r.box.prev, r.box.bucket, q.waiting, id);
    case Reopen =>
      if r.box.bucket != [] {
        var n := |r.box.bucket| - 1;
        assert Shows(cfg.key, r.box.prev, r.box.bucket[n], q.waiting[n]);
      }
  }

  lemma {:induction false} EveryRunAgrees(cfg: Config, ops: seq<Op>)
    requires PossibleRun(cfg, ops)
    ensures Agrees(cfg, After(cfg, ops).box, QueueAfter(cfg, ops))
    decreases |ops|
  {
    if ops != [] {
      var before := ops[..|ops| - 1];
      EveryRunAgrees(cfg, before);
      EveryRunKeeps(cfg, before);
      StepAgrees(cfg, After(cfg, before), QueueAfter(cfg, before), ops[|ops| - 1]);
    }
  }

  lemma {:induction false} PeekFromShows(cfg: Config, b: Box, waiting: seq<Message>, i: nat, n: nat)
    requires Mirrors(cfg.key, b.prev, b.bucket, waiting) && i <= n <= |b.bucket|
    ensures PeekFrom(cfg, b, i, n) == Fine(waiting[i..n])
    decreases n - i
  {
    if i < n {
      assert Shows(cfg.key, b.prev, b.bucket[i], waiting[i]);
      PeekFromShows(cfg, b, waiting, i + 1, n);
      assert waiting[i..n] == [waiting[i]] + waiting[i + 1..n];
      assert waiting[i] == Message(b.bucket[i].id, waiting[i].payload);
    } else {
      assert waiting[i..n] == [];
    }
  }

  /** In every run of appends, failed appends, acknowledgements and reopens, `Peek` succeeds and
      returns the oldest min(n, length) messages of the bounded queue, ids and payloads. */
  lemma PeekShowsTheQueue(cfg: Config, ops: seq<Op>, n: nat)
    requires PossibleRun(cfg, ops)
    ensures var waiting := QueueAfter(cfg, ops).waiting;
            Peek(cfg, After(cfg, ops).box, n) == Fine(if n <= |waiting| then waiting[..n] else waiting)
  {
    var b, waiting := After(cfg, ops).box, QueueAfter(cfg, ops).waiting;
    EveryRunAgrees(cfg, ops);
    PeekFromShows(cfg, b, waiting, 0, if n <= |b.bucket| then n else |b.bucket|);
    assert waiting[0..|waiting|] == waiting;
  }

  /** Within the caps nothing is lost: the message queues behind everything that was waiting. */
  lemma FittingMessageIsQueued(cfg: Config, ops: seq<Op>, nonce: seq<Atom>, payload: seq<nat>)
    requires PossibleRun(cfg, ops)
    requires var waiting := QueueAfter(cfg, ops).waiting;
             |waiting| + 1 <= cfg.maxEntries && Bytes(waiting) + |payload| + 28 <= cfg.maxBytes
    ensures QueueAfter(cfg, ops + [AppendOk(nonce, payload)]).waiting ==
            QueueAfter(cfg, ops).waiting + [Message(After(cfg, ops).box.nextId, payload)]
  {
    var q := QueueAfter(cfg, ops);
    EveryRunAgrees(cfg, ops);
    QueueOneMore(cfg, ops, AppendOk(nonce, payload));
    NothingDropped(cfg, q.waiting, Message(q.next, payload));
  }

  lemma QueueOneMore(cfg: Config, ops: seq<Op>, op: Op)
    ensures QueueAfter(cfg, ops + [op]) == QueueStep(cfg, QueueAfter(cfg, ops), op)
  {
    assert (ops + [op])[..|ops|] == ops;
  }

  lemma NothingDropped(cfg: Config, waiting: seq<Message>, m: Message)
    requires |waiting| + 1 <= cfg.maxEntries && Bytes(waiting) + |m.payload| + 28 <= cfg.maxBytes
    ensures Newest(cfg, waiting + [m]) == waiting + [m]
  {
    assert (waiting + [m])[..|waiting|] == waiting;
  }
}
