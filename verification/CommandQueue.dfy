/** The durable command queue's idempotent enqueue: a bounded least-recently-used cache per
    process in front of a table whose idempotency key is unique. Sessions of several processes
    look up, insert, commit, roll back and delete in any order. */
module CommandQueue {
  import opened Digests
  import OM = OrderedMap

  type Id = string
  type Key = string

  datatype Row = Row(host: string, key: Option<Key>)
  type Table = map<Id, Row>
  type Cache = seq<(Key, Id)>

  // ---------------------------------------------------------------- the simple form

  /** SELECT ... WHERE idempotency_key = key. */
  ghost function ByKey(t: Table, key: Key): (r: Option<Id>)
    ensures r.Some? ==> r.value in t && t[r.value].key == Some(key)
    ensures r.None? ==> forall id | id in t :: t[id].key != Some(key)
  {
    if id :| id in t && t[id].key == Some(key) then Some(id) else None
  }

  predicate UniqueKeys(t: Table) {
    forall a, b | a in t && b in t && t[a].key.Some? && t[a].key == t[b].key :: a == b
  }

  // ---------------------------------------------------------------- the cached form

  function Evict(capacity: nat, c: Cache): Cache {
    if |c| > capacity then c[|c| - capacity..] else c
  }

  function Remember(capacity: nat, c: Cache, key: Key, id: Id): Cache {
    Evict(capacity, OM.MoveToEnd(OM.Put(c, key, id), key))
  }

  /** `session.get`: a row the session still holds in its identity map, or one it can see. */
  predicate Gets(visible: Table, loaded: set<Id>, id: Id) {
    id in loaded || id in visible
  }

  /** The two look-ups of `enqueue`: the cache, trusted if the session gets the row, then the table. */
  ghost function CachedLookup(capacity: nat, c: Cache, visible: Table, loaded: set<Id>, key: Key): (Cache, Option<Id>) {
    var hit := OM.Get(c, key);
    if hit.Some? && Gets(visible, loaded, hit.value) then (OM.MoveToEnd(c, key), hit)
    else
      var kept := if hit.Some? then OM.Remove(OM.MoveToEnd(c, key), key) else c;
      var found := ByKey(visible, key);
      if found.Some? then (Remember(capacity, kept, key, found.value), found) else (kept, None)
  }

  /** The cached row is gone, but the session loaded it before and still holds it. */
  predicate Stale(c: Cache, visible: Table, loaded: set<Id>, key: Key) {
    OM.Get(c, key).Some? && OM.Get(c, key).value in loaded && OM.Get(c, key).value !in visible
  }

  class LruCache {
    const capacity: nat
    var cache: Cache

    constructor (capacity: nat)
      ensures this.capacity == capacity && cache == []
    {
      this.capacity := capacity;
      cache := [];
    }

    method Store(key: Key, id: Id)
      modifies this
      ensures cache == Remember(capacity, old(cache), key, id)
    {
      cache := OM.MoveToEnd(OM.Put(cache, key, id), key);
      ghost var all := cache;
      while |cache| > capacity
        invariant |cache| <= |all| && cache == all[|all| - |cache|..]
        invariant |all| > capacity ==> |cache| >= capacity
        invariant |all| <= capacity ==> cache == all
        decreases |cache|
      {
        cache := cache[1..];
      }
    }

    /** The fast path and the table look-up; the session sees one table and holds some rows. */
    method Find(visible: Table, loaded: set<Id>, key: Key) returns (r: Option<Id>)
      requires UniqueKeys(visible)
      modifies this
      ensures (cache, r) == CachedLookup(capacity, old(cache), visible, loaded, key)
    {
      var hit := OM.Get(cache, key);
      if hit.Some? {
        cache := OM.MoveToEnd(cache, key);
        if Gets(visible, loaded, hit.value) {
          return hit;
        }
        cache := OM.Remove(cache, key);
      }
      if exists id | id in visible :: visible[id].key == Some(key) {
        var id :| id in visible && visible[id].key == Some(key);
        assert ByKey(visible, key) == Some(id);
        Store(key, id);
        return Some(id);
      }
      r := None;
    }
  }

  // ---------------------------------------------------------------- processes and sessions

  /** `loaded` are the rows each session holds in its identity map, which a commit keeps and a
      rollback empties; `bound` remembers which key each command id was ever inserted with. */
  datatype Db = Db(
    committed: Table, pending: map<nat, Table>, caches: map<nat, Cache>, loaded: map<nat, set<Id>>,
    bound: map<Id, Option<Key>>)

  datatype Step =
    | Lookup(pid: nat, sid: nat, key: Key)
    | Insert(pid: nat, sid: nat, id: Id, host: string, idem: Option<Key>)
    | Commit(sid: nat)
    | Rollback(sid: nat)
    | Delete(id: Id)

  function PendingOf(db: Db, sid: nat): Table {
    if sid in db.pending then db.pending[sid] else map[]
  }

  function CacheOf(db: Db, pid: nat): Cache {
    if pid in db.caches then db.caches[pid] else []
  }

  function LoadedOf(db: Db, sid: nat): set<Id> {
    if sid in db.loaded then db.loaded[sid] else {}
  }

  function Visible(db: Db, sid: nat): Table {
    db.committed + PendingOf(db, sid)
  }

  predicate HasKey(t: Table, key: Option<Key>) {
    key.Some? && exists id :: id in t && t[id].key == key
  }

  /** An insert waits while another session holds the key uncommitted. A command id is inserted
      with one key only. */
  ghost predicate Enabled(db: Db, step: Step) {
    match step
    case Insert(pid, sid, id, host, key) =>
      && (id in db.bound ==> db.bound[id] == key)
      && id !in db.committed && (forall other | other in db.pending :: id !in db.pending[other])
      && (forall other | other in db.pending && other != sid :: !HasKey(db.pending[other], key))
    case Delete(id) => id in db.committed
    case Lookup(_, _, _) => true
    case Commit(_) => true
    case Rollback(_) => true
  }

  ghost function LookupIn(capacity: nat, db: Db, pid: nat, sid: nat, key: Key): (Cache, Option<Id>) {
    CachedLookup(capacity, CacheOf(db, pid), Visible(db, sid), LoadedOf(db, sid), key)
  }

  ghost function Apply(capacity: nat, db: Db, step: Step): Db
    requires Enabled(db, step)
  {
    match step
    case Lookup(pid, sid, key) =>
      var (cache, found) := LookupIn(capacity, db, pid, sid, key);
      db.(caches := db.caches[pid := cache],
          loaded := db.loaded[sid := LoadedOf(db, sid) + if found.Some? then {found.value} else {}])
    case Insert(pid, sid, id, host, key) =>
      if HasKey(Visible(db, sid), key) then
        // IntegrityError: roll back, read the row again, remember it if it is there.
        var found := ByKey(db.committed, key.value);
        var back := db.(pending := db.pending[sid := map[]],
                        loaded := db.loaded[sid := if found.Some? then {found.value} else {}]);
        if found.Some? then back.(caches := db.caches[pid := Remember(capacity, CacheOf(db, pid), key.value, found.value)])
        else back
      else
        db.(pending := db.pending[sid := PendingOf(db, sid)[id := Row(host, key)]],
            bound := db.bound[id := key], loaded := db.loaded[sid := LoadedOf(db, sid) + {id}],
            caches := if key.Some? then db.caches[pid := Remember(capacity, CacheOf(db, pid), key.value, id)] else db.caches)
    case Commit(sid) => db.(committed := Visible(db, sid), pending := db.pending[sid := map[]])
    case Rollback(sid) => db.(pending := db.pending[sid := map[]], loaded := db.loaded[sid := {}])
    case Delete(id) => db.(committed := db.committed - {id})
  }

  const EMPTY: Db := Db(map[], map[], map[], map[], map[])

  ghost predicate Possible(capacity: nat, steps: seq<Step>)
    decreases |steps|, 0
  {
    steps == [] || (Possible(capacity, steps[..|steps| - 1]) && Enabled(Ran(capacity, steps[..|steps| - 1]), steps[|steps| - 1]))
  }

  ghost function Ran(capacity: nat, steps: seq<Step>): Db
    requires Possible(capacity, steps)
    decreases |steps|, 1
  {
    if steps == [] then EMPTY else Apply(capacity, Ran(capacity, steps[..|steps| - 1]), steps[|steps| - 1])
  }

  // ---------------------------------------------------------------- invariant

  /** A table records each id with the key it is bound to. */
  predicate Bound(bound: map<Id, Option<Key>>, t: Table) {
    forall id | id in t :: id in bound && bound[id] == t[id].key
  }

  /** A cache binds a key only to ids that are bound to that key. */
  ghost predicate CacheOk(capacity: nat, bound: map<Id, Option<Key>>, c: Cache) {
    && OM.Distinct(c) && |c| <= capacity
    && forall k :: OM.Get(c, k).Some? ==> OM.Get(c, k).value in bound && bound[OM.Get(c, k).value] == Some(k)
  }

  predicate Apart(a: Table, b: Table) {
    forall i, j | i in a && j in b && a[i].key.Some? :: a[i].key != b[j].key
  }

  /** One session's uncommitted rows: unique keys, none of them committed. */
  ghost predicate RowsOk(bound: map<Id, Option<Key>>, committed: Table, rows: Table) {
    UniqueKeys(rows) && Bound(bound, rows) && Apart(rows, committed) && rows.Keys !! committed.Keys
  }

  predicate Disjoint(a: Table, b: Table) {
    Apart(a, b) && Apart(b, a) && a.Keys !! b.Keys
  }

  ghost predicate TablesInv(committed: Table, pending: map<nat, Table>, bound: map<Id, Option<Key>>) {
    && UniqueKeys(committed) && Bound(bound, committed)
    && (forall s | s in pending :: RowsOk(bound, committed, pending[s]))
    && (forall s, t | s in pending && t in pending && s != t :: Disjoint(pending[s], pending[t]))
  }

  ghost predicate CachesInv(capacity: nat, caches: map<nat, Cache>, bound: map<Id, Option<Key>>) {
    forall p | p in caches :: CacheOk(capacity, bound, caches[p])
  }

  ghost predicate Inv(capacity: nat, db: Db) {
    TablesInv(db.committed, db.pending, db.bound) && CachesInv(capacity, db.caches, db.bound)
  }

  lemma VisibleUnique(capacity: nat, db: Db, sid: nat)
    requires Inv(capacity, db)
    ensures UniqueKeys(Visible(db, sid)) && Bound(db.bound, Visible(db, sid))
  {
    if sid in db.pending { assert RowsOk(db.bound, db.committed, db.pending[sid]); }
  }

  lemma EvictProperties(capacity: nat, c: Cache)
    requires OM.Distinct(c)
    ensures OM.Distinct(Evict(capacity, c)) && |Evict(capacity, c)| <= capacity
    ensures forall k :: OM.Get(Evict(capacity, c), k).Some? ==> OM.Get(Evict(capacity, c), k) == OM.Get(c, k)
  {
    var e := Evict(capacity, c);
    forall k | OM.Get(e, k).Some?
      ensures OM.Get(e, k) == OM.Get(c, k)
    {
      OM.GetMeansMember(e, k);
      OM.GetMeansMember(c, k);
      var i :| 0 <= i < |e| && e[i].0 == k;
      assert e[i] == c[|c| - |e| + i];
    }
  }

  lemma RememberKeeps(capacity: nat, bound: map<Id, Option<Key>>, c: Cache, key: Key, id: Id)
    requires CacheOk(capacity, bound, c) && id in bound && bound[id] == Some(key)
    ensures CacheOk(capacity, bound, Remember(capacity, c, key, id))
  {
    OM.PutProperties(c, key, id);
    OM.MoveToEndProperties(OM.Put(c, key, id), key);
    EvictProperties(capacity, OM.MoveToEnd(OM.Put(c, key, id), key));
  }

  /** A cache that binds no more than a sound one is sound. */
  lemma FewerBindingsOk(capacity: nat, bound: map<Id, Option<Key>>, c: Cache, d: Cache)
    requires CacheOk(capacity, bound, c) && OM.Distinct(d) && |d| <= |c|
    requires forall k :: OM.Get(d, k).Some? ==> OM.Get(d, k) == OM.Get(c, k)
    ensures CacheOk(capacity, bound, d)
  {
  }

  lemma ForgetKeeps(capacity: nat, bound: map<Id, Option<Key>>, c: Cache, key: Key)
    requires CacheOk(capacity, bound, c)
    ensures CacheOk(capacity, bound, OM.MoveToEnd(c, key))
    ensures CacheOk(capacity, bound, OM.Remove(OM.MoveToEnd(c, key), key))
  {
    var moved := OM.MoveToEnd(c, key);
    OM.MoveToEndProperties(c, key);
    FewerBindingsOk(capacity, bound, c, moved);
    OM.RemoveProperties(moved, key);
    FewerBindingsOk(capacity, bound, moved, OM.Remove(moved, key));
  }

  /** A binding of a sound cache whose row is visible is the row of that key. */
  lemma VisibleHitIsTheRow(capacity: nat, bound: map<Id, Option<Key>>, c: Cache, visible: Table, key: Key)
    requires CacheOk(capacity, bound, c) && UniqueKeys(visible) && Bound(bound, visible)
    requires OM.Get(c, key).Some? && OM.Get(c, key).value in visible
    ensures ByKey(visible, key) == OM.Get(c, key)
  {
    assert visible[OM.Get(c, key).value].key == Some(key);
  }

  /** The refinement: with a sound cache, the cached look-up finds what the table finds if and only
      if the binding is not stale. */
  lemma CachedLookupIsLookupByKey(
    capacity: nat, bound: map<Id, Option<Key>>, c: Cache, visible: Table, loaded: set<Id>, key: Key)
    requires CacheOk(capacity, bound, c) && UniqueKeys(visible) && Bound(bound, visible)
    ensures CachedLookup(capacity, c, visible, loaded, key).1 == ByKey(visible, key) <==> !Stale(c, visible, loaded, key)
    ensures CacheOk(capacity, bound, CachedLookup(capacity, c, visible, loaded, key).0)
  {
    var hit := OM.Get(c, key);
    ForgetKeeps(capacity, bound, c, key);
    if hit.Some? && hit.value in visible {
      VisibleHitIsTheRow(capacity, bound, c, visible, key);
    } else {
      var kept := if hit.Some? then OM.Remove(OM.MoveToEnd(c, key), key) else c;
      var found := ByKey(visible, key);
      if found.Some? { RememberKeeps(capacity, bound, kept, key, found.value); }
    }
  }

  lemma CacheOfOk(capacity: nat, db: Db, pid: nat)
    requires Inv(capacity, db)
    ensures CacheOk(capacity, db.bound, CacheOf(db, pid))
  {
  }

  lemma CacheOkGrows(capacity: nat, bound: map<Id, Option<Key>>, c: Cache, id: Id, key: Option<Key>)
    requires CacheOk(capacity, bound, c) && (id in bound ==> bound[id] == key)
    ensures CacheOk(capacity, bound[id := key], c)
  {
  }

  lemma DropPendingKeeps(committed: Table, pending: map<nat, Table>, bound: map<Id, Option<Key>>, sid: nat)
    requires TablesInv(committed, pending, bound)
    ensures TablesInv(committed, pending[sid := map[]], bound)
  {
  }

  lemma ConflictKeepsInv(capacity: nat, db: Db, step: Step)
    requires Inv(capacity, db) && step.Insert? && Enabled(db, step) && HasKey(Visible(db, step.sid), step.idem)
    ensures Inv(capacity, Apply(capacity, db, step))
  {
    DropPendingKeeps(db.committed, db.pending, db.bound, step.sid);
    CacheOfOk(capacity, db, step.pid);
    var found := ByKey(db.committed, step.idem.value);
    if found.Some? { RememberKeeps(capacity, db.bound, CacheOf(db, step.pid), step.idem.value, found.value); }
  }

  /** The session's uncommitted rows after a successful insert. */
  lemma InsertedRowsOk(db: Db, sid: nat, id: Id, row: Row)
    requires TablesInv(db.committed, db.pending, db.bound) && !HasKey(Visible(db, sid), row.key)
    requires (id in db.bound ==> db.bound[id] == row.key) && id !in db.committed && id !in PendingOf(db, sid)
    ensures RowsOk(db.bound[id := row.key], db.committed, PendingOf(db, sid)[id := row])
  {
    var mine, visible := PendingOf(db, sid), Visible(db, sid);
    assert sid in db.pending ==> RowsOk(db.bound, db.committed, db.pending[sid]);
    assert forall x | x in mine :: x in visible && visible[x] == mine[x];
    assert forall x | x in db.committed && x !in mine :: x in visible && visible[x] == db.committed[x];
  }

  lemma InsertedRowsApart(db: Db, sid: nat, id: Id, row: Row, t: nat)
    requires TablesInv(db.committed, db.pending, db.bound) && t in db.pending && t != sid
    requires id !in db.pending[t] && !HasKey(db.pending[t], row.key)
    ensures Disjoint(PendingOf(db, sid)[id := row], db.pending[t])
  {
    if sid in db.pending { assert Disjoint(db.pending[sid], db.pending[t]); }
  }

  lemma InsertKeepsTables(db: Db, step: Step)
    requires TablesInv(db.committed, db.pending, db.bound) && step.Insert? && Enabled(db, step)
    requires !HasKey(Visible(db, step.sid), step.idem)
    ensures var row := Row(step.host, step.idem);
            TablesInv(db.committed, db.pending[step.sid := PendingOf(db, step.sid)[step.id := row]],
                      db.bound[step.id := step.idem])
  {
    var row := Row(step.host, step.idem);
    InsertedRowsOk(db, step.sid, step.id, row);
    forall t | t in db.pending && t != step.sid
      ensures Disjoint(PendingOf(db, step.sid)[step.id := row], db.pending[t])
      ensures RowsOk(db.bound[step.id := step.idem], db.committed, db.pending[t])
    {
      assert RowsOk(db.bound, db.committed, db.pending[t]);
      InsertedRowsApart(db, step.sid, step.id, row, t);
    }
  }

  lemma InsertKeepsCaches(capacity: nat, db: Db, step: Step)
    requires CachesInv(capacity, db.caches, db.bound) && step.Insert? && Enabled(db, step)
    requires CacheOk(capacity, db.bound, CacheOf(db, step.pid))
    requires !HasKey(Visible(db, step.sid), step.idem)
    ensures CachesInv(capacity, Apply(capacity, db, step).caches, db.bound[step.id := step.idem])
  {
    var bound := db.bound[step.id := step.idem];
    forall p | p in db.caches
      ensures CacheOk(capacity, bound, db.caches[p])
    {
      CacheOkGrows(capacity, db.bound, db.caches[p], step.id, step.idem);
    }
    CacheOkGrows(capacity, db.bound, CacheOf(db, step.pid), step.id, step.idem);
    if step.idem.Some? { RememberKeeps(capacity, bound, CacheOf(db, step.pid), step.idem.value, step.id); }
  }

  lemma InsertKeepsInv(capacity: nat, db: Db, step: Step)
    requires Inv(capacity, db) && step.Insert? && Enabled(db, step) && !HasKey(Visible(db, step.sid), step.idem)
    ensures Inv(capacity, Apply(capacity, db, step))
  {
    CacheOfOk(capacity, db, step.pid);
    InsertKeepsTables(db, step);
    InsertKeepsCaches(capacity, db, step);
  }

  lemma CommitKeepsOther(db: Db, sid: nat, s: nat)
    requires TablesInv(db.committed, db.pending, db.bound) && s in db.pending && s != sid
    ensures RowsOk(db.bound, Visible(db, sid), db.pending[s])
  {
    assert RowsOk(db.bound, db.committed, db.pending[s]);
    if sid in db.pending { assert Disjoint(db.pending[s], db.pending[sid]); }
  }

  lemma NewCommittedKeeps(committed: Table, pending: map<nat, Table>, bound: map<Id, Option<Key>>, next: Table)
    requires TablesInv(committed, pending, bound) && UniqueKeys(next) && Bound(bound, next)
    requires forall s | s in pending :: RowsOk(bound, next, pending[s])
    ensures TablesInv(next, pending, bound)
  {
  }

  lemma {:induction false} CommitKeepsInv(capacity: nat, db: Db, step: Step)
    requires Inv(capacity, db) && step.Commit?
    ensures Inv(capacity, Apply(capacity, db, step))
  {
    var visible := Visible(db, step.sid);
    var pending := db.pending[step.sid := map[]];
    DropPendingKeeps(db.committed, db.pending, db.bound, step.sid);
    assert UniqueKeys(visible) && Bound(db.bound, visible) by { VisibleUnique(capacity, db, step.sid); }
    forall s | s in pending
      ensures RowsOk(db.bound, visible, pending[s])
    {
      if s != step.sid { CommitKeepsOther(db, step.sid, s); }
    }
    NewCommittedKeeps(db.committed, pending, db.bound, visible);
  }

  lemma StepKeepsInv(capacity: nat, db: Db, step: Step)
    requires Inv(capacity, db) && Enabled(db, step)
    ensures Inv(capacity, Apply(capacity, db, step))
  {
    match step
    case Lookup(pid, sid, key) =>
      VisibleUnique(capacity, db, sid);
      CacheOfOk(capacity, db, pid);
      CachedLookupIsLookupByKey(capacity, db.bound, CacheOf(db, pid), Visible(db, sid), LoadedOf(db, sid), key);
    case Insert(_, sid, _, _, key) =>
      if HasKey(Visible(db, sid), key) {
        ConflictKeepsInv(capacity, db, step);
      } else {
        InsertKeepsInv(capacity, db, step);
      }
    case Commit(_) => CommitKeepsInv(capacity, db, step);
    case Rollback(sid) => DropPendingKeeps(db.committed, db.pending, db.bound, sid);
    case Delete(_) =>
      forall s | s in db.pending
        ensures RowsOk(db.bound, Apply(capacity, db, step).committed, db.pending[s])
      {
        assert RowsOk(db.bound, db.committed, db.pending[s]);
      }
  }

  lemma {:induction false} EveryRunKeeps(capacity: nat, steps: seq<Step>)
    requires Possible(capacity, steps)
    ensures Inv(capacity, Ran(capacity, steps))
    decreases |steps|
  {
    if steps != [] {
      EveryRunKeeps(capacity, steps[..|steps| - 1]);
      StepKeepsInv(capacity, Ran(capacity, steps[..|steps| - 1]), steps[|steps| - 1]);
    }
  }

  ghost predicate StaleIn(db: Db, pid: nat, sid: nat, key: Key) {
    Stale(CacheOf(db, pid), Visible(db, sid), LoadedOf(db, sid), key)
  }

  /** In every run with caller rollbacks, deletions, evictions and several processes: the cached
      look-up of any process through any session returns what a look-up by key alone returns, if and
      only if the cached row is not one that the session holds and somebody deleted; a key has at
      most one row in what a session sees, and caches stay within capacity. */
  lemma CacheIsTransparent(capacity: nat, steps: seq<Step>, pid: nat, sid: nat, key: Key)
    requires Possible(capacity, steps)
    ensures var db := Ran(capacity, steps);
            && (LookupIn(capacity, db, pid, sid, key).1 == ByKey(Visible(db, sid), key) <==> !StaleIn(db, pid, sid, key))
            && UniqueKeys(Visible(db, sid)) && UniqueKeys(db.committed)
            && |CacheOf(db, pid)| <= capacity
  {
    EveryRunKeeps(capacity, steps);
    var db := Ran(capacity, steps);
    VisibleUnique(capacity, db, sid);
    CacheOfOk(capacity, db, pid);
    CachedLookupIsLookupByKey(capacity, db.bound, CacheOf(db, pid), Visible(db, sid), LoadedOf(db, sid), key);
  }

  // ---------------------------------------------------------------- deletions and held rows

  /** Every session can still see what it holds. */
  ghost predicate HeldVisible(db: Db) {
    forall sid, id | id in LoadedOf(db, sid) :: id in Visible(db, sid)
  }

  lemma LookupKeepsHeldVisible(capacity: nat, db: Db, pid: nat, sid: nat, key: Key)
    requires HeldVisible(db)
    ensures HeldVisible(Apply(capacity, db, Lookup(pid, sid, key)))
  {
    var next, found := Apply(capacity, db, Lookup(pid, sid, key)), LookupIn(capacity, db, pid, sid, key).1;
    assert found.Some? ==> Gets(Visible(db, sid), LoadedOf(db, sid), found.value);
    forall s, id | id in LoadedOf(next, s)
      ensures id in Visible(next, s)
    {
      assert id in LoadedOf(db, s) || (s == sid && found == Some(id));
    }
  }

  lemma InsertKeepsHeldVisible(capacity: nat, db: Db, step: Step)
    requires HeldVisible(db) && step.Insert? && Enabled(db, step)
    ensures HeldVisible(Apply(capacity, db, step))
  {
    var next := Apply(capacity, db, step);
    forall s, id | id in LoadedOf(next, s)
      ensures id in Visible(next, s)
    {
      assert s != step.sid ==> id in LoadedOf(db, s);
    }
  }

  lemma StepKeepsHeldVisible(capacity: nat, db: Db, step: Step)
    requires HeldVisible(db) && Enabled(db, step) && !step.Delete?
    ensures HeldVisible(Apply(capacity, db, step))
  {
    if step.Lookup? {
      LookupKeepsHeldVisible(capacity, db, step.pid, step.sid, step.key);
    } else if step.Insert? {
      InsertKeepsHeldVisible(capacity, db, step);
    } else {
      var next := Apply(capacity, db, step);
      forall s, id | id in LoadedOf(next, s)
        ensures id in Visible(next, s)
      {
        assert id in LoadedOf(db, s) && id in Visible(db, s);
      }
    }
  }

  lemma {:induction false} HeldVisibleWithoutDeletions(capacity: nat, steps: seq<Step>)
    requires Possible(capacity, steps) && forall i | 0 <= i < |steps| :: !steps[i].Delete?
    ensures HeldVisible(Ran(capacity, steps))
    decreases |steps|
  {
    if steps != [] {
      HeldVisibleWithoutDeletions(capacity, steps[..|steps| - 1]);
      StepKeepsHeldVisible(capacity, Ran(capacity, steps[..|steps| - 1]), steps[|steps| - 1]);
    }
  }

  /** Without deletions nothing is ever stale: cached and plain look-up agree in every run. */
  lemma {:induction false} TransparentWithoutDeletions(capacity: nat, steps: seq<Step>, pid: nat, sid: nat, key: Key)
    requires Possible(capacity, steps) && forall i | 0 <= i < |steps| :: !steps[i].Delete?
    ensures var db := Ran(capacity, steps); LookupIn(capacity, db, pid, sid, key).1 == ByKey(Visible(db, sid), key)
  {
    CacheIsTransparent(capacity, steps, pid, sid, key);
    HeldVisibleWithoutDeletions(capacity, steps);
  }

  lemma Extend(capacity: nat, steps: seq<Step>, step: Step, longer: seq<Step>)
    requires Possible(capacity, steps) && Enabled(Ran(capacity, steps), step) && longer == steps + [step]
    ensures Possible(capacity, longer) && Ran(capacity, longer) == Apply(capacity, Ran(capacity, steps), step)
  {
    assert longer[..|longer| - 1] == steps;
  }

  /** A session that enqueued and committed a command keeps getting it after another process
      deleted the row. */
  lemma HeldRowOutlivesItsDeletion(capacity: nat, id: Id, host: string, key: Key)
    requires capacity >= 1
    ensures var steps := [Insert(0, 0, id, host, Some(key)), Commit(0), Delete(id)];
            && Possible(capacity, steps)
            && var db := Ran(capacity, steps);
               LookupIn(capacity, db, 0, 0, key).1 == Some(id) && ByKey(Visible(db, 0), key) == None
  {
    var s1 := [Insert(0, 0, id, host, Some(key))];
    var s2 := [Insert(0, 0, id, host, Some(key)), Commit(0)];
    Extend(capacity, [], Insert(0, 0, id, host, Some(key)), s1);
    var db := Ran(capacity, s1);
    assert Remember(capacity, [], key, id) == [(key, id)];
    assert CacheOf(db, 0) == [(key, id)] && LoadedOf(db, 0) == {id} && PendingOf(db, 0) == map[id := Row(host, Some(key))];
    Extend(capacity, s1, Commit(0), s2);
    Extend(capacity, s2, Delete(id), [Insert(0, 0, id, host, Some(key)), Commit(0), Delete(id)]);
  }

  // ---------------------------------------------------------------- one key for several hosts

  datatype Issue = Issue(id: Id, host: string)

  /** One call of `enqueue` with a key and no interruption; None when its insert must wait. */
  ghost function Enqueue(capacity: nat, db: Db, pid: nat, sid: nat, key: Key, issue: Issue): (Db, Option<Id>) {
    var looked := Apply(capacity, db, Lookup(pid, sid, key));
    var found := LookupIn(capacity, db, pid, sid, key).1;
    var insert := Insert(pid, sid, issue.id, issue.host, Some(key));
    if found.Some? then (looked, found)
    else if !Enabled(looked, insert) then (looked, None)
    else (Apply(capacity, looked, insert), Some(issue.id))
  }

  /** The dispatcher's loop: one enqueue per host, all with the same key. */
  ghost function EnqueueAll(capacity: nat, db: Db, pid: nat, sid: nat, key: Key, issues: seq<Issue>): (Db, seq<Option<Id>>)
    decreases |issues|
  {
    if issues == [] then (db, [])
    else
      var (next, id) := Enqueue(capacity, db, pid, sid, key, issues[0]);
      var (end, ids) := EnqueueAll(capacity, next, pid, sid, key, issues[1..]);
      (end, [id] + ids)
  }

  /** The session sees row `id` under the key, and the cache knows no other. */
  ghost predicate Known(capacity: nat, db: Db, pid: nat, sid: nat, key: Key, id: Id) {
    && Inv(capacity, db) && id in Visible(db, sid) && Visible(db, sid)[id].key == Some(key)
    && (OM.Get(CacheOf(db, pid), key).Some? ==> OM.Get(CacheOf(db, pid), key) == Some(id))
  }

  lemma RememberBinds(capacity: nat, c: Cache, key: Key, id: Id)
    requires OM.Distinct(c)
    ensures OM.Get(Remember(capacity, c, key, id), key).Some? ==> OM.Get(Remember(capacity, c, key, id), key) == Some(id)
  {
    OM.PutProperties(c, key, id);
    OM.MoveToEndProperties(OM.Put(c, key, id), key);
    EvictProperties(capacity, OM.MoveToEnd(OM.Put(c, key, id), key));
  }

  lemma KnownIsFound(capacity: nat, db: Db, pid: nat, sid: nat, key: Key, id: Id)
    requires Known(capacity, db, pid, sid, key, id)
    ensures LookupIn(capacity, db, pid, sid, key).1 == Some(id)
    ensures Known(capacity, Apply(capacity, db, Lookup(pid, sid, key)), pid, sid, key, id)
  {
    VisibleUnique(capacity, db, sid);
    CacheOfOk(capacity, db, pid);
    StepKeepsInv(capacity, db, Lookup(pid, sid, key));
    assert ByKey(Visible(db, sid), key) == Some(id);
    OM.MoveToEndProperties(CacheOf(db, pid), key);
    if OM.Get(CacheOf(db, pid), key).None? { RememberBinds(capacity, CacheOf(db, pid), key, id); }
  }

  lemma {:induction false} KnownKeyAddsNothing(
    capacity: nat, db: Db, pid: nat, sid: nat, key: Key, issues: seq<Issue>, id: Id)
    requires Known(capacity, db, pid, sid, key, id)
    ensures var (end, ids) := EnqueueAll(capacity, db, pid, sid, key, issues);
            && end.committed == db.committed && end.pending == db.pending
            && |ids| == |issues| && forall x | x in ids :: x == Some(id)
    decreases |issues|
  {
    if issues != [] {
      KnownIsFound(capacity, db, pid, sid, key, id);
      KnownKeyAddsNothing(capacity, Apply(capacity, db, Lookup(pid, sid, key)), pid, sid, key, issues[1..], id);
    }
  }

  lemma FirstEnqueueInserts(capacity: nat, db: Db, pid: nat, sid: nat, key: Key, issue: Issue)
    requires Inv(capacity, db) && ByKey(Visible(db, sid), key).None? && !StaleIn(db, pid, sid, key)
    requires Enabled(db, Insert(pid, sid, issue.id, issue.host, Some(key)))
    ensures var (next, id) := Enqueue(capacity, db, pid, sid, key, issue);
            && id == Some(issue.id) && Known(capacity, next, pid, sid, key, issue.id)
            && next.committed == db.committed
            && next.pending == db.pending[sid := PendingOf(db, sid)[issue.id := Row(issue.host, Some(key))]]
  {
    var insert := Insert(pid, sid, issue.id, issue.host, Some(key));
    var looked := Apply(capacity, db, Lookup(pid, sid, key));
    VisibleUnique(capacity, db, sid);
    CacheOfOk(capacity, db, pid);
    CachedLookupIsLookupByKey(capacity, db.bound, CacheOf(db, pid), Visible(db, sid), LoadedOf(db, sid), key);
    StepKeepsInv(capacity, db, Lookup(pid, sid, key));
    assert Enabled(looked, insert) && !HasKey(Visible(looked, sid), Some(key));
    StepKeepsInv(capacity, looked, insert);
    CacheOfOk(capacity, looked, pid);
    RememberBinds(capacity, CacheOf(looked, pid), key, issue.id);
  }

  /** However many hosts one new key is used for, the loop creates a single row, for the first host,
      and every call returns that command. */
  lemma OneKeyMakesOneRow(capacity: nat, db: Db, pid: nat, sid: nat, key: Key, issues: seq<Issue>)
    requires Inv(capacity, db) && ByKey(Visible(db, sid), key).None? && !StaleIn(db, pid, sid, key)
    requires issues != [] && Enabled(db, Insert(pid, sid, issues[0].id, issues[0].host, Some(key)))
    ensures var (end, ids) := EnqueueAll(capacity, db, pid, sid, key, issues);
            && end.committed == db.committed
            && end.pending == db.pending[sid := PendingOf(db, sid)[issues[0].id := Row(issues[0].host, Some(key))]]
            && |ids| == |issues| && forall x | x in ids :: x == Some(issues[0].id)
  {
    var next := Enqueue(capacity, db, pid, sid, key, issues[0]).0;
    FirstEnqueueInserts(capacity, db, pid, sid, key, issues[0]);
    KnownKeyAddsNothing(capacity, next, pid, sid, key, issues[1..], issues[0].id);
    assert EnqueueAll(capacity, db, pid, sid, key, issues).0 == EnqueueAll(capacity, next, pid, sid, key, issues[1..]).0;
  }
}
