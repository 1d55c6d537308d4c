/** The database-backed audit chain under concurrency. Any number of sessions interleave the
    statements of `append`, `force_checkpoint`, commit and rollback. A statement reads some
    committed version of the table that is no older than the one the session read before (this
    covers read-committed and snapshot isolation) plus the session's own uncommitted rows; an
    insert meets the primary key. */
module SqlChain {
  import opened Digests
  import opened Signing
  import opened AuditChain

  type Table = map<nat, Entry>

  /** Where a session stands inside `append`. */
  datatype Pc =
    | Idle
    | Holding(draft: Content, sequence: nat, prev: Digest, retried: bool)
    | Retry(draft: Content)
    | MustCheckpoint

  datatype Session = Session(pending: Table, checkpoints: seq<Checkpoint>, seen: nat, pc: Pc)

  /** All committed versions of the entry table, oldest first, the committed checkpoints, the
      sessions and the signing key. */
  datatype Db = Db(versions: seq<Table>, checkpoints: seq<Checkpoint>, sessions: map<nat, Session>, key: Key)

  datatype Statement =
    | Begin(sid: nat, v: nat, draft: Content)
    | Insert(sid: nat)
    | Reread(sid: nat, v: nat)
    | AutoCheckpoint(sid: nat, v: nat, w: nat, now: int)
    | Force(sid: nat, v: nat, w: nat, now: int)
    | Commit(sid: nat)
    | Rollback(sid: nat)
    | RotateKey(newKey: Key)

  const FRESH: Session := Session(map[], [], 0, Idle)

  function Sess(db: Db, sid: nat): Session {
    if sid in db.sessions then db.sessions[sid] else FRESH
  }

  function Current(db: Db): Table
    requires db.versions != []
  {
    db.versions[|db.versions| - 1]
  }

  // ---------------------------------------------------------------- reading a table

  ghost function MaxKey(keys: set<nat>): (m: nat)
    requires keys != {}
    ensures m in keys && forall q | q in keys :: q <= m
  {
    var x :| x in keys;
    if keys == {x} then x
    else
      var y := MaxKey(keys - {x});
      assert forall q | q in keys :: q == x || q in keys - {x};
      if x >= y then x else y
  }

  /** One past the last sequence in the table: `append` takes it as its own sequence. */
  ghost function NextSequence(t: Table): nat {
    if t.Keys == {} then 0 else MaxKey(t.Keys) + 1
  }

  ghost function LastHash(t: Table): Digest {
    if t.Keys == {} then Genesis else t[MaxKey(t.Keys)].entryHash
  }

  /** SELECT ... ORDER BY sequence ASC. */
  ghost function Ascending(t: Table): seq<Entry>
    decreases t.Keys
  {
    if t.Keys == {} then []
    else
      var m := MaxKey(t.Keys);
      Ascending(t - {m}) + [t[m]]
  }

  function View(versions: seq<Table>, s: Session, v: nat): Table
    requires v < |versions|
  {
    versions[v] + s.pending
  }

  // ---------------------------------------------------------------- the steps

  ghost predicate CanRead(db: Db, sid: nat, v: nat) {
    Sess(db, sid).seen <= v < |db.versions|
  }

  /** An insert waits while another session holds the same key uncommitted. */
  ghost predicate Blocked(db: Db, sid: nat, sequence: nat) {
    exists other :: other in db.sessions && other != sid && sequence in db.sessions[other].pending
  }

  ghost predicate Enabled(db: Db, op: Statement) {
    && db.versions != []
    && match op
       case Begin(sid, v, _) => Sess(db, sid).pc.Idle? && CanRead(db, sid, v)
       case Insert(sid) => Sess(db, sid).pc.Holding? && !Blocked(db, sid, Sess(db, sid).pc.sequence)
       case Reread(sid, v) => Sess(db, sid).pc.Retry? && CanRead(db, sid, v)
       case AutoCheckpoint(sid, v, w, _) =>
         Sess(db, sid).pc.MustCheckpoint? && CanRead(db, sid, v) && v <= w < |db.versions|
         && NextSequence(View(db.versions, Sess(db, sid), v)) > 0
       case Force(sid, v, w, _) =>
         Sess(db, sid).pc.Idle? && CanRead(db, sid, v) && v <= w < |db.versions|
         && NextSequence(View(db.versions, Sess(db, sid), v)) > 0
       case Commit(sid) => Sess(db, sid).pc.Idle?
       case Rollback(sid) => true
       case RotateKey(_) => true
  }

  function Put(db: Db, sid: nat, s: Session): Db {
    db.(sessions := db.sessions[sid := s])
  }

  ghost function ReadSlot(db: Db, sid: nat, v: nat, draft: Content, retried: bool): Db
    requires v < |db.versions|
  {
    var view := View(db.versions, Sess(db, sid), v);
    Put(db, sid, Sess(db, sid).(seen := v, pc := Holding(draft, NextSequence(view), LastHash(view), retried)))
  }

  /** The checkpoint statements: head at version `v`, then all leaves at version `w`. */
  ghost function DrawCheckpoint(db: Db, sid: nat, v: nat, w: nat, now: int): Checkpoint
    requires v < |db.versions| && w < |db.versions| && NextSequence(View(db.versions, Sess(db, sid), v)) > 0
  {
    SignCheckpoint(Ascending(View(db.versions, Sess(db, sid), w)), NextSequence(View(db.versions, Sess(db, sid), v)) - 1, db.key, now)
  }

  /** A commit publishes the session's rows and checkpoints at once. */
  function Committed(db: Db, sid: nat): Db
    requires db.versions != []
  {
    var s := Sess(db, sid);
    Put(db, sid, Session(map[], [], s.seen, Idle)).(
      versions := db.versions + [Current(db) + s.pending],
      checkpoints := db.checkpoints + s.checkpoints)
  }

  predicate CheckpointDue(interval: int, sequence: nat)
    requires interval != 0
  {
    (sequence + 1) % interval == 0
  }

  /** The session after its INSERT. On an IntegrityError the whole transaction rolls back; there
      is one retry, then the error surfaces. */
  function Inserted(interval: int, current: Table, s: Session): Session
    requires interval != 0 && s.pc.Holding?
  {
    var q := s.pc.sequence;
    if q in current || q in s.pending then
      Session(map[], [], s.seen, if s.pc.retried then Idle else Retry(s.pc.draft))
    else
      s.(pending := s.pending[q := Seal(s.pc.draft.(sequence := q), s.pc.prev)],
         pc := if CheckpointDue(interval, q) then MustCheckpoint else Idle)
  }

  ghost function Apply(interval: int, db: Db, op: Statement): Db
    requires interval != 0 && Enabled(db, op)
  {
    match op
    case Begin(sid, v, draft) => ReadSlot(db, sid, v, draft, false)
    case Reread(sid, v) => ReadSlot(db, sid, v, Sess(db, sid).pc.draft, true)
    case Insert(sid) => Put(db, sid, Inserted(interval, Current(db), Sess(db, sid)))
    case AutoCheckpoint(sid, v, w, now) =>
      var s := Sess(db, sid);
      Put(db, sid, s.(checkpoints := s.checkpoints + [DrawCheckpoint(db, sid, v, w, now)], seen := w, pc := Idle))
    case Force(sid, v, w, now) =>
      var s := Sess(db, sid);
      Put(db, sid, s.(checkpoints := s.checkpoints + [DrawCheckpoint(db, sid, v, w, now)], seen := w))
    case Commit(sid) =>
      Committed(db, sid)
    case Rollback(sid) =>
      Put(db, sid, Session(map[], [], Sess(db, sid).seen, Idle))
    case RotateKey(newKey) => db.(key := newKey)
  }

  const START: Db := Db([map[]], [], map[], 0)

  ghost predicate Possible(interval: int, ops: seq<Statement>)
    requires interval != 0
    decreases |ops|, 0
  {
    ops == [] ||
    (Possible(interval, ops[..|ops| - 1]) && Enabled(After(interval, ops[..|ops| - 1]), ops[|ops| - 1]))
  }

  ghost function After(interval: int, ops: seq<Statement>): Db
    requires interval != 0 && Possible(interval, ops)
    decreases |ops|, 1
  {
    if ops == [] then START
    else Apply(interval, After(interval, ops[..|ops| - 1]), ops[|ops| - 1])
  }

  // ---------------------------------------------------------------- linear tables

  ghost predicate RowOk(t: Table, q: nat)
    requires q in t && (q > 0 ==> q - 1 in t)
  {
    && t[q].content.sequence == q
    && t[q].prevHash == (if q == 0 then Genesis else t[q - 1].entryHash)
    && t[q].entryHash == EntryHash(t[q].content, t[q].prevHash)
  }

  /** Exactly the sequences 0..n-1, each row linked to the one before it. */
  ghost predicate Linear(t: Table, n: nat) {
    && (forall q: nat :: q in t <==> q < n)
    && (forall q: nat | q < n :: RowOk(t, q))
  }

  ghost predicate Prefix(a: Table, b: Table) {
    forall q | q in a :: q in b && b[q] == a[q]
  }

  lemma LinearNext(t: Table, n: nat)
    requires Linear(t, n)
    ensures NextSequence(t) == n
    ensures LastHash(t) == if n == 0 then Genesis else t[n - 1].entryHash
  {
    if n > 0 { assert n - 1 in t; }
  }

  lemma LinearExtend(t: Table, n: nat, draft: Content)
    requires Linear(t, n)
    ensures Linear(t[n := Seal(draft.(sequence := n), LastHash(t))], n + 1)
  {
    LinearNext(t, n);
    var t' := t[n := Seal(draft.(sequence := n), LastHash(t))];
    forall q: nat | q < n + 1
      ensures RowOk(t', q)
    {
      if q < n { assert RowOk(t, q); }
    }
  }

  lemma {:induction false} LinearAscending(t: Table, n: nat)
    requires Linear(t, n)
    ensures |Ascending(t)| == n && forall q: nat | q < n :: Ascending(t)[q] == t[q]
    decreases n
  {
    LinearNext(t, n);
    if n > 0 {
      var s := t - {n - 1};
      forall q: nat | q < n - 1
        ensures RowOk(s, q)
      {
        assert RowOk(t, q);
      }
      LinearAscending(s, n - 1);
    }
  }

  lemma LinearIsLinked(t: Table, n: nat)
    requires Linear(t, n)
    ensures Linked(Ascending(t))
  {
    LinearAscending(t, n);
    var rows := Ascending(t);
    forall i | 0 <= i < |rows|
      ensures LinkOk(rows, i)
    {
      assert RowOk(t, i);
    }
  }

  lemma PrefixAscending(a: Table, m: nat, b: Table, n: nat)
    requires Linear(a, m) && Linear(b, n) && Prefix(a, b)
    ensures m <= n && Ascending(a) <= Ascending(b)
  {
    LinearAscending(a, m);
    LinearAscending(b, n);
    assert n in a ==> n in b;
  }

  // ---------------------------------------------------------------- the invariant

  /** Each committed version is linear and continues the one before it; `n` rows in the newest. */
  ghost predicate VersionsOk(versions: seq<Table>, n: nat)
    decreases |versions|
  {
    && versions != []
    && Linear(versions[|versions| - 1], n)
    && (|versions| > 1 ==>
          var before := versions[..|versions| - 1];
          && VersionsOk(before, NextSequence(before[|before| - 1]))
          && Prefix(before[|before| - 1], versions[|versions| - 1]))
  }

  lemma {:induction false} VersionsGrow(versions: seq<Table>, n: nat, v: nat, w: nat)
    requires VersionsOk(versions, n) && v <= w < |versions|
    ensures Prefix(versions[v], versions[w])
    ensures Linear(versions[v], NextSequence(versions[v]))
    decreases |versions|
  {
    var last := |versions| - 1;
    LinearNext(versions[last], n);
    if v < last {
      var before := versions[..last];
      VersionsGrow(before, NextSequence(before[last - 1]), v, if w < last then w else last - 1);
      assert before[v] == versions[v] && before[last - 1] == versions[last - 1];
    }
  }

  /** What holds of one session: its uncommitted rows continue the newest version, and the slot
      it holds is the next one of what it last read. */
  ghost predicate SessionOk(versions: seq<Table>, n: nat, s: Session)
    requires versions != []
  {
    var current := versions[|versions| - 1];
    && s.seen < |versions|
    && (forall q | q in s.pending :: q >= n)
    && Linear(current + s.pending, NextSequence(current + s.pending))
    && (s.pending != map[] ==> versions[s.seen] == current)
    && (s.pc.MustCheckpoint? ==> s.pending != map[])
    && (s.pc.Holding? ==>
          && s.pc.sequence == NextSequence(View(versions, s, s.seen))
          && s.pc.prev == LastHash(View(versions, s, s.seen)))
  }

  /** At most one session holds uncommitted rows. */
  ghost predicate OneWriter(sessions: map<nat, Session>) {
    forall a, b | a in sessions && b in sessions && sessions[a].pending != map[] && sessions[b].pending != map[] ::
      a == b
  }

  /** `n` is the number of committed rows. */
  ghost predicate Inv(db: Db, n: nat) {
    && VersionsOk(db.versions, n)
    && (forall sid | sid in db.sessions :: SessionOk(db.versions, n, db.sessions[sid]))
    && OneWriter(db.sessions)
  }

  /** A session with nothing uncommitted and no slot in hand is always in order. */
  lemma QuietSessionOk(versions: seq<Table>, n: nat, s: Session)
    requires VersionsOk(versions, n) && s.pending == map[] && s.seen < |versions|
    requires s.pc.Idle? || s.pc.Retry?
    ensures SessionOk(versions, n, s)
  {
    var current := versions[|versions| - 1];
    assert current + s.pending == current;
    LinearNext(current, n);
  }

  lemma SessIsOk(db: Db, n: nat, sid: nat)
    requires Inv(db, n)
    ensures SessionOk(db.versions, n, Sess(db, sid))
  {
    if sid !in db.sessions { QuietSessionOk(db.versions, n, FRESH); }
  }

  /** Replacing one session: only that session has to be looked at. */
  lemma PutKeepsInv(db: Db, n: nat, sid: nat, s: Session)
    requires Inv(db, n) && SessionOk(db.versions, n, s)
    requires s.pending == map[] || forall x | x in db.sessions && x != sid :: db.sessions[x].pending == map[]
    ensures Inv(Put(db, sid, s), n)
  {
  }

  /** While a session writes, the others do not. */
  lemma OthersQuiet(db: Db, n: nat, sid: nat)
    requires Inv(db, n) && Sess(db, sid).pending != map[]
    ensures forall x | x in db.sessions && x != sid :: db.sessions[x].pending == map[]
  {
  }

  /** Versions between the one a writing session read and the newest are all the newest. */
  lemma WriterSeesCurrent(versions: seq<Table>, n: nat, s: Session, v: nat)
    requires VersionsOk(versions, n) && SessionOk(versions, n, s) && s.pending != map[]
    requires s.seen <= v < |versions|
    ensures versions[v] == versions[|versions| - 1]
  {
    VersionsGrow(versions, n, s.seen, v);
    VersionsGrow(versions, n, v, |versions| - 1);
    assert forall q :: q in versions[v] <==> q in versions[|versions| - 1];
  }

  lemma ReadKeepsInv(db: Db, n: nat, sid: nat, v: nat, draft: Content, retried: bool)
    requires Inv(db, n) && CanRead(db, sid, v)
    ensures Inv(ReadSlot(db, sid, v, draft, retried), n)
  {
    var s := Sess(db, sid);
    SessIsOk(db, n, sid);
    var view := View(db.versions, s, v);
    var s' := s.(seen := v, pc := Holding(draft, NextSequence(view), LastHash(view), retried));
    if s.pending != map[] {
      WriterSeesCurrent(db.versions, n, s, v);
      OthersQuiet(db, n, sid);
    }
    assert View(db.versions, s', v) == view;
    PutKeepsInv(db, n, sid, s');
  }

  /** A version that lacks none of the newest version's rows is the newest version. */
  lemma FullVersionIsCurrent(was: Table, current: Table, n: nat)
    requires Linear(was, NextSequence(was)) && Linear(current, n) && Prefix(was, current)
    requires NextSequence(was) !in current
    ensures was == current && NextSequence(was) == n
  {
    PrefixAscending(was, NextSequence(was), current, n);
    assert forall q: nat :: q in was <==> q in current;
  }

  /** What a conflict-free insert knows: its slot is the first free one of the newest version. */
  lemma InsertHitsFirstFree(versions: seq<Table>, n: nat, s: Session)
    requires VersionsOk(versions, n) && SessionOk(versions, n, s) && s.pc.Holding?
    requires s.pc.sequence !in versions[|versions| - 1]
    ensures var current := versions[|versions| - 1];
            && s.pc.sequence == NextSequence(current + s.pending) >= n
            && s.pc.prev == LastHash(current + s.pending)
            && versions[s.seen] == current
  {
    var current, was := versions[|versions| - 1], versions[s.seen];
    if s.pending == map[] {
      assert View(versions, s, s.seen) == was && current + s.pending == current;
      VersionsGrow(versions, n, s.seen, |versions| - 1);
      FullVersionIsCurrent(was, current, n);
    } else {
      var q :| q in s.pending;
      assert q in current + s.pending;
      LinearNext(current + s.pending, NextSequence(current + s.pending));
    }
  }

  lemma InsertedSessionOk(versions: seq<Table>, n: nat, s: Session, pc: Pc)
    requires VersionsOk(versions, n) && SessionOk(versions, n, s) && s.pc.Holding?
    requires s.pc.sequence !in versions[|versions| - 1]
    requires pc.Idle? || pc.MustCheckpoint?
    ensures var row := Seal(s.pc.draft.(sequence := s.pc.sequence), s.pc.prev);
            SessionOk(versions, n, s.(pending := s.pending[s.pc.sequence := row], pc := pc))
  {
    var current, q := versions[|versions| - 1], s.pc.sequence;
    var row := Seal(s.pc.draft.(sequence := q), s.pc.prev);
    InsertHitsFirstFree(versions, n, s);
    LinearExtend(current + s.pending, q, s.pc.draft);
    assert current + s.pending[q := row] == (current + s.pending)[q := row];
    LinearNext(current + s.pending[q := row], q + 1);
    assert q in s.pending[q := row];
  }

  lemma EmptyHandedSlot(versions: seq<Table>, n: nat, s: Session)
    requires VersionsOk(versions, n) && SessionOk(versions, n, s) && s.pc.Holding? && s.pending == map[]
    requires s.pc.sequence !in versions[|versions| - 1]
    ensures s.pc.sequence == n
  {
    InsertHitsFirstFree(versions, n, s);
    assert versions[|versions| - 1] + s.pending == versions[|versions| - 1];
    LinearNext(versions[|versions| - 1], n);
  }

  /** Whoever holds uncommitted rows holds the first free sequence, so an unblocked insert of
      that sequence has no rival. */
  lemma UnblockedHasNoRival(db: Db, n: nat, sid: nat, x: nat)
    requires Inv(db, n) && Enabled(db, Insert(sid)) && x in db.sessions && x != sid
    requires Sess(db, sid).pc.sequence !in Current(db)
    ensures db.sessions[x].pending == map[]
  {
    var s, rival := Sess(db, sid), db.sessions[x];
    SessIsOk(db, n, sid);
    assert s.pc.sequence !in rival.pending;
    if s.pending == map[] {
      EmptyHandedSlot(db.versions, n, s);
      if q :| q in rival.pending {
        RivalHoldsFirstFree(db.versions, n, rival, q);
      }
    }
  }

  lemma RivalHoldsFirstFree(versions: seq<Table>, n: nat, s: Session, q: nat)
    requires VersionsOk(versions, n) && SessionOk(versions, n, s) && q in s.pending
    ensures n in s.pending
  {
    var all := versions[|versions| - 1] + s.pending;
    LinearNext(all, NextSequence(all));
    assert q in all;
    assert n in all;
  }

  lemma ConflictKeepsInv(db: Db, n: nat, sid: nat, pc: Pc)
    requires Inv(db, n) && (pc.Idle? || pc.Retry?)
    ensures Inv(Put(db, sid, Session(map[], [], Sess(db, sid).seen, pc)), n)
  {
    SessIsOk(db, n, sid);
    QuietSessionOk(db.versions, n, Session(map[], [], Sess(db, sid).seen, pc));
    PutKeepsInv(db, n, sid, Session(map[], [], Sess(db, sid).seen, pc));
  }

  lemma FreeInsertKeepsInv(db: Db, n: nat, sid: nat, pc: Pc)
    requires Inv(db, n) && Enabled(db, Insert(sid)) && (pc.Idle? || pc.MustCheckpoint?)
    requires Sess(db, sid).pc.sequence !in Current(db)
    ensures var s := Sess(db, sid);
            var row := Seal(s.pc.draft.(sequence := s.pc.sequence), s.pc.prev);
            Inv(Put(db, sid, s.(pending := s.pending[s.pc.sequence := row], pc := pc)), n)
  {
    var s := Sess(db, sid);
    var row := Seal(s.pc.draft.(sequence := s.pc.sequence), s.pc.prev);
    SessIsOk(db, n, sid);
    InsertedSessionOk(db.versions, n, s, pc);
    forall x | x in db.sessions && x != sid
      ensures db.sessions[x].pending == map[]
    {
      UnblockedHasNoRival(db, n, sid, x);
    }
    PutKeepsInv(db, n, sid, s.(pending := s.pending[s.pc.sequence := row], pc := pc));
  }

  lemma {:induction false} InsertKeepsInv(interval: int, db: Db, n: nat, sid: nat)
    requires interval != 0 && Inv(db, n) && Enabled(db, Insert(sid))
    ensures Inv(Put(db, sid, Inserted(interval, Current(db), Sess(db, sid))), n)
  {
    var s := Sess(db, sid);
    var q := s.pc.sequence;
    if q in Current(db) || q in s.pending {
      ConflictKeepsInv(db, n, sid, if s.pc.retried then Idle else Retry(s.pc.draft));
    } else {
      FreeInsertKeepsInv(db, n, sid, if CheckpointDue(interval, q) then MustCheckpoint else Idle);
    }
  }

  lemma CheckpointKeepsInv(db: Db, n: nat, sid: nat, w: nat, cs: seq<Checkpoint>)
    requires Inv(db, n) && CanRead(db, sid, w)
    ensures Inv(Put(db, sid, Sess(db, sid).(checkpoints := cs, seen := w, pc := Idle)), n)
  {
    var s := Sess(db, sid);
    SessIsOk(db, n, sid);
    if s.pending != map[] {
      WriterSeesCurrent(db.versions, n, s, w);
      OthersQuiet(db, n, sid);
    }
    PutKeepsInv(db, n, sid, s.(checkpoints := cs, seen := w, pc := Idle));
  }

  lemma CommittedVersionsOk(versions: seq<Table>, n: nat, s: Session)
    requires VersionsOk(versions, n) && SessionOk(versions, n, s)
    ensures var next := versions[|versions| - 1] + s.pending;
            && Prefix(versions[|versions| - 1], next)
            && n <= NextSequence(next) && VersionsOk(versions + [next], NextSequence(next))
  {
    var current := versions[|versions| - 1];
    var next := current + s.pending;
    assert Prefix(current, next);
    PrefixAscending(current, n, next, NextSequence(next));
    assert (versions + [next])[..|versions|] == versions;
    LinearNext(current, n);
  }

  /** A commit leaves the sessions that write nothing, or commits nothing, in order. */
  lemma CommitKeepsOther(versions: seq<Table>, n: nat, next: Table, s: Session)
    requires VersionsOk(versions, n) && SessionOk(versions, n, s)
    requires VersionsOk(versions + [next], NextSequence(next))
    requires s.pending == map[] || next == versions[|versions| - 1]
    ensures SessionOk(versions + [next], NextSequence(next), s)
  {
    var versions' := versions + [next];
    assert versions'[s.seen] == versions[s.seen];
    if s.pending == map[] {
      assert next + s.pending == next;
    } else {
      LinearNext(next, n);
    }
  }

  lemma NewVersionKeepsInv(db: Db, n: nat, next: Table, cs: seq<Checkpoint>)
    requires Inv(db, n) && VersionsOk(db.versions + [next], NextSequence(next))
    requires next == Current(db) || forall x | x in db.sessions :: db.sessions[x].pending == map[]
    ensures Inv(db.(versions := db.versions + [next], checkpoints := cs), NextSequence(next))
  {
    forall x | x in db.sessions
      ensures SessionOk(db.versions + [next], NextSequence(next), db.sessions[x])
    {
      CommitKeepsOther(db.versions, n, next, db.sessions[x]);
    }
  }

  lemma ClosedSessionInv(db: Db, n: nat, sid: nat)
    requires Inv(db, n)
    ensures var s := Sess(db, sid);
            var closed := Put(db, sid, Session(map[], [], s.seen, Idle));
            && Inv(closed, n)
            && (s.pending != map[] ==> forall x | x in closed.sessions :: closed.sessions[x].pending == map[])
  {
    var s := Sess(db, sid);
    SessIsOk(db, n, sid);
    QuietSessionOk(db.versions, n, Session(map[], [], s.seen, Idle));
    PutKeepsInv(db, n, sid, Session(map[], [], s.seen, Idle));
    if s.pending != map[] { OthersQuiet(db, n, sid); }
  }

  lemma CommitKeepsInv(db: Db, n: nat, sid: nat) returns (n': nat)
    requires Inv(db, n)
    ensures Inv(Committed(db, sid), n') && n <= n'
    ensures Prefix(Current(db), Current(Committed(db, sid)))
  {
    var s := Sess(db, sid);
    var next := Current(db) + s.pending;
    n' := NextSequence(next);
    SessIsOk(db, n, sid);
    CommittedVersionsOk(db.versions, n, s);
    ClosedSessionInv(db, n, sid);
    if s.pending == map[] { assert next == Current(db); }
    NewVersionKeepsInv(Put(db, sid, Session(map[], [], s.seen, Idle)), n, next, db.checkpoints + s.checkpoints);
  }

  lemma DrawKeepsInv(interval: int, db: Db, n: nat, op: Statement)
    requires interval != 0 && Inv(db, n) && Enabled(db, op) && (op.AutoCheckpoint? || op.Force?)
    ensures Inv(Apply(interval, db, op), n)
  {
    var s := Sess(db, op.sid);
    CheckpointKeepsInv(db, n, op.sid, op.w, s.checkpoints + [DrawCheckpoint(db, op.sid, op.v, op.w, op.now)]);
  }

  lemma ReadStepKeepsInv(interval: int, db: Db, n: nat, op: Statement)
    requires interval != 0 && Inv(db, n) && Enabled(db, op) && (op.Begin? || op.Reread?)
    ensures Inv(Apply(interval, db, op), n)
  {
    if op.Begin? {
      ReadKeepsInv(db, n, op.sid, op.v, op.draft, false);
    } else {
      ReadKeepsInv(db, n, op.sid, op.v, Sess(db, op.sid).pc.draft, true);
    }
  }

  lemma RollbackKeepsInv(interval: int, db: Db, n: nat, op: Statement)
    requires interval != 0 && Inv(db, n) && Enabled(db, op) && op.Rollback?
    ensures Inv(Apply(interval, db, op), n)
  {
    ConflictKeepsInv(db, n, op.sid, Idle);
  }

  lemma OnlyCommitAddsVersions(interval: int, db: Db, op: Statement)
    requires interval != 0 && Enabled(db, op) && !op.Commit?
    ensures Apply(interval, db, op).versions == db.versions
  {
  }

  lemma UncommittedStepKeepsInv(interval: int, db: Db, n: nat, op: Statement)
    requires interval != 0 && Inv(db, n) && Enabled(db, op) && !op.Commit? && !op.RotateKey?
    ensures Inv(Apply(interval, db, op), n)
  {
    if op.Begin? || op.Reread? {
      ReadStepKeepsInv(interval, db, n, op);
    } else if op.Insert? {
      InsertKeepsInv(interval, db, n, op.sid);
    } else if op.AutoCheckpoint? || op.Force? {
      DrawKeepsInv(interval, db, n, op);
    } else {
      RollbackKeepsInv(interval, db, n, op);
    }
  }

  lemma StepKeepsInv(interval: int, db: Db, n: nat, op: Statement) returns (n': nat)
    requires interval != 0 && Inv(db, n) && Enabled(db, op)
    ensures n <= n' && Inv(Apply(interval, db, op), n')
    ensures Prefix(Current(db), Current(Apply(interval, db, op)))
  {
    if op.Commit? {
      n' := CommitKeepsInv(db, n, op.sid);
    } else {
      n' := n;
      OnlyCommitAddsVersions(interval, db, op);
      if !op.RotateKey? { UncommittedStepKeepsInv(interval, db, n, op); }
    }
  }

  /** For every interleaving: the committed rows are exactly 0..n-1, correctly linked, so the
      verifier's walk over them succeeds, and the last step changed or lost no committed row. */
  lemma {:induction false} EveryInterleavingIsLinear(interval: int, ops: seq<Statement>) returns (n: nat)
    requires interval != 0 && Possible(interval, ops)
    ensures Inv(After(interval, ops), n)
    ensures Linear(Current(After(interval, ops)), n)
    ensures Linked(Ascending(Current(After(interval, ops))))
    ensures ops != [] ==>
              var before := After(interval, ops[..|ops| - 1]);
              before.versions != [] && Prefix(Current(before), Current(After(interval, ops)))
    decreases |ops|
  {
    if ops == [] {
      n := 0;
    } else {
      var m := EveryInterleavingIsLinear(interval, ops[..|ops| - 1]);
      n := StepKeepsInv(interval, After(interval, ops[..|ops| - 1]), m, ops[|ops| - 1]);
    }
    LinearIsLinked(Current(After(interval, ops)), n);
  }
}
