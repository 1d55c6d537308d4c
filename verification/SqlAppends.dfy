/** What the appenders of the database-backed chain get. A ledger follows the appends of a run from
    their first statement to their commit; the committed table is then exactly the committed
    appends, in order, each row holding what its appender passed in. */
module SqlAppends {
  import opened Digests
  import opened AuditChain
  import opened SqlChain
  import opened SqlCheckpoints

  /** An append in progress is known by the position of its `Begin` in the run. */
  datatype Attempt = NoAttempt | Attempt(begin: nat, again: bool)

  /** A session's append in progress, and the appends that wrote its uncommitted rows. */
  datatype Work = Work(attempt: Attempt, written: seq<nat>)

  datatype Ledger = Ledger(work: map<nat, Work>, committed: seq<nat>)

  function WorkOf(g: Ledger, sid: nat): Work {
    if sid in g.work then g.work[sid] else Work(NoAttempt, [])
  }

  /** Statement number `i`. An insert that meets the primary key costs the session its uncommitted
      appends, and its own append too when that was the second attempt. */
  ghost function Note(db: Db, g: Ledger, op: Statement, i: nat): Ledger
    requires Enabled(db, op)
  {
    match op
    case Begin(sid, _, _) => g.(work := g.work[sid := WorkOf(g, sid).(attempt := Attempt(i, false))])
    case Insert(sid) =>
      var w := WorkOf(g, sid);
      if w.attempt.NoAttempt? then g
      else if ConflictIn(db, sid) then
        g.(work := g.work[sid := Work(if w.attempt.again then NoAttempt else Attempt(w.attempt.begin, true), [])])
      else
        g.(work := g.work[sid := Work(NoAttempt, w.written + [w.attempt.begin])])
    case Commit(sid) =>
      Ledger(g.work[sid := WorkOf(g, sid).(written := [])], g.committed + WorkOf(g, sid).written)
    case Rollback(sid) => g.(work := g.work[sid := Work(NoAttempt, [])])
    case _ => g
  }

  ghost function LedgerOf(interval: int, ops: seq<Statement>): Ledger
    requires interval != 0 && Possible(interval, ops)
  {
    if ops == [] then Ledger(map[], [])
    else
      var m := |ops| - 1;
      Note(After(interval, ops[..m]), LedgerOf(interval, ops[..m]), ops[m], m)
  }

  // ---------------------------------------------------------------- the ledger tells the table

  predicate Distinct(s: seq<nat>) {
    forall i, j | 0 <= i < j < |s| :: s[i] != s[j]
  }

  predicate BegunBy(ops: seq<Statement>, b: nat, sid: nat) {
    b < |ops| && ops[b].Begin? && ops[b].sid == sid
  }

  /** The rows from `from` on hold the drafts of the appends `who`, in order. */
  predicate RowsHold(ops: seq<Statement>, t: Table, from: nat, who: seq<nat>) {
    forall j | 0 <= j < |who| ::
      && who[j] < |ops| && ops[who[j]].Begin?
      && from + j in t && t[from + j].content == ops[who[j]].draft.(sequence := from + j)
  }

  function Begun(a: Attempt): seq<nat> {
    if a.Attempt? then [a.begin] else []
  }

  /** The session is inside the append the ledger says, with that append's draft in hand. */
  predicate AttemptTold(ops: seq<Statement>, sid: nat, pc: Pc, a: Attempt) {
    match a
    case NoAttempt => pc.Idle? || pc.MustCheckpoint?
    case Attempt(b, again) =>
      && BegunBy(ops, b, sid)
      && (pc.Holding? || pc.Retry?) && pc.draft == ops[b].draft
      && (if pc.Holding? then pc.retried == again else again)
  }

  /** One session against its line of the ledger: `current` are the committed rows. */
  ghost predicate SessionTold(ops: seq<Statement>, current: Table, committed: seq<nat>, sid: nat, s: Session, w: Work) {
    && AttemptTold(ops, sid, s.pc, w.attempt)
    && NextSequence(current + s.pending) == |committed| + |w.written|
    && RowsHold(ops, current + s.pending, |committed|, w.written)
    && (forall j | 0 <= j < |w.written| :: BegunBy(ops, w.written[j], sid))
    && Distinct(committed + w.written + Begun(w.attempt))
  }

  ghost predicate Told(ops: seq<Statement>, db: Db, g: Ledger) {
    && db.versions != []
    && NextSequence(Current(db)) == |g.committed|
    && RowsHold(ops, Current(db), 0, g.committed)
    && forall sid: nat :: SessionTold(ops, Current(db), g.committed, sid, Sess(db, sid), WorkOf(g, sid))
  }

  /** More statements change nothing about the earlier ones. */
  lemma LaterTold(ops: seq<Statement>, op: Statement, current: Table, committed: seq<nat>, sid: nat, s: Session, w: Work)
    requires SessionTold(ops, current, committed, sid, s, w)
    ensures SessionTold(ops + [op], current, committed, sid, s, w)
  {
    var more := ops + [op];
    assert forall b | 0 <= b < |ops| :: more[b] == ops[b];
    forall j | 0 <= j < |w.written|
      ensures BegunBy(more, w.written[j], sid)
    {
      assert BegunBy(ops, w.written[j], sid);
    }
    RowsHoldLater(ops, op, current + s.pending, |committed|, w.written);
  }

  lemma RowsHoldLater(ops: seq<Statement>, op: Statement, t: Table, from: nat, who: seq<nat>)
    requires RowsHold(ops, t, from, who)
    ensures RowsHold(ops + [op], t, from, who)
  {
    var more := ops + [op];
    forall j | 0 <= j < |who|
      ensures && who[j] < |more| && more[who[j]].Begin?
              && from + j in t && t[from + j].content == more[who[j]].draft.(sequence := from + j)
    {
      assert more[who[j]] == ops[who[j]];
    }
  }

  /** A statement that commits nothing and touches one session. */
  lemma {:induction false} OneSessionTold(ops: seq<Statement>, op: Statement, db: Db, next: Db, g: Ledger, g': Ledger, sid: nat)
    requires Told(ops, db, g) && next.versions == db.versions && g'.committed == g.committed
    requires forall x: nat | x != sid :: Sess(next, x) == Sess(db, x) && WorkOf(g', x) == WorkOf(g, x)
    requires SessionTold(ops + [op], Current(db), g.committed, sid, Sess(next, sid), WorkOf(g', sid))
    ensures Told(ops + [op], next, g')
  {
    RowsHoldLater(ops, op, Current(db), 0, g.committed);
    forall x: nat
      ensures SessionTold(ops + [op], Current(db), g.committed, x, Sess(next, x), WorkOf(g', x))
    {
      if x != sid {
        LaterTold(ops, op, Current(db), g.committed, x, Sess(db, x), WorkOf(g, x));
      }
    }
  }

  /** The same for a statement that leaves the session's rows alone. */
  lemma SameRowsTold(ops: seq<Statement>, op: Statement, db: Db, next: Db, g: Ledger, g': Ledger, sid: nat)
    requires Told(ops, db, g) && next.versions == db.versions && g'.committed == g.committed
    requires forall x: nat | x != sid :: Sess(next, x) == Sess(db, x) && WorkOf(g', x) == WorkOf(g, x)
    requires Sess(next, sid).pending == Sess(db, sid).pending && WorkOf(g', sid).written == WorkOf(g, sid).written
    requires AttemptTold(ops + [op], sid, Sess(next, sid).pc, WorkOf(g', sid).attempt)
    requires Distinct(g.committed + WorkOf(g, sid).written + Begun(WorkOf(g', sid).attempt))
    ensures Told(ops + [op], next, g')
  {
    LaterTold(ops, op, Current(db), g.committed, sid, Sess(db, sid), WorkOf(g, sid));
    OneSessionTold(ops, op, db, next, g, g', sid);
  }

  lemma DistinctNew(s: seq<nat>, x: nat)
    requires Distinct(s) && forall i | 0 <= i < |s| :: s[i] < x
    ensures Distinct(s + [x])
  {
  }

  lemma BeginTold(interval: int, ops: seq<Statement>, db: Db, g: Ledger, op: Statement)
    requires interval != 0 && Told(ops, db, g) && Enabled(db, op) && op.Begin?
    ensures Told(ops + [op], Apply(interval, db, op), Note(db, g, op, |ops|))
  {
    var w := WorkOf(g, op.sid);
    assert SessionTold(ops, Current(db), g.committed, op.sid, Sess(db, op.sid), w);
    DistinctPart(g.committed, w.written, Begun(w.attempt));
    DistinctNew(g.committed + w.written, |ops|);
    SameRowsTold(ops, op, db, Apply(interval, db, op), g, Note(db, g, op, |ops|), op.sid);
  }

  /** The second attempt of an append works on the draft of the first. */
  lemma RereadTold(interval: int, ops: seq<Statement>, db: Db, g: Ledger, op: Statement)
    requires interval != 0 && Told(ops, db, g) && Enabled(db, op) && op.Reread?
    ensures Told(ops + [op], Apply(interval, db, op), Note(db, g, op, |ops|))
  {
    assert SessionTold(ops, Current(db), g.committed, op.sid, Sess(db, op.sid), WorkOf(g, op.sid));
    SameRowsTold(ops, op, db, Apply(interval, db, op), g, Note(db, g, op, |ops|), op.sid);
  }

  lemma CheckpointTold(interval: int, ops: seq<Statement>, db: Db, g: Ledger, op: Statement)
    requires interval != 0 && Told(ops, db, g) && Enabled(db, op) && (op.AutoCheckpoint? || op.Force?)
    ensures Told(ops + [op], Apply(interval, db, op), Note(db, g, op, |ops|))
  {
    assert SessionTold(ops, Current(db), g.committed, op.sid, Sess(db, op.sid), WorkOf(g, op.sid));
    SameRowsTold(ops, op, db, Apply(interval, db, op), g, Note(db, g, op, |ops|), op.sid);
  }

  /** A session that lost its rows, or had none. */
  lemma EmptySessionTold(ops: seq<Statement>, op: Statement, db: Db, next: Db, g: Ledger, g': Ledger, sid: nat)
    requires Told(ops, db, g) && next.versions == db.versions && g'.committed == g.committed
    requires forall x: nat | x != sid :: Sess(next, x) == Sess(db, x) && WorkOf(g', x) == WorkOf(g, x)
    requires Sess(next, sid).pending == map[] && WorkOf(g', sid).written == []
    requires AttemptTold(ops + [op], sid, Sess(next, sid).pc, WorkOf(g', sid).attempt)
    requires var a := WorkOf(g', sid).attempt; a.Attempt? ==> Begun(a) == Begun(WorkOf(g, sid).attempt)
    ensures Told(ops + [op], next, g')
  {
    var w, w' := WorkOf(g, sid), WorkOf(g', sid);
    assert SessionTold(ops, Current(db), g.committed, sid, Sess(db, sid), w);
    assert Current(db) + Sess(next, sid).pending == Current(db);
    DistinctPart(g.committed, w.written, Begun(w.attempt));
    assert g.committed + [] + Begun(w'.attempt) == g.committed + Begun(w'.attempt);
    OneSessionTold(ops, op, db, next, g, g', sid);
  }

  lemma OneMoreRow(ops: seq<Statement>, t: Table, from: nat, who: seq<nat>, b: nat, row: Entry)
    requires RowsHold(ops, t, from, who) && b < |ops| && ops[b].Begin?
    requires row.content == ops[b].draft.(sequence := from + |who|)
    ensures RowsHold(ops, t[from + |who| := row], from, who + [b])
  {
    var t', who' := t[from + |who| := row], who + [b];
    forall j | 0 <= j < |who'|
      ensures && who'[j] < |ops| && ops[who'[j]].Begin? && from + j in t'
              && t'[from + j].content == ops[who'[j]].draft.(sequence := from + j)
    {
      if j < |who| { assert who'[j] == who[j]; }
    }
  }

  /** The next row of a linear table, as `append` writes it. */
  lemma NextRow(current: Table, pending: Table, q: nat, draft: Content, row: Entry)
    requires var all := current + pending; Linear(all, q) && row == Seal(draft.(sequence := q), LastHash(all))
    ensures current + pending[q := row] == (current + pending)[q := row]
    ensures NextSequence(current + pending[q := row]) == q + 1
  {
    var all := current + pending;
    LinearExtend(all, q, draft);
    LinearNext(all[q := row], q + 1);
  }

  /** The new row of a conflict-free insert holds the draft in hand. */
  lemma NewRowTold(ops: seq<Statement>, db: Db, n: nat, g: Ledger, sid: nat, pending: Table)
    requires Inv(db, n) && Told(ops, db, g) && Sess(db, sid).pc.Holding? && !ConflictIn(db, sid)
    requires var s := Sess(db, sid);
             pending == s.pending[s.pc.sequence := Seal(s.pc.draft.(sequence := s.pc.sequence), s.pc.prev)]
    ensures WorkOf(g, sid).attempt.Attempt?
    ensures var w := WorkOf(g, sid);
            var written := w.written + [w.attempt.begin];
            && NextSequence(Current(db) + pending) == |g.committed| + |written|
            && RowsHold(ops, Current(db) + pending, |g.committed|, written)
  {
    InsertSlot(db, n, sid);
    RowFollows(ops, Current(db), g.committed, sid, Sess(db, sid), WorkOf(g, sid), pending);
  }

  lemma RowFollows(ops: seq<Statement>, current: Table, c: seq<nat>, sid: nat, s: Session, w: Work, pending: Table)
    requires SessionTold(ops, current, c, sid, s, w) && s.pc.Holding?
    requires var all := current + s.pending;
             s.pc.sequence == NextSequence(all) && s.pc.prev == LastHash(all) && Linear(all, NextSequence(all))
    requires pending == s.pending[s.pc.sequence := Seal(s.pc.draft.(sequence := s.pc.sequence), s.pc.prev)]
    ensures w.attempt.Attempt?
    ensures var written := w.written + [w.attempt.begin];
            NextSequence(current + pending) == |c| + |written| && RowsHold(ops, current + pending, |c|, written)
  {
    var q := s.pc.sequence;
    NextRow(current, s.pending, q, s.pc.draft, pending[q]);
    OneMoreRow(ops, current + s.pending, |c|, w.written, w.attempt.begin, pending[q]);
  }

  lemma InsertSlot(db: Db, n: nat, sid: nat)
    requires Inv(db, n) && Sess(db, sid).pc.Holding? && !ConflictIn(db, sid)
    ensures var s := Sess(db, sid);
            var all := Current(db) + s.pending;
            s.pc.sequence == NextSequence(all) && s.pc.prev == LastHash(all) && Linear(all, NextSequence(all))
  {
    SessIsOk(db, n, sid);
    InsertHitsFirstFree(db.versions, n, Sess(db, sid));
  }

  lemma FreeInsertTold(interval: int, ops: seq<Statement>, db: Db, n: nat, g: Ledger, op: Statement)
    requires interval != 0 && Inv(db, n) && Told(ops, db, g) && Enabled(db, op) && op.Insert? && !ConflictIn(db, op.sid)
    ensures Told(ops + [op], Apply(interval, db, op), Note(db, g, op, |ops|))
  {
    var s, w := Sess(db, op.sid), WorkOf(g, op.sid);
    var next, g' := Apply(interval, db, op), Note(db, g, op, |ops|);
    var s' := Sess(next, op.sid);
    assert SessionTold(ops, Current(db), g.committed, op.sid, s, w);
    NewRowTold(ops, db, n, g, op.sid, s'.pending);
    WrittenOneMore(ops, Current(db), g.committed, op.sid, s', w);
    LaterTold(ops, op, Current(db), g.committed, op.sid, s', WorkOf(g', op.sid));
    OneSessionTold(ops, op, db, next, g, g', op.sid);
  }

  /** The session's line of the ledger after a conflict-free insert. */
  lemma WrittenOneMore(ops: seq<Statement>, current: Table, c: seq<nat>, sid: nat, s': Session, w: Work)
    requires w.attempt.Attempt? && BegunBy(ops, w.attempt.begin, sid) && (s'.pc.Idle? || s'.pc.MustCheckpoint?)
    requires forall j | 0 <= j < |w.written| :: BegunBy(ops, w.written[j], sid)
    requires Distinct(c + w.written + Begun(w.attempt))
    requires var written := w.written + [w.attempt.begin];
             NextSequence(current + s'.pending) == |c| + |written| && RowsHold(ops, current + s'.pending, |c|, written)
    ensures SessionTold(ops, current, c, sid, s', Work(NoAttempt, w.written + [w.attempt.begin]))
  {
    assert c + (w.written + [w.attempt.begin]) + [] == c + w.written + [w.attempt.begin];
  }

  lemma InsertTold(interval: int, ops: seq<Statement>, db: Db, n: nat, g: Ledger, op: Statement)
    requires interval != 0 && Inv(db, n) && Told(ops, db, g) && Enabled(db, op) && op.Insert?
    ensures Told(ops + [op], Apply(interval, db, op), Note(db, g, op, |ops|))
  {
    if ConflictIn(db, op.sid) {
      assert SessionTold(ops, Current(db), g.committed, op.sid, Sess(db, op.sid), WorkOf(g, op.sid));
      EmptySessionTold(ops, op, db, Apply(interval, db, op), g, Note(db, g, op, |ops|), op.sid);
    } else {
      FreeInsertTold(interval, ops, db, n, g, op);
    }
  }

  lemma RollbackTold(interval: int, ops: seq<Statement>, db: Db, g: Ledger, op: Statement)
    requires interval != 0 && Told(ops, db, g) && Enabled(db, op) && op.Rollback?
    ensures Told(ops + [op], Apply(interval, db, op), Note(db, g, op, |ops|))
  {
    EmptySessionTold(ops, op, db, Apply(interval, db, op), g, Note(db, g, op, |ops|), op.sid);
  }

  // ---------------------------------------------------------------- commits

  /** Rows of two sessions are never confused: their appends began in different sessions. */
  lemma DistinctAcross(ops: seq<Statement>, c: seq<nat>, a: seq<nat>, x: nat, b: seq<nat>, y: nat)
    requires Distinct(c + a) && Distinct(c + b) && x != y
    requires forall j | 0 <= j < |a| :: BegunBy(ops, a[j], x)
    requires forall j | 0 <= j < |b| :: BegunBy(ops, b[j], y)
    ensures Distinct(c + a + b)
  {
    var all := c + a + b;
    forall i, j | 0 <= i < j < |all|
      ensures all[i] != all[j]
    {
      if j < |c + a| {
        assert all[i] == (c + a)[i] && all[j] == (c + a)[j];
      } else if i < |c| {
        assert all[i] == (c + b)[i] && all[j] == (c + b)[j - |a|];
      } else if i >= |c + a| {
        assert all[i] == (c + b)[i - |a|] && all[j] == (c + b)[j - |a|];
      } else {
        assert BegunBy(ops, a[i - |c|], x) && BegunBy(ops, b[j - |c + a|], y);
      }
    }
  }

  lemma DistinctPart(a: seq<nat>, b: seq<nat>, c: seq<nat>)
    requires Distinct(a + b + c)
    ensures Distinct(a) && Distinct(a + b) && Distinct(a + c)
  {
    var all := a + b + c;
    assert forall i | 0 <= i < |a| :: a[i] == all[i];
    assert forall i | 0 <= i < |a + b| :: (a + b)[i] == all[i];
    assert forall i | 0 <= i < |a + c| :: (a + c)[i] == all[if i < |a| then i else i + |b|];
  }

  lemma JoinedRows(ops: seq<Statement>, current: Table, next: Table, a: seq<nat>, b: seq<nat>)
    requires RowsHold(ops, current, 0, a) && RowsHold(ops, next, |a|, b) && Prefix(current, next)
    ensures RowsHold(ops, next, 0, a + b)
  {
    forall j | 0 <= j < |a + b|
      ensures && (a + b)[j] < |ops| && ops[(a + b)[j]].Begin? && j in next
              && next[j].content == ops[(a + b)[j]].draft.(sequence := j)
    {
      if j >= |a| { assert (a + b)[j] == b[j - |a|] && |a| + (j - |a|) == j; }
    }
  }

  /** Another session at a commit: either it holds no rows, or nothing was committed. */
  lemma CommitTellsOther(ops: seq<Statement>, current: Table, pending: Table, c: seq<nat>,
                         x: nat, wx: Work, y: nat, o: Session, wy: Work)
    requires x != y && (pending == map[] || o.pending == map[])
    requires NextSequence(current) == |c| && NextSequence(current + pending) == |c| + |wx.written|
    requires forall j | 0 <= j < |wx.written| :: BegunBy(ops, wx.written[j], x)
    requires Distinct(c + wx.written)
    requires SessionTold(ops, current, c, y, o, wy)
    ensures SessionTold(ops, current + pending, c + wx.written, y, o, wy)
  {
    if pending == map[] {
      assert current + pending == current;
      assert c + wx.written == c;
    } else {
      assert current + o.pending == current;
      assert current + pending + o.pending == current + pending;
      DistinctPart(c, wy.written, Begun(wy.attempt));
      DistinctAcross(ops, c, wx.written, x, Begun(wy.attempt), y);
      assert c + wx.written + wy.written + Begun(wy.attempt) == c + wx.written + Begun(wy.attempt);
    }
  }

  lemma CommitTellsSession(ops: seq<Statement>, db: Db, n: nat, g: Ledger, x: nat, y: nat)
    requires Inv(db, n) && Told(ops, db, g) && x != y
    ensures SessionTold(ops, Current(db) + Sess(db, x).pending, g.committed + WorkOf(g, x).written, y, Sess(db, y), WorkOf(g, y))
  {
    var s, o := Sess(db, x), Sess(db, y);
    var wx, wy := WorkOf(g, x), WorkOf(g, y);
    assert SessionTold(ops, Current(db), g.committed, x, s, wx);
    DistinctPart(g.committed, wx.written, Begun(wx.attempt));
    if s.pending != map[] { OthersQuiet(db, n, x); }
    CommitTellsOther(ops, Current(db), s.pending, g.committed, x, wx, y, o, wy);
  }

  lemma CommitTold(interval: int, ops: seq<Statement>, db: Db, n: nat, g: Ledger, op: Statement)
    requires interval != 0 && Inv(db, n) && Told(ops, db, g) && Enabled(db, op) && op.Commit?
    ensures Told(ops + [op], Apply(interval, db, op), Note(db, g, op, |ops|))
  {
    var x := op.sid;
    var s, w := Sess(db, x), WorkOf(g, x);
    var next, g' := Committed(db, x), Note(db, g, op, |ops|);
    assert SessionTold(ops, Current(db), g.committed, x, s, w);
    PrefixOfCommit(db, n, x);
    JoinedRows(ops, Current(db), Current(next), g.committed, w.written);
    RowsHoldLater(ops, op, Current(next), 0, g'.committed);
    forall y: nat
      ensures SessionTold(ops + [op], Current(next), g'.committed, y, Sess(next, y), WorkOf(g', y))
    {
      if y != x {
        CommitTellsSession(ops, db, n, g, x, y);
      } else {
        CommitTellsSelf(ops, Current(db), g.committed, x, s, w, Sess(next, x), WorkOf(g', x));
      }
      LaterTold(ops, op, Current(next), g'.committed, y, Sess(next, y), WorkOf(g', y));
    }
  }

  lemma PrefixOfCommit(db: Db, n: nat, sid: nat)
    requires Inv(db, n)
    ensures Prefix(Current(db), Current(db) + Sess(db, sid).pending)
  {
    var m := CommitKeepsInv(db, n, sid);
  }

  lemma CommitTellsSelf(ops: seq<Statement>, current: Table, c: seq<nat>, x: nat, s: Session, w: Work, s': Session, w': Work)
    requires SessionTold(ops, current, c, x, s, w) && s.pc.Idle?
    requires s'.pending == map[] && s'.pc == s.pc && w' == w.(written := [])
    ensures SessionTold(ops, current + s.pending, c + w.written, x, s', w')
  {
    assert current + s.pending + s'.pending == current + s.pending;
    assert c + w.written + [] + Begun(w.attempt) == c + w.written + Begun(w.attempt);
  }

  lemma StepTold(interval: int, ops: seq<Statement>, db: Db, n: nat, g: Ledger, op: Statement)
    requires interval != 0 && Inv(db, n) && Told(ops, db, g) && Enabled(db, op)
    ensures Told(ops + [op], Apply(interval, db, op), Note(db, g, op, |ops|))
  {
    match op
    case Begin(_, _, _) => BeginTold(interval, ops, db, g, op);
    case Insert(_) => InsertTold(interval, ops, db, n, g, op);
    case Reread(_, _) => RereadTold(interval, ops, db, g, op);
    case AutoCheckpoint(_, _, _, _) => CheckpointTold(interval, ops, db, g, op);
    case Force(_, _, _, _) => CheckpointTold(interval, ops, db, g, op);
    case Commit(_) => CommitTold(interval, ops, db, n, g, op);
    case Rollback(_) => RollbackTold(interval, ops, db, g, op);
    case RotateKey(_) => KeyTold(ops, op, db, Apply(interval, db, op), g);
  }

  lemma KeyTold(ops: seq<Statement>, op: Statement, db: Db, next: Db, g: Ledger)
    requires Told(ops, db, g) && next == db.(key := next.key)
    ensures Told(ops + [op], next, g)
  {
    LaterTold(ops, op, Current(db), g.committed, 0, Sess(db, 0), WorkOf(g, 0));
    OneSessionTold(ops, op, db, next, g, g, 0);
  }

  lemma NothingTold()
    ensures Told([], START, Ledger(map[], []))
  {
    forall sid: nat
      ensures SessionTold([], Current(START), [], sid, Sess(START, sid), WorkOf(Ledger(map[], []), sid))
    {
      assert Current(START) + Sess(START, sid).pending == map[];
    }
  }

  lemma RunStepTold(interval: int, ops: seq<Statement>, op: Statement)
    requires interval != 0 && Possible(interval, ops) && Enabled(After(interval, ops), op)
    requires Told(ops, After(interval, ops), LedgerOf(interval, ops))
    ensures Possible(interval, ops + [op]) && Told(ops + [op], After(interval, ops + [op]), LedgerOf(interval, ops + [op]))
  {
    var n := EveryInterleavingIsLinear(interval, ops);
    StepTold(interval, ops, After(interval, ops), n, LedgerOf(interval, ops), op);
    Extend(interval, ops, op);
    assert (ops + [op])[..|ops|] == ops;
  }

  lemma {:induction false} EveryRunIsTold(interval: int, ops: seq<Statement>)
    requires interval != 0 && Possible(interval, ops)
    ensures Told(ops, After(interval, ops), LedgerOf(interval, ops))
    decreases |ops|
  {
    if ops == [] {
      NothingTold();
    } else {
      var before := ops[..|ops| - 1];
      EveryRunIsTold(interval, before);
      RunStepTold(interval, before, ops[|ops| - 1]);
      assert before + [ops[|ops| - 1]] == ops;
    }
  }

  // ---------------------------------------------------------------- which appends are committed

  lemma {:induction false} PossiblePrefix(interval: int, ops: seq<Statement>, j: nat)
    requires interval != 0 && Possible(interval, ops) && j <= |ops|
    ensures Possible(interval, ops[..j])
    decreases |ops|
  {
    if j < |ops| {
      PossiblePrefix(interval, ops[..|ops| - 1], j);
      assert ops[..|ops| - 1][..j] == ops[..j];
    } else {
      assert ops[..j] == ops;
    }
  }

  /** Statement `j` is an insert of `sid` that meets the primary key, or one that does not. */
  ghost predicate Inserts(interval: int, ops: seq<Statement>, j: nat, sid: nat, conflict: bool)
    requires interval != 0 && Possible(interval, ops)
  {
    && j < |ops| && ops[j] == Insert(sid)
    && (PossiblePrefix(interval, ops, j);
        PossiblePrefix(interval, ops, j + 1);
        assert ops[..j + 1][..j] == ops[..j];
        ConflictIn(After(interval, ops[..j]), sid) == conflict)
  }

  /** Statement `k` ends the transaction of `sid`. */
  ghost predicate EndsTransaction(interval: int, ops: seq<Statement>, k: nat, sid: nat)
    requires interval != 0 && Possible(interval, ops)
  {
    k < |ops| && (ops[k] == Commit(sid) || ops[k] == Rollback(sid) || Inserts(interval, ops, k, sid, true))
  }

  /** `b` is the latest append that `sid` began before statement `j`. */
  predicate LatestBegin(ops: seq<Statement>, b: nat, sid: nat, j: nat)
    requires j <= |ops|
  {
    b < j && BegunBy(ops, b, sid) && forall k | b < k < j :: !BegunBy(ops, k, sid)
  }

  /** The append begun at `b` writes its row at `j`, at once or on its retry, and the row is still
      uncommitted in front of statement `m`. */
  ghost predicate WroteAt(interval: int, ops: seq<Statement>, b: nat, sid: nat, j: nat, m: nat)
    requires interval != 0 && Possible(interval, ops)
  {
    && j < m <= |ops| && LatestBegin(ops, b, sid, j) && Inserts(interval, ops, j, sid, false)
    && forall k | j < k < m :: !EndsTransaction(interval, ops, k, sid)
  }

  ghost predicate Wrote(interval: int, ops: seq<Statement>, b: nat, sid: nat, m: nat)
    requires interval != 0 && Possible(interval, ops)
  {
    exists j: nat :: WroteAt(interval, ops, b, sid, j, m)
  }

  /** The append begun at `b` succeeds: its insert goes through and its transaction commits. */
  ghost predicate Succeeds(interval: int, ops: seq<Statement>, b: nat)
    requires interval != 0 && Possible(interval, ops)
  {
    exists sid: nat, m: nat :: m < |ops| && ops[m] == Commit(sid) && Wrote(interval, ops, b, sid, m)
  }

  lemma InsertsSame(interval: int, ops: seq<Statement>, op: Statement, j: nat, sid: nat, conflict: bool)
    requires interval != 0 && Possible(interval, ops) && Possible(interval, ops + [op]) && j < |ops|
    ensures Inserts(interval, ops + [op], j, sid, conflict) <==> Inserts(interval, ops, j, sid, conflict)
  {
    assert (ops + [op])[..j] == ops[..j];
  }

  lemma EndsSame(interval: int, ops: seq<Statement>, op: Statement, k: nat, sid: nat)
    requires interval != 0 && Possible(interval, ops) && Possible(interval, ops + [op]) && k < |ops|
    ensures EndsTransaction(interval, ops + [op], k, sid) <==> EndsTransaction(interval, ops, k, sid)
  {
    InsertsSame(interval, ops, op, k, sid, true);
  }

  /** What lies behind is not changed by one more statement. */
  lemma WroteAtSame(interval: int, ops: seq<Statement>, op: Statement, b: nat, sid: nat, j: nat, m: nat)
    requires interval != 0 && Possible(interval, ops) && Possible(interval, ops + [op]) && m <= |ops|
    ensures WroteAt(interval, ops + [op], b, sid, j, m) <==> WroteAt(interval, ops, b, sid, j, m)
  {
    if j < m {
      InsertsSame(interval, ops, op, j, sid, false);
      forall k | j < k < m
        ensures EndsTransaction(interval, ops + [op], k, sid) <==> EndsTransaction(interval, ops, k, sid)
      {
        EndsSame(interval, ops, op, k, sid);
      }
      assert forall k | 0 <= k < |ops| :: BegunBy(ops + [op], k, sid) == BegunBy(ops, k, sid);
    }
  }

  lemma WroteSame(interval: int, ops: seq<Statement>, op: Statement, b: nat, sid: nat, m: nat)
    requires interval != 0 && Possible(interval, ops) && Possible(interval, ops + [op]) && m <= |ops|
    ensures Wrote(interval, ops + [op], b, sid, m) <==> Wrote(interval, ops, b, sid, m)
  {
    forall j: nat
      ensures WroteAt(interval, ops + [op], b, sid, j, m) <==> WroteAt(interval, ops, b, sid, j, m)
    {
      WroteAtSame(interval, ops, op, b, sid, j, m);
    }
  }

  /** Uncommitted after one more statement: written by it, or there before and not ended by it. */
  lemma WroteStep(interval: int, ops: seq<Statement>, op: Statement, b: nat, sid: nat)
    requires interval != 0 && Possible(interval, ops) && Possible(interval, ops + [op])
    ensures Wrote(interval, ops + [op], b, sid, |ops| + 1) <==>
            || (Wrote(interval, ops, b, sid, |ops|) && !EndsTransaction(interval, ops + [op], |ops|, sid))
            || (LatestBegin(ops, b, sid, |ops|) && Inserts(interval, ops + [op], |ops|, sid, false))
  {
    WroteSame(interval, ops, op, b, sid, |ops|);
    LatestSame(ops, op, b, sid);
    if Wrote(interval, ops + [op], b, sid, |ops| + 1) { WroteBack(interval, ops, op, b, sid); }
    if Wrote(interval, ops + [op], b, sid, |ops|) && !EndsTransaction(interval, ops + [op], |ops|, sid) {
      WroteOn(interval, ops, op, b, sid);
    }
    if LatestBegin(ops, b, sid, |ops|) && Inserts(interval, ops + [op], |ops|, sid, false) {
      assert WroteAt(interval, ops + [op], b, sid, |ops|, |ops| + 1);
    }
  }

  lemma LatestSame(ops: seq<Statement>, op: Statement, b: nat, sid: nat)
    ensures LatestBegin(ops + [op], b, sid, |ops|) <==> LatestBegin(ops, b, sid, |ops|)
  {
    assert forall k | 0 <= k < |ops| :: BegunBy(ops + [op], k, sid) == BegunBy(ops, k, sid);
  }

  lemma WroteBack(interval: int, ops: seq<Statement>, op: Statement, b: nat, sid: nat)
    requires interval != 0 && Possible(interval, ops + [op]) && Wrote(interval, ops + [op], b, sid, |ops| + 1)
    ensures || (Wrote(interval, ops + [op], b, sid, |ops|) && !EndsTransaction(interval, ops + [op], |ops|, sid))
            || (LatestBegin(ops + [op], b, sid, |ops|) && Inserts(interval, ops + [op], |ops|, sid, false))
  {
    var j: nat :| WroteAt(interval, ops + [op], b, sid, j, |ops| + 1);
    if j < |ops| { assert WroteAt(interval, ops + [op], b, sid, j, |ops|); }
  }

  lemma WroteOn(interval: int, ops: seq<Statement>, op: Statement, b: nat, sid: nat)
    requires interval != 0 && Possible(interval, ops + [op]) && Wrote(interval, ops + [op], b, sid, |ops|)
    requires !EndsTransaction(interval, ops + [op], |ops|, sid)
    ensures Wrote(interval, ops + [op], b, sid, |ops| + 1)
  {
    var j: nat :| WroteAt(interval, ops + [op], b, sid, j, |ops|);
    assert WroteAt(interval, ops + [op], b, sid, j, |ops| + 1);
  }

  lemma SucceedsStep(interval: int, ops: seq<Statement>, op: Statement, b: nat)
    requires interval != 0 && Possible(interval, ops) && Possible(interval, ops + [op])
    ensures Succeeds(interval, ops + [op], b) <==>
            Succeeds(interval, ops, b) || (op.Commit? && Wrote(interval, ops, b, op.sid, |ops|))
  {
    var n, all := |ops|, ops + [op];
    if sid: nat, m: nat :| m < |all| && all[m] == Commit(sid) && Wrote(interval, all, b, sid, m) {
      WroteSame(interval, ops, op, b, sid, m);
    }
    if sid: nat, m: nat :| m < |ops| && ops[m] == Commit(sid) && Wrote(interval, ops, b, sid, m) {
      WroteSame(interval, ops, op, b, sid, m);
      assert all[m] == Commit(sid);
    }
    if op.Commit? && Wrote(interval, ops, b, op.sid, n) {
      WroteSame(interval, ops, op, b, op.sid, n);
      assert all[n] == Commit(op.sid);
    }
  }

  ghost predicate AttemptsRead(ops: seq<Statement>, g: Ledger) {
    forall sid: nat | WorkOf(g, sid).attempt.Attempt? :: LatestBegin(ops, WorkOf(g, sid).attempt.begin, sid, |ops|)
  }

  ghost predicate WrittenReads(interval: int, ops: seq<Statement>, g: Ledger)
    requires interval != 0 && Possible(interval, ops)
  {
    forall sid: nat, b: nat :: b in WorkOf(g, sid).written <==> Wrote(interval, ops, b, sid, |ops|)
  }

  ghost predicate CommittedReads(interval: int, ops: seq<Statement>, g: Ledger)
    requires interval != 0 && Possible(interval, ops)
  {
    forall b: nat :: b in g.committed <==> Succeeds(interval, ops, b)
  }

  /** The ledger of a run, in terms of the statements of the run. */
  ghost predicate LedgerReads(interval: int, ops: seq<Statement>, g: Ledger)
    requires interval != 0 && Possible(interval, ops)
  {
    AttemptsRead(ops, g) && WrittenReads(interval, ops, g) && CommittedReads(interval, ops, g)
  }

  /** The newest statement as `Inserts` and `EndsTransaction` see it. */
  lemma NewestInsert(interval: int, ops: seq<Statement>, op: Statement, sid: nat)
    requires interval != 0 && Possible(interval, ops) && Enabled(After(interval, ops), op) && Possible(interval, ops + [op])
    ensures forall c: bool :: Inserts(interval, ops + [op], |ops|, sid, c) <==>
              op == Insert(sid) && ConflictIn(After(interval, ops), sid) == c
    ensures EndsTransaction(interval, ops + [op], |ops|, sid) <==>
            op == Commit(sid) || op == Rollback(sid) || (op == Insert(sid) && ConflictIn(After(interval, ops), sid))
  {
    assert (ops + [op])[..|ops|] == ops;
  }

  lemma NoteReadsAttempt(interval: int, ops: seq<Statement>, op: Statement, g: Ledger, sid: nat)
    requires interval != 0 && Possible(interval, ops) && Enabled(After(interval, ops), op)
    requires LedgerReads(interval, ops, g)
    ensures var a := WorkOf(Note(After(interval, ops), g, op, |ops|), sid).attempt;
            a.Attempt? ==> LatestBegin(ops + [op], a.begin, sid, |ops| + 1)
  {
    var a := WorkOf(Note(After(interval, ops), g, op, |ops|), sid).attempt;
    if op.Begin? && op.sid == sid {
      assert BegunBy(ops + [op], |ops|, sid);
    } else if a.Attempt? {
      NoteKeepsBegin(After(interval, ops), g, op, |ops|, sid);
      LatestStays(ops, op, a.begin, sid);
    }
  }

  lemma NoteKeepsBegin(db: Db, g: Ledger, op: Statement, i: nat, sid: nat)
    requires Enabled(db, op) && !(op.Begin? && op.sid == sid) && WorkOf(Note(db, g, op, i), sid).attempt.Attempt?
    ensures WorkOf(g, sid).attempt.Attempt?
    ensures WorkOf(Note(db, g, op, i), sid).attempt.begin == WorkOf(g, sid).attempt.begin
  {
  }

  lemma LatestStays(ops: seq<Statement>, op: Statement, b: nat, sid: nat)
    requires LatestBegin(ops, b, sid, |ops|) && !(op.Begin? && op.sid == sid)
    ensures LatestBegin(ops + [op], b, sid, |ops| + 1)
  {
    assert forall k | 0 <= k < |ops| :: BegunBy(ops + [op], k, sid) == BegunBy(ops, k, sid);
  }

  lemma NoteReadsWritten(interval: int, ops: seq<Statement>, op: Statement, g: Ledger, sid: nat, b: nat)
    requires interval != 0 && Possible(interval, ops) && Enabled(After(interval, ops), op) && Possible(interval, ops + [op])
    requires LedgerReads(interval, ops, g) && Told(ops, After(interval, ops), g)
    ensures b in WorkOf(Note(After(interval, ops), g, op, |ops|), sid).written <==>
            Wrote(interval, ops + [op], b, sid, |ops| + 1)
  {
    var db, w := After(interval, ops), WorkOf(g, sid);
    WroteStep(interval, ops, op, b, sid);
    NewestInsert(interval, ops, op, sid);
    assert b in w.written <==> Wrote(interval, ops, b, sid, |ops|);
    if op == Insert(sid) {
      InsertingHasAttempt(ops, db, g, sid);
      LatestIsUnique(ops, b, w.attempt.begin, sid, |ops|);
    }
    NoteWritten(db, g, op, |ops|, sid);
  }

  lemma InsertingHasAttempt(ops: seq<Statement>, db: Db, g: Ledger, sid: nat)
    requires Told(ops, db, g) && Sess(db, sid).pc.Holding?
    ensures WorkOf(g, sid).attempt.Attempt?
  {
    assert SessionTold(ops, Current(db), g.committed, sid, Sess(db, sid), WorkOf(g, sid));
  }

  lemma LatestIsUnique(ops: seq<Statement>, a: nat, b: nat, sid: nat, j: nat)
    requires j <= |ops| && LatestBegin(ops, b, sid, j)
    ensures LatestBegin(ops, a, sid, j) <==> a == b
  {
  }

  /** What a statement does to the uncommitted appends of a session. */
  lemma NoteWritten(db: Db, g: Ledger, op: Statement, i: nat, sid: nat)
    requires Enabled(db, op) && (op == Insert(sid) ==> WorkOf(g, sid).attempt.Attempt?)
    ensures var w := WorkOf(g, sid);
            WorkOf(Note(db, g, op, i), sid).written ==
              if op == Commit(sid) || op == Rollback(sid) || (op == Insert(sid) && ConflictIn(db, sid)) then []
              else if op == Insert(sid) then w.written + [w.attempt.begin]
              else w.written
  {
  }

  lemma NoteReadsAttempts(interval: int, ops: seq<Statement>, op: Statement, g: Ledger)
    requires interval != 0 && Possible(interval, ops) && Enabled(After(interval, ops), op) && LedgerReads(interval, ops, g)
    ensures AttemptsRead(ops + [op], Note(After(interval, ops), g, op, |ops|))
  {
    var g' := Note(After(interval, ops), g, op, |ops|);
    forall sid: nat | WorkOf(g', sid).attempt.Attempt?
      ensures LatestBegin(ops + [op], WorkOf(g', sid).attempt.begin, sid, |ops + [op]|)
    {
      NoteReadsAttempt(interval, ops, op, g, sid);
    }
  }

  lemma NoteReadsAllWritten(interval: int, ops: seq<Statement>, op: Statement, g: Ledger)
    requires interval != 0 && Possible(interval, ops) && Enabled(After(interval, ops), op) && Possible(interval, ops + [op])
    requires LedgerReads(interval, ops, g) && Told(ops, After(interval, ops), g)
    ensures WrittenReads(interval, ops + [op], Note(After(interval, ops), g, op, |ops|))
  {
    var g' := Note(After(interval, ops), g, op, |ops|);
    forall sid: nat, b: nat
      ensures b in WorkOf(g', sid).written <==> Wrote(interval, ops + [op], b, sid, |ops + [op]|)
    {
      NoteReadsWritten(interval, ops, op, g, sid, b);
    }
  }

  lemma NoteReads(interval: int, ops: seq<Statement>, op: Statement, g: Ledger)
    requires interval != 0 && Possible(interval, ops) && Enabled(After(interval, ops), op) && Possible(interval, ops + [op])
    requires LedgerReads(interval, ops, g) && Told(ops, After(interval, ops), g)
    ensures LedgerReads(interval, ops + [op], Note(After(interval, ops), g, op, |ops|))
  {
    NoteReadsAttempts(interval, ops, op, g);
    NoteReadsAllWritten(interval, ops, op, g);
    forall b: nat
      ensures b in Note(After(interval, ops), g, op, |ops|).committed <==> Succeeds(interval, ops + [op], b)
    {
      NoteReadsCommitted(interval, ops, op, g, b);
    }
  }

  lemma NoteReadsCommitted(interval: int, ops: seq<Statement>, op: Statement, g: Ledger, b: nat)
    requires interval != 0 && Possible(interval, ops) && Enabled(After(interval, ops), op) && Possible(interval, ops + [op])
    requires LedgerReads(interval, ops, g)
    ensures b in Note(After(interval, ops), g, op, |ops|).committed <==> Succeeds(interval, ops + [op], b)
  {
    SucceedsStep(interval, ops, op, b);
    if op.Commit? { assert b in WorkOf(g, op.sid).written <==> Wrote(interval, ops, b, op.sid, |ops|); }
  }

  lemma {:induction false} EveryLedgerReads(interval: int, ops: seq<Statement>)
    requires interval != 0 && Possible(interval, ops)
    ensures LedgerReads(interval, ops, LedgerOf(interval, ops))
    decreases |ops|
  {
    if ops != [] {
      var before, op := ops[..|ops| - 1], ops[|ops| - 1];
      assert before + [op] == ops;
      EveryLedgerReads(interval, before);
      EveryRunIsTold(interval, before);
      NoteReads(interval, before, op, LedgerOf(interval, before));
    }
  }

  /** For every interleaving of appends, retries, checkpoints, commits and rollbacks: the committed
      rows are the appends that succeeded, each exactly once, retried or not, and every row holds
      what its own appender passed in, under the sequence it was given. */
  lemma RowsAreTheirAppendersDrafts(interval: int, ops: seq<Statement>) returns (owners: seq<nat>)
    requires interval != 0 && Possible(interval, ops)
    ensures After(interval, ops).versions != []
    ensures forall q: nat :: q in Current(After(interval, ops)) <==> q < |owners|
    ensures forall q: nat | q < |owners| ::
              && owners[q] < |ops| && ops[owners[q]].Begin?
              && q in Current(After(interval, ops))
              && Current(After(interval, ops))[q].content == ops[owners[q]].draft.(sequence := q)
    ensures forall p, q | 0 <= p < q < |owners| :: owners[p] != owners[q]
    ensures forall b: nat :: b in owners <==> Succeeds(interval, ops, b)
  {
    owners := LedgerOf(interval, ops).committed;
    var db, g := After(interval, ops), LedgerOf(interval, ops);
    var n := EveryInterleavingIsLinear(interval, ops);
    EveryRunIsTold(interval, ops);
    EveryLedgerReads(interval, ops);
    LinearNext(Current(db), n);
    assert SessionTold(ops, Current(db), g.committed, 0, Sess(db, 0), WorkOf(g, 0));
    DistinctPart(g.committed, WorkOf(g, 0).written, Begun(WorkOf(g, 0).attempt));
  }
}
