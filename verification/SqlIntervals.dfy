/** The automatic checkpoints of the database-backed chain: whichever sessions wrote its rows, each
    complete interval of committed rows has its checkpoint. */
module SqlIntervals {
  import opened AuditChain
  import opened SqlChain
  import opened SqlCheckpoints
  import opened SqlAppends

  /** The session's uncommitted checkpoints against its uncommitted rows. A session that still has
      to checkpoint owes exactly the one of its newest row. */
  ghost predicate SessionPlaced(interval: int, current: Table, s: Session, forced: bool)
    requires interval != 0
  {
    var lo, hi := NextSequence(current), NextSequence(current + s.pending);
    && lo <= hi
    && if s.pc.MustCheckpoint? then
         lo < hi && hi % interval == 0 && Places(interval, s.checkpoints, lo, hi - 1, forced)
       else
         Places(interval, s.checkpoints, lo, hi, forced)
  }

  ghost predicate Placed(interval: int, db: Db, forced: bool)
    requires interval != 0
  {
    && db.versions != []
    && Places(interval, db.checkpoints, 0, NextSequence(Current(db)), forced)
    && forall sid: nat :: SessionPlaced(interval, Current(db), Sess(db, sid), forced)
  }

  lemma OneSessionPlaced(interval: int, db: Db, next: Db, sid: nat, forced: bool, forced': bool)
    requires interval != 0 && Placed(interval, db, forced) && (forced ==> forced')
    requires next.versions == db.versions && next.checkpoints == db.checkpoints
    requires forall x: nat | x != sid :: Sess(next, x) == Sess(db, x)
    requires SessionPlaced(interval, Current(db), Sess(next, sid), forced')
    ensures Placed(interval, next, forced')
  {
    forall x: nat
      ensures SessionPlaced(interval, Current(next), Sess(next, x), forced')
    {
      if x != sid { assert SessionPlaced(interval, Current(db), Sess(db, x), forced); }
    }
  }

  /** A session without rows and checkpoints owes nothing. */
  lemma EmptyPlaced(interval: int, current: Table, s: Session, forced: bool)
    requires interval != 0 && s.pending == map[] && s.checkpoints == [] && !s.pc.MustCheckpoint?
    ensures SessionPlaced(interval, current, s, forced)
  {
    assert current + s.pending == current;
  }

  lemma InsertPlaced(interval: int, db: Db, n: nat, op: Statement, forced: bool)
    requires interval != 0 && Inv(db, n) && Placed(interval, db, forced) && Enabled(db, op) && op.Insert?
    ensures Placed(interval, Apply(interval, db, op), forced)
  {
    var s, next := Sess(db, op.sid), Apply(interval, db, op);
    var s' := Sess(next, op.sid);
    if ConflictIn(db, op.sid) {
      EmptyPlaced(interval, Current(db), s', forced);
    } else {
      FreeInsertPlaced(interval, db, n, op.sid, s', forced);
    }
    OneSessionPlaced(interval, db, next, op.sid, forced, forced);
  }

  lemma FreeInsertPlaced(interval: int, db: Db, n: nat, sid: nat, s': Session, forced: bool)
    requires interval != 0 && Inv(db, n) && Placed(interval, db, forced) && Sess(db, sid).pc.Holding? && !ConflictIn(db, sid)
    requires s' == Inserted(interval, Current(db), Sess(db, sid))
    ensures SessionPlaced(interval, Current(db), s', forced)
  {
    var s := Sess(db, sid);
    assert SessionPlaced(interval, Current(db), s, forced);
    InsertSlot(db, n, sid);
    InsertedPlaced(interval, Current(db), s, s', forced);
  }

  lemma InsertedPlaced(interval: int, current: Table, s: Session, s': Session, forced: bool)
    requires interval != 0 && SessionPlaced(interval, current, s, forced) && s.pc.Holding?
    requires var all := current + s.pending;
             s.pc.sequence == NextSequence(all) && s.pc.prev == LastHash(all) && Linear(all, NextSequence(all))
    requires s' == Inserted(interval, current, s) && s.pc.sequence !in current && s.pc.sequence !in s.pending
    ensures SessionPlaced(interval, current, s', forced)
  {
    NextRow(current, s.pending, s.pc.sequence, s.pc.draft, s'.pending[s.pc.sequence]);
    RowPlaced(interval, s, s', NextSequence(current), s.pc.sequence, forced);
  }

  /** The session's part of one more row. */
  lemma RowPlaced(interval: int, s: Session, s': Session, lo: nat, q: nat, forced: bool)
    requires interval != 0 && lo <= q && Places(interval, s.checkpoints, lo, q, forced) && s'.checkpoints == s.checkpoints
    requires s'.pc.MustCheckpoint? <==> (q + 1) % interval == 0
    ensures s'.pc.MustCheckpoint? ==> Places(interval, s'.checkpoints, lo, q, forced)
    ensures !s'.pc.MustCheckpoint? ==> Places(interval, s'.checkpoints, lo, q + 1, forced)
  {
    if !s'.pc.MustCheckpoint? { PlacesSkip(interval, s.checkpoints, lo, q, forced); }
  }

  lemma AutoPlaced(interval: int, db: Db, n: nat, op: Statement, forced: bool)
    requires interval != 0 && Inv(db, n) && Placed(interval, db, forced) && Enabled(db, op) && op.AutoCheckpoint?
    ensures Placed(interval, Apply(interval, db, op), forced)
  {
    var s, next := Sess(db, op.sid), Apply(interval, db, op);
    assert SessionPlaced(interval, Current(db), s, forced);
    NewestRowCovered(db, n, op);
    DrawnPlaced(interval, Current(db), s, Sess(next, op.sid), DrawCheckpoint(db, op.sid, op.v, op.w, op.now), forced);
    OneSessionPlaced(interval, db, next, op.sid, forced, forced);
  }

  /** The automatic checkpoint covers up to the session's newest row. */
  lemma NewestRowCovered(db: Db, n: nat, op: Statement)
    requires Inv(db, n) && Enabled(db, op) && op.AutoCheckpoint?
    ensures DrawCheckpoint(db, op.sid, op.v, op.w, op.now).sequence + 1 == NextSequence(Current(db) + Sess(db, op.sid).pending)
  {
    SessIsOk(db, n, op.sid);
    WriterViews(db.versions, n, Sess(db, op.sid), op.v);
  }

  lemma DrawnPlaced(interval: int, current: Table, s: Session, s': Session, c: Checkpoint, forced: bool)
    requires interval != 0 && SessionPlaced(interval, current, s, forced) && s.pc.MustCheckpoint?
    requires c.sequence + 1 == NextSequence(current + s.pending)
    requires s'.pending == s.pending && s'.checkpoints == s.checkpoints + [c] && s'.pc.Idle?
    ensures SessionPlaced(interval, current, s', forced)
  {
    PlacesGrow(interval, s.checkpoints, NextSequence(current), c.sequence, forced, c);
  }

  lemma ForcePlaced(interval: int, db: Db, op: Statement, forced: bool)
    requires interval != 0 && Placed(interval, db, forced) && Enabled(db, op) && op.Force?
    ensures Placed(interval, Apply(interval, db, op), true)
  {
    var s, next := Sess(db, op.sid), Apply(interval, db, op);
    assert SessionPlaced(interval, Current(db), s, forced);
    PlacesForced(interval, s.checkpoints, NextSequence(Current(db)), NextSequence(Current(db) + s.pending), forced,
                 DrawCheckpoint(db, op.sid, op.v, op.w, op.now));
    OneSessionPlaced(interval, db, next, op.sid, forced, true);
  }

  // ---------------------------------------------------------------- commits

  lemma {:induction false} DueInSplits(interval: int, lo: nat, mid: nat, hi: nat)
    requires interval != 0 && lo <= mid <= hi
    ensures DueIn(interval, lo, hi) == DueIn(interval, lo, mid) + DueIn(interval, mid, hi)
    decreases hi
  {
    if mid < hi { DueInSplits(interval, lo, mid, hi - 1); }
  }

  lemma JoinedCheckpoint(cs: seq<Checkpoint>, ds: seq<Checkpoint>, q: nat)
    requires HasCheckpoint(cs, q) || HasCheckpoint(ds, q)
    ensures HasCheckpoint(cs + ds, q)
  {
    var all := cs + ds;
    if HasCheckpoint(cs, q) {
      var i :| 0 <= i < |cs| && cs[i].sequence == q;
      assert all[i].sequence == q;
    } else {
      var i :| 0 <= i < |ds| && ds[i].sequence == q;
      assert all[|cs| + i].sequence == q;
    }
  }

  lemma PlacesJoin(interval: int, cs: seq<Checkpoint>, ds: seq<Checkpoint>, lo: nat, mid: nat, hi: nat, forced: bool)
    requires interval != 0 && lo <= mid <= hi
    requires Places(interval, cs, lo, mid, forced) && Places(interval, ds, mid, hi, forced)
    ensures Places(interval, cs + ds, lo, hi, forced)
  {
    if !forced {
      DueInSplits(interval, lo, mid, hi);
      assert Covered(cs + ds) == Covered(cs) + Covered(ds);
    }
    forall q: nat | lo <= q < hi && (q + 1) % interval == 0
      ensures HasCheckpoint(cs + ds, q)
    {
      JoinedCheckpoint(cs, ds, q);
    }
  }

  /** Another session at a commit: it has no rows, or nothing was committed. */
  lemma CommitPlacesOther(interval: int, current: Table, pending: Table, o: Session, forced: bool)
    requires interval != 0 && SessionPlaced(interval, current, o, forced)
    requires pending == map[] || o.pending == map[]
    ensures SessionPlaced(interval, current + pending, o, forced)
  {
    if pending == map[] {
      assert current + pending == current;
    } else {
      assert current + o.pending == current && current + pending + o.pending == current + pending;
    }
  }

  lemma CommitPlaced(interval: int, db: Db, n: nat, op: Statement, forced: bool)
    requires interval != 0 && Inv(db, n) && Placed(interval, db, forced) && Enabled(db, op) && op.Commit?
    ensures Placed(interval, Apply(interval, db, op), forced)
  {
    var x := op.sid;
    var s, next := Sess(db, x), Committed(db, x);
    assert SessionPlaced(interval, Current(db), s, forced);
    PlacesJoin(interval, db.checkpoints, s.checkpoints, 0, NextSequence(Current(db)),
               NextSequence(Current(db) + s.pending), forced);
    forall y: nat
      ensures SessionPlaced(interval, Current(next), Sess(next, y), forced)
    {
      if y != x {
        CommitPlacesSession(interval, db, n, x, y, forced);
      } else {
        EmptyPlaced(interval, Current(next), Sess(next, x), forced);
      }
    }
  }

  lemma CommitPlacesSession(interval: int, db: Db, n: nat, x: nat, y: nat, forced: bool)
    requires interval != 0 && Inv(db, n) && Placed(interval, db, forced) && x != y
    ensures SessionPlaced(interval, Current(db) + Sess(db, x).pending, Sess(db, y), forced)
  {
    assert SessionPlaced(interval, Current(db), Sess(db, y), forced);
    if Sess(db, x).pending != map[] { OthersQuiet(db, n, x); }
    CommitPlacesOther(interval, Current(db), Sess(db, x).pending, Sess(db, y), forced);
  }

  /** A read changes what the session holds in hand, not its rows or checkpoints. */
  lemma ReadPlaced(interval: int, db: Db, op: Statement, forced: bool)
    requires interval != 0 && Placed(interval, db, forced) && Enabled(db, op) && (op.Begin? || op.Reread?)
    ensures Placed(interval, Apply(interval, db, op), forced)
  {
    assert SessionPlaced(interval, Current(db), Sess(db, op.sid), forced);
    OneSessionPlaced(interval, db, Apply(interval, db, op), op.sid, forced, forced);
  }

  lemma RollbackPlaced(interval: int, db: Db, op: Statement, forced: bool)
    requires interval != 0 && Placed(interval, db, forced) && Enabled(db, op) && op.Rollback?
    ensures Placed(interval, Apply(interval, db, op), forced)
  {
    EmptyPlaced(interval, Current(db), Sess(Apply(interval, db, op), op.sid), forced);
    OneSessionPlaced(interval, db, Apply(interval, db, op), op.sid, forced, forced);
  }

  lemma KeyPlaced(interval: int, db: Db, op: Statement, forced: bool)
    requires interval != 0 && Placed(interval, db, forced) && Enabled(db, op) && op.RotateKey?
    ensures Placed(interval, Apply(interval, db, op), forced)
  {
    assert SessionPlaced(interval, Current(db), Sess(db, 0), forced);
    OneSessionPlaced(interval, db, Apply(interval, db, op), 0, forced, forced);
  }

  lemma StepPlaced(interval: int, db: Db, n: nat, op: Statement, forced: bool)
    requires interval != 0 && Inv(db, n) && Placed(interval, db, forced) && Enabled(db, op)
    ensures Placed(interval, Apply(interval, db, op), forced || op.Force?)
  {
    match op
    case Begin(_, _, _) => ReadPlaced(interval, db, op, forced);
    case Reread(_, _) => ReadPlaced(interval, db, op, forced);
    case Insert(_) => InsertPlaced(interval, db, n, op, forced);
    case AutoCheckpoint(_, _, _, _) => AutoPlaced(interval, db, n, op, forced);
    case Force(_, _, _, _) => ForcePlaced(interval, db, op, forced);
    case Commit(_) => CommitPlaced(interval, db, n, op, forced);
    case Rollback(_) => RollbackPlaced(interval, db, op, forced);
    case RotateKey(_) => KeyPlaced(interval, db, op, forced);
  }

  predicate HasForced(ops: seq<Statement>) {
    exists i :: 0 <= i < |ops| && ops[i].Force?
  }

  lemma StartPlaced(interval: int)
    requires interval != 0
    ensures Placed(interval, START, false)
  {
    forall sid: nat
      ensures SessionPlaced(interval, Current(START), Sess(START, sid), false)
    {
      EmptyPlaced(interval, Current(START), Sess(START, sid), false);
    }
  }

  lemma RunStepPlaced(interval: int, ops: seq<Statement>, op: Statement)
    requires interval != 0 && Possible(interval, ops) && Enabled(After(interval, ops), op)
    requires Placed(interval, After(interval, ops), HasForced(ops))
    ensures Placed(interval, Apply(interval, After(interval, ops), op), HasForced(ops) || op.Force?)
  {
    var n := EveryInterleavingIsLinear(interval, ops);
    StepPlaced(interval, After(interval, ops), n, op, HasForced(ops));
  }

  lemma {:induction false} EveryRunIsPlaced(interval: int, ops: seq<Statement>)
    requires interval != 0 && Possible(interval, ops)
    ensures Placed(interval, After(interval, ops), HasForced(ops))
    decreases |ops|
  {
    if ops == [] {
      StartPlaced(interval);
    } else {
      var before, op := ops[..|ops| - 1], ops[|ops| - 1];
      EveryRunIsPlaced(interval, before);
      RunStepPlaced(interval, before, op);
      assert HasForced(ops) <==> HasForced(before) || op.Force? by {
        assert forall i | 0 <= i < |before| :: before[i] == ops[i];
      }
    }
  }

  /** Each complete interval of rows has a checkpoint that covers exactly up to its last row. */
  predicate EachIntervalCovered(interval: int, t: Table, cs: seq<Checkpoint>)
    requires interval != 0
  {
    forall q | q in t && (q + 1) % interval == 0 :: HasCheckpoint(cs, q)
  }

  /** The checkpoints cover complete intervals only, each one once and in order. */
  predicate OnlyIntervals(interval: int, t: Table, cs: seq<Checkpoint>)
    requires interval != 0
  {
    && (forall i | 0 <= i < |cs| :: cs[i].sequence in t && (cs[i].sequence + 1) % interval == 0)
    && (forall i, j | 0 <= i < j < |cs| :: cs[i].sequence < cs[j].sequence)
  }

  lemma PlacedTable(interval: int, t: Table, n: nat, cs: seq<Checkpoint>, forced: bool)
    requires interval != 0 && Linear(t, n) && Places(interval, cs, 0, NextSequence(t), forced)
    ensures EachIntervalCovered(interval, t, cs) && (!forced ==> OnlyIntervals(interval, t, cs))
  {
    LinearNext(t, n);
    if !forced { DueListIsPlaced(interval, cs, 0, n); }
  }

  lemma CurrentIsLinear(interval: int, ops: seq<Statement>) returns (n: nat)
    requires interval != 0 && Possible(interval, ops)
    ensures After(interval, ops).versions != [] && Linear(Current(After(interval, ops)), n)
  {
    n := EveryInterleavingIsLinear(interval, ops);
  }

  /** For every interleaving: each complete interval of committed rows has its committed checkpoint,
      and without forced checkpoints there are no others. */
  lemma EveryIntervalHasItsCheckpoint(interval: int, ops: seq<Statement>)
    requires interval != 0 && Possible(interval, ops)
    ensures var db := After(interval, ops);
            && db.versions != []
            && EachIntervalCovered(interval, Current(db), db.checkpoints)
            && ((forall i | 0 <= i < |ops| :: !ops[i].Force?) ==> OnlyIntervals(interval, Current(db), db.checkpoints))
  {
    var db := After(interval, ops);
    EveryRunIsPlaced(interval, ops);
    var n := CurrentIsLinear(interval, ops);
    PlacedTable(interval, Current(db), n, db.checkpoints, HasForced(ops));
  }
}
