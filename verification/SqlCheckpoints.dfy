/** Checkpoints of the database-backed chain. `_checkpoint_now` and `force_checkpoint` read the
    head and the leaves with two separate statements. */
module SqlCheckpoints {
  import opened Digests
  import opened Signing
  import opened AuditChain
  import opened SqlChain
  import Merkle

  ghost predicate AllOk(rows: seq<Entry>, cs: seq<Checkpoint>) {
    forall i | 0 <= i < |cs| :: CheckpointOk(rows, cs[i])
  }

  /** The checkpoints cover existing rows, and all of them match exactly when none was drawn in a race. */
  ghost predicate ListOk(rows: seq<Entry>, cs: seq<Checkpoint>, raced: bool) {
    (forall i | 0 <= i < |cs| :: cs[i].sequence < |rows|) && (AllOk(rows, cs) <==> !raced)
  }

  /** Whether a racy checkpoint is committed, and which sessions hold one uncommitted. */
  datatype Races = Races(committed: bool, open: set<nat>)

  /** The committed checkpoints against the committed rows, and each session's uncommitted ones
      against what the session would commit. */
  ghost predicate CheckpointsOk(db: Db, r: Races)
    requires db.versions != []
  {
    ListOk(Ascending(Current(db)), db.checkpoints, r.committed) && forall sid: nat :: SessionListOk(db, r, sid)
  }

  ghost predicate SessionListOk(db: Db, r: Races, sid: nat)
    requires db.versions != []
  {
    ListOk(Ascending(Current(db) + Sess(db, sid).pending), Sess(db, sid).checkpoints, sid in r.open)
  }

  /** The two statements of a forced checkpoint saw different tables: the session had nothing
      uncommitted and somebody committed entries between them. */
  ghost predicate Racy(db: Db, op: Statement) {
    && op.Force? && Sess(db, op.sid).pending == map[]
    && op.v < |db.versions| && op.w < |db.versions|
    && NextSequence(db.versions[op.v]) != NextSequence(db.versions[op.w])
  }

  /** A checkpoint over rows that exist is as good after more rows as before. */
  lemma ListGrows(a: seq<Entry>, b: seq<Entry>, cs: seq<Checkpoint>, raced: bool)
    requires ListOk(a, cs, raced) && a <= b
    ensures ListOk(b, cs, raced)
  {
    forall i | 0 <= i < |cs|
      ensures cs[i].sequence < |b| && (CheckpointOk(a, cs[i]) <==> CheckpointOk(b, cs[i]))
    {
      assert cs[i].sequence < |a|;
      assert b[..cs[i].sequence + 1] == a[..cs[i].sequence + 1];
    }
  }

  lemma ListsJoin(rows: seq<Entry>, cs: seq<Checkpoint>, raced: bool, ds: seq<Checkpoint>, raced': bool)
    requires ListOk(rows, cs, raced) && ListOk(rows, ds, raced')
    ensures ListOk(rows, cs + ds, raced || raced')
  {
    var all := cs + ds;
    if AllOk(rows, all) {
      assert forall i | 0 <= i < |cs| :: cs[i] == all[i];
      assert forall i | 0 <= i < |ds| :: ds[i] == all[|cs| + i];
    }
  }

  /** A head of `xs` signed over the leaves of a longer chain `ys` does not verify. */
  lemma LongerLeavesFail(xs: seq<Entry>, ys: seq<Entry>, rows: seq<Entry>, key: Key, now: int)
    requires Linked(rows) && xs != [] && xs <= ys <= rows
    ensures CheckpointOk(rows, SignCheckpoint(ys, |xs| - 1, key, now)) <==> |xs| == |ys|
  {
    assert rows[..|xs|] == xs;
    if |xs| < |ys| {
      var d := ys[|xs|].entryHash;
      var hx, hy := EntryHashes(xs), EntryHashes(ys);
      assert hy[|xs|] == d;
      HashCountsEntries(rows, |xs|);
      forall i | 0 <= i < |hx|
        ensures hx[i] != d
      {
        HashCountsEntries(rows, i);
      }
      Merkle.DifferentLeavesDifferentRoots(hy, hx, d);
    } else {
      assert xs == ys;
    }
  }

  /** A writing session's two reads both see the newest version plus its own rows. */
  lemma WriterViews(versions: seq<Table>, n: nat, s: Session, v: nat)
    requires VersionsOk(versions, n) && SessionOk(versions, n, s) && s.pending != map[] && s.seen <= v < |versions|
    ensures View(versions, s, v) == versions[|versions| - 1] + s.pending
  {
    WriterSeesCurrent(versions, n, s, v);
  }

  lemma WriterDraw(db: Db, n: nat, sid: nat, v: nat, w: nat, now: int)
    requires Inv(db, n) && CanRead(db, sid, v) && v <= w < |db.versions|
    requires Sess(db, sid).pending != map[]
    requires NextSequence(View(db.versions, Sess(db, sid), v)) > 0
    ensures CheckpointOk(Ascending(Current(db) + Sess(db, sid).pending), DrawCheckpoint(db, sid, v, w, now))
  {
    var s := Sess(db, sid);
    var all := Current(db) + s.pending;
    SessIsOk(db, n, sid);
    WriterViews(db.versions, n, s, v);
    WriterViews(db.versions, n, s, w);
    DrawOfOneTable(db, sid, v, w, now, all);
    WholeTableDraw(all, db.key, now);
  }

  lemma DrawOfOneTable(db: Db, sid: nat, v: nat, w: nat, now: int, all: Table)
    requires v < |db.versions| && w < |db.versions| && NextSequence(all) > 0
    requires View(db.versions, Sess(db, sid), v) == all == View(db.versions, Sess(db, sid), w)
    ensures DrawCheckpoint(db, sid, v, w, now) == SignCheckpoint(Ascending(all), NextSequence(all) - 1, db.key, now)
  {
  }

  lemma WholeTableDraw(all: Table, key: Key, now: int)
    requires Linear(all, NextSequence(all)) && NextSequence(all) > 0
    ensures CheckpointOk(Ascending(all), SignCheckpoint(Ascending(all), NextSequence(all) - 1, key, now))
  {
    LinearAscending(all, NextSequence(all));
    FreshCheckpointOk(Ascending(all), key, now);
  }

  /** Head read from table `a`, leaves from a later table `b`, checked against a later table. */
  lemma HeadAndLeavesApart(a: Table, b: Table, later: Table, m: nat, key: Key, now: int)
    requires Linear(a, NextSequence(a)) && Linear(b, NextSequence(b)) && Linear(later, m)
    requires Prefix(a, b) && Prefix(b, later) && NextSequence(a) > 0
    ensures var c := SignCheckpoint(Ascending(b), NextSequence(a) - 1, key, now);
            CheckpointOk(Ascending(later), c) <==> NextSequence(a) == NextSequence(b)
  {
    PrefixAscending(a, NextSequence(a), b, NextSequence(b));
    PrefixAscending(b, NextSequence(b), later, m);
    LinearIsLinked(later, m);
    LinearAscending(a, NextSequence(a));
    LinearAscending(b, NextSequence(b));
    LongerLeavesFail(Ascending(a), Ascending(b), Ascending(later), key, now);
  }

  lemma VersionsApart(versions: seq<Table>, n: nat, v: nat, w: nat, later: Table)
    requires VersionsOk(versions, n) && v <= w < |versions| && Prefix(versions[|versions| - 1], later)
    ensures Linear(versions[v], NextSequence(versions[v])) && Linear(versions[w], NextSequence(versions[w]))
    ensures Prefix(versions[v], versions[w]) && Prefix(versions[w], later)
  {
    VersionsGrow(versions, n, v, w);
    VersionsGrow(versions, n, w, |versions| - 1);
  }

  /** Against every table that continues the current one, a reader's checkpoint verifies exactly
      when both statements saw the same number of rows. */
  lemma ReaderDraw(db: Db, n: nat, sid: nat, v: nat, w: nat, now: int, later: Table, m: nat)
    requires VersionsOk(db.versions, n) && v <= w < |db.versions|
    requires Sess(db, sid).pending == map[]
    requires NextSequence(View(db.versions, Sess(db, sid), v)) > 0
    requires Linear(later, m) && Prefix(Current(db), later)
    ensures var c := DrawCheckpoint(db, sid, v, w, now);
            CheckpointOk(Ascending(later), c) <==> NextSequence(db.versions[v]) == NextSequence(db.versions[w])
  {
    var a, b := db.versions[v], db.versions[w];
    assert View(db.versions, Sess(db, sid), v) == a && View(db.versions, Sess(db, sid), w) == b;
    VersionsApart(db.versions, n, v, w, later);
    HeadAndLeavesApart(a, b, later, m, db.key, now);
  }

  lemma AutoDrawsAsWriter(db: Db, n: nat, op: Statement)
    requires Inv(db, n) && Enabled(db, op) && op.AutoCheckpoint?
    ensures Sess(db, op.sid).pending != map[]
  {
    SessIsOk(db, n, op.sid);
  }

  /** A drawn checkpoint is good exactly when the two reads did not race with a commit. */
  lemma DrawnCheckpointOkExactlyWhenNotRacy(db: Db, n: nat, op: Statement)
    requires Inv(db, n) && Enabled(db, op) && (op.Force? || op.AutoCheckpoint?)
    ensures var rows := Ascending(Current(db) + Sess(db, op.sid).pending);
            CheckpointOk(rows, DrawCheckpoint(db, op.sid, op.v, op.w, op.now)) <==> !Racy(db, op)
  {
    if op.AutoCheckpoint? { AutoDrawsAsWriter(db, n, op); }
    if Sess(db, op.sid).pending != map[] {
      WriterDraw(db, n, op.sid, op.v, op.w, op.now);
    } else {
      assert Current(db) + Sess(db, op.sid).pending == Current(db);
      ReaderDraw(db, n, op.sid, op.v, op.w, op.now, Current(db), n);
    }
  }

  /** A racy checkpoint stays bad against every later table. */
  lemma RacyCheckpointNeverVerifies(db: Db, n: nat, op: Statement, later: Table, m: nat)
    requires Inv(db, n) && Enabled(db, op) && Racy(db, op)
    requires Linear(later, m) && Prefix(Current(db), later)
    ensures !CheckpointOk(Ascending(later), DrawCheckpoint(db, op.sid, op.v, op.w, op.now))
  {
    ReaderDraw(db, n, op.sid, op.v, op.w, op.now, later, m);
  }

  lemma {:induction false} PutKeepsCheckpoints(db: Db, r: Races, sid: nat, s: Session, raced: bool)
    requires db.versions != [] && CheckpointsOk(db, r)
    requires ListOk(Ascending(Current(db) + s.pending), s.checkpoints, raced)
    ensures CheckpointsOk(Put(db, sid, s), r.(open := if raced then r.open + {sid} else r.open - {sid}))
  {
    var next, r' := Put(db, sid, s), r.(open := if raced then r.open + {sid} else r.open - {sid});
    forall x: nat
      ensures SessionListOk(next, r', x)
    {
      if x != sid { assert SessionListOk(db, r, x) && Sess(next, x) == Sess(db, x); }
    }
  }

  lemma InsertedRowsGrow(versions: seq<Table>, n: nat, s: Session, pc: Pc)
    requires VersionsOk(versions, n) && SessionOk(versions, n, s) && s.pc.Holding?
    requires s.pc.sequence !in versions[|versions| - 1] && s.pc.sequence !in s.pending
    requires pc.Idle? || pc.MustCheckpoint?
    ensures var row := Seal(s.pc.draft.(sequence := s.pc.sequence), s.pc.prev);
            var current := versions[|versions| - 1];
            Ascending(current + s.pending) <= Ascending(current + s.pending[s.pc.sequence := row])
  {
    var current := versions[|versions| - 1];
    var row := Seal(s.pc.draft.(sequence := s.pc.sequence), s.pc.prev);
    InsertedSessionOk(versions, n, s, pc);
    var a, b := current + s.pending, current + s.pending[s.pc.sequence := row];
    PrefixAscending(a, NextSequence(a), b, NextSequence(b));
  }

  /** A conflict throws the session's uncommitted checkpoints away with its rows. */
  ghost predicate ConflictIn(db: Db, sid: nat)
    requires db.versions != [] && Sess(db, sid).pc.Holding?
  {
    Sess(db, sid).pc.sequence in Current(db) || Sess(db, sid).pc.sequence in Sess(db, sid).pending
  }

  lemma FreeInsertKeepsCheckpoints(db: Db, n: nat, r: Races, sid: nat, pc: Pc)
    requires Inv(db, n) && CheckpointsOk(db, r) && Sess(db, sid).pc.Holding? && !ConflictIn(db, sid)
    requires pc.Idle? || pc.MustCheckpoint?
    ensures var s := Sess(db, sid);
            var row := Seal(s.pc.draft.(sequence := s.pc.sequence), s.pc.prev);
            CheckpointsOk(Put(db, sid, s.(pending := s.pending[s.pc.sequence := row], pc := pc)), r)
  {
    var s := Sess(db, sid);
    var row := Seal(s.pc.draft.(sequence := s.pc.sequence), s.pc.prev);
    var pending := s.pending[s.pc.sequence := row];
    SessIsOk(db, n, sid);
    assert SessionListOk(db, r, sid);
    InsertedRowsGrow(db.versions, n, s, pc);
    ListGrows(Ascending(Current(db) + s.pending), Ascending(Current(db) + pending), s.checkpoints, sid in r.open);
    PutKeepsCheckpoints(db, r, sid, s.(pending := pending, pc := pc), sid in r.open);
    SameOpen(r, sid);
  }

  /** A session that starts over holds no racy checkpoint. */
  lemma ResetKeepsCheckpoints(db: Db, r: Races, sid: nat, seen: nat, pc: Pc)
    requires db.versions != [] && CheckpointsOk(db, r)
    ensures CheckpointsOk(Put(db, sid, Session(map[], [], seen, pc)), r.(open := r.open - {sid}))
  {
    PutKeepsCheckpoints(db, r, sid, Session(map[], [], seen, pc), false);
  }

  lemma {:induction false} InsertKeepsCheckpoints(interval: int, db: Db, n: nat, r: Races, sid: nat)
    requires interval != 0 && Inv(db, n) && CheckpointsOk(db, r) && Sess(db, sid).pc.Holding?
    ensures CheckpointsOk(Put(db, sid, Inserted(interval, Current(db), Sess(db, sid))),
                          if ConflictIn(db, sid) then r.(open := r.open - {sid}) else r)
  {
    var s := Sess(db, sid);
    if ConflictIn(db, sid) {
      ResetKeepsCheckpoints(db, r, sid, s.seen, if s.pc.retried then Idle else Retry(s.pc.draft));
    } else {
      FreeInsertKeepsCheckpoints(db, n, r, sid, if CheckpointDue(interval, s.pc.sequence) then MustCheckpoint else Idle);
    }
  }

  lemma SameOpen(r: Races, sid: nat)
    ensures r.(open := if sid in r.open then r.open + {sid} else r.open - {sid}) == r
  {
  }

  lemma CommitKeepsRival(current: Table, pending: Table, rival: Session, raced: bool)
    requires ListOk(Ascending(current + rival.pending), rival.checkpoints, raced)
    requires pending == map[] || rival.pending == map[]
    requires Ascending(current) <= Ascending(current + pending)
    ensures ListOk(Ascending(current + pending + rival.pending), rival.checkpoints, raced)
  {
    if pending == map[] {
      assert current + pending == current;
    } else {
      assert current + rival.pending == current && current + pending + rival.pending == current + pending;
      ListGrows(Ascending(current), Ascending(current + pending), rival.checkpoints, raced);
    }
  }

  lemma CommitKeepsCheckpoints(db: Db, n: nat, r: Races, sid: nat)
    requires Inv(db, n) && CheckpointsOk(db, r)
    ensures CheckpointsOk(Committed(db, sid), Races(r.committed || sid in r.open, r.open - {sid}))
  {
    var s := Sess(db, sid);
    var next := Current(db) + s.pending;
    assert SessionListOk(db, r, sid);
    assert Ascending(Current(db)) <= Ascending(next) by {
      SessIsOk(db, n, sid);
      CommittedVersionsOk(db.versions, n, s);
      PrefixAscending(Current(db), n, next, NextSequence(next));
    }
    ListGrows(Ascending(Current(db)), Ascending(next), db.checkpoints, r.committed);
    ListsJoin(Ascending(next), db.checkpoints, r.committed, s.checkpoints, sid in r.open);
    var r' := Races(r.committed || sid in r.open, r.open - {sid});
    forall x: nat
      ensures SessionListOk(Committed(db, sid), r', x)
    {
      CommitKeepsSession(db, n, r, sid, x);
    }
  }

  lemma CommitKeepsSession(db: Db, n: nat, r: Races, sid: nat, x: nat)
    requires Inv(db, n) && CheckpointsOk(db, r) && Ascending(Current(db)) <= Ascending(Current(db) + Sess(db, sid).pending)
    ensures SessionListOk(Committed(db, sid), Races(r.committed || sid in r.open, r.open - {sid}), x)
  {
    if x != sid {
      assert SessionListOk(db, r, x) && Sess(Committed(db, sid), x) == Sess(db, x);
      if Sess(db, sid).pending != map[] { OthersQuiet(db, n, sid); }
      CommitKeepsRival(Current(db), Sess(db, sid).pending, Sess(db, x), x in r.open);
    }
  }

  /** A drawn checkpoint covers rows the session sees. */
  lemma DrawCovers(db: Db, n: nat, sid: nat, v: nat)
    requires Inv(db, n) && CanRead(db, sid, v)
    ensures NextSequence(View(db.versions, Sess(db, sid), v)) <= |Ascending(Current(db) + Sess(db, sid).pending)|
  {
    SessIsOk(db, n, sid);
    if Sess(db, sid).pending != map[] {
      WriterCovers(db.versions, n, Sess(db, sid), v);
    } else {
      assert View(db.versions, Sess(db, sid), v) == db.versions[v] && Current(db) + Sess(db, sid).pending == Current(db);
      VersionCovers(db.versions, n, v);
    }
  }

  lemma WriterCovers(versions: seq<Table>, n: nat, s: Session, v: nat)
    requires VersionsOk(versions, n) && SessionOk(versions, n, s) && s.pending != map[] && s.seen <= v < |versions|
    ensures NextSequence(View(versions, s, v)) <= |Ascending(versions[|versions| - 1] + s.pending)|
  {
    var all := versions[|versions| - 1] + s.pending;
    WriterViews(versions, n, s, v);
    LinearAscending(all, NextSequence(all));
  }

  lemma VersionCovers(versions: seq<Table>, n: nat, v: nat)
    requires VersionsOk(versions, n) && v < |versions|
    ensures NextSequence(versions[v]) <= |Ascending(versions[|versions| - 1])|
  {
    var current := versions[|versions| - 1];
    VersionsGrow(versions, n, v, |versions| - 1);
    PrefixAscending(versions[v], NextSequence(versions[v]), current, n);
    LinearAscending(current, n);
  }

  lemma DrawKeepsList(db: Db, n: nat, r: Races, op: Statement)
    requires Inv(db, n) && CheckpointsOk(db, r) && Enabled(db, op) && (op.Force? || op.AutoCheckpoint?)
    ensures var s := Sess(db, op.sid);
            ListOk(Ascending(Current(db) + s.pending), s.checkpoints + [DrawCheckpoint(db, op.sid, op.v, op.w, op.now)],
                   op.sid in r.open || Racy(db, op))
  {
    var s, c := Sess(db, op.sid), DrawCheckpoint(db, op.sid, op.v, op.w, op.now);
    DrawnCheckpointOkExactlyWhenNotRacy(db, n, op);
    DrawCovers(db, n, op.sid, op.v);
    assert SessionListOk(db, r, op.sid);
    OneCheckpointList(Ascending(Current(db) + s.pending), c, Racy(db, op));
    ListsJoin(Ascending(Current(db) + s.pending), s.checkpoints, op.sid in r.open, [c], Racy(db, op));
  }

  lemma OneCheckpointList(rows: seq<Entry>, c: Checkpoint, raced: bool)
    requires c.sequence < |rows| && (CheckpointOk(rows, c) <==> !raced)
    ensures ListOk(rows, [c], raced)
  {
    assert [c][0] == c;
  }

  lemma DrawKeepsCheckpoints(db: Db, n: nat, r: Races, op: Statement, pc: Pc)
    requires Inv(db, n) && CheckpointsOk(db, r) && Enabled(db, op) && (op.Force? || op.AutoCheckpoint?)
    ensures var s := Sess(db, op.sid);
            var cs := s.checkpoints + [DrawCheckpoint(db, op.sid, op.v, op.w, op.now)];
            CheckpointsOk(Put(db, op.sid, s.(checkpoints := cs, seen := op.w, pc := pc)),
                          if Racy(db, op) then r.(open := r.open + {op.sid}) else r)
  {
    var s := Sess(db, op.sid);
    var cs := s.checkpoints + [DrawCheckpoint(db, op.sid, op.v, op.w, op.now)];
    DrawKeepsList(db, n, r, op);
    PutKeepsCheckpoints(db, r, op.sid, s.(checkpoints := cs, seen := op.w, pc := pc), op.sid in r.open || Racy(db, op));
    SameOpen(r, op.sid);
  }

  lemma {:induction false} ReadKeepsCheckpoints(db: Db, n: nat, r: Races, sid: nat, s: Session)
    requires Inv(db, n) && CheckpointsOk(db, r)
    requires s.pending == Sess(db, sid).pending && s.checkpoints == Sess(db, sid).checkpoints
    ensures CheckpointsOk(Put(db, sid, s), r)
  {
    assert SessionListOk(db, r, sid);
    PutKeepsCheckpoints(db, r, sid, s, sid in r.open);
    SameOpen(r, sid);
  }

  /** What a statement does to the racy checkpoints: a racy draw opens one in its session, a commit
      commits it, a rollback or a conflict throws it away. */
  ghost function RaceStep(db: Db, r: Races, op: Statement): Races
    requires Enabled(db, op)
  {
    if op.Force? && Racy(db, op) then r.(open := r.open + {op.sid})
    else if op.Commit? then Races(r.committed || op.sid in r.open, r.open - {op.sid})
    else if op.Rollback? || (op.Insert? && ConflictIn(db, op.sid)) then r.(open := r.open - {op.sid})
    else r
  }

  lemma StepKeepsCheckpoints(interval: int, db: Db, n: nat, r: Races, op: Statement)
    requires interval != 0 && Inv(db, n) && CheckpointsOk(db, r) && Enabled(db, op)
    ensures CheckpointsOk(Apply(interval, db, op), RaceStep(db, r, op))
  {
    if op.Begin? || op.Reread? {
      ReadStepKeepsCheckpoints(interval, db, n, r, op);
    } else if op.AutoCheckpoint? || op.Force? {
      DrawStepKeepsCheckpoints(interval, db, n, r, op);
    } else {
      OtherStepKeepsCheckpoints(interval, db, n, r, op);
    }
  }

  lemma OtherStepKeepsCheckpoints(interval: int, db: Db, n: nat, r: Races, op: Statement)
    requires interval != 0 && Inv(db, n) && CheckpointsOk(db, r) && Enabled(db, op)
    requires op.Insert? || op.Commit? || op.Rollback? || op.RotateKey?
    ensures CheckpointsOk(Apply(interval, db, op), RaceStep(db, r, op))
  {
    if op.Insert? {
      InsertKeepsCheckpoints(interval, db, n, r, op.sid);
    } else if op.Commit? {
      CommitKeepsCheckpoints(db, n, r, op.sid);
    } else if op.Rollback? {
      ResetKeepsCheckpoints(db, r, op.sid, Sess(db, op.sid).seen, Idle);
    } else {
      SameLists(db, Apply(interval, db, op), r);
    }
  }

  lemma SameLists(db: Db, next: Db, r: Races)
    requires db.versions != [] && CheckpointsOk(db, r)
    requires next.versions == db.versions && next.checkpoints == db.checkpoints && next.sessions == db.sessions
    ensures CheckpointsOk(next, r)
  {
    forall sid: nat
      ensures SessionListOk(next, r, sid)
    {
      assert SessionListOk(db, r, sid);
    }
  }

  lemma ReadStepKeepsCheckpoints(interval: int, db: Db, n: nat, r: Races, op: Statement)
    requires interval != 0 && Inv(db, n) && CheckpointsOk(db, r) && Enabled(db, op) && (op.Begin? || op.Reread?)
    ensures CheckpointsOk(Apply(interval, db, op), RaceStep(db, r, op))
  {
    ReadKeepsCheckpoints(db, n, r, op.sid, Sess(Apply(interval, db, op), op.sid));
  }

  lemma DrawStepKeepsCheckpoints(interval: int, db: Db, n: nat, r: Races, op: Statement)
    requires interval != 0 && Inv(db, n) && CheckpointsOk(db, r) && Enabled(db, op) && (op.Force? || op.AutoCheckpoint?)
    ensures CheckpointsOk(Apply(interval, db, op), RaceStep(db, r, op))
  {
    DrawKeepsCheckpoints(db, n, r, op, if op.Force? then Sess(db, op.sid).pc else Idle);
  }

  ghost function RacesAfter(interval: int, ops: seq<Statement>): Races
    requires interval != 0 && Possible(interval, ops)
  {
    if ops == [] then Races(false, {})
    else RaceStep(After(interval, ops[..|ops| - 1]), RacesAfter(interval, ops[..|ops| - 1]), ops[|ops| - 1])
  }

  lemma {:induction false} EveryRunKeepsCheckpoints(interval: int, ops: seq<Statement>)
    requires interval != 0 && Possible(interval, ops)
    ensures After(interval, ops).versions != [] && CheckpointsOk(After(interval, ops), RacesAfter(interval, ops))
    decreases |ops|
  {
    if ops != [] {
      var before := ops[..|ops| - 1];
      EveryRunKeepsCheckpoints(interval, before);
      var m := EveryInterleavingIsLinear(interval, before);
      StepKeepsCheckpoints(interval, After(interval, before), m, RacesAfter(interval, before), ops[|ops| - 1]);
    }
    var n := EveryInterleavingIsLinear(interval, ops);
  }

  /** In every interleaving, across key rotations: the verifier accepts the committed rows with all
      committed checkpoints if and only if no committed checkpoint was drawn in a race. */
  lemma {:induction false} EveryInterleavingVerifiesExactly(interval: int, ops: seq<Statement>)
    requires interval != 0 && Possible(interval, ops)
    ensures var db := After(interval, ops);
            && db.versions != []
            && (Accepted(Ascending(Current(db)), db.checkpoints) <==> !RacesAfter(interval, ops).committed)
  {
    EveryRunKeepsCheckpoints(interval, ops);
    var n := EveryInterleavingIsLinear(interval, ops);
  }

  // ---------------------------------------------------------------- a run that races

  lemma Extend(interval: int, ops: seq<Statement>, op: Statement)
    requires interval != 0 && Possible(interval, ops) && Enabled(After(interval, ops), op)
    ensures Possible(interval, ops + [op]) && After(interval, ops + [op]) == Apply(interval, After(interval, ops), op)
  {
    assert (ops + [op])[..|ops|] == ops;
  }

  /** Session 0 alone, with nothing uncommitted. */
  ghost predicate Alone(db: Db, n: nat) {
    && db.versions != [] && Linear(Current(db), n) && db.sessions.Keys <= {0} && db.checkpoints == []
    && Sess(db, 0).pending == map[] && Sess(db, 0).checkpoints == [] && Sess(db, 0).pc.Idle?
    && Sess(db, 0).seen < |db.versions|
  }

  function AppendAndCommit(v: nat, draft: Content): seq<Statement> {
    [Begin(0, v, draft), Insert(0), Commit(0)]
  }

  lemma BeginAlone(db: Db, n: nat, draft: Content) returns (s: Session)
    requires Alone(db, n)
    ensures s == Sess(db, 0).(seen := |db.versions| - 1, pc := Holding(draft, n, LastHash(Current(db)), false))
    ensures Enabled(db, Begin(0, |db.versions| - 1, draft))
    ensures ReadSlot(db, 0, |db.versions| - 1, draft, false) == Put(db, 0, s)
  {
    s := Sess(db, 0).(seen := |db.versions| - 1, pc := Holding(draft, n, LastHash(Current(db)), false));
    LinearNext(Current(db), n);
    assert View(db.versions, Sess(db, 0), |db.versions| - 1) == Current(db);
  }

  lemma InsertAlone(interval: int, db: Db, n: nat, s: Session)
    requires interval != 0 && Alone(db, n) && !CheckpointDue(interval, n)
    requires s.pc.Holding? && s.pc.sequence == n && s.pending == map[]
    ensures Enabled(Put(db, 0, s), Insert(0))
    ensures Inserted(interval, Current(db), s) == s.(pending := map[n := Seal(s.pc.draft.(sequence := n), s.pc.prev)], pc := Idle)
  {
    assert n !in Current(db);
  }

  lemma CommitAlone(db: Db, n: nat, s: Session, row: Entry, draft: Content)
    requires Alone(db, n) && s.pc.Idle? && s.checkpoints == [] && s.pending == map[n := row] && s.seen < |db.versions|
    requires row == Seal(draft.(sequence := n), LastHash(Current(db)))
    ensures Enabled(Put(db, 0, s), Commit(0)) && Alone(Committed(Put(db, 0, s), 0), n + 1)
    ensures Committed(Put(db, 0, s), 0).versions == db.versions + [Current(db)[n := row]]
  {
    LinearExtend(Current(db), n, draft);
    assert Current(db) + map[n := row] == Current(db)[n := row];
  }

  lemma PutTwice(db: Db, sid: nat, s: Session, s': Session)
    ensures Put(Put(db, sid, s), sid, s') == Put(db, sid, s')
  {
  }

  /** One append and its commit add one version with one more row. */
  lemma AppendAloneRun(interval: int, ops: seq<Statement>, n: nat, draft: Content) returns (next: Db)
    requires interval != 0 && Possible(interval, ops) && Alone(After(interval, ops), n) && !CheckpointDue(interval, n)
    ensures var db := After(interval, ops);
            var longer := ops + AppendAndCommit(|db.versions| - 1, draft);
            && Possible(interval, longer) && next == After(interval, longer)
            && Alone(next, n + 1) && |next.versions| == |db.versions| + 1 && next.versions[..|db.versions|] == db.versions
  {
    var db := After(interval, ops);
    var s, written := BeginAndInsert(interval, ops, db, n, draft);
    next := CommitAloneRun(interval, written, db, n, s);
    assert written + [Commit(0)] == ops + AppendAndCommit(|db.versions| - 1, draft);
  }

  lemma BeginAndInsert(interval: int, ops: seq<Statement>, db: Db, n: nat, draft: Content) returns (s: Session, written: seq<Statement>)
    requires interval != 0 && Possible(interval, ops) && db == After(interval, ops) && Alone(db, n) && !CheckpointDue(interval, n)
    ensures s == Session(map[], [], |db.versions| - 1, Holding(draft, n, LastHash(Current(db)), false))
    ensures written == ops + [Begin(0, |db.versions| - 1, draft)] + [Insert(0)] && Possible(interval, written)
    ensures After(interval, written) == Put(db, 0, Inserted(interval, Current(db), s))
  {
    var begun := ops + [Begin(0, |db.versions| - 1, draft)];
    s := BeginAlone(db, n, draft);
    written := begun + [Insert(0)];
    Extend(interval, ops, Begin(0, |db.versions| - 1, draft));
    InsertAloneRun(interval, begun, db, n, s);
  }

  lemma InsertAloneRun(interval: int, ops: seq<Statement>, db: Db, n: nat, s: Session)
    requires interval != 0 && Alone(db, n) && !CheckpointDue(interval, n)
    requires s.pc.Holding? && s.pc.sequence == n && s.pending == map[]
    requires Possible(interval, ops) && After(interval, ops) == Put(db, 0, s)
    ensures Possible(interval, ops + [Insert(0)])
    ensures After(interval, ops + [Insert(0)]) == Put(db, 0, Inserted(interval, Current(db), s))
  {
    InsertAlone(interval, db, n, s);
    Extend(interval, ops, Insert(0));
    PutTwice(db, 0, s, Inserted(interval, Current(db), s));
  }

  lemma CommitAloneRun(interval: int, ops: seq<Statement>, db: Db, n: nat, s: Session) returns (next: Db)
    requires interval != 0 && Alone(db, n) && !CheckpointDue(interval, n)
    requires s.pc.Holding? && s.pc.sequence == n && s.pc.prev == LastHash(Current(db))
    requires s.pending == map[] && s.checkpoints == [] && s.seen < |db.versions|
    requires Possible(interval, ops) && After(interval, ops) == Put(db, 0, Inserted(interval, Current(db), s))
    ensures Possible(interval, ops + [Commit(0)]) && next == After(interval, ops + [Commit(0)])
    ensures Alone(next, n + 1) && |next.versions| == |db.versions| + 1 && next.versions[..|db.versions|] == db.versions
  {
    InsertAlone(interval, db, n, s);
    CommitAlone(db, n, Inserted(interval, Current(db), s), Seal(s.pc.draft.(sequence := n), s.pc.prev), s.pc.draft);
    Extend(interval, ops, Commit(0));
    next := After(interval, ops + [Commit(0)]);
  }

  /** Session 1, fresh, draws a checkpoint. */
  lemma ForceRun(ops: seq<Statement>, db: Db, n: nat, force: Statement) returns (c: Checkpoint)
    requires Possible(100, ops) && db == After(100, ops) && Alone(db, n)
    requires force.Force? && force.sid == 1 && Enabled(db, force)
    ensures c == DrawCheckpoint(db, 1, force.v, force.w, force.now)
    ensures Possible(100, ops + [force])
    ensures After(100, ops + [force]) == Put(db, 1, FRESH.(checkpoints := [c], seen := force.w))
  {
    c := DrawCheckpoint(db, 1, force.v, force.w, force.now);
    assert Sess(db, 1) == FRESH;
    assert FRESH.checkpoints + [c] == [c];
    Extend(100, ops, force);
  }

  /** It commits it. */
  lemma CommitDrawn(ops: seq<Statement>, db: Db, w: nat, c: Checkpoint) returns (end: Db)
    requires Possible(100, ops) && After(100, ops) == Put(db, 1, FRESH.(checkpoints := [c], seen := w))
    requires db.versions != [] && db.checkpoints == []
    ensures Possible(100, ops + [Commit(1)]) && end == After(100, ops + [Commit(1)])
    ensures end.versions != [] && Current(end) == Current(db) && end.checkpoints == [c]
  {
    Extend(100, ops, Commit(1));
    end := After(100, ops + [Commit(1)]);
    assert Current(db) + map[] == Current(db);
    assert [] + [c] == [c];
  }

  lemma RacedRun(ops: seq<Statement>, force: Statement, n: nat) returns (end: Db)
    requires Possible(100, ops) && Alone(After(100, ops), n) && force.Force? && force.sid == 1
    requires Enabled(After(100, ops), force) && Racy(After(100, ops), force)
    ensures Possible(100, ops + [force] + [Commit(1)]) && end == After(100, ops + [force] + [Commit(1)])
    ensures end.versions != [] && !Accepted(Ascending(Current(end)), end.checkpoints)
  {
    var c := ForceRun(ops, After(100, ops), n, force);
    end := CommitDrawn(ops + [force], After(100, ops), force.w, c);
    RacyDraw(ops, force);
    RejectedWith(end, c);
  }

  lemma RacyDraw(ops: seq<Statement>, force: Statement)
    requires Possible(100, ops) && force.Force? && Enabled(After(100, ops), force) && Racy(After(100, ops), force)
    ensures var db := After(100, ops);
            !CheckpointOk(Ascending(Current(db)), DrawCheckpoint(db, force.sid, force.v, force.w, force.now))
  {
    var m := EveryInterleavingIsLinear(100, ops);
    RacyCheckpointNeverVerifies(After(100, ops), m, force, Current(After(100, ops)), m);
  }

  lemma RejectedWith(end: Db, c: Checkpoint)
    requires end.versions != [] && end.checkpoints == [c] && !CheckpointOk(Ascending(Current(end)), c)
    ensures !Accepted(Ascending(Current(end)), end.checkpoints)
  {
    assert end.checkpoints[0] == c;
  }

  lemma StartIsAlone()
    ensures Alone(START, 0)
  {
  }

  /** A reachable race: session 1 reads the head when one row is committed and the leaves when two
      are. Its checkpoint is committed, and the verifier rejects the log from then on. */
  lemma ForcedCheckpointCanRace(a: Content, b: Content, now: int)
    ensures var ops := AppendAndCommit(0, a) + AppendAndCommit(1, b);
            var force := Force(1, 1, 2, now);
            && Possible(100, ops) && Enabled(After(100, ops), force) && Racy(After(100, ops), force)
            && Possible(100, ops + [force] + [Commit(1)])
            && var end := After(100, ops + [force] + [Commit(1)]);
               end.versions != [] && !Accepted(Ascending(Current(end)), end.checkpoints)
  {
    var first := AppendAndCommit(0, a);
    StartIsAlone();
    var one := AppendAloneRun(100, [], 0, a);
    assert [] + first == first;
    var two := AppendAloneRun(100, first, 1, b);
    var ops := first + AppendAndCommit(1, b);
    ReadsRace(After(100, ops), After(100, first), Force(1, 1, 2, now));
    var end := RacedRun(ops, Force(1, 1, 2, now), 2);
  }

  lemma ReadsRace(db: Db, earlier: Db, force: Statement)
    requires Alone(db, 2) && Alone(earlier, 1) && |earlier.versions| == 2 && |db.versions| == 3
    requires db.versions[..2] == earlier.versions && force.Force? && force.sid == 1 && force.v == 1 && force.w == 2
    ensures Enabled(db, force) && Racy(db, force)
  {
    LinearNext(earlier.versions[1], 1);
    LinearNext(db.versions[2], 2);
    assert db.versions[1] == earlier.versions[1];
    assert View(db.versions, Sess(db, 1), 1) == db.versions[1];
  }
}
