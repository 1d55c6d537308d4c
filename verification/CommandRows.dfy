/** Which commands the queue's table holds after a run: exactly those whose insert met no row with
    their key and whose transaction committed, until they are deleted, each as it was passed in. */
module CommandRows {
  import opened Digests
  import opened CommandQueue

  lemma {:induction false} PossiblePrefix(capacity: nat, steps: seq<Step>, j: nat)
    requires Possible(capacity, steps) && j <= |steps|
    ensures Possible(capacity, steps[..j])
    decreases |steps|
  {
    if j < |steps| {
      PossiblePrefix(capacity, steps[..|steps| - 1], j);
      assert steps[..|steps| - 1][..j] == steps[..j];
    } else {
      assert steps[..j] == steps;
    }
  }

  /** Step `i` is an insert of session `sid` that meets a row with its key, or one that does not. */
  ghost predicate Inserts(capacity: nat, steps: seq<Step>, i: nat, sid: nat, conflict: bool)
    requires Possible(capacity, steps)
  {
    && i < |steps| && steps[i].Insert? && steps[i].sid == sid
    && (PossiblePrefix(capacity, steps, i);
        HasKey(Visible(Ran(capacity, steps[..i]), sid), steps[i].idem) == conflict)
  }

  /** Step `k` ends the transaction of the session. */
  ghost predicate EndsTransaction(capacity: nat, steps: seq<Step>, k: nat, sid: nat)
    requires Possible(capacity, steps)
  {
    k < |steps| && (steps[k] == Commit(sid) || steps[k] == Rollback(sid) || Inserts(capacity, steps, k, sid, true))
  }

  /** The row inserted at `i` is uncommitted in front of step `m`. */
  ghost predicate Waits(capacity: nat, steps: seq<Step>, i: nat, sid: nat, m: nat)
    requires Possible(capacity, steps)
  {
    && i < m <= |steps| && Inserts(capacity, steps, i, sid, false)
    && forall k | i < k < m :: !EndsTransaction(capacity, steps, k, sid)
  }

  /** The row inserted at `i` was committed at `c` and not deleted since. */
  ghost predicate Stands(capacity: nat, steps: seq<Step>, i: nat, sid: nat, c: nat)
    requires Possible(capacity, steps)
  {
    && c < |steps| && steps[c] == Commit(sid) && Waits(capacity, steps, i, sid, c)
    && forall k | c < k < |steps| :: steps[k] != Delete(steps[i].id)
  }

  function RowOf(step: Step): Row
    requires step.Insert?
  {
    Row(step.host, step.idem)
  }

  ghost predicate PendingReads(capacity: nat, steps: seq<Step>, sid: nat, id: Id)
    requires Possible(capacity, steps)
  {
    var pending := PendingOf(Ran(capacity, steps), sid);
    && (id in pending ==> exists i: nat :: Waits(capacity, steps, i, sid, |steps|) && steps[i].id == id && pending[id] == RowOf(steps[i]))
    && forall i: nat | Waits(capacity, steps, i, sid, |steps|) && steps[i].id == id :: id in pending && pending[id] == RowOf(steps[i])
  }

  ghost predicate PendingAllRead(capacity: nat, steps: seq<Step>, id: Id)
    requires Possible(capacity, steps)
  {
    forall sid: nat :: PendingReads(capacity, steps, sid, id)
  }

  ghost predicate TableReads(capacity: nat, steps: seq<Step>, id: Id)
    requires Possible(capacity, steps)
  {
    var t := Ran(capacity, steps).committed;
    && (id in t ==>
          exists i: nat, sid: nat, c: nat :: Stands(capacity, steps, i, sid, c) && steps[i].id == id && t[id] == RowOf(steps[i]))
    && forall i: nat, sid: nat, c: nat | Stands(capacity, steps, i, sid, c) && steps[i].id == id ::
         id in t && t[id] == RowOf(steps[i])
  }

  // ---------------------------------------------------------------- one more step

  lemma InsertsSame(capacity: nat, steps: seq<Step>, i: nat, sid: nat, conflict: bool)
    requires Possible(capacity, steps) && steps != [] && i < |steps| - 1
    ensures Inserts(capacity, steps, i, sid, conflict) <==> Inserts(capacity, steps[..|steps| - 1], i, sid, conflict)
  {
    assert steps[..|steps| - 1][..i] == steps[..i];
  }

  lemma WaitsSame(capacity: nat, steps: seq<Step>, i: nat, sid: nat, m: nat)
    requires Possible(capacity, steps) && steps != [] && m <= |steps| - 1
    ensures Waits(capacity, steps, i, sid, m) <==> Waits(capacity, steps[..|steps| - 1], i, sid, m)
  {
    var before := steps[..|steps| - 1];
    if i < m {
      InsertsSame(capacity, steps, i, sid, false);
      forall k | i < k < m
        ensures EndsTransaction(capacity, steps, k, sid) <==> EndsTransaction(capacity, before, k, sid)
      {
        InsertsSame(capacity, steps, k, sid, true);
      }
    }
  }

  lemma WaitsStep(capacity: nat, steps: seq<Step>, i: nat, sid: nat)
    requires Possible(capacity, steps) && steps != []
    ensures var before := steps[..|steps| - 1];
            Waits(capacity, steps, i, sid, |steps|) <==>
              || (Waits(capacity, before, i, sid, |before|) && !EndsTransaction(capacity, steps, |before|, sid))
              || (i == |before| && Inserts(capacity, steps, i, sid, false))
  {
    WaitsSame(capacity, steps, i, sid, |steps| - 1);
  }

  lemma StandsStep(capacity: nat, steps: seq<Step>, i: nat, sid: nat, c: nat)
    requires Possible(capacity, steps) && steps != []
    ensures var before, step := steps[..|steps| - 1], steps[|steps| - 1];
            Stands(capacity, steps, i, sid, c) <==>
              || (Stands(capacity, before, i, sid, c) && step != Delete(before[i].id))
              || (c == |before| && step == Commit(sid) && Waits(capacity, before, i, sid, |before|))
  {
    var before, step := steps[..|steps| - 1], steps[|steps| - 1];
    if c < |steps| { WaitsSame(capacity, steps, i, sid, c); }
    if c < |before| {
      assert forall k | c < k < |before| :: before[k] == steps[k];
      if Stands(capacity, before, i, sid, c) && step != Delete(before[i].id) {
        assert forall k | c < k < |steps| :: steps[k] != Delete(steps[i].id);
      }
    }
  }

  lemma NewestStep(capacity: nat, steps: seq<Step>, sid: nat)
    requires Possible(capacity, steps) && steps != []
    ensures var before, step := steps[..|steps| - 1], steps[|steps| - 1];
            var db := Ran(capacity, before);
            && (forall conflict: bool :: Inserts(capacity, steps, |before|, sid, conflict) <==>
                  step.Insert? && step.sid == sid && HasKey(Visible(db, sid), step.idem) == conflict)
            && (EndsTransaction(capacity, steps, |before|, sid) <==>
                  step == Commit(sid) || step == Rollback(sid)
                  || (step.Insert? && step.sid == sid && HasKey(Visible(db, sid), step.idem)))
  {
  }

  /** What a step does to the uncommitted rows of a session. */
  lemma PendingAfter(capacity: nat, db: Db, step: Step, sid: nat)
    requires Enabled(db, step)
    ensures PendingOf(Apply(capacity, db, step), sid) ==
              if step == Commit(sid) || step == Rollback(sid) then map[]
              else if step.Insert? && step.sid == sid then
                (if HasKey(Visible(db, sid), step.idem) then map[] else PendingOf(db, sid)[step.id := RowOf(step)])
              else PendingOf(db, sid)
  {
  }

  lemma PendingReadsStep(capacity: nat, steps: seq<Step>, sid: nat, id: Id)
    requires Possible(capacity, steps) && steps != [] && PendingReads(capacity, steps[..|steps| - 1], sid, id)
    ensures PendingReads(capacity, steps, sid, id)
  {
    var before, step := steps[..|steps| - 1], steps[|steps| - 1];
    var db := Ran(capacity, before);
    var pending, pending' := PendingOf(db, sid), PendingOf(Ran(capacity, steps), sid);
    NewestStep(capacity, steps, sid);
    PendingAfter(capacity, db, step, sid);
    forall i: nat
      ensures Waits(capacity, steps, i, sid, |steps|) <==>
              (Waits(capacity, before, i, sid, |before|) && !EndsTransaction(capacity, steps, |before|, sid))
              || (i == |before| && Inserts(capacity, steps, i, sid, false))
    {
      WaitsStep(capacity, steps, i, sid);
    }
    if id in pending' {
      if Inserts(capacity, steps, |before|, sid, false) && step.id == id {
        assert Waits(capacity, steps, |before|, sid, |steps|);
      } else {
        var i: nat :| Waits(capacity, before, i, sid, |before|) && before[i].id == id && pending[id] == RowOf(before[i]);
        assert Waits(capacity, steps, i, sid, |steps|) && steps[i] == before[i];
      }
    }
    forall i: nat | Waits(capacity, steps, i, sid, |steps|) && steps[i].id == id
      ensures id in pending' && pending'[id] == RowOf(steps[i])
    {
      if i < |before| {
        assert Waits(capacity, before, i, sid, |before|) && before[i] == steps[i];
        assert id in pending;
        assert !(step.Insert? && step.id == id);
      }
    }
  }

  lemma CommittedAfter(capacity: nat, db: Db, step: Step)
    requires Enabled(db, step)
    ensures Apply(capacity, db, step).committed ==
              if step.Commit? then db.committed + PendingOf(db, step.sid)
              else if step.Delete? then db.committed - {step.id}
              else db.committed
  {
  }

  lemma TableReadsStep(capacity: nat, steps: seq<Step>, id: Id)
    requires Possible(capacity, steps) && steps != [] && TableReads(capacity, steps[..|steps| - 1], id)
    requires PendingAllRead(capacity, steps[..|steps| - 1], id)
    requires Inv(capacity, Ran(capacity, steps[..|steps| - 1]))
    ensures TableReads(capacity, steps, id)
  {
    var before, step := steps[..|steps| - 1], steps[|steps| - 1];
    var db := Ran(capacity, before);
    var t, t' := db.committed, Ran(capacity, steps).committed;
    CommittedAfter(capacity, db, step);
    forall i: nat, sid: nat, c: nat
      ensures Stands(capacity, steps, i, sid, c) <==>
              (Stands(capacity, before, i, sid, c) && step != Delete(before[i].id))
              || (c == |before| && step == Commit(sid) && Waits(capacity, before, i, sid, |before|))
    {
      StandsStep(capacity, steps, i, sid, c);
    }
    if step.Commit? {
      assert PendingReads(capacity, before, step.sid, id);
      PendingIsApart(capacity, db, step.sid, id);
    }
    if id in t' { StillStands(capacity, steps, id); }
    forall i: nat, sid: nat, c: nat | Stands(capacity, steps, i, sid, c) && steps[i].id == id
      ensures id in t' && t'[id] == RowOf(steps[i])
    {
      assert before[i] == steps[i];
    }
  }

  lemma PendingIsApart(capacity: nat, db: Db, sid: nat, id: Id)
    requires Inv(capacity, db)
    ensures id in PendingOf(db, sid) ==> id !in db.committed
  {
    if sid in db.pending { assert RowsOk(db.bound, db.committed, db.pending[sid]); }
  }

  /** A row of the table after a step comes from the table before it, or from the session that commits. */
  lemma StillStands(capacity: nat, steps: seq<Step>, id: Id)
    requires Possible(capacity, steps) && steps != [] && TableReads(capacity, steps[..|steps| - 1], id)
    requires PendingAllRead(capacity, steps[..|steps| - 1], id)
    requires id in Ran(capacity, steps).committed
    ensures exists i: nat, sid: nat, c: nat ::
              Stands(capacity, steps, i, sid, c) && steps[i].id == id && Ran(capacity, steps).committed[id] == RowOf(steps[i])
  {
    var before, step := steps[..|steps| - 1], steps[|steps| - 1];
    var db := Ran(capacity, before);
    CommittedAfter(capacity, db, step);
    if step.Commit? && id in PendingOf(db, step.sid) {
      assert PendingReads(capacity, before, step.sid, id);
      var i: nat :| Waits(capacity, before, i, step.sid, |before|) && before[i].id == id
                    && PendingOf(db, step.sid)[id] == RowOf(before[i]);
      StandsStep(capacity, steps, i, step.sid, |before|);
      assert Stands(capacity, steps, i, step.sid, |before|) && steps[i] == before[i];
    } else {
      var i: nat, sid: nat, c: nat :|
        Stands(capacity, before, i, sid, c) && before[i].id == id && db.committed[id] == RowOf(before[i]);
      StandsStep(capacity, steps, i, sid, c);
      assert Stands(capacity, steps, i, sid, c) && steps[i] == before[i];
    }
  }

  /** For every run of several processes: a command is in the table if and only if some insert of it met
      no row with its key, its transaction committed without rolling back first, and it was not deleted
      since; and then its host and key are those of that insert. */
  lemma {:induction false} TableHoldsWhatWasCommitted(capacity: nat, steps: seq<Step>, id: Id)
    requires Possible(capacity, steps)
    ensures TableReads(capacity, steps, id) && PendingAllRead(capacity, steps, id)
    decreases |steps|
  {
    if steps != [] {
      TableHoldsWhatWasCommitted(capacity, steps[..|steps| - 1], id);
      EveryRunKeeps(capacity, steps[..|steps| - 1]);
      TableReadsStep(capacity, steps, id);
      forall sid: nat
        ensures PendingReads(capacity, steps, sid, id)
      {
        PendingReadsStep(capacity, steps, sid, id);
      }
    }
  }
}
