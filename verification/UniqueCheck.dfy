/** When a unique check refuses a key, and when it must let it through. That keys stay unique says only that
    a check refuses enough; this says that it refuses no more than it should. */
module UniqueCheck {
  import opened Base
  import opened UniqueIndex
  import M = Mvcc
  import S = Snapshot

  /** The newest version of row `r` stands in the way of transaction `t` taking key `k`: another transaction
      is writing it, or has committed it after `t`'s snapshot, and it has the key or may get it back; or
      it is live for `t` and has the key. An entry without a row is an error. */
  predicate InTheWay(ix: Ix, t: nat, k: Bytes, r: RecordId)
    requires t in ix.w.db.txns
  {
    var slots, readTs := ix.w.db.slots, ix.w.db.txns[t].readTs;
    || r !in slots
    || (slots[r].ts != t && slots[r].ts > readTs && (ix.key(slots[r].data) == Some(k) || M.IsTxnId(slots[r].ts)))
    || ((slots[r].ts == t || slots[r].ts <= readTs) && !slots[r].deleted && ix.key(slots[r].data) == Some(k))
  }

  /** In every run, reading one more row ends the statement and taints its transaction exactly when the row is in
      the way, and otherwise only ticks the row off. */
  lemma CheckRefusesIff(start: Ix, steps: seq<Step>, r: RecordId)
    requires Start(start) && Run(start, steps).Some? && Enabled(Run(start, steps).value, CheckOne(r))
    ensures var ix := Run(start, steps).value;
            var c, ix' := ix.latch.value, Next(ix, CheckOne(r));
            if InTheWay(ix, c.txn, c.key, r)
            then ix'.latch == None && ix'.entries == ix.entries && ix'.filing == ix.filing - {c.txn}
                 && ix'.w.db == ix.w.db.(txns := ix.w.db.txns[c.txn := ix.w.db.txns[c.txn].(state := M.Tainted)])
            else ix' == ix.(latch := Some(Check(c.txn, c.op, c.key, c.left - {r})))
  {
    RunInv(start, steps);
  }

  /** An update has to file its row again exactly when it goes through and gives the row another key. */
  lemma WriteFilesIff(ix: Ix, t: nat, rid: RecordId, image: Option<Bytes>)
    requires Enabled(ix, Write(t, rid, image))
    ensures t in Next(ix, Write(t, rid, image)).filing <==>
              && !M.Refused(ix.w.db, t, rid) && image.Some? && ix.key(image.value).Some?
              && ix.key(image.value) != ix.key(ix.w.db.slots[rid].data)
  {}

  /** A check is for the key of the row to be filed, and reads every row filed under it but that row. */
  lemma CheckReads(ix: Ix, t: nat, op: Op)
    requires Enabled(ix, BeginCheck(t, op))
    ensures var c := Next(ix, BeginCheck(t, op)).latch;
            && c.Some? && c.value.txn == t && c.value.op == op
            && Some(c.value.key) == ix.key(if op.File? then ix.w.db.slots[op.rid].data else op.data)
            && forall r :: r in c.value.left <==> (c.value.key, r) in ix.entries && (op.Insert? || r != op.rid)
  {
    var c := Next(ix, BeginCheck(t, op)).latch.value;
    forall r ensures r in c.left <==> (c.key, r) in ix.entries && (op.Insert? || r != op.rid) {
      assert (c.key, r).0 == c.key;
    }
  }

  // ---------------------------------------------------------------- whole checks

  /** Every entry leads to a row. */
  ghost predicate Backed(ix: Ix) { forall e :: e in ix.entries ==> e.1 in ix.w.db.slots }

  lemma StepKeepsSlots(db: M.Db, step: M.Step, r: RecordId)
    requires M.Enabled(db, step) && r in db.slots
    ensures r in M.Next(db, step).slots
  {}

  lemma StepBacked(ix: Ix, step: Step)
    requires Inv(ix) && Backed(ix) && Enabled(ix, step)
    ensures Backed(Next(ix, step))
  {
    var ix' := Next(ix, step);
    forall e | e in ix'.entries ensures e.1 in ix'.w.db.slots {
      if e in ix.entries && step.Db? { StepKeepsSlots(ix.w.db, step.step, e.1); }
    }
  }

  lemma {:induction false} RunBacked(start: Ix, steps: seq<Step>)
    requires Start(start) && Backed(start) && Run(start, steps).Some?
    ensures Backed(Run(start, steps).value)
  {
    if steps != [] {
      RunBacked(start, Base.Init(steps));
      RunInv(start, Base.Init(steps));
      StepBacked(Run(start, Base.Init(steps)).value, Last(steps));
    }
  }

  /** Reading the rows of a check one after the other. */
  predicate OnlyChecks(steps: seq<Step>) { forall i :: 0 <= i < |steps| ==> steps[i].CheckOne? }

  /** Row `r` is in nobody's way: no other active transaction has written it, and `t` does not read the key there. */
  ghost predicate LetsThrough(ix: Ix, t: nat, k: Bytes, r: RecordId)
    requires t in ix.w.db.txns
  {
    && (forall u :: u != t && ix.w.db.IsActive(u) ==> r !in ix.w.db.txns[u].writeSet)
    && !Holds(ix.key, M.Visible(ix.w.db, t, r), k)
  }

  /** A version that is neither committed nor `t`'s own is that of another active transaction. */
  lemma WrittenElsewhere(ix: Ix, t: nat, r: RecordId)
    requires Inv(ix) && r in ix.w.db.slots && ix.w.db.CanWork(t)
    ensures ix.w.db.slots[r].ts != t && ix.w.db.slots[r].ts > ix.w.db.lastCommitTs ==>
            exists u :: u != t && ix.w.db.IsActive(u) && r in ix.w.db.txns[u].writeSet
  {
    var db := ix.w.db;
    assert S.RecordOk(ix.w, r);
    if db.slots[r].ts != t && db.slots[r].ts > db.lastCommitTs {
      var u := S.Writer(db, r).value;
      assert u != t && db.IsActive(u) && r in db.txns[u].writeSet;
    }
  }

  /** At the current snapshot, such a row is not in the way. */
  lemma NotInTheWay(ix: Ix, t: nat, k: Bytes, r: RecordId)
    requires Inv(ix) && r in ix.w.db.slots && ix.w.db.CanWork(t) && ix.w.db.txns[t].readTs == ix.w.db.lastCommitTs
    requires LetsThrough(ix, t, k, r)
    ensures !InTheWay(ix, t, k, r)
  {
    WrittenElsewhere(ix, t, r);
  }

  /** A check at the current snapshot goes through, row by row and in any order, when the transaction reads no
      other row with the key and no other active transaction has written a row filed under it. */
  lemma CheckPasses(start: Ix, steps: seq<Step>, t: nat, op: Op) returns (checks: seq<Step>)
    requires Start(start) && Backed(start) && Run(start, steps).Some?
    requires Enabled(Run(start, steps).value, BeginCheck(t, op))
    requires var ix := Run(start, steps).value;
             && ix.w.db.txns[t].readTs == ix.w.db.lastCommitTs
             && forall r :: (KeyOfOp(ix, op), r) in ix.entries && (op.Insert? || r != op.rid) ==>
                  LetsThrough(ix, t, KeyOfOp(ix, op), r)
    ensures OnlyChecks(checks)
    ensures var ix := Run(start, steps).value;
            Run(start, steps + [BeginCheck(t, op)] + checks)
            == Some(ix.(latch := Some(Check(t, op, KeyOfOp(ix, op), {}))))
  {
    var ix := Run(start, steps).value;
    var k := KeyOfOp(ix, op);
    var left := Filed(ix.entries, k) - Own(op);
    RunInv(start, steps);
    RunBacked(start, steps);
    CheckReads(ix, t, op);
    forall r | r in left ensures !InTheWay(ix, t, k, r) { NotInTheWay(ix, t, k, r); }
    assert Base.Init(steps + [BeginCheck(t, op)]) == steps;
    checks := TickOff(start, steps + [BeginCheck(t, op)], left);
    assert left - left == {};
  }

  /** Then the statement can finish: file its row, or insert or move one to any free slot. */
  lemma PassedFinishes(ix: Ix, t: nat, op: Op, k: Bytes, to: RecordId)
    requires ix.latch == Some(Check(t, op, k, {})) && ix.w.db.CanWork(t)
    ensures Enabled(ix, Finish(to)) <==>
            op.File? || (to !in ix.w.db.slots && (op.Move? ==> !M.Refused(ix.w.db, t, op.rid)))
  {}

  lemma TickOne(start: Ix, steps: seq<Step>, r: RecordId)
    requires Start(start) && Run(start, steps).Some?
    requires var ix := Run(start, steps).value;
             && ix.latch.Some? && r in ix.latch.value.left && ix.w.db.CanWork(ix.latch.value.txn)
             && !InTheWay(ix, ix.latch.value.txn, ix.latch.value.key, r)
    ensures var ix := Run(start, steps).value;
            Run(start, steps + [CheckOne(r)])
            == Some(ix.(latch := Some(ix.latch.value.(left := ix.latch.value.left - {r}))))
  {
    CheckRefusesIff(start, steps, r);
    assert Base.Init(steps + [CheckOne(r)]) == steps;
  }

  lemma {:induction false} TickOff(start: Ix, steps: seq<Step>, todo: set<RecordId>) returns (checks: seq<Step>)
    requires Start(start) && Run(start, steps).Some?
    requires var ix := Run(start, steps).value;
             && ix.latch.Some? && todo <= ix.latch.value.left && ix.w.db.CanWork(ix.latch.value.txn)
             && forall r :: r in todo ==> !InTheWay(ix, ix.latch.value.txn, ix.latch.value.key, r)
    ensures OnlyChecks(checks)
    ensures var ix := Run(start, steps).value;
            Run(start, steps + checks) == Some(ix.(latch := Some(ix.latch.value.(left := ix.latch.value.left - todo))))
    decreases |todo|
  {
    ghost var left := Run(start, steps).value.latch.value.left;
    if todo == {} {
      assert steps + [] == steps && left - todo == left;
      return [];
    }
    var r :| r in todo;
    checks := TickOff(start, steps, todo - {r});
    TickOne(start, steps + checks, r);
    assert steps + checks + [CheckOne(r)] == steps + (checks + [CheckOne(r)]);
    assert left - (todo - {r}) - {r} == left - todo;
    checks := checks + [CheckOne(r)];
  }

  /** And with a row in the way no check goes through: its reads never get past that row. */
  lemma {:induction false} CheckStops(start: Ix, steps: seq<Step>, checks: seq<Step>, r: RecordId)
    requires Start(start) && OnlyChecks(checks) && Run(start, steps).Some? && Run(start, steps + checks).Some?
    requires var ix := Run(start, steps).value;
             && ix.latch.Some? && r in ix.latch.value.left && ix.w.db.CanWork(ix.latch.value.txn)
             && InTheWay(ix, ix.latch.value.txn, ix.latch.value.key, r)
    ensures var ix, ix' := Run(start, steps).value, Run(start, steps + checks).value;
            ix'.latch == None || (ix'.latch.Some? && r in ix'.latch.value.left
                                  && ix' == ix.(latch := Some(ix.latch.value.(left := ix'.latch.value.left))))
  {
    if checks == [] {
      assert steps + checks == steps;
    } else {
      var before := steps + Base.Init(checks);
      assert Base.Init(steps + checks) == before && Last(steps + checks) == Last(checks);
      CheckStops(start, steps, Base.Init(checks), r);
      if Run(start, before).value.latch.Some? { CheckRefusesIff(start, before, Last(checks).rid); }
    }
  }
}
