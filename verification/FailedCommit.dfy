/** When a commit that fails while stamping breaks a unique index: exactly when another transaction
    has taken a key that a stamped row still has as committed. */
module FailedCommit {
  import opened Base
  import opened UniqueIndex
  import opened UniqueKeys
  import M = Mvcc
  import S = Snapshot

  /** Two rows hold `k` at the newest commit timestamp. */
  predicate Twice(ix: Ix, r1: RecordId, r2: RecordId, k: Bytes) {
    r1 != r2 && HoldsNow(ix, r1, k) && HoldsNow(ix, r2, k)
  }

  lemma TwiceIsNotUnique(ix: Ix, r1: RecordId, r2: RecordId, k: Bytes)
    requires Twice(ix, r1, r2, k)
    ensures !RowsUnique(ix)
  {
    assert !UniqueAt(ix, ix.w.db.lastCommitTs);
  }

  // ---------------------------------------------------------------- longer runs

  /** Steps a harmless run may take anywhere. */
  predicate Calm(step: Step) { step.Db? && !step.step.StampFails? }

  /** `all` continues `steps` by calm steps. */
  ghost predicate Continues(start: Ix, steps: seq<Step>, all: seq<Step>) {
    && steps <= all && Run(start, all).Some?
    && forall i :: |steps| <= i < |all| ==> Calm(all[i])
  }

  lemma RunOneMore(start: Ix, steps: seq<Step>, step: Step)
    requires Run(start, steps).Some? && Enabled(Run(start, steps).value, step)
    ensures Run(start, steps + [step]) == Some(Next(Run(start, steps).value, step))
  {
    assert Base.Init(steps + [step]) == steps;
  }

  lemma OneMore(start: Ix, steps: seq<Step>, step: M.Step) returns (all: seq<Step>)
    requires Run(start, steps).Some? && Enabled(Run(start, steps).value, Db(step)) && !step.StampFails?
    ensures all == steps + [Db(step)] && Continues(start, steps, all)
    ensures Run(start, all) == Some(Next(Run(start, steps).value, Db(step)))
  {
    RunOneMore(start, steps, Db(step));
    all := steps + [Db(step)];
  }

  lemma ContinuesOn(start: Ix, a: seq<Step>, b: seq<Step>, c: seq<Step>)
    requires Continues(start, a, b) && Continues(start, b, c)
    ensures Continues(start, a, c)
  {
    forall i | |a| <= i < |c| ensures Calm(c[i]) {
      assert i < |b| ==> c[i] == b[i];
    }
  }

  // ---------------------------------------------------------------- what another commit leaves alone

  /** Committed rows, claims and statements of `u` are as before. */
  ghost predicate Undisturbed(ix: Ix, ix': Ix, u: nat) {
    && SameRows(ix, ix') && ix'.filing == ix.filing && ix'.latch == ix.latch
    && u in ix.w.db.txns && u in ix'.w.db.txns && ix'.w.db.txns[u] == ix.w.db.txns[u]
    && ix'.w.db.slots.Keys == ix.w.db.slots.Keys
    && forall rid :: rid in ix.w.db.slots ==>
         ix'.w.db.slots[rid].data == ix.w.db.slots[rid].data
             && ix'.w.db.slots[rid].deleted == ix.w.db.slots[rid].deleted
  }

  lemma UndisturbedKeeps(ix: Ix, ix': Ix, u: nat, r: RecordId, k: Bytes)
    requires Undisturbed(ix, ix', u)
    ensures Claims(ix', u, r, k) == Claims(ix, u, r, k) && HoldsNow(ix', r, k) == HoldsNow(ix, r, k)
    ensures Wrote(ix'.w.db, u, r) == Wrote(ix.w.db, u, r) && ix'.Busy(u) == ix.Busy(u)
  {
    SameHolds(ix, ix', ix.w.db.lastCommitTs, r, k);
  }

  lemma UndisturbedOn(a: Ix, b: Ix, c: Ix, u: nat)
    requires Undisturbed(a, b, u) && Undisturbed(b, c, u)
    ensures Undisturbed(a, c, u)
  {}

  predicate Restamps(step: M.Step) {
    step.StartCommit? || step.Stamp? || step.StampFails? || step.Unstamp? || step.EndFailedCommit? ||
    step.EndCommit? || step.AbortFails? || step.Resume?
  }

  lemma RestampUndisturbed(ix: Ix, step: M.Step, u: nat)
    requires Enabled(ix, Db(step)) && Restamps(step) && u in ix.w.db.txns
    requires step.EndFailedCommit? ==> ix.w.db.latch.txn != u
    ensures Undisturbed(ix, Next(ix, Db(step)), u)
  {}

  // ---------------------------------------------------------------- the latch comes free

  function ToGo(latch: M.Latch): nat {
    match latch
    case Free => 0
    case Unstamping(_, done) => 1 + |done|
    case _ => 1
  }

  /** A step that brings the commit latch closer to being free. */
  function FreeStep(latch: M.Latch): M.Step
    requires !latch.Free? && !latch.Stamping? && (latch.Unstamping? ==> latch.done == {})
  {
    match latch
    case Unstamping(_, _) => M.EndFailedCommit
    case Published(_) => M.EndCommit
    case Aborting(_) => M.AbortFails
    case Paused => M.Resume
  }

  lemma Frees(ix: Ix, u: nat)
    requires Inv(ix) && ix.w.db.CanWork(u) && !ix.w.db.latch.Free? && !ix.w.db.latch.Stamping?
    requires ix.w.db.latch.Unstamping? ==> ix.w.db.latch.done == {}
    ensures var step := FreeStep(ix.w.db.latch);
            && Enabled(ix, Db(step)) && Undisturbed(ix, Next(ix, Db(step)), u)
            && Next(ix, Db(step)).w.db.latch.Free? && Next(ix, Db(step)).w.db.CanWork(u)
  {
    RestampUndisturbed(ix, FreeStep(ix.w.db.latch), u);
  }

  lemma Unstamps(ix: Ix, u: nat, r: RecordId)
    requires Inv(ix) && ix.w.db.CanWork(u) && ix.w.db.latch.Unstamping? && r in ix.w.db.latch.done
    ensures Enabled(ix, Db(M.Unstamp(r))) && Undisturbed(ix, Next(ix, Db(M.Unstamp(r))), u)
    ensures Next(ix, Db(M.Unstamp(r))).w.db.CanWork(u)
    ensures Next(ix, Db(M.Unstamp(r))).w.db.latch == M.Unstamping(ix.w.db.latch.txn, ix.w.db.latch.done - {r})
  {
    assert S.RecordOk(ix.w, r);
    RestampUndisturbed(ix, M.Unstamp(r), u);
  }

  lemma FreeLatch(start: Ix, steps: seq<Step>, u: nat) returns (all: seq<Step>)
    requires Start(start) && Run(start, steps).Some? && Run(start, steps).value.w.db.CanWork(u)
    requires !Run(start, steps).value.w.db.latch.Stamping?
    ensures Continues(start, steps, all) && Undisturbed(Run(start, steps).value, Run(start, all).value, u)
    ensures Run(start, all).value.w.db.latch.Free? && Run(start, all).value.w.db.CanWork(u)
    decreases ToGo(Run(start, steps).value.w.db.latch)
  {
    var ix := Run(start, steps).value;
    RunInv(start, steps);
    all := steps;
    if !ix.w.db.latch.Free? {
      var step;
      if ix.w.db.latch.Unstamping? && ix.w.db.latch.done != {} {
        var r :| r in ix.w.db.latch.done;
        Unstamps(ix, u, r);
        step := M.Unstamp(r);
      } else {
        Frees(ix, u);
        step := FreeStep(ix.w.db.latch);
      }
      var some := OneMore(start, steps, step);
      all := FreeLatch(start, some, u);
      ContinuesOn(start, steps, some, all);
      UndisturbedOn(ix, Run(start, some).value, Run(start, all).value, u);
    }
  }

  // ---------------------------------------------------------------- a commit goes through

  lemma CanStamp(ix: Ix, r: RecordId)
    requires Inv(ix) && ix.w.db.latch.Stamping? && Wrote(ix.w.db, ix.w.db.latch.txn, r) && r !in ix.w.db.latch.done
    ensures Enabled(ix, Db(M.Stamp(r)))
  {
    assert S.RecordOk(ix.w, r);
    assert S.Writer(ix.w.db, r) == Some(ix.w.db.latch.txn);
  }

  lemma StampAll(start: Ix, steps: seq<Step>) returns (all: seq<Step>)
    requires Start(start) && Run(start, steps).Some?
    requires var db := Run(start, steps).value.w.db;
             db.latch.Stamping? && db.latch.txn in db.txns && db.latch.done <= db.txns[db.latch.txn].writeSet.Keys
    ensures Continues(start, steps, all)
    ensures var ix, ix' := Run(start, steps).value, Run(start, all).value; var u := ix.w.db.latch.txn;
            Undisturbed(ix, ix', u) && ix'.w.db.latch == M.Stamping(u, ix.w.db.txns[u].writeSet.Keys)
    decreases var db := Run(start, steps).value.w.db; db.txns[db.latch.txn].writeSet.Keys - db.latch.done
  {
    var ix := Run(start, steps).value;
    var u, done := ix.w.db.latch.txn, ix.w.db.latch.done;
    var keys := ix.w.db.txns[u].writeSet.Keys;
    RunInv(start, steps);
    all := steps;
    if done != keys {
      var r :| r in keys && r !in done;
      CanStamp(ix, r);
      RestampUndisturbed(ix, M.Stamp(r), u);
      var some := OneMore(start, steps, M.Stamp(r));
      assert r in keys - done && r !in keys - (done + {r});
      all := StampAll(start, some);
      ContinuesOn(start, steps, some, all);
      UndisturbedOn(ix, Run(start, some).value, Run(start, all).value, u);
    }
  }

  /** A running transaction between statements can commit at once, up to the publishing. */
  lemma CommitStamps(start: Ix, steps: seq<Step>, u: nat) returns (all: seq<Step>)
    requires Start(start) && Run(start, steps).Some?
    requires Enabled(Run(start, steps).value, Db(M.StartCommit(u)))
    ensures Continues(start, steps, all) && Undisturbed(Run(start, steps).value, Run(start, all).value, u)
    ensures var db := Run(start, all).value.w.db; db.latch == M.Stamping(u, db.txns[u].writeSet.Keys)
  {
    var ix := Run(start, steps).value;
    RestampUndisturbed(ix, M.StartCommit(u), u);
    var begun := OneMore(start, steps, M.StartCommit(u));
    all := StampAll(start, begun);
    UndisturbedOn(ix, Run(start, begun).value, Run(start, all).value, u);
    ContinuesOn(start, steps, begun, all);
  }

  /** Then the rows hold the keys it claims where it wrote, and what they held elsewhere. */
  lemma PublishedTwice(ix: Ix, r1: RecordId, r2: RecordId, k: Bytes)
    requires Inv(ix) && M.Enabled(ix.w.db, M.Publish)
    requires Claims(ix, ix.w.db.latch.txn, r1, k) && HoldsNow(ix, r2, k) && !Wrote(ix.w.db, ix.w.db.latch.txn, r2)
    ensures Twice(Published(ix), r1, r2, k)
  {
    PublishedRows(ix, ix.w.db.lastCommitTs + 1, r1, k);
    PublishedRows(ix, ix.w.db.lastCommitTs + 1, r2, k);
  }

  lemma CommitsAtOnce(start: Ix, steps: seq<Step>, u: nat, r1: RecordId, r2: RecordId, k: Bytes)
    returns (all: seq<Step>)
    requires Start(start) && Run(start, steps).Some?
    requires var ix := Run(start, steps).value;
             && ix.w.db.latch.Free? && ix.w.db.CanWork(u) && !ix.Busy(u) && ix.w.db.lastCommitTs + 1 < M.TXN_START_ID
             && Claims(ix, u, r1, k) && HoldsNow(ix, r2, k) && !Wrote(ix.w.db, u, r2)
    ensures Continues(start, steps, all) && Twice(Run(start, all).value, r1, r2, k)
  {
    var ix := Run(start, steps).value;
    assert Enabled(ix, Db(M.StartCommit(u))) by { assert r1 in ix.w.db.txns[u].writeSet; }
    var stamped := CommitStamps(start, steps, u);
    var ix2 := Run(start, stamped).value;
    UndisturbedKeeps(ix, ix2, u, r1, k);
    UndisturbedKeeps(ix, ix2, u, r2, k);
    RunInv(start, stamped);
    PublishedTwice(ix2, r1, r2, k);
    all := OneMore(start, stamped, M.Publish);
    ContinuesOn(start, steps, stamped, all);
  }

  /** If a running transaction claims a key that a row it has not written holds as committed, its
      commit goes through and two rows hold the key. */
  lemma ClashBreaks(start: Ix, steps: seq<Step>, u: nat, rid: RecordId, r: RecordId, k: Bytes) returns (all: seq<Step>)
    requires Start(start) && Run(start, steps).Some?
    requires var ix := Run(start, steps).value;
             && !ix.w.db.latch.Stamping? && ix.w.db.CanWork(u) && !ix.Busy(u)
             && ix.w.db.lastCommitTs + 1 < M.TXN_START_ID
             && Claims(ix, u, rid, k) && HoldsNow(ix, r, k) && !Wrote(ix.w.db, u, r)
    ensures Continues(start, steps, all) && Twice(Run(start, all).value, rid, r, k)
  {
    var ix := Run(start, steps).value;
    var free := FreeLatch(start, steps, u);
    UndisturbedKeeps(ix, Run(start, free).value, u, rid, k);
    UndisturbedKeeps(ix, Run(start, free).value, u, r, k);
    all := CommitsAtOnce(start, free, u, rid, r, k);
    ContinuesOn(start, steps, free, all);
  }

  // ---------------------------------------------------------------- when a failure is harmless

  lemma StampedByOther(ix: Ix, u: nat, r: RecordId)
    requires Inv(ix) && ix.w.db.latch.Stamping? && r in ix.w.db.latch.done && u != ix.w.db.latch.txn
             && ix.w.db.IsActive(u)
    ensures !Wrote(ix.w.db, u, r)
  {
    assert S.RecordOk(ix.w, r);
  }

  /** A commit that fails where a transaction between statements claims a key that a stamped row
      still has as committed: the run goes on, by calm steps, to two rows with the key. */
  lemma FailureBreaks(start: Ix, steps: seq<Step>, u: nat, rid: RecordId, r: RecordId, k: Bytes)
    returns (all: seq<Step>)
    requires Start(start) && Run(start, steps).Some?
    requires var ix := Run(start, steps).value;
             && Enabled(ix, Db(M.StampFails)) && r in ix.w.db.latch.done && u != ix.w.db.latch.txn && !ix.Busy(u)
             && rid != r && Claims(ix, u, rid, k) && HoldsNow(ix, r, k) && ix.w.db.lastCommitTs + 1 < M.TXN_START_ID
    ensures Continues(start, steps + [Db(M.StampFails)], all) && Twice(Run(start, all).value, rid, r, k)
  {
    var ix, failed := Run(start, steps).value, steps + [Db(M.StampFails)];
    RunInv(start, steps);
    StampedByOther(ix, u, r);
    RunOneMore(start, steps, Db(M.StampFails));
    RestampUndisturbed(ix, M.StampFails, u);
    UndisturbedKeeps(ix, Run(start, failed).value, u, rid, k);
    UndisturbedKeeps(ix, Run(start, failed).value, u, r, k);
    all := ClashBreaks(start, failed, u, rid, r, k);
  }

  /** Where the row a check is for ends up. */
  function Taken(c: Check, to: RecordId): RecordId { if c.op.File? then c.op.rid else to }

  /** The statement is over, and `r` is nobody's more than before. */
  ghost predicate Finished(ix: Ix, ix': Ix, t: nat, r: RecordId) {
    && SameRows(ix, ix') && ix'.w.db.CanWork(t) && !ix'.Busy(t) && ix'.w.db.latch == ix.w.db.latch
    && Wrote(ix'.w.db, t, r) == Wrote(ix.w.db, t, r)
  }

  lemma InsertClaimed(ix: Ix, t: nat, rid: RecordId, data: Bytes, r: RecordId)
    requires Inv(ix) && ix.w.db.CanWork(t) && ix.w.db.txns[t].state == M.Running && rid !in ix.w.db.slots
             && t !in ix.filing
    requires ix.key(data).Some? && r != rid
    ensures Claims(Done(Inserted(ix, t, rid, data), t), t, rid, ix.key(data).value)
    ensures Finished(ix, Done(Inserted(ix, t, rid, data), t), t, r)
  {
    InsertSpec(ix, t, rid, data);
    InsertFrame(ix.w.db, t, rid, data, t, r);
    InsertOwns(ix.w.db, t, rid, data);
  }

  lemma InsertOwns(db: M.Db, t: nat, rid: RecordId, data: Bytes)
    requires db.CanWork(t) && rid !in db.slots
    ensures Wrote(M.Next(db, M.Insert(t, rid, data)), t, rid)
  {}

  lemma MoveClaimed(ix: Ix, to: RecordId, r: RecordId)
    requires Inv(ix) && Enabled(ix, Finish(to)) && ix.latch.value.op.Move?
    requires ix.w.db.txns[ix.latch.value.txn].state == M.Running && r != to && r != ix.latch.value.op.rid
    ensures Claims(Next(ix, Finish(to)), ix.latch.value.txn, to, ix.latch.value.key)
    ensures Finished(ix, Next(ix, Finish(to)), ix.latch.value.txn, r)
  {
    var c := ix.latch.value;
    var ix1 := Done(ix, c.txn);
    FinishMoves(ix, to);
    MovedAway(ix1, c.txn, c.op.rid, to);
    WriteFrame(ix1.w.db, c.txn, c.op.rid, None, c.txn, r);
    var ix2 := Deleted(ix1, c.txn, c.op.rid);
    InsertClaimed(ix2, c.txn, to, c.op.data, r);
    assert Done(Inserted(ix2, c.txn, to, c.op.data), c.txn) == Next(ix, Finish(to));
  }

  /** What finishing a statement leaves its transaction with. */
  lemma FinishClaims(ix: Ix, to: RecordId, r: RecordId)
    requires Inv(ix) && Enabled(ix, Finish(to)) && ix.w.db.txns[ix.latch.value.txn].state == M.Running
    requires r != to && r !in Own(ix.latch.value.op)
    ensures Claims(Next(ix, Finish(to)), ix.latch.value.txn, Taken(ix.latch.value, to), ix.latch.value.key)
    ensures Finished(ix, Next(ix, Finish(to)), ix.latch.value.txn, r)
  {
    var c := ix.latch.value;
    match c.op
    case File(rid) => assert FilingOk(ix.w.db, c.txn, rid);
    case Insert(data) => InsertClaimed(ix, c.txn, to, data, r);
    case Move(_, _) => MoveClaimed(ix, to, r);
  }

  /** A check that has passed over a row which still has the key as committed, once it is through:
      the run goes on to two rows with the key. */
  lemma FinishBreaks(start: Ix, steps: seq<Step>, to: RecordId, r: RecordId) returns (all: seq<Step>)
    requires Start(start) && Run(start, steps).Some? && Enabled(Run(start, steps).value, Finish(to))
    requires var ix := Run(start, steps).value; var c := ix.latch.value;
             && !ix.w.db.latch.Stamping? && ix.w.db.lastCommitTs + 1 < M.TXN_START_ID
             && ix.w.db.txns[c.txn].state == M.Running && r != to && r !in Own(c.op)
             && HoldsNow(ix, r, c.key) && !Wrote(ix.w.db, c.txn, r)
    ensures Continues(start, steps + [Finish(to)], all)
    ensures var c := Run(start, steps).value.latch.value; Twice(Run(start, all).value, Taken(c, to), r, c.key)
  {
    var ix, c := Run(start, steps).value, Run(start, steps).value.latch.value;
    RunInv(start, steps);
    RunOneMore(start, steps, Finish(to));
    FinishClaims(ix, to, r);
    SameHolds(ix, Next(ix, Finish(to)), ix.w.db.lastCommitTs, r, c.key);
    all := ClashBreaks(start, steps + [Finish(to)], c.txn, Taken(c, to), r, c.key);
  }

  // ---------------------------------------------------------------- exactly when

  /** The steps from the `n`-th on are harmless. */
  ghost predicate HarmlessFrom(start: Ix, n: nat, all: seq<Step>)
    requires Run(start, all).Some?
  {
    |all| <= n ||
    (HarmlessFrom(start, n, Base.Init(all)) && Harmless(Run(start, Base.Init(all)).value, Last(all)))
  }

  lemma {:induction false} CalmIsHarmless(start: Ix, steps: seq<Step>, all: seq<Step>)
    requires Continues(start, steps, all)
    ensures HarmlessFrom(start, |steps|, all)
  {
    if |all| > |steps| {
      assert Calm(all[|all| - 1]);
      CalmIsHarmless(start, steps, Base.Init(all));
    }
  }

  lemma {:induction false} HarmlessJoined(start: Ix, steps: seq<Step>, all: seq<Step>)
    requires steps <= all && Run(start, all).Some? && Run(start, steps).Some? && HarmlessRun(start, steps)
    requires HarmlessFrom(start, |steps|, all)
    ensures HarmlessRun(start, all)
  {
    if |all| > |steps| {
      assert steps <= Base.Init(all);
      HarmlessJoined(start, steps, Base.Init(all));
    } else {
      assert all == steps;
    }
  }

  /** `all` continues a failed commit harmlessly, to two rows with one key. */
  ghost predicate Breaks(start: Ix, steps: seq<Step>, all: seq<Step>) {
    && steps + [Db(M.StampFails)] <= all && Run(start, all).Some?
    && HarmlessFrom(start, |steps| + 1, all) && !RowsUnique(Run(start, all).value)
  }

  lemma HarmlessNeverBreaks(start: Ix, steps: seq<Step>, all: seq<Step>)
    requires KeysStart(start) && Run(start, steps).Some? && HarmlessRun(start, steps)
    requires Enabled(Run(start, steps).value, Db(M.StampFails)) && Harmless(Run(start, steps).value, Db(M.StampFails))
    ensures !Breaks(start, steps, all)
  {
    if Breaks(start, steps, all) {
      var failed := steps + [Db(M.StampFails)];
      RunOneMore(start, steps, Db(M.StampFails));
      assert Base.Init(failed) == steps && Last(failed) == Db(M.StampFails);
      HarmlessJoined(start, failed, all);
      KeysRun(start, all);
    }
  }

  lemma HarmfulBreaks(start: Ix, steps: seq<Step>) returns (all: seq<Step>)
    requires Start(start) && Run(start, steps).Some?
    requires var ix := Run(start, steps).value;
             && ix.filing == map[] && ix.latch.None? && ix.w.db.lastCommitTs + 1 < M.TXN_START_ID
             && Enabled(ix, Db(M.StampFails)) && !Harmless(ix, Db(M.StampFails))
    ensures Breaks(start, steps, all)
  {
    var ix := Run(start, steps).value;
    var r, k :| r in ix.w.db.latch.done && Relies(ix, r, k);
    var u, rid :| u != ix.w.db.latch.txn && rid != r && Claims(ix, u, rid, k);
    all := FailureBreaks(start, steps, u, rid, r, k);
    CalmIsHarmless(start, steps + [Db(M.StampFails)], all);
    TwiceIsNotUnique(Run(start, all).value, rid, r, k);
  }

  /** While no statement is under way, a commit that fails can lead to a key held twice if and only
      if some other transaction claims a key that a row stamped so far still has as committed. */
  lemma FailureHarmlessIff(start: Ix, steps: seq<Step>)
    requires KeysStart(start) && Run(start, steps).Some? && HarmlessRun(start, steps)
    requires var ix := Run(start, steps).value;
             && ix.filing == map[] && ix.latch.None? && ix.w.db.lastCommitTs + 1 < M.TXN_START_ID
             && Enabled(ix, Db(M.StampFails))
    ensures Harmless(Run(start, steps).value, Db(M.StampFails)) <==> forall all :: !Breaks(start, steps, all)
  {
    if Harmless(Run(start, steps).value, Db(M.StampFails)) {
      forall all ensures !Breaks(start, steps, all) { HarmlessNeverBreaks(start, steps, all); }
    } else {
      var all := HarmfulBreaks(start, steps);
    }
  }

  // ---------------------------------------------------------------- a run that breaks uniqueness

  const T := M.TXN_START_ID
  const U := M.TXN_START_ID + 1
  const R1 := RecordId(1, 0)
  const R2 := RecordId(1, 1)
  const R3 := RecordId(1, 2)

  function WholeRow(data: Bytes): Option<Bytes> { if data == [] then None else Some(data) }

  function OneRow(): Ix {
    Ix(S.World(M.Db(map[R1 := Version(0, false, [7])], map[], map[], multiset{}, 0, T, M.Free, {0}),
               S.Spec(map[R1 := S.Row(0, [7])], [], map[]), map[]),
       WholeRow, {([7], R1)}, map[], None)
  }

  /** The part of the state the run below depends on: one row is committed, and it has key 7. */
  ghost predicate At(ix: Ix, slots: map<RecordId, Version>, txns: map<nat, M.Txn>, latch: M.Latch,
                     check: Option<Check>) {
    && ix.w.db.slots == slots && ix.w.db.txns == txns && ix.w.db.lastCommitTs == 0 && ix.w.db.latch == latch
    && ix.w.spec.base == map[R1 := S.Row(0, [7])] && ix.w.spec.history == []
    && ix.key == WholeRow && ix.filing == map[] && ix.latch == check
  }

  function TxnT(writes: map<RecordId, bool>): M.Txn { M.Txn(0, M.Running, None, writes) }

  const WROTE := map[R1 := true, R3 := false]
  const LIVE := Version(0, false, [7])
  const PENDING := Version(T, false, [])
  const STAMPED := Version(1, false, [])

  /** `T` and `U` begin. */
  lemma Begins()
    ensures Enabled(OneRow(), Db(M.Begin)) && Enabled(Next(OneRow(), Db(M.Begin)), Db(M.Begin))
    ensures var ix := Next(Next(OneRow(), Db(M.Begin)), Db(M.Begin));
            && At(ix, map[R1 := LIVE], map[T := TxnT(map[]), U := TxnT(map[])], M.Free, None)
            && Filed(ix.entries, [7]) == {R1}
  {}

  /** `T` sets the row's key to NULL. */
  lemma SetsNull(ix: Ix)
    requires At(ix, map[R1 := LIVE], map[T := TxnT(map[]), U := TxnT(map[])], M.Free, None)
    ensures Enabled(ix, Write(T, R1, Some([]))) && Next(ix, Write(T, R1, Some([]))).entries == ix.entries
    ensures At(Next(ix, Write(T, R1, Some([]))), map[R1 := PENDING],
            map[T := TxnT(map[R1 := true]), U := TxnT(map[])], M.Free, None)
  {}

  /** `T` inserts a row without a key. */
  lemma InsertsNull(ix: Ix)
    requires At(ix, map[R1 := PENDING], map[T := TxnT(map[R1 := true]), U := TxnT(map[])], M.Free, None)
    ensures Enabled(ix, InsertUnchecked(T, R3, [])) && Next(ix, InsertUnchecked(T, R3, [])).entries == ix.entries
    ensures At(Next(ix, InsertUnchecked(T, R3, [])), map[R1 := PENDING, R3 := PENDING],
               map[T := TxnT(WROTE), U := TxnT(map[])], M.Free, None)
  {}

  lemma StartsCommit(ix: Ix)
    requires At(ix, map[R1 := PENDING, R3 := PENDING], map[T := TxnT(WROTE), U := TxnT(map[])], M.Free, None)
    ensures Enabled(ix, Db(M.StartCommit(T))) && Next(ix, Db(M.StartCommit(T))).entries == ix.entries
    ensures At(Next(ix, Db(M.StartCommit(T))), map[R1 := PENDING, R3 := PENDING],
               map[T := TxnT(WROTE), U := TxnT(map[])], M.Stamping(T, {}), None)
  {
    assert R1 in WROTE;
  }

  /** The commit of `T` stamps the row whose key it took away. */
  lemma StampsRow(ix: Ix)
    requires At(ix, map[R1 := PENDING, R3 := PENDING], map[T := TxnT(WROTE), U := TxnT(map[])], M.Stamping(T, {}), None)
    ensures Enabled(ix, Db(M.Stamp(R1))) && Next(ix, Db(M.Stamp(R1))).entries == ix.entries
    ensures At(Next(ix, Db(M.Stamp(R1))), map[R1 := STAMPED, R3 := PENDING],
               map[T := TxnT(WROTE), U := TxnT(map[])], M.Stamping(T, {R1}), None)
  {
    assert map[R1 := PENDING, R3 := PENDING][R1 := STAMPED] == map[R1 := STAMPED, R3 := PENDING];
  }

  /** `U` checks the key before inserting it, and the stamped row passes. */
  lemma ChecksKey(ix: Ix)
    requires At(ix, map[R1 := STAMPED, R3 := PENDING], map[T := TxnT(WROTE), U := TxnT(map[])], M.Stamping(T, {R1}),
             None)
    requires Filed(ix.entries, [7]) == {R1}
    ensures Enabled(ix, BeginCheck(U, Insert([7])))
    ensures At(Next(ix, BeginCheck(U, Insert([7]))), map[R1 := STAMPED, R3 := PENDING],
               map[T := TxnT(WROTE), U := TxnT(map[])], M.Stamping(T, {R1}), Some(Check(U, Insert([7]), [7], {R1})))
  {
    assert {R1} - Own(Insert([7])) == {R1};
  }

  lemma PassesRow(ix: Ix)
    requires At(ix, map[R1 := STAMPED, R3 := PENDING],
                map[T := TxnT(WROTE), U := TxnT(map[])], M.Stamping(T, {R1}), Some(Check(U, Insert([7]), [7], {R1})))
    ensures Enabled(ix, CheckOne(R1))
    ensures At(Next(ix, CheckOne(R1)), map[R1 := STAMPED, R3 := PENDING],
               map[T := TxnT(WROTE), U := TxnT(map[])], M.Stamping(T, {R1}), Some(Check(U, Insert([7]), [7], {})))
  {
    assert {R1} - {R1} == {};
  }

  /** So `U` takes the key, which the row still has as committed. */
  lemma TakesKey(ix: Ix)
    requires At(ix, map[R1 := STAMPED, R3 := PENDING],
                map[T := TxnT(WROTE), U := TxnT(map[])], M.Stamping(T, {R1}), Some(Check(U, Insert([7]), [7], {})))
    ensures Enabled(ix, Finish(R2))
    ensures var ix' := Next(ix, Finish(R2));
            && ix'.w.db.latch == M.Stamping(T, {R1}) && !ix'.Busy(U) && ix'.w.db.lastCommitTs == 0
            && Claims(ix', U, R2, [7]) && HoldsNow(ix', R1, [7]) && Enabled(ix', Db(M.StampFails))
  {
    assert R3 in WROTE.Keys && R3 !in {R1};
  }

  /** Uniqueness does not hold of every run: a check passes over a row that an unpublished commit
      has stamped with a new key, and the failed commit gives the old key back. */
  lemma FailedCommitBreaksUniqueness() returns (steps: seq<Step>)
    ensures KeysStart(OneRow()) && Run(OneRow(), steps).Some?
    ensures Twice(Run(OneRow(), steps).value, R2, R1, [7])
  {
    var start := OneRow();
    steps := TakesAway();
    ChecksKey(Run(start, steps).value);
    RunOneMore(start, steps, BeginCheck(U, Insert([7])));
    steps := steps + [BeginCheck(U, Insert([7]))];
    PassesRow(Run(start, steps).value);
    RunOneMore(start, steps, CheckOne(R1));
    steps := steps + [CheckOne(R1)];
    TakesKey(Run(start, steps).value);
    RunOneMore(start, steps, Finish(R2));
    steps := steps + [Finish(R2)];
    steps := FailureBreaks(start, steps, U, R2, R1, [7]);
  }

  lemma Opened() returns (steps: seq<Step>)
    ensures KeysStart(OneRow()) && Run(OneRow(), steps).Some? && Filed(Run(OneRow(), steps).value.entries, [7]) == {R1}
    ensures At(Run(OneRow(), steps).value, map[R1 := LIVE], map[T := TxnT(map[]), U := TxnT(map[])], M.Free, None)
  {
    var start := OneRow();
    Begins();
    RunOneMore(start, [], Db(M.Begin));
    RunOneMore(start, [] + [Db(M.Begin)], Db(M.Begin));
    steps := [] + [Db(M.Begin)] + [Db(M.Begin)];
  }

  lemma Written(start: Ix, steps: seq<Step>) returns (all: seq<Step>)
    requires Run(start, steps).Some?
    requires At(Run(start, steps).value, map[R1 := LIVE], map[T := TxnT(map[]), U := TxnT(map[])], M.Free, None)
    ensures Run(start, all).Some? && Run(start, all).value.entries == Run(start, steps).value.entries
    ensures At(Run(start, all).value, map[R1 := PENDING, R3 := PENDING], map[T := TxnT(WROTE), U := TxnT(map[])],
            M.Free, None)
  {
    SetsNull(Run(start, steps).value);
    RunOneMore(start, steps, Write(T, R1, Some([])));
    all := steps + [Write(T, R1, Some([]))];
    InsertsNull(Run(start, all).value);
    RunOneMore(start, all, InsertUnchecked(T, R3, []));
    all := all + [InsertUnchecked(T, R3, [])];
  }

  lemma TakesAway() returns (steps: seq<Step>)
    ensures KeysStart(OneRow()) && Run(OneRow(), steps).Some? && Filed(Run(OneRow(), steps).value.entries, [7]) == {R1}
    ensures At(Run(OneRow(), steps).value, map[R1 := STAMPED, R3 := PENDING],
               map[T := TxnT(WROTE), U := TxnT(map[])], M.Stamping(T, {R1}), None)
  {
    var start := OneRow();
    steps := Opened();
    steps := Written(start, steps);
    StartsCommit(Run(start, steps).value);
    RunOneMore(start, steps, Db(M.StartCommit(T)));
    steps := steps + [Db(M.StartCommit(T))];
    StampsRow(Run(start, steps).value);
    RunOneMore(start, steps, Db(M.Stamp(R1)));
    steps := steps + [Db(M.Stamp(R1))];
  }
}
