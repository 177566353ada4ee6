/** Uniqueness of the keys of a unique index: no two rows hold one key at any commit timestamp,
    unless a commit fails while a check is relying on a row it has stamped. */
module UniqueKeys {
  import opened Base
  import opened UniqueIndex
  import M = Mvcc
  import S = Snapshot

  /** Stamped by a commit that is not published yet and has not failed. */
  predicate Stamped(db: M.Db, rid: RecordId) { db.latch.Stamping? && rid in db.latch.done }

  /** Nothing at `r` stands in the way of `t` taking the key `k`. */
  ghost predicate Clear(ix: Ix, t: nat, r: RecordId, k: Bytes) {
    && (HoldsNow(ix, r, k) ==> Wrote(ix.w.db, t, r) || Stamped(ix.w.db, r))
    && (forall u :: !Claims(ix, u, r, k))
  }

  ghost predicate Sole(ix: Ix, t: nat, rid: RecordId, k: Bytes) { forall r :: r != rid ==> Clear(ix, t, r, k) }

  ghost predicate ClaimsSole(ix: Ix) { forall t, rid, k :: Claims(ix, t, rid, k) ==> Sole(ix, t, rid, k) }

  ghost predicate UniqueAt(ix: Ix, s: nat) {
    forall r1, r2, k :: HoldsAt(ix, s, r1, k) && HoldsAt(ix, s, r2, k) ==> r1 == r2
  }

  ghost predicate RowsUnique(ix: Ix) { forall s: nat :: s <= ix.w.db.lastCommitTs ==> UniqueAt(ix, s) }

  /** The entries the check in progress has read and passed over. */
  predicate Passed(ix: Ix, r: RecordId) {
    && ix.latch.Some? && (ix.latch.value.key, r) in ix.entries
    && r !in Own(ix.latch.value.op) && r !in ix.latch.value.left
  }

  ghost predicate PassedClear(ix: Ix) {
    forall r :: Passed(ix, r) ==> Clear(ix, ix.latch.value.txn, r, ix.latch.value.key)
  }

  ghost predicate KeysInv(ix: Ix) { Inv(ix) && ClaimsSole(ix) && RowsUnique(ix) && PassedClear(ix) }

  /** A table just opened, its rows filed and holding each key once. */
  ghost predicate KeysStart(ix: Ix) { Start(ix) && UniqueAt(ix, ix.w.db.lastCommitTs) }

  // ---------------------------------------------------------------- harmless failures

  /** Whether some other transaction has taken, or is about to take, the key `k` of the row at `r`
      because the commit in progress has stamped the row without it. */
  ghost predicate Relies(ix: Ix, r: RecordId, k: Bytes)
    requires ix.w.db.latch.Stamping?
  {
    && HoldsNow(ix, r, k)
    && ((ix.latch.Some? && ix.latch.value.key == k && Passed(ix, r)) ||
        exists u, rid :: u != ix.w.db.latch.txn && rid != r && Claims(ix, u, rid, k))
  }

  /** A commit may fail only where nothing relies on a row it has stamped, and until a row of a
      failed commit has its old stamp back, no check for the key the row still has may read it. */
  ghost predicate Harmless(ix: Ix, step: Step)
    requires Enabled(ix, step)
  {
    match step
    case Db(inner) => inner.StampFails? ==> forall r, k :: r in ix.w.db.latch.done ==> !Relies(ix, r, k)
    case CheckOne(r) => ix.w.db.latch.Unstamping? && r in ix.w.db.latch.done ==> !HoldsNow(ix, r, ix.latch.value.key)
    case _ => true
  }

  ghost predicate HarmlessRun(ix: Ix, steps: seq<Step>)
    requires Run(ix, steps).Some?
  {
    steps == [] ||
    (HarmlessRun(ix, Base.Init(steps)) && Harmless(Run(ix, Base.Init(steps)).value, Last(steps)))
  }

  lemma UnstampingNeedsFailure(db: M.Db, step: M.Step)
    requires M.Enabled(db, step) && step != M.StampFails && M.Next(db, step).latch.Unstamping?
    ensures db.latch.Unstamping?
  {}

  lemma NeverUnstamping(ix: Ix, step: Step)
    requires Enabled(ix, step) && step != Db(M.StampFails) && !ix.w.db.latch.Unstamping?
    ensures !Next(ix, step).w.db.latch.Unstamping?
  {
    if step.Db? && Next(ix, step).w.db.latch.Unstamping? {
      UnstampingNeedsFailure(ix.w.db, step.step);
    }
  }

  /** A run in which no commit fails while stamping is harmless. */
  lemma {:induction false} NoFailureIsHarmless(ix: Ix, steps: seq<Step>)
    requires Start(ix) && Run(ix, steps).Some? && Db(M.StampFails) !in steps
    ensures HarmlessRun(ix, steps) && !Run(ix, steps).value.w.db.latch.Unstamping?
  {
    if steps != [] {
      assert Last(steps) in steps && forall step :: step in Base.Init(steps) ==> step in steps;
      NoFailureIsHarmless(ix, Base.Init(steps));
      NeverUnstamping(Run(ix, Base.Init(steps)).value, Last(steps));
    }
  }

  // ---------------------------------------------------------------- steps that make no claim

  /** No new claims, no new committed rows, and nothing a claim rests on is taken back. */
  ghost predicate Shrinks(ix: Ix, ix': Ix) {
    && SameRows(ix, ix')
    && (forall t, r, k :: Claims(ix', t, r, k) ==> Claims(ix, t, r, k))
    && (forall t, r :: Wrote(ix.w.db, t, r) && Alive(ix'.w.db, t) ==> Wrote(ix'.w.db, t, r))
    && (forall r :: Stamped(ix.w.db, r) ==> Stamped(ix'.w.db, r))
  }

  lemma UniqueStays(ix: Ix, ix': Ix)
    requires SameRows(ix, ix') && RowsUnique(ix)
    ensures RowsUnique(ix')
  {
    forall s: nat | s <= ix'.w.db.lastCommitTs ensures UniqueAt(ix', s) {
      assert UniqueAt(ix, s);
      forall r, k ensures HoldsAt(ix', s, r, k) == HoldsAt(ix, s, r, k) { SameHolds(ix, ix', s, r, k); }
    }
  }

  lemma ClearStays(ix: Ix, ix': Ix, t: nat, r: RecordId, k: Bytes)
    requires Shrinks(ix, ix') && Clear(ix, t, r, k) && Alive(ix'.w.db, t)
    ensures Clear(ix', t, r, k)
  {
    SameHolds(ix, ix', ix.w.db.lastCommitTs, r, k);
  }

  lemma SoleStays(ix: Ix, ix': Ix)
    requires Shrinks(ix, ix') && ClaimsSole(ix)
    ensures ClaimsSole(ix')
  {
    forall t, rid, k | Claims(ix', t, rid, k) ensures Sole(ix', t, rid, k) {
      assert Sole(ix, t, rid, k);
      forall r | r != rid ensures Clear(ix', t, r, k) { ClearStays(ix, ix', t, r, k); }
    }
  }

  /** The check in progress is dropped, or goes on as it was. */
  lemma PassedStays(ix: Ix, ix': Ix)
    requires Shrinks(ix, ix') && PassedClear(ix) && StatementsOk(ix') && ix'.entries == ix.entries
    requires ix'.latch == ix.latch || ix'.latch == None
    ensures PassedClear(ix')
  {
    forall r | Passed(ix', r) ensures Clear(ix', ix'.latch.value.txn, r, ix'.latch.value.key) {
      assert Passed(ix, r) && ix'.Busy(ix'.latch.value.txn);
      ClearStays(ix, ix', ix'.latch.value.txn, r, ix'.latch.value.key);
    }
  }

  lemma ShrinksKeeps(ix: Ix, ix': Ix)
    requires KeysInv(ix) && Inv(ix') && Shrinks(ix, ix') && ix'.entries == ix.entries
    requires ix'.latch == ix.latch || ix'.latch == None
    ensures KeysInv(ix')
  {
    SoleStays(ix, ix');
    UniqueStays(ix, ix');
    PassedStays(ix, ix');
  }

  lemma StampedStays(db: M.Db, step: M.Step, rid: RecordId)
    requires M.Enabled(db, step) && Plain(step) && !step.StampFails? && Stamped(db, rid)
    ensures Stamped(M.Next(db, step), rid)
  {}

  /** A plain step shrinks, a failing commit apart. */
  lemma PlainShrinks(ix: Ix, ix': Ix, step: M.Step)
    requires Inv(ix) && M.Enabled(ix.w.db, step) && Plain(step) && !step.StampFails?
    requires ix'.w == S.WorldNext(ix.w, step) && SameRows(ix, ix')
    requires forall t, r, k :: Claims(ix', t, r, k) ==> Claims(ix, t, r, k)
    ensures Shrinks(ix, ix')
  {
    forall t, r | Wrote(ix.w.db, t, r) && Alive(ix'.w.db, t) ensures Wrote(ix'.w.db, t, r) {
      PlainAlive(ix.w.db, step, t, r);
    }
    forall r | Stamped(ix.w.db, r) ensures Stamped(ix'.w.db, r) { StampedStays(ix.w.db, step, r); }
  }

  lemma KeysPlain(ix: Ix, step: M.Step)
    requires KeysInv(ix) && Enabled(ix, Db(step)) && Plain(step) && !step.StampFails?
    ensures KeysInv(Next(ix, Db(step)))
  {
    var ix' := Next(ix, Db(step));
    PlainKeeps(ix, ix', step);
    PlainShrinks(ix, ix', step);
    ShrinksKeeps(ix, ix');
  }

  lemma KeysFailed(ix: Ix, t: nat)
    requires KeysInv(ix) && ix.w.db.CanWork(t)
    ensures KeysInv(Failed(ix, t))
  {
    StepFailed(ix, t);
    PlainShrinks(ix, Failed(ix, t), M.Fail(t));
    ShrinksKeeps(ix, Failed(ix, t));
  }

  // ---------------------------------------------------------------- a commit that fails

  lemma FailedClear(ix: Ix, u: nat, r: RecordId, k: Bytes)
    requires S.Inv(ix.w) && M.Enabled(ix.w.db, M.StampFails) && Clear(ix, u, r, k)
    requires u != ix.w.db.latch.txn && r in ix.w.db.latch.done ==> !HoldsNow(ix, r, k)
    ensures Clear(ix.(w := S.WorldNext(ix.w, M.StampFails)), u, r, k)
  {
    var ix' := ix.(w := S.WorldNext(ix.w, M.StampFails));
    assert S.RecordOk(ix.w, r);
    assert r in ix.w.db.latch.done ==> Wrote(ix.w.db, ix.w.db.latch.txn, r);
    SameHolds(ix, ix', ix.w.db.lastCommitTs, r, k);
    forall v ensures Claims(ix', v, r, k) == Claims(ix, v, r, k) {}
  }

  lemma KeysStampFails(ix: Ix)
    requires KeysInv(ix) && Enabled(ix, Db(M.StampFails)) && Harmless(ix, Db(M.StampFails))
    ensures KeysInv(Next(ix, Db(M.StampFails)))
  {
    var ix', t := Next(ix, Db(M.StampFails)), ix.w.db.latch.txn;
    PlainKeeps(ix, ix', M.StampFails);
    UniqueStays(ix, ix');
    forall u, rid, k | Claims(ix', u, rid, k) ensures Sole(ix', u, rid, k) {
      assert Claims(ix, u, rid, k) && Sole(ix, u, rid, k);
      forall r | r != rid ensures Clear(ix', u, r, k) {
        assert u != t && r in ix.w.db.latch.done ==> !Relies(ix, r, k);
        FailedClear(ix, u, r, k);
      }
    }
    forall r | Passed(ix', r) ensures Clear(ix', ix'.latch.value.txn, r, ix'.latch.value.key) {
      assert Passed(ix, r) && (r in ix.w.db.latch.done ==> !Relies(ix, r, ix.latch.value.key));
      FailedClear(ix, ix.latch.value.txn, r, ix.latch.value.key);
    }
  }

  // ---------------------------------------------------------------- steps that make a claim

  /** As `Shrinks`, but `t` now claims `k` at `rid`, with nothing in the way. */
  ghost predicate Grows(ix: Ix, ix': Ix, t: nat, rid: RecordId, k: Bytes) {
    && SameRows(ix, ix') && Sole(ix, t, rid, k)
    && (forall u, r, k2 :: Claims(ix', u, r, k2) ==> Claims(ix, u, r, k2) || (u == t && r == rid && k2 == k))
    && (forall u, r :: Wrote(ix.w.db, u, r) && Alive(ix'.w.db, u) ==> Wrote(ix'.w.db, u, r))
    && (forall r :: Stamped(ix.w.db, r) ==> Stamped(ix'.w.db, r))
  }

  lemma ClearGrows(ix: Ix, ix': Ix, t: nat, rid: RecordId, k: Bytes, u: nat, r: RecordId, k2: Bytes)
    requires Grows(ix, ix', t, rid, k) && Clear(ix, u, r, k2) && Alive(ix'.w.db, u) && !(r == rid && k2 == k)
    ensures Clear(ix', u, r, k2)
  {
    SameHolds(ix, ix', ix.w.db.lastCommitTs, r, k2);
  }

  /** Whoever claimed a key before does not claim it elsewhere now. */
  lemma ClaimedBefore(ix: Ix, t: nat, rid: RecordId, k: Bytes, u: nat, r: RecordId, k2: Bytes)
    requires ClaimsSole(ix) && Sole(ix, t, rid, k) && Claims(ix, u, r, k2)
    ensures k2 == k ==> r == rid
  {
    assert r != rid ==> Clear(ix, t, r, k);
  }

  lemma SoleGrows(ix: Ix, ix': Ix, t: nat, rid: RecordId, k: Bytes)
    requires Grows(ix, ix', t, rid, k) && ClaimsSole(ix)
    ensures ClaimsSole(ix')
  {
    forall u, r, k2 | Claims(ix', u, r, k2) ensures Sole(ix', u, r, k2) {
      if Claims(ix, u, r, k2) {
        assert Sole(ix, u, r, k2);
        ClaimedBefore(ix, t, rid, k, u, r, k2);
      }
      forall r2 | r2 != r ensures Clear(ix', u, r2, k2) { ClearGrows(ix, ix', t, rid, k, u, r2, k2); }
    }
  }

  lemma PassedGrows(ix: Ix, ix': Ix, t: nat, rid: RecordId, k: Bytes)
    requires Grows(ix, ix', t, rid, k) && PassedClear(ix) && StatementsOk(ix') && ix'.entries == ix.entries
    requires ix'.latch == ix.latch && (ix.latch.Some? && ix.latch.value.key == k ==> !Passed(ix, rid))
    ensures PassedClear(ix')
  {
    forall r | Passed(ix', r) ensures Clear(ix', ix'.latch.value.txn, r, ix'.latch.value.key) {
      assert Passed(ix, r) && ix'.Busy(ix'.latch.value.txn);
      ClearGrows(ix, ix', t, rid, k, ix'.latch.value.txn, r, ix'.latch.value.key);
    }
  }

  // ---------------------------------------------------------------- overwriting

  lemma ClaimNeedsClear(ix: Ix, t: nat, rid: RecordId, k: Bytes, r: RecordId)
    requires ClaimsSole(ix) && Claims(ix, t, rid, k) && r != rid && HoldsNow(ix, r, k)
    ensures Wrote(ix.w.db, t, r) || Stamped(ix.w.db, r)
  {
    assert Sole(ix, t, rid, k);
    assert Clear(ix, t, r, k);
  }

  /** A transaction that overwrites a committed row and keeps its key has nothing in its way. */
  lemma KeepsKey(ix: Ix, t: nat, rid: RecordId, k: Bytes)
    requires KeysInv(ix) && rid in ix.w.db.slots && ix.w.db.slots[rid].ts <= ix.w.db.lastCommitTs
    requires Holds(ix.key, M.LiveBytes(Some(ix.w.db.slots[rid])), k)
    ensures Sole(ix, t, rid, k)
    ensures ix.latch.Some? && ix.latch.value.key == k ==> !Passed(ix, rid)
  {
    CommittedSlot(ix, rid);
    assert HoldsNow(ix, rid, k) && UniqueAt(ix, ix.w.db.lastCommitTs);
    forall r | r != rid ensures Clear(ix, t, r, k) {
      forall u ensures !Claims(ix, u, r, k) {
        if Claims(ix, u, r, k) {
          ClaimNeedsClear(ix, u, r, k, rid);
        }
      }
    }
    if ix.latch.Some? && ix.latch.value.key == k && Passed(ix, rid) {
      assert Clear(ix, ix.latch.value.txn, rid, k);
      assert ix.Busy(ix.latch.value.txn);
    }
  }

  lemma WriteKept(ix: Ix, t: nat, rid: RecordId, image: Option<Bytes>)
    requires S.ClocksOk(ix.w.db) && Enabled(ix, Write(t, rid, image)) && !M.Refused(ix.w.db, t, rid)
    ensures var ix' := Next(ix, Write(t, rid, image));
            && SameRows(ix, ix') && (forall u, r :: Wrote(ix.w.db, u, r) ==> Wrote(ix'.w.db, u, r))
            && (forall r :: Stamped(ix.w.db, r) ==> Stamped(ix'.w.db, r))
  {
    var ix' := Next(ix, Write(t, rid, image));
    WriteSpec(ix, t, rid, image);
    WriteFrame(ix.w.db, t, rid, image, t, rid);
    forall u, r | Wrote(ix.w.db, u, r) ensures Wrote(ix'.w.db, u, r) { WriteFrame(ix.w.db, t, rid, image, u, r); }
  }

  /** Overwriting a row that holds `k` as committed makes no claim but on `k`. */
  lemma WriteGrows(ix: Ix, t: nat, rid: RecordId, image: Option<Bytes>, k: Bytes)
    requires S.Inv(ix.w) && Enabled(ix, Write(t, rid, image)) && !M.Refused(ix.w.db, t, rid) && Sole(ix, t, rid, k)
    requires ix.key(ix.w.db.slots[rid].data) == Some(k)
    ensures Grows(ix, Next(ix, Write(t, rid, image)), t, rid, k)
  {
    var ix' := Next(ix, Write(t, rid, image));
    WriteKept(ix, t, rid, image);
    forall u, r, k2 | Claims(ix', u, r, k2) ensures Claims(ix, u, r, k2) || (u == t && r == rid && k2 == k) {
      WriteClaims(ix, t, rid, image, u, r, k2);
    }
  }

  lemma WriteShrinks(ix: Ix, t: nat, rid: RecordId, image: Option<Bytes>)
    requires S.Inv(ix.w) && Enabled(ix, Write(t, rid, image)) && !M.Refused(ix.w.db, t, rid)
    requires ix.w.db.slots[rid].ts > ix.w.db.lastCommitTs || ix.key(ix.w.db.slots[rid].data).None?
    ensures Shrinks(ix, Next(ix, Write(t, rid, image)))
  {
    var ix' := Next(ix, Write(t, rid, image));
    WriteKept(ix, t, rid, image);
    forall u, r, k | Claims(ix', u, r, k) ensures Claims(ix, u, r, k) { WriteClaims(ix, t, rid, image, u, r, k); }
  }

  lemma KeysWrite(ix: Ix, t: nat, rid: RecordId, image: Option<Bytes>)
    requires KeysInv(ix) && Enabled(ix, Write(t, rid, image))
    ensures KeysInv(Next(ix, Write(t, rid, image)))
  {
    var ix' := Next(ix, Write(t, rid, image));
    if M.Refused(ix.w.db, t, rid) {
      StepRefused(ix, t, rid, image);
      KeysFailed(ix, t);
    } else {
      StepWrite(ix, t, rid, image);
      WriteSpec(ix, t, rid, image);
      var v := ix.w.db.slots[rid];
      if v.ts <= ix.w.db.lastCommitTs && ix.key(v.data).Some? {
        var k := ix.key(v.data).value;
        KeepsKey(ix, t, rid, k);
        WriteGrows(ix, t, rid, image, k);
        SoleGrows(ix, ix', t, rid, k);
        UniqueStays(ix, ix');
        PassedGrows(ix, ix', t, rid, k);
      } else {
        WriteShrinks(ix, t, rid, image);
        ShrinksKeeps(ix, ix');
      }
    }
  }

  // ---------------------------------------------------------------- inserting

  lemma InsertKept(ix: Ix, t: nat, rid: RecordId, data: Bytes)
    requires S.ClocksOk(ix.w.db) && ix.w.db.CanWork(t) && rid !in ix.w.db.slots
    ensures var ix' := Inserted(ix, t, rid, data);
            && SameRows(ix, ix') && (forall u, r :: Wrote(ix.w.db, u, r) ==> Wrote(ix'.w.db, u, r))
            && (forall r :: Stamped(ix.w.db, r) ==> Stamped(ix'.w.db, r))
  {
    var ix' := Inserted(ix, t, rid, data);
    InsertSpec(ix, t, rid, data);
    InsertFrame(ix.w.db, t, rid, data, t, rid);
    forall u, r | Wrote(ix.w.db, u, r) ensures Wrote(ix'.w.db, u, r) { InsertFrame(ix.w.db, t, rid, data, u, r); }
  }

  /** Inserting a row whose key is NULL, or has been cleared. */
  lemma InsertedSole(ix: Ix, t: nat, rid: RecordId, data: Bytes)
    requires S.Inv(ix.w) && ClaimsSole(ix) && RowsUnique(ix) && ix.w.db.CanWork(t) && rid !in ix.w.db.slots
    requires ix.key(data).Some? && ix.w.db.txns[t].state == M.Running ==> Sole(ix, t, rid, ix.key(data).value)
    ensures ClaimsSole(Inserted(ix, t, rid, data)) && RowsUnique(Inserted(ix, t, rid, data))
  {
    var ix' := Inserted(ix, t, rid, data);
    InsertSpec(ix, t, rid, data);
    InsertKept(ix, t, rid, data);
    InsertFrame(ix.w.db, t, rid, data, t, rid);
    UniqueStays(ix, ix');
    forall u, r, k | Claims(ix', u, r, k) ensures Claims(ix, u, r, k)
        || (u == t && r == rid && ix.key(data) == Some(k)) {
      InsertClaims(ix, t, rid, data, u, r, k);
    }
    if ix.key(data).Some? && ix.w.db.txns[t].state == M.Running {
      SoleGrows(ix, ix', t, rid, ix.key(data).value);
    } else {
      SoleStays(ix, ix');
    }
  }

  /** A free index latch has passed nothing. */
  lemma NothingPassed(ix: Ix)
    requires ix.latch.None?
    ensures PassedClear(ix)
  {}

  lemma KeysInsertUnchecked(ix: Ix, t: nat, rid: RecordId, data: Bytes)
    requires KeysInv(ix) && Enabled(ix, InsertUnchecked(t, rid, data))
    ensures KeysInv(Inserted(ix, t, rid, data))
  {
    StepInserted(ix, t, rid, data);
    InsertedSole(ix, t, rid, data);
    InsertSpec(ix, t, rid, data);
    NothingPassed(Inserted(ix, t, rid, data));
  }

  // ---------------------------------------------------------------- checking and filing

  /** An entry that passes is in nobody's way. */
  lemma PassClears(ix: Ix, t: nat, k: Bytes, r: RecordId)
    requires S.Inv(ix.w) && ix.w.db.CanWork(t) && Passes(ix, t, k, r)
    requires ix.w.db.latch.Unstamping? && r in ix.w.db.latch.done ==> !HoldsNow(ix, r, k)
    ensures Clear(ix, t, r, k)
  {
    assert S.RecordOk(ix.w, r);
    if ix.w.db.slots[r].ts <= ix.w.db.lastCommitTs {
      CommittedSlot(ix, r);
    } else if ix.w.db.slots[r].ts == t {
      assert S.Writer(ix.w.db, r) == Some(t);
    }
  }

  /** Reading an entry changes what the check has left, and nothing else. */
  lemma NoNewClaims(ix: Ix, ix': Ix)
    requires ix'.w == ix.w && ix'.key == ix.key && ix'.entries == ix.entries && ix'.filing == ix.filing
    ensures Shrinks(ix, ix')
  {
    forall t, r, k ensures Claims(ix', t, r, k) == Claims(ix, t, r, k) {}
  }

  lemma KeysBeginCheck(ix: Ix, t: nat, op: Op)
    requires KeysInv(ix) && Enabled(ix, BeginCheck(t, op))
    ensures KeysInv(Next(ix, BeginCheck(t, op)))
  {
    var ix' := Next(ix, BeginCheck(t, op));
    StepBeginCheck(ix, t, op);
    NoNewClaims(ix, ix');
    SoleStays(ix, ix');
    UniqueStays(ix, ix');
    forall r ensures !Passed(ix', r) {
      if (ix'.latch.value.key, r) in ix.entries { assert r in Filed(ix.entries, ix'.latch.value.key); }
    }
  }

  lemma KeysCheckOne(ix: Ix, r: RecordId)
    requires KeysInv(ix) && Enabled(ix, CheckOne(r)) && Harmless(ix, CheckOne(r))
    ensures KeysInv(Next(ix, CheckOne(r)))
  {
    var ix', c := Next(ix, CheckOne(r)), ix.latch.value;
    if Passes(ix, c.txn, c.key, r) {
      StepCheckOne(ix, r);
      NoNewClaims(ix, ix');
      SoleStays(ix, ix');
      UniqueStays(ix, ix');
      PassClears(ix, c.txn, c.key, r);
      forall r2 | Passed(ix', r2) ensures Clear(ix', c.txn, r2, c.key) {
        assert r2 == r || Passed(ix, r2);
        ClearStays(ix, ix', c.txn, r2, c.key);
      }
    } else {
      KeysFailed(ix, c.txn);
    }
  }

  /** Once every entry has been read, only the holder's own record is not cleared. */
  lemma AllCleared(ix: Ix, r: RecordId)
    requires KeysInv(ix) && ix.latch.Some? && ix.latch.value.left == {} && r !in Own(ix.latch.value.op)
    ensures Clear(ix, ix.latch.value.txn, r, ix.latch.value.key)
  {
    assert FiledAt(ix, ix.w.db.lastCommitTs);
    if (ix.latch.value.key, r) in ix.entries {
      assert Passed(ix, r);
    }
  }

  lemma KeysFinishFile(ix: Ix, to: RecordId)
    requires KeysInv(ix) && Enabled(ix, Finish(to)) && ix.latch.value.op.File?
    ensures KeysInv(Next(ix, Finish(to)))
  {
    var ix', c := Next(ix, Finish(to)), ix.latch.value;
    StepFinishFile(ix, to);
    forall r | r != c.op.rid ensures Clear(ix, c.txn, r, c.key) { AllCleared(ix, r); }
    forall u, r, k | Claims(ix', u, r, k) ensures Claims(ix, u, r, k) || (u == c.txn && r == c.op.rid && k == c.key) {
      FileClaims(ix, to, u, r, k);
    }
    assert Grows(ix, ix', c.txn, c.op.rid, c.key);
    SoleGrows(ix, ix', c.txn, c.op.rid, c.key);
    UniqueStays(ix, ix');
    NothingPassed(ix');
  }

  lemma DoneSole(ix: Ix, t: nat)
    requires ClaimsSole(ix) && RowsUnique(ix) && t !in ix.filing
    ensures ClaimsSole(Done(ix, t)) && RowsUnique(Done(ix, t)) && Shrinks(ix, Done(ix, t))
  {
    assert ix.filing - {t} == ix.filing;
    NoNewClaims(ix, Done(ix, t));
    SoleStays(ix, Done(ix, t));
    UniqueStays(ix, Done(ix, t));
  }

  lemma KeysFinishInsert(ix: Ix, to: RecordId)
    requires KeysInv(ix) && Enabled(ix, Finish(to)) && ix.latch.value.op.Insert?
    ensures KeysInv(Next(ix, Finish(to)))
  {
    var c := ix.latch.value;
    forall r | r != to ensures Clear(ix, c.txn, r, c.key) { AllCleared(ix, r); }
    InsertedSole(ix, c.txn, to, c.op.data);
    InsertSpec(ix, c.txn, to, c.op.data);
    DoneSole(Inserted(ix, c.txn, to, c.op.data), c.txn);
    StepFinishInsert(ix, to);
    NothingPassed(Next(ix, Finish(to)));
  }

  // ---------------------------------------------------------------- moving

  lemma DeletedClaims(ix: Ix, t: nat, rid: RecordId, u: nat, r: RecordId, k: Bytes)
    requires S.Inv(ix.w) && Enabled(ix, Write(t, rid, None)) && !M.Refused(ix.w.db, t, rid)
    requires Claims(Next(ix, Write(t, rid, None)), u, r, k)
    ensures r != rid && Claims(ix, u, r, k)
  {
    WriteSpec(ix, t, rid, None);
    WriteFrame(ix.w.db, t, rid, None, u, rid);
    WriteClaims(ix, t, rid, None, u, r, k);
  }

  lemma DeleteShrinks(ix: Ix, t: nat, rid: RecordId)
    requires S.Inv(ix.w) && Enabled(ix, Write(t, rid, None)) && !M.Refused(ix.w.db, t, rid)
    ensures Shrinks(ix, Next(ix, Write(t, rid, None))) && Wrote(Next(ix, Write(t, rid, None)).w.db, t, rid)
    ensures forall u, k :: !Claims(Next(ix, Write(t, rid, None)), u, rid, k)
  {
    var ix' := Next(ix, Write(t, rid, None));
    WriteKept(ix, t, rid, None);
    WriteFrame(ix.w.db, t, rid, None, t, rid);
    forall u, r, k | Claims(ix', u, r, k) ensures r != rid && Claims(ix, u, r, k) {
      DeletedClaims(ix, t, rid, u, r, k);
    }
  }

  lemma DeletedSole(ix: Ix, t: nat, rid: RecordId, to: RecordId, k: Bytes)
    requires S.Inv(ix.w) && Enabled(ix, Write(t, rid, None)) && !M.Refused(ix.w.db, t, rid) && Sole(ix, t, rid, k)
    ensures Sole(Next(ix, Write(t, rid, None)), t, to, k)
  {
    var ix1 := Next(ix, Write(t, rid, None));
    DeleteShrinks(ix, t, rid);
    WriteFrame(ix.w.db, t, rid, None, t, rid);
    forall r | r != to ensures Clear(ix1, t, r, k) {
      if r != rid { ClearStays(ix, ix1, t, r, k); }
    }
  }

  lemma KeysMove(ix: Ix, t: nat, rid: RecordId, to: RecordId, data: Bytes)
    requires KeysInv(ix) && ix.latch.None? && Enabled(ix, Write(t, rid, None)) && !M.Refused(ix.w.db, t, rid)
    requires to !in ix.w.db.slots
    requires ix.key(data).Some? && ix.w.db.txns[t].state == M.Running ==> Sole(ix, t, rid, ix.key(data).value)
    ensures Deleted(ix, t, rid).w.db.CanWork(t) && to !in Deleted(ix, t, rid).w.db.slots
    ensures KeysInv(Inserted(Deleted(ix, t, rid), t, to, data))
  {
    var ix1 := Deleted(ix, t, rid);
    MovedAway(ix, t, rid, to);
    KeysWrite(ix, t, rid, None);
    if ix.key(data).Some? && ix.w.db.txns[t].state == M.Running {
      DeletedSole(ix, t, rid, to, ix.key(data).value);
    }
    StepInserted(ix1, t, to, data);
    InsertedSole(ix1, t, to, data);
    InsertSpec(ix1, t, to, data);
    NothingPassed(Inserted(ix1, t, to, data));
  }

  lemma KeysMoveUnchecked(ix: Ix, t: nat, rid: RecordId, to: RecordId, data: Bytes)
    requires KeysInv(ix) && Enabled(ix, MoveUnchecked(t, rid, to, data))
    ensures KeysInv(Next(ix, MoveUnchecked(t, rid, to, data)))
  {
    if ix.key(data).Some? && ix.w.db.txns[t].state == M.Running {
      OverwritesSeen(ix.w, t, rid);
      var k := ix.key(data).value;
      if ix.w.db.slots[rid].ts == t {
        assert Claims(ix, t, rid, k);
      } else {
        KeepsKey(ix, t, rid, k);
      }
    }
    KeysMove(ix, t, rid, to, data);
  }

  lemma KeysFinishMove(ix: Ix, to: RecordId)
    requires KeysInv(ix) && Enabled(ix, Finish(to)) && ix.latch.value.op.Move?
    ensures KeysInv(Next(ix, Finish(to)))
  {
    var c := ix.latch.value;
    var ix1 := Done(ix, c.txn);
    FinishMoves(ix, to);
    DoneSole(ix, c.txn);
    NothingPassed(ix1);
    forall r | r != c.op.rid ensures Clear(ix1, c.txn, r, c.key) {
      AllCleared(ix, r);
      ClearStays(ix, ix1, c.txn, r, c.key);
    }
    KeysMove(ix1, c.txn, c.op.rid, to, c.op.data);
  }

  lemma KeysFinish(ix: Ix, to: RecordId)
    requires KeysInv(ix) && Enabled(ix, Finish(to))
    ensures KeysInv(Next(ix, Finish(to)))
  {
    match ix.latch.value.op
    case File(_) => KeysFinishFile(ix, to);
    case Insert(_) => KeysFinishInsert(ix, to);
    case Move(_, _) => KeysFinishMove(ix, to);
  }

  // ---------------------------------------------------------------- publishing

  lemma PublishClear(ix: Ix, u: nat, r: RecordId, k: Bytes)
    requires Inv(ix) && M.Enabled(ix.w.db, M.Publish) && Clear(ix, u, r, k) && u != ix.w.db.latch.txn
    ensures Clear(Published(ix), u, r, k)
  {
    var ix' := Published(ix);
    PublishedRows(ix, ix.w.db.lastCommitTs + 1, r, k);
    PublishKeeps(ix.w.db);
    assert S.RecordOk(ix.w, r);
    forall v | Claims(ix', v, r, k) ensures Claims(ix, v, r, k) { PublishClaims(ix, v, r, k); }
  }

  lemma OnlyClaim(ix: Ix, rid: RecordId, r: RecordId, k: Bytes)
    requires S.Inv(ix.w) && M.Enabled(ix.w.db, M.Publish) && ClaimsSole(ix) && Claims(ix, ix.w.db.latch.txn, rid, k)
    requires var t := ix.w.db.latch.txn; if Wrote(ix.w.db, t, r) then Claims(ix, t, r, k) else HoldsNow(ix, r, k)
    ensures r == rid
  {
    assert Sole(ix, ix.w.db.latch.txn, rid, k);
    assert S.RecordOk(ix.w, r);
    assert r != rid ==> Clear(ix, ix.w.db.latch.txn, r, k);
  }

  /** Of two rows that hold a key at the new commit timestamp, each is either claimed by the commit
      or was there before. */
  lemma PublishUnique(ix: Ix, r1: RecordId, r2: RecordId, k: Bytes)
    requires S.Inv(ix.w) && M.Enabled(ix.w.db, M.Publish) && ClaimsSole(ix) && UniqueAt(ix, ix.w.db.lastCommitTs)
    requires var t := ix.w.db.latch.txn; if Wrote(ix.w.db, t, r1) then Claims(ix, t, r1, k) else HoldsNow(ix, r1, k)
    requires var t := ix.w.db.latch.txn; if Wrote(ix.w.db, t, r2) then Claims(ix, t, r2, k) else HoldsNow(ix, r2, k)
    ensures r1 == r2
  {
    if Wrote(ix.w.db, ix.w.db.latch.txn, r1) {
      OnlyClaim(ix, r1, r2, k);
    } else if Wrote(ix.w.db, ix.w.db.latch.txn, r2) {
      OnlyClaim(ix, r2, r1, k);
    }
  }

  lemma PublishRows(ix: Ix, s: nat)
    requires KeysInv(ix) && M.Enabled(ix.w.db, M.Publish) && s <= ix.w.db.lastCommitTs + 1
    ensures UniqueAt(Published(ix), s)
  {
    var ix', last := Published(ix), ix.w.db.lastCommitTs;
    assert UniqueAt(ix, last) && (s <= last ==> UniqueAt(ix, s));
    forall r1, r2, k | HoldsAt(ix', s, r1, k) && HoldsAt(ix', s, r2, k) ensures r1 == r2 {
      PublishedRows(ix, s, r1, k);
      PublishedRows(ix, s, r2, k);
      if s > last { PublishUnique(ix, r1, r2, k); }
    }
  }

  lemma KeysPublish(ix: Ix)
    requires KeysInv(ix) && Enabled(ix, Db(M.Publish))
    ensures KeysInv(Next(ix, Db(M.Publish)))
  {
    var ix' := Published(ix);
    StepPublish(ix);
    forall s: nat | s <= ix'.w.db.lastCommitTs ensures UniqueAt(ix', s) { PublishRows(ix, s); }
    forall u, rid, k | Claims(ix', u, rid, k) ensures Sole(ix', u, rid, k) {
      PublishClaims(ix, u, rid, k);
      assert Sole(ix, u, rid, k);
      forall r | r != rid ensures Clear(ix', u, r, k) { PublishClear(ix, u, r, k); }
    }
    forall r | Passed(ix', r) ensures Clear(ix', ix'.latch.value.txn, r, ix'.latch.value.key) {
      assert Passed(ix, r) && ix.Busy(ix.latch.value.txn);
      PublishClear(ix, ix.latch.value.txn, r, ix.latch.value.key);
    }
  }

  // ---------------------------------------------------------------- every run

  lemma KeysStep(ix: Ix, step: Step)
    requires KeysInv(ix) && Enabled(ix, step) && Harmless(ix, step)
    ensures KeysInv(Next(ix, step))
  {
    match step
    case Db(inner) =>
      if inner.Publish? {
        KeysPublish(ix);
      } else if inner.StampFails? {
        KeysStampFails(ix);
      } else {
        KeysPlain(ix, inner);
      }
    case Write(t, rid, image) => KeysWrite(ix, t, rid, image);
    case InsertUnchecked(t, rid, data) => KeysInsertUnchecked(ix, t, rid, data);
    case MoveUnchecked(t, rid, to, data) => KeysMoveUnchecked(ix, t, rid, to, data);
    case BeginCheck(t, op) => KeysBeginCheck(ix, t, op);
    case CheckOne(r) => KeysCheckOne(ix, r);
    case Finish(to) => KeysFinish(ix, to);
    case GiveUp(t) => KeysFailed(ix, t);
  }

  lemma KeysStartInv(ix: Ix)
    requires KeysStart(ix)
    ensures KeysInv(ix)
  {
    StartInv(ix);
    forall s: nat, rid, k ensures HoldsAt(ix, s, rid, k) == HoldsNow(ix, rid, k) {}
    forall s: nat | s <= ix.w.db.lastCommitTs ensures UniqueAt(ix, s) {}
  }

  lemma {:induction false} KeysRun(ix: Ix, steps: seq<Step>)
    requires KeysStart(ix) && Run(ix, steps).Some? && HarmlessRun(ix, steps)
    ensures KeysInv(Run(ix, steps).value)
  {
    if steps == [] {
      KeysStartInv(ix);
    } else {
      KeysRun(ix, Base.Init(steps));
      KeysStep(Run(ix, Base.Init(steps)).value, Last(steps));
    }
  }

  /** In every harmless run, no two rows hold the same key at any commit timestamp. */
  lemma KeysAreUnique(ix: Ix, steps: seq<Step>, s: nat, r1: RecordId, r2: RecordId, k: Bytes)
    requires KeysStart(ix) && Run(ix, steps).Some? && HarmlessRun(ix, steps)
    requires var ix' := Run(ix, steps).value;
             s <= ix'.w.db.lastCommitTs && HoldsAt(ix', s, r1, k) && HoldsAt(ix', s, r2, k)
    ensures r1 == r2
  {
    KeysRun(ix, steps);
    assert UniqueAt(Run(ix, steps).value, s);
  }
}
