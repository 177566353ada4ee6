/** A unique index over the rows of a table. Entries are filed under a key and never removed, an
    update overwrites the row before it takes the index's latch, and a check reads the rows behind
    a key one by one while other transactions go on writing, committing and aborting. */
module UniqueIndex {
  import opened Base
  import M = Mvcc
  import S = Snapshot

  /** The key of a row, `None` when a key column is NULL. */
  type KeyOf = Bytes -> Option<Bytes>

  /** What a statement does once its check passes: file the row it has overwritten under its new key,
      insert a new row, or move a row to another slot. */
  datatype Op = File(rid: RecordId) | Insert(data: Bytes) | Move(rid: RecordId, data: Bytes)

  /** A check in progress: the entries under `key` still to be read are `left`. */
  datatype Check = Check(txn: nat, op: Op, key: Bytes, left: set<RecordId>)

  /** `filing` are the transactions that have overwritten a row and not yet filed its new key. */
  datatype Ix = Ix(w: S.World, key: KeyOf, entries: set<(Bytes, RecordId)>, filing: map<nat, RecordId>,
      latch: Option<Check>)
  {
    /** In the middle of a statement of its own. */
    predicate Busy(t: nat) { t in filing || (latch.Some? && latch.value.txn == t) }
  }

  datatype Step =
    | Db(step: M.Step)
    | Write(txn: nat, rid: RecordId, image: Option<Bytes>)
    | InsertUnchecked(txn: nat, rid: RecordId, data: Bytes)
    | MoveUnchecked(txn: nat, rid: RecordId, to: RecordId, data: Bytes)
    | BeginCheck(txn: nat, op: Op)
    | CheckOne(rid: RecordId)
    | Finish(to: RecordId)
    | GiveUp(txn: nat)

  function Filed(entries: set<(Bytes, RecordId)>, k: Bytes): set<RecordId> { set e | e in entries && e.0 == k :: e.1 }

  predicate Holds(key: KeyOf, data: Option<Bytes>, k: Bytes) { data.Some? && key(data.value) == Some(k) }

  /** Whether the entry at `r` lets transaction `t` take the key. */
  predicate Passes(ix: Ix, t: nat, k: Bytes, r: RecordId) {
    var db := ix.w.db;
    r in db.slots && t in db.txns &&
    var v := db.slots[r];
    var holdsKey := ix.key(v.data) == Some(k);
    var pendingElsewhere := M.IsTxnId(v.ts) && v.ts != t;
    if !holdsKey && !pendingElsewhere then true
    else !M.WriteConflict(t, db.txns[t].readTs, v.ts) && (v.deleted || !holdsKey)
  }

  /** The transaction whose own thread takes `step`. */
  function Actor(step: M.Step): Option<nat> {
    match step
    case Fail(t) => Some(t)
    case CommitReadOnly(t) => Some(t)
    case StartCommit(t) => Some(t)
    case StartAbort(t) => Some(t)
    case _ => None
  }

  predicate KeyKept(ix: Ix, rid: RecordId, data: Bytes) {
    ix.key(data) == None || (rid in ix.w.db.slots && ix.key(data) == ix.key(ix.w.db.slots[rid].data))
  }

  predicate Enabled(ix: Ix, step: Step) {
    var db := ix.w.db;
    match step
    case Db(inner) => M.Enabled(db, inner) && !inner.Insert? && !inner.Write? && !(Actor(inner).Some?
        && ix.Busy(Actor(inner).value))
    case Write(t, rid, _) => db.CanWork(t) && !ix.Busy(t)
    case InsertUnchecked(t, rid, data) =>
        db.CanWork(t) && !ix.Busy(t) && ix.latch.None? && rid !in db.slots && ix.key(data) == None
    case MoveUnchecked(t, rid, to, data) =>
      db.CanWork(t) && !ix.Busy(t) && ix.latch.None? && !M.Refused(db, t, rid) && to !in db.slots
          && KeyKept(ix, rid, data)
    case BeginCheck(t, op) =>
      db.CanWork(t) && ix.latch.None? &&
      (match op
       case File(rid) => Find(ix.filing, t) == Some(rid) && rid in db.slots && ix.key(db.slots[rid].data).Some?
       case Insert(data) => t !in ix.filing && ix.key(data).Some?
       case Move(rid, data) => t !in ix.filing && ix.key(data).Some?)
    case CheckOne(r) => ix.latch.Some? && r in ix.latch.value.left && db.CanWork(ix.latch.value.txn)
    case Finish(to) =>
      ix.latch.Some? && ix.latch.value.left == {} && db.CanWork(ix.latch.value.txn) &&
      (match ix.latch.value.op
       case File(_) => true
       case Insert(_) => to !in db.slots
       case Move(rid, _) => to !in db.slots && !M.Refused(db, ix.latch.value.txn, rid))
    case GiveUp(t) => ix.Busy(t) && db.CanWork(t)
  }

  function KeyOfOp(ix: Ix, op: Op): (k: Bytes)
    requires match op
             case File(rid) => rid in ix.w.db.slots && ix.key(ix.w.db.slots[rid].data).Some?
             case Insert(data) => ix.key(data).Some?
             case Move(_, data) => ix.key(data).Some?
  {
    match op
    case File(rid) => ix.key(ix.w.db.slots[rid].data).value
    case Insert(data) => ix.key(data).value
    case Move(_, data) => ix.key(data).value
  }

  function Own(op: Op): set<RecordId> { if op.Insert? then {} else {op.rid} }

  function Done(ix: Ix, t: nat): Ix {
    ix.(filing := ix.filing - {t}, latch := if ix.latch.Some? && ix.latch.value.txn == t then None else ix.latch)
  }

  function AddEntry(ix: Ix, data: Bytes, rid: RecordId): Ix {
    if ix.key(data).Some? then ix.(entries := ix.entries + {(ix.key(data).value, rid)}) else ix
  }

  function Inserted(ix: Ix, t: nat, rid: RecordId, data: Bytes): Ix
    requires ix.w.db.CanWork(t) && rid !in ix.w.db.slots
  {
    AddEntry(ix.(w := S.WorldNext(ix.w, M.Insert(t, rid, data))), data, rid)
  }

  function Deleted(ix: Ix, t: nat, rid: RecordId): Ix
    requires ix.w.db.CanWork(t)
  {
    ix.(w := S.WorldNext(ix.w, M.Write(t, rid, None)))
  }

  predicate NewKey(ix: Ix, t: nat, rid: RecordId, image: Option<Bytes>)
    requires t in ix.w.db.txns
  {
    !M.Refused(ix.w.db, t, rid) && image.Some? && !KeyKept(ix, rid, image.value)
  }

  function Failed(ix: Ix, t: nat): Ix
    requires ix.w.db.CanWork(t)
  {
    Done(ix.(w := S.WorldNext(ix.w, M.Fail(t))), t)
  }

  function Next(ix: Ix, step: Step): Ix
    requires Enabled(ix, step)
  {
    match step
    case Db(inner) => ix.(w := S.WorldNext(ix.w, inner))
    case Write(t, rid, image) =>
      ix.(w := S.WorldNext(ix.w, M.Write(t, rid, image)), filing := if NewKey(ix, t, rid, image)
          then ix.filing[t := rid] else ix.filing)
    case InsertUnchecked(t, rid, data) => Inserted(ix, t, rid, data)
    case MoveUnchecked(t, rid, to, data) => Inserted(Deleted(ix, t, rid), t, to, data)
    case BeginCheck(t, op) =>
        ix.(latch := Some(Check(t, op, KeyOfOp(ix, op), Filed(ix.entries, KeyOfOp(ix, op)) - Own(op))))
    case CheckOne(r) =>
      var c := ix.latch.value;
      if Passes(ix, c.txn, c.key, r) then ix.(latch := Some(Check(c.txn, c.op, c.key, c.left - {r})))
          else Failed(ix, c.txn)
    case Finish(to) =>
      var c := ix.latch.value;
      (match c.op
       case File(rid) => Done(ix.(entries := ix.entries + {(c.key, rid)}), c.txn)
       case Insert(data) => Done(Inserted(ix, c.txn, to, data), c.txn)
       case Move(rid, data) => Done(Inserted(Deleted(ix, c.txn, rid), c.txn, to, data), c.txn))
    case GiveUp(t) => Failed(ix, t)
  }

  function Run(ix: Ix, steps: seq<Step>): Option<Ix> {
    if steps == [] then Some(ix)
    else
      var before := Run(ix, Base.Init(steps));
      if before.Some? && Enabled(before.value, Last(steps)) then Some(Next(before.value, Last(steps))) else None
  }

  // ---------------------------------------------------------------- the invariant

  /** Whether the row at `rid` holds key `k` in the snapshot at `s`. */
  predicate HoldsAt(ix: Ix, s: nat, rid: RecordId, k: Bytes) {
    Holds(ix.key, S.RowData(S.SnapshotAt(ix.w.spec.base, ix.w.spec.history, s, rid)), k)
  }

  predicate HoldsNow(ix: Ix, rid: RecordId, k: Bytes) { HoldsAt(ix, ix.w.db.lastCommitTs, rid, k) }

  /** A transaction that may still commit has given `rid` the key `k`, and is done filing it. */
  predicate Claims(ix: Ix, t: nat, rid: RecordId, k: Bytes) {
    && t in ix.w.db.txns && ix.w.db.txns[t].state == M.Running && rid in ix.w.db.txns[t].writeSet
    && Find(ix.filing, t) != Some(rid) && rid in ix.w.db.slots
    && Holds(ix.key, M.LiveBytes(Some(ix.w.db.slots[rid])), k)
  }

  predicate Wrote(db: M.Db, t: nat, rid: RecordId) { t in db.txns && rid in db.txns[t].writeSet }

  ghost predicate FiledAt(ix: Ix, s: nat) { forall rid, k :: HoldsAt(ix, s, rid, k) ==> (k, rid) in ix.entries }

  ghost predicate RowsFiled(ix: Ix) { forall s: nat :: s <= ix.w.db.lastCommitTs ==> FiledAt(ix, s) }

  ghost predicate ClaimsFiled(ix: Ix) { forall t, rid, k :: Claims(ix, t, rid, k) ==> (k, rid) in ix.entries }

  /** A committing transaction is not tainted, and an aborting one is. */
  predicate OutcomeOk(db: M.Db) {
    && (db.latch.Aborting? && db.latch.txn in db.txns ==> db.txns[db.latch.txn].state == M.Tainted)
    && (db.latch.Stamping? && db.latch.txn in db.txns ==> db.txns[db.latch.txn].state == M.Running)
  }

  /** The check in progress is for the key of the row its statement is about to file. */
  predicate CheckOk(ix: Ix, c: Check) {
    if c.op.File? then
      && Find(ix.filing, c.txn) == Some(c.op.rid) && c.op.rid in ix.w.db.slots
      && ix.key(ix.w.db.slots[c.op.rid].data) == Some(c.key)
    else c.txn !in ix.filing && ix.key(c.op.data) == Some(c.key)
  }

  /** The row a transaction has yet to file is its own, and not deleted. */
  predicate FilingOk(db: M.Db, t: nat, rid: RecordId) { Wrote(db, t, rid) && rid in db.slots && !db.slots[rid].deleted }

  ghost predicate StatementsOk(ix: Ix) {
    && (forall t :: ix.Busy(t) ==> ix.w.db.CanWork(t))
    && (forall t :: t in ix.filing ==> FilingOk(ix.w.db, t, ix.filing[t]))
    && (ix.latch.Some? ==> CheckOk(ix, ix.latch.value))
  }

  ghost predicate Inv(ix: Ix) {
    S.Inv(ix.w) && OutcomeOk(ix.w.db) && ClaimsFiled(ix) && RowsFiled(ix) && StatementsOk(ix)
  }

  /** A table just opened, its rows filed under their keys. */
  ghost predicate Start(ix: Ix) {
    S.Start(ix.w) && ix.filing == map[] && ix.latch == None && FiledAt(ix, ix.w.db.lastCommitTs)
  }

  lemma StartInv(ix: Ix)
    requires Start(ix)
    ensures Inv(ix)
  {
    S.StartInv(ix.w);
    forall s: nat, rid, k ensures HoldsAt(ix, s, rid, k) == HoldsNow(ix, rid, k) {}
    forall s: nat | s <= ix.w.db.lastCommitTs ensures FiledAt(ix, s) {}
  }

  /** The committed rows are the same and no entry is gone. */
  ghost predicate SameRows(ix: Ix, ix': Ix) {
    && ix'.key == ix.key && ix.entries <= ix'.entries && ix'.w.db.lastCommitTs == ix.w.db.lastCommitTs
    && ix'.w.spec.base == ix.w.spec.base && ix'.w.spec.history == ix.w.spec.history
  }

  lemma SameHolds(ix: Ix, ix': Ix, s: nat, rid: RecordId, k: Bytes)
    requires SameRows(ix, ix')
    ensures HoldsAt(ix', s, rid, k) == HoldsAt(ix, s, rid, k)
  {}

  lemma FiledStays(ix: Ix, ix': Ix)
    requires SameRows(ix, ix') && RowsFiled(ix)
    ensures RowsFiled(ix')
  {
    forall s: nat | s <= ix'.w.db.lastCommitTs ensures FiledAt(ix', s) {
      assert FiledAt(ix, s);
      forall rid, k | HoldsAt(ix', s, rid, k) ensures (k, rid) in ix'.entries { SameHolds(ix, ix', s, rid, k); }
    }
  }

  // ---------------------------------------------------------------- steps that neither write nor publish

  predicate Plain(step: M.Step) { !step.Insert? && !step.Write? && !step.Publish? }

  /** Can still commit, or is in the middle of a statement. */
  predicate Alive(db: M.Db, t: nat) { t in db.txns && (db.txns[t].state == M.Running || db.CanWork(t)) }

  lemma PlainRunning(db: M.Db, step: M.Step, t: nat)
    requires M.Enabled(db, step) && Plain(step) && S.ClocksOk(db)
    requires t in M.Next(db, step).txns && M.Next(db, step).txns[t].state == M.Running
    ensures t in db.txns ==> db.txns[t].state == M.Running
    ensures t !in db.txns ==> M.Next(db, step).txns[t].writeSet == map[]
  {
    if S.KeepsTxns(step) {
      S.TxnsKept(db, step);
    }
  }

  lemma PlainSlots(db: M.Db, step: M.Step, rid: RecordId)
    requires M.Enabled(db, step) && Plain(step) && step != M.Restore(rid) && rid in M.Next(db, step).slots
    ensures rid in db.slots && M.Next(db, step).slots[rid].data == db.slots[rid].data
    ensures M.Next(db, step).slots[rid].deleted == db.slots[rid].deleted
  {}

  lemma PlainWriteSets(db: M.Db, step: M.Step, t: nat, rid: RecordId)
    requires M.Enabled(db, step) && Plain(step) && S.ClocksOk(db) && t in db.txns
    requires !(step == M.Restore(rid) && db.latch.txn == t)
    ensures Wrote(M.Next(db, step), t, rid) == Wrote(db, t, rid)
  {
    if !step.Restore? {
      S.OnlyWritesChangeWriteSets(db, step, t);
    }
  }

  lemma PlainRestoring(db: M.Db, step: M.Step, t: nat, rid: RecordId)
    requires M.Enabled(db, step) && OutcomeOk(db) && Alive(M.Next(db, step), t)
    ensures !(step == M.Restore(rid) && db.latch.txn == t)
  {}

  lemma PlainAlive(db: M.Db, step: M.Step, t: nat, rid: RecordId)
    requires M.Enabled(db, step) && Plain(step) && S.ClocksOk(db) && OutcomeOk(db) && Wrote(db, t, rid)
    requires Alive(M.Next(db, step), t)
    ensures Wrote(M.Next(db, step), t, rid)
  {
    PlainRestoring(db, step, t, rid);
    PlainWriteSets(db, step, t, rid);
  }

  lemma PlainClaims(ix: Ix, ix': Ix, step: M.Step, t: nat, rid: RecordId, k: Bytes)
    requires M.Enabled(ix.w.db, step) && Plain(step) && S.ClocksOk(ix.w.db) && S.LatchOk(ix.w.db)
    requires S.OwnerOk(ix.w.db, rid) && OutcomeOk(ix.w.db)
    requires ix'.w.db == M.Next(ix.w.db, step) && ix'.key == ix.key && Claims(ix', t, rid, k)
    requires t in ix.w.db.txns && ix.w.db.txns[t].state == M.Running ==> Find(ix'.filing, t) == Find(ix.filing, t)
    ensures Claims(ix, t, rid, k)
  {
    var db := ix.w.db;
    PlainRunning(db, step, t);
    PlainRestoring(db, step, t, rid);
    PlainWriteSets(db, step, t, rid);
    assert S.Writer(db, rid) == Some(t);
    PlainSlots(db, step, rid);
  }

  lemma PlainRows(ix: Ix, ix': Ix, step: M.Step)
    requires M.Enabled(ix.w.db, step) && Plain(step)
    requires ix'.w == S.WorldNext(ix.w, step) && ix'.key == ix.key && ix'.entries == ix.entries
    ensures SameRows(ix, ix')
  {}

  lemma PlainOutcome(db: M.Db, step: M.Step)
    requires M.Enabled(db, step) && Plain(step) && OutcomeOk(db) && S.ClocksOk(db) && S.LatchOk(db)
    ensures OutcomeOk(M.Next(db, step))
  {
    if S.KeepsTxns(step) {
      S.TxnsKept(db, step);
    }
  }

  lemma OthersCanWork(db: M.Db, step: M.Step, t: nat)
    requires M.Enabled(db, step) && S.ClocksOk(db) && db.CanWork(t) && Actor(step) != Some(t)
    ensures M.Next(db, step).CanWork(t)
  {
    if S.KeepsTxns(step) {
      S.TxnsKept(db, step);
    }
  }

  lemma SlotsStay(db: M.Db, step: M.Step, rid: RecordId)
    requires M.Enabled(db, step) && rid in db.slots
    ensures rid in M.Next(db, step).slots
  {}

  lemma OverwrittenStays(ix: Ix, step: M.Step, t: nat, rid: RecordId)
    requires S.Inv(ix.w) && M.Enabled(ix.w.db, step) && Plain(step) && OutcomeOk(ix.w.db)
    requires ix.w.db.CanWork(t) && Wrote(ix.w.db, t, rid)
    ensures rid in ix.w.db.slots && rid in M.Next(ix.w.db, step).slots
    ensures M.Next(ix.w.db, step).slots[rid].data == ix.w.db.slots[rid].data
    ensures M.Next(ix.w.db, step).slots[rid].deleted == ix.w.db.slots[rid].deleted
  {
    assert S.RecordOk(ix.w, rid);
    assert S.Writer(ix.w.db, rid) == Some(t);
    SlotsStay(ix.w.db, step, rid);
    PlainSlots(ix.w.db, step, rid);
  }

  /** The statements of the transactions that do not take the step go on. */
  lemma StatementsStay(ix: Ix, ix': Ix, step: M.Step)
    requires S.Inv(ix.w) && OutcomeOk(ix.w.db) && StatementsOk(ix) && M.Enabled(ix.w.db, step) && Plain(step)
    requires ix'.w == S.WorldNext(ix.w, step) && ix'.key == ix.key && (ix'.latch == ix.latch || ix'.latch == None)
    requires forall t: nat :: ix'.Busy(t) ==>
               ix.Busy(t) && Actor(step) != Some(t) && Find(ix'.filing, t) == Find(ix.filing, t)
    ensures StatementsOk(ix')
  {
    forall t | ix'.Busy(t) ensures ix'.w.db.CanWork(t) { OthersCanWork(ix.w.db, step, t); }
    forall t | t in ix'.filing ensures FilingOk(ix'.w.db, t, ix'.filing[t]) {
      assert ix'.Busy(t) && Find(ix'.filing, t) == Find(ix.filing, t);
      PlainAlive(ix.w.db, step, t, ix.filing[t]);
      OverwrittenStays(ix, step, t, ix.filing[t]);
    }
    if ix'.latch.Some? {
      var c := ix.latch.value;
      assert ix'.Busy(c.txn);
      if c.op.File? {
        OverwrittenStays(ix, step, c.txn, c.op.rid);
      }
    }
  }

  /** A plain step, together with a change of the bookkeeping that makes no claim. */
  lemma PlainKeeps(ix: Ix, ix': Ix, step: M.Step)
    requires Inv(ix) && M.Enabled(ix.w.db, step) && Plain(step)
    requires ix'.w == S.WorldNext(ix.w, step) && ix'.key == ix.key && ix'.entries == ix.entries
    requires ix'.latch == ix.latch || ix'.latch == None
    requires forall t :: t in ix'.w.db.txns && ix'.w.db.txns[t].state == M.Running ==>
               Find(ix'.filing, t) == Find(ix.filing, t)
    requires forall t: nat :: ix'.Busy(t) ==>
               ix.Busy(t) && Actor(step) != Some(t) && Find(ix'.filing, t) == Find(ix.filing, t)
    ensures Inv(ix') && SameRows(ix, ix')
    ensures forall t, r, k :: Claims(ix', t, r, k) ==> Claims(ix, t, r, k)
  {
    S.StepKeepsInv(ix.w, step);
    PlainOutcome(ix.w.db, step);
    PlainRows(ix, ix', step);
    FiledStays(ix, ix');
    forall t, r, k | Claims(ix', t, r, k) ensures Claims(ix, t, r, k) {
      assert S.RecordOk(ix.w, r);
      PlainClaims(ix, ix', step, t, r, k);
    }
    StatementsStay(ix, ix', step);
  }

  lemma StepFailed(ix: Ix, t: nat)
    requires Inv(ix) && ix.w.db.CanWork(t)
    ensures Inv(Failed(ix, t)) && SameRows(ix, Failed(ix, t))
    ensures forall u, r, k :: Claims(Failed(ix, t), u, r, k) ==> Claims(ix, u, r, k)
  {
    PlainKeeps(ix, Failed(ix, t), M.Fail(t));
  }

  // ---------------------------------------------------------------- overwriting

  lemma WriteFrame(db: M.Db, t: nat, rid: RecordId, image: Option<Bytes>, u: nat, r: RecordId)
    requires S.ClocksOk(db) && db.CanWork(t) && !M.Refused(db, t, rid)
    ensures var db' := M.Next(db, M.Write(t, rid, image));
            && (u in db'.txns <==> u in db.txns)
            && (u in db'.txns ==> db'.txns[u].state == db.txns[u].state)
            && (Wrote(db, u, r) ==> Wrote(db', u, r))
            && (Wrote(db', u, r) && !(u == t && r == rid) ==> Wrote(db, u, r))
            && Wrote(db', t, rid) && (r in db'.slots <==> r in db.slots)
            && (r != rid && r in db'.slots ==> db'.slots[r] == db.slots[r])
            && rid in db'.slots && db'.slots[rid] == M.Overwritten(db.slots[rid], t, image)
            && db'.latch == db.latch && db'.lastCommitTs == db.lastCommitTs
  {}

  lemma WriteSpec(ix: Ix, t: nat, rid: RecordId, image: Option<Bytes>)
    requires Enabled(ix, Write(t, rid, image))
    ensures var ix' := Next(ix, Write(t, rid, image));
            SameRows(ix, ix') && ix'.entries == ix.entries && ix'.latch == ix.latch &&
            ix'.w.db == M.Next(ix.w.db, M.Write(t, rid, image))
  {}

  /** What a transaction overwrites is its own, or was committed before its snapshot. */
  lemma OverwritesSeen(w: S.World, t: nat, rid: RecordId)
    requires S.Inv(w) && w.db.CanWork(t) && !M.Refused(w.db, t, rid)
    ensures (w.db.slots[rid].ts == t && Wrote(w.db, t, rid)) || w.db.slots[rid].ts <= w.db.lastCommitTs
  {
    if w.db.slots[rid].ts == t {
      assert S.RecordOk(w, rid);
      assert S.Writer(w.db, rid) == Some(t);
    }
  }

  /** A claim made by overwriting a row keeps the key the row has as committed. */
  lemma OwnWriteClaims(ix: Ix, t: nat, rid: RecordId, image: Option<Bytes>, k: Bytes)
    requires S.Inv(ix.w) && Enabled(ix, Write(t, rid, image)) && !M.Refused(ix.w.db, t, rid)
    requires Claims(Next(ix, Write(t, rid, image)), t, rid, k)
    ensures Claims(ix, t, rid, k) ||
            (ix.w.db.slots[rid].ts <= ix.w.db.lastCommitTs && Holds(ix.key, M.LiveBytes(Some(ix.w.db.slots[rid])), k))
  {
    WriteSpec(ix, t, rid, image);
    WriteFrame(ix.w.db, t, rid, image, t, rid);
    OverwritesSeen(ix.w, t, rid);
    assert !NewKey(ix, t, rid, image);
    assert image.Some? && ix.key(image.value) == Some(k) == ix.key(ix.w.db.slots[rid].data);
  }

  lemma WriteClaims(ix: Ix, t: nat, rid: RecordId, image: Option<Bytes>, u: nat, r: RecordId, k: Bytes)
    requires S.Inv(ix.w) && Enabled(ix, Write(t, rid, image)) && !M.Refused(ix.w.db, t, rid)
    requires Claims(Next(ix, Write(t, rid, image)), u, r, k)
    ensures Claims(ix, u, r, k) ||
            (u == t && r == rid && ix.w.db.slots[rid].ts <= ix.w.db.lastCommitTs &&
             Holds(ix.key, M.LiveBytes(Some(ix.w.db.slots[rid])), k))
  {
    if u == t && r == rid {
      OwnWriteClaims(ix, t, rid, image, k);
    } else {
      OtherWriteClaims(ix, t, rid, image, u, r, k);
    }
  }

  lemma OtherWriteClaims(ix: Ix, t: nat, rid: RecordId, image: Option<Bytes>, u: nat, r: RecordId, k: Bytes)
    requires S.Inv(ix.w) && Enabled(ix, Write(t, rid, image)) && !M.Refused(ix.w.db, t, rid) && !(u == t && r == rid)
    requires Claims(Next(ix, Write(t, rid, image)), u, r, k)
    ensures Claims(ix, u, r, k)
  {
    WriteSpec(ix, t, rid, image);
    WriteFrame(ix.w.db, t, rid, image, u, r);
    OverwritesSeen(ix.w, t, rid);
    assert r != rid by { assert S.RecordOk(ix.w, rid); }
  }

  /** Nobody overwrites a row another transaction has written. */
  lemma OthersRow(w: S.World, t: nat, rid: RecordId, u: nat, r: RecordId)
    requires S.Inv(w) && w.db.CanWork(t) && !M.Refused(w.db, t, rid) && u != t && w.db.CanWork(u) && Wrote(w.db, u, r)
    ensures r != rid
  {
    OverwritesSeen(w, t, rid);
    assert S.RecordOk(w, rid);
  }

  lemma WriteStatements(ix: Ix, t: nat, rid: RecordId, image: Option<Bytes>)
    requires S.Inv(ix.w) && StatementsOk(ix) && Enabled(ix, Write(t, rid, image)) && !M.Refused(ix.w.db, t, rid)
    ensures StatementsOk(Next(ix, Write(t, rid, image)))
  {
    var ix' := Next(ix, Write(t, rid, image));
    WriteSpec(ix, t, rid, image);
    forall u: nat | ix'.Busy(u) ensures ix'.w.db.CanWork(u) {
      assert u == t || ix.Busy(u);
      WriteFrame(ix.w.db, t, rid, image, u, rid);
    }
    forall u | u in ix'.filing ensures FilingOk(ix'.w.db, u, ix'.filing[u]) {
      WriteFrame(ix.w.db, t, rid, image, u, ix'.filing[u]);
      if u != t {
        assert ix.Busy(u);
        OthersRow(ix.w, t, rid, u, ix.filing[u]);
      }
    }
    if ix.latch.Some? {
      WriteCheck(ix, t, rid, image);
    }
  }

  lemma WriteCheck(ix: Ix, t: nat, rid: RecordId, image: Option<Bytes>)
    requires S.Inv(ix.w) && StatementsOk(ix) && Enabled(ix, Write(t, rid, image)) && !M.Refused(ix.w.db, t, rid)
    requires ix.latch.Some?
    ensures CheckOk(Next(ix, Write(t, rid, image)), ix.latch.value)
  {
    var c := ix.latch.value;
    assert ix.Busy(c.txn) && c.txn != t;
    WriteSpec(ix, t, rid, image);
    if c.op.File? {
      WriteFrame(ix.w.db, t, rid, image, c.txn, c.op.rid);
      OthersRow(ix.w, t, rid, c.txn, c.op.rid);
    }
  }

  /** The committed row at a slot nobody is writing is what the slot holds. */
  lemma CommittedSlot(ix: Ix, rid: RecordId)
    requires S.Inv(ix.w) && rid in ix.w.db.slots && ix.w.db.slots[rid].ts <= ix.w.db.lastCommitTs
    ensures forall k :: HoldsNow(ix, rid, k) <==> Holds(ix.key, M.LiveBytes(Some(ix.w.db.slots[rid])), k)
    ensures forall t :: ix.w.db.IsActive(t) ==> !Wrote(ix.w.db, t, rid)
    ensures !(ix.w.db.latch.Stamps() && rid in ix.w.db.latch.done)
  {
    assert S.RecordOk(ix.w, rid);
    assert S.Protected(ix.w.db, ix.w.db.lastCommitTs);
  }

  lemma StepRefused(ix: Ix, t: nat, rid: RecordId, image: Option<Bytes>)
    requires Enabled(ix, Write(t, rid, image)) && M.Refused(ix.w.db, t, rid)
    ensures Next(ix, Write(t, rid, image)) == Failed(ix, t)
  {
    assert ix.filing - {t} == ix.filing;
  }

  lemma StepWrite(ix: Ix, t: nat, rid: RecordId, image: Option<Bytes>)
    requires Inv(ix) && Enabled(ix, Write(t, rid, image))
    ensures Inv(Next(ix, Write(t, rid, image)))
  {
    var ix' := Next(ix, Write(t, rid, image));
    if M.Refused(ix.w.db, t, rid) {
      StepRefused(ix, t, rid, image);
      StepFailed(ix, t);
    } else {
      S.StepKeepsInv(ix.w, M.Write(t, rid, image));
      WriteSpec(ix, t, rid, image);
      FiledStays(ix, ix');
      assert OutcomeOk(ix'.w.db) by { WriteOutcome(ix.w.db, t, rid, image); }
      forall u, r, k | Claims(ix', u, r, k) ensures (k, r) in ix'.entries {
        WriteClaims(ix, t, rid, image, u, r, k);
        if !Claims(ix, u, r, k) {
          CommittedSlot(ix, rid);
          assert FiledAt(ix, ix.w.db.lastCommitTs) && HoldsNow(ix, rid, k);
        }
      }
      WriteStatements(ix, t, rid, image);
    }
  }

  lemma WriteOutcome(db: M.Db, t: nat, rid: RecordId, image: Option<Bytes>)
    requires S.ClocksOk(db) && db.CanWork(t) && !M.Refused(db, t, rid) && OutcomeOk(db)
    ensures OutcomeOk(M.Next(db, M.Write(t, rid, image)))
  {
    if db.latch.Aborting? || db.latch.Stamping? {
      WriteFrame(db, t, rid, image, db.latch.txn, rid);
    }
  }

  // ---------------------------------------------------------------- inserting

  lemma InsertFrame(db: M.Db, t: nat, rid: RecordId, data: Bytes, u: nat, r: RecordId)
    requires S.ClocksOk(db) && db.CanWork(t) && rid !in db.slots
    ensures var db' := M.Next(db, M.Insert(t, rid, data));
            && (u in db'.txns <==> u in db.txns)
            && (u in db'.txns ==> db'.txns[u].state == db.txns[u].state)
            && (Wrote(db, u, r) ==> Wrote(db', u, r))
            && (Wrote(db', u, r) && !(u == t && r == rid) ==> Wrote(db, u, r))
            && (r in db'.slots <==> r == rid || r in db.slots)
            && (r != rid && r in db'.slots ==> db'.slots[r] == db.slots[r])
            && rid in db'.slots && db'.slots[rid] == Version(t, false, data)
            && db'.latch == db.latch && db'.lastCommitTs == db.lastCommitTs
  {}

  lemma InsertSpec(ix: Ix, t: nat, rid: RecordId, data: Bytes)
    requires ix.w.db.CanWork(t) && rid !in ix.w.db.slots
    ensures var ix' := Inserted(ix, t, rid, data);
            && SameRows(ix, ix') && ix'.filing == ix.filing && ix'.latch == ix.latch
            && ix'.w.db == M.Next(ix.w.db, M.Insert(t, rid, data))
            && (ix.key(data).Some? ==> (ix.key(data).value, rid) in ix'.entries)
  {}

  lemma InsertClaims(ix: Ix, t: nat, rid: RecordId, data: Bytes, u: nat, r: RecordId, k: Bytes)
    requires S.Inv(ix.w) && ix.w.db.CanWork(t) && rid !in ix.w.db.slots && Claims(Inserted(ix, t, rid, data), u, r, k)
    ensures Claims(ix, u, r, k) || (u == t && r == rid && ix.key(data) == Some(k))
    ensures Claims(ix, u, r, k) ==> r != rid
  {
    InsertSpec(ix, t, rid, data);
    InsertFrame(ix.w.db, t, rid, data, u, r);
    assert S.RecordOk(ix.w, rid);
  }

  lemma InsertOutcome(db: M.Db, t: nat, rid: RecordId, data: Bytes)
    requires S.ClocksOk(db) && db.CanWork(t) && rid !in db.slots && OutcomeOk(db)
    ensures OutcomeOk(M.Next(db, M.Insert(t, rid, data)))
  {
    if db.latch.Aborting? || db.latch.Stamping? {
      InsertFrame(db, t, rid, data, db.latch.txn, rid);
    }
  }

  lemma InsertStatements(ix: Ix, t: nat, rid: RecordId, data: Bytes)
    requires S.ClocksOk(ix.w.db) && StatementsOk(ix) && ix.w.db.CanWork(t) && rid !in ix.w.db.slots
    ensures StatementsOk(Inserted(ix, t, rid, data))
  {
    var ix' := Inserted(ix, t, rid, data);
    InsertSpec(ix, t, rid, data);
    forall u: nat | ix'.Busy(u) ensures ix'.w.db.CanWork(u) {
      assert ix.Busy(u);
      InsertFrame(ix.w.db, t, rid, data, u, rid);
    }
    forall u | u in ix'.filing ensures FilingOk(ix'.w.db, u, ix'.filing[u]) {
      InsertFrame(ix.w.db, t, rid, data, u, ix'.filing[u]);
    }
    if ix.latch.Some? && ix.latch.value.op.File? {
      InsertFrame(ix.w.db, t, rid, data, t, ix.latch.value.op.rid);
    }
  }

  lemma StepInserted(ix: Ix, t: nat, rid: RecordId, data: Bytes)
    requires Inv(ix) && ix.w.db.CanWork(t) && rid !in ix.w.db.slots
    ensures Inv(Inserted(ix, t, rid, data))
  {
    var ix' := Inserted(ix, t, rid, data);
    S.StepKeepsInv(ix.w, M.Insert(t, rid, data));
    InsertSpec(ix, t, rid, data);
    InsertOutcome(ix.w.db, t, rid, data);
    FiledStays(ix, ix');
    forall u, r, k | Claims(ix', u, r, k) ensures (k, r) in ix'.entries { InsertClaims(ix, t, rid, data, u, r, k); }
    InsertStatements(ix, t, rid, data);
  }

  // ---------------------------------------------------------------- statements

  /** Forgetting a statement that was not filing makes no claim. */
  lemma DoneKeeps(ix: Ix, t: nat)
    requires Inv(ix) && t !in ix.filing
    ensures Inv(Done(ix, t)) && Done(ix, t).filing == ix.filing && Done(ix, t).w == ix.w
    ensures forall u, r, k :: Claims(Done(ix, t), u, r, k) ==> Claims(ix, u, r, k)
  {
    assert ix.filing - {t} == ix.filing;
    forall u: nat | Done(ix, t).Busy(u) ensures ix.w.db.CanWork(u) { assert ix.Busy(u); }
    FiledStays(ix, Done(ix, t));
    forall u, r, k | Claims(Done(ix, t), u, r, k) ensures Claims(ix, u, r, k) {}
  }

  lemma StepBeginCheck(ix: Ix, t: nat, op: Op)
    requires Inv(ix) && Enabled(ix, BeginCheck(t, op))
    ensures Inv(Next(ix, BeginCheck(t, op)))
  {
    var ix' := Next(ix, BeginCheck(t, op));
    forall u: nat | ix'.Busy(u) ensures ix'.w.db.CanWork(u) { assert u == t || ix.Busy(u); }
    FiledStays(ix, ix');
    forall u, r, k | Claims(ix', u, r, k) ensures (k, r) in ix.entries { assert Claims(ix, u, r, k); }
  }

  lemma StepCheckOne(ix: Ix, r: RecordId)
    requires Inv(ix) && Enabled(ix, CheckOne(r))
    ensures Inv(Next(ix, CheckOne(r)))
  {
    var ix', c := Next(ix, CheckOne(r)), ix.latch.value;
    if Passes(ix, c.txn, c.key, r) {
      forall u: nat | ix'.Busy(u) ensures ix'.w.db.CanWork(u) { assert ix.Busy(u); }
      FiledStays(ix, ix');
      forall u, r2, k | Claims(ix', u, r2, k) ensures (k, r2) in ix.entries { assert Claims(ix, u, r2, k); }
    } else {
      StepFailed(ix, c.txn);
    }
  }

  lemma FileClaims(ix: Ix, to: RecordId, u: nat, r: RecordId, k: Bytes)
    requires StatementsOk(ix) && Enabled(ix, Finish(to)) && ix.latch.value.op.File?
             && Claims(Next(ix, Finish(to)), u, r, k)
    ensures Claims(ix, u, r, k) || (u == ix.latch.value.txn && r == ix.latch.value.op.rid && k == ix.latch.value.key)
  {}

  lemma StepFinishFile(ix: Ix, to: RecordId)
    requires Inv(ix) && Enabled(ix, Finish(to)) && ix.latch.value.op.File?
    ensures Inv(Next(ix, Finish(to)))
  {
    var ix', c := Next(ix, Finish(to)), ix.latch.value;
    forall u, r, k | Claims(ix', u, r, k) ensures (k, r) in ix'.entries { FileClaims(ix, to, u, r, k); }
    forall u: nat | ix'.Busy(u) ensures ix'.w.db.CanWork(u) { assert ix.Busy(u); }
    FiledStays(ix, ix');
  }

  lemma StepFinishInsert(ix: Ix, to: RecordId)
    requires Inv(ix) && Enabled(ix, Finish(to)) && ix.latch.value.op.Insert?
    ensures Inv(Next(ix, Finish(to)))
  {
    var c := ix.latch.value;
    StepInserted(ix, c.txn, to, c.op.data);
    InsertSpec(ix, c.txn, to, c.op.data);
    DoneKeeps(Inserted(ix, c.txn, to, c.op.data), c.txn);
  }

  /** A row deleted on its way to another slot, by a transaction that is doing nothing else. */
  lemma MovedAway(ix: Ix, t: nat, rid: RecordId, to: RecordId)
    requires Inv(ix) && Enabled(ix, Write(t, rid, None)) && !M.Refused(ix.w.db, t, rid) && to !in ix.w.db.slots
    ensures var ix1 := Deleted(ix, t, rid);
            && ix1 == Next(ix, Write(t, rid, None)) && Inv(ix1) && ix1.w.db.CanWork(t) && to !in ix1.w.db.slots
            && SameRows(ix, ix1) && ix1.entries == ix.entries && ix1.latch == ix.latch && ix1.filing == ix.filing
            && t in ix1.w.db.txns && ix1.w.db.txns[t].state == ix.w.db.txns[t].state
  {
    WriteSpec(ix, t, rid, None);
    WriteFrame(ix.w.db, t, rid, None, t, to);
    StepWrite(ix, t, rid, None);
  }

  lemma StepMove(ix: Ix, t: nat, rid: RecordId, to: RecordId, data: Bytes)
    requires Inv(ix) && Enabled(ix, Write(t, rid, None)) && !M.Refused(ix.w.db, t, rid) && to !in ix.w.db.slots
    ensures Deleted(ix, t, rid).w.db.CanWork(t) && to !in Deleted(ix, t, rid).w.db.slots
    ensures Inv(Inserted(Deleted(ix, t, rid), t, to, data))
  {
    MovedAway(ix, t, rid, to);
    StepInserted(Deleted(ix, t, rid), t, to, data);
  }

  /** Finishing a move is moving with the statement already forgotten. */
  lemma FinishMoves(ix: Ix, to: RecordId)
    requires Inv(ix) && Enabled(ix, Finish(to)) && ix.latch.value.op.Move?
    ensures var c := ix.latch.value; var ix1 := Done(ix, c.txn);
            && Inv(ix1) && Enabled(ix1, Write(c.txn, c.op.rid, None)) && !M.Refused(ix1.w.db, c.txn, c.op.rid)
            && ix1.w == ix.w && ix1.key == ix.key && ix1.entries == ix.entries && ix1.latch == None
            && ix1.filing == ix.filing
            && Deleted(ix1, c.txn, c.op.rid).w.db.CanWork(c.txn) && to !in Deleted(ix1, c.txn, c.op.rid).w.db.slots
            && Next(ix, Finish(to)) == Inserted(Deleted(ix1, c.txn, c.op.rid), c.txn, to, c.op.data)
  {
    var c := ix.latch.value;
    DoneKeeps(ix, c.txn);
    MovedAway(Done(ix, c.txn), c.txn, c.op.rid, to);
    assert ix.filing - {c.txn} == ix.filing;
  }

  lemma StepFinish(ix: Ix, to: RecordId)
    requires Inv(ix) && Enabled(ix, Finish(to))
    ensures Inv(Next(ix, Finish(to)))
  {
    match ix.latch.value.op
    case File(_) => StepFinishFile(ix, to);
    case Insert(_) => StepFinishInsert(ix, to);
    case Move(rid, data) =>
      FinishMoves(ix, to);
      StepMove(Done(ix, ix.latch.value.txn), ix.latch.value.txn, rid, to, data);
  }

  // ---------------------------------------------------------------- publishing

  function Published(ix: Ix): Ix
    requires M.Enabled(ix.w.db, M.Publish)
  {
    ix.(w := S.WorldNext(ix.w, M.Publish))
  }

  /** After a commit, the rows it wrote hold the keys it claims, and the other rows what they held. */
  lemma PublishedRows(ix: Ix, s: nat, r: RecordId, k: Bytes)
    requires S.Inv(ix.w) && OutcomeOk(ix.w.db) && M.Enabled(ix.w.db, M.Publish) && StatementsOk(ix)
    requires s <= ix.w.db.lastCommitTs + 1
    ensures HoldsAt(Published(ix), s, r, k) <==>
            if s <= ix.w.db.lastCommitTs then HoldsAt(ix, s, r, k)
            else if Wrote(ix.w.db, ix.w.db.latch.txn, r) then Claims(ix, ix.w.db.latch.txn, r, k)
            else HoldsNow(ix, r, k)
  {
    var w, w', t := ix.w, S.WorldNext(ix.w, M.Publish), ix.w.db.latch.txn;
    var c := Last(w'.spec.history);
    assert Base.Init(w'.spec.history) == w.spec.history;
    if s <= w.db.lastCommitTs || !Wrote(w.db, t, r) {
      S.SnapshotIgnores(w.spec.base, w.spec.history, c, s, r);
      if s > w.db.lastCommitTs { S.SnapshotPast(w.spec.base, w.spec.history, w.db.lastCommitTs, s, r); }
    } else {
      assert S.RecordOk(w, r);
      assert S.Writer(w.db, r) == Some(t);
      assert !ix.Busy(t);
    }
  }

  lemma PublishClaims(ix: Ix, u: nat, r: RecordId, k: Bytes)
    requires S.LatchOk(ix.w.db) && M.Enabled(ix.w.db, M.Publish) && Claims(Published(ix), u, r, k)
    ensures Claims(ix, u, r, k) && u != ix.w.db.latch.txn
  {}

  lemma PublishKeeps(db: M.Db)
    requires M.Enabled(db, M.Publish)
    ensures var db' := M.Next(db, M.Publish);
            db'.slots == db.slots && db'.latch.Published? && forall t, rid :: Wrote(db, t, rid) ==> Wrote(db', t, rid)
  {}

  lemma StepPublish(ix: Ix)
    requires Inv(ix) && Enabled(ix, Db(M.Publish))
    ensures Inv(Next(ix, Db(M.Publish)))
  {
    var ix', last, t := Published(ix), ix.w.db.lastCommitTs, ix.w.db.latch.txn;
    S.StepKeepsInv(ix.w, M.Publish);
    PublishKeeps(ix.w.db);
    forall u, rid, k | Claims(ix', u, rid, k) ensures (k, rid) in ix'.entries { PublishClaims(ix, u, rid, k); }
    forall s: nat | s <= last + 1 ensures FiledAt(ix', s) {
      assert s <= last ==> FiledAt(ix, s);
      assert FiledAt(ix, last);
      forall r, k | HoldsAt(ix', s, r, k) ensures (k, r) in ix'.entries { PublishedRows(ix, s, r, k); }
    }
    forall u: nat | ix'.Busy(u) ensures ix'.w.db.CanWork(u) {
      assert ix.Busy(u);
      OthersCanWork(ix.w.db, M.Publish, u);
    }
    assert StatementsOk(ix');
  }

  // ---------------------------------------------------------------- every run

  lemma StepInv(ix: Ix, step: Step)
    requires Inv(ix) && Enabled(ix, step)
    ensures Inv(Next(ix, step))
  {
    match step
    case Db(inner) => if inner.Publish? { StepPublish(ix); } else { PlainKeeps(ix, Next(ix, step), inner); }
    case Write(t, rid, image) => StepWrite(ix, t, rid, image);
    case InsertUnchecked(t, rid, data) => StepInserted(ix, t, rid, data);
    case MoveUnchecked(t, rid, to, data) => StepMove(ix, t, rid, to, data);
    case BeginCheck(t, op) => StepBeginCheck(ix, t, op);
    case CheckOne(r) => StepCheckOne(ix, r);
    case Finish(to) => StepFinish(ix, to);
    case GiveUp(t) => StepFailed(ix, t);
  }

  lemma {:induction false} RunInv(ix: Ix, steps: seq<Step>)
    requires Start(ix) && Run(ix, steps).Some?
    ensures Inv(Run(ix, steps).value)
  {
    if steps == [] {
      StartInv(ix);
    } else {
      RunInv(ix, Base.Init(steps));
      StepInv(Run(ix, Base.Init(steps)).value, Last(steps));
    }
  }

  /** What a transaction finds at `rid` when it looks a key up in the index. */
  function Found(ix: Ix, t: nat, k: Bytes, rid: RecordId): Option<Bytes>
    requires t in ix.w.db.txns
  {
    var row := M.Visible(ix.w.db, t, rid);
    if (k, rid) in ix.entries && Holds(ix.key, row, k) then row else None
  }

  /** In every run, a lookup through the index finds exactly the visible rows that hold the key,
      although entries are never removed, rows move and commits fail. */
  lemma LookupIsFilteredScan(ix: Ix, steps: seq<Step>, t: nat, k: Bytes, rid: RecordId)
    requires Start(ix) && Run(ix, steps).Some?
    requires var ix' := Run(ix, steps).value;
             t in ix'.w.db.txns && ix'.w.db.txns[t].state == M.Running && ix'.w.db.CanWork(t) && !ix'.Busy(t)
    ensures var ix' := Run(ix, steps).value; var row := M.Visible(ix'.w.db, t, rid);
            Found(ix', t, k, rid) == if Holds(ix'.key, row, k) then row else None
  {
    var ix' := Run(ix, steps).value;
    RunInv(ix, steps);
    if Holds(ix'.key, M.Visible(ix'.w.db, t, rid), k) {
      SeenIsFiled(ix', t, k, rid);
    }
  }

  lemma SeenIsFiled(ix: Ix, t: nat, k: Bytes, rid: RecordId)
    requires Inv(ix) && t in ix.w.db.txns && ix.w.db.txns[t].state == M.Running && ix.w.db.CanWork(t) && !ix.Busy(t)
    requires Holds(ix.key, M.Visible(ix.w.db, t, rid), k)
    ensures (k, rid) in ix.entries
  {
    S.SeesSnapshot(ix.w, t, rid);
    if Wrote(ix.w.db, t, rid) {
      assert S.RecordOk(ix.w, rid);
      assert Claims(ix, t, rid, k);
    } else {
      assert FiledAt(ix, ix.w.db.txns[t].readTs);
    }
  }
}
