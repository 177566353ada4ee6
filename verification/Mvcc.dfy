/** The transaction manager as a step machine. A step is one section of code that runs under a
    latch; commit and abort take one step per slot, so every other step can come in between. */
module Mvcc {
  import opened Base

  /** Stamps at or above this are transaction ids, stamps below it are commit timestamps. */
  const TXN_START_ID: nat := 0x4000_0000_0000_0000

  predicate IsTxnId(ts: nat) { ts >= TXN_START_ID }

  datatype TxnState = Running | Tainted | Committed | Aborted

  /** `writeSet` maps each record id written to whether its first write pushed an undo entry. */
  datatype Txn = Txn(readTs: nat, state: TxnState, commitTs: Option<nat>, writeSet: map<RecordId, bool>)
  {
    predicate Active() { state == Running || state == Tainted }

    function Taint(): Txn { if state == Running then this.(state := Tainted) else this }
  }

  /** Who holds the commit latch, and how far its commit or abort has come. */
  datatype Latch =
    | Free
    | Stamping(txn: nat, done: set<RecordId>)
    | Unstamping(txn: nat, done: set<RecordId>)
    | Published(txn: nat)
    | Aborting(txn: nat)
    | Paused
  {
    predicate Stamps() { Stamping? || Unstamping? }
  }

  /** `versions` holds the undo chain of each record id, newest entry first; `running` counts the
      snapshots in use; `marks` holds every watermark a garbage collection pass has started with,
      and the clock at start-up. */
  datatype Db = Db(
    slots: map<RecordId, Version>,
    versions: map<RecordId, seq<Version>>,
    txns: map<nat, Txn>,
    running: multiset<nat>,
    lastCommitTs: nat,
    nextTxnId: nat,
    latch: Latch,
    marks: set<nat>)
  {
    predicate IsActive(t: nat) { t in txns && txns[t].Active() }

    /** Active, and not in the middle of its own commit or abort. */
    predicate CanWork(t: nat) { IsActive(t) && !((latch.Stamps() || latch.Aborting?) && latch.txn == t) }

    function Chain(rid: RecordId): seq<Version> { if rid in versions then versions[rid] else [] }
  }

  // ---------------------------------------------------------------- rules of the code

  predicate Sees(id: nat, readTs: nat, ts: nat) { ts == id || ts <= readTs }

  /** The first entry of a newest-first list stamped at or before `s`. */
  function FirstAtOrBefore(chain: seq<Version>, s: nat): Option<Version> {
    if chain == [] then None
    else if chain[0].ts <= s then Some(chain[0])
    else FirstAtOrBefore(chain[1..], s)
  }

  function LiveBytes(v: Option<Version>): Option<Bytes> {
    if v.Some? && !v.value.deleted then Some(v.value.data) else None
  }

  /** What transaction `t` reads at `rid`. */
  function Visible(db: Db, t: nat, rid: RecordId): Option<Bytes>
    requires t in db.txns
  {
    if rid !in db.slots then None
    else if Sees(t, db.txns[t].readTs, db.slots[rid].ts) then LiveBytes(Some(db.slots[rid]))
    else LiveBytes(FirstAtOrBefore(db.Chain(rid), db.txns[t].readTs))
  }

  predicate WriteConflict(id: nat, readTs: nat, ts: nat) { ts != id && (IsTxnId(ts) || ts > readTs) }

  function Watermark(db: Db): (w: nat)
    ensures db.running == multiset{} ==> w == db.lastCommitTs
    ensures db.running != multiset{} ==> w in db.running && forall r :: r in db.running ==> w <= r
  {
    if db.running == multiset{} then db.lastCommitTs else MinOf(db.running)
  }

  function MinOf(m: multiset<nat>): (w: nat)
    requires m != multiset{}
    ensures w in m && forall r :: r in m ==> w <= r
  {
    MinExists(m);
    var w :| w in m && forall r :: r in m ==> w <= r;
    w
  }

  lemma MinExists(m: multiset<nat>)
    requires m != multiset{}
    ensures exists w :: w in m && forall r :: r in m ==> w <= r
  {
    var x :| x in m;
    MinBelow(m, x);
  }

  lemma {:induction false} MinBelow(m: multiset<nat>, x: nat)
    requires x in m
    ensures exists w :: w in m && forall r :: r in m ==> w <= r
  {
    if exists y :: y in m && y < x {
      var y :| y in m && y < x;
      MinBelow(m, y);
    }
  }

  // ---------------------------------------------------------------- steps

  datatype Step =
    | Begin
    | Insert(txn: nat, rid: RecordId, data: Bytes)
    | Write(txn: nat, rid: RecordId, image: Option<Bytes>)
    | Fail(txn: nat)
    | CommitReadOnly(txn: nat)
    | StartCommit(txn: nat)
    | Stamp(rid: RecordId)
    | StampFails
    | Unstamp(rid: RecordId)
    | EndFailedCommit
    | Publish
    | EndCommit
    | StartAbort(txn: nat)
    | Restore(rid: RecordId)
    | AbortFails
    | EndAbort
    | Pause
    | Resume
    | StartGc
    | GcSlot(watermark: nat, rid: RecordId)

  function WithTxn(db: Db, t: nat, txn: Txn): Db { db.(txns := db.txns[t := txn]) }

  function WithChain(db: Db, rid: RecordId, chain: seq<Version>): Db {
    db.(versions := if chain == [] then db.versions - {rid} else db.versions[rid := chain])
  }

  function RecordWrite(txn: Txn, rid: RecordId, pushed: bool): Txn {
    if rid in txn.writeSet then txn else txn.(writeSet := txn.writeSet[rid := pushed])
  }

  function Unregister(db: Db, t: nat): Db
    requires t in db.txns
  {
    db.(running := db.running - multiset{db.txns[t].readTs})
  }

  function DoBegin(db: Db): Db {
    db.(txns := db.txns[db.nextTxnId := Txn(db.lastCommitTs, Running, None, map[])],
        running := db.running + multiset{db.lastCommitTs},
        nextTxnId := db.nextTxnId + 1)
  }

  function DoInsert(db: Db, t: nat, rid: RecordId, data: Bytes): Db
    requires t in db.txns
  {
    WithTxn(db.(slots := db.slots[rid := Version(t, false, data)]), t, RecordWrite(db.txns[t], rid, false))
  }

  /** Whether the write of `rid` is refused: no such slot, a conflict, or a deleted row. */
  predicate Refused(db: Db, t: nat, rid: RecordId)
    requires t in db.txns
  {
    rid !in db.slots || WriteConflict(t, db.txns[t].readTs, db.slots[rid].ts) || db.slots[rid].deleted
  }

  /** The slot after an update to `image`, or a deletion, which keeps the bytes. */
  function Overwritten(was: Version, t: nat, image: Option<Bytes>): Version {
    Version(t, image.None?, if image.Some? then image.value else was.data)
  }

  function DoWrite(db: Db, t: nat, rid: RecordId, image: Option<Bytes>): Db
    requires t in db.txns
  {
    if Refused(db, t, rid) then WithTxn(db, t, db.txns[t].Taint())
    else
      var was := db.slots[rid];
      var first := was.ts != t;
      var db1 := db.(slots := db.slots[rid := Overwritten(was, t, image)]);
      var db2 := if first then WithChain(db1, rid, [was] + db.Chain(rid)) else db1;
      WithTxn(db2, t, RecordWrite(db.txns[t], rid, first))
  }

  function Restamp(db: Db, rid: RecordId, ts: nat): Db
    requires rid in db.slots
  {
    db.(slots := db.slots[rid := db.slots[rid].(ts := ts)])
  }

  function DoRestore(db: Db, t: nat, rid: RecordId): Db
    requires t in db.txns && rid in db.slots && rid in db.txns[t].writeSet
    requires db.txns[t].writeSet[rid] ==> db.Chain(rid) != []
  {
    var txn := db.txns[t].(writeSet := db.txns[t].writeSet - {rid});
    if db.txns[t].writeSet[rid] then
      var chain := db.Chain(rid);
      WithTxn(WithChain(db.(slots := db.slots[rid := chain[0]]), rid, chain[1..]), t, txn)
    else
      WithTxn(db.(slots := db.slots[rid := Version(0, true, db.slots[rid].data)]), t, txn)
  }

  /** The chain garbage collection leaves: everything after the first entry at or below `w` goes. */
  function Cut(chain: seq<Version>, w: nat): (r: seq<Version>)
    ensures r <= chain
    ensures chain != [] ==> r != []
  {
    if chain == [] then []
    else if chain[0].ts <= w then [chain[0]]
    else [chain[0]] + Cut(chain[1..], w)
  }

  function DoGcSlot(db: Db, w: nat, rid: RecordId): Db
    requires rid in db.slots
  {
    if rid !in db.versions then db
    else if !IsTxnId(db.slots[rid].ts) && db.slots[rid].ts <= w then WithChain(db, rid, [])
    else WithChain(db, rid, Cut(db.versions[rid], w))
  }

  /** Whether `step` can happen in `db`. A stamp or restore is enabled only where the code finds
      the stamp and the chain it expects. */
  predicate Enabled(db: Db, step: Step) {
    match step
    case Begin => true
    case Insert(t, rid, _) => db.CanWork(t) && rid !in db.slots
    case Write(t, _, _) => db.CanWork(t)
    case Fail(t) => db.CanWork(t)
    case CommitReadOnly(t) => db.CanWork(t) && db.txns[t].state == Running && db.txns[t].writeSet == map[]
    case StartCommit(t) => db.CanWork(t) && db.txns[t].state == Running && db.txns[t].writeSet != map[] &&
                           db.latch.Free? && db.lastCommitTs + 1 < TXN_START_ID
    case Stamp(rid) => db.latch.Stamping? && db.latch.txn in db.txns && rid in db.txns[db.latch.txn].writeSet &&
                       rid !in db.latch.done && rid in db.slots && db.slots[rid].ts == db.latch.txn
    case StampFails =>
        db.latch.Stamping? && db.latch.txn in db.txns && db.latch.done != db.txns[db.latch.txn].writeSet.Keys
    case Unstamp(rid) => db.latch.Unstamping? && rid in db.latch.done && rid in db.slots &&
                         db.slots[rid].ts == db.lastCommitTs + 1
    case EndFailedCommit => db.latch.Unstamping? && db.latch.done == {} && db.latch.txn in db.txns
    case Publish =>
        db.latch.Stamping? && db.latch.txn in db.txns && db.latch.done == db.txns[db.latch.txn].writeSet.Keys
    case EndCommit => db.latch.Published? && db.latch.txn in db.txns
    case StartAbort(t) => db.CanWork(t) && db.latch.Free?
    case Restore(rid) => db.latch.Aborting? && db.latch.txn in db.txns && rid in db.txns[db.latch.txn].writeSet &&
                         rid in db.slots && db.slots[rid].ts == db.latch.txn &&
                         (db.txns[db.latch.txn].writeSet[rid] ==> db.Chain(rid) != [])
    case AbortFails => db.latch.Aborting?
    case EndAbort => db.latch.Aborting? && db.latch.txn in db.txns && db.txns[db.latch.txn].writeSet == map[]
    case Pause => db.latch.Free?
    case Resume => db.latch.Paused?
    case StartGc => true
    case GcSlot(w, rid) => w in db.marks && rid in db.slots
  }

  function Next(db: Db, step: Step): Db
    requires Enabled(db, step)
  {
    match step
    case Begin => DoBegin(db)
    case Insert(t, rid, data) => DoInsert(db, t, rid, data)
    case Write(t, rid, image) => DoWrite(db, t, rid, image)
    case Fail(t) => WithTxn(db, t, db.txns[t].Taint())
    case CommitReadOnly(t) =>
      Unregister(WithTxn(db, t, db.txns[t].(state := Committed, commitTs := Some(db.lastCommitTs))), t)
    case StartCommit(t) => db.(latch := Stamping(t, {}))
    case Stamp(rid) => Restamp(db, rid, db.lastCommitTs + 1).(latch := Stamping(db.latch.txn, db.latch.done + {rid}))
    case StampFails => db.(latch := Unstamping(db.latch.txn, db.latch.done))
    case Unstamp(rid) => Restamp(db, rid, db.latch.txn).(latch := Unstamping(db.latch.txn, db.latch.done - {rid}))
    case EndFailedCommit => WithTxn(db, db.latch.txn, db.txns[db.latch.txn].Taint()).(latch := Free)
    case Publish =>
      WithTxn(db, db.latch.txn, db.txns[db.latch.txn].(state := Committed, commitTs := Some(db.lastCommitTs + 1)))
        .(lastCommitTs := db.lastCommitTs + 1, latch := Published(db.latch.txn))
    case EndCommit => Unregister(db, db.latch.txn).(latch := Free)
    case StartAbort(t) => WithTxn(db, t, db.txns[t].Taint()).(latch := Aborting(t))
    case Restore(rid) => DoRestore(db, db.latch.txn, rid)
    case AbortFails => db.(latch := Free)
    case EndAbort =>
      Unregister(WithTxn(db, db.latch.txn, db.txns[db.latch.txn].(state := Aborted, commitTs := None)),
          db.latch.txn).(latch := Free)
    case Pause => db.(latch := Paused)
    case Resume => db.(latch := Free)
    case StartGc => db.(marks := db.marks + {Watermark(db)})
    case GcSlot(w, rid) => DoGcSlot(db, w, rid)
  }
}
