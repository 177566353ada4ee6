/** Snapshot isolation of the step machine, against a history of commits that knows nothing of
    slots, stamps or undo chains. */
module Snapshot {
  import opened Base
  import opened Mvcc

  // ---------------------------------------------------------------- the reference

  /** A live row and the commit timestamp that wrote it. */
  datatype Row = Row(ts: nat, data: Bytes)

  /** A published commit: what it wrote, `None` being a deletion. */
  datatype CommitRecord = CommitRecord(txn: nat, readTs: nat, commitTs: nat, writes: map<RecordId, Option<Bytes>>)

  /** The rows at start-up, the commits since, and what each transaction has written so far. */
  datatype Spec = Spec(base: map<RecordId, Row>, history: seq<CommitRecord>, pending: map<nat, map<RecordId,
      Option<Bytes>>>)

  /** The row at `rid` once every commit up to timestamp `s` is applied. */
  function SnapshotAt(base: map<RecordId, Row>, history: seq<CommitRecord>, s: nat, rid: RecordId): Option<Row> {
    if history == [] then (if rid in base then Some(base[rid]) else None)
    else
      var c := Last(history);
      if c.commitTs <= s && rid in c.writes then
        (if c.writes[rid].Some? then Some(Row(c.commitTs, c.writes[rid].value)) else None)
      else SnapshotAt(base, Base.Init(history), s, rid)
  }

  function RowData(row: Option<Row>): Option<Bytes> { if row.Some? then Some(row.value.data) else None }

  function SpecNext(spec: Spec, db: Db, step: Step): Spec
    requires Enabled(db, step)
  {
    match step
    case Begin => spec.(pending := spec.pending[db.nextTxnId := map[]])
    case Insert(t, rid, data) => Wrote(spec, t, rid, Some(data))
    case Write(t, rid, image) => if Refused(db, t, rid) then spec else Wrote(spec, t, rid, image)
    case Publish =>
      var t := db.latch.txn;
      spec.(history := spec.history + [CommitRecord(t, db.txns[t].readTs, db.lastCommitTs + 1, Pending(spec, t))])
    case Restore(rid) => spec.(pending := spec.pending[db.latch.txn := Pending(spec, db.latch.txn) - {rid}])
    case _ => spec
  }

  function Pending(spec: Spec, t: nat): map<RecordId, Option<Bytes>> {
    if t in spec.pending then spec.pending[t] else map[]
  }

  function Wrote(spec: Spec, t: nat, rid: RecordId, image: Option<Bytes>): Spec {
    spec.(pending := spec.pending[t := Pending(spec, t)[rid := image]])
  }

  // ---------------------------------------------------------------- runs

  /** What a slot and its undo chain held before a transaction first overwrote the slot. */
  datatype Origin = Origin(slot: Version, chain: seq<Version>)

  datatype World = World(db: Db, spec: Spec, origin: map<(nat, RecordId), Origin>)

  function OriginNext(w: World, step: Step): map<(nat, RecordId), Origin>
    requires Enabled(w.db, step)
  {
    if step.Write? && !Refused(w.db, step.txn, step.rid) && w.db.slots[step.rid].ts != step.txn then
      w.origin[(step.txn, step.rid) := Origin(w.db.slots[step.rid], w.db.Chain(step.rid))]
    else w.origin
  }

  function WorldNext(w: World, step: Step): World
    requires Enabled(w.db, step)
  {
    World(Next(w.db, step), SpecNext(w.spec, w.db, step), OriginNext(w, step))
  }

  /** The state after `steps`, or `None` if one of them is not enabled where it comes. */
  function Run(w: World, steps: seq<Step>): Option<World> {
    if steps == [] then Some(w)
    else
      var before := Run(w, Base.Init(steps));
      if before.Some? && Enabled(before.value.db, Last(steps)) then Some(WorldNext(before.value, Last(steps))) else None
  }

  /** A manager just started over a heap of committed rows, as `new` or `resume` leaves it. */
  ghost predicate Start(w: World) {
    && w.db.versions == map[] && w.db.txns == map[] && w.db.running == multiset{} && w.db.latch.Free?
    && w.db.lastCommitTs < TXN_START_ID <= w.db.nextTxnId
    && w.db.marks == {w.db.lastCommitTs}
    && (forall rid :: rid in w.db.slots ==> w.db.slots[rid].ts <= w.db.lastCommitTs)
    && w.spec.history == [] && w.spec.pending == map[]
    && (forall rid :: rid in w.spec.base <==> rid in w.db.slots && !w.db.slots[rid].deleted)
    && (forall rid :: rid in w.spec.base ==> w.spec.base[rid] == Row(w.db.slots[rid].ts, w.db.slots[rid].data))
  }

  // ---------------------------------------------------------------- the invariant

  /** The committed versions kept for `rid`, newest first. A slot stamped past the published clock
      is not committed yet, whether it carries a transaction id or an unpublished timestamp. */
  function CommittedVersions(db: Db, rid: RecordId): seq<Version> {
    if rid !in db.slots then []
    else if db.slots[rid].ts <= db.lastCommitTs then [db.slots[rid]] + db.Chain(rid)
    else db.Chain(rid)
  }

  predicate Decreasing(c: seq<Version>) { forall i, j :: 0 <= i < j < |c| ==> c[j].ts < c[i].ts }

  /** The transaction whose uncommitted version the slot holds. */
  function Writer(db: Db, rid: RecordId): Option<nat> {
    if rid !in db.slots || db.slots[rid].ts <= db.lastCommitTs then None
    else if IsTxnId(db.slots[rid].ts) then Some(db.slots[rid].ts)
    else if db.latch.Stamps() then Some(db.latch.txn)
    else None
  }

  ghost predicate ClocksOk(db: Db) {
    && db.lastCommitTs < TXN_START_ID <= db.nextTxnId
    && (db.latch.Stamps() ==> db.lastCommitTs + 1 < TXN_START_ID)
    && (forall t :: t in db.txns ==> TXN_START_ID <= t < db.nextTxnId && db.txns[t].readTs <= db.lastCommitTs)
  }

  ghost predicate LatchOk(db: Db) {
    && (db.latch.Stamps() || db.latch.Aborting? ==> db.IsActive(db.latch.txn))
    && (db.latch.Published? ==> db.latch.txn in db.txns && db.txns[db.latch.txn].state == Committed)
  }

  predicate Registered(db: Db, t: nat) { db.IsActive(t) || db.latch == Published(t) }

  function RegisteredAt(db: Db, r: nat): set<nat> {
    set t | t in db.txns && Registered(db, t) && db.txns[t].readTs == r
  }

  ghost predicate RunningOk(db: Db) {
    forall r :: db.running[r] == |RegisteredAt(db, r)|
  }

  ghost predicate MarksOk(db: Db) {
    && (forall m :: m in db.marks ==> m <= db.lastCommitTs)
    && (forall m, t :: m in db.marks && t in db.txns && Registered(db, t) ==> m <= db.txns[t].readTs)
  }

  /** The timestamps a snapshot can still have. */
  ghost predicate Protected(db: Db, s: nat) {
    s <= db.lastCommitTs && forall m :: m in db.marks ==> m <= s
  }

  function LiveRow(v: Option<Version>): Option<Row> {
    if v.Some? && !v.value.deleted then Some(Row(v.value.ts, v.value.data)) else None
  }

  ghost predicate PendingOk(w: World) {
    forall t :: t in w.db.txns && w.db.txns[t].Active() ==>
      t in w.spec.pending && w.spec.pending[t].Keys == w.db.txns[t].writeSet.Keys
  }

  predicate Increasing(history: seq<CommitRecord>) {
    forall i, j :: 0 <= i < j < |history| ==> history[i].commitTs < history[j].commitTs
  }

  /** First committer wins: commits of one row are ordered by snapshot. */
  ghost predicate HistoryOk(w: World) {
    && (forall i :: 0 <= i < |w.spec.history| ==> w.spec.history[i].commitTs <= w.db.lastCommitTs)
    && Increasing(w.spec.history)
    && (forall i, j, rid ::
        0 <= i < j < |w.spec.history| && rid in w.spec.history[i].writes && rid in w.spec.history[j].writes ==>
          w.spec.history[i].commitTs <= w.spec.history[j].readTs)
  }

  // What the invariant says of one record.

  ghost predicate ChainOk(db: Db, rid: RecordId) {
    var c := CommittedVersions(db, rid);
    && Decreasing(c) && (c != [] ==> c[0].ts <= db.lastCommitTs)
    && (rid in db.versions ==> rid in db.slots && db.versions[rid] != [])
  }

  ghost predicate OwnerOk(db: Db, rid: RecordId) {
    && (forall t {:trigger rid in db.txns[t].writeSet} ::
          t in db.txns && db.txns[t].Active() && rid in db.txns[t].writeSet ==> Writer(db, rid) == Some(t))
    && (Writer(db, rid).Some? ==>
          var t := Writer(db, rid).value; t in db.txns && db.txns[t].Active() && rid in db.txns[t].writeSet)
    && (rid in db.slots && db.lastCommitTs < db.slots[rid].ts < TXN_START_ID ==>
        db.latch.Stamps() && rid in db.latch.done)
    && (db.latch.Stamps() && rid in db.latch.done ==> rid in db.slots && db.slots[rid].ts == db.lastCommitTs + 1)
  }

  /** Under a pending write the chain still starts with the version it replaced, and below that
      only garbage collection has cut it. */
  ghost predicate UndoOk(w: World, t: nat, rid: RecordId)
    requires t in w.db.txns && rid in w.db.txns[t].writeSet
  {
    var chain := w.db.Chain(rid);
    if w.db.txns[t].writeSet[rid] then
      && (t, rid) in w.origin && chain != [] && chain[0] == w.origin[(t, rid)].slot
      && chain[1..] <= w.origin[(t, rid)].chain
      && !chain[0].deleted && chain[0].ts <= w.db.txns[t].readTs
    else chain == []
  }

  ghost predicate WriteOk(w: World, rid: RecordId) {
    Writer(w.db, rid).Some? ==>
      var t := Writer(w.db, rid).value;
      && t in w.db.txns && rid in w.db.txns[t].writeSet && UndoOk(w, t, rid)
      && t in w.spec.pending && rid in w.spec.pending[t] && LiveBytes(Some(w.db.slots[rid])) == w.spec.pending[t][rid]
      && forall i :: 0 <= i < |w.spec.history| && rid in w.spec.history[i].writes ==>
          w.spec.history[i].commitTs <= w.db.txns[t].readTs
  }

  ghost predicate SnapshotsOk(w: World, rid: RecordId) {
    && (forall s :: Protected(w.db, s) ==>
          LiveRow(FirstAtOrBefore(CommittedVersions(w.db, rid), s)) == SnapshotAt(w.spec.base, w.spec.history, s, rid))
    && (rid in w.spec.base ==> rid in w.db.slots)
    && (forall i :: 0 <= i < |w.spec.history| && rid in w.spec.history[i].writes ==> rid in w.db.slots)
  }

  ghost predicate RecordOk(w: World, rid: RecordId) {
    ChainOk(w.db, rid) && OwnerOk(w.db, rid) && WriteOk(w, rid) && SnapshotsOk(w, rid)
  }

  ghost predicate GlobalOk(w: World) {
    ClocksOk(w.db) && LatchOk(w.db) && RunningOk(w.db) && MarksOk(w.db) && PendingOk(w) && HistoryOk(w)
  }

  ghost predicate Inv(w: World) {
    GlobalOk(w) && forall rid :: RecordOk(w, rid)
  }

  // ---------------------------------------------------------------- lookups

  /** In a newest-first list, cutting after the first entry at or below `m` keeps every lookup at
      `m` or later. */
  lemma {:induction false} CutKeepsLookups(c: seq<Version>, m: nat, s: nat)
    requires m <= s
    ensures FirstAtOrBefore(Cut(c, m), s) == FirstAtOrBefore(c, s)
  {
    if c != [] && c[0].ts > m {
      CutKeepsLookups(c[1..], m, s);
      assert ([c[0]] + Cut(c[1..], m))[1..] == Cut(c[1..], m);
    }
  }

  /** A row in the snapshot at `s` carries the newest commit of its record up to `s`. */
  lemma {:induction false} SnapshotIsNewest(base: map<RecordId, Row>, history: seq<CommitRecord>, s: nat, rid: RecordId)
    requires Increasing(history) && forall i :: 0 <= i < |history| ==> history[i].commitTs <= s
    requires SnapshotAt(base, history, s, rid).Some?
    ensures forall i :: 0 <= i < |history| && rid in history[i].writes ==>
              history[i].commitTs <= SnapshotAt(base, history, s, rid).value.ts
  {
    if history != [] && rid !in Last(history).writes {
      SnapshotIsNewest(base, Base.Init(history), s, rid);
    }
  }

  /** The newest committed version is the one the snapshot at the clock holds. */
  lemma NewestIsCurrent(w: World, rid: RecordId)
    requires SnapshotsOk(w, rid) && ChainOk(w.db, rid) && HistoryOk(w) && MarksOk(w.db)
    requires CommittedVersions(w.db, rid) != [] && !CommittedVersions(w.db, rid)[0].deleted
    ensures forall i :: 0 <= i < |w.spec.history| && rid in w.spec.history[i].writes ==>
              w.spec.history[i].commitTs <= CommittedVersions(w.db, rid)[0].ts
  {
    assert Protected(w.db, w.db.lastCommitTs);
    SnapshotIsNewest(w.spec.base, w.spec.history, w.db.lastCommitTs, rid);
  }

  lemma StartInv(w: World)
    requires Start(w)
    ensures Inv(w)
  {
    forall r ensures w.db.running[r] == |RegisteredAt(w.db, r)| { assert RegisteredAt(w.db, r) == {}; }
    forall rid ensures RecordOk(w, rid) {}
  }

  // ---------------------------------------------------------------- registrations

  lemma SameRegistrations(db: Db, db': Db)
    requires RunningOk(db) && db'.running == db.running && db'.txns.Keys == db.txns.Keys
    requires forall t ::
             t in db.txns ==> db'.txns[t].readTs == db.txns[t].readTs && Registered(db', t) == Registered(db, t)
    ensures RunningOk(db')
  {
    forall r ensures db'.running[r] == |RegisteredAt(db', r)| {
      assert RegisteredAt(db', r) == RegisteredAt(db, r);
    }
  }

  lemma BeginRegisters(db: Db)
    requires RunningOk(db) && ClocksOk(db)
    ensures RunningOk(DoBegin(db))
  {
    forall r ensures DoBegin(db).running[r] == |RegisteredAt(DoBegin(db), r)| { BeginRegisters1(db, r); }
  }

  lemma BeginRegisters1(db: Db, r: nat)
    requires RunningOk(db) && ClocksOk(db)
    ensures DoBegin(db).running[r] == |RegisteredAt(DoBegin(db), r)|
  {
    RegisteredOneMore(db, r);
    assert DoBegin(db).running[r] == db.running[r] + if r == db.lastCommitTs then 1 else 0;
  }

  lemma RegisteredOneMore(db: Db, r: nat)
    requires ClocksOk(db)
    ensures |RegisteredAt(DoBegin(db), r)| == |RegisteredAt(db, r)| + if r == db.lastCommitTs then 1 else 0
  {
    var t, was, now := db.nextTxnId, RegisteredAt(db, r), RegisteredAt(DoBegin(db), r);
    forall u: nat ensures u in now <==> u in was || (u == t && r == db.lastCommitTs) { RegisteredAfterBegin(db, r, u); }
    RegisteredAfterBegin(db, r, t);
    SetGrows(was, now, t, r == db.lastCommitTs);
  }

  lemma RegisteredAfterBegin(db: Db, r: nat, u: nat)
    requires ClocksOk(db)
    ensures u in RegisteredAt(DoBegin(db), r) <==>
            u in RegisteredAt(db, r) || (u == db.nextTxnId && r == db.lastCommitTs)
    ensures db.nextTxnId !in RegisteredAt(db, r)
  {}

  lemma SetGrows(was: set<nat>, now: set<nat>, t: nat, grows: bool)
    requires t !in was && forall u: nat :: u in now <==> u in was || (u == t && grows)
    ensures |now| == |was| + if grows then 1 else 0
  {
    assert now == if grows then was + {t} else was;
  }

  lemma OneUnregistered(db: Db, db': Db, t: nat)
    requires RunningOk(db) && t in db.txns && db'.txns.Keys == db.txns.Keys && Registered(db, t) && !Registered(db', t)
    requires db'.running == db.running - multiset{db.txns[t].readTs}
    requires forall u :: u in db.txns ==> db'.txns[u].readTs == db.txns[u].readTs
    requires forall u :: u in db.txns && u != t ==> Registered(db', u) == Registered(db, u)
    ensures RunningOk(db')
  {
    forall r ensures db'.running[r] == |RegisteredAt(db', r)| {
      if r == db.txns[t].readTs {
        assert RegisteredAt(db', r) == RegisteredAt(db, r) - {t};
        assert t in RegisteredAt(db, r);
      } else {
        assert RegisteredAt(db', r) == RegisteredAt(db, r);
      }
    }
  }

  /** A registered snapshot is counted, so no watermark passes it. */
  lemma WatermarkBelowSnapshots(db: Db, t: nat)
    requires RunningOk(db) && t in db.txns && Registered(db, t)
    ensures Watermark(db) <= db.txns[t].readTs
  {
    assert t in RegisteredAt(db, db.txns[t].readTs);
    assert db.txns[t].readTs in db.running;
  }

  lemma WatermarkBelowClock(db: Db)
    requires RunningOk(db) && ClocksOk(db)
    ensures Watermark(db) <= db.lastCommitTs
  {
    if db.running != multiset{} {
      var r := Watermark(db);
      assert RegisteredAt(db, r) != {};
      var t :| t in RegisteredAt(db, r);
    }
  }

  // ---------------------------------------------------------------- steps that move no version

  predicate SameWrites(w: World, w': World, t: nat) {
    && t in w.db.txns && t in w'.db.txns && w'.db.txns[t].Active() && w.db.txns[t].Active()
    && w'.db.txns[t].writeSet == w.db.txns[t].writeSet && w'.db.txns[t].readTs == w.db.txns[t].readTs
    && t in w'.spec.pending && t in w.spec.pending && w'.spec.pending[t] == w.spec.pending[t]
  }

  predicate NoWrites(w: World, t: nat) {
    t in w.db.txns && w.db.txns[t].writeSet == map[] && t in w.spec.pending && w.spec.pending[t] == map[]
  }

  /** Slots, chains, clock and history stand still, and no transaction with writes comes or goes. */
  ghost predicate Quiet(w: World, w': World) {
    && w'.db.slots == w.db.slots && w'.db.versions == w.db.versions && w'.db.lastCommitTs == w.db.lastCommitTs
    && w'.spec.base == w.spec.base && w'.spec.history == w.spec.history && w'.origin == w.origin
    && w.db.marks <= w'.db.marks
    && (forall t {:trigger w'.db.txns[t]} :: t in w'.db.txns && w'.db.txns[t].Active() ==>
        SameWrites(w, w', t) || NoWrites(w', t))
    && (forall t {:trigger w.db.txns[t]} :: t in w.db.txns && w.db.txns[t].Active() ==>
        SameWrites(w, w', t) || w.db.txns[t].writeSet == map[])
    && (if w.db.latch.Stamps() && w.db.latch.done != {} then
          w'.db.latch.Stamps() && w'.db.latch.txn == w.db.latch.txn && w'.db.latch.done == w.db.latch.done
        else w'.db.latch.Stamps() ==> w'.db.latch.done == {})
  }

  lemma QuietRecord(w: World, w': World, rid: RecordId)
    requires Quiet(w, w') && RecordOk(w, rid)
    ensures RecordOk(w', rid)
  {
    assert CommittedVersions(w'.db, rid) == CommittedVersions(w.db, rid);
    assert Writer(w'.db, rid) == Writer(w.db, rid);
    forall s | Protected(w'.db, s) ensures Protected(w.db, s) {}
  }

  lemma QuietInv(w: World, w': World)
    requires Inv(w) && Quiet(w, w')
    requires ClocksOk(w'.db) && LatchOk(w'.db) && RunningOk(w'.db) && MarksOk(w'.db)
    ensures Inv(w')
  {
    assert PendingOk(w');
    forall rid ensures RecordOk(w', rid) { QuietRecord(w, w', rid); }
  }

  lemma BeginIsQuiet(w: World)
    requires ClocksOk(w.db) && LatchOk(w.db) && MarksOk(w.db) && PendingOk(w)
    ensures Quiet(w, WorldNext(w, Begin))
    ensures ClocksOk(DoBegin(w.db)) && LatchOk(DoBegin(w.db)) && MarksOk(DoBegin(w.db))
  {}

  lemma StepBegin(w: World)
    requires Inv(w)
    ensures Inv(WorldNext(w, Begin))
  {
    BeginRegisters(w.db);
    BeginIsQuiet(w);
    QuietInv(w, WorldNext(w, Begin));
  }

  lemma StepFail(w: World, t: nat)
    requires Inv(w) && w.db.CanWork(t)
    ensures Inv(WorldNext(w, Fail(t)))
  {
    SameRegistrations(w.db, Next(w.db, Fail(t)));
    QuietInv(w, WorldNext(w, Fail(t)));
  }

  lemma StepCommitReadOnly(w: World, t: nat)
    requires Inv(w) && Enabled(w.db, CommitReadOnly(t))
    ensures Inv(WorldNext(w, CommitReadOnly(t)))
  {
    OneUnregistered(w.db, Next(w.db, CommitReadOnly(t)), t);
    QuietInv(w, WorldNext(w, CommitReadOnly(t)));
  }

  lemma StepEndCommit(w: World)
    requires Inv(w) && Enabled(w.db, EndCommit)
    ensures Inv(WorldNext(w, EndCommit))
  {
    OneUnregistered(w.db, Next(w.db, EndCommit), w.db.latch.txn);
    QuietInv(w, WorldNext(w, EndCommit));
  }

  lemma StepEndAbort(w: World)
    requires Inv(w) && Enabled(w.db, EndAbort)
    ensures Inv(WorldNext(w, EndAbort))
  {
    OneUnregistered(w.db, Next(w.db, EndAbort), w.db.latch.txn);
    QuietInv(w, WorldNext(w, EndAbort));
  }

  /** Steps that only take, hand on or drop the latch. */
  lemma StepLatch(w: World, step: Step)
    requires Inv(w) && Enabled(w.db, step)
    requires step.StartCommit? || step.StampFails? || step.AbortFails? || step.Pause? || step.Resume?
    ensures Inv(WorldNext(w, step))
  {
    SameRegistrations(w.db, Next(w.db, step));
    QuietInv(w, WorldNext(w, step));
  }

  lemma StepEndFailedCommit(w: World)
    requires Inv(w) && Enabled(w.db, EndFailedCommit)
    ensures Inv(WorldNext(w, EndFailedCommit))
  {
    SameRegistrations(w.db, Next(w.db, EndFailedCommit));
    QuietInv(w, WorldNext(w, EndFailedCommit));
  }

  lemma StepStartAbort(w: World, t: nat)
    requires Inv(w) && Enabled(w.db, StartAbort(t))
    ensures Inv(WorldNext(w, StartAbort(t)))
  {
    SameRegistrations(w.db, Next(w.db, StartAbort(t)));
    QuietInv(w, WorldNext(w, StartAbort(t)));
  }

  lemma StepStartGc(w: World)
    requires Inv(w)
    ensures Inv(WorldNext(w, StartGc))
  {
    var db' := Next(w.db, StartGc);
    SameRegistrations(w.db, db');
    forall t | t in db'.txns && Registered(db', t) ensures Watermark(w.db) <= db'.txns[t].readTs {
      WatermarkBelowSnapshots(w.db, t);
    }
    WatermarkBelowClock(w.db);
    QuietInv(w, WorldNext(w, StartGc));
  }

  // ---------------------------------------------------------------- steps on one record

  /** Clock, history, watermarks and the life of every transaction stand still. */
  ghost predicate Steady(w: World, w': World) {
    && w'.db.lastCommitTs == w.db.lastCommitTs && w'.db.marks == w.db.marks && w'.db.running == w.db.running
    && w'.db.nextTxnId == w.db.nextTxnId
    && w'.spec.base == w.spec.base && w'.spec.history == w.spec.history
    && w'.db.txns.Keys == w.db.txns.Keys
    && (forall t {:trigger w'.db.txns[t]} :: t in w.db.txns ==>
          && w'.db.txns[t].readTs == w.db.txns[t].readTs && w'.db.txns[t].Active() == w.db.txns[t].Active()
          && (w.db.txns[t].Active() || w'.db.txns[t].state == w.db.txns[t].state))
    && w'.db.latch.Stamps() == w.db.latch.Stamps() && w'.db.latch.Aborting? == w.db.latch.Aborting?
    && w'.db.latch.Published? == w.db.latch.Published?
    && (w.db.latch.Stamps() || w.db.latch.Aborting? || w.db.latch.Published? ==> w'.db.latch.txn == w.db.latch.txn)
  }

  ghost predicate SameAt(w: World, w': World, rid: RecordId) {
    && (rid in w'.db.slots <==> rid in w.db.slots) && (rid in w.db.slots ==> w'.db.slots[rid] == w.db.slots[rid])
    && (rid in w'.db.versions <==> rid in w.db.versions)
    && (rid in w.db.versions ==> w'.db.versions[rid] == w.db.versions[rid])
    && (forall t {:trigger w'.db.txns[t]} :: t in w.db.txns && t in w'.db.txns ==>
          && (rid in w'.db.txns[t].writeSet <==> rid in w.db.txns[t].writeSet)
          && (rid in w.db.txns[t].writeSet ==> w'.db.txns[t].writeSet[rid] == w.db.txns[t].writeSet[rid]))
    && (forall t {:trigger w'.spec.pending[t]} {:trigger t in w'.spec.pending} :: t in w.spec.pending ==>
          && t in w'.spec.pending
          && (rid in w.spec.pending[t] ==>
              rid in w'.spec.pending[t] && w'.spec.pending[t][rid] == w.spec.pending[t][rid]))
    && (forall t :: (t, rid) in w.origin ==> (t, rid) in w'.origin && w'.origin[(t, rid)] == w.origin[(t, rid)])
    && (w.db.latch.Stamps() && w'.db.latch.Stamps() ==> (rid in w'.db.latch.done <==> rid in w.db.latch.done))
  }

  lemma FrameRecord(w: World, w': World, rid: RecordId)
    requires Steady(w, w') && SameAt(w, w', rid) && RecordOk(w, rid)
    ensures RecordOk(w', rid)
  {
    assert CommittedVersions(w'.db, rid) == CommittedVersions(w.db, rid);
    assert Writer(w'.db, rid) == Writer(w.db, rid);
    forall s | Protected(w'.db, s) ensures Protected(w.db, s) {}
  }

  lemma OneRecordInv(w: World, w': World, rid: RecordId)
    requires Inv(w) && Steady(w, w') && PendingOk(w') && RecordOk(w', rid)
    requires forall r :: r != rid ==> SameAt(w, w', r)
    ensures Inv(w')
  {
    SameRegistrations(w.db, w'.db);
    forall r ensures RecordOk(w', r) { if r != rid { FrameRecord(w, w', r); } }
  }

  lemma StepStamp(w: World, rid: RecordId)
    requires Inv(w) && Enabled(w.db, Stamp(rid))
    ensures Inv(WorldNext(w, Stamp(rid)))
  {
    var w' := WorldNext(w, Stamp(rid));
    assert RecordOk(w, rid);
    assert RecordOk(w', rid);
    OneRecordInv(w, w', rid);
  }

  lemma StepUnstamp(w: World, rid: RecordId)
    requires Inv(w) && Enabled(w.db, Unstamp(rid))
    ensures Inv(WorldNext(w, Unstamp(rid)))
  {
    var w' := WorldNext(w, Unstamp(rid));
    assert RecordOk(w, rid);
    assert RecordOk(w', rid);
    OneRecordInv(w, w', rid);
  }

  lemma CutRecord(w: World, m: nat, rid: RecordId)
    requires RecordOk(w, rid) && Enabled(w.db, GcSlot(m, rid)) && MarksOk(w.db) && ClocksOk(w.db)
    ensures RecordOk(WorldNext(w, GcSlot(m, rid)), rid)
  {
    var w' := WorldNext(w, GcSlot(m, rid));
    var before, after := CommittedVersions(w.db, rid), CommittedVersions(w'.db, rid);
    var chain := w.db.Chain(rid);
    assert Writer(w'.db, rid) == Writer(w.db, rid);
    assert after <= before && (before != [] ==> after != []);
    forall s | Protected(w'.db, s) ensures FirstAtOrBefore(after, s) == FirstAtOrBefore(before, s) {
      CutKeepsLookups(chain, m, s);
      if w.db.slots[rid].ts <= w.db.lastCommitTs {
        assert after[1..] == w'.db.Chain(rid) && before[1..] == chain;
      }
    }
    assert SnapshotsOk(w', rid) by {
      forall s | Protected(w'.db, s) ensures Protected(w.db, s) {}
    }
    assert ChainOk(w'.db, rid) && OwnerOk(w'.db, rid) && WriteOk(w', rid);
  }

  lemma CutElsewhere(w: World, m: nat, rid: RecordId)
    requires ClocksOk(w.db) && PendingOk(w) && LatchOk(w.db) && Enabled(w.db, GcSlot(m, rid))
    ensures Steady(w, WorldNext(w, GcSlot(m, rid))) && PendingOk(WorldNext(w, GcSlot(m, rid)))
    ensures forall r :: r != rid ==> SameAt(w, WorldNext(w, GcSlot(m, rid)), r)
  {}

  lemma StepGcSlot(w: World, m: nat, rid: RecordId)
    requires Inv(w) && Enabled(w.db, GcSlot(m, rid))
    ensures Inv(WorldNext(w, GcSlot(m, rid)))
  {
    assert RecordOk(w, rid);
    CutRecord(w, m, rid);
    CutElsewhere(w, m, rid);
    OneRecordInv(w, WorldNext(w, GcSlot(m, rid)), rid);
  }

  lemma StepInsert(w: World, t: nat, rid: RecordId, data: Bytes)
    requires Inv(w) && Enabled(w.db, Insert(t, rid, data))
    ensures Inv(WorldNext(w, Insert(t, rid, data)))
  {
    var w' := WorldNext(w, Insert(t, rid, data));
    assert RecordOk(w, rid);
    assert RecordOk(w', rid);
    OneRecordInv(w, w', rid);
  }

  lemma OverwriteRecord(w: World, t: nat, rid: RecordId, image: Option<Bytes>)
    requires RecordOk(w, rid) && ClocksOk(w.db) && MarksOk(w.db) && HistoryOk(w) && PendingOk(w) && LatchOk(w.db)
    requires Enabled(w.db, Write(t, rid, image)) && !Refused(w.db, t, rid)
    ensures RecordOk(WorldNext(w, Write(t, rid, image)), rid)
  {
    var w' := WorldNext(w, Write(t, rid, image));
    var slot := w.db.slots[rid];
    if slot.ts != t {
      NewestIsCurrent(w, rid);
      assert CommittedVersions(w'.db, rid) == CommittedVersions(w.db, rid);
      assert w'.db.Chain(rid) == [slot] + w.db.Chain(rid);
    }
    assert ChainOk(w'.db, rid) && OwnerOk(w'.db, rid);
    assert WriteOk(w', rid);
    assert SnapshotsOk(w', rid) by {
      forall s | Protected(w'.db, s) ensures Protected(w.db, s) {}
    }
  }

  lemma OverwriteElsewhere(w: World, t: nat, rid: RecordId, image: Option<Bytes>)
    requires ClocksOk(w.db) && PendingOk(w) && LatchOk(w.db) && Enabled(w.db, Write(t, rid, image))
             && !Refused(w.db, t, rid)
    ensures Steady(w, WorldNext(w, Write(t, rid, image))) && PendingOk(WorldNext(w, Write(t, rid, image)))
    ensures forall r :: r != rid ==> SameAt(w, WorldNext(w, Write(t, rid, image)), r)
  {
    forall r | r != rid ensures SameAt(w, WorldNext(w, Write(t, rid, image)), r) {}
  }

  lemma StepWrite(w: World, t: nat, rid: RecordId, image: Option<Bytes>)
    requires Inv(w) && Enabled(w.db, Write(t, rid, image)) && !Refused(w.db, t, rid)
    ensures Inv(WorldNext(w, Write(t, rid, image)))
  {
    assert RecordOk(w, rid);
    OverwriteRecord(w, t, rid, image);
    OverwriteElsewhere(w, t, rid, image);
    OneRecordInv(w, WorldNext(w, Write(t, rid, image)), rid);
  }

  lemma RestoreRecord(w: World, rid: RecordId)
    requires RecordOk(w, rid) && ClocksOk(w.db) && PendingOk(w) && LatchOk(w.db) && Enabled(w.db, Restore(rid))
    ensures RecordOk(WorldNext(w, Restore(rid)), rid)
  {
    var w' := WorldNext(w, Restore(rid));
    if w.db.txns[w.db.latch.txn].writeSet[rid] {
      assert CommittedVersions(w'.db, rid) == CommittedVersions(w.db, rid);
    } else {
      assert CommittedVersions(w.db, rid) == [];
    }
    assert SnapshotsOk(w', rid) by {
      forall s | Protected(w'.db, s) ensures Protected(w.db, s) {}
    }
  }

  lemma RestoreElsewhere(w: World, rid: RecordId)
    requires ClocksOk(w.db) && PendingOk(w) && LatchOk(w.db) && Enabled(w.db, Restore(rid))
    ensures Steady(w, WorldNext(w, Restore(rid))) && PendingOk(WorldNext(w, Restore(rid)))
    ensures forall r :: r != rid ==> SameAt(w, WorldNext(w, Restore(rid)), r)
  {
    forall r | r != rid ensures SameAt(w, WorldNext(w, Restore(rid)), r) { RestoreSame(w, rid, r); }
  }

  lemma RestoreSame(w: World, rid: RecordId, r: RecordId)
    requires ClocksOk(w.db) && PendingOk(w) && LatchOk(w.db) && Enabled(w.db, Restore(rid)) && r != rid
    ensures SameAt(w, WorldNext(w, Restore(rid)), r)
  {}

  lemma StepRestore(w: World, rid: RecordId)
    requires Inv(w) && Enabled(w.db, Restore(rid))
    ensures Inv(WorldNext(w, Restore(rid)))
  {
    assert RecordOk(w, rid);
    RestoreRecord(w, rid);
    RestoreElsewhere(w, rid);
    OneRecordInv(w, WorldNext(w, Restore(rid)), rid);
  }

  // ---------------------------------------------------------------- publishing a commit

  /** A commit past `s` does not show in the snapshot at `s`, nor does one that did not write `rid`. */
  lemma SnapshotIgnores(base: map<RecordId, Row>, history: seq<CommitRecord>, c: CommitRecord, s: nat, rid: RecordId)
    requires s < c.commitTs || rid !in c.writes
    ensures SnapshotAt(base, history + [c], s, rid) == SnapshotAt(base, history, s, rid)
  {
    assert Base.Init(history + [c]) == history;
  }

  lemma {:induction false} LookupPast(c: seq<Version>, s: nat, s': nat)
    requires s <= s' && forall i :: 0 <= i < |c| ==> c[i].ts <= s
    ensures FirstAtOrBefore(c, s') == FirstAtOrBefore(c, s)
  {}

  lemma {:induction false} SnapshotPast(base: map<RecordId, Row>, history: seq<CommitRecord>, s: nat, s': nat,
                                        rid: RecordId)
    requires s <= s' && forall i :: 0 <= i < |history| ==> history[i].commitTs <= s
    ensures SnapshotAt(base, history, s', rid) == SnapshotAt(base, history, s, rid)
  {
    if history != [] && rid !in Last(history).writes {
      SnapshotPast(base, Base.Init(history), s, s', rid);
    }
  }
  /** Up to the old clock every snapshot reads as before; at the new clock the snapshot is the old
      one overwritten by the commit. */
  lemma PublishFind(w: World, rid: RecordId, s: nat)
    requires ClocksOk(w.db) && LatchOk(w.db) && PendingOk(w) && HistoryOk(w) && MarksOk(w.db)
    requires RecordOk(w, rid) && Enabled(w.db, Publish) && Protected(WorldNext(w, Publish).db, s)
    ensures var w' := WorldNext(w, Publish);
            LiveRow(FirstAtOrBefore(CommittedVersions(w'.db, rid), s)) == SnapshotAt(w'.spec.base, w'.spec.history,
                s, rid)
  {
    var w' := WorldNext(w, Publish);
    var c := Last(w'.spec.history);
    var before, after := CommittedVersions(w.db, rid), CommittedVersions(w'.db, rid);
    var written := rid in w.db.txns[w.db.latch.txn].writeSet;
    assert after == if written then [w.db.slots[rid]] + before else before;
    assert Base.Init(w'.spec.history) == w.spec.history;
    if s < c.commitTs {
      assert Protected(w.db, s);
      SnapshotIgnores(w.spec.base, w.spec.history, c, s, rid);
      if written { assert after[1..] == before; }
    } else if !written {
      assert Protected(w.db, w.db.lastCommitTs);
      SnapshotIgnores(w.spec.base, w.spec.history, c, s, rid);
      SnapshotPast(w.spec.base, w.spec.history, w.db.lastCommitTs, s, rid);
      LookupPast(before, w.db.lastCommitTs, s);
    }
  }

  lemma PublishRecord(w: World, rid: RecordId)
    requires ClocksOk(w.db) && LatchOk(w.db) && PendingOk(w) && HistoryOk(w) && MarksOk(w.db)
    requires RecordOk(w, rid) && Enabled(w.db, Publish)
    ensures RecordOk(WorldNext(w, Publish), rid)
  {
    var w' := WorldNext(w, Publish);
    var before := CommittedVersions(w.db, rid);
    assert CommittedVersions(w'.db, rid) ==
           if rid in w.db.txns[w.db.latch.txn].writeSet then [w.db.slots[rid]] + before else before;
    forall s: nat | Protected(w'.db, s)
      ensures LiveRow(FirstAtOrBefore(CommittedVersions(w'.db, rid), s)) == SnapshotAt(w'.spec.base, w'.spec.history,
              s, rid)
    {
      PublishFind(w, rid, s);
    }
    assert ChainOk(w'.db, rid) && OwnerOk(w'.db, rid);
    assert WriteOk(w', rid) && SnapshotsOk(w', rid);
  }

  lemma PublishGlobal(w: World)
    requires GlobalOk(w) && Enabled(w.db, Publish)
    requires forall rid :: WriteOk(w, rid) && OwnerOk(w.db, rid)
    ensures GlobalOk(WorldNext(w, Publish))
  {
    PublishHistory(w);
    SameRegistrations(w.db, WorldNext(w, Publish).db);
  }

  lemma PublishHistory(w: World)
    requires GlobalOk(w) && Enabled(w.db, Publish)
    requires forall rid :: WriteOk(w, rid) && OwnerOk(w.db, rid)
    ensures HistoryOk(WorldNext(w, Publish))
  {
    var w' := WorldNext(w, Publish);
    var t := w.db.latch.txn;
    var n := |w.spec.history|;
    assert w'.spec.history[..n] == w.spec.history && w'.spec.history[n].writes.Keys == w.db.txns[t].writeSet.Keys;
    forall i, rid | 0 <= i < n && rid in w.spec.history[i].writes && rid in w'.spec.history[n].writes
      ensures w.spec.history[i].commitTs <= w'.spec.history[n].readTs
    {
      assert OwnerOk(w.db, rid) && WriteOk(w, rid);
      assert rid in w.db.txns[t].writeSet;
    }
  }

  lemma StepPublish(w: World)
    requires Inv(w) && Enabled(w.db, Publish)
    ensures Inv(WorldNext(w, Publish))
  {
    forall rid ensures WriteOk(w, rid) && OwnerOk(w.db, rid) && RecordOk(WorldNext(w, Publish), rid) {
      assert RecordOk(w, rid);
      PublishRecord(w, rid);
    }
    PublishGlobal(w);
  }

  // ---------------------------------------------------------------- every run

  lemma StepKeepsInv(w: World, step: Step)
    requires Inv(w) && Enabled(w.db, step)
    ensures Inv(WorldNext(w, step))
  {
    match step
    case Begin => StepBegin(w);
    case Insert(t, rid, data) => StepInsert(w, t, rid, data);
    case Write(t, rid, image) =>
      if Refused(w.db, t, rid) {
        StepFail(w, t);
        assert WorldNext(w, step) == WorldNext(w, Fail(t));
      } else {
        StepWrite(w, t, rid, image);
      }
    case Fail(t) => StepFail(w, t);
    case CommitReadOnly(t) => StepCommitReadOnly(w, t);
    case Stamp(rid) => StepStamp(w, rid);
    case Unstamp(rid) => StepUnstamp(w, rid);
    case EndFailedCommit => StepEndFailedCommit(w);
    case Publish => StepPublish(w);
    case EndCommit => StepEndCommit(w);
    case StartAbort(t) => StepStartAbort(w, t);
    case Restore(rid) => StepRestore(w, rid);
    case EndAbort => StepEndAbort(w);
    case StartGc => StepStartGc(w);
    case GcSlot(m, rid) => StepGcSlot(w, m, rid);
    case _ => StepLatch(w, step);
  }

  lemma {:induction false} RunKeepsInv(w: World, steps: seq<Step>)
    requires Inv(w) && Run(w, steps).Some?
    ensures Inv(Run(w, steps).value)
  {
    if steps != [] {
      RunKeepsInv(w, Base.Init(steps));
      StepKeepsInv(Run(w, Base.Init(steps)).value, Last(steps));
    }
  }

  /** In every state of every run, an active transaction reads its own writes where it has written,
      and everywhere else exactly the newest commit at or before its snapshot. The second half
      holds in the middle of its own commit or abort too. */
  lemma SnapshotIsolation(start: World, steps: seq<Step>, t: nat, rid: RecordId)
    requires Start(start) && Run(start, steps).Some? && Run(start, steps).value.db.IsActive(t)
    ensures var w := Run(start, steps).value;
            && (rid !in w.db.txns[t].writeSet ==>
                  Visible(w.db, t, rid) ==
                      RowData(SnapshotAt(start.spec.base, w.spec.history, w.db.txns[t].readTs, rid)))
            && (rid in w.db.txns[t].writeSet && w.db.CanWork(t) ==>
                Some(Visible(w.db, t, rid)) == Find(Pending(w.spec, t), rid))
  {
    StartInv(start);
    RunKeepsInv(start, steps);
    SameBase(start, steps);
    SeesSnapshot(Run(start, steps).value, t, rid);
  }

  lemma SeesSnapshot(w: World, t: nat, rid: RecordId)
    requires Inv(w) && w.db.IsActive(t)
    ensures rid !in w.db.txns[t].writeSet ==>
              Visible(w.db, t, rid) == RowData(SnapshotAt(w.spec.base, w.spec.history, w.db.txns[t].readTs, rid))
    ensures rid in w.db.txns[t].writeSet && w.db.CanWork(t) ==>
            Some(Visible(w.db, t, rid)) == Find(Pending(w.spec, t), rid)
  {
    assert RecordOk(w, rid);
    assert Protected(w.db, w.db.txns[t].readTs);
    if rid in w.db.slots && w.db.slots[rid].ts <= w.db.lastCommitTs {
      assert CommittedVersions(w.db, rid)[1..] == w.db.Chain(rid);
    }
  }

  lemma {:induction false} SameBase(w: World, steps: seq<Step>)
    requires Run(w, steps).Some?
    ensures Run(w, steps).value.spec.base == w.spec.base
  {
    if steps != [] { SameBase(w, Base.Init(steps)); }
  }

  /** If two commits wrote the same record, the later one read at or after the earlier one. */
  lemma NoLostUpdates(start: World, steps: seq<Step>, i: nat, j: nat, rid: RecordId)
    requires Start(start) && Run(start, steps).Some? && i < j < |Run(start, steps).value.spec.history|
    requires rid in Run(start, steps).value.spec.history[i].writes
             && rid in Run(start, steps).value.spec.history[j].writes
    ensures var h := Run(start, steps).value.spec.history;
            h[i].commitTs <= h[j].readTs < h[j].commitTs
  {
    StartInv(start);
    RunKeepsInv(start, steps);
    CommitsAfterReads(start, steps);
  }

  lemma {:induction false} CommitsAfterReads(w: World, steps: seq<Step>)
    requires Inv(w) && Run(w, steps).Some?
    requires forall k :: 0 <= k < |w.spec.history| ==> w.spec.history[k].readTs < w.spec.history[k].commitTs
    ensures var h := Run(w, steps).value.spec.history;
            forall k :: 0 <= k < |h| ==> h[k].readTs < h[k].commitTs
  {
    if steps != [] {
      CommitsAfterReads(w, Base.Init(steps));
      RunKeepsInv(w, Base.Init(steps));
    }
  }

  /** A read repeats: what a transaction reads at a record it has not written never changes,
      whatever other transactions and garbage collection do in between. */
  lemma RepeatableReads(start: World, steps: seq<Step>, more: seq<Step>, t: nat, rid: RecordId)
    requires Start(start) && Run(start, steps).Some? && Run(Run(start, steps).value, more).Some?
    requires var w, w' := Run(start, steps).value, Run(Run(start, steps).value, more).value;
             w.db.IsActive(t) && w'.db.IsActive(t) && rid !in w.db.txns[t].writeSet && rid !in w'.db.txns[t].writeSet
    ensures Visible(Run(Run(start, steps).value, more).value.db, t, rid) == Visible(Run(start, steps).value.db, t, rid)
  {
    var w := Run(start, steps).value;
    var w' := Run(w, more).value;
    RunConcat(start, steps, more);
    SameBase(start, steps);
    SnapshotIsolation(start, steps, t, rid);
    SnapshotIsolation(start, steps + more, t, rid);
    StartInv(start);
    RunKeepsInv(start, steps);
    SnapshotStays(w, more, t, rid);
  }

  lemma {:induction false} RunConcat(w: World, steps: seq<Step>, more: seq<Step>)
    requires Run(w, steps).Some?
    ensures Run(w, steps + more) == Run(Run(w, steps).value, more)
  {
    if more == [] {
      assert steps + more == steps;
    } else {
      RunConcat(w, steps, Base.Init(more));
      assert Base.Init(steps + more) == steps + Base.Init(more);
    }
  }

  lemma {:induction false} SnapshotStays(w: World, steps: seq<Step>, t: nat, rid: RecordId)
    requires Inv(w) && t in w.db.txns && Run(w, steps).Some?
    ensures var w' := Run(w, steps).value;
            && t in w'.db.txns && w'.db.txns[t].readTs == w.db.txns[t].readTs
            && SnapshotAt(w.spec.base, w'.spec.history, w.db.txns[t].readTs, rid) == SnapshotAt(w.spec.base,
                w.spec.history, w.db.txns[t].readTs, rid)
  {
    if steps != [] {
      SnapshotStays(w, Base.Init(steps), t, rid);
      RunKeepsInv(w, Base.Init(steps));
      StepKeepsSnapshot(Run(w, Base.Init(steps)).value, Last(steps), w.spec.base, t, rid);
    }
  }

  lemma StepKeepsSnapshot(w: World, step: Step, base: map<RecordId, Row>, t: nat, rid: RecordId)
    requires ClocksOk(w.db) && LatchOk(w.db) && Enabled(w.db, step) && t in w.db.txns
    ensures var w' := WorldNext(w, step);
            && t in w'.db.txns && w'.db.txns[t].readTs == w.db.txns[t].readTs
            && SnapshotAt(base, w'.spec.history, w.db.txns[t].readTs, rid) == SnapshotAt(base, w.spec.history,
                w.db.txns[t].readTs, rid)
  {
    if step.Publish? {
      SnapshotIgnores(base, w.spec.history, Last(WorldNext(w, Publish).spec.history), w.db.txns[t].readTs, rid);
    }
  }

  // ---------------------------------------------------------------- commit and abort

  /** Commit, un-stamping and abort always find the stamps and the undo chains they expect: in no
      run does one meet an unexpected stamp or a missing chain. */
  lemma OutcomesNeverStuck(start: World, steps: seq<Step>, rid: RecordId)
    requires Start(start) && Run(start, steps).Some?
    ensures var db := Run(start, steps).value.db;
            && (db.latch.Stamping? ==> db.latch.txn in db.txns) && (db.latch.Aborting? ==> db.latch.txn in db.txns)
            && (db.latch.Stamping? && rid in db.txns[db.latch.txn].writeSet && rid !in db.latch.done ==>
                Enabled(db, Stamp(rid)))
            && (db.latch.Unstamping? && rid in db.latch.done ==> Enabled(db, Unstamp(rid)))
            && (db.latch.Aborting? && rid in db.txns[db.latch.txn].writeSet ==> Enabled(db, Restore(rid)))
  {
    StartInv(start);
    RunKeepsInv(start, steps);
    assert RecordOk(Run(start, steps).value, rid);
  }

  /** Abort undoes a write exactly: the slot gets back the version it held before the transaction
      first overwrote it, and the chain is the one from then, cut short at most by garbage
      collection. In between anything else may happen, failed commits and failed aborts included. */
  lemma AbortRestores(start: World, steps: seq<Step>, t: nat, rid: RecordId, image: Option<Bytes>, more: seq<Step>)
    requires Start(start) && Run(start, steps).Some?
    requires var w := Run(start, steps).value;
             Enabled(w.db, Write(t, rid, image)) && !Refused(w.db, t, rid) && w.db.slots[rid].ts != t
    requires Restore(rid) !in more
    requires var w := Run(start, steps).value; Run(WorldNext(w, Write(t, rid, image)), more).Some?
    requires var w := Run(start, steps).value; var w2 := Run(WorldNext(w, Write(t, rid, image)), more).value;
             w2.db.latch == Aborting(t) && Enabled(w2.db, Restore(rid))
    ensures var w := Run(start, steps).value; var w2 := Run(WorldNext(w, Write(t, rid, image)), more).value;
            && Next(w2.db, Restore(rid)).slots[rid] == w.db.slots[rid]
            && Next(w2.db, Restore(rid)).Chain(rid) <= w.db.Chain(rid)
  {
    var w := Run(start, steps).value;
    assert Inv(w) by { StartInv(start); RunKeepsInv(start, steps); }
    FirstWriteOrigin(w, t, rid, image);
    var w1 := WorldNext(w, Write(t, rid, image));
    assert Inv(w1) by { StepKeepsInv(w, Write(t, rid, image)); }
    var w2 := Run(w1, more).value;
    assert Inv(w2) by { RunKeepsInv(w1, more); }
    assert LatchOk(w2.db) && w2.db.IsActive(t);
    OriginStays(w1, more, t, rid);
    assert RecordOk(w2, rid);
    RestoresOrigin(w2, rid);
  }

  lemma FirstWriteOrigin(w: World, t: nat, rid: RecordId, image: Option<Bytes>)
    requires Inv(w) && Enabled(w.db, Write(t, rid, image)) && !Refused(w.db, t, rid) && w.db.slots[rid].ts != t
    ensures var w1 := WorldNext(w, Write(t, rid, image));
            && w1.db.IsActive(t) && rid in w1.db.txns[t].writeSet && w1.db.txns[t].writeSet[rid]
            && Find(w1.origin, (t, rid)) == Some(Origin(w.db.slots[rid], w.db.Chain(rid)))
  {
    assert RecordOk(w, rid);
  }

  lemma RestoresOrigin(w: World, rid: RecordId)
    requires LatchOk(w.db) && RecordOk(w, rid) && Enabled(w.db, Restore(rid)) && w.db.txns[w.db.latch.txn].writeSet[rid]
    ensures (w.db.latch.txn, rid) in w.origin
    ensures var o := w.origin[(w.db.latch.txn, rid)];
            Next(w.db, Restore(rid)).slots[rid] == o.slot && Next(w.db, Restore(rid)).Chain(rid) <= o.chain
  {
    assert Writer(w.db, rid) == Some(w.db.latch.txn);
  }

  lemma {:induction false} OriginStays(w: World, steps: seq<Step>, t: nat, rid: RecordId)
    requires Inv(w) && w.db.IsActive(t) && rid in w.db.txns[t].writeSet && Restore(rid) !in steps && Run(w, steps).Some?
    requires Run(w, steps).value.db.IsActive(t)
    ensures var w' := Run(w, steps).value;
            && rid in w'.db.txns[t].writeSet && w'.db.txns[t].writeSet[rid] == w.db.txns[t].writeSet[rid]
            && Find(w'.origin, (t, rid)) == Find(w.origin, (t, rid))
  {
    if steps != [] {
      var before, step := Run(w, Base.Init(steps)).value, Last(steps);
      assert step in steps;
      assert Inv(before) by { RunKeepsInv(w, Base.Init(steps)); }
      assert before.db.IsActive(t) by {
        TxnStays(w, Base.Init(steps), t);
        StaysActive(before, step, t);
      }
      OriginStays(w, Base.Init(steps), t, rid);
      assert OwnerOk(before.db, rid) by { assert RecordOk(before, rid); }
      StepKeepsOrigin(before, step, t, rid);
    }
  }

  lemma {:induction false} TxnStays(w: World, steps: seq<Step>, t: nat)
    requires t in w.db.txns && Run(w, steps).Some?
    ensures t in Run(w, steps).value.db.txns
  {
    if steps != [] {
      TxnStays(w, Base.Init(steps), t);
      TxnStaysStep(Run(w, Base.Init(steps)).value.db, Last(steps), t);
    }
  }

  lemma TxnStaysStep(db: Db, step: Step, t: nat)
    requires t in db.txns && Enabled(db, step)
    ensures t in Next(db, step).txns
  {}

  /** A finished transaction stays finished. */
  lemma StaysActive(w: World, step: Step, t: nat)
    requires ClocksOk(w.db) && LatchOk(w.db) && Enabled(w.db, step) && t in w.db.txns
             && WorldNext(w, step).db.IsActive(t)
    ensures w.db.IsActive(t) && WorldNext(w, step).db.txns[t].readTs == w.db.txns[t].readTs
  {}

  lemma StepKeepsOrigin(w: World, step: Step, t: nat, rid: RecordId)
    requires ClocksOk(w.db) && LatchOk(w.db) && OwnerOk(w.db, rid) && Enabled(w.db, step) && step != Restore(rid)
    requires w.db.IsActive(t) && rid in w.db.txns[t].writeSet && WorldNext(w, step).db.IsActive(t)
    ensures var w' := WorldNext(w, step);
            && rid in w'.db.txns[t].writeSet && w'.db.txns[t].writeSet[rid] == w.db.txns[t].writeSet[rid]
            && Find(w'.origin, (t, rid)) == Find(w.origin, (t, rid))
  {
    WriteSetStays(w.db, step, t, rid);
    if step.Write? && step.txn == t && step.rid == rid {
      assert Writer(w.db, rid) == Some(t) && w.db.slots[rid].ts == t;
    }
  }

  lemma WriteSetStays(db: Db, step: Step, t: nat, rid: RecordId)
    requires Enabled(db, step) && step != Restore(rid) && t in db.txns && t < db.nextTxnId && rid in db.txns[t].writeSet
    ensures t in Next(db, step).txns && rid in Next(db, step).txns[t].writeSet
    ensures Next(db, step).txns[t].writeSet[rid] == db.txns[t].writeSet[rid]
  {
    if step.Insert? || step.Write? || step.Restore? {
      assert Next(db, step).txns[t].writeSet == db.txns[t].writeSet || RecordWritten(db, step, t);
    } else {
      OnlyWritesChangeWriteSets(db, step, t);
    }
  }

  predicate RecordWritten(db: Db, step: Step, t: nat)
    requires Enabled(db, step) && t in db.txns
  {
    match step
    case Insert(u, r, _) => u == t && Next(db, step).txns[t] == RecordWrite(db.txns[t], r, false)
    case Write(u, r, _) =>
        u == t && !Refused(db, t, r) && Next(db, step).txns[t] == RecordWrite(db.txns[t], r, db.slots[r].ts != t)
    case Restore(r) => db.latch.txn == t && Next(db, step).txns[t].writeSet == db.txns[t].writeSet - {r}
    case _ => false
  }

  lemma OnlyWritesChangeWriteSets(db: Db, step: Step, t: nat)
    requires Enabled(db, step) && t in db.txns && t < db.nextTxnId && !step.Insert? && !step.Write? && !step.Restore?
    ensures t in Next(db, step).txns && Next(db, step).txns[t].writeSet == db.txns[t].writeSet
  {
    if step.Stamp? || step.Unstamp? || step.GcSlot? {
      SlotStepsKeepTxns(db, step);
    } else if step.Fail? || step.StartAbort? || step.EndFailedCommit? {
      TaintKeepsWriteSets(db, step, t);
    }
  }

  lemma SlotStepsKeepTxns(db: Db, step: Step)
    requires Enabled(db, step) && (step.Stamp? || step.Unstamp? || step.GcSlot?)
    ensures Next(db, step).txns == db.txns
  {}

  lemma TaintKeepsWriteSets(db: Db, step: Step, t: nat)
    requires Enabled(db, step) && t in db.txns && (step.Fail? || step.StartAbort? || step.EndFailedCommit?)
    ensures t in Next(db, step).txns && Next(db, step).txns[t].writeSet == db.txns[t].writeSet
  {}

  predicate KeepsTxns(step: Step) {
    step.StartCommit? || step.Stamp? || step.StampFails? || step.Unstamp? || step.AbortFails? || step.Pause?
    || step.Resume? || step.StartGc? || step.GcSlot?
  }

  lemma TxnsKept(db: Db, step: Step)
    requires Enabled(db, step) && KeepsTxns(step)
    ensures Next(db, step).txns == db.txns
    ensures Next(db, step).latch == db.latch || (!Next(db, step).latch.Published? && !db.latch.Published?)
  {}
}
