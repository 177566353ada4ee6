/** The whole database over crashes: the transaction manager writing through a buffer pool into the
    write-ahead log, and the rollback that follows a reopen. A crash may come at any step, inside
    a checkpoint, inside recovery and inside the rollback included. */
module Recovery {
  import opened Base
  import opened WalLog
  import M = Mvcc
  import S = Snapshot
  import W = WalMachine

  // ---------------------------------------------------------------- pages

  /** The page that holds the transaction clocks. */
  const META: nat := 0

  datatype Clocks = Clocks(last: nat, next: nat)

  datatype Image = Table(slots: map<RecordId, Version>) | Meta(clocks: Clocks)

  type Pages = map<nat, Image>
  type Heap = map<RecordId, Version>
  type Rows = map<RecordId, S.Row>
  type Undos = map<nat, map<RecordId, Version>>

  function SlotOn(pages: Pages, rid: RecordId): Option<Version> {
    if rid.pageId in pages && pages[rid.pageId].Table? then Find(pages[rid.pageId].slots, rid) else None
  }

  function HeapOf(pages: Pages): (heap: Heap)
    ensures forall rid :: Find(heap, rid) == SlotOn(pages, rid)
  {
    var rids := set p, rid | p in pages && pages[p].Table? && rid in pages[p].slots && rid.pageId == p :: rid;
    map rid | rid in rids :: pages[rid.pageId].slots[rid]
  }

  function ClocksIn(pages: Pages): Clocks {
    if META in pages && pages[META].Meta? then pages[META].clocks else Clocks(0, 0)
  }

  /** What is in memory for page `p`. */
  function PageImage(heap: Heap, clocks: Clocks, p: nat): Image {
    if p == META then Meta(clocks) else Table(map rid | rid in heap && rid.pageId == p :: heap[rid])
  }

  // ---------------------------------------------------------------- rolling back

  /** A recovered slot once the unfinished transactions are rolled back. */
  function Undone(v: Version, rid: RecordId, unfinished: Undos): Version {
    if v.ts !in unfinished then v
    else if rid in unfinished[v.ts] then unfinished[v.ts][rid]
    else Version(0, true, v.data)
  }

  predicate Stamped(heap: Heap, unfinished: Undos) { exists rid :: rid in heap && heap[rid].ts in unfinished }

  function RowsOf(heap: Heap): Rows {
    map rid | rid in heap && !heap[rid].deleted :: S.Row(heap[rid].ts, heap[rid].data)
  }

  /** The next transaction id: past the persisted one and past every unfinished transaction. */
  function NextId(next: nat, ids: set<nat>): (n: nat)
    ensures next <= n && forall t :: t in ids ==> t < n
  {
    if ids == {} then next
    else
      MaxExists(ids);
      var m :| m in ids && forall t :: t in ids ==> t <= m;
      if m + 1 > next then m + 1 else next
  }

  lemma {:induction false} MaxExists(ids: set<nat>)
    requires ids != {}
    ensures exists m :: m in ids && forall t :: t in ids ==> t <= m
  {
    var t :| t in ids;
    if exists u :: u in ids && u > t {
      var u :| u in ids && u > t;
      var rest := ids - {t};
      assert u in rest;
      MaxExists(rest);
      assert forall v :: v in ids ==> v == t || v in rest;
    }
  }

  // ---------------------------------------------------------------- the system

  /** `Rolling` is a reopened database that still rolls back `unfinished`, as found at durable
      point `point`. `Running` has opened when the log was `since` records long; `logged` are the
      transactions that have logged their first write, and `todo` the pages a checkpoint still has
      to flush before its durable point. */
  datatype Mode =
    | Rolling(heap: Heap, unfinished: Undos, point: nat)
    | Running(mvcc: S.World, logged: set<nat>, todo: Option<set<nat>>, since: nat)
  {
    function Slots(): Heap { if Rolling? then heap else mvcc.db.slots }
  }

  /** `promised` holds, for each durable point of the log, the rows committed when it was made. */
  datatype Sys = Sys(mode: Mode, wal: W.World<Image>, clocks: Clocks, dirty: set<nat>, promised: map<nat, Rows>)
  {
    function Logged(): Pages { wal.base + PagesOf(wal.all) }

    function Undos(): Undos { Unfinished(wal.all) }
  }

  /** A transaction step may come between any two others. `LogUndo` logs the version a first
      overwrite is about to replace; the overwrite itself comes later or, if the new version does
      not fit, never. `LogPage` is an eviction or a flush. */
  datatype Step =
    | Db(step: M.Step)
    | LogWrites(txn: nat)
    | LogUndo(txn: nat, rid: RecordId)
    | LogPage(page: nat)
    | StartFlush
    | MakeDurable(ok: bool)
    | Wal(inner: W.Step<Image>)
    | Crash(toOld: bool, kept: nat, garbage: Pages)
    | RollBack(rid: RecordId)
    | LogEnd(txn: nat)
    | Open

  predicate FirstWrite(db: M.Db, step: M.Step) {
    step.Write? && step.txn in db.txns && !M.Refused(db, step.txn, step.rid) && db.slots[step.rid].ts != step.txn
  }

  /** The transaction whose outcome `step` completes. */
  predicate Ends(db: M.Db, step: M.Step, logged: set<nat>) {
    (step.EndCommit? || step.EndAbort?) && M.Enabled(db, step) && db.latch.txn in logged
  }

  predicate Internal(step: W.Step<Image>) {
    !step.LogTxn? && !step.LogPage? && !step.DurablePoint? && !step.Crash?
  }

  /** A transaction logs that it writes before its first write, and logs each version before it
      first overwrites it. One that has logged a write and wrote nothing has failed, so it cannot
      commit. */
  predicate DbEnabled(s: Sys, step: M.Step)
    requires s.mode.Running?
  {
    var db := s.mode.mvcc.db;
    && M.Enabled(db, step)
    && (step.Insert? ==> step.txn in s.mode.logged && step.rid.pageId != META)
    && (step.Write? && !M.Refused(db, step.txn, step.rid) ==> step.txn in s.mode.logged)
    && (FirstWrite(db, step) ==> step.rid in ImagesOf(s.Undos(), step.txn))
    && (step.CommitReadOnly? ==> step.txn !in s.mode.logged)
    && (Ends(db, step, s.mode.logged) ==> W.Enabled(s.wal.wal, W.LogTxn(End(db.latch.txn))))
  }

  predicate Enabled(s: Sys, step: Step) {
    var wal := s.wal.wal;
    match step
    case Db(inner) => s.mode.Running? && DbEnabled(s, inner)
    case LogWrites(t) =>
      s.mode.Running? && s.mode.mvcc.db.CanWork(t) && t !in s.mode.logged && W.Enabled(wal, W.LogTxn(Writes(t)))
    case LogUndo(t, rid) =>
      && s.mode.Running? && s.mode.mvcc.db.CanWork(t) && t in s.mode.logged && !M.Refused(s.mode.mvcc.db, t, rid)
      && s.mode.mvcc.db.slots[rid].ts != t && W.Enabled(wal, W.LogTxn(Undo(t, rid, s.mode.mvcc.db.slots[rid])))
    case LogPage(p) => p in s.dirty && W.Enabled(wal, W.LogPage(p, PageImage(s.mode.Slots(), s.clocks, p)))
    case StartFlush => s.mode.Running? && s.mode.mvcc.db.latch.Paused? && s.mode.todo.None?
    case MakeDurable(ok) => s.mode.Running? && s.mode.todo == Some({}) && W.Enabled(wal, W.DurablePoint(ok))
    case Wal(inner) => Internal(inner) && W.Enabled(wal, inner)
    case Crash(toOld, kept, garbage) => W.Enabled(wal, W.Crash(toOld, kept, garbage))
    case RollBack(rid) => s.mode.Rolling? && rid in s.mode.heap && s.mode.heap[rid].ts in s.mode.unfinished
    case LogEnd(t) =>
      s.mode.Rolling? && !Stamped(s.mode.heap, s.mode.unfinished) && t in s.Undos() && W.Enabled(wal, W.LogTxn(End(t)))
    case Open => s.mode.Rolling? && !Stamped(s.mode.heap, s.mode.unfinished) && s.Undos() == map[]
  }

  /** The slot a transaction step overwrites. */
  function Touched(db: M.Db, step: M.Step): Option<RecordId> {
    match step
    case Insert(_, rid, _) => Some(rid)
    case Write(t, rid, _) => if t in db.txns && !M.Refused(db, t, rid) then Some(rid) else None
    case Stamp(rid) => Some(rid)
    case Unstamp(rid) => Some(rid)
    case Restore(rid) => Some(rid)
    case _ => None
  }

  function Logging(s: Sys, r: TxnRecord): W.World<Image>
    requires W.Enabled(s.wal.wal, W.LogTxn(r))
  {
    W.WorldNext(s.wal, W.LogTxn(r))
  }

  /** The rows committed now. */
  function RowsNow(w: S.World): Rows {
    map rid | rid in w.db.slots && Now(w, rid).Some? :: Now(w, rid).value
  }

  function Now(w: S.World, rid: RecordId): Option<S.Row> {
    S.SnapshotAt(w.spec.base, w.spec.history, w.db.lastCommitTs, rid)
  }

  /** A manager resumed over a heap. */
  function Resumed(heap: Heap, clocks: Clocks, unfinished: set<nat>): S.World {
    S.World(M.Db(heap, map[], map[], multiset{}, clocks.last, NextId(clocks.next, unfinished), M.Free, {clocks.last}),
            S.Spec(RowsOf(heap), [], map[]), map[])
  }

  function Reopened(s: Sys, wal: W.World<Image>): Sys {
    var pages := W.RecoveredPages(wal.wal.log, wal.wal.data);
    Sys(Rolling(HeapOf(pages), Unfinished(DurablePart(wal.wal.log)), |wal.all|), wal, ClocksIn(pages), {},
        map d | d in s.promised && d <= |wal.all| :: s.promised[d])
  }

  function DbNext(s: Sys, step: M.Step): Sys
    requires s.mode.Running? && DbEnabled(s, step)
  {
    var m := s.mode;
    var touched := Touched(m.mvcc.db, step);
    s.(mode := Running(S.WorldNext(m.mvcc, step), m.logged, if step.Resume? then None else m.todo, m.since),
       wal := if Ends(m.mvcc.db, step, m.logged) then Logging(s, End(m.mvcc.db.latch.txn)) else s.wal,
       dirty := if touched.Some? then s.dirty + {touched.value.pageId} else s.dirty)
  }

  function Next(s: Sys, step: Step): Sys
    requires Enabled(s, step)
  {
    var m := s.mode;
    match step
    case Db(inner) => DbNext(s, inner)
    case LogWrites(t) => s.(wal := Logging(s, Writes(t)), mode := Running(m.mvcc, m.logged + {t}, m.todo, m.since))
    case LogUndo(t, rid) => s.(wal := Logging(s, Undo(t, rid, m.mvcc.db.slots[rid])))
    case LogPage(p) =>
      s.(wal := W.WorldNext(s.wal, W.LogPage(p, PageImage(m.Slots(), s.clocks, p))), dirty := s.dirty - {p},
         mode := if m.Running? && m.todo.Some? then Running(m.mvcc, m.logged, Some(m.todo.value - {p}), m.since) else m)
    case StartFlush =>
      var clocks := Clocks(m.mvcc.db.lastCommitTs, m.mvcc.db.nextTxnId);
      var dirty := if clocks == s.clocks then s.dirty else s.dirty + {META};
      s.(clocks := clocks, dirty := dirty, mode := Running(m.mvcc, m.logged, Some(dirty), m.since))
    case MakeDurable(ok) =>
      s.(wal := W.WorldNext(s.wal, W.DurablePoint(ok)), promised := s.promised[|s.wal.all| + 1 := RowsNow(m.mvcc)])
    case Wal(inner) => s.(wal := W.WorldNext(s.wal, inner))
    case Crash(toOld, kept, garbage) => Reopened(s, W.WorldNext(s.wal, W.Crash(toOld, kept, garbage)))
    case RollBack(rid) =>
        s.(mode := Rolling(m.heap[rid := Undone(m.heap[rid], rid, m.unfinished)], m.unfinished, m.point),
        dirty := s.dirty + {rid.pageId})
    case LogEnd(t) => s.(wal := Logging(s, End(t)))
    case Open => s.(mode := Running(Resumed(m.heap, s.clocks, m.unfinished.Keys), {}, None, |s.wal.all|))
  }

  function Run(s: Sys, steps: seq<Step>): Option<Sys> {
    if steps == [] then Some(s)
    else
      var before := Run(s, Base.Init(steps));
      if before.Some? && Enabled(before.value, Last(steps)) then Some(Next(before.value, Last(steps))) else None
  }

  // ---------------------------------------------------------------- what a durable point holds

  /** Rolling back a slot found as `v` leaves a committed version, whose live row is `row`. */
  predicate RecoversTo(v: Option<Version>, rid: RecordId, unfinished: Undos, last: nat, row: Option<S.Row>) {
    if v.None? then row.None?
    else Undone(v.value, rid, unfinished).ts <= last && S.LiveRow(Some(Undone(v.value, rid, unfinished))) == row
  }

  predicate ClocksOk(clocks: Clocks) { clocks.last < M.TXN_START_ID <= clocks.next }

  /** Pages and unfinished transactions that recover to exactly `rows`. */
  ghost predicate Recovers(pages: Pages, unfinished: Undos, rows: Rows) {
    && META in pages && pages[META].Meta? && ClocksOk(pages[META].clocks)
    && (forall t :: t in unfinished ==> M.IsTxnId(t))
    && (forall rid :: RecoversTo(SlotOn(pages, rid), rid, unfinished, pages[META].clocks.last, Find(rows, rid)))
  }

  /** A database at rest in its data file. */
  function Start(data: Pages, rows: Rows): Sys {
    Sys(Rolling(HeapOf(data), map[], 0), W.Start(data), ClocksIn(data), {}, map[0 := rows])
  }

  // ---------------------------------------------------------------- the invariant

  ghost predicate PointOk(wal: W.World<Image>, promised: map<nat, Rows>, d: nat)
    requires d in promised
  {
    d <= |wal.all| && Recovers(wal.base + PagesOf(wal.all[..d]), Unfinished(wal.all[..d]), promised[d])
  }

  /** Every durable point recovers to the rows promised for it. */
  ghost predicate PointsOk(wal: W.World<Image>, promised: map<nat, Rows>) {
    && 0 in promised
    && (forall d :: d in promised ==> PointOk(wal, promised, d))
    && (forall i :: 0 <= i < |wal.all| && wal.all[i] == Durable ==> i + 1 in promised)
  }

  /** A page that is not dirty reads back from the log as it is in memory. */
  ghost predicate CleanOk(heap: Heap, clocks: Clocks, dirty: set<nat>, logged: Pages) {
    && (forall rid: RecordId :: rid.pageId !in dirty ==> SlotOn(logged, rid) == Find(heap, rid))
    && (META !in dirty ==> Find(logged, META) == Some(Meta(clocks)))
    && (forall rid :: rid in heap ==> rid.pageId != META)
  }

  /** An undo image is the version its transaction's snapshot holds. */
  predicate ImageOk(spec: S.Spec, readTs: nat, rid: RecordId, image: Version) {
    !image.deleted && S.SnapshotAt(spec.base, spec.history, readTs, rid) == Some(S.Row(image.ts, image.data))
  }

  /** The unfinished transactions of the log are the ones that wrote and are not done, and each has
      logged an image of every version it overwrote. */
  ghost predicate TxnsOk(w: S.World, logged: set<nat>, undos: Undos) {
    && logged <= w.db.txns.Keys
    && (forall t :: t in undos ==> t in logged && S.Registered(w.db, t))
    && (forall t :: t in logged && S.Registered(w.db, t) ==> t in undos)
    && (forall t :: t in w.db.txns && w.db.txns[t].Active() && w.db.txns[t].writeSet != map[] ==> t in logged)
  }

  ghost predicate ImagesOk(w: S.World, undos: Undos) {
    forall t, rid :: t in undos && rid in undos[t] ==>
        t in w.db.txns && ImageOk(w.spec, w.db.txns[t].readTs, rid, undos[t][rid])
  }

  ghost predicate OverwritesLogged(w: S.World, undos: Undos) {
    forall t, rid ::
        t in w.db.txns && w.db.txns[t].Active() && rid in w.db.txns[t].writeSet && w.db.txns[t].writeSet[rid] ==>
      rid in ImagesOf(undos, t)
  }

  /** While a checkpoint flushes, every page it is done with recovers to what is committed. */
  ghost predicate FlushOk(w: S.World, todo: Option<set<nat>>, clocks: Clocks, logged: Pages, undos: Undos) {
    todo.Some? ==>
      && w.db.latch.Paused? && clocks.last == w.db.lastCommitTs && clocks.next >= M.TXN_START_ID
      && (META !in todo.value ==> Find(logged, META) == Some(Meta(clocks)))
      && (forall rid: RecordId :: rid.pageId !in todo.value ==>
          RecoversTo(SlotOn(logged, rid), rid, undos, clocks.last, Now(w, rid)))
  }

  ghost predicate RunningOk(w: S.World, logged: set<nat>, todo: Option<set<nat>>, clocks: Clocks, pages: Pages,
                            undos: Undos) {
    S.Inv(w) && TxnsOk(w, logged, undos) && ImagesOk(w, undos) && OverwritesLogged(w, undos)
        && FlushOk(w, todo, clocks, pages, undos)
  }

  /** A rollback in progress: no durable point has been made since the one it started from, and
      each slot, rolled back or not yet, is on its way to the row promised there. */
  ghost predicate RollingOk(s: Sys)
    requires s.mode.Rolling?
  {
    var m := s.mode;
    && m.point in s.promised && m.point == s.wal.acked <= |s.wal.all|
    && (forall i :: m.point <= i < |s.wal.all| ==> s.wal.all[i] != Durable)
    && m.unfinished == Unfinished(s.wal.all[..m.point])
    && ClocksOk(s.clocks) && (forall t :: t in m.unfinished ==> M.IsTxnId(t))
    && (forall rid :: RecoversTo(Find(m.heap, rid), rid, m.unfinished, s.clocks.last, Find(s.promised[m.point], rid)))
  }

  ghost predicate SysOk(s: Sys) {
    && PointsOk(s.wal, s.promised) && CleanOk(s.mode.Slots(), s.clocks, s.dirty, s.Logged())
    && (s.mode.Rolling? ==> RollingOk(s))
    && (s.mode.Running? ==> RunningOk(s.mode.mvcc, s.mode.logged, s.mode.todo, s.clocks, s.Logged(), s.Undos()))
  }

  ghost predicate Inv(s: Sys) { W.Inv(s.wal) && SysOk(s) }

  // ---------------------------------------------------------------- pages in the log

  lemma LogPageSlots(logged: Pages, heap: Heap, clocks: Clocks, p: nat, rid: RecordId)
    requires rid in heap ==> rid.pageId != META
    ensures SlotOn(logged[p := PageImage(heap, clocks, p)], rid) == if rid.pageId == p then Find(heap, rid)
            else SlotOn(logged, rid)
  {
  }

  lemma LogPageClean(heap: Heap, clocks: Clocks, dirty: set<nat>, logged: Pages, p: nat)
    requires CleanOk(heap, clocks, dirty, logged)
    ensures CleanOk(heap, clocks, dirty - {p}, logged[p := PageImage(heap, clocks, p)])
  {
    forall rid: RecordId | rid.pageId !in dirty - {p}
      ensures SlotOn(logged[p := PageImage(heap, clocks, p)], rid) == Find(heap, rid) {
      LogPageSlots(logged, heap, clocks, p, rid);
    }
  }

  /** Appending a record: what it does to the pages, the unfinished transactions and the points. */
  lemma Appended(w: W.World<Image>, w': W.World<Image>, r: Record<Image>)
    requires w'.base == w.base && w'.all == w.all + [r]
    ensures w'.base + PagesOf(w'.all) == if r.Page? then (w.base + PagesOf(w.all))[r.id := r.image]
            else w.base + PagesOf(w.all)
    ensures !r.Txn? ==> Unfinished(w'.all) == Unfinished(w.all)
  {
    assert Base.Init(w'.all) == w.all;
  }

  lemma PointsStay(w: W.World<Image>, w': W.World<Image>, promised: map<nat, Rows>)
    requires PointsOk(w, promised) && w'.base == w.base && w.all <= w'.all
    requires forall i :: |w.all| <= i < |w'.all| ==> w'.all[i] != Durable
    ensures PointsOk(w', promised)
  {
    forall d | d in promised ensures PointOk(w', promised, d) {
      assert PointOk(w, promised, d);
      assert w'.all[..d] == w.all[..d];
    }
  }

  lemma PointsGrow(w: W.World<Image>, w': W.World<Image>, promised: map<nat, Rows>, rows: Rows)
    requires PointsOk(w, promised) && w'.base == w.base && w'.all == w.all + [Durable]
    requires Recovers(w.base + PagesOf(w.all), Unfinished(w.all), rows)
    ensures PointsOk(w', promised[|w'.all| := rows])
  {
    var now := promised[|w'.all| := rows];
    Appended(w, w', Durable);
    forall d | d in now ensures PointOk(w', now, d) {
      if d == |w'.all| {
        assert w'.all[..d] == w'.all;
      } else {
        assert PointOk(w, promised, d);
        assert w'.all[..d] == w.all[..d];
      }
    }
  }

  lemma PointsCut(w: W.World<Image>, w': W.World<Image>, promised: map<nat, Rows>)
    requires PointsOk(w, promised) && w'.base == w.base && w'.all <= w.all
    ensures PointsOk(w', map d | d in promised && d <= |w'.all| :: promised[d])
  {
    var now := map d | d in promised && d <= |w'.all| :: promised[d];
    forall d | d in now ensures PointOk(w', now, d) {
      assert PointOk(w, promised, d);
      assert w'.all[..d] == w.all[..d];
    }
  }

  // ---------------------------------------------------------------- what memory recovers to

  /** With no commit or abort under way, rolling back the slots in memory leaves exactly what is
      committed. */
  lemma MemoryRecovers(w: S.World, logged: set<nat>, undos: Undos, rid: RecordId)
    requires S.Inv(w) && TxnsOk(w, logged, undos) && ImagesOk(w, undos) && OverwritesLogged(w, undos)
             && w.db.latch.Paused?
    ensures RecoversTo(Find(w.db.slots, rid), rid, undos, w.db.lastCommitTs, Now(w, rid))
  {
    assert S.RecordOk(w, rid);
    assert S.Protected(w.db, w.db.lastCommitTs);
    if rid in w.db.slots && w.db.slots[rid].ts > w.db.lastCommitTs {
      var t := w.db.slots[rid].ts;
      assert S.Writer(w.db, rid) == Some(t);
      assert S.Protected(w.db, w.db.txns[t].readTs);
      PendingRecovers(w, logged, undos, rid);
    }
  }

  lemma PendingRecovers(w: S.World, logged: set<nat>, undos: Undos, rid: RecordId)
    requires TxnsOk(w, logged, undos) && ImagesOk(w, undos) && OverwritesLogged(w, undos) && S.ClocksOk(w.db)
    requires S.Writer(w.db, rid).Some? && S.OwnerOk(w.db, rid) && S.WriteOk(w, rid) && S.SnapshotsOk(w, rid)
    requires var t := S.Writer(w.db, rid).value; w.db.slots[rid].ts == t && S.Protected(w.db, w.db.txns[t].readTs)
    requires S.Protected(w.db, w.db.lastCommitTs)
    ensures RecoversTo(Find(w.db.slots, rid), rid, undos, w.db.lastCommitTs, Now(w, rid))
  {
    var t := S.Writer(w.db, rid).value;
    assert t in undos;
    if w.db.txns[t].writeSet[rid] {
      assert rid in undos[t];
    }
  }

  // ---------------------------------------------------------------- flushing

  lemma StepLogPage(s: Sys, p: nat)
    requires SysOk(s) && Enabled(s, LogPage(p))
    ensures SysOk(Next(s, LogPage(p)))
  {
    var s' := Next(s, LogPage(p));
    var image := PageImage(s.mode.Slots(), s.clocks, p);
    PointsStay(s.wal, s'.wal, s.promised);
    Appended(s.wal, s'.wal, Page(p, image));
    LogPageClean(s.mode.Slots(), s.clocks, s.dirty, s.Logged(), p);
    assert CleanOk(s'.mode.Slots(), s'.clocks, s'.dirty, s'.Logged());
    if s.mode.Rolling? {
      RollingStays(s, s');
    } else {
      FlushOne(s.mode.mvcc, s.mode.logged, s.mode.todo, s.clocks, s.Logged(), s.Undos(), p);
    }
  }

  lemma RollingStays(s: Sys, s': Sys)
    requires s.mode.Rolling? && RollingOk(s) && s'.mode == s.mode && s'.clocks == s.clocks && s'.promised == s.promised
    requires s.wal.all <= s'.wal.all && s'.wal.acked == s.wal.acked
    requires forall i :: |s.wal.all| <= i < |s'.wal.all| ==> s'.wal.all[i] != Durable
    ensures RollingOk(s')
  {
    assert s'.wal.all[..s.mode.point] == s.wal.all[..s.mode.point];
  }

  lemma FlushOne(w: S.World, logged: set<nat>, todo: Option<set<nat>>, clocks: Clocks, pages: Pages, undos: Undos,
                 p: nat)
    requires RunningOk(w, logged, todo, clocks, pages, undos) && forall rid :: rid in w.db.slots ==> rid.pageId != META
    ensures var todo' := if todo.Some? then Some(todo.value - {p}) else None;
            RunningOk(w, logged, todo', clocks, pages[p := PageImage(w.db.slots, clocks, p)], undos)
  {
    if todo.Some? {
      var pages' := pages[p := PageImage(w.db.slots, clocks, p)];
      forall rid: RecordId | rid.pageId !in todo.value - {p}
        ensures RecoversTo(SlotOn(pages', rid), rid, undos, clocks.last, Now(w, rid))
      {
        LogPageSlots(pages, w.db.slots, clocks, p, rid);
        if rid.pageId == p {
          MemoryRecovers(w, logged, undos, rid);
        }
      }
    }
  }

  lemma StepStartFlush(s: Sys)
    requires SysOk(s) && Enabled(s, StartFlush)
    ensures SysOk(Next(s, StartFlush))
  {
    var s', w := Next(s, StartFlush), s.mode.mvcc;
    forall rid: RecordId | rid.pageId !in s'.mode.todo.value
      ensures RecoversTo(SlotOn(s.Logged(), rid), rid, s.Undos(), s'.clocks.last, Now(w, rid))
    {
      assert rid.pageId !in s.dirty;
      MemoryRecovers(w, s.mode.logged, s.Undos(), rid);
    }
    assert CleanOk(s'.mode.Slots(), s'.clocks, s'.dirty, s'.Logged());
  }

  lemma CommittedRowsAreInSlots(w: S.World, rid: RecordId)
    requires S.Inv(w)
    ensures Find(RowsNow(w), rid) == Now(w, rid)
  {
    assert S.RecordOk(w, rid);
    assert S.Protected(w.db, w.db.lastCommitTs);
  }

  lemma StepMakeDurable(s: Sys, ok: bool)
    requires SysOk(s) && Enabled(s, MakeDurable(ok))
    ensures SysOk(Next(s, MakeDurable(ok)))
  {
    var s' := Next(s, MakeDurable(ok));
    FlushedRecovers(s.mode.mvcc, s.mode.logged, s.clocks, s.Logged(), s.Undos());
    Appended(s.wal, s'.wal, Durable);
    PointsGrow(s.wal, s'.wal, s.promised, RowsNow(s.mode.mvcc));
  }

  lemma FlushedRecovers(w: S.World, logged: set<nat>, clocks: Clocks, pages: Pages, undos: Undos)
    requires RunningOk(w, logged, Some({}), clocks, pages, undos)
    ensures Recovers(pages, undos, RowsNow(w))
  {
    forall rid ensures RecoversTo(SlotOn(pages, rid), rid, undos, clocks.last, Find(RowsNow(w), rid)) {
      CommittedRowsAreInSlots(w, rid);
    }
  }

  // ---------------------------------------------------------------- the log's own steps, crashes and rollback

  lemma StepWal(s: Sys, inner: W.Step<Image>)
    requires SysOk(s) && Enabled(s, Wal(inner))
    ensures SysOk(Next(s, Wal(inner)))
  {
    var s' := Next(s, Wal(inner));
    assert s'.wal.all == s.wal.all && s'.wal.base == s.wal.base && s'.wal.acked == s.wal.acked;
    PointsStay(s.wal, s'.wal, s.promised);
    if s.mode.Rolling? {
      RollingStays(s, s');
    }
  }

  lemma ReopenedOk(wal: W.World<Image>, promised: map<nat, Rows>)
    requires PointsOk(wal, promised) && LastDurable(wal.all) == |wal.all| == wal.acked
    requires W.RecoveredPages(wal.wal.log, wal.wal.data) == wal.base + PagesOf(wal.all)
    requires Unfinished(DurablePart(wal.wal.log)) == Unfinished(wal.all)
    ensures var pages := W.RecoveredPages(wal.wal.log, wal.wal.data);
            SysOk(Sys(Rolling(HeapOf(pages), Unfinished(DurablePart(wal.wal.log)), |wal.all|), wal, ClocksIn(pages),
                {}, promised))
  {
    var pages, d := wal.base + PagesOf(wal.all), |wal.all|;
    assert d in promised;
    assert PointOk(wal, promised, d);
    assert wal.all[..d] == wal.all;
    var heap := HeapOf(pages);
    forall rid ensures Find(heap, rid) == SlotOn(pages, rid) {}
    forall rid | rid in heap ensures rid.pageId != META { assert Find(heap, rid) == SlotOn(pages, rid); }
  }

  lemma StepCrash(s: Sys, toOld: bool, kept: nat, garbage: Pages)
    requires Inv(s) && Enabled(s, Crash(toOld, kept, garbage))
    ensures SysOk(Next(s, Crash(toOld, kept, garbage)))
    ensures PointKept(s, Next(s, Crash(toOld, kept, garbage)))
  {
    var wal := W.WorldNext(s.wal, W.Crash(toOld, kept, garbage));
    W.CrashFacts(s.wal, toOld, kept, garbage);
    PointsCut(s.wal, wal, s.promised);
    ReopenedOk(wal, map d | d in s.promised && d <= |wal.all| :: s.promised[d]);
  }

  /** What is left of `s` after a crash is one of its durable points. */
  ghost predicate PointKept(s: Sys, s': Sys) {
    && s'.mode.Rolling? && s'.wal.all <= s.wal.all && |s'.wal.all| == s'.mode.point
    && LastDurable(s'.wal.all) == |s'.wal.all|
    && s.wal.acked <= s'.mode.point && s'.mode.point in s.promised && s'.mode.point in s'.promised
    && s'.promised[s'.mode.point] == s.promised[s'.mode.point]
  }

  lemma StepRollBack(s: Sys, rid: RecordId)
    requires SysOk(s) && Enabled(s, RollBack(rid))
    ensures SysOk(Next(s, RollBack(rid)))
  {
    var s', m := Next(s, RollBack(rid)), s.mode;
    forall r ensures RecoversTo(Find(s'.mode.heap, r), r, m.unfinished, s.clocks.last, Find(s.promised[m.point], r)) {
      assert RecoversTo(Find(m.heap, r), r, m.unfinished, s.clocks.last, Find(s.promised[m.point], r));
      if r == rid {
        UndoneOnce(m.heap[rid], rid, m.unfinished, s.clocks.last);
      }
    }
    assert RollingOk(s');
    assert CleanOk(s'.mode.Slots(), s'.clocks, s'.dirty, s'.Logged());
  }

  /** Rolling a slot back twice is rolling it back once. */
  lemma UndoneOnce(v: Version, rid: RecordId, unfinished: Undos, last: nat)
    requires Undone(v, rid, unfinished).ts <= last < M.TXN_START_ID && forall t :: t in unfinished ==> M.IsTxnId(t)
    ensures Undone(Undone(v, rid, unfinished), rid, unfinished) == Undone(v, rid, unfinished)
  {
  }

  lemma StepLogEnd(s: Sys, t: nat)
    requires SysOk(s) && Enabled(s, LogEnd(t))
    ensures SysOk(Next(s, LogEnd(t)))
  {
    var s' := Next(s, LogEnd(t));
    PointsStay(s.wal, s'.wal, s.promised);
    Appended(s.wal, s'.wal, Txn(End(t)));
    RollingStays(s, s');
  }

  /** What `Open` starts from is exactly what was promised. */
  lemma RolledBack(s: Sys)
    requires s.mode.Rolling? && RollingOk(s) && !Stamped(s.mode.heap, s.mode.unfinished)
    ensures RowsOf(s.mode.heap) == s.promised[s.mode.point]
    ensures forall rid :: rid in s.mode.heap ==> s.mode.heap[rid].ts <= s.clocks.last
  {
    var heap, rows := s.mode.heap, s.promised[s.mode.point];
    forall rid ensures Find(RowsOf(heap), rid) == Find(rows, rid) && (rid in heap ==> heap[rid].ts <= s.clocks.last) {
      assert RecoversTo(Find(heap, rid), rid, s.mode.unfinished, s.clocks.last, Find(rows, rid));
    }
    W.SameFinds(RowsOf(heap), rows);
  }

  lemma StepOpen(s: Sys)
    requires SysOk(s) && Enabled(s, Open)
    ensures SysOk(Next(s, Open)) && S.Start(Next(s, Open).mode.mvcc)
  {
    RolledBack(s);
    S.StartInv(Next(s, Open).mode.mvcc);
  }

  // ---------------------------------------------------------------- logging by transactions

  lemma Undone1(w: W.World<Image>, r: TxnRecord)
    ensures Unfinished(w.all + [Txn(r)]) == match r
              case Writes(t) => if t in Unfinished(w.all) then Unfinished(w.all) else Unfinished(w.all)[t := map[]]
              case Undo(t, rid, v) =>
                var images := ImagesOf(Unfinished(w.all), t);
                Unfinished(w.all)[t := if rid in images then images else images[rid := v]]
              case End(t) => Unfinished(w.all) - {t}
  {
    assert Base.Init(w.all + [Txn(r)]) == w.all;
  }

  lemma LogWritesOk(w: S.World, logged: set<nat>, todo: Option<set<nat>>, clocks: Clocks, pages: Pages, undos: Undos,
                    t: nat)
    requires RunningOk(w, logged, todo, clocks, pages, undos) && w.db.CanWork(t) && t !in logged
    ensures RunningOk(w, logged + {t}, todo, clocks, pages, if t in undos then undos else undos[t := map[]])
  {
    var undos' := undos[t := map[]];
    if todo.Some? {
      forall rid: RecordId | rid.pageId !in todo.value
        ensures RecoversTo(SlotOn(pages, rid), rid, undos', clocks.last, Now(w, rid)) {
        assert RecoversTo(SlotOn(pages, rid), rid, undos, clocks.last, Now(w, rid));
      }
    }
  }

  /** The version a transaction is allowed to overwrite is the one its snapshot holds, and the
      newest committed one. */
  lemma OverwritesItsSnapshot(w: S.World, t: nat, rid: RecordId)
    requires S.Inv(w) && w.db.CanWork(t) && !M.Refused(w.db, t, rid) && w.db.slots[rid].ts != t
    ensures ImageOk(w.spec, w.db.txns[t].readTs, rid, w.db.slots[rid])
    ensures Now(w, rid) == Some(S.Row(w.db.slots[rid].ts, w.db.slots[rid].data))
  {
    assert S.RecordOk(w, rid);
    assert S.Registered(w.db, t);
    assert S.Protected(w.db, w.db.lastCommitTs) && S.Protected(w.db, w.db.txns[t].readTs);
  }

  lemma LogUndoOk(w: S.World, logged: set<nat>, todo: Option<set<nat>>, clocks: Clocks, pages: Pages, undos: Undos,
                  t: nat, rid: RecordId)
    requires RunningOk(w, logged, todo, clocks, pages, undos) && w.db.CanWork(t) && t in logged
    requires !M.Refused(w.db, t, rid) && w.db.slots[rid].ts != t
    ensures t in undos
    ensures RunningOk(w, logged, todo, clocks, pages, undos[t := if rid in undos[t] then undos[t]
            else undos[t][rid := w.db.slots[rid]]])
  {
    assert S.Registered(w.db, t);
    var undos' := undos[t := if rid in undos[t] then undos[t] else undos[t][rid := w.db.slots[rid]]];
    OverwritesItsSnapshot(w, t, rid);
    if todo.Some? {
      forall r: RecordId | r.pageId !in todo.value
        ensures RecoversTo(SlotOn(pages, r), r, undos', clocks.last, Now(w, r)) {
        assert RecoversTo(SlotOn(pages, r), r, undos, clocks.last, Now(w, r));
      }
    }
    assert FlushOk(w, todo, clocks, pages, undos');
    assert OverwritesLogged(w, undos');
  }

  lemma StepLogTxn(s: Sys, step: Step)
    requires SysOk(s) && Enabled(s, step) && (step.LogWrites? || step.LogUndo?)
    ensures SysOk(Next(s, step))
  {
    var s', m := Next(s, step), s.mode;
    var r := if step.LogWrites? then Writes(step.txn) else Undo(step.txn, step.rid, m.mvcc.db.slots[step.rid]);
    PointsStay(s.wal, s'.wal, s.promised);
    Appended(s.wal, s'.wal, Txn(r));
    Undone1(s.wal, r);
    if step.LogWrites? {
      LogWritesOk(m.mvcc, m.logged, m.todo, s.clocks, s.Logged(), s.Undos(), step.txn);
    } else {
      LogUndoOk(m.mvcc, m.logged, m.todo, s.clocks, s.Logged(), s.Undos(), step.txn, step.rid);
    }
  }

  // ---------------------------------------------------------------- transaction steps

  /** A step changes only the slot it touches. */
  lemma OnlyTouched(db: M.Db, step: M.Step, rid: RecordId)
    requires M.Enabled(db, step) && Touched(db, step) != Some(rid)
    ensures Find(M.Next(db, step).slots, rid) == Find(db.slots, rid)
  {}

  lemma TouchedClean(s: Sys, step: M.Step)
    requires s.mode.Running? && DbEnabled(s, step) && CleanOk(s.mode.Slots(), s.clocks, s.dirty, s.Logged())
    ensures CleanOk(M.Next(s.mode.mvcc.db, step).slots, s.clocks, DbNext(s, step).dirty, s.Logged())
  {
    var db, dirty := s.mode.mvcc.db, DbNext(s, step).dirty;
    var slots := M.Next(db, step).slots;
    forall rid: RecordId | rid.pageId !in dirty ensures SlotOn(s.Logged(), rid) == Find(slots, rid) {
      OnlyTouched(db, step, rid);
    }
    forall rid | rid in slots ensures rid.pageId != META {
      if Touched(db, step) != Some(rid) {
        OnlyTouched(db, step, rid);
        assert rid in db.slots;
      }
    }
  }

  /** The transactions a step ends: it takes their last record. */
  predicate Finishes(db: M.Db, step: M.Step, t: nat) {
    ((step.EndCommit? || step.EndAbort?) && M.Enabled(db, step) && db.latch.txn == t) || step == M.CommitReadOnly(t)
  }

  ghost predicate Continues(db: M.Db, step: M.Step, t: nat)
    requires M.Enabled(db, step) && t in db.txns
  {
    var db' := M.Next(db, step);
    && t in db'.txns && db'.txns[t].readTs == db.txns[t].readTs
    && (S.Registered(db', t) ==> S.Registered(db, t))
    && (S.Registered(db, t) && !Finishes(db, step, t) ==> S.Registered(db', t))
    && (Finishes(db, step, t) ==> !S.Registered(db', t))
    && (db'.txns[t].Active() ==> db.txns[t].Active())
  }

  predicate Outcome(step: M.Step) { step.CommitReadOnly? || step.Publish? || step.EndCommit? || step.EndAbort? }

  lemma OutcomesEnd(db: M.Db, step: M.Step, t: nat)
    requires M.Enabled(db, step) && S.ClocksOk(db) && S.LatchOk(db) && t in db.txns && Outcome(step)
    ensures Continues(db, step, t)
  {
    match step
    case CommitReadOnly(u) => ReadOnlyEnds(db, u, t);
    case Publish => PublishEnds(db, t);
    case EndCommit => CommitEnds(db, t);
    case _ => AbortEnds(db, t);
  }

  lemma ReadOnlyEnds(db: M.Db, u: nat, t: nat)
    requires M.Enabled(db, M.CommitReadOnly(u)) && S.ClocksOk(db) && S.LatchOk(db) && t in db.txns
    ensures Continues(db, M.CommitReadOnly(u), t)
  {}

  lemma PublishEnds(db: M.Db, t: nat)
    requires M.Enabled(db, M.Publish) && S.ClocksOk(db) && S.LatchOk(db) && t in db.txns
    ensures Continues(db, M.Publish, t)
  {}

  lemma CommitEnds(db: M.Db, t: nat)
    requires M.Enabled(db, M.EndCommit) && S.ClocksOk(db) && S.LatchOk(db) && t in db.txns
    ensures Continues(db, M.EndCommit, t)
  {}

  lemma AbortEnds(db: M.Db, t: nat)
    requires M.Enabled(db, M.EndAbort) && S.ClocksOk(db) && S.LatchOk(db) && t in db.txns
    ensures Continues(db, M.EndAbort, t)
  {}

  lemma OthersContinue(db: M.Db, step: M.Step, t: nat)
    requires M.Enabled(db, step) && S.ClocksOk(db) && S.LatchOk(db) && t in db.txns && !Outcome(step)
             && !S.KeepsTxns(step)
    ensures Continues(db, step, t)
  {
    var db' := M.Next(db, step);
    assert t in db'.txns && db'.txns[t].readTs == db.txns[t].readTs && db'.txns[t].Active() == db.txns[t].Active();
  }

  lemma Registrations(db: M.Db, step: M.Step, t: nat)
    requires M.Enabled(db, step) && S.ClocksOk(db) && S.LatchOk(db) && t in db.txns
    ensures Continues(db, step, t)
  {
    if S.KeepsTxns(step) {
      S.TxnsKept(db, step);
    } else if Outcome(step) {
      OutcomesEnd(db, step, t);
    } else {
      OthersContinue(db, step, t);
    }
  }

  /** A record in a write set was there before, or this step writes it. */
  lemma WrittenBefore(db: M.Db, step: M.Step, t: nat, rid: RecordId)
    requires M.Enabled(db, step) && S.ClocksOk(db) && t in db.txns && rid in M.Next(db, step).txns[t].writeSet
    ensures if rid in db.txns[t].writeSet then M.Next(db, step).txns[t].writeSet[rid] == db.txns[t].writeSet[rid]
            else || (step.Insert? && step.txn == t && step.rid == rid && !M.Next(db, step).txns[t].writeSet[rid])
                 || (step.Write? && step.txn == t && step.rid == rid && !M.Refused(db, t, rid) &&
                     M.Next(db, step).txns[t].writeSet[rid] == FirstWrite(db, step))
  {
    if !step.Insert? && !step.Write? && !step.Restore? {
      S.OnlyWritesChangeWriteSets(db, step, t);
    }
  }

  lemma Beginning(db: M.Db, step: M.Step, t: nat)
    requires M.Enabled(db, step) && t in M.Next(db, step).txns && t !in db.txns
    ensures step.Begin? && t == db.nextTxnId && M.Next(db, step).txns[t].writeSet == map[]
  {}

  function UndosAfter(db: M.Db, step: M.Step, logged: set<nat>, undos: Undos): Undos {
    if Ends(db, step, logged) then undos - {db.latch.txn} else undos
  }

  lemma TxnsStay(s: Sys, step: M.Step)
    requires s.mode.Running? && DbEnabled(s, step) && S.GlobalOk(s.mode.mvcc)
             && TxnsOk(s.mode.mvcc, s.mode.logged, s.Undos())
    ensures TxnsOk(S.WorldNext(s.mode.mvcc, step), s.mode.logged,
            UndosAfter(s.mode.mvcc.db, step, s.mode.logged, s.Undos()))
  {
    var db', undos' := M.Next(s.mode.mvcc.db, step), UndosAfter(s.mode.mvcc.db, step, s.mode.logged, s.Undos());
    forall t
      ensures t in s.mode.logged ==> t in db'.txns
      ensures t in undos' ==> t in s.mode.logged && S.Registered(db', t)
      ensures t in s.mode.logged && S.Registered(db', t) ==> t in undos'
      ensures t in db'.txns && db'.txns[t].Active() && db'.txns[t].writeSet != map[] ==> t in s.mode.logged
    {
      TxnStays(s, step, t);
    }
  }

  lemma TxnStays(s: Sys, step: M.Step, t: nat)
    requires s.mode.Running? && DbEnabled(s, step) && S.ClocksOk(s.mode.mvcc.db) && S.LatchOk(s.mode.mvcc.db)
             && TxnsOk(s.mode.mvcc, s.mode.logged, s.Undos())
    ensures var db', undos' := M.Next(s.mode.mvcc.db, step), UndosAfter(s.mode.mvcc.db, step, s.mode.logged, s.Undos());
            && (t in s.mode.logged ==> t in db'.txns)
            && (t in undos' ==> t in s.mode.logged && S.Registered(db', t))
            && (t in s.mode.logged && S.Registered(db', t) ==> t in undos')
            && (t in db'.txns && db'.txns[t].Active() && db'.txns[t].writeSet != map[] ==> t in s.mode.logged)
  {
    if t in s.mode.mvcc.db.txns { OldTxnStays(s, step, t); } else { NewTxnStays(s, step, t); }
  }

  lemma OldTxnStays(s: Sys, step: M.Step, t: nat)
    requires s.mode.Running? && DbEnabled(s, step) && S.ClocksOk(s.mode.mvcc.db) && S.LatchOk(s.mode.mvcc.db)
             && TxnsOk(s.mode.mvcc, s.mode.logged, s.Undos())
    requires t in s.mode.mvcc.db.txns
    ensures var db', undos' := M.Next(s.mode.mvcc.db, step), UndosAfter(s.mode.mvcc.db, step, s.mode.logged, s.Undos());
            && t in db'.txns && (t in undos' ==> t in s.mode.logged && S.Registered(db', t))
            && (t in s.mode.logged && S.Registered(db', t) ==> t in undos')
            && (db'.txns[t].Active() && db'.txns[t].writeSet != map[] ==> t in s.mode.logged)
  {
    Registrations(s.mode.mvcc.db, step, t);
    if M.Next(s.mode.mvcc.db, step).txns[t].writeSet != map[] { WritesStayLogged(s, step, t); }
  }

  lemma NewTxnStays(s: Sys, step: M.Step, t: nat)
    requires s.mode.Running? && DbEnabled(s, step) && S.ClocksOk(s.mode.mvcc.db) && S.LatchOk(s.mode.mvcc.db)
             && TxnsOk(s.mode.mvcc, s.mode.logged, s.Undos())
    requires t !in s.mode.mvcc.db.txns
    ensures var db', undos' := M.Next(s.mode.mvcc.db, step), UndosAfter(s.mode.mvcc.db, step, s.mode.logged, s.Undos());
            t !in s.mode.logged && t !in undos'
                && (t in db'.txns && db'.txns[t].Active() ==> db'.txns[t].writeSet == map[])
  {
    if t in M.Next(s.mode.mvcc.db, step).txns { Beginning(s.mode.mvcc.db, step, t); }
  }

  lemma WritesStayLogged(s: Sys, step: M.Step, t: nat)
    requires s.mode.Running? && DbEnabled(s, step) && S.ClocksOk(s.mode.mvcc.db) && t in s.mode.mvcc.db.txns
    requires M.Next(s.mode.mvcc.db, step).txns[t].writeSet != map[]
    ensures s.mode.mvcc.db.txns[t].writeSet != map[] || t in s.mode.logged
  {
    var rid :| rid in M.Next(s.mode.mvcc.db, step).txns[t].writeSet;
    WrittenBefore(s.mode.mvcc.db, step, t, rid);
  }

  lemma OverwritesStayLogged(s: Sys, step: M.Step)
    requires s.mode.Running? && DbEnabled(s, step) && S.GlobalOk(s.mode.mvcc)
             && OverwritesLogged(s.mode.mvcc, s.Undos())
    ensures OverwritesLogged(S.WorldNext(s.mode.mvcc, step), UndosAfter(s.mode.mvcc.db, step, s.mode.logged, s.Undos()))
  {
    var db', undos' := M.Next(s.mode.mvcc.db, step), UndosAfter(s.mode.mvcc.db, step, s.mode.logged, s.Undos());
    forall t, rid | t in db'.txns && db'.txns[t].Active() && rid in db'.txns[t].writeSet && db'.txns[t].writeSet[rid]
      ensures rid in ImagesOf(undos', t)
    {
      OverwriteStaysLogged(s, step, t, rid);
    }
  }

  lemma OverwriteStaysLogged(s: Sys, step: M.Step, t: nat, rid: RecordId)
    requires s.mode.Running? && DbEnabled(s, step) && S.ClocksOk(s.mode.mvcc.db) && S.LatchOk(s.mode.mvcc.db)
             && OverwritesLogged(s.mode.mvcc, s.Undos())
    requires var db' := M.Next(s.mode.mvcc.db, step);
             t in db'.txns && db'.txns[t].Active() && rid in db'.txns[t].writeSet && db'.txns[t].writeSet[rid]
    ensures rid in ImagesOf(UndosAfter(s.mode.mvcc.db, step, s.mode.logged, s.Undos()), t)
  {
    var db := s.mode.mvcc.db;
    if t !in db.txns {
      Beginning(db, step, t);
    } else {
      assert Continues(db, step, t) by { Registrations(db, step, t); }
      WrittenBefore(db, step, t, rid);
    }
  }

  lemma ImagesStay(s: Sys, step: M.Step)
    requires s.mode.Running? && DbEnabled(s, step) && S.GlobalOk(s.mode.mvcc) && ImagesOk(s.mode.mvcc, s.Undos())
    ensures ImagesOk(S.WorldNext(s.mode.mvcc, step), UndosAfter(s.mode.mvcc.db, step, s.mode.logged, s.Undos()))
  {
    var w, w' := s.mode.mvcc, S.WorldNext(s.mode.mvcc, step);
    forall t, rid | t in s.Undos() && rid in s.Undos()[t]
      ensures t in w'.db.txns && ImageOk(w'.spec, w'.db.txns[t].readTs, rid, s.Undos()[t][rid]) {
      assert ImageOk(w.spec, w.db.txns[t].readTs, rid, s.Undos()[t][rid]);
      Registrations(w.db, step, t);
      SnapshotStays(w, step, w.db.txns[t].readTs, rid);
    }
  }

  lemma SnapshotStays(w: S.World, step: M.Step, ts: nat, rid: RecordId)
    requires M.Enabled(w.db, step) && ts <= w.db.lastCommitTs
    ensures var w' := S.WorldNext(w, step);
            S.SnapshotAt(w'.spec.base, w'.spec.history, ts, rid) == S.SnapshotAt(w.spec.base, w.spec.history, ts, rid)
  {
    if step.Publish? {
      S.SnapshotIgnores(w.spec.base, w.spec.history, Last(S.WorldNext(w, step).spec.history), ts, rid);
    }
  }

  lemma FlushStays(s: Sys, step: M.Step)
    requires s.mode.Running? && DbEnabled(s, step) && FlushOk(s.mode.mvcc, s.mode.todo, s.clocks, s.Logged(), s.Undos())
    ensures FlushOk(S.WorldNext(s.mode.mvcc, step), DbNext(s, step).mode.todo, s.clocks, s.Logged(),
            UndosAfter(s.mode.mvcc.db, step, s.mode.logged, s.Undos()))
  {
    var w, w' := s.mode.mvcc, S.WorldNext(s.mode.mvcc, step);
    if s.mode.todo.Some? && !step.Resume? {
      assert w'.db.latch.Paused? && w'.db.lastCommitTs == w.db.lastCommitTs && !Ends(w.db, step, s.mode.logged);
      forall rid ensures Now(w', rid) == Now(w, rid) { SnapshotStays(w, step, w.db.lastCommitTs, rid); }
    }
  }

  lemma StepDb(s: Sys, step: M.Step)
    requires SysOk(s) && Enabled(s, Db(step))
    ensures SysOk(Next(s, Db(step)))
  {
    S.StepKeepsInv(s.mode.mvcc, step);
    TxnsStay(s, step);
    ImagesStay(s, step);
    OverwritesStayLogged(s, step);
    FlushStays(s, step);
    TouchedClean(s, step);
    StepDbLogs(s, step);
  }

  /** What a step of the manager does to the log and to what it holds. */
  lemma StepDbLogs(s: Sys, step: M.Step)
    requires SysOk(s) && Enabled(s, Db(step))
    ensures var s' := Next(s, Db(step));
            && s'.Undos() == UndosAfter(s.mode.mvcc.db, step, s.mode.logged, s.Undos()) && s'.Logged() == s.Logged()
            && PointsOk(s'.wal, s'.promised)
  {
    var s', m := Next(s, Db(step)), s.mode;
    if Ends(m.mvcc.db, step, m.logged) {
      PointsStay(s.wal, s'.wal, s.promised);
      Appended(s.wal, s'.wal, Txn(End(m.mvcc.db.latch.txn)));
      Undone1(s.wal, End(m.mvcc.db.latch.txn));
    }
  }

  // ---------------------------------------------------------------- every run

  /** The step of the log that `step` takes. */
  function WalStep(s: Sys, step: Step): Option<W.Step<Image>>
    requires Enabled(s, step)
  {
    match step
    case Db(inner) =>
        if Ends(s.mode.mvcc.db, inner, s.mode.logged) then Some(W.LogTxn(End(s.mode.mvcc.db.latch.txn))) else None
    case LogWrites(t) => Some(W.LogTxn(Writes(t)))
    case LogUndo(t, rid) => Some(W.LogTxn(Undo(t, rid, s.mode.mvcc.db.slots[rid])))
    case LogPage(p) => Some(W.LogPage(p, PageImage(s.mode.Slots(), s.clocks, p)))
    case MakeDurable(ok) => Some(W.DurablePoint(ok))
    case Wal(inner) => Some(inner)
    case Crash(toOld, kept, garbage) => Some(W.Crash(toOld, kept, garbage))
    case LogEnd(t) => Some(W.LogTxn(End(t)))
    case _ => None
  }

  lemma TakesWalStep(s: Sys, step: Step)
    requires Enabled(s, step)
    ensures WalStep(s, step).Some? ==>
            W.Enabled(s.wal.wal, WalStep(s, step).value)
            && Next(s, step).wal == W.WorldNext(s.wal, WalStep(s, step).value)
    ensures WalStep(s, step).None? ==> Next(s, step).wal == s.wal
  {
  }

  lemma StepWalInv(s: Sys, step: Step)
    requires W.Inv(s.wal) && Enabled(s, step)
    ensures W.Inv(Next(s, step).wal)
  {
    TakesWalStep(s, step);
    if WalStep(s, step).Some? {
      W.StepInv(s.wal, WalStep(s, step).value);
    }
  }

  lemma StepSysOk(s: Sys, step: Step)
    requires Inv(s) && Enabled(s, step)
    ensures SysOk(Next(s, step))
  {
    match step
    case Db(inner) => StepDb(s, inner);
    case LogWrites(_) => StepLogTxn(s, step);
    case LogUndo(_, _) => StepLogTxn(s, step);
    case LogPage(p) => StepLogPage(s, p);
    case StartFlush => StepStartFlush(s);
    case MakeDurable(ok) => StepMakeDurable(s, ok);
    case Wal(inner) => StepWal(s, inner);
    case Crash(toOld, kept, garbage) => StepCrash(s, toOld, kept, garbage);
    case RollBack(rid) => StepRollBack(s, rid);
    case LogEnd(t) => StepLogEnd(s, t);
    case Open => StepOpen(s);
  }

  lemma StartOk(data: Pages, rows: Rows)
    requires Recovers(data, map[], rows)
    ensures Inv(Start(data, rows))
  {
    var s := Start(data, rows);
    W.StartInv(data);
    assert data + PagesOf<Image>([]) == data && W.RecoveredPages(s.wal.wal.log, s.wal.wal.data) == data;
    assert PointOk(s.wal, s.promised, 0);
    ReopenedOk(s.wal, s.promised);
  }

  lemma {:induction false} RunKeepsInv(data: Pages, rows: Rows, steps: seq<Step>)
    requires Recovers(data, map[], rows) && Run(Start(data, rows), steps).Some?
    ensures Inv(Run(Start(data, rows), steps).value)
  {
    if steps == [] {
      StartOk(data, rows);
    } else {
      var before := Run(Start(data, rows), Base.Init(steps)).value;
      RunKeepsInv(data, rows, Base.Init(steps));
      StepWalInv(before, Last(steps));
      StepSysOk(before, Last(steps));
    }
  }

  // ---------------------------------------------------------------- what a crash leaves

  /** In every run, whatever a crash keeps of the unsynced bytes, the reopened database rolls back
      to exactly the rows committed at one durable point, no older than the last acknowledged one. */
  lemma CrashRestores(data: Pages, rows: Rows, steps: seq<Step>, toOld: bool, kept: nat, garbage: Pages)
    requires Recovers(data, map[], rows) && Run(Start(data, rows), steps).Some?
    requires Enabled(Run(Start(data, rows), steps).value, Crash(toOld, kept, garbage))
    ensures var s := Run(Start(data, rows), steps).value;
            var s' := Next(s, Crash(toOld, kept, garbage));
            var d := s'.mode.point;
            && s.wal.acked <= d <= |s.wal.all| && (d > 0 ==> s.wal.all[d - 1] == Durable) && d in s.promised
            && forall rid ::
                RecoversTo(Find(s'.mode.heap, rid), rid, s'.mode.unfinished, s'.clocks.last, Find(s.promised[d], rid))
  {
    RunKeepsInv(data, rows, steps);
    CrashKeepsPoint(Run(Start(data, rows), steps).value, toOld, kept, garbage);
  }

  lemma CrashKeepsPoint(s: Sys, toOld: bool, kept: nat, garbage: Pages)
    requires Inv(s) && Enabled(s, Crash(toOld, kept, garbage))
    ensures var s' := Next(s, Crash(toOld, kept, garbage));
            var d := s'.mode.point;
            && s.wal.acked <= d <= |s.wal.all| && (d > 0 ==> s.wal.all[d - 1] == Durable) && d in s.promised
            && forall rid ::
                RecoversTo(Find(s'.mode.heap, rid), rid, s'.mode.unfinished, s'.clocks.last, Find(s.promised[d], rid))
  {
    StepCrash(s, toOld, kept, garbage);
    PointIsDurable(s, Next(s, Crash(toOld, kept, garbage)));
  }

  lemma PointIsDurable(s: Sys, s': Sys)
    requires PointKept(s, s') && SysOk(s')
    ensures var d := s'.mode.point;
            && d <= |s.wal.all| && (d > 0 ==> s.wal.all[d - 1] == Durable)
            && forall rid ::
                RecoversTo(Find(s'.mode.heap, rid), rid, s'.mode.unfinished, s'.clocks.last, Find(s.promised[d], rid))
  {
    var all := s'.wal.all;
    assert |all| > 0 ==> all[|all| - 1] == Durable;
  }

  lemma SamePoint(s: Sys, s': Sys)
    requires s.mode.Rolling? && RollingOk(s) && PointKept(s, s') && SysOk(s')
    ensures s'.mode.point == s.mode.point && s'.mode.unfinished == s.mode.unfinished
  {
    PointIsDurable(s, s');
    assert s'.wal.all[..s.mode.point] == s.wal.all[..s.mode.point];
  }

  /** A crash during the rollback changes nothing: recovery starts over from the same durable point,
      the same unfinished transactions and the same rows. */
  lemma RollbackSurvivesCrash(data: Pages, rows: Rows, steps: seq<Step>, toOld: bool, kept: nat, garbage: Pages)
    requires Recovers(data, map[], rows) && Run(Start(data, rows), steps).Some?
             && Run(Start(data, rows), steps).value.mode.Rolling?
    requires Enabled(Run(Start(data, rows), steps).value, Crash(toOld, kept, garbage))
    ensures var s := Run(Start(data, rows), steps).value;
            var s' := Next(s, Crash(toOld, kept, garbage));
            && s'.mode.point == s.mode.point && s'.mode.unfinished == s.mode.unfinished
            && s.mode.point in s.promised && s'.mode.point in s'.promised
            && s'.promised[s'.mode.point] == s.promised[s.mode.point]
  {
    var s := Run(Start(data, rows), steps).value;
    RunKeepsInv(data, rows, steps);
    StepCrash(s, toOld, kept, garbage);
    SamePoint(s, Next(s, Crash(toOld, kept, garbage)));
  }

  /** The database opens once nothing is left to roll back, on exactly the rows of its durable
      point, with no trace of an unfinished transaction. */
  lemma OpensAsPromised(data: Pages, rows: Rows, steps: seq<Step>)
    requires Recovers(data, map[], rows) && Run(Start(data, rows), steps).Some?
    requires Enabled(Run(Start(data, rows), steps).value, Open)
    ensures var s := Run(Start(data, rows), steps).value;
            var w := Next(s, Open).mode.mvcc;
            && S.Start(w) && s.mode.point in s.promised && w.spec.base == s.promised[s.mode.point]
            && (forall rid :: rid in w.db.slots ==> !M.IsTxnId(w.db.slots[rid].ts))
            && (forall t :: t in s.mode.unfinished ==> t < w.db.nextTxnId)
  {
    var s := Run(Start(data, rows), steps).value;
    RunKeepsInv(data, rows, steps);
    StepOpen(s);
    RolledBack(s);
  }

  // ---------------------------------------------------------------- what a durable point promises

  predicate InHistory(history: seq<S.CommitRecord>, t: nat) { exists i :: 0 <= i < |history| && history[i].txn == t }

  ghost predicate CommitEnded(db: M.Db, logged: set<nat>, log: seq<Record<Image>>, c: S.CommitRecord) {
    && c.txn in db.txns && db.txns[c.txn].state == M.Committed && (c.writes != map[] ==> c.txn in logged)
    && (c.txn in logged ==> Txn(End(c.txn)) in log || db.latch == M.Published(c.txn))
  }

  ghost predicate EndedDone(w: S.World, log: seq<Record<Image>>, t: nat) {
    Txn(End(t)) in log ==>
      t in w.db.txns && !S.Registered(w.db, t) && (w.db.txns[t].state == M.Committed ==> InHistory(w.spec.history, t))
  }

  /** `log` holds the end of every commit and of no transaction that is not done. */
  ghost predicate EndsOk(w: S.World, logged: set<nat>, log: seq<Record<Image>>) {
    && (forall i :: 0 <= i < |w.spec.history| ==> CommitEnded(w.db, logged, log, w.spec.history[i]))
    && (forall t :: EndedDone(w, log, t))
    && (w.db.latch.Published? ==> InHistory(w.spec.history, w.db.latch.txn))
  }

  lemma DoneStays(db: M.Db, step: M.Step, t: nat)
    requires M.Enabled(db, step) && S.ClocksOk(db) && S.LatchOk(db) && t in db.txns && !db.txns[t].Active()
    ensures t in M.Next(db, step).txns && M.Next(db, step).txns[t].state == db.txns[t].state
  {
    if S.KeepsTxns(step) {
      S.TxnsKept(db, step);
    }
  }

  function LogAfter(db: M.Db, step: M.Step, logged: set<nat>, log: seq<Record<Image>>): seq<Record<Image>> {
    if Ends(db, step, logged) then log + [Txn(End(db.latch.txn))] else log
  }

  lemma LatchAfter(db: M.Db, step: M.Step, t: nat)
    requires M.Enabled(db, step)
    ensures db.latch == M.Published(t) ==> M.Next(db, step).latch == M.Published(t) || step.EndCommit?
    ensures M.Next(db, step).latch == M.Published(t) ==>
            db.latch == M.Published(t) || (step.Publish? && db.latch.txn == t)
  {}

  lemma CommitStaysEnded(w: S.World, step: M.Step, logged: set<nat>, log: seq<Record<Image>>, c: S.CommitRecord)
    requires M.Enabled(w.db, step) && S.ClocksOk(w.db) && S.LatchOk(w.db) && CommitEnded(w.db, logged, log, c)
    ensures CommitEnded(M.Next(w.db, step), logged, LogAfter(w.db, step, logged, log), c)
  {
    DoneStays(w.db, step, c.txn);
    LatchAfter(w.db, step, c.txn);
  }

  lemma EndedStaysDone(w: S.World, step: M.Step, logged: set<nat>, log: seq<Record<Image>>, t: nat)
    requires M.Enabled(w.db, step) && S.ClocksOk(w.db) && S.LatchOk(w.db) && EndedDone(w, log, t)
    requires w.db.latch.Published? ==> InHistory(w.spec.history, w.db.latch.txn)
    ensures EndedDone(S.WorldNext(w, step), LogAfter(w.db, step, logged, log), t)
  {
    var history' := S.WorldNext(w, step).spec.history;
    assert w.spec.history <= history';
    assert InHistory(w.spec.history, t) ==> InHistory(history', t) by {
      if i :| 0 <= i < |w.spec.history| && w.spec.history[i].txn == t { assert history'[i].txn == t; }
    }
    if Txn(End(t)) in LogAfter(w.db, step, logged, log) {
      Registrations(w.db, step, t);
      if Txn(End(t)) in log {
        DoneStays(w.db, step, t);
      } else if step.EndCommit? {
        DoneStays(w.db, step, t);
      }
    }
  }

  lemma EndsStay(w: S.World, step: M.Step, logged: set<nat>, log: seq<Record<Image>>)
    requires S.GlobalOk(w) && M.Enabled(w.db, step) && EndsOk(w, logged, log)
    requires forall t :: t in w.db.txns && w.db.txns[t].Active() && w.db.txns[t].writeSet != map[] ==> t in logged
    ensures EndsOk(S.WorldNext(w, step), logged, LogAfter(w.db, step, logged, log))
  {
    var w', log' := S.WorldNext(w, step), LogAfter(w.db, step, logged, log);
    forall t ensures EndedDone(w', log', t) { EndedStaysDone(w, step, logged, log, t); }
    forall i | 0 <= i < |w'.spec.history| ensures CommitEnded(w'.db, logged, log', w'.spec.history[i]) {
      if i < |w.spec.history| {
        assert w'.spec.history[i] == w.spec.history[i];
        CommitStaysEnded(w, step, logged, log, w.spec.history[i]);
      }
    }
    if w'.db.latch.Published? {
      LatchAfter(w.db, step, w'.db.latch.txn);
      PublishedInHistory(w, step);
    }
  }

  lemma PublishedInHistory(w: S.World, step: M.Step)
    requires M.Enabled(w.db, step) && M.Next(w.db, step).latch.Published?
    requires w.db.latch.Published? ==> InHistory(w.spec.history, w.db.latch.txn)
    ensures InHistory(S.WorldNext(w, step).spec.history, M.Next(w.db, step).latch.txn)
  {
    var history' := S.WorldNext(w, step).spec.history;
    if step.Publish? {
      assert Last(history').txn == w.db.latch.txn;
    } else {
      assert history' == w.spec.history && M.Next(w.db, step).latch == w.db.latch;
    }
  }

  ghost predicate SysEnds(s: Sys) {
    s.mode.Running? ==> s.mode.since <= |s.wal.all| && EndsOk(s.mode.mvcc, s.mode.logged, s.wal.all[s.mode.since..])
  }

  /** Records other than ends change nothing. */
  lemma OtherRecords(w: S.World, logged: set<nat>, logged': set<nat>, log: seq<Record<Image>>, log': seq<Record<Image>>)
    requires EndsOk(w, logged, log) && logged <= logged'
             && forall t :: t in logged' && t !in logged ==> w.db.IsActive(t)
    requires forall t :: Txn(End(t)) in log' <==> Txn(End(t)) in log
    ensures EndsOk(w, logged', log')
  {
    forall i | 0 <= i < |w.spec.history| ensures CommitEnded(w.db, logged', log', w.spec.history[i]) {
      assert CommitEnded(w.db, logged, log, w.spec.history[i]);
    }
    forall t ensures EndedDone(w, log', t) { assert EndedDone(w, log, t); }
  }

  lemma StepSysEnds(s: Sys, step: Step)
    requires SysOk(s) && SysEnds(s) && Enabled(s, step)
    ensures SysEnds(Next(s, step))
  {
    var s' := Next(s, step);
    if s'.mode.Running? && s.mode.Running? {
      var since := s.mode.since;
      if step.Db? {
        EndsStay(s.mode.mvcc, step.step, s.mode.logged, s.wal.all[since..]);
        LogSince(s, step.step);
      } else {
        GrowsWithoutEnds(s, step);
        OtherRecords(s.mode.mvcc, s.mode.logged, s'.mode.logged, s.wal.all[since..], s'.wal.all[since..]);
      }
    }
  }

  lemma LogSince(s: Sys, step: M.Step)
    requires Enabled(s, Db(step)) && s.mode.since <= |s.wal.all|
    ensures var since := s.mode.since;
            && since <= |Next(s, Db(step)).wal.all|
            && Next(s, Db(step)).wal.all[since..] == LogAfter(s.mode.mvcc.db, step, s.mode.logged, s.wal.all[since..])
  {}

  lemma GrowsWithoutEnds(s: Sys, step: Step)
    requires Enabled(s, step) && s.mode.Running? && !step.Db? && !step.Crash? && s.mode.since <= |s.wal.all|
    ensures var s', since := Next(s, step), s.mode.since;
            && s'.mode.Running? && s'.mode.since == since <= |s'.wal.all|
            && (forall t :: Txn(End(t)) in s'.wal.all[since..] <==> Txn(End(t)) in s.wal.all[since..])
            && s.mode.logged <= s'.mode.logged
            && (forall t :: t in s'.mode.logged && t !in s.mode.logged ==> s.mode.mvcc.db.IsActive(t))
            && s'.mode.mvcc == s.mode.mvcc
  {
    var s', since := Next(s, step), s.mode.since;
    TakesWalStep(s, step);
    if |s'.wal.all| > |s.wal.all| {
      var r := Last(s'.wal.all);
      assert s'.wal.all == s.wal.all + [r];
      assert s'.wal.all[since..] == s.wal.all[since..] + [r];
    }
  }

  lemma {:induction false} RunKeepsEnds(data: Pages, rows: Rows, steps: seq<Step>)
    requires Recovers(data, map[], rows) && Run(Start(data, rows), steps).Some?
    ensures SysEnds(Run(Start(data, rows), steps).value)
  {
    if steps != [] {
      var before := Run(Start(data, rows), Base.Init(steps)).value;
      RunKeepsEnds(data, rows, Base.Init(steps));
      assert SysOk(before) by { RunKeepsInv(data, rows, Base.Init(steps)); }
      StepSysEnds(before, Last(steps));
    }
  }

  /** `rows` are those of every commit so far, each with its end in `log`, and `log` holds the end
      of no transaction that is not done. */
  ghost predicate HoldsEnded(w: S.World, log: seq<Record<Image>>, rows: Rows) {
    && (forall rid :: Find(rows, rid) == S.SnapshotAt(w.spec.base, w.spec.history, w.db.lastCommitTs, rid))
    && (forall i :: 0 <= i < |w.spec.history| && w.spec.history[i].writes != map[] ==>
        Txn(End(w.spec.history[i].txn)) in log)
    && (forall t :: Txn(End(t)) in log ==> t in w.db.txns && !w.db.IsActive(t))
    && (forall t :: Txn(End(t)) in log && w.db.txns[t].state == M.Committed ==> InHistory(w.spec.history, t))
  }

  /** A durable point adds its record, and promises the rows committed by then. */
  lemma DurableNext(s: Sys, ok: bool)
    requires Inv(s) && Enabled(s, MakeDurable(ok))
    ensures var s' := Next(s, MakeDurable(ok));
            && s'.wal.all == s.wal.all + [Durable] && (ok ==> s'.wal.acked == |s'.wal.all|)
            && Find(s'.promised, |s'.wal.all|) == Some(RowsNow(s.mode.mvcc))
            && S.Inv(s.mode.mvcc) && s.mode.mvcc.db.latch.Paused?
  {}

  lemma PausedHoldsEnded(w: S.World, logged: set<nat>, log: seq<Record<Image>>)
    requires S.Inv(w) && EndsOk(w, logged, log) && w.db.latch.Paused?
    ensures HoldsEnded(w, log, RowsNow(w))
  {
    forall rid ensures Find(RowsNow(w), rid) == Now(w, rid) { CommittedRowsAreInSlots(w, rid); }
    forall t | Txn(End(t)) in log
      ensures t in w.db.txns && !w.db.IsActive(t)
              && (w.db.txns[t].state == M.Committed ==> InHistory(w.spec.history, t))
    {
      assert EndedDone(w, log, t);
    }
    forall i | 0 <= i < |w.spec.history| ensures CommitEnded(w.db, logged, log, w.spec.history[i]) {}
  }

  /** A durable point promises exactly the transactions that have ended: the rows of every commit
      so far, each with its end before the point, and nothing of a transaction that is not done. */
  lemma DurableHoldsEnded(data: Pages, rows: Rows, steps: seq<Step>, ok: bool)
    requires Recovers(data, map[], rows) && Run(Start(data, rows), steps).Some?
    requires Enabled(Run(Start(data, rows), steps).value, MakeDurable(ok))
    ensures var s := Run(Start(data, rows), steps).value;
            var s' := Next(s, MakeDurable(ok));
            var d := |s'.wal.all|;
            && s'.wal.all == s.wal.all + [Durable] && d in s'.promised && (ok ==> s'.wal.acked == d)
            && s.mode.since <= |s.wal.all| && HoldsEnded(s.mode.mvcc, s.wal.all[s.mode.since..], s'.promised[d])
  {
    var s := Run(Start(data, rows), steps).value;
    RunKeepsInv(data, rows, steps);
    RunKeepsEnds(data, rows, steps);
    DurableNext(s, ok);
    PausedHoldsEnded(s.mode.mvcc, s.mode.logged, s.wal.all[s.mode.since..]);
  }

  /** Rolls back every slot an unfinished transaction left behind, and counts them. */
  method RollBackRecovered(heap: Heap, unfinished: Undos) returns (rolled: Heap, count: nat)
    ensures rolled.Keys == heap.Keys && forall rid :: rid in heap ==> rolled[rid] == Undone(heap[rid], rid, unfinished)
    ensures count == |set rid | rid in heap && heap[rid].ts in unfinished|
  {
    ghost var stamped := set rid | rid in heap && heap[rid].ts in unfinished;
    var left := set rid | rid in heap && heap[rid].ts in unfinished;
    rolled, count := heap, 0;
    while left != {}
      invariant left <= stamped && count == |stamped| - |left| && rolled.Keys == heap.Keys
      invariant forall rid ::
                rid in heap ==> rolled[rid] == if rid in left then heap[rid] else Undone(heap[rid], rid, unfinished)
    {
      var rid :| rid in left;
      var txn := rolled[rid].ts;
      rolled := rolled[rid := if rid in unfinished[txn] then unfinished[txn][rid]
          else Version(0, true, rolled[rid].data)];
      left, count := left - {rid}, count + 1;
    }
  }
}
