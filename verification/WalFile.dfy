/** The log object: each call takes the steps of the log machine, in the order the code takes them, and
    an I/O failure may end a call early. */
module WalFile {
  import opened Base
  import opened WalLog
  import opened WalMachine

  /** Which parts of a checkpoint fail: the writes of some pages, the new log's write, its rename, and the syncs. */
  datatype Faults = Faults(copies: set<nat>, syncData: bool, writeAside: bool, syncAside: bool, rename: bool,
      syncDirectory: bool)

  const NO_FAULTS := Faults({}, false, false, false, false, false)

  /** A checkpoint of `pages` meets a fault. */
  predicate Hits<P>(faults: Faults, pages: map<nat, P>) {
    || !(faults.copies !! pages.Keys) || faults.syncData || faults.writeAside || faults.syncAside || faults.rename
    || faults.syncDirectory
  }

  /** The first fault it meets is a failed sync, after which nothing more is logged. */
  predicate Breaks<P>(faults: Faults, pages: map<nat, P>) {
    faults.copies !! pages.Keys
    && (faults.syncData
        || (!faults.writeAside && (faults.syncAside || (!faults.rename && faults.syncDirectory))))
  }

  /** What a checkpoint that goes through leaves: every page in the data file and synced, and no page in the log. */
  ghost predicate Emptied<P>(base: map<nat, P>, w: Wal<P>, v: World<P>) {
    && !w.broken && w.data == base + PagesOf(v.all) && w.unsynced == {} && w.pages == map[]
    && forall i :: 0 <= i < |w.log| ==> !w.log[i].Page?
  }

  /** A log between calls: nothing is left to sync unless something was logged, and no checkpoint is
      half done unless a sync failed. */
  ghost predicate Settled<P>(w: Wal<P>) {
    (!w.dirty && !w.broken ==> w.synced == |w.log| && w.buffered == []) && (w.phase.Idle? || w.broken)
  }

  /** Everything logged so far is what a crash recovers, whatever of the file it keeps. */
  ghost predicate AllDurable<P>(w: World<P>) {
    w.wal.synced <= |w.wal.log| && RecoveredTo(w.gen, w.wal.log[..w.wal.synced]) == |w.all|
  }

  /** `v` is where some run of the machine from the first open of a data file has come, with the log in state `w`. */
  ghost predicate On<P(!new)>(base: map<nat, P>, w: Wal<P>, v: World<P>) {
    v.wal == w && exists steps :: Run(Start(base), steps) == Some(v)
  }

  lemma OnInv<P(!new)>(base: map<nat, P>, w: Wal<P>, v: World<P>)
    requires On(base, w, v)
    ensures Inv(v) && v.base == base
  {
    var steps :| Run(Start(base), steps) == Some(v);
    StartInv(base);
    RunInv(Start(base), steps);
  }

  /** One step of the machine. */
  method Take<P(!new)>(w: Wal<P>, step: Step<P>, ghost base: map<nat, P>, ghost v: World<P>)
    returns (w': Wal<P>, ghost v': World<P>)
    requires On(base, w, v) && Enabled(w, step)
    ensures On(base, w', v') && w' == Next(w, step) && v' == WorldNext(v, step)
  {
    w', v' := Next(w, step), WorldNext(v, step);
    ghost var steps :| Run(Start(base), steps) == Some(v);
    assert Base.Init(steps + [step]) == steps;
    assert Run(Start(base), steps + [step]) == Some(v');
  }

  lemma CleanIsDurable<P>(w: World<P>)
    requires Inv(w) && w.wal.phase.Idle? && !w.wal.dirty && !w.wal.broken && Settled(w.wal)
    ensures AllDurable(w)
  {
    var g, log := w.gen, w.wal.log;
    assert log + Tagged<P>([]) == log && log[..w.wal.synced] == log;
    assert log == g.pre + w.all[g.mark..] && LastDurable(w.all) == |w.all|;
    LastDurableAppend(g.pre, w.all[g.mark..]);
    EndsDurableTail(w.all, g.mark);
  }

  lemma EndsDurableTail<P>(all: seq<Record<P>>, mark: nat)
    requires mark <= |all| && LastDurable(all) == |all|
    ensures LastDurable(all[mark..]) == |all| - mark
  {
    if mark < |all| { assert Last(all[mark..]) == Last(all); }
  }

  /** Copies the logged pages to the data file until one copy fails. */
  method CopyPages<P(!new)>(w0: Wal<P>, fails: set<nat>, ghost base: map<nat, P>, ghost v0: World<P>)
    returns (ok: bool, w: Wal<P>, ghost v: World<P>)
    requires On(base, w0, v0) && At(w0, Copy(w0.pages.Keys))
    ensures On(base, w, v) && v.all == v0.all && v.acked == v0.acked && w.phase.Synced? && w.phase.next.Copy?
            && (ok ==> w.phase.next == Copy({}))
    ensures ok <==> fails !! w0.pages.Keys
    ensures w == w0.(phase := w.phase, unsynced := w.unsynced) && w.phase.opening == w0.phase.opening
  {
    w, v := w0, v0;
    while w.phase.next.left != {}
      invariant On(base, w, v) && v.all == v0.all && v.acked == v0.acked && w.phase.Synced? && w.phase.next.Copy?
                && w.phase.next.left <= w.pages.Keys && fails !! w.pages.Keys - w.phase.next.left
      invariant w == w0.(phase := w.phase, unsynced := w.unsynced) && w.phase.opening == w0.phase.opening
      decreases |w.phase.next.left|
    {
      var id :| id in w.phase.next.left;
      if id in fails {
        return false, w, v;
      }
      w, v := Take(w, CopyPage(id), base, v);
    }
    return true, w, v;
  }

  /** Copies every logged page to the data file, then starts a log that remembers only transactions
      still open. When a fault stops it, appending goes on in the old log, or nowhere. */
  method Checkpoint<P(!new)>(w0: Wal<P>, faults: Faults, ghost base: map<nat, P>, ghost v0: World<P>)
    returns (ok: bool, w: Wal<P>, ghost v: World<P>)
    requires On(base, w0, v0) && Settled(w0) && w0.phase.Idle? && !w0.broken && !w0.dirty
    ensures On(base, w, v) && Settled(w) && v.all == v0.all && !w.dirty
    ensures ok <==> !Hits(faults, w0.pages)
    ensures ok ==> Emptied(base, w, v)
    ensures w.broken <==> Breaks(faults, w0.pages)
    ensures !ok && !w.broken ==> w.pages == w0.pages && w.log == w0.log
  {
    w, v := Take(w0, StartCheckpoint, base, v0);
    ok, w, v := CopyPages(w, faults.copies, base, v);
    if !ok {
      w, v := Take(w, GiveUp, base, v);
      return false, w, v;
    }
    w, v := Take(w, SyncData(!faults.syncData), base, v);
    if faults.syncData {
      return false, w, v;
    }
    ok, w, v := ReplaceLog(w, faults, base, v);
    if ok {
      CheckpointEmpties(base, w, v);
    }
  }

  /** Writes the new log aside and renames it over the old one. */
  method ReplaceLog<P(!new)>(w0: Wal<P>, faults: Faults, ghost base: map<nat, P>, ghost v0: World<P>)
    returns (ok: bool, w: Wal<P>, ghost v: World<P>)
    requires On(base, w0, v0) && At(w0, Aside) && !w0.phase.opening && !w0.dirty && w0.synced == |w0.log|
             && w0.buffered == []
    ensures On(base, w, v) && Settled(w) && v.all == v0.all && !w.dirty
    ensures ok <==> !faults.writeAside && !faults.syncAside && !faults.rename && !faults.syncDirectory
    ensures ok ==> w.phase.Idle? && w.pages == map[] && w.unsynced == w0.unsynced && w.log == Fresh(w)
    ensures w.broken <==> !faults.writeAside && (faults.syncAside || (!faults.rename && faults.syncDirectory))
    ensures !ok && !w.broken ==> w.pages == w0.pages && w.log == w0.log
  {
    if faults.writeAside {
      w, v := Take(w0, GiveUp, base, v0);
      return false, w, v;
    }
    w, v := Take(w0, WriteAside, base, v0);
    w, v := Take(w, SyncAsideFile(!faults.syncAside), base, v);
    if faults.syncAside {
      return false, w, v;
    }
    if faults.rename {
      w, v := Take(w, GiveUp, base, v);
      return false, w, v;
    }
    w, v := Take(w, RenameLog, base, v);
    w, v := Take(w, SyncDirectory(!faults.syncDirectory), base, v);
    return !faults.syncDirectory, w, v;
  }

  /** Makes everything logged so far what recovery returns to; a checkpoint that fails after that does not undo it. */
  method MakeDurable<P(!new)>(w0: Wal<P>, syncOk: bool, checkpoint: bool, faults: Faults, ghost base: map<nat, P>,
                       ghost v0: World<P>)
    returns (ok: bool, w: Wal<P>, ghost v: World<P>)
    requires On(base, w0, v0) && Settled(w0)
    ensures On(base, w, v) && Settled(w)
    ensures ok <==> !w0.broken && (!w0.dirty || syncOk)
    ensures ok ==> v.all == if w0.dirty then v0.all + [Durable] else v0.all
    ensures ok && !w.broken ==> AllDurable(v)
    ensures ok && w0.dirty && checkpoint && !Hits(faults, w0.pages) ==> Emptied(base, w, v)
    ensures w.broken <==> w0.broken || (w0.dirty && (!syncOk || (checkpoint && Breaks(faults, w0.pages))))
    ensures !w0.dirty || !checkpoint || !syncOk ==> w.pages == w0.pages && w.data == w0.data
  {
    if w0.broken {
      return false, w0, v0;
    }
    w, v := w0, v0;
    if w.dirty {
      w, v := Take(w, DurablePoint(syncOk), base, v);
      if !syncOk {
        return false, w, v;
      }
      if checkpoint {
        var done;
        done, w, v := Checkpoint(w, faults, base, v);
      }
    }
    ok := true;
    if !w.broken {
      OnInv(base, w, v);
      CleanIsDurable(v);
    }
  }

  /** The checkpoint that an open runs over the log it has replayed. A fault fails the open. */
  method FinishOpen<P(!new)>(w0: Wal<P>, faults: Faults, ghost base: map<nat, P>, ghost v0: World<P>)
    returns (ok: bool, w: Wal<P>, ghost v: World<P>)
    requires On(base, w0, v0) && w0.phase == Synced(Copy(w0.pages.Keys), true) && !w0.broken && !w0.dirty
    ensures On(base, w, v) && v.all == v0.all && v.acked == v0.acked
    ensures ok ==> Settled(w) && w.phase.Idle? && !w.broken && !w.dirty && w.pages == map[] && w.unsynced == {}
    ensures ok <==> !Hits(faults, w0.pages)
  {
    ok, w, v := CopyPages(w0, faults.copies, base, v0);
    if !ok {
      return false, w, v;
    }
    w, v := Take(w, SyncData(!faults.syncData), base, v);
    if faults.syncData {
      return false, w, v;
    }
    ok, w, v := FirstLog(w, faults, base, v);
  }

  /** Writes the log an open starts with aside, and renames it into place. */
  method FirstLog<P(!new)>(w0: Wal<P>, faults: Faults, ghost base: map<nat, P>, ghost v0: World<P>)
    returns (ok: bool, w: Wal<P>, ghost v: World<P>)
    requires On(base, w0, v0) && At(w0, Aside)
    ensures On(base, w, v) && v.all == v0.all && v.acked == v0.acked
    ensures ok ==> Settled(w) && w.phase.Idle? && !w.broken && !w.dirty && w.pages == map[] && w.unsynced == w0.unsynced
    ensures ok <==> !faults.writeAside && !faults.syncAside && !faults.rename && !faults.syncDirectory
  {
    if faults.writeAside {
      return false, w0, v0;
    }
    w, v := Take(w0, WriteAside, base, v0);
    w, v := Take(w, SyncAsideFile(!faults.syncAside), base, v);
    if faults.syncAside || faults.rename {
      return false, w, v;
    }
    w, v := Take(w, RenameLog, base, v);
    w, v := Take(w, SyncDirectory(!faults.syncDirectory), base, v);
    return !faults.syncDirectory, w, v;
  }

  /** Opens a data file that has no log; the checkpoint of an open writes the first one. */
  method FirstOpen<P(!new)>(data: map<nat, P>) returns (w: Wal<P>, ghost v: World<P>)
    ensures On(data, w, v) && Settled(w) && w.phase.Idle? && !w.broken && w.pages == map[] && v.all == []
  {
    w, v := Start(data).wal, Start(data);
    assert Run(v, []) == Some(v);
    var ok;
    ok, w, v := FinishOpen(w, NO_FAULTS, data, v);
  }

  /** Opens the files a crash left: what was logged up to a durable point is there again, and nothing
      after it, and the point is no older than the last one a durable point promised. */
  method Reopen<P(!new)>(w0: Wal<P>, toOld: bool, kept: nat, garbage: map<nat, P>, faults: Faults,
                  ghost base: map<nat, P>, ghost v0: World<P>)
    returns (ok: bool, w: Wal<P>, ghost v: World<P>)
    requires On(base, w0, v0) && Enabled(w0, Crash(toOld, kept, garbage))
    ensures On(base, w, v) && v.all <= v0.all && v0.acked <= |v.all| == v.acked
            && (v.all != [] ==> Last(v.all) == Durable)
    ensures ok ==> Settled(w) && w.phase.Idle? && !w.broken && AllDurable(v)
    ensures ok ==> w.data == base + PagesOf(v.all) && w.pages == map[] && w.unsynced == {}
    ensures ok <==> !Hits(faults, Next(w0, Crash(toOld, kept, garbage)).pages)
  {
    w, v := LoseAndReplay(w0, toOld, kept, garbage, base, v0);
    ok, w, v := FinishOpen(w, faults, base, v);
    if ok {
      assert AllDurable(v) && w.data == base + PagesOf(v.all) by { OpenedClean(base, w, v); }
    }
  }

  method LoseAndReplay<P(!new)>(w0: Wal<P>, toOld: bool, kept: nat, garbage: map<nat, P>, ghost base: map<nat, P>,
                         ghost v0: World<P>)
    returns (w: Wal<P>, ghost v: World<P>)
    requires On(base, w0, v0) && Enabled(w0, Crash(toOld, kept, garbage))
    ensures On(base, w, v) && w == Next(w0, Crash(toOld, kept, garbage))
    ensures w.phase == Synced(Copy(w.pages.Keys), true) && !w.broken && !w.dirty
    ensures v.all <= v0.all && v0.acked <= |v.all| == v.acked && (v.all != [] ==> Last(v.all) == Durable)
  {
    OnInv(base, w0, v0);
    CrashFacts(v0, toOld, kept, garbage);
    w, v := Take(w0, Crash(toOld, kept, garbage), base, v0);
    EndsWithDurable(v.all);
  }

  lemma EndsWithDurable<P>(rs: seq<Record<P>>)
    requires LastDurable(rs) == |rs|
    ensures rs != [] ==> Last(rs) == Durable
  {}

  lemma OpenedClean<P(!new)>(base: map<nat, P>, w: Wal<P>, v: World<P>)
    requires On(base, w, v) && Settled(w) && w.phase.Idle? && !w.broken && !w.dirty && w.pages == map[]
             && w.unsynced == {}
    ensures AllDurable(v) && w.data == base + PagesOf(v.all)
  {
    OnInv(base, w, v);
    CleanIsDurable(v);
    ReadsAsLogged(v);
  }

  lemma CheckpointEmpties<P(!new)>(base: map<nat, P>, w: Wal<P>, v: World<P>)
    requires On(base, w, v) && w.phase.Idle? && !w.broken && w.pages == map[] && w.unsynced == {} && w.log == Fresh(w)
    ensures Emptied(base, w, v)
  {
    FreshHasNoPages(w);
    assert w.data == base + PagesOf(v.all) by {
      OnInv(base, w, v);
      ReadsAsLogged(v);
    }
  }

  lemma FreshHasNoPages<P>(w: Wal<P>)
    ensures forall i :: 0 <= i < |Fresh(w)| ==> !Fresh(w)[i].Page?
  {
    CarriedHasNoPages<P>(w.open);
  }

  /** With nothing in the log, the data file is what was logged. */
  lemma ReadsAsLogged<P>(w: World<P>)
    requires Inv(w) && w.wal.phase.Idle? && w.wal.pages == map[] && w.wal.unsynced == {}
    ensures w.wal.data == w.base + PagesOf(w.all)
  {
    forall id ensures Find(w.wal.data, id) == Find(w.base + PagesOf(w.all), id) { OverlayIsNewest(w, id); }
    SameFinds(w.wal.data, w.base + PagesOf(w.all));
  }

  class Log<P(!new)> {
    var w: Wal<P>
    ghost const base: map<nat, P>
    ghost var world: World<P>

    ghost predicate Valid()
      reads this
    {
      On(base, w, world) && Settled(w)
    }

    constructor (data: map<nat, P>)
      ensures Valid() && base == data && world.all == [] && w.pages == map[] && !w.broken
    {
      var first, start := FirstOpen(data);
      w, base, world := first, data, start;
    }

    /** Keeps a transaction record in memory until the next page or durable point. */
    method LogRecord(r: TxnRecord)
      requires Valid() && w.phase.Idle?
      modifies this
      ensures Valid() && world.all == old(world.all) + [Txn(r)]
    {
      w, world := Take(w, LogTxn(r), base, world);
    }

    /** Appends a page image; reads of the page return it from now on. */
    method LogImage(id: nat, image: P) returns (ok: bool)
      requires Valid()
      modifies this
      ensures Valid() && (ok <==> !old(w.broken))
      ensures if ok then world.all == old(world.all) + [Page(id, image)] && ReadPage(w, id) == Some(image)
              else w == old(w) && world == old(world)
    {
      if w.broken {
        return false;
      }
      w, world := Take(w, LogPage(id, image), base, world);
      return true;
    }

    /** What a crash leaves, opened again. An open that fails leaves nothing to use. */
    method OpenAgain(toOld: bool, kept: nat, garbage: map<nat, P>, faults: Faults) returns (ok: bool)
      requires Valid() && Enabled(w, Crash(toOld, kept, garbage))
      modifies this
      ensures ok ==>
              Valid() && !w.broken && AllDurable(world) && w.data == base + PagesOf(world.all) && w.pages == map[]
      ensures world.all <= old(world.all) && old(world.acked) <= |world.all|
              && (world.all != [] ==> Last(world.all) == Durable)
      ensures ok <==> !Hits(faults, Next(old(w), Crash(toOld, kept, garbage)).pages)
    {
      ok, w, world := Reopen(w, toOld, kept, garbage, faults, base, world);
    }

    method Sync(syncOk: bool, checkpoint: bool, faults: Faults) returns (ok: bool)
      requires Valid()
      modifies this
      ensures Valid() && (ok <==> !old(w.broken) && (!old(w.dirty) || syncOk))
      ensures ok ==> world.all == if old(w.dirty) then old(world.all) + [Durable] else old(world.all)
      ensures ok && !w.broken ==> AllDurable(world)
      ensures ok && old(w.dirty) && checkpoint && !Hits(faults, old(w.pages)) ==> Emptied(base, w, world)
      ensures w.broken <==>
              old(w.broken) || (old(w.dirty) && (!syncOk || (checkpoint && Breaks(faults, old(w.pages)))))
    {
      ok, w, world := MakeDurable(w, syncOk, checkpoint, faults, base, world);
    }
  }
}
