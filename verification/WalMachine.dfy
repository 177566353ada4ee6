/** The write-ahead log over storage that can lose what was not synced. A run may crash at any
    step, inside a checkpoint and inside the recovery of an earlier crash included. */
module WalMachine {
  import opened Base
  import opened WalLog

  /** How far a checkpoint has come. `Opening` is a checkpoint that `open` runs over a log it has
      just replayed; nothing is logged before it is done. */
  datatype Phase = Idle | Synced(next: Stage, opening: bool)

  datatype Stage = Copy(left: set<nat>) | Aside | SyncAside | Rename | SyncDir

  /** `log`, `replaced` and `data` are files: `log[..synced]` is on storage, `replaced` is a replaced log that
      a crash may bring back until the directory is synced, and `data` may hold anything for the
      pages in `unsynced`. The rest is the state of the process. */
  datatype Wal<P> = Wal(
    log: seq<Record<P>>,
    synced: nat,
    replaced: Option<seq<Record<P>>>,
    data: map<nat, P>,
    unsynced: set<nat>,
    buffered: seq<TxnRecord>,
    pages: map<nat, P>,
    open: Open,
    dirty: bool,
    broken: bool,
    phase: Phase)

  datatype Step<P> =
    | LogTxn(record: TxnRecord)
    | LogPage(id: nat, image: P)
    | DurablePoint(ok: bool)
    | StartCheckpoint
    | CopyPage(copied: nat)
    | SyncData(ok: bool)
    | WriteAside
    | SyncAsideFile(ok: bool)
    | RenameLog
    | SyncDirectory(ok: bool)
    | GiveUp
    | Crash(toOld: bool, kept: nat, garbage: map<nat, P>)

  predicate CanLog<P>(w: Wal<P>) { w.phase.Idle? && !w.broken }

  predicate At<P>(w: Wal<P>, stage: Stage) { w.phase.Synced? && w.phase.next == stage && !w.broken }

  predicate Enabled<P>(w: Wal<P>, step: Step<P>) {
    match step
    case LogTxn(_) => w.phase.Idle?
    case LogPage(_, _) => CanLog(w)
    case DurablePoint(_) => CanLog(w) && w.dirty
    case StartCheckpoint => CanLog(w) && !w.dirty && w.synced == |w.log| && w.buffered == []
    case CopyPage(id) => w.phase.Synced? && w.phase.next.Copy? && !w.broken && id in w.phase.next.left && id in w.pages
    case SyncData(_) => At(w, Copy({}))
    case WriteAside => At(w, Aside)
    case SyncAsideFile(_) => At(w, SyncAside)
    case RenameLog => At(w, Rename)
    case SyncDirectory(_) => At(w, SyncDir)
    case GiveUp => w.phase.Synced? && !w.phase.opening && !w.phase.next.SyncDir? && !w.broken
    case Crash(toOld, kept, garbage) =>
      if toOld then w.replaced.Some? else w.synced <= kept <= |w.log|
  }

  function Fresh<P>(w: Wal<P>): seq<Record<P>> { Carried(w.open) + [Durable] }

  /** What storage holds of the data file once a crash has put `garbage` in unsynced pages. */
  function DataAfterCrash<P>(w: Wal<P>, garbage: map<nat, P>): map<nat, P> {
    (w.data - w.unsynced) + (map p | p in garbage && p in w.unsynced :: garbage[p])
  }

  /** The state `open` builds from the files: pages and open transactions up to the last durable
      point, with a checkpoint to follow. */
  function Reopened<P>(log: seq<Record<P>>, data: map<nat, P>): Wal<P> {
    var pages := PagesOf(DurablePart(log));
    Wal(log, |log|, None, data, {}, [], pages, OpenOf(DurablePart(log)), false, false, Synced(Copy(pages.Keys), true))
  }

  function Next<P>(w: Wal<P>, step: Step<P>): Wal<P>
    requires Enabled(w, step)
  {
    match step
    case LogTxn(r) => w.(open := Track(w.open, r), buffered := w.buffered + [r], dirty := true)
    case LogPage(id, image) =>
      w.(log := w.log + Tagged(w.buffered) + [Page(id, image)], buffered := [], pages := w.pages[id := image],
          dirty := true)
    case DurablePoint(ok) =>
      var log := w.log + Tagged(w.buffered) + [Durable];
      if ok then w.(log := log, synced := |log|, buffered := [], dirty := false)
      else w.(log := log, buffered := [], broken := true)
    case StartCheckpoint => w.(phase := Synced(Copy(w.pages.Keys), false))
    case CopyPage(id) =>
        w.(unsynced := w.unsynced + {id}, phase := Synced(Copy(w.phase.next.left - {id}), w.phase.opening))
    case SyncData(ok) =>
      if ok then w.(data := w.data + w.pages, unsynced := {}, phase := Synced(Aside, w.phase.opening))
          else w.(broken := true)
    case WriteAside => w.(phase := Synced(SyncAside, w.phase.opening))
    case SyncAsideFile(ok) => if ok then w.(phase := Synced(Rename, w.phase.opening)) else w.(broken := true)
    case RenameLog =>
      w.(log := Fresh(w), synced := |Fresh(w)|, replaced := Some(w.log), buffered := [], pages := map[],
          dirty := false, phase := Synced(SyncDir, w.phase.opening))
    case SyncDirectory(ok) => if ok then w.(replaced := None, phase := Idle) else w.(broken := true)
    case GiveUp => w.(phase := Idle)
    case Crash(toOld, kept, garbage) =>
      Reopened(if toOld then w.replaced.value else w.log[..kept], DataAfterCrash(w, garbage))
  }

  /** A page read through the overlay: the newest logged image, else the data file. */
  function ReadPage<P>(w: Wal<P>, id: nat): Option<P> { Find(w.pages, id).Or(Find(w.data, id)) }

  // ---------------------------------------------------------------- the logical log

  /** `all` is everything ever logged and not lost in a crash, over the data file `base`. The log
      file holds `pre`, which stands for `all[..mark]`, then the records after `mark`, then what a
      crash left of a tail past the last durable point. `acked` is how much of `all` some durable
      point, or a recovery that has read it back, has promised to keep. */
  datatype Generation<P> = Generation(pre: seq<Record<P>>, mark: nat, junk: seq<Record<P>>)

  datatype World<P> = World(wal: Wal<P>, base: map<nat, P>, all: seq<Record<P>>, acked: nat, gen: Generation<P>,
      prev: Generation<P>)

  /** The place in `all` that a log of generation `g` recovers to. */
  function RecoveredTo<P>(g: Generation<P>, log: seq<Record<P>>): int { g.mark + LastDurable(log) - |g.pre| }

  function Tail<P>(log: seq<Record<P>>): seq<Record<P>> { log[LastDurable(log)..] }

  function WorldNext<P>(w: World<P>, step: Step<P>): World<P>
    requires Enabled(w.wal, step)
  {
    var w1 := w.(wal := Next(w.wal, step));
    match step
    case LogTxn(r) => w1.(all := w.all + [Txn(r)])
    case LogPage(id, image) => w1.(all := w.all + [Page(id, image)])
    case DurablePoint(ok) => w1.(all := w.all + [Durable], acked := if ok then |w.all| + 1 else w.acked)
    case RenameLog => w1.(gen := Generation(Fresh(w.wal), |w.all|, []), prev := w.gen)
    case Crash(toOld, kept, _) =>
      var g, log := if toOld then w.prev else w.gen, w1.wal.log;
      var d := RecoveredTo(g, log);
      var all := if 0 <= d <= |w.all| then w.all[..d] else w.all;
      w1.(all := all, acked := |all|, gen := g.(junk := Tail(log)))
    case _ => w1
  }

  function Run<P>(w: World<P>, steps: seq<Step<P>>): Option<World<P>> {
    if steps == [] then Some(w)
    else
      var before := Run(w, Base.Init(steps));
      if before.Some? && Enabled(before.value.wal, Last(steps)) then Some(WorldNext(before.value, Last(steps)))
          else None
  }

  /** The first open of a data file with no log. */
  function Start<P>(data: map<nat, P>): World<P> {
    World(Reopened([], data), data, [], 0, Generation([], 0, []), Generation([], 0, []))
  }

  // ---------------------------------------------------------------- the invariant

  /** `log` followed by `buffered` is what generation `g` of the log says it is. */
  ghost predicate GenerationOk<P>(g: Generation<P>, all: seq<Record<P>>, log: seq<Record<P>>) {
    && g.mark <= |all| && (g.mark > 0 ==> all[g.mark - 1] == Durable)
    && LastDurable(g.pre) == |g.pre| && (forall i :: 0 <= i < |g.pre| ==> !g.pre[i].Page?)
    && OpenOf(g.pre) == OpenOf(all[..g.mark])
    && log == g.pre + all[g.mark..] + g.junk
    && LastDurable(g.junk) == 0
  }

  /** Pages with no durable image in the log are in the data file as of `mark`. */
  ghost predicate DataOk<P>(g: Generation<P>, base: map<nat, P>, all: seq<Record<P>>, data: map<nat, P>,
                            unsynced: set<nat>, logged: map<nat, P>) {
    g.mark <= |all|
        && forall p :: p !in logged ==> p !in unsynced && Find(data, p) == Find(base + PagesOf(all[..g.mark]), p)
  }

  ghost predicate LogOk<P>(w: World<P>) {
    var l := w.wal;
    && GenerationOk(w.gen, w.all, l.log + Tagged(l.buffered))
    && |w.gen.pre| <= l.synced <= |l.log|
    && l.open == OpenOf(w.all)
    && l.pages == PagesOf(w.all[w.gen.mark..])
    && w.acked <= RecoveredTo(w.gen, l.log[..l.synced])
    && DataOk(w.gen, w.base, w.all, l.data, l.unsynced, PagesOf(DurablePart(l.log[..l.synced])))
  }

  ghost predicate PhaseOk<P>(w: World<P>) {
    var l := w.wal;
    && (l.phase.Idle? || !l.phase.opening || l.phase.next.SyncDir? ==> w.gen.junk == [])
    && (l.phase.Synced? ==> l.buffered == [] && l.synced == |l.log|)
    && (l.phase.Synced? || (!l.dirty && !l.broken) ==> LastDurable(w.all) == |w.all|)
    && (l.phase.Synced? && !l.phase.next.Copy? ==> l.unsynced == {} && l.data == w.base + PagesOf(w.all))
    && (l.replaced.Some? ==>
        l.phase.Synced? && l.phase.next.SyncDir? && w.gen.mark == |w.all|
        && GenerationOk(w.prev, w.all, l.replaced.value))
  }

  ghost predicate Inv<P>(w: World<P>) { LogOk(w) && PhaseOk(w) }

  /** Logging one record extends the file and the logical log alike. */
  lemma Grows<P>(g: Generation<P>, all: seq<Record<P>>, log: seq<Record<P>>, r: Record<P>)
    requires GenerationOk(g, all, log) && g.junk == []
    ensures GenerationOk(g, all + [r], log + [r])
    ensures (all + [r])[..g.mark] == all[..g.mark]
    ensures OpenOf(all + [r]) == if r.Txn? then Track(OpenOf(all), r.record) else OpenOf(all)
    ensures PagesOf((all + [r])[g.mark..]) == if r.Page? then PagesOf(all[g.mark..])[r.id := r.image]
            else PagesOf(all[g.mark..])
  {
    assert Base.Init(all + [r]) == all && (all + [r])[..g.mark] == all[..g.mark];
    assert (all + [r])[g.mark..] == all[g.mark..] + [r];
    assert Base.Init(all[g.mark..] + [r]) == all[g.mark..];
  }

  lemma StartInv<P>(data: map<nat, P>)
    ensures Inv(Start(data))
  {
    var w := Start(data);
    assert w.wal.log + Tagged(w.wal.buffered) == w.gen.pre + w.all[w.gen.mark..] + w.gen.junk;
    assert w.base + PagesOf<P>(w.all[..w.gen.mark]) == w.base;
  }

  lemma LogTxnInv<P>(w: World<P>, r: TxnRecord)
    requires Inv(w) && Enabled(w.wal, LogTxn(r))
    ensures Inv(WorldNext(w, LogTxn(r)))
  {
    var l, w' := w.wal, WorldNext(w, LogTxn(r));
    Grows(w.gen, w.all, l.log + Tagged(l.buffered), Txn(r));
    assert w'.wal.log + Tagged(w'.wal.buffered) == l.log + Tagged(l.buffered) + [Txn(r)];
    assert LogOk(w');
    assert PhaseOk(w');
  }

  lemma LogPageInv<P>(w: World<P>, id: nat, image: P)
    requires Inv(w) && Enabled(w.wal, LogPage(id, image))
    ensures Inv(WorldNext(w, LogPage(id, image)))
  {
    var l, w' := w.wal, WorldNext(w, LogPage(id, image));
    Grows(w.gen, w.all, l.log + Tagged(l.buffered), Page(id, image));
    assert w'.wal.log + Tagged(w'.wal.buffered) == l.log + Tagged(l.buffered) + [Page(id, image)];
    assert w'.wal.log[..l.synced] == l.log[..l.synced];
    assert LogOk(w');
    assert PhaseOk(w');
  }

  lemma LoggedPrefix<P>(a: seq<Record<P>>, b: seq<Record<P>>)
    requires a <= b
    ensures PagesOf(a).Keys <= PagesOf(b).Keys
  {
    PagesOfAppend(a, b[|a|..]);
    assert a + b[|a|..] == b;
  }

  lemma DurablePointFailsInv<P>(w: World<P>)
    requires Inv(w) && Enabled(w.wal, DurablePoint(false))
    ensures Inv(WorldNext(w, DurablePoint(false)))
  {
    var l, w' := w.wal, WorldNext(w, DurablePoint(false));
    Grows(w.gen, w.all, l.log + Tagged(l.buffered), Durable);
    assert w'.wal.log + Tagged(w'.wal.buffered) == l.log + Tagged(l.buffered) + [Durable];
    assert w'.wal.log[..l.synced] == l.log[..l.synced];
    assert LogOk(w');
    assert PhaseOk(w');
  }

  lemma DurablePointInv<P>(w: World<P>)
    requires Inv(w) && Enabled(w.wal, DurablePoint(true))
    ensures Inv(WorldNext(w, DurablePoint(true)))
  {
    var w' := WorldNext(w, DurablePoint(true));
    var l, l' := w.wal, w'.wal;
    var before := DurablePart(l.log[..l.synced]);
    assert l'.log[..l'.synced] == l'.log && DurablePart(l'.log) == l'.log && l'.log + Tagged([]) == l'.log;
    Grows(w.gen, w.all, l.log + Tagged(l.buffered), Durable);
    assert DataOk(w.gen, w.base, w'.all, l'.data, l'.unsynced, PagesOf(l'.log)) by {
      assert before <= l'.log;
      LoggedPrefix(before, l'.log);
    }
    assert LogOk(w');
    assert PhaseOk(w');
  }

  lemma StartCheckpointInv<P>(w: World<P>)
    requires Inv(w) && Enabled(w.wal, StartCheckpoint)
    ensures Inv(WorldNext(w, StartCheckpoint))
  {}

  lemma AllLogged<P>(g: Generation<P>, all: seq<Record<P>>, log: seq<Record<P>>)
    requires GenerationOk(g, all, log) && LastDurable(all) == |all|
    ensures LastDurable(log) == |g.pre| + |all| - g.mark && DurablePart(log) == g.pre + all[g.mark..]
    ensures PagesOf(DurablePart(log)) == PagesOf(all[g.mark..])
    ensures PagesOf(all) == PagesOf(all[..g.mark]) + PagesOf(all[g.mark..])
    ensures OpenOf(DurablePart(log)) == OpenOf(all)
    ensures RecoveredTo(g, log) == |all|
  {
    AllIsDurable(g, all, log);
    assert all[..g.mark] + all[g.mark..] == all;
    PagesOfAppend(g.pre, all[g.mark..]);
    NoPages(g.pre);
    PagesOfAppend(all[..g.mark], all[g.mark..]);
    OpenAfterAppend(map[], g.pre, all[g.mark..]);
    OpenAfterAppend(map[], all[..g.mark], all[g.mark..]);
  }

  lemma AllIsDurable<P>(g: Generation<P>, all: seq<Record<P>>, log: seq<Record<P>>)
    requires GenerationOk(g, all, log) && LastDurable(all) == |all|
    ensures LastDurable(log) == |g.pre| + |all| - g.mark && DurablePart(log) == g.pre + all[g.mark..]
  {
    LastDurableAppend(g.pre + all[g.mark..], g.junk);
    LastDurableAppend(g.pre, all[g.mark..]);
    assert all[..g.mark] + all[g.mark..] == all;
    LastDurableAppend(all[..g.mark], all[g.mark..]);
  }

  lemma CopyPageInv<P>(w: World<P>, id: nat)
    requires Inv(w) && Enabled(w.wal, CopyPage(id))
    ensures Inv(WorldNext(w, CopyPage(id)))
  {
    AllLogged(w.gen, w.all, w.wal.log + Tagged(w.wal.buffered));
    assert w.wal.log + Tagged([]) == w.wal.log && w.wal.log[..w.wal.synced] == w.wal.log;
  }

  lemma SyncDataInv<P>(w: World<P>)
    requires Inv(w) && Enabled(w.wal, SyncData(true))
    ensures Inv(WorldNext(w, SyncData(true)))
  {
    var l, w' := w.wal, WorldNext(w, SyncData(true));
    assert l.log + Tagged([]) == l.log && l.log[..l.synced] == l.log;
    AllLogged(w.gen, w.all, l.log);
    SyncedData(w);
    assert LogOk(w');
    assert PhaseOk(w');
  }

  /** The data file holds every page once the logged ones are copied to it. */
  lemma SyncedData<P>(w: World<P>)
    requires Inv(w) && Enabled(w.wal, SyncData(true))
    ensures w.wal.data + w.wal.pages == w.base + PagesOf(w.all)
  {
    var l := w.wal;
    assert l.log + Tagged([]) == l.log && l.log[..l.synced] == l.log;
    AllLogged(w.gen, w.all, l.log);
    forall p ensures Find(l.data + l.pages, p) == Find(w.base + PagesOf(w.all), p) {}
    SameFinds(l.data + l.pages, w.base + PagesOf(w.all));
  }

  lemma SameFinds<K, V>(m: map<K, V>, n: map<K, V>)
    requires forall k :: Find(m, k) == Find(n, k)
    ensures m == n
  {
    forall k ensures k in m <==> k in n { assert Find(m, k) == Find(n, k); }
    forall k | k in m ensures m[k] == n[k] { assert Find(m, k) == Find(n, k); }
  }

  lemma WriteAsideInv<P>(w: World<P>)
    requires Inv(w) && Enabled(w.wal, WriteAside)
    ensures Inv(WorldNext(w, WriteAside))
  {
    var w' := WorldNext(w, WriteAside);
    assert LogOk(w');
    assert PhaseOk(w');
  }

  lemma SyncAsideInv<P>(w: World<P>, ok: bool)
    requires Inv(w) && Enabled(w.wal, SyncAsideFile(ok))
    ensures Inv(WorldNext(w, SyncAsideFile(ok)))
  {
    var w' := WorldNext(w, SyncAsideFile(ok));
    assert LogOk(w');
    assert PhaseOk(w');
  }

  lemma SyncDataFailsInv<P>(w: World<P>)
    requires Inv(w) && Enabled(w.wal, SyncData(false))
    ensures Inv(WorldNext(w, SyncData(false)))
  {
    var w' := WorldNext(w, SyncData(false));
    assert LogOk(w');
    assert PhaseOk(w');
  }

  lemma GiveUpInv<P>(w: World<P>)
    requires Inv(w) && Enabled(w.wal, GiveUp)
    ensures Inv(WorldNext(w, GiveUp))
  {
    var w' := WorldNext(w, GiveUp);
    assert LogOk(w');
    assert PhaseOk(w');
  }

  lemma SyncDirectoryInv<P>(w: World<P>, ok: bool)
    requires Inv(w) && Enabled(w.wal, SyncDirectory(ok))
    ensures Inv(WorldNext(w, SyncDirectory(ok)))
  {
    var w' := WorldNext(w, SyncDirectory(ok));
    assert LogOk(w');
    assert PhaseOk(w');
  }

  lemma FreshGeneration<P>(all: seq<Record<P>>, open: Open)
    requires LastDurable(all) == |all| && open == OpenOf(all) && OwnRecords(open)
    ensures var file := Carried<P>(open) + [Durable];
            GenerationOk(Generation(file, |all|, []), all, file) && PagesOf(file) == map[]
  {
    var carried := Carried<P>(open);
    var file := carried + [Durable];
    assert OpenOf(file) == open by {
      CarriedOpens<P>(map[], open);
      assert map[] + open == open;
      assert Base.Init(file) == carried;
    }
    assert forall i :: 0 <= i < |file| ==> !file[i].Page? by { CarriedHasNoPages<P>(open); }
    NoPages(file);
    assert all[..|all|] == all;
    assert file == file + all[|all|..] + [];
  }

  lemma RenamedLog<P>(w: World<P>)
    requires Enabled(w.wal, RenameLog) && w.wal.open == OpenOf(w.all) && LastDurable(w.all) == |w.all|
             && w.acked <= |w.all|
    requires w.wal.unsynced == {} && w.wal.data == w.base + PagesOf(w.all)
    ensures LogOk(WorldNext(w, RenameLog))
  {
    var l' := WorldNext(w, RenameLog).wal;
    OpenHasOwnRecords<P>(map[], w.all);
    FreshGeneration(w.all, w.wal.open);
    assert w.all[..|w.all|] == w.all && w.all[|w.all|..] == [];
    assert l'.log + Tagged([]) == l'.log && l'.log[..l'.synced] == l'.log;
  }

  lemma RenameInv<P>(w: World<P>)
    requires Inv(w) && Enabled(w.wal, RenameLog)
    ensures Inv(WorldNext(w, RenameLog))
  {
    AckedInAll(w);
    RenamedLog(w);
    assert w.wal.log + Tagged([]) == w.wal.log;
    assert PhaseOk(WorldNext(w, RenameLog));
  }

  // ---------------------------------------------------------------- crashes

  /** The last durable point of a cut log is not in what an earlier crash left behind. */
  lemma CutBounds<P>(g: Generation<P>, all: seq<Record<P>>, file: seq<Record<P>>, log: seq<Record<P>>)
    requires GenerationOk(g, all, file) && log <= file && |g.pre| <= |log|
    ensures |g.pre| <= LastDurable(log) <= |g.pre| + |all| - g.mark
  {
    LastDurablePrefix(g.pre, log);
  }

  /** Cutting a log anywhere after its carried records leaves a log that recovers to a durable
      point of the logical log. */
  lemma CutLog<P>(g: Generation<P>, all: seq<Record<P>>, file: seq<Record<P>>, log: seq<Record<P>>)
    requires GenerationOk(g, all, file) && log <= file && |g.pre| <= |log|
    ensures var d := RecoveredTo(g, log);
            && g.mark <= d <= |all| && LastDurable(all[..d]) == d
            && GenerationOk(g.(junk := Tail(log)), all[..d], log)
  {
    CutBounds(g, all, file, log);
    var n, d := LastDurable(log), RecoveredTo(g, log);
    assert log[..n] == g.pre + all[g.mark..d];
    assert all[..d][g.mark..] == all[g.mark..d] && all[..d][..g.mark] == all[..g.mark];
    assert n > |g.pre| ==> all[d - 1] == log[n - 1];
    EndsDurable(all[..d]);
    NoneLeft(log);
  }

  lemma EndsDurable<P>(rs: seq<Record<P>>)
    requires |rs| > 0 ==> rs[|rs| - 1] == Durable
    ensures LastDurable(rs) == |rs|
  {}

  lemma NoneLeft<P>(rs: seq<Record<P>>)
    ensures LastDurable(Tail(rs)) == 0
  {}

  lemma LastDurablePrefix<P>(a: seq<Record<P>>, b: seq<Record<P>>)
    requires a <= b
    ensures LastDurable(a) <= LastDurable(b) && DurablePart(a) <= DurablePart(b)
  {
    LastDurableAppend(a, b[|a|..]);
    assert a + b[|a|..] == b;
  }

  lemma ReopenedInv<P>(g: Generation<P>, base: map<nat, P>, all: seq<Record<P>>, log: seq<Record<P>>, data: map<nat,
                       P>, acked: nat, prev: Generation<P>)
    requires GenerationOk(g, all, log) && LastDurable(all) == |all| && acked <= |all|
    requires DataOk(g, base, all, data, {}, PagesOf(DurablePart(log)))
    ensures Inv(World(Reopened(log, data), base, all, acked, g, prev))
  {
    AllLogged(g, all, log);
    assert log + Tagged([]) == log && log[..|log|] == log;
    var w := World(Reopened(log, data), base, all, acked, g, prev);
    assert LogOk(w);
    assert PhaseOk(w);
  }

  lemma CutData<P>(w: Wal<P>, g: Generation<P>, base: map<nat, P>, all: seq<Record<P>>, log: seq<Record<P>>, d: nat,
                   garbage: map<nat, P>)
    requires w.synced <= |w.log| && w.log[..w.synced] <= log && g.mark <= d <= |all|
    requires DataOk(g, base, all, w.data, w.unsynced, PagesOf(DurablePart(w.log[..w.synced])))
    ensures DataOk(g, base, all[..d], DataAfterCrash(w, garbage), {}, PagesOf(DurablePart(log)))
  {
    LastDurablePrefix(w.log[..w.synced], log);
    LoggedPrefix(DurablePart(w.log[..w.synced]), DurablePart(log));
    assert all[..d][..g.mark] == all[..g.mark];
  }

  lemma FullData<P>(g: Generation<P>, base: map<nat, P>, all: seq<Record<P>>, log: seq<Record<P>>)
    requires GenerationOk(g, all, log) && LastDurable(all) == |all|
    ensures DataOk(g, base, all, base + PagesOf(all), {}, PagesOf(DurablePart(log)))
  {
    AllLogged(g, all, log);
  }

  /** A crash keeps a durable point no older than any acknowledged one, and the pages and open
      transactions of that point are what the files recover to. */
  lemma CrashToCurrent<P>(w: World<P>, kept: nat, garbage: map<nat, P>)
    requires LogOk(w) && Enabled(w.wal, Crash(false, kept, garbage))
    ensures Inv(WorldNext(w, Crash(false, kept, garbage)))
    ensures var w' := WorldNext(w, Crash(false, kept, garbage)); w'.all <= w.all && w.acked <= |w'.all|
  {
    var l, w', log := w.wal, WorldNext(w, Crash(false, kept, garbage)), w.wal.log[..kept];
    CutLog(w.gen, w.all, l.log + Tagged(l.buffered), log);
    assert l.log[..l.synced] <= log;
    LastDurablePrefix(l.log[..l.synced], log);
    CutData(l, w.gen, w.base, w.all, log, RecoveredTo(w.gen, log), garbage);
    ReopenedInv(w'.gen, w.base, w'.all, log, w'.wal.data, |w'.all|, w'.prev);
  }

  lemma AckedInAll<P>(w: World<P>)
    requires Inv(w) && w.wal.phase.Synced?
    ensures w.acked <= |w.all|
  {
    var l := w.wal;
    assert l.log + Tagged([]) == l.log && l.log[..l.synced] == l.log;
    AllLogged(w.gen, w.all, l.log);
  }

  lemma CrashToReplaced<P>(w: World<P>, kept: nat, garbage: map<nat, P>)
    requires PhaseOk(w) && w.acked <= |w.all| && Enabled(w.wal, Crash(true, kept, garbage))
    ensures Inv(WorldNext(w, Crash(true, kept, garbage)))
    ensures var w' := WorldNext(w, Crash(true, kept, garbage)); w'.all == w.all && w.acked <= |w'.all|
  {
    var w', log := WorldNext(w, Crash(true, kept, garbage)), w.wal.replaced.value;
    ReplacedRecovers(w.prev, w.all, log);
    FullData(w'.gen, w.base, w.all, log);
    NothingUnsynced(w.wal, garbage);
    ReopenedInv(w'.gen, w.base, w'.all, log, w'.wal.data, |w'.all|, w'.prev);
  }

  lemma NothingUnsynced<P>(w: Wal<P>, garbage: map<nat, P>)
    requires w.unsynced == {}
    ensures DataAfterCrash(w, garbage) == w.data
  {}

  lemma ReplacedRecovers<P>(g: Generation<P>, all: seq<Record<P>>, log: seq<Record<P>>)
    requires GenerationOk(g, all, log) && LastDurable(all) == |all|
    ensures RecoveredTo(g, log) == |all| && all[..|all|] == all && GenerationOk(g.(junk := Tail(log)), all, log)
  {
    AllLogged(g, all, log);
    CutLog(g, all, log, log);
  }

  // ---------------------------------------------------------------- every run

  lemma StepInv<P>(w: World<P>, step: Step<P>)
    requires Inv(w) && Enabled(w.wal, step)
    ensures Inv(WorldNext(w, step))
  {
    match step
    case LogTxn(r) => LogTxnInv(w, r);
    case LogPage(id, image) => LogPageInv(w, id, image);
    case DurablePoint(ok) => if ok { DurablePointInv(w); } else { DurablePointFailsInv(w); }
    case StartCheckpoint => StartCheckpointInv(w);
    case CopyPage(id) => CopyPageInv(w, id);
    case SyncData(ok) => if ok { SyncDataInv(w); } else { SyncDataFailsInv(w); }
    case WriteAside => WriteAsideInv(w);
    case SyncAsideFile(ok) => SyncAsideInv(w, ok);
    case RenameLog => RenameInv(w);
    case SyncDirectory(ok) => SyncDirectoryInv(w, ok);
    case GiveUp => GiveUpInv(w);
    case Crash(toOld, kept, garbage) =>
      if toOld {
        AckedInAll(w);
        CrashToReplaced(w, kept, garbage);
      } else {
        CrashToCurrent(w, kept, garbage);
      }
  }

  lemma {:induction false} RunInv<P>(w: World<P>, steps: seq<Step<P>>)
    requires Inv(w) && Run(w, steps).Some?
    ensures Inv(Run(w, steps).value) && Run(w, steps).value.base == w.base
  {
    if steps != [] {
      RunInv(w, Base.Init(steps));
      StepInv(Run(w, Base.Init(steps)).value, Last(steps));
    }
  }

  /** The pages and the transactions to roll back that `open` finds in the files. */
  function RecoveredPages<P>(log: seq<Record<P>>, data: map<nat, P>): map<nat, P> { data + PagesOf(DurablePart(log)) }

  lemma CrashFacts<P>(w: World<P>, toOld: bool, kept: nat, garbage: map<nat, P>)
    requires Inv(w) && Enabled(w.wal, Crash(toOld, kept, garbage))
    ensures var w' := WorldNext(w, Crash(toOld, kept, garbage));
            && w'.all <= w.all && w.acked <= |w'.all| && LastDurable(w'.all) == |w'.all|
            && RecoveredPages(w'.wal.log, w'.wal.data) == w.base + PagesOf(w'.all)
            && Unfinished(DurablePart(w'.wal.log)) == Unfinished(w'.all)
  {
    var w' := WorldNext(w, Crash(toOld, kept, garbage));
    if toOld {
      AckedInAll(w);
      CrashToReplaced(w, kept, garbage);
    } else {
      CrashToCurrent(w, kept, garbage);
    }
    ReopenedRecovers(w');
    UnfinishedFromOpen(DurablePart(w'.wal.log), w'.all);
  }

  lemma ReopenedRecovers<P>(w: World<P>)
    requires Inv(w) && w.wal.phase.Synced? && w.wal.unsynced == {}
    ensures RecoveredPages(w.wal.log, w.wal.data) == w.base + PagesOf(w.all)
    ensures OpenOf(DurablePart(w.wal.log)) == OpenOf(w.all)
  {
    var l := w.wal;
    assert l.log + Tagged([]) == l.log && l.log[..l.synced] == l.log;
    AllLogged(w.gen, w.all, l.log);
    forall p ensures Find(RecoveredPages(l.log, l.data), p) == Find(w.base + PagesOf(w.all), p) {}
    SameFinds(RecoveredPages(l.log, l.data), w.base + PagesOf(w.all));
  }

  lemma UnfinishedFromOpen<P>(a: seq<Record<P>>, b: seq<Record<P>>)
    requires OpenOf(a) == OpenOf(b)
    ensures Unfinished(a) == Unfinished(b)
  {
    UnfinishedIsOpen(a);
    UnfinishedIsOpen(b);
  }

  lemma WholeInCheckpoint<P>(w: World<P>, toOld: bool, kept: nat, garbage: map<nat, P>)
    requires Inv(w) && w.wal.phase.Synced? && Enabled(w.wal, Crash(toOld, kept, garbage))
    ensures WorldNext(w, Crash(toOld, kept, garbage)).all == w.all
  {
    if toOld {
      AckedInAll(w);
      CrashToReplaced(w, kept, garbage);
    } else {
      var l := w.wal;
      assert l.log + Tagged([]) == l.log && l.log[..kept] == l.log && w.all[..|w.all|] == w.all;
      AllLogged(w.gen, w.all, l.log);
    }
  }

  /** The log file a crash leaves. */
  function LogAfterCrash<P>(w: Wal<P>, toOld: bool, kept: nat): seq<Record<P>>
    requires if toOld then w.replaced.Some? else kept <= |w.log|
  {
    if toOld then w.replaced.value else w.log[..kept]
  }

  /** In every run, whatever of the unsynced bytes a crash keeps, the files recover exactly the
      pages and unfinished transactions logged up to one durable point, which is no older than the
      last acknowledged one. Crashes inside a checkpoint or inside an earlier recovery are runs
      like any other. */
  lemma CrashRecovers<P>(data: map<nat, P>, steps: seq<Step<P>>, toOld: bool, kept: nat, garbage: map<nat, P>)
    requires Run(Start(data), steps).Some? && Enabled(Run(Start(data), steps).value.wal, Crash(toOld, kept, garbage))
    ensures var w := Run(Start(data), steps).value;
            var log := LogAfterCrash(w.wal, toOld, kept);
            exists d :: && w.acked <= d <= |w.all| && (d > 0 ==> w.all[d - 1] == Durable)
                        && RecoveredPages(log, DataAfterCrash(w.wal, garbage)) == data + PagesOf(w.all[..d])
                        && Unfinished(DurablePart(log)) == Unfinished(w.all[..d])
  {
    var w := Run(Start(data), steps).value;
    assert Inv(w) && w.base == data by {
      StartInv(data);
      RunInv(Start(data), steps);
    }
    CrashFacts(w, toOld, kept, garbage);
    var d := |WorldNext(w, Crash(toOld, kept, garbage)).all|;
    assert w.all[..d] == WorldNext(w, Crash(toOld, kept, garbage)).all;
  }

  /** A checkpoint is invisible: at every step of it, the log it replaces and the log it writes
      both recover everything logged so far. */
  lemma CheckpointInvisible<P>(data: map<nat, P>, steps: seq<Step<P>>, toOld: bool, kept: nat, garbage: map<nat, P>)
    requires Run(Start(data), steps).Some? && Enabled(Run(Start(data), steps).value.wal, Crash(toOld, kept, garbage))
    requires Run(Start(data), steps).value.wal.phase.Synced?
    ensures var w := Run(Start(data), steps).value;
            var log := LogAfterCrash(w.wal, toOld, kept);
            && RecoveredPages(log, DataAfterCrash(w.wal, garbage)) == data + PagesOf(w.all)
            && Unfinished(DurablePart(log)) == Unfinished(w.all)
  {
    var w := Run(Start(data), steps).value;
    assert Inv(w) && w.base == data by {
      StartInv(data);
      RunInv(Start(data), steps);
    }
    CrashFacts(w, toOld, kept, garbage);
    WholeInCheckpoint(w, toOld, kept, garbage);
  }

  lemma OverlayIsNewest<P>(w: World<P>, id: nat)
    requires LogOk(w) && w.gen.junk == []
    ensures ReadPage(w.wal, id) == Find(w.base + PagesOf(w.all), id)
  {
    var l, rest := w.wal, w.all[w.gen.mark..];
    PagesOfAppend(w.all[..w.gen.mark], rest);
    assert w.all[..w.gen.mark] + rest == w.all;
    PagesOfAppend(w.gen.pre, rest);
    NoPages(w.gen.pre);
    var durable := DurablePart(l.log[..l.synced]);
    assert durable <= l.log + Tagged(l.buffered) && w.gen.pre + rest + [] == w.gen.pre + rest;
    LoggedPrefix(durable, w.gen.pre + rest);
  }

  /** Between crashes a page reads back as its newest logged image, else as the data file had it. */
  lemma ReadsNewest<P>(data: map<nat, P>, steps: seq<Step<P>>, id: nat)
    requires Run(Start(data), steps).Some? && Run(Start(data), steps).value.wal.phase.Idle?
    ensures var w := Run(Start(data), steps).value;
            ReadPage(w.wal, id) == Find(data + PagesOf(w.all), id)
  {
    StartInv(data);
    RunInv(Start(data), steps);
    OverlayIsNewest(Run(Start(data), steps).value, id);
  }
}
