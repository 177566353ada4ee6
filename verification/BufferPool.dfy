/** The buffer pool: frames that cache pages of the disk, with an ARC replacer choosing which frame to
    reuse. A section under the pool's lock is one call here, and disk requests may fail. */
module BufferPool {
  import opened Base
  import opened ArcLists
  import opened ArcReplacer

  datatype Frame = Frame(page: Option<nat>, buf: Bytes, dirty: bool)

  /** `writers` are the frames with a live write guard. */
  datatype Pool = Pool(arc: Arc, free: seq<nat>, table: map<nat, nat>, pins: seq<nat>, next: nat, freeIds: set<nat>,
                       frames: seq<Frame>, writers: set<nat>, disk: map<nat, Bytes>)

  datatype Error = NoFreeFrame | FrameInUse | Io | PagePinned | NoSuchPage | PageNotCached | PageIdsExhausted

  type Contents = map<nat, Bytes>

  // ---------------------------------------------------------------- the invariant

  /** What the replacer sees of a frame: its page, and that it may be evicted while nothing pins it. */
  function Seen(p: Pool, f: nat): Option<(nat, bool)> {
    if f < |p.frames| && f < |p.pins| && p.frames[f].page.Some? then Some((p.frames[f].page.value, p.pins[f] == 0))
        else None
  }

  ghost predicate ReplacerAgrees(p: Pool) { forall f: nat :: View(p.arc, f) == Seen(p, f) }

  /** The page table and the frames lead to each other; a frame without a page is free, unless it is reserved. */
  predicate TableOk(p: Pool, reserved: Option<nat>) {
    && |p.pins| == |p.frames| && NoRepeats(p.free)
    && (forall pg :: pg in p.table ==> p.table[pg] < |p.frames| && p.frames[p.table[pg]].page == Some(pg))
    && (forall f: nat :: f < |p.frames| ==> FrameOk(p, f, reserved))
    && (forall f :: f in p.free ==> f < |p.frames|)
  }

  predicate FrameOk(p: Pool, f: nat, reserved: Option<nat>)
    requires f < |p.frames| == |p.pins|
  {
    var fr := p.frames[f];
    && (fr.page.Some? ==> Find(p.table, fr.page.value) == Some(f) && f !in p.free && reserved != Some(f))
    && (fr.page.None? ==> p.pins[f] == 0 && (f in p.free <==> reserved != Some(f)))
    && (f in p.writers ==> fr.page.Some? && fr.dirty && p.pins[f] > 0)
    && (fr.page.Some? && !fr.dirty ==> Find(p.disk, fr.page.value) == Some(fr.buf))
  }

  /** Live pages are in their frame or, when they have none, on disk. */
  predicate ContentsOk(p: Pool, c: Contents) {
    && (forall pg :: pg in c ==> pg < p.next && pg !in p.freeIds && PageHolds(p, pg, c[pg]))
    && (forall pg :: pg in p.table ==> pg in c) && (forall pg :: pg in p.disk ==> pg in c)
    && (forall id :: id in p.freeIds ==> id < p.next) && p.next <= MAX_PAGE_ID + 1
  }

  predicate PageHolds(p: Pool, pg: nat, data: Bytes) {
    if pg in p.table then p.table[pg] < |p.frames| && p.frames[p.table[pg]].buf == data
        else Find(p.disk, pg) == Some(data)
  }

  ghost predicate PoolInv(p: Pool, o: Orders, c: Contents, reserved: Option<nat>) {
    && Inv(p.arc, o) && p.arc.capacity == |p.frames| && ReplacerAgrees(p) && TableOk(p, reserved) && ContentsOk(p, c)
    && (reserved.Some? ==> reserved.value < |p.frames| && p.frames[reserved.value].page.None?)
  }

  // ---------------------------------------------------------------- room in the replacer

  lemma {:induction false} InjectionCount(s: seq<nat>, g: map<nat, nat>, t: set<nat>)
    requires NoRepeats(s) && (forall i :: i in s ==> i in g && g[i] in t)
             && (forall i, j :: i in s && j in s && g[i] == g[j] ==> i == j)
    ensures |s| <= |t|
  {
    if s != [] {
      var init, last := Base.Init(s), Last(s);
      assert s == init + [last] && last in s;
      forall i | i in init ensures g[i] in t - {g[last]} { assert i in s && i != last; }
      InjectionCount(init, g, t - {g[last]});
    }
  }

  lemma {:induction false} CountBelow(t: set<nat>, n: nat)
    requires forall x :: x in t ==> x < n
    ensures |t| <= n
  {
    if n > 0 {
      CountBelow(t - {n - 1}, n - 1);
      if n - 1 in t { assert t == (t - {n - 1}) + {n - 1}; } else { assert t == t - {n - 1}; }
    } else {
      assert t == {};
    }
  }

  /** There is room for a page in a frame that holds none. */
  lemma RoomForFrame(p: Pool, o: Orders, frame: nat)
    requires Inv(p.arc, o) && p.arc.capacity == |p.frames| && ReplacerAgrees(p) && frame < |p.frames|
             && View(p.arc, frame).None?
    ensures ResidentCount(o) < p.arc.capacity
  {
    var t := set f | f in p.arc.frames;
    ResidentsHaveFrames(p.arc, o, t);
    forall f | f in t ensures f < |p.frames| && f != frame { assert View(p.arc, f) == Seen(p, f); }
    CountBelow(t + {frame}, |p.frames|);
  }

  lemma ResidentsHaveFrames(a: Arc, o: Orders, t: set<nat>)
    requires Inv(a, o) && t == set f | f in a.frames
    ensures ResidentCount(o) <= |t|
  {
    var s := o.mru + o.mfu;
    FramesAreResidents(a, o);
    ResidentNoRepeats(a, o);
    var g := map i: nat | i in s && i < |a.arena.nodes| && a.arena.nodes[i].frame.Some? :: a.arena.nodes[i].frame.value;
    InjectionCount(s, g, t);
  }

  lemma ResidentNoRepeats(a: Arc, o: Orders)
    requires Inv(a, o)
    ensures NoRepeats(o.mru + o.mfu)
  {
    assert Linked(a.arena.nodes, a.arena.heads.Get(Mru), o.Get(Mru), Mru)
        && Linked(a.arena.nodes, a.arena.heads.Get(Mfu), o.Get(Mfu), Mfu);
    var s := o.mru + o.mfu;
    forall i, j | 0 <= i < j < |s| ensures s[i] != s[j] {
      if i < |o.mru| <= j { Apart(a.arena, o, Mru, Mfu, s[i]); }
    }
  }

  /** Nothing is evictable just when every page in a frame is pinned. */
  lemma AllPinned(p: Pool, o: Orders, c: Contents, reserved: Option<nat>)
    requires PoolInv(p, o, c, reserved)
    ensures p.arc.evictable == 0 <==> forall f: nat :: f < |p.frames| && p.frames[f].page.Some? ==> p.pins[f] > 0
  {
    var a := p.arc;
    forall f: nat | f < |p.frames| && p.frames[f].page.Some? && p.pins[f] == 0 ensures a.evictable > 0 {
      assert View(a, f) == Seen(p, f);
      assert a.frames[f] in Evictable(a.arena.nodes);
    }
    if a.evictable > 0 {
      assert Evictable(a.arena.nodes) != {};
      var i :| i in Evictable(a.arena.nodes);
      assert NodeOk(a, i);
      var f := a.arena.nodes[i].frame.value;
      assert View(a, f) == Seen(p, f);
    }
  }

  // ---------------------------------------------------------------- reserving a frame

  datatype Evicted = Evicted(page: nat, data: Bytes)

  datatype Reservation = Reservation(frame: nat, evicted: Option<Evicted>)

  /** A reserved frame, and the page that was in it and is on disk now. */
  ghost predicate Reserved(p: Pool, o: Orders, c: Contents, r: Reservation) {
    && PoolInv(p, o, c, Some(r.frame))
    && (r.evicted.Some? ==>
        r.evicted.value.page !in p.table && Find(c, r.evicted.value.page) == Some(r.evicted.value.data))
  }

  /** The pool with page `pg` dropped from frame `f`, once the disk holds it. */
  function Vacated(p: Pool, a: Arc, f: nat, pg: nat, disk: map<nat, Bytes>): Pool
    requires f < |p.frames|
  {
    p.(arc := a, table := p.table - {pg}, frames := p.frames[f := Frame(None, p.frames[f].buf, false)], disk := disk)
  }

  lemma VacatedInv(p: Pool, o: Orders, c: Contents, a: Arc, o': Orders, f: nat, pg: nat, disk: map<nat, Bytes>)
    requires PoolInv(p, o, c, None) && f < |p.frames| && p.frames[f].page == Some(pg) && p.pins[f] == 0
    requires Inv(a, o') && a.capacity == p.arc.capacity
             && forall g: nat :: View(a, g) == if g == f then None else View(p.arc, g)
    requires disk == p.disk[pg := p.frames[f].buf]
    ensures Reserved(Vacated(p, a, f, pg, disk), o', c, Reservation(f, Some(Evicted(pg, p.frames[f].buf))))
  {
    var q := Vacated(p, a, f, pg, disk);
    assert FrameOk(p, f, None);
    VacatedTable(p, a, f, pg, disk);
    forall g: nat ensures View(q.arc, g) == Seen(q, g) { assert View(p.arc, g) == Seen(p, g); }
    VacatedContents(p, c, q, f, pg);
  }

  lemma VacatedTable(p: Pool, a: Arc, f: nat, pg: nat, disk: map<nat, Bytes>)
    requires TableOk(p, None) && f < |p.frames| && p.frames[f].page == Some(pg) && p.pins[f] == 0
             && disk == p.disk[pg := p.frames[f].buf]
    ensures TableOk(Vacated(p, a, f, pg, disk), Some(f))
  {
    var q := Vacated(p, a, f, pg, disk);
    assert FrameOk(p, f, None);
    forall g: nat | g < |q.frames| ensures FrameOk(q, g, Some(f)) { assert FrameOk(p, g, None); }
  }

  lemma VacatedContents(p: Pool, c: Contents, q: Pool, f: nat, pg: nat)
    requires TableOk(p, None) && ContentsOk(p, c) && f < |p.frames| && p.frames[f].page == Some(pg)
             && Find(p.table, pg) == Some(f)
    requires q.next == p.next && q.freeIds == p.freeIds && q.table == p.table - {pg}
             && q.disk == p.disk[pg := p.frames[f].buf]
    requires |q.frames| == |p.frames| && forall g :: 0 <= g < |p.frames| && g != f ==> q.frames[g] == p.frames[g]
    ensures ContentsOk(q, c) && Find(c, pg) == Some(p.frames[f].buf)
  {
    assert PageHolds(p, pg, c[pg]);
    forall x | x in c ensures x < q.next && x !in q.freeIds && PageHolds(q, x, c[x]) {
      assert PageHolds(p, x, c[x]);
    }
  }

  /** No frame that is pinned changes its page. */
  predicate PagesKept(p: Pool, p': Pool) {
    && |p'.frames| == |p.frames| && |p'.pins| == |p.pins|
    && forall f: nat :: f < |p.frames| && f < |p.pins| && p.pins[f] > 0 ==> p'.frames[f].page == p.frames[f].page
  }

  /** `q` is `p` with a frame reserved: the last one of the free list, else the one of the replacer's victim,
      whose page is on disk and in no frame. Nothing else changes hands. */
  ghost predicate Reserves(p: Pool, o: Orders, q: Pool, o': Orders, r: Reservation) {
    if p.free != [] then r == Reservation(Last(p.free), None) && q == p.(free := Base.Init(p.free)) && o' == o
    else
      && r.frame < |p.frames| && p.frames[r.frame].page.Some?
      && r.evicted == Some(Evicted(p.frames[r.frame].page.value, p.frames[r.frame].buf))
      && q == Vacated(p, q.arc, r.frame, r.evicted.value.page, p.disk[r.evicted.value.page := r.evicted.value.data])
      && r.frame in p.arc.frames && Victim(p.arc, o, p.arc.frames[r.frame])
      && Evicts(o, o', p.arc.frames[r.frame])
  }

  /** The page to give up has not been written to disk since it last changed. */
  ghost predicate DirtyVictim(p: Pool, o: Orders) {
    exists f: nat :: f < |p.frames| && f in p.arc.frames && Victim(p.arc, o, p.arc.frames[f]) && p.frames[f].dirty
  }

  /** Reserves a frame: a free one, or the one of a page the replacer gives up, written to disk first
      when it is dirty. A write that fails changes nothing. */
  method GetFreeFrame(p: Pool, writeOk: bool, ghost o: Orders, ghost c: Contents)
    returns (r: Result<Reservation, Error>, p': Pool, ghost o': Orders)
    requires PoolInv(p, o, c, None)
    ensures r.Ok? ==> Reserved(p', o', c, r.value) && Reserves(p, o, p', o', r.value)
    ensures r.Ok? && p.free == [] ==> writeOk || !p.frames[r.value.frame].dirty
    ensures r.Err? ==> p' == p && o' == o && p.free == [] && (r.error == NoFreeFrame || r.error == Io)
    ensures r == Err(Io) ==> !writeOk && DirtyVictim(p, o)
    ensures r == Err(NoFreeFrame) <==> EveryFramePinned(p)
    ensures PagesKept(p, p') && p'.pins == p.pins
  {
    if p.free != [] {
      var f := Last(p.free);
      FromFreeList(p, o, c);
      return Ok(Reservation(f, None)), p.(free := Base.Init(p.free)), o;
    }
    r, p', o' := EvictFrame(p, writeOk, o, c);
  }

  /** With no frame free, the one of the page the replacer gives up. */
  method EvictFrame(p: Pool, writeOk: bool, ghost o: Orders, ghost c: Contents)
    returns (r: Result<Reservation, Error>, p': Pool, ghost o': Orders)
    requires PoolInv(p, o, c, None) && p.free == []
    ensures r.Ok? ==> Reserved(p', o', c, r.value) && Reserves(p, o, p', o', r.value)
    ensures r.Ok? ==> writeOk || !p.frames[r.value.frame].dirty
    ensures r.Err? ==> p' == p && o' == o && (r.error == NoFreeFrame || r.error == Io)
    ensures r == Err(Io) ==> !writeOk && DirtyVictim(p, o)
    ensures r == Err(NoFreeFrame) <==> EveryFramePinned(p)
    ensures PagesKept(p, p') && p'.pins == p.pins
  {
    AllPinned(p, o, c, None);
    NoneFree(p);
    var undo, a;
    undo, a, o' := BeginEviction(p.arc, o);
    if undo.None? {
      return Err(NoFreeFrame), p, o;
    }
    var u := undo.value;
    var f := u.frame;
    EvictedView(p.arc, o, u);
    assert View(p.arc, f) == Seen(p, f);
    if p.pins[f] > 0 {
      return Err(FrameInUse), p, o;
    }
    if p.frames[f].dirty && !writeOk {
      UndoRestores(p.arc, o, u);
      return Err(Io), p.(arc := UndoEviction(a, u)), o;
    }
    VictimEvicts(p.arc, o, u);
    p' := Vacate(p, a, f, o, o', c);
    return Ok(Reservation(f, Some(Evicted(p.frames[f].page.value, p.frames[f].buf)))), p', o';
  }

  /** Empties the frame of the page given up, writing the page if it is dirty. */
  method Vacate(p: Pool, a: Arc, f: nat, ghost o: Orders, ghost o': Orders, ghost c: Contents) returns (p': Pool)
    requires PoolInv(p, o, c, None) && f < |p.frames| && p.frames[f].page.Some? && p.pins[f] == 0
    requires Inv(a, o') && a.capacity == p.arc.capacity
             && forall g: nat :: View(a, g) == if g == f then None else View(p.arc, g)
    ensures Reserved(p', o', c, Reservation(f, Some(Evicted(p.frames[f].page.value, p.frames[f].buf))))
    ensures p' == Vacated(p, a, f, p.frames[f].page.value, p.disk[p.frames[f].page.value := p.frames[f].buf])
    ensures PagesKept(p, p') && p'.pins == p.pins
  {
    var pg := p.frames[f].page.value;
    var disk := if p.frames[f].dirty then p.disk[pg := p.frames[f].buf] else p.disk;
    assert disk == p.disk[pg := p.frames[f].buf] by { assert FrameOk(p, f, None); }
    VacatedInv(p, o, c, a, o', f, pg, disk);
    p' := Vacated(p, a, f, pg, disk);
  }

  predicate EveryFramePinned(p: Pool) { forall f: nat :: f < |p.frames| && f < |p.pins| ==> p.pins[f] > 0 }

  lemma FromFreeList(p: Pool, o: Orders, c: Contents)
    requires PoolInv(p, o, c, None) && p.free != []
    ensures var f := Last(p.free);
            && f < |p.frames| && p.pins[f] == 0
            && PoolInv(p.(free := Base.Init(p.free)), o, c, Some(f))
  {
    var f, q := Last(p.free), p.(free := Base.Init(p.free));
    TakenFromUnused(p.free);
    assert f in p.free;
    assert FrameOk(p, f, None);
    forall g: nat | g < |q.frames| ensures FrameOk(q, g, Some(f)) { assert FrameOk(p, g, None); }
    forall g: nat ensures View(q.arc, g) == Seen(q, g) { assert View(p.arc, g) == Seen(p, g); }
    forall x | x in c ensures x < q.next && x !in q.freeIds && PageHolds(q, x, c[x]) { assert PageHolds(p, x, c[x]); }
  }

  lemma NoneFree(p: Pool)
    requires TableOk(p, None) && p.free == []
    ensures forall f: nat :: f < |p.frames| ==> p.frames[f].page.Some?
  {
    forall f: nat | f < |p.frames| ensures p.frames[f].page.Some? { assert FrameOk(p, f, None); }
  }

  // ---------------------------------------------------------------- filling a reserved frame

  /** The frame holds a page now, pinned or evictable. */
  function Filled(p: Pool, a: Arc, f: nat, pg: nat, data: Bytes, dirty: bool, pins: nat): Pool
    requires f < |p.frames| && f < |p.pins|
  {
    p.(arc := a, table := p.table[pg := f], frames := p.frames[f := Frame(Some(pg), data, dirty)],
        pins := p.pins[f := pins])
  }

  lemma FilledInv(p: Pool, o: Orders, c: Contents, a: Arc, o': Orders, f: nat, pg: nat, data: Bytes, dirty: bool,
                  pins: nat)
    requires PoolInv(p, o, c, Some(f)) && pg !in p.table && pg < p.next && pg !in p.freeIds
             && (dirty || Find(p.disk, pg) == Some(data))
    requires Inv(a, o') && a.capacity == p.arc.capacity
             && forall g: nat :: View(a, g) == if g == f then Some((pg, pins == 0)) else View(p.arc, g)
    ensures PoolInv(Filled(p, a, f, pg, data, dirty, pins), o', c[pg := data], None)
  {
    var q := Filled(p, a, f, pg, data, dirty, pins);
    FilledTable(p, a, f, pg, data, dirty, pins);
    forall g: nat ensures View(q.arc, g) == Seen(q, g) { assert View(p.arc, g) == Seen(p, g); }
    FilledContents(p, c, q, f, pg, data);
  }

  lemma FilledTable(p: Pool, a: Arc, f: nat, pg: nat, data: Bytes, dirty: bool, pins: nat)
    requires TableOk(p, Some(f)) && f < |p.frames| && p.frames[f].page.None? && pg !in p.table
             && (dirty || Find(p.disk, pg) == Some(data))
    ensures TableOk(Filled(p, a, f, pg, data, dirty, pins), None)
  {
    var q := Filled(p, a, f, pg, data, dirty, pins);
    assert FrameOk(p, f, Some(f));
    forall g: nat | g < |q.frames| ensures FrameOk(q, g, None) { assert FrameOk(p, g, Some(f)); }
  }

  lemma FilledContents(p: Pool, c: Contents, q: Pool, f: nat, pg: nat, data: Bytes)
    requires TableOk(p, Some(f)) && ContentsOk(p, c) && f < |p.frames| && p.frames[f].page.None? && pg < p.next
             && pg !in p.freeIds
    requires q.next == p.next && q.freeIds == p.freeIds && q.table == p.table[pg := f] && q.disk == p.disk
    requires |q.frames| == |p.frames| && q.frames[f].buf == data
             && forall g :: 0 <= g < |p.frames| && g != f ==> q.frames[g] == p.frames[g]
    ensures ContentsOk(q, c[pg := data])
  {
    forall x | x in c[pg := data] ensures x < q.next && x !in q.freeIds && PageHolds(q, x, c[pg := data][x]) {
      if x != pg { assert PageHolds(p, x, c[x]); }
    }
  }

  lemma NowhereElse(p: Pool, o: Orders, c: Contents, f: nat, pg: nat, g: nat)
    requires PoolInv(p, o, c, Some(f)) && pg !in p.table
    ensures View(p.arc, g).Some? ==> View(p.arc, g).value.0 != pg
  {
    assert View(p.arc, g) == Seen(p, g);
    if g < |p.frames| { assert FrameOk(p, g, Some(f)); }
  }

  /** The replacer has recorded an access to the page in the frame. */
  ghost predicate Counts(a: Arc, o: Orders, b: Arc, o': Orders, f: nat, pg: nat) {
    && AccessOrders(a, o, b, o', f, pg) && (pg in a.pages ==> a.pages[pg] < |a.arena.nodes|)
    && if pg in a.pages then Adapts(o, a.arena.nodes[a.pages[pg]].list, a.capacity, a.target, b.target)
       else b.target == a.target
  }

  /** Records the page in its frame with the replacer. */
  method Fill(p: Pool, f: nat, pg: nat, data: Bytes, dirty: bool, pins: nat, ghost o: Orders, ghost c: Contents)
    returns (p': Pool, ghost o': Orders)
    requires PoolInv(p, o, c, Some(f)) && pg !in p.table && pg < p.next && pg !in p.freeIds
             && (dirty || Find(p.disk, pg) == Some(data))
    ensures PoolInv(p', o', c[pg := data], None) && p' == Filled(p, p'.arc, f, pg, data, dirty, pins)
    ensures Counts(p.arc, o, p'.arc, o', f, pg)
  {
    assert View(p.arc, f) == Seen(p, f);
    RoomForFrame(p, o, f);
    var a;
    a, o' := RecordAccess(p.arc, f, pg, o);
    MarkedInv(a, o', f, pins == 0);
    var b := Marked(a, f, pins == 0);
    forall g: nat ensures View(b, g) == if g == f then Some((pg, pins == 0)) else View(p.arc, g) {
      assert View(a, g) == AccessView(p.arc, f, pg, g);
      NowhereElse(p, o, c, f, pg, g);
    }
    FilledInv(p, o, c, b, o', f, pg, data, dirty, pins);
    p' := Filled(p, b, f, pg, data, dirty, pins);
  }

  /** Puts an evicted page back into its frame, or the frame on the free list. */
  method RestoreFrame(p: Pool, r: Reservation, ghost o: Orders, ghost c: Contents) returns (p': Pool, ghost o': Orders)
    requires Reserved(p, o, c, r)
    ensures PoolInv(p', o', c, None) && PagesKept(p, p')
    ensures r.evicted.Some? ==>
            p' == Filled(p, p'.arc, r.frame, r.evicted.value.page, r.evicted.value.data, false, 0)
            && Counts(p.arc, o, p'.arc, o', r.frame, r.evicted.value.page)
    ensures r.evicted.None? ==> p' == p.(free := p.free + [r.frame]) && o' == o
  {
    assert FrameOk(p, r.frame, Some(r.frame));
    if r.evicted.Some? && r.evicted.value.page !in p.table {
      var e := r.evicted.value;
      assert PageHolds(p, e.page, c[e.page]);
      assert c[e.page := e.data] == c;
      p', o' := Fill(p, r.frame, e.page, e.data, false, 0, o, c);
    } else {
      p', o' := p.(free := p.free + [r.frame]), o;
      BackToFreeList(p, o, c, r.frame);
    }
  }

  lemma BackToFreeList(p: Pool, o: Orders, c: Contents, f: nat)
    requires PoolInv(p, o, c, Some(f))
    ensures PoolInv(p.(free := p.free + [f]), o, c, None)
  {
    var q := p.(free := p.free + [f]);
    assert FrameOk(p, f, Some(f));
    forall g: nat | g < |q.frames| ensures FrameOk(q, g, None) { assert FrameOk(p, g, Some(f)); }
    forall g: nat ensures View(q.arc, g) == Seen(q, g) { assert View(p.arc, g) == Seen(p, g); }
    forall x | x in c ensures x < q.next && x !in q.freeIds && PageHolds(q, x, c[x]) { assert PageHolds(p, x, c[x]); }
  }

  // ---------------------------------------------------------------- new pages

  lemma {:induction false} Lowest(s: set<nat>) returns (low: nat)
    requires s != {}
    ensures low in s && forall x :: x in s ==> low <= x
  {
    low :| low in s;
    var rest := s - {low};
    assert s == rest + {low};
    if rest != {} {
      var other := Lowest(rest);
      if other < low { low := other; }
    }
  }

  /** The next id to hand out: the lowest deleted one, else one never used. */
  ghost predicate NextId(p: Pool, pg: nat) {
    if p.freeIds != {} then pg in p.freeIds && forall x :: x in p.freeIds ==> pg <= x else pg == p.next <= MAX_PAGE_ID
  }

  /** The next id is in use from now on. */
  ghost predicate IdTaken(p: Pool, p': Pool, pg: nat) {
    NextId(p, pg) && p'.freeIds == p.freeIds - {pg} && p'.next == if p.freeIds != {} then p.next else p.next + 1
  }

  lemma SameIds(p: Pool, q: Pool, p': Pool, pg: nat)
    requires q.freeIds == p.freeIds && q.next == p.next && IdTaken(q, p', pg)
    ensures IdTaken(p, p', pg)
  {}

  method AllocateId(p: Pool) returns (pg: Option<nat>, p': Pool)
    ensures pg.None? <==> p.freeIds == {} && p.next > MAX_PAGE_ID
    ensures pg.None? ==> p' == p
    ensures pg.Some? ==>
            NextId(p, pg.value) && p' == p.(freeIds := p.freeIds - {pg.value}, next := if p.freeIds != {} then p.next
            else p.next + 1)
  {
    if p.freeIds != {} {
      ghost var low := Lowest(p.freeIds);
      var id :| id in p.freeIds && forall x :: x in p.freeIds ==> id <= x;
      return Some(id), p.(freeIds := p.freeIds - {id});
    }
    if p.next > MAX_PAGE_ID {
      return None, p;
    }
    assert p.freeIds - {p.next} == {};
    return Some(p.next), p.(freeIds := p.freeIds - {p.next}, next := p.next + 1);
  }

  lemma AllocatedInv(p: Pool, o: Orders, c: Contents, reserved: Option<nat>, q: Pool, pg: nat)
    requires PoolInv(p, o, c, reserved) && NextId(p, pg)
             && q == p.(freeIds := p.freeIds - {pg}, next := if p.freeIds != {} then p.next else p.next + 1)
    ensures PoolInv(q, o, c, reserved) && pg !in c && pg < q.next && pg !in q.freeIds && pg !in q.table
  {
    forall g: nat | g < |q.frames| ensures FrameOk(q, g, reserved) { assert FrameOk(p, g, reserved); }
    forall g: nat ensures View(q.arc, g) == Seen(q, g) { assert View(p.arc, g) == Seen(p, g); }
    forall x | x in c ensures x < q.next && x !in q.freeIds && PageHolds(q, x, c[x]) { assert PageHolds(p, x, c[x]); }
  }

  lemma WriterInv(p: Pool, o: Orders, c: Contents, f: nat)
    requires PoolInv(p, o, c, None) && f < |p.frames| && p.frames[f].page.Some? && p.frames[f].dirty && p.pins[f] > 0
    ensures PoolInv(p.(writers := p.writers + {f}), o, c, None)
  {
    var q := p.(writers := p.writers + {f});
    forall g: nat | g < |q.frames| ensures FrameOk(q, g, None) { assert FrameOk(p, g, None); }
    forall g: nat ensures View(q.arc, g) == Seen(q, g) { assert View(p.arc, g) == Seen(p, g); }
    forall x | x in c ensures x < q.next && x !in q.freeIds && PageHolds(q, x, c[x]) { assert PageHolds(p, x, c[x]); }
  }

  /** A guard on page `pg` in frame `f`. */
  predicate Guards(p: Pool, f: nat, pg: nat, write: bool) {
    f < |p.frames| == |p.pins| && p.frames[f].page == Some(pg) && p.pins[f] > 0 && (write ==> f in p.writers)
  }

  /** What a call that put page `pg` into a frame did: it took the last free frame, or the one of the replacer's
      victim, which is on disk now; it took one pin, and no other frame, pin or guard changed. */
  ghost predicate TakesFrame(p: Pool, o: Orders, p': Pool, f: nat, pg: nat, data: Bytes, dirty: bool, write: bool) {
    && f < |p.frames| == |p.pins| && p.pins[f] == 0
    && (if p.free != [] then f == Last(p.free) && p'.free == Base.Init(p.free)
        else f in p.arc.frames && Victim(p.arc, o, p.arc.frames[f]) && p'.free == [])
    && p'.pins == p.pins[f := 1] && p'.writers == (if write then p.writers + {f} else p.writers)
    && p'.frames == p.frames[f := Frame(Some(pg), data, dirty)]
    && p'.table == PagesElsewhere(p, f)[pg := f] && p'.disk == DiskWith(p, f)
  }

  /** The page table without the page that frame `f` holds. */
  function PagesElsewhere(p: Pool, f: nat): map<nat, nat>
    requires f < |p.frames|
  {
    if p.frames[f].page.Some? then p.table - {p.frames[f].page.value} else p.table
  }

  /** The disk once it holds the page in frame `f`. */
  function DiskWith(p: Pool, f: nat): map<nat, Bytes>
    requires f < |p.frames|
  {
    if p.frames[f].page.Some? then p.disk[p.frames[f].page.value := p.frames[f].buf] else p.disk
  }

  /** What is left of a call that failed: at most a page written to disk, and accesses counted. */
  predicate Undone(p: Pool, p': Pool) {
    && p'.pins == p.pins && p'.writers == p.writers && p'.table == p.table && p'.free == p.free
    && p'.next == p.next && p'.freeIds == p.freeIds && |p'.frames| == |p.frames|
    && forall f: nat :: f < |p.frames| ==> p'.frames[f] == p.frames[f].(dirty := p'.frames[f].dirty)
  }

  lemma FrameTaken(p: Pool, o: Orders, c: Contents, q: Pool, o': Orders, r: Reservation, q': Pool, p': Pool, pg: nat,
                   data: Bytes, dirty: bool, write: bool)
    requires PoolInv(p, o, c, None) && Reserves(p, o, q, o', r) && r.frame < |q.frames| == |q.pins| && p.pins == q.pins
             && p.pins[r.frame] == 0
    requires q' == q.(next := q'.next, freeIds := q'.freeIds)
    requires p' == Filled(q', p'.arc, r.frame, pg, data, dirty, 1)
             .(writers := if write then q.writers + {r.frame} else q.writers)
    ensures TakesFrame(p, o, p', r.frame, pg, data, dirty, write)
  {
    if p.free != [] {
      assert r.frame in p.free;
      assert FrameOk(p, r.frame, None);
    }
  }

  lemma FrameGivenBack(p: Pool, o: Orders, c: Contents, q: Pool, o': Orders, r: Reservation, p': Pool)
    requires PoolInv(p, o, c, None) && Reserves(p, o, q, o', r) && r.frame < |q.frames| == |q.pins| && p.pins == q.pins
             && p.pins[r.frame] == 0
    requires if r.evicted.Some?
             then p' == Filled(q, p'.arc, r.frame, r.evicted.value.page, r.evicted.value.data, false, 0)
             else p' == q.(free := q.free + [r.frame])
    ensures Undone(p, p')
  {
    if p.free == [] {
      assert FrameOk(p, r.frame, None);
      FrameBack(p.table, r.evicted.value.page, r.frame);
    }
  }

  /** A new page, under an id no live page has. */
  method NewPage(p: Pool, writeOk: bool, ghost o: Orders, ghost c: Contents)
    returns (r: Result<(nat, nat), Error>, p': Pool, ghost o': Orders, ghost c': Contents)
    requires PoolInv(p, o, c, None)
    ensures PoolInv(p', o', c', None)
    ensures r.Ok? ==> var (pg, f) := r.value;
            IdTaken(p, p', pg) && pg !in c && Guards(p', f, pg, true) && c' == c[pg := p'.frames[f].buf]
    ensures r.Ok? ==> var (pg, f) := r.value;
            f < |p.frames| && TakesFrame(p, o, p', f, pg, p.frames[f].buf, true, true)
    ensures r.Err? ==> c' == c && Undone(p, p')
    ensures r == Err(NoFreeFrame) <==> EveryFramePinned(p)
    ensures r == Err(PageIdsExhausted) ==> p.freeIds == {} && p.next > MAX_PAGE_ID
    ensures r == Err(Io) ==> !writeOk && p.free == []
    ensures r.Err? ==> r.error.NoFreeFrame? || r.error.PageIdsExhausted? || r.error.Io?
    ensures writeOk && !EveryFramePinned(p) && (p.freeIds != {} || p.next <= MAX_PAGE_ID) ==> r.Ok?
    ensures PagesKept(p, p')
  {
    r, p', o', c' := TakeNew(p, writeOk, o, c);
    if r.Ok? {
      TakenGuards(p, o, p', r.value.1, r.value.0, p.frames[r.value.1].buf, true, true);
    }
  }

  method TakeNew(p: Pool, writeOk: bool, ghost o: Orders, ghost c: Contents)
    returns (r: Result<(nat, nat), Error>, p': Pool, ghost o': Orders, ghost c': Contents)
    requires PoolInv(p, o, c, None)
    ensures PoolInv(p', o', c', None)
    ensures r.Ok? ==> var (pg, f) := r.value;
            && IdTaken(p, p', pg) && pg !in c && f < |p.frames| && c' == c[pg := p.frames[f].buf]
            && TakesFrame(p, o, p', f, pg, p.frames[f].buf, true, true)
    ensures r.Err? ==> c' == c && Undone(p, p')
    ensures r == Err(NoFreeFrame) <==> EveryFramePinned(p)
    ensures r == Err(PageIdsExhausted) ==> p.freeIds == {} && p.next > MAX_PAGE_ID
    ensures r == Err(Io) ==> !writeOk && p.free == []
    ensures r.Err? ==> r.error.NoFreeFrame? || r.error.PageIdsExhausted? || r.error.Io?
  {
    var reservation, q;
    ghost var o1;
    reservation, q, o1 := GetFreeFrame(p, writeOk, o, c);
    if reservation.Err? {
      return Err(reservation.error), q, o1, c;
    }
    ReservedUnpinned(q, o1, c, reservation.value);
    ghost var q';
    r, p', o', c', q' := PlacePage(q, reservation.value, o1, c);
    if r.Ok? {
      SameIds(p, q, p', r.value.0);
      FrameTaken(p, o, c, q, o1, reservation.value, q', p', r.value.0, q.frames[r.value.1].buf, true, true);
    } else {
      FrameGivenBack(p, o, c, q, o1, reservation.value, p');
    }
  }

  lemma ReservedUnpinned(p: Pool, o: Orders, c: Contents, r: Reservation)
    requires Reserved(p, o, c, r)
    ensures r.frame < |p.frames| == |p.pins| && p.pins[r.frame] == 0
  {
    assert FrameOk(p, r.frame, Some(r.frame));
  }

  /** A new page in a reserved frame, unless the ids are used up. */
  method PlacePage(p: Pool, res: Reservation, ghost o: Orders, ghost c: Contents)
    returns (r: Result<(nat, nat), Error>, p': Pool, ghost o': Orders, ghost c': Contents, ghost q': Pool)
    requires Reserved(p, o, c, res)
    ensures PoolInv(p', o', c', None)
    ensures r.Ok? ==> var (pg, f) := r.value; IdTaken(p, p', pg) && pg !in c
    ensures r.Ok? ==> var (pg, f) := r.value;
            && f == res.frame < |p.frames| && c' == c[pg := p.frames[f].buf]
    ensures r.Ok? ==> var (pg, f) := r.value;
            && f == res.frame < |p.frames| == |p.pins| && Counts(p.arc, o, p'.arc, o', f, pg)
            && q' == p.(freeIds := p.freeIds - {pg}, next := if p.freeIds != {} then p.next else p.next + 1)
            && p' == Filled(q', p'.arc, f, pg, p.frames[f].buf, true, 1).(writers := p.writers + {f})
    ensures r.Err? ==> c' == c && r.error == PageIdsExhausted && p.freeIds == {} && p.next > MAX_PAGE_ID
    ensures r.Err? ==> res.frame < |p.frames| == |p.pins| && if res.evicted.Some?
            then p' == Filled(p, p'.arc, res.frame, res.evicted.value.page, res.evicted.value.data, false, 0)
            else p' == p.(free := p.free + [res.frame])
  {
    ReservedUnpinned(p, o, c, res);
    var pg, q := AllocateId(p);
    q' := q;
    if pg.None? {
      p', o' := RestoreFrame(p, res, o, c);
      return Err(PageIdsExhausted), p', o', c, q;
    }
    AllocatedInv(p, o, c, Some(res.frame), q, pg.value);
    p', o', c' := FillNew(q, res.frame, pg.value, o, c);
    r := Ok((pg.value, res.frame));
  }

  /** A new page shows what is in its frame, and gets a write guard. */
  method FillNew(p: Pool, f: nat, pg: nat, ghost o: Orders, ghost c: Contents)
    returns (p': Pool, ghost o': Orders, ghost c': Contents)
    requires PoolInv(p, o, c, Some(f)) && pg !in p.table && pg < p.next && pg !in p.freeIds
    ensures f < |p.frames| == |p.pins| && PoolInv(p', o', c', None) && c' == c[pg := p.frames[f].buf]
    ensures p' == Filled(p, p'.arc, f, pg, p.frames[f].buf, true, 1).(writers := p.writers + {f})
    ensures Counts(p.arc, o, p'.arc, o', f, pg)
  {
    assert FrameOk(p, f, Some(f));
    p', o' := Fill(p, f, pg, p.frames[f].buf, true, 1, o, c);
    c' := c[pg := p.frames[f].buf];
    WriterInv(p', o', c', f);
    p' := p'.(writers := p'.writers + {f});
  }

  // ---------------------------------------------------------------- fetching pages

  /** One more pin on the frame of a cached page. */
  function Pinned(p: Pool, a: Arc, f: nat): Pool
    requires f < |p.pins|
  {
    p.(arc := a, pins := p.pins[f := p.pins[f] + 1])
  }

  lemma PinnedInv(p: Pool, o: Orders, c: Contents, a: Arc, o': Orders, f: nat)
    requires PoolInv(p, o, c, None) && f < |p.frames| && p.frames[f].page.Some?
    requires Inv(a, o') && a.capacity == p.arc.capacity
             && forall g: nat ::
             View(a, g) == if g == f then Some((p.frames[f].page.value, false)) else View(p.arc, g)
    ensures PoolInv(Pinned(p, a, f), o', c, None)
  {
    var q := Pinned(p, a, f);
    forall g: nat | g < |q.frames| ensures FrameOk(q, g, None) { assert FrameOk(p, g, None); }
    forall g: nat ensures View(q.arc, g) == Seen(q, g) { assert View(p.arc, g) == Seen(p, g); }
    forall x | x in c ensures x < q.next && x !in q.freeIds && PageHolds(q, x, c[x]) { assert PageHolds(p, x, c[x]); }
  }

  /** A page that is cached, under the lock of the page table: its frame gets another pin. */
  method PinCached(p: Pool, pg: nat, ghost o: Orders, ghost c: Contents) returns (f: nat, p': Pool, ghost o': Orders)
    requires PoolInv(p, o, c, None) && pg in p.table
    ensures PoolInv(p', o', c, None) && f == p.table[pg] < |p.frames| == |p.pins| && p' == Pinned(p, p'.arc, f)
    ensures p.frames[f].page == Some(pg) && PagesKept(p, p') && Counts(p.arc, o, p'.arc, o', f, pg)
  {
    f := p.table[pg];
    assert View(p.arc, f) == Seen(p, f);
    ViewPage(p.arc, o, f);
    var a;
    a, o' := RecordAccess(p.arc, f, pg, o);
    MarkedInv(a, o', f, false);
    forall g: nat ensures View(Marked(a, f, false), g) == if g == f then Some((pg, false)) else View(p.arc, g) {
      assert View(a, g) == AccessView(p.arc, f, pg, g);
      if g != f { HeldOnce(p, pg, f, g); }
    }
    PinnedInv(p, o, c, Marked(a, f, false), o', f);
    p' := Pinned(p, Marked(a, f, false), f);
  }

  lemma HeldOnce(p: Pool, pg: nat, f: nat, g: nat)
    requires TableOk(p, None) && ReplacerAgrees(p) && Find(p.table, pg) == Some(f) && g != f
    ensures View(p.arc, g).Some? ==> View(p.arc, g).value.0 != pg
  {
    assert View(p.arc, g) == Seen(p, g);
    if g < |p.frames| { assert FrameOk(p, g, None); }
  }

  /** A write guard makes its page dirty, a read guard changes nothing. */
  function Latched(p: Pool, f: nat, write: bool): Pool
    requires f < |p.frames|
  {
    if write then p.(frames := p.frames[f := p.frames[f].(dirty := true)], writers := p.writers + {f}) else p
  }

  /** What a call that found page `pg` in frame `f` did: it took one more pin there, and counted an access. */
  ghost predicate HitsFrame(p: Pool, o: Orders, p': Pool, o': Orders, f: nat, pg: nat, write: bool) {
    && f < |p.frames| == |p.pins| && Find(p.table, pg) == Some(f)
    && Counts(p.arc, o, p'.arc, o', f, pg)
    && p' == p.(arc := p'.arc, pins := p.pins[f := p.pins[f] + 1],
                frames := p.frames[f := p.frames[f].(dirty := p.frames[f].dirty || write)],
                writers := if write then p.writers + {f} else p.writers)
  }

  /** A guard is one pin, and for writing it is one write guard. */
  predicate Guarded(p: Pool, p': Pool, f: nat, write: bool) {
    && f < |p.pins| && p'.pins == p.pins[f := p.pins[f] + 1]
    && p'.writers == (if write then p.writers + {f} else p.writers)
  }

  lemma HitGuards(p: Pool, o: Orders, p': Pool, o': Orders, f: nat, pg: nat, write: bool)
    requires HitsFrame(p, o, p', o', f, pg, write)
    ensures Guarded(p, p', f, write) && PagesKept(p, p')
  {}

  lemma TakenGuards(p: Pool, o: Orders, p': Pool, f: nat, pg: nat, data: Bytes, dirty: bool, write: bool)
    requires TakesFrame(p, o, p', f, pg, data, dirty, write)
    ensures Guarded(p, p', f, write) && PagesKept(p, p') && Guards(p', f, pg, write)
  {}

  /** Then, under the latch of the frame: a guard, if the frame still has the page. */
  method LatchCached(p: Pool, f: nat, pg: nat, write: bool, ghost o: Orders, ghost c: Contents)
    returns (ok: bool, p': Pool)
    requires PoolInv(p, o, c, None) && f < |p.frames| && p.pins[f] > 0 && (f in p.writers ==> p.pins[f] > 1)
    ensures PoolInv(p', o, c, None) && (ok <==> p.frames[f].page == Some(pg)) && PagesKept(p, p')
    ensures ok ==> pg in c && Guards(p', f, pg, write) && p'.frames[f].buf == c[pg] && p' == Latched(p, f, write)
    ensures !ok ==> p' == p.(arc := p'.arc, pins := p.pins[f := p.pins[f] - 1])
  {
    if p.frames[f].page != Some(pg) {
      p' := ReleasePin(p, f, false, o, c);
      return false, p';
    }
    assert FrameOk(p, f, None);
    assert PageHolds(p, pg, c[pg]);
    ok, p' := true, p;
    if write {
      DirtyInv(p, o, c, f);
      p' := p.(frames := p.frames[f := p.frames[f].(dirty := true)]);
      WriterInv(p', o, c, f);
      p' := p'.(writers := p'.writers + {f});
    }
  }

  lemma DirtyInv(p: Pool, o: Orders, c: Contents, f: nat)
    requires PoolInv(p, o, c, None) && f < |p.frames|
    ensures PoolInv(p.(frames := p.frames[f := p.frames[f].(dirty := true)]), o, c, None)
  {
    var q := p.(frames := p.frames[f := p.frames[f].(dirty := true)]);
    forall g: nat | g < |q.frames| ensures FrameOk(q, g, None) { assert FrameOk(p, g, None); }
    forall g: nat ensures View(q.arc, g) == Seen(q, g) { assert View(p.arc, g) == Seen(p, g); }
    forall x | x in c ensures x < q.next && x !in q.freeIds && PageHolds(q, x, c[x]) { assert PageHolds(p, x, c[x]); }
  }

  /** Whatever other threads do between the two, a frame that stays pinned keeps its page: the test
      of the second section never fails, and a cache hit is never tried again. */
  lemma {:induction false} HitNeverRetries(pools: seq<Pool>, f: nat, pg: nat)
    requires pools != [] && f < |pools[0].frames| && pools[0].frames[f].page == Some(pg)
    requires forall i {:trigger pools[i]} :: 0 <= i < |pools| ==> f < |pools[i].pins| && pools[i].pins[f] > 0
    requires forall i {:trigger pools[i]} :: 0 < i < |pools| ==> PagesKept(pools[i - 1], pools[i])
    ensures f < |Last(pools).frames| && Last(pools).frames[f].page == Some(pg)
  {
    if |pools| > 1 {
      var n := |pools| - 1;
      assert forall i :: 0 <= i < n ==> Base.Init(pools)[i] == pools[i];
      HitNeverRetries(Base.Init(pools), f, pg);
      assert PagesKept(pools[n - 1], pools[n]) && pools[n - 1].pins[f] > 0 && Last(Base.Init(pools)) == pools[n - 1];
    }
  }

  /** Both sections, with nothing between them. */
  method FetchCached(p: Pool, pg: nat, write: bool, ghost o: Orders, ghost c: Contents)
    returns (f: nat, p': Pool, ghost o': Orders)
    requires PoolInv(p, o, c, None) && pg in p.table
    ensures PoolInv(p', o', c, None) && HitsFrame(p, o, p', o', f, pg, write) && Guards(p', f, pg, write)
    ensures pg in c && p'.frames[f].buf == c[pg]
  {
    var q, ok;
    f, q, o' := PinCached(p, pg, o, c);
    assert FrameOk(p, f, None);
    ok, p' := LatchCached(q, f, pg, write, o', c);
    PinnedAndLatched(p, o, q, p', o', f, pg, write);
  }

  lemma PinnedAndLatched(p: Pool, o: Orders, q: Pool, p': Pool, o': Orders, f: nat, pg: nat, write: bool)
    requires f < |p.frames| == |p.pins| && Find(p.table, pg) == Some(f) && q == Pinned(p, q.arc, f)
    requires p' == Latched(q, f, write) && Counts(p.arc, o, q.arc, o', f, pg)
    ensures HitsFrame(p, o, p', o', f, pg, write)
  {
    assert p.frames[f := p.frames[f]] == p.frames;
  }

  /** Loads a page from disk into a reserved frame. A failed load gives the frame back to the page that was in it. */
  method Load(p: Pool, res: Reservation, pg: nat, write: bool, readOk: bool, ghost o: Orders, ghost c: Contents)
    returns (r: Result<nat, Error>, p': Pool, ghost o': Orders)
    requires Reserved(p, o, c, res) && pg !in p.table
    ensures PoolInv(p', o', c, None)
    ensures r == if readOk && pg in c then Ok(res.frame) else Err(Io)
    ensures res.frame < |p.frames| == |p.pins|
    ensures r.Ok? ==>
            Counts(p.arc, o, p'.arc, o', res.frame, pg)
            && p' == Filled(p, p'.arc, res.frame, pg, c[pg], write, 1)
               .(writers := if write then p.writers + {res.frame} else p.writers)
    ensures r.Err? ==> if res.evicted.Some?
            then p' == Filled(p, p'.arc, res.frame, res.evicted.value.page, res.evicted.value.data, false, 0)
            else p' == p.(free := p.free + [res.frame])
  {
    ReservedUnpinned(p, o, c, res);
    assert pg in c ==> PageHolds(p, pg, c[pg]);
    assert FrameOk(p, res.frame, Some(res.frame));
    if !readOk || pg !in p.disk {
      p', o' := RestoreFrame(p, res, o, c);
      return Err(Io), p', o';
    }
    assert c[pg := p.disk[pg]] == c;
    p', o' := Fill(p, res.frame, pg, p.disk[pg], write, 1, o, c);
    r := Ok(res.frame);
    if write {
      WriterInv(p', o', c, res.frame);
      p' := p'.(writers := p'.writers + {res.frame});
    }
  }

  /** Reads or writes a page: what its guard shows is the page's last contents, wherever they are. */
  method Fetch(p: Pool, pg: nat, write: bool, readOk: bool, writeOk: bool, ghost o: Orders, ghost c: Contents)
    returns (r: Result<nat, Error>, p': Pool, ghost o': Orders)
    requires PoolInv(p, o, c, None)
    ensures PoolInv(p', o', c, None) && PagesKept(p, p')
    ensures r.Ok? ==> pg in c && Guards(p', r.value, pg, write) && p'.frames[r.value].buf == c[pg]
    ensures r == Err(NoFreeFrame) <==> pg !in p.table && EveryFramePinned(p)
    ensures r.Err? ==> r.error == NoFreeFrame || r.error == Io
    ensures readOk && writeOk && pg in c && (pg in p.table || !EveryFramePinned(p)) ==> r.Ok?
    ensures pg !in p.table && (!readOk || pg !in c) ==> r.Err?
    ensures pg in p.table ==> r.Ok? && HitsFrame(p, o, p', o', r.value, pg, write)
    ensures pg !in p.table && r.Ok? ==> TakesFrame(p, o, p', r.value, pg, c[pg], write, write)
    ensures r.Ok? ==> Guarded(p, p', r.value, write)
    ensures r.Err? ==> Undone(p, p')
  {
    if pg in p.table {
      var f;
      f, p', o' := FetchCached(p, pg, write, o, c);
      HitGuards(p, o, p', o', f, pg, write);
      return Ok(f), p', o';
    }
    r, p', o' := FetchMissing(p, pg, write, readOk, writeOk, o, c);
    if r.Ok? {
      TakenGuards(p, o, p', r.value, pg, c[pg], write, write);
    }
  }

  /** A page in no frame is loaded into one. */
  method FetchMissing(p: Pool, pg: nat, write: bool, readOk: bool, writeOk: bool, ghost o: Orders, ghost c: Contents)
    returns (r: Result<nat, Error>, p': Pool, ghost o': Orders)
    requires PoolInv(p, o, c, None) && pg !in p.table
    ensures PoolInv(p', o', c, None)
    ensures r == Err(NoFreeFrame) <==> EveryFramePinned(p)
    ensures r.Err? ==> r.error == NoFreeFrame || r.error == Io
    ensures readOk && writeOk && pg in c && !EveryFramePinned(p) ==> r.Ok?
    ensures r.Ok? ==> readOk && pg in c && TakesFrame(p, o, p', r.value, pg, c[pg], write, write)
    ensures r.Err? ==> Undone(p, p')
  {
    var reservation, q;
    ghost var o1;
    reservation, q, o1 := GetFreeFrame(p, writeOk, o, c);
    if reservation.Err? {
      return Err(reservation.error), q, o1;
    }
    ReservedUnpinned(q, o1, c, reservation.value);
    assert pg !in q.table;
    r, p', o' := Load(q, reservation.value, pg, write, readOk, o1, c);
    if r.Ok? {
      FrameTaken(p, o, c, q, o1, reservation.value, q, p', pg, c[pg], write, write);
    } else {
      FrameGivenBack(p, o, c, q, o1, reservation.value, p');
    }
  }

  method FetchToRead(p: Pool, pg: nat, readOk: bool, writeOk: bool, ghost o: Orders, ghost c: Contents)
    returns (r: Result<nat, Error>, p': Pool, ghost o': Orders)
    requires PoolInv(p, o, c, None)
    ensures PoolInv(p', o', c, None)
    ensures r.Ok? ==> pg in c && r.value < |p'.frames| && p'.frames[r.value].buf == c[pg]
    ensures r.Ok? ==> Guarded(p, p', r.value, false) && (r.value in p'.writers ==> p'.pins[r.value] > 1)
    ensures r.Err? ==> p'.pins == p.pins && p'.writers == p.writers
  {
    r, p', o' := Fetch(p, pg, false, readOk, writeOk, o, c);
    if r.Ok? {
      assert FrameOk(p, r.value, None);
    }
  }

  method DropRead(p: Pool, f: nat, ghost o: Orders, ghost c: Contents) returns (p': Pool)
    requires PoolInv(p, o, c, None) && f < |p.frames| && f < |p.pins| && p.pins[f] > 0
             && (f in p.writers ==> p.pins[f] > 1)
    ensures PoolInv(p', o, c, None) && p'.pins == p.pins[f := p.pins[f] - 1] && p'.writers == p.writers
  {
    p' := ReleasePin(p, f, false, o, c);
  }

  lemma PinGivenBack(p: Pool, q: Pool, p': Pool, f: nat)
    requires Guarded(p, q, f, false) && p'.pins == q.pins[f := q.pins[f] - 1] && p'.writers == q.writers
    ensures p'.pins == p.pins && p'.writers == p.writers
  {}

  /** A guard that is taken and dropped leaves every pin as it was. */
  method Visit(p: Pool, pg: nat, readOk: bool, writeOk: bool, ghost o: Orders, ghost c: Contents)
    returns (r: Result<Bytes, Error>, p': Pool, ghost o': Orders)
    requires PoolInv(p, o, c, None)
    ensures PoolInv(p', o', c, None) && p'.pins == p.pins && p'.writers == p.writers
    ensures r.Ok? ==> pg in c && r.value == c[pg]
  {
    var f, q;
    f, q, o' := FetchToRead(p, pg, readOk, writeOk, o, c);
    if f.Err? {
      return Err(f.error), q, o';
    }
    p' := DropRead(q, f.value, o', c);
    PinGivenBack(p, q, p', f.value);
    return Ok(q.frames[f.value].buf), p', o';
  }

  // ---------------------------------------------------------------- guards

  /** Bytes written through a write guard are the page's contents. */
  method WriteBytes(p: Pool, f: nat, data: Bytes, ghost o: Orders, ghost c: Contents)
    returns (p': Pool, ghost c': Contents)
    requires PoolInv(p, o, c, None) && f in p.writers && f < |p.frames|
    ensures PoolInv(p', o, c', None) && p.frames[f].page.Some? && c' == c[p.frames[f].page.value := data]
    ensures p' == p.(frames := p.frames[f := p.frames[f].(buf := data)]) && PagesKept(p, p')
  {
    p' := p.(frames := p.frames[f := p.frames[f].(buf := data)]);
    assert FrameOk(p, f, None);
    c' := c[p.frames[f].page.value := data];
    WrittenInv(p, o, c, f, data);
  }

  lemma WrittenInv(p: Pool, o: Orders, c: Contents, f: nat, data: Bytes)
    requires PoolInv(p, o, c, None) && f in p.writers && f < |p.frames| && p.frames[f].page.Some?
    ensures PoolInv(p.(frames := p.frames[f := p.frames[f].(buf := data)]), o, c[p.frames[f].page.value := data], None)
  {
    var q, pg := p.(frames := p.frames[f := p.frames[f].(buf := data)]), p.frames[f].page.value;
    assert FrameOk(p, f, None);
    forall g: nat | g < |q.frames| ensures FrameOk(q, g, None) { assert FrameOk(p, g, None); }
    forall g: nat ensures View(q.arc, g) == Seen(q, g) { assert View(p.arc, g) == Seen(p, g); }
    forall x | x in c[pg := data] ensures x < q.next && x !in q.freeIds && PageHolds(q, x, c[pg := data][x]) {
      assert PageHolds(p, x, c[x]);
      if x in p.table && x != pg { assert p.frames[p.table[x]].page == Some(x); }
    }
  }

  /** The pool with a pin less on a frame, which the last pin makes evictable. */
  function Unpinned(p: Pool, a: Arc, f: nat, writer: bool): Pool
    requires f < |p.pins| && p.pins[f] > 0
  {
    p.(arc := a, pins := p.pins[f := p.pins[f] - 1], writers := if writer then p.writers - {f} else p.writers)
  }

  lemma UnpinnedInv(p: Pool, o: Orders, c: Contents, a: Arc, f: nat, writer: bool)
    requires PoolInv(p, o, c, None) && f < |p.pins| && p.pins[f] > 0 && (f in p.writers ==> writer || p.pins[f] > 1)
    requires Inv(a, o) && a.capacity == p.arc.capacity
    requires forall g: nat ::
             View(a, g) == if g == f && View(p.arc, f).Some? then Some((View(p.arc, f).value.0, p.pins[f] == 1))
             else View(p.arc, g)
    ensures PoolInv(Unpinned(p, a, f, writer), o, c, None)
  {
    var q := Unpinned(p, a, f, writer);
    assert FrameOk(p, f, None);
    forall g: nat | g < |q.frames| ensures FrameOk(q, g, None) { assert FrameOk(p, g, None); }
    forall g: nat ensures View(q.arc, g) == Seen(q, g) { assert View(p.arc, g) == Seen(p, g); }
    forall x | x in c ensures x < q.next && x !in q.freeIds && PageHolds(q, x, c[x]) { assert PageHolds(p, x, c[x]); }
  }

  /** Drops a guard; a frame without pins is left alone. */
  method ReleasePin(p: Pool, f: nat, writer: bool, ghost o: Orders, ghost c: Contents) returns (p': Pool)
    requires PoolInv(p, o, c, None) && f < |p.frames| && (f in p.writers ==> writer || p.pins[f] > 1)
    ensures PoolInv(p', o, c, None) && PagesKept(p, p') && p'.arc.target == p.arc.target
    ensures p.pins[f] > 0 ==>
            p' == p.(arc := p'.arc, pins := p.pins[f := p.pins[f] - 1],
                     writers := if writer then p.writers - {f} else p.writers)
    ensures p.pins[f] == 0 ==> p' == p
  {
    if p.pins[f] == 0 {
      return p;
    }
    var a := p.arc;
    assert View(p.arc, f) == Seen(p, f);
    assert FrameOk(p, f, None);
    if p.pins[f] == 1 {
      MarkedInv(a, o, f, true);
      a := Marked(a, f, true);
    }
    UnpinnedInv(p, o, c, a, f, writer);
    p' := Unpinned(p, a, f, writer);
  }

  // ---------------------------------------------------------------- deleting and flushing

  /** The pool without page `pg`, whose id can be handed out again. */
  function Deleted(p: Pool, a: Arc, pg: nat): Pool
    requires pg in p.table ==> p.table[pg] < |p.frames|
  {
    var q := if pg in p.table then
               var f := p.table[pg];
                   p.(table := p.table - {pg}, frames := p.frames[f := Frame(None, p.frames[f].buf, false)],
                   free := p.free + [f])
             else p;
    q.(arc := a, disk := p.disk - {pg}, freeIds := p.freeIds + {pg})
  }

  lemma DeletedInv(p: Pool, o: Orders, c: Contents, a: Arc, o': Orders, pg: nat)
    requires PoolInv(p, o, c, None) && pg in c && (pg in p.table ==> p.pins[p.table[pg]] == 0)
    requires Inv(a, o') && a.capacity == p.arc.capacity
             && forall g: nat :: View(a, g) == if Find(p.table, pg) == Some(g) then None else View(p.arc, g)
    ensures PoolInv(Deleted(p, a, pg), o', c - {pg}, None)
  {
    DeletedTable(p, a, pg);
    DeletedView(p, a, pg);
    DeletedContents(p, c, a, pg);
  }

  /** The page is in no frame and not on disk, its frame is the next to be used and its id can be handed out again.
      Nothing else changes. */
  predicate Deletes(p: Pool, p': Pool, pg: nat) {
    && p'.table == p.table - {pg} && p'.disk == p.disk - {pg} && p'.freeIds == p.freeIds + {pg} && p'.next == p.next
    && p'.pins == p.pins && p'.writers == p.writers && |p'.frames| == |p.frames|
    && (forall f: nat :: f < |p.frames| && Find(p.table, pg) != Some(f) ==> p'.frames[f] == p.frames[f])
    && p'.free == if pg in p.table then p.free + [p.table[pg]] else p.free
  }

  lemma DeletedKeeps(p: Pool, a: Arc, pg: nat)
    requires TableOk(p, None) && (pg in p.table ==> p.pins[p.table[pg]] == 0)
    ensures Deletes(p, Deleted(p, a, pg), pg) && PagesKept(p, Deleted(p, a, pg))
  {
    var q := Deleted(p, a, pg);
    if pg !in p.table { assert p.table - {pg} == p.table; }
  }

  lemma DeletedView(p: Pool, a: Arc, pg: nat)
    requires TableOk(p, None) && ReplacerAgrees(p)
    requires forall g: nat :: View(a, g) == if Find(p.table, pg) == Some(g) then None else View(p.arc, g)
    ensures ReplacerAgrees(Deleted(p, a, pg))
  {
    var q := Deleted(p, a, pg);
    forall g: nat ensures View(q.arc, g) == Seen(q, g) { assert View(p.arc, g) == Seen(p, g); }
  }

  lemma DeletedTable(p: Pool, a: Arc, pg: nat)
    requires TableOk(p, None) && (pg in p.table ==> p.pins[p.table[pg]] == 0)
    ensures TableOk(Deleted(p, a, pg), None)
  {
    var q := Deleted(p, a, pg);
    if pg in p.table { assert FrameOk(p, p.table[pg], None); }
    forall g: nat | g < |q.frames| ensures FrameOk(q, g, None) { assert FrameOk(p, g, None); }
  }

  lemma DeletedContents(p: Pool, c: Contents, a: Arc, pg: nat)
    requires TableOk(p, None) && ContentsOk(p, c) && pg in c
    ensures ContentsOk(Deleted(p, a, pg), c - {pg})
  {
    var q := Deleted(p, a, pg);
    forall x | x in c - {pg} ensures x < q.next && x !in q.freeIds && PageHolds(q, x, c[x]) {
      assert PageHolds(p, x, c[x]);
      if x in p.table { assert p.frames[p.table[x]].page == Some(x); }
    }
  }

  /** Deletes a page, in a frame or on disk; its id may be handed out again. */
  method DeletePage(p: Pool, pg: nat, ghost o: Orders, ghost c: Contents)
    returns (r: Result<(), Error>, p': Pool, ghost o': Orders, ghost c': Contents)
    requires PoolInv(p, o, c, None)
    ensures PoolInv(p', o', c', None)
    ensures r == if pg in p.table && p.pins[p.table[pg]] > 0 then Err(PagePinned)
            else if pg !in c then Err(NoSuchPage) else Ok(())
    ensures r.Ok? ==> c' == c - {pg} && Deletes(p, p', pg)
    ensures r.Ok? ==>
            pg !in p'.arc.pages && p'.arc.target == p.arc.target
            && o' == if pg in p.arc.pages then Dropped(o, p.arc.pages[pg]) else o
    ensures r.Err? ==> p' == p && o' == o && c' == c
    ensures PagesKept(p, p')
  {
    if pg in p.table && p.pins[p.table[pg]] > 0 {
      return Err(PagePinned), p, o, c;
    }
    assert pg in c ==> PageHolds(p, pg, c[pg]);
    if pg !in p.table && pg !in p.disk {
      return Err(NoSuchPage), p, o, c;
    }
    var frame, a;
    frame, a, o' := RemovePage(p.arc, pg, o);
    forall g: nat ensures View(a, g) == if Find(p.table, pg) == Some(g) then None else View(p.arc, g) {
      RemovedFrame(p, o, c, pg, g);
    }
    DeletedInv(p, o, c, a, o', pg);
    DeletedKeeps(p, a, pg);
    return Ok(()), Deleted(p, a, pg), o', c - {pg};
  }

  /** The frame the replacer has for a page is the one of the page table. */
  lemma RemovedFrame(p: Pool, o: Orders, c: Contents, pg: nat, g: nat)
    requires PoolInv(p, o, c, None)
    ensures (pg in p.arc.pages && p.arc.pages[pg] < |p.arc.arena.nodes|
             && p.arc.arena.nodes[p.arc.pages[pg]].frame == Some(g)) ==>
            Find(p.table, pg) == Some(g)
    ensures Find(p.table, pg) == Some(g) ==>
            pg in p.arc.pages && p.arc.pages[pg] < |p.arc.arena.nodes|
            && p.arc.arena.nodes[p.arc.pages[pg]].frame == Some(g)
  {
    var a := p.arc;
    if pg in a.pages && a.pages[pg] < |a.arena.nodes| && a.arena.nodes[a.pages[pg]].frame == Some(g) {
      assert NodeOk(a, a.pages[pg]);
      assert View(a, g) == Seen(p, g);
      assert FrameOk(p, g, None);
    }
    if Find(p.table, pg) == Some(g) {
      assert View(a, g) == Seen(p, g);
      ViewPage(a, o, g);
    }
  }

  /** A frame written to disk. */
  function Flushed(p: Pool, f: nat): Pool
    requires f < |p.frames|
  {
    if p.frames[f].page.Some?
        then p.(disk := p.disk[p.frames[f].page.value := p.frames[f].buf],
        frames := p.frames[f := p.frames[f].(dirty := false)]) else p
  }

  lemma FlushedInv(p: Pool, o: Orders, c: Contents, f: nat)
    requires PoolInv(p, o, c, None) && f < |p.frames| && f !in p.writers
    ensures PoolInv(Flushed(p, f), o, c, None)
  {
    var q := Flushed(p, f);
    assert FrameOk(p, f, None);
    forall g: nat | g < |q.frames| ensures FrameOk(q, g, None) { assert FrameOk(p, g, None); }
    forall g: nat ensures View(q.arc, g) == Seen(q, g) { assert View(p.arc, g) == Seen(p, g); }
    forall x | x in c ensures x < q.next && x !in q.freeIds && PageHolds(q, x, c[x]) {
      assert PageHolds(p, x, c[x]);
    }
  }

  predicate Clean(fr: Frame) { fr.page.Some? ==> !fr.dirty }

  /** The frames below `n` with a page that is not on disk as it is. */
  function DirtyFrames(p: Pool, n: nat): set<nat>
    requires n <= |p.frames|
  {
    set f: nat | f < n && !Clean(p.frames[f])
  }

  lemma AllOnDisk(p: Pool, o: Orders, c: Contents)
    requires PoolInv(p, o, c, None) && forall f: nat :: f < |p.frames| ==> Clean(p.frames[f])
    ensures forall pg :: pg in c ==> Find(p.disk, pg) == Some(c[pg])
  {
    forall pg | pg in c ensures Find(p.disk, pg) == Some(c[pg]) {
      assert PageHolds(p, pg, c[pg]);
      if pg in p.table { assert FrameOk(p, p.table[pg], None); }
    }
  }

  lemma OneMoreDirty(p: Pool, i: nat)
    requires i < |p.frames|
    ensures |DirtyFrames(p, i + 1)| == |DirtyFrames(p, i)| + if Clean(p.frames[i]) then 0 else 1
  {
    assert DirtyFrames(p, i + 1) == DirtyFrames(p, i) + if Clean(p.frames[i]) then {} else {i};
  }

  /** The frames below `i` are written, the rest are as they were, and no write failed. */
  predicate FlushedTo(p: Pool, p': Pool, fails: set<nat>, i: nat) {
    && i <= |p.frames| == |p'.frames| && p' == p.(frames := p'.frames, disk := p'.disk)
    && (forall f: nat :: f < i ==>
        p'.frames[f] == (if Clean(p.frames[f]) then p.frames[f] else p.frames[f].(dirty := false))
        && (Clean(p.frames[f]) || f !in fails))
    && (forall f: nat :: i <= f < |p.frames| ==> p'.frames[f] == p.frames[f])
  }

  lemma OneMoreFlushed(p: Pool, p': Pool, fails: set<nat>, i: nat)
    requires FlushedTo(p, p', fails, i) && i < |p.frames| && (Clean(p.frames[i]) || i !in fails)
    ensures FlushedTo(p, if Clean(p'.frames[i]) then p' else Flushed(p', i), fails, i + 1)
  {}

  lemma FlushKeepsPages(p: Pool, p': Pool, fails: set<nat>, i: nat)
    requires FlushedTo(p, p', fails, i)
    ensures PagesKept(p, p') && (i == |p.frames| ==> forall f: nat :: f < |p.frames| ==> Clean(p'.frames[f]))
  {}

  /** Writes every dirty page, frame by frame, until a write fails. When none fails, the disk holds
      the contents of every page. */
  method FlushAll(p: Pool, fails: set<nat>, syncOk: bool, ghost o: Orders, ghost c: Contents)
    returns (r: Result<nat, Error>, p': Pool, ghost i: nat)
    requires PoolInv(p, o, c, None) && p.writers == {}
    ensures PoolInv(p', o, c, None) && PagesKept(p, p') && FlushedTo(p, p', fails, i)
    ensures r.Err? && i < |p.frames| ==> r.error == Io && !Clean(p.frames[i]) && i in fails
    ensures r.Err? && i == |p.frames| ==> r.error == Io && !syncOk && DirtyFrames(p, i) != {}
    ensures r.Ok? ==> i == |p.frames| && r.value == |DirtyFrames(p, i)| && (syncOk || DirtyFrames(p, i) == {})
    ensures r.Ok? ==> forall pg :: pg in c ==> Find(p'.disk, pg) == Some(c[pg])
  {
    p', i := p, 0;
    var written, f := 0, 0;
    while f < |p.frames|
      invariant f == i && FlushedTo(p, p', fails, f) && PoolInv(p', o, c, None) && written == |DirtyFrames(p, f)|
    {
      FlushKeepsPages(p, p', fails, f);
      if p'.frames[f].page.Some? && p'.frames[f].dirty && f in fails {
        return Err(Io), p', i;
      }
      OneMoreFlushed(p, p', fails, f);
      OneMoreDirty(p, f);
      if p'.frames[f].page.Some? && p'.frames[f].dirty {
        FlushedInv(p', o, c, f);
        p', written := Flushed(p', f), written + 1;
      }
      f, i := f + 1, i + 1;
    }
    FlushKeepsPages(p, p', fails, f);
    AllOnDisk(p', o, c);
    if written > 0 && !syncOk {
      return Err(Io), p', i;
    }
    r := Ok(written);
  }

  /** Page `pg` is on disk and clean, and nothing else changed. */
  predicate Writes(p: Pool, p': Pool, pg: nat, data: Bytes) {
    && pg in p.table && p.table[pg] < |p.frames|
    && p' == p.(disk := p.disk[pg := data],
                frames := p.frames[p.table[pg] := p.frames[p.table[pg]].(dirty := false)])
  }

  /** Looks a page's frame up under the lock of the page table, and writes it under the frame's latch. */
  method FlushPage(p: Pool, pg: nat, writeOk: bool, ghost o: Orders, ghost c: Contents)
    returns (r: Result<(), Error>, p': Pool)
    requires PoolInv(p, o, c, None) && (pg in p.table ==> p.table[pg] !in p.writers)
    ensures PoolInv(p', o, c, None)
    ensures r == if pg !in p.table then Err(PageNotCached) else if writeOk then Ok(()) else Err(Io)
    ensures r.Ok? ==> pg in c && Writes(p, p', pg, c[pg])
    ensures r.Err? ==> p' == p
    ensures PagesKept(p, p')
  {
    if pg !in p.table {
      return Err(PageNotCached), p;
    }
    r, p' := FlushFrame(p, p.table[pg], pg, writeOk, o, c);
  }

  /** Nothing pins the frame in between: by now it may have another page, and then nothing is written. */
  method FlushFrame(p: Pool, f: nat, pg: nat, writeOk: bool, ghost o: Orders, ghost c: Contents)
    returns (r: Result<(), Error>, p': Pool)
    requires PoolInv(p, o, c, None) && f < |p.frames| && f !in p.writers
    ensures PoolInv(p', o, c, None)
    ensures r == if p.frames[f].page != Some(pg) then Err(PageNotCached) else if writeOk then Ok(()) else Err(Io)
    ensures r.Ok? ==> pg in c && Writes(p, p', pg, c[pg])
    ensures r.Err? ==> p' == p
    ensures PagesKept(p, p')
  {
    if p.frames[f].page != Some(pg) {
      return Err(PageNotCached), p;
    }
    if !writeOk {
      return Err(Io), p;
    }
    assert FrameOk(p, f, None);
    assert PageHolds(p, pg, c[pg]);
    FlushedInv(p, o, c, f);
    return Ok(()), Flushed(p, f);
  }

  /** A pool over a disk whose pages are the allocated ones that were written. */
  function Opened(frames: nat, disk: map<nat, Bytes>, next: nat, freeIds: set<nat>): Pool {
    Pool(New(frames), seq(frames, i => i), map[], seq(frames, i => 0), next, freeIds,
        seq(frames, i => Frame(None, [], false)), {}, disk - freeIds)
  }

  lemma OpenedInv(frames: nat, disk: map<nat, Bytes>, next: nat, freeIds: set<nat>)
    requires next <= MAX_PAGE_ID + 1 && (forall pg :: pg in disk ==> pg < next)
             && (forall id :: id in freeIds ==> id < next)
    ensures PoolInv(Opened(frames, disk, next, freeIds), Four([], [], [], []), disk - freeIds, None)
  {
    NewInv(frames);
    var p := Opened(frames, disk, next, freeIds);
    forall f: nat | f < frames ensures FrameOk(p, f, None) { assert p.free[f] == f; }
    assert forall g: nat :: View(p.arc, g) == Seen(p, g);
  }

  class Manager {
    var arc: Arc
    var free: seq<nat>
    var table: map<nat, nat>
    var pins: seq<nat>
    var nextId: nat
    var freeIds: set<nat>
    var frames: seq<Frame>
    var writers: set<nat>
    var disk: map<nat, Bytes>
    ghost var order: Orders
    /** What every live page holds. */
    ghost var contents: Contents

    function State(): Pool
      reads this
    {
      Pool(arc, free, table, pins, nextId, freeIds, frames, writers, disk)
    }

    ghost predicate Valid()
      reads this
    {
      PoolInv(State(), order, contents, None)
    }

    constructor (numFrames: nat, disk: map<nat, Bytes>, nextId: nat, freeIds: set<nat>)
      requires nextId <= MAX_PAGE_ID + 1 && (forall pg :: pg in disk ==> pg < nextId)
               && (forall id :: id in freeIds ==> id < nextId)
      ensures Valid() && contents == disk - freeIds && |frames| == numFrames
      ensures table == map[] && writers == {} && this.nextId == nextId && this.freeIds == freeIds
              && forall f: nat :: f < numFrames ==> f < |pins| && pins[f] == 0
    {
      var p := Opened(numFrames, disk, nextId, freeIds);
      arc, free, table, pins, this.nextId, this.freeIds, frames, writers, this.disk := p.arc, p.free, p.table,
          p.pins, p.next, p.freeIds, p.frames, p.writers, p.disk;
      order, contents := Four([], [], [], []), disk - freeIds;
      new;
      OpenedInv(numFrames, disk, nextId, freeIds);
    }

    method Store(p: Pool, ghost o: Orders, ghost c: Contents)
      modifies this
      ensures State() == p && order == o && contents == c
    {
      arc, free, table, pins, nextId, freeIds, frames, writers, disk := p.arc, p.free, p.table, p.pins, p.next,
          p.freeIds, p.frames, p.writers, p.disk;
      order, contents := o, c;
    }

    method Allocate(writeOk: bool) returns (r: Result<(nat, nat), Error>)
      requires Valid()
      modifies this
      ensures Valid()
      ensures r.Ok? ==> var (pg, f) := r.value;
              pg !in old(contents) && Guards(State(), f, pg, true) && contents == old(contents)[pg := frames[f].buf]
      ensures r.Ok? ==> var (pg, f) := r.value;
              && IdTaken(old(State()), State(), pg) && f < |old(frames)|
              && TakesFrame(old(State()), old(order), State(), f, pg, old(frames)[f].buf, true, true)
      ensures r.Err? ==> contents == old(contents) && Undone(old(State()), State())
      ensures r == Err(NoFreeFrame) <==> old(EveryFramePinned(State()))
    {
      var p;
      ghost var o, c;
      r, p, o, c := NewPage(State(), writeOk, order, contents);
      Store(p, o, c);
    }

    method Open(pg: nat, write: bool, readOk: bool, writeOk: bool) returns (r: Result<nat, Error>)
      requires Valid()
      modifies this
      ensures Valid() && contents == old(contents)
      ensures r.Ok? ==> pg in contents && Guards(State(), r.value, pg, write) && frames[r.value].buf == contents[pg]
      ensures r == Err(NoFreeFrame) <==> old(pg !in table && EveryFramePinned(State()))
      ensures r.Err? ==> r.error == NoFreeFrame || r.error == Io
      ensures readOk && writeOk && pg in contents && !(r == Err(NoFreeFrame)) ==> r.Ok?
      ensures pg in old(table) ==>
              r.Ok? && HitsFrame(old(State()), old(order), State(), order, r.value, pg, write)
      ensures pg !in old(table) && r.Ok? ==>
              TakesFrame(old(State()), old(order), State(), r.value, pg, contents[pg], write, write)
      ensures r.Ok? ==> Guarded(old(State()), State(), r.value, write)
      ensures r.Err? ==> Undone(old(State()), State())
    {
      var p;
      ghost var o;
      r, p, o := Fetch(State(), pg, write, readOk, writeOk, order, contents);
      Store(p, o, contents);
    }

    method Write(f: nat, data: Bytes)
      requires Valid() && f in writers && f < |frames|
      modifies this
      ensures Valid() && old(frames[f].page).Some? && contents == old(contents)[old(frames[f].page).value := data]
      ensures pins == old(pins) && writers == old(writers) && table == old(table)
    {
      var p;
      ghost var c;
      p, c := WriteBytes(State(), f, data, order, contents);
      Store(p, order, c);
    }

    method Release(f: nat, writer: bool)
      requires Valid() && f < |frames| && (f in writers ==> writer || pins[f] > 1)
      modifies this
      ensures Valid() && contents == old(contents) && pins == if old(pins[f]) > 0
              then old(pins)[f := old(pins[f]) - 1] else old(pins)
      ensures table == old(table) && frames == old(frames)
              && writers == if writer && old(pins[f]) > 0 then old(writers) - {f} else old(writers)
    {
      var p := ReleasePin(State(), f, writer, order, contents);
      Store(p, order, contents);
    }

    method Delete(pg: nat) returns (r: Result<(), Error>)
      requires Valid()
      modifies this
      ensures Valid()
      ensures r == if pg in old(table) && old(pins[table[pg]]) > 0 then Err(PagePinned) else if pg !in old(contents)
              then Err(NoSuchPage) else Ok(())
      ensures contents == if r.Ok? then old(contents) - {pg} else old(contents)
      ensures if r.Ok? then Deletes(old(State()), State(), pg) else State() == old(State())
    {
      var p;
      ghost var o, c;
      r, p, o, c := DeletePage(State(), pg, order, contents);
      Store(p, o, c);
    }

    method Flush(fails: set<nat>, syncOk: bool) returns (r: Result<nat, Error>)
      requires Valid() && writers == {}
      modifies this
      ensures Valid() && contents == old(contents) && pins == old(pins) && table == old(table)
      ensures r.Err? <==>
              || (exists f: nat :: f < |old(frames)| && !Clean(old(frames)[f]) && f in fails)
              || (!syncOk && old(DirtyFrames(State(), |frames|)) != {})
      ensures r.Err? ==> r.error == Io
      ensures r.Ok? ==> r.value == |old(DirtyFrames(State(), |frames|))|
      ensures r.Ok? ==> forall pg :: pg in contents ==> Find(disk, pg) == Some(contents[pg])
    {
      var p;
      ghost var i;
      r, p, i := FlushAll(State(), fails, syncOk, order, contents);
      Store(p, order, contents);
    }
  }
}
