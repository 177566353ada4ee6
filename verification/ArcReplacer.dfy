/** The ARC replacer: which resident page to evict, from its recency lists and the ghosts of the pages
    evicted from them. */
module ArcReplacer {
  import opened Base
  import opened ArcLists

  datatype Arc = Arc(arena: Arena, unused: seq<nat>, pages: map<nat, nat>, frames: map<nat, nat>, target: nat,
      capacity: nat, evictable: int)

  function New(capacity: nat): Arc {
    var none := Head(None, None, 0);
    Arc(Arena([], Four(none, none, none, none)), [], map[], map[], 0, capacity, 0)
  }

  predicate Resident(id: ListId) { id == Mru || id == Mfu }

  /** The ghost list that remembers a page evicted from `id`. */
  function GhostOf(id: ListId): ListId { if id == Mru then GhostMru else if id == Mfu then GhostMfu else id }

  // ---------------------------------------------------------------- the invariant

  /** A node in use is the one its page and its frame lead to, and has a frame just when it is resident. */
  predicate NodeOk(a: Arc, i: nat)
    requires i < |a.arena.nodes|
  {
    var n := a.arena.nodes[i];
    && (i in a.unused ==> n.frame == None)
    && (i !in a.unused ==> Find(a.pages, n.page) == Some(i) && (n.frame.Some? <==> Resident(n.list)))
    && (n.evictable ==> n.frame.Some?) && (n.frame.Some? ==> Find(a.frames, n.frame.value) == Some(i))
  }

  ghost predicate NodesOk(a: Arc, o: Orders) {
    forall i: nat :: i < |a.arena.nodes| ==> NodeOk(a, i) && (i in a.unused <==> Loose(o, i))
  }

  predicate MapsOk(a: Arc) {
    var nodes := a.arena.nodes;
    && NoRepeats(a.unused) && (forall u :: u in a.unused ==> u < |nodes|)
    && (forall p :: p in a.pages ==> a.pages[p] < |nodes| && a.pages[p] !in a.unused && nodes[a.pages[p]].page == p)
    && (forall f :: f in a.frames ==> a.frames[f] < |nodes| && nodes[a.frames[f]].frame == Some(f))
  }

  function Evictable(nodes: seq<Node>): set<nat> { set i: nat | i < |nodes| && nodes[i].evictable }

  function ResidentCount(o: Orders): nat { |o.mru| + |o.mfu| }

  function Tracked(o: Orders): nat { |o.mru| + |o.mfu| + |o.ghostMru| + |o.ghostMfu| }

  predicate SizesOk(a: Arc, o: Orders) {
    && ResidentCount(o) <= a.capacity && |o.mru| + |o.ghostMru| <= a.capacity && Tracked(o) <= 2 * a.capacity
    && a.target <= a.capacity
    && |a.arena.nodes| == Tracked(o) + |a.unused| && |a.arena.nodes| <= 2 * a.capacity
  }

  /** What every call keeps. */
  ghost predicate Inv(a: Arc, o: Orders) {
    ListsOk(a.arena, o) && NodesOk(a, o) && MapsOk(a) && a.evictable == |Evictable(a.arena.nodes)| && SizesOk(a, o)
  }

  lemma NewInv(capacity: nat)
    ensures Inv(New(capacity), Four([], [], [], []))
  {
    assert Evictable([]) == {};
  }

  lemma InItsList(a: Arc, o: Orders, i: nat)
    requires Inv(a, o) && i < |a.arena.nodes| && i !in a.unused
    ensures i in o.Get(a.arena.nodes[i].list)
  {
    assert !Loose(o, i);
    var id :| i in o.Get(id);
    ListNamed(a.arena, o, id, i);
  }

  /** Frames and resident pages lead to each other, one to one. */
  lemma FramesAreResidents(a: Arc, o: Orders)
    requires Inv(a, o)
    ensures forall f :: f in a.frames ==> a.frames[f] in o.mru + o.mfu
    ensures forall i: nat ::
            i in o.mru + o.mfu ==>
            i < |a.arena.nodes| && a.arena.nodes[i].frame.Some?
            && Find(a.frames, a.arena.nodes[i].frame.value) == Some(i)
    ensures forall f, g :: f in a.frames && g in a.frames && a.frames[f] == a.frames[g] ==> f == g
  {
    forall f | f in a.frames ensures a.frames[f] in o.mru + o.mfu {
      assert NodeOk(a, a.frames[f]);
      InItsList(a, o, a.frames[f]);
    }
    forall i: nat | i in o.mru + o.mfu
      ensures i < |a.arena.nodes| && a.arena.nodes[i].frame.Some?
              && Find(a.frames, a.arena.nodes[i].frame.value) == Some(i)
    {
      ListNamed(a.arena, o, if i in o.mru then Mru else Mfu, i);
      assert i in o.Get(a.arena.nodes[i].list);
      assert !Loose(o, i);
      assert NodeOk(a, i);
    }
  }

  // ---------------------------------------------------------------- giving up a frame

  /** The node without its frame, at the front of the ghost list of the list it was in. */
  function GiveUp(a: Arc, idx: nat): Arc
    requires idx < |a.arena.nodes|
  {
    var n := a.arena.nodes[idx];
    var nodes := a.arena.nodes[idx := n.(frame := None, evictable := false)];
    WithoutFrame(a, n, MoveToFront(Arena(nodes, a.arena.heads), idx, GhostOf(n.list)))
  }

  /** The frame of `n` is nobody's, and no page in it can be evicted. */
  function WithoutFrame(a: Arc, n: Node, arena: Arena): Arc {
    a.(arena := arena, frames := if n.frame.Some? then a.frames - {n.frame.value} else a.frames,
       evictable := if n.evictable then a.evictable - 1 else a.evictable)
  }

  lemma EvictableChanged(nodes: seq<Node>, nodes': seq<Node>, idx: nat)
    requires idx < |nodes| == |nodes'|
             && forall i :: 0 <= i < |nodes| && i != idx ==> nodes'[i].evictable == nodes[i].evictable
    ensures |Evictable(nodes')| == |Evictable(nodes)| - (if nodes[idx].evictable then 1
            else 0) + (if nodes'[idx].evictable then 1 else 0)
  {
    var rest := Evictable(nodes) - {idx};
    assert Evictable(nodes') == if nodes'[idx].evictable then rest + {idx} else rest;
    assert Evictable(nodes) == if nodes[idx].evictable then rest + {idx} else rest;
  }

  /** Apart from links, only node `idx` may have changed, and it keeps its page. */
  predicate OnlyNode(nodes: seq<Node>, nodes': seq<Node>, idx: nat) {
    && |nodes'| == |nodes| && (idx < |nodes| ==> nodes'[idx].page == nodes[idx].page)
    && (forall i :: 0 <= i < |nodes| && i != idx ==> SameBody(nodes[i], nodes'[i]) && nodes'[i].list == nodes[i].list)
  }

  ghost predicate SameLoose(o: Orders, o': Orders) { forall i: nat :: Loose(o', i) <==> Loose(o, i) }

  lemma GivenUpNodes(a: Arc, o: Orders, b: Arc, o': Orders, idx: nat)
    requires NodesOk(a, o) && MapsOk(a) && idx < |a.arena.nodes| && SameLoose(o, o')
             && OnlyNode(a.arena.nodes, b.arena.nodes, idx)
    requires b.unused == a.unused && b.pages == a.pages && idx !in a.unused
    requires var n, n' := a.arena.nodes[idx], b.arena.nodes[idx];
             && n'.frame == None && !n'.evictable && !Resident(n'.list)
             && b.frames == if n.frame.Some? then a.frames - {n.frame.value} else a.frames
    ensures NodesOk(b, o') && MapsOk(b)
  {
    assert NodeOk(a, idx);
    forall i: nat | i < |b.arena.nodes| ensures NodeOk(b, i) && (i in b.unused <==> Loose(o', i)) {
      assert NodeOk(a, i);
    }
  }

  lemma GiveUpArena(a: Arc, o: Orders, idx: nat)
    requires Inv(a, o) && idx < |a.arena.nodes| && idx !in a.unused && Resident(a.arena.nodes[idx].list)
    ensures var n, n', o' := a.arena.nodes[idx], GiveUp(a, idx).arena, Front(o, idx, GhostOf(a.arena.nodes[idx].list));
            && ListsOk(n', o') && OnlyNode(a.arena.nodes, n'.nodes, idx) && SameLoose(o, o')
            && n'.nodes[idx].frame == None && !n'.nodes[idx].evictable && n'.nodes[idx].list == GhostOf(n.list)
    ensures var id, o' := a.arena.nodes[idx].list, Front(o, idx, GhostOf(a.arena.nodes[idx].list));
            && idx in o.Get(id) && forall y :: |o'.Get(y)| == |o.Get(y)| - Plus(y, id) + Plus(y, GhostOf(id))
  {
    var n := a.arena.nodes[idx];
    InItsList(a, o, idx);
    ChangedAndMoved(a.arena, o, idx, n.(frame := None, evictable := false), GhostOf(n.list));
    FrontKeeps(a.arena, o, n.list, idx, GhostOf(n.list));
  }

  /** A node that gets another body and goes to the front of a list. */
  lemma ChangedAndMoved(a: Arena, o: Orders, idx: nat, n: Node, to: ListId)
    requires ListsOk(a, o) && idx < |a.nodes| && idx in o.Get(a.nodes[idx].list)
    requires n.page == a.nodes[idx].page && n.list == a.nodes[idx].list && n.next == a.nodes[idx].next
             && n.prev == a.nodes[idx].prev
    ensures var b := MoveToFront(Arena(a.nodes[idx := n], a.heads), idx, to);
            && ListsOk(b, Front(o, idx, to)) && OnlyNode(a.nodes, b.nodes, idx) && SameBody(n, b.nodes[idx])
            && b.nodes[idx].list == to
            && forall i: nat :: i < |a.nodes| && i != idx && Loose(o, i) ==> b.nodes[i] == a.nodes[i]
  {
    var nodes := a.nodes[idx := n];
    BodyOk(a, o, nodes);
    MoveToFrontOk(Arena(nodes, a.heads), o, n.list, idx, to);
  }

  /** Sizes when one node goes from list `id` to list `to`. */
  lemma SizesMoved(a: Arc, o: Orders, b: Arc, o': Orders, id: ListId, to: ListId)
    requires SizesOk(a, o) && b.target <= b.capacity == a.capacity && b.unused == a.unused
             && |b.arena.nodes| == |a.arena.nodes| && |o.Get(id)| > 0
    requires forall y :: |o'.Get(y)| == |o.Get(y)| - Plus(y, id) + Plus(y, to)
    requires Resident(id) || !Resident(to) || ResidentCount(o) < a.capacity
    requires to == Mru || to == GhostMru ==> id == Mru || id == GhostMru
    ensures SizesOk(b, o')
  {
    assert |o'.Get(Mru)| == |o.Get(Mru)| - Plus(Mru, id) + Plus(Mru, to)
        && |o'.Get(Mfu)| == |o.Get(Mfu)| - Plus(Mfu, id) + Plus(Mfu, to);
    assert |o'.Get(GhostMru)| == |o.Get(GhostMru)| - Plus(GhostMru, id) + Plus(GhostMru, to);
    assert |o'.Get(GhostMfu)| == |o.Get(GhostMfu)| - Plus(GhostMfu, id) + Plus(GhostMfu, to);
  }

  /** A step that changes one node, and may move it to another list. */
  lemma StepInv(a: Arc, o: Orders, b: Arc, o': Orders, idx: nat)
    requires Inv(a, o) && idx < |a.arena.nodes| && OnlyNode(a.arena.nodes, b.arena.nodes, idx)
    requires ListsOk(b.arena, o') && NodesOk(b, o') && MapsOk(b) && SizesOk(b, o')
    requires b.evictable == a.evictable - (if a.arena.nodes[idx].evictable then 1
             else 0) + (if b.arena.nodes[idx].evictable then 1 else 0)
    ensures Inv(b, o')
  {
    EvictableChanged(a.arena.nodes, b.arena.nodes, idx);
  }

  lemma GiveUpInv(a: Arc, o: Orders, idx: nat)
    requires Inv(a, o) && idx < |a.arena.nodes| && idx !in a.unused && Resident(a.arena.nodes[idx].list)
    ensures Inv(GiveUp(a, idx), Front(o, idx, GhostOf(a.arena.nodes[idx].list)))
  {
    var id := a.arena.nodes[idx].list;
    GiveUpArena(a, o, idx);
    GivenUp(a, o, GiveUp(a, idx).arena, Front(o, idx, GhostOf(id)), idx, id);
  }

  lemma GivenUp(a: Arc, o: Orders, arena: Arena, o': Orders, idx: nat, id: ListId)
    requires Inv(a, o) && idx < |a.arena.nodes| && idx !in a.unused && a.arena.nodes[idx].list == id && Resident(id)
    requires ListsOk(arena, o') && OnlyNode(a.arena.nodes, arena.nodes, idx) && SameLoose(o, o') && idx in o.Get(id)
    requires forall y :: |o'.Get(y)| == |o.Get(y)| - Plus(y, id) + Plus(y, GhostOf(id))
    requires arena.nodes[idx].frame == None && !arena.nodes[idx].evictable && arena.nodes[idx].list == GhostOf(id)
    ensures Inv(WithoutFrame(a, a.arena.nodes[idx], arena), o')
  {
    var b := WithoutFrame(a, a.arena.nodes[idx], arena);
    assert NodesOk(b, o') && MapsOk(b) by { GivenUpNodes(a, o, b, o', idx); }
    assert SizesOk(b, o') by { SizesMoved(a, o, b, o', id, GhostOf(id)); }
    StepInv(a, o, b, o', idx);
  }

  // ---------------------------------------------------------------- taking a frame

  /** The node with another frame, in its place. */
  function Reframed(a: Arc, idx: nat, frame: nat): Arc
    requires idx < |a.arena.nodes|
  {
    var n := a.arena.nodes[idx];
    var frames := if n.frame.Some? then a.frames - {n.frame.value} else a.frames;
    a.(arena := Arena(a.arena.nodes[idx := n.(frame := Some(frame), evictable := false)], a.arena.heads),
        frames := frames[frame := idx],
       evictable := if n.evictable then a.evictable - 1 else a.evictable)
  }

  /** The node at the front of the MFU list. */
  function Promoted(a: Arc, idx: nat): Arc
    requires idx < |a.arena.nodes|
  {
    a.(arena := MoveToFront(a.arena, idx, Mfu))
  }

  lemma ReframedNodes(a: Arc, o: Orders, b: Arc, o': Orders, idx: nat, frame: nat)
    requires NodesOk(a, o) && MapsOk(a) && idx < |a.arena.nodes| && SameLoose(o, o')
             && OnlyNode(a.arena.nodes, b.arena.nodes, idx)
    requires b.unused == a.unused && b.pages == a.pages && idx !in a.unused && frame !in a.frames
    requires var n, n' := a.arena.nodes[idx], b.arena.nodes[idx];
             && n'.frame == Some(frame) && !n'.evictable && Resident(n'.list)
             && b.frames == (if n.frame.Some? then a.frames - {n.frame.value} else a.frames)[frame := idx]
    ensures NodesOk(b, o') && MapsOk(b)
  {
    assert NodeOk(a, idx);
    forall i: nat | i < |b.arena.nodes| ensures NodeOk(b, i) && (i in b.unused <==> Loose(o', i)) {
      assert NodeOk(a, i);
    }
  }

  lemma ReframedInv(a: Arc, o: Orders, idx: nat, frame: nat)
    requires Inv(a, o) && idx < |a.arena.nodes| && idx !in a.unused && Resident(a.arena.nodes[idx].list)
             && frame !in a.frames
    ensures Inv(Reframed(a, idx, frame), o)
  {
    var b := Reframed(a, idx, frame);
    BodyOk(a.arena, o, b.arena.nodes);
    ReframedNodes(a, o, b, o, idx, frame);
    StepInv(a, o, b, o, idx);
  }

  lemma PromotedNodes(a: Arc, o: Orders, b: Arc, o': Orders, idx: nat)
    requires NodesOk(a, o) && MapsOk(a) && idx < |a.arena.nodes| && SameLoose(o, o')
             && OnlyMoved(a.arena.nodes, b.arena.nodes, idx, Mfu)
    requires b.unused == a.unused && b.pages == a.pages && b.frames == a.frames && Resident(a.arena.nodes[idx].list)
    ensures NodesOk(b, o') && MapsOk(b)
  {
    forall i: nat | i < |b.arena.nodes| ensures NodeOk(b, i) && (i in b.unused <==> Loose(o', i)) {
      assert NodeOk(a, i);
    }
  }

  lemma PromotedInv(a: Arc, o: Orders, idx: nat)
    requires Inv(a, o) && idx < |a.arena.nodes| && idx !in a.unused && Resident(a.arena.nodes[idx].list)
    ensures Inv(Promoted(a, idx), Front(o, idx, Mfu))
  {
    var id, b, o' := a.arena.nodes[idx].list, Promoted(a, idx), Front(o, idx, Mfu);
    InItsList(a, o, idx);
    MoveToFrontOk(a.arena, o, id, idx, Mfu);
    FrontKeeps(a.arena, o, id, idx, Mfu);
    PromotedNodes(a, o, b, o', idx);
    SizesMoved(a, o, b, o', id, Mfu);
    StepInv(a, o, b, o', idx);
  }

  /** A ghost that takes a frame, at the front of the MFU list. */
  function Revived(a: Arc, idx: nat, frame: nat): Arc
    requires idx < |a.arena.nodes|
  {
    var nodes := a.arena.nodes[idx := a.arena.nodes[idx].(frame := Some(frame), evictable := false)];
    a.(arena := MoveToFront(Arena(nodes, a.arena.heads), idx, Mfu), frames := a.frames[frame := idx])
  }

  lemma RevivedArena(a: Arc, o: Orders, idx: nat, frame: nat)
    requires Inv(a, o) && idx < |a.arena.nodes| && idx !in a.unused && !Resident(a.arena.nodes[idx].list)
    ensures var id, b, o' := a.arena.nodes[idx].list, Revived(a, idx, frame).arena, Front(o, idx, Mfu);
            && idx in o.Get(id) && ListsOk(b, o') && OnlyNode(a.arena.nodes, b.nodes, idx) && SameLoose(o, o')
            && b.nodes[idx].frame == Some(frame) && !b.nodes[idx].evictable && b.nodes[idx].list == Mfu
            && forall y :: |o'.Get(y)| == |o.Get(y)| - Plus(y, id) + Plus(y, Mfu)
  {
    InItsList(a, o, idx);
    ChangedAndMoved(a.arena, o, idx, a.arena.nodes[idx].(frame := Some(frame), evictable := false), Mfu);
    FrontKeeps(a.arena, o, a.arena.nodes[idx].list, idx, Mfu);
  }

  lemma RevivedInv(a: Arc, o: Orders, idx: nat, frame: nat)
    requires Inv(a, o) && idx < |a.arena.nodes| && idx !in a.unused && !Resident(a.arena.nodes[idx].list)
             && frame !in a.frames && ResidentCount(o) < a.capacity
    ensures Inv(Revived(a, idx, frame), Front(o, idx, Mfu))
  {
    var id, b, o' := a.arena.nodes[idx].list, Revived(a, idx, frame), Front(o, idx, Mfu);
    assert NodeOk(a, idx);
    RevivedArena(a, o, idx, frame);
    ReframedNodes(a, o, b, o', idx, frame);
    SizesMoved(a, o, b, o', id, Mfu);
    StepInv(a, o, b, o', idx);
  }

  // ---------------------------------------------------------------- forgetting and admitting pages

  /** The node out of its list, for another page to use. */
  function Forgotten(a: Arc, idx: nat): Arc
    requires idx < |a.arena.nodes|
  {
    var n := a.arena.nodes[idx];
    var nodes := a.arena.nodes[idx := n.(frame := None, evictable := false)];
    Arc(Detach(Arena(nodes, a.arena.heads), idx), a.unused + [idx], a.pages - {n.page}, if n.frame.Some?
        then a.frames - {n.frame.value} else a.frames,
        a.target, a.capacity, if n.evictable then a.evictable - 1 else a.evictable)
  }

  lemma ForgottenArena(a: Arc, o: Orders, idx: nat)
    requires Inv(a, o) && idx < |a.arena.nodes| && idx !in a.unused
    ensures var id, b, o' := a.arena.nodes[idx].list, Forgotten(a, idx).arena, Dropped(o, idx);
            && idx in o.Get(id) && ListsOk(b, o') && OnlyNode(a.arena.nodes, b.nodes, idx)
            && (forall i: nat :: Loose(o', i) <==> Loose(o, i) || i == idx)
            && b.nodes[idx].frame == None && !b.nodes[idx].evictable
            && forall y :: |o'.Get(y)| == |o.Get(y)| - Plus(y, id)
  {
    var id := a.arena.nodes[idx].list;
    var nodes := a.arena.nodes[idx := a.arena.nodes[idx].(frame := None, evictable := false)];
    InItsList(a, o, idx);
    BodyOk(a.arena, o, nodes);
    DetachIsDrop(Arena(nodes, a.arena.heads), o, id, idx);
    DropKeeps(a.arena, o, id, idx);
  }

  lemma ForgottenNodes(a: Arc, o: Orders, b: Arc, o': Orders, idx: nat)
    requires NodesOk(a, o) && MapsOk(a) && idx < |a.arena.nodes|
             && (forall i: nat :: Loose(o', i) <==> Loose(o, i) || i == idx)
    requires OnlyNode(a.arena.nodes, b.arena.nodes, idx) && idx !in a.unused && b.unused == a.unused + [idx]
    requires var n, n' := a.arena.nodes[idx], b.arena.nodes[idx];
             && n'.frame == None && !n'.evictable && b.pages == a.pages - {n.page}
             && b.frames == if n.frame.Some? then a.frames - {n.frame.value} else a.frames
    ensures NodesOk(b, o') && MapsOk(b)
  {
    assert NodeOk(a, idx);
    forall i: nat | i < |b.arena.nodes| ensures NodeOk(b, i) && (i in b.unused <==> Loose(o', i)) {
      assert NodeOk(a, i);
    }
  }

  lemma ForgottenInv(a: Arc, o: Orders, idx: nat)
    requires Inv(a, o) && idx < |a.arena.nodes| && idx !in a.unused
    ensures Inv(Forgotten(a, idx), Dropped(o, idx))
  {
    var id, b, o' := a.arena.nodes[idx].list, Forgotten(a, idx), Dropped(o, idx);
    ForgottenArena(a, o, idx);
    ForgottenNodes(a, o, b, o', idx);
    SizesDropped(a, o, b, o', id);
    StepInv(a, o, b, o', idx);
  }

  lemma SizesDropped(a: Arc, o: Orders, b: Arc, o': Orders, id: ListId)
    requires SizesOk(a, o) && b.target == a.target && b.capacity == a.capacity && |b.unused| == |a.unused| + 1
             && |b.arena.nodes| == |a.arena.nodes|
    requires forall y :: |o'.Get(y)| == |o.Get(y)| - Plus(y, id)
    ensures SizesOk(b, o')
  {
    assert |o'.Get(Mru)| == |o.Get(Mru)| - Plus(Mru, id) && |o'.Get(Mfu)| == |o.Get(Mfu)| - Plus(Mfu, id);
    assert |o'.Get(GhostMru)| == |o.Get(GhostMru)| - Plus(GhostMru, id)
        && |o'.Get(GhostMfu)| == |o.Get(GhostMfu)| - Plus(GhostMfu, id);
  }

  /** The node a new page gets: a recycled one if there is any. */
  function FreshNode(a: Arc): (idx: nat)
    requires MapsOk(a)
    ensures if a.unused != [] then idx in a.unused && idx < |a.arena.nodes| else idx == |a.arena.nodes|
  {
    if a.unused != [] then (assert Last(a.unused) in a.unused; Last(a.unused)) else |a.arena.nodes|
  }

  /** A node for a new page, at the front of the MRU list. */
  function Admitted(a: Arc, frame: nat, page: nat): Arc
    requires MapsOk(a)
  {
    var n, idx := Node(page, Some(frame), false, Mru, None, None), FreshNode(a);
    var nodes := if a.unused != [] then a.arena.nodes[idx := n] else a.arena.nodes + [n];
    a.(arena := Push(Arena(nodes, a.arena.heads), idx, Mru), unused := if a.unused != [] then Base.Init(a.unused)
        else [],
       pages := a.pages[page := idx], frames := a.frames[frame := idx])
  }

  lemma AdmittedArena(a: Arc, o: Orders, frame: nat, page: nat)
    requires Inv(a, o)
    ensures var idx, b, o' := FreshNode(a), Admitted(a, frame, page).arena, o.(mru := [FreshNode(a)] + o.mru);
            && ListsOk(b, o') && Loose(o, idx)
            && |b.nodes| == (if a.unused != [] then |a.arena.nodes| else |a.arena.nodes| + 1)
            && (forall i :: 0 <= i < |a.arena.nodes| && i != idx ==>
                SameBody(a.arena.nodes[i], b.nodes[i]) && b.nodes[i].list == a.arena.nodes[i].list)
            && SameBody(b.nodes[idx], Node(page, Some(frame), false, Mru, None, None)) && b.nodes[idx].list == Mru
  {
    var n, idx := Node(page, Some(frame), false, Mru, None, None), FreshNode(a);
    var nodes := if a.unused != [] then a.arena.nodes[idx := n] else a.arena.nodes + [n];
    if a.unused != [] { BodyOk(a.arena, o, nodes); } else { GrowOk(a.arena, o, n); }
    InsertOk(Arena(nodes, a.arena.heads), o, idx, Mru, 0);
    assert Spliced(o.mru, 0, idx) == [idx] + o.mru;
  }

  lemma AdmittedNodes(a: Arc, o: Orders, b: Arc, o': Orders, idx: nat, frame: nat, page: nat)
    requires NodesOk(a, o) && MapsOk(a) && Loose(o, idx) && o' == o.(mru := [idx] + o.mru) && frame !in a.frames
             && page !in a.pages
    requires if a.unused != [] then idx == Last(a.unused) && b.unused == Base.Init(a.unused)
             else idx == |a.arena.nodes| && b.unused == []
    requires |b.arena.nodes| == (if a.unused != [] then |a.arena.nodes|
             else |a.arena.nodes| + 1) && idx < |b.arena.nodes|
    requires forall i :: 0 <= i < |a.arena.nodes| && i != idx ==>
             SameBody(a.arena.nodes[i], b.arena.nodes[i]) && b.arena.nodes[i].list == a.arena.nodes[i].list
    requires SameBody(b.arena.nodes[idx], Node(page, Some(frame), false, Mru, None, None))
             && b.arena.nodes[idx].list == Mru
    requires b.pages == a.pages[page := idx] && b.frames == a.frames[frame := idx]
    ensures NodesOk(b, o') && MapsOk(b)
  {
    TakenFromUnused(a.unused);
    forall i: nat ensures Loose(o', i) <==> Loose(o, i) && i != idx { MruFront(o, idx, i); }
    forall i: nat | i < |b.arena.nodes| ensures NodeOk(b, i) && (i in b.unused <==> Loose(o', i)) {
      if i != idx { assert NodeOk(a, i); }
    }
    forall f | f in b.frames && f != frame ensures b.frames[f] != idx {
      if a.unused != [] { assert NodeOk(a, idx); }
    }
  }

  lemma TakenFromUnused(unused: seq<nat>)
    requires NoRepeats(unused)
    ensures unused != [] ==> NoRepeats(Base.Init(unused)) && forall u :: u in Base.Init(unused) <==>
            u in unused && u != Last(unused)
  {
    if unused != [] { assert unused == Base.Init(unused) + [Last(unused)]; }
  }

  lemma MruFront(o: Orders, idx: nat, i: nat)
    ensures Loose(o.(mru := [idx] + o.mru), i) <==> Loose(o, i) && i != idx
  {
    var o' := o.(mru := [idx] + o.mru);
    forall y ensures i in o'.Get(y) <==> i in o.Get(y) || (y == Mru && i == idx) {}
    assert i == idx ==> i in o'.Get(Mru);
  }

  lemma AdmittedInv(a: Arc, o: Orders, frame: nat, page: nat)
    requires Inv(a, o) && frame !in a.frames && page !in a.pages
    requires ResidentCount(o) < a.capacity && |o.mru| + |o.ghostMru| < a.capacity && Tracked(o) < 2 * a.capacity
    ensures Inv(Admitted(a, frame, page), o.(mru := [FreshNode(a)] + o.mru))
  {
    var b, idx := Admitted(a, frame, page), FreshNode(a);
    AdmittedArena(a, o, frame, page);
    AdmittedNodes(a, o, b, o.(mru := [idx] + o.mru), idx, frame, page);
    assert Evictable(b.arena.nodes) == Evictable(a.arena.nodes) by {
      if a.unused != [] { assert NodeOk(a, idx); }
    }
  }

  // ---------------------------------------------------------------- eviction

  predicate NoneEvictable(nodes: seq<Node>, s: seq<nat>) {
    forall i :: 0 <= i < |s| && s[i] < |nodes| ==> !nodes[s[i]].evictable
  }

  /** `idx` is the least recent evictable node of `s`. */
  predicate LeastEvictable(nodes: seq<Node>, s: seq<nat>, k: nat, idx: nat) {
    k < |s| && s[k] == idx && idx < |nodes| && nodes[idx].evictable && NoneEvictable(nodes, s[k + 1..])
  }

  /** Walks a list from its least recent end to the first evictable node. */
  method FindVictim(a: Arc, id: ListId, ghost o: Orders) returns (v: Option<nat>, ghost k: nat)
    requires Inv(a, o)
    ensures v.None? ==> NoneEvictable(a.arena.nodes, o.Get(id))
    ensures v.Some? ==> LeastEvictable(a.arena.nodes, o.Get(id), k, v.value)
  {
    assert Linked(a.arena.nodes, a.arena.heads.Get(id), o.Get(id), id);
    v, k := Walk(a.arena.nodes, a.arena.heads.Get(id), id, o.Get(id));
  }

  method Walk(nodes: seq<Node>, head: Head, ghost id: ListId, ghost s: seq<nat>) returns (v: Option<nat>, ghost k: nat)
    requires Linked(nodes, head, s, id)
    ensures v.None? ==> NoneEvictable(nodes, s)
    ensures v.Some? ==> LeastEvictable(nodes, s, k, v.value)
  {
    if head.leastRecent.None? {
      return None, 0;
    }
    var current := head.leastRecent.value;
    k := |s| - 1;
    assert NodeLinked(nodes, s, id, k);
    while !nodes[current].evictable
      invariant k < |s| && current == s[k] < |nodes| && NoneEvictable(nodes, s[k + 1..])
      decreases k
    {
      assert NodeLinked(nodes, s, id, k);
      OneMoreAbove(nodes, s, k);
      var moreRecent := nodes[current].prev;
      if moreRecent.None? {
        return None, 0;
      }
      current, k := moreRecent.value, k - 1;
      assert NodeLinked(nodes, s, id, k);
    }
    return Some(current), k;
  }

  lemma OneMoreAbove(nodes: seq<Node>, s: seq<nat>, k: nat)
    requires k < |s| && NoneEvictable(nodes, s[k + 1..]) && (s[k] < |nodes| ==> !nodes[s[k]].evictable)
    ensures NoneEvictable(nodes, s[k..]) && (k == 0 ==> NoneEvictable(nodes, s))
  {
    assert s[k..] == [s[k]] + s[k + 1..];
    if k == 0 { assert s[0..] == s; }
  }

  datatype EvictionUndo = EvictionUndo(node: nat, frame: nat, list: ListId, moreRecent: Option<nat>)

  /** The list a victim is taken from first. */
  function Preferred(a: Arc): ListId { if a.arena.heads.mru.length >= a.target then Mru else Mfu }

  function Fallback(a: Arc): ListId { if Preferred(a) == Mru then Mfu else Mru }

  ghost predicate LeastIn(nodes: seq<Node>, s: seq<nat>, idx: nat) { exists k: nat :: LeastEvictable(nodes, s, k, idx) }

  /** The page to give up: while the MRU list is at or over its target, its least recent evictable page if it
      has one, and else that of the MFU list; while it is under, the other way round. */
  ghost predicate Victim(a: Arc, o: Orders, idx: nat) {
    var nodes := a.arena.nodes;
    var fromMru := if |o.mru| >= a.target then !NoneEvictable(nodes, o.mru) else NoneEvictable(nodes, o.mfu);
    LeastIn(nodes, if fromMru then o.mru else o.mfu, idx)
  }

  /** The victim is remembered at the front of its list's ghosts. */
  ghost predicate Evicts(o: Orders, o': Orders, idx: nat) {
    (idx in o.mru && o' == Front(o, idx, GhostMru)) || (idx in o.mfu && o' == Front(o, idx, GhostMfu))
  }

  /** The victim, and what is needed to put it back where it was. */
  ghost predicate VictimOf(a: Arc, o: Orders, u: EvictionUndo) {
    && Victim(a, o, u.node) && Resident(u.list) && LeastIn(a.arena.nodes, o.Get(u.list), u.node)
    && u.frame in a.frames && a.frames[u.frame] == u.node
    && u.node < |a.arena.nodes| && u.moreRecent == a.arena.nodes[u.node].prev
  }

  method BeginEviction(a: Arc, ghost o: Orders) returns (undo: Option<EvictionUndo>, b: Arc, ghost o': Orders)
    requires Inv(a, o)
    ensures Inv(b, o')
    ensures undo.None? ==> a.evictable == 0 && b == a && o' == o
    ensures undo.Some? ==>
              && a.evictable > 0 && VictimOf(a, o, undo.value) && b == GiveUp(a, undo.value.node)
              && o' == Front(o, undo.value.node, if undo.value.list == Mru then GhostMru else GhostMfu)
  {
    ResidentHeads(a, o);
    var id := Preferred(a);
    var v;
    ghost var k;
    v, k := FindVictim(a, id, o);
    if v.None? {
      id := Fallback(a);
      v, k := FindVictim(a, id, o);
    }
    if v.None? {
      NothingEvictable(a, o);
      return None, a, o;
    }
    ListNamed(a.arena, o, id, v.value);
    VictimHeld(a, o, id, k, v.value);
    GiveUpInv(a, o, v.value);
    var n := a.arena.nodes[v.value];
    return Some(EvictionUndo(v.value, n.frame.value, id, n.prev)), GiveUp(a, v.value), Front(o, v.value, GhostOf(id));
  }

  /** An evictable page is in one of the resident lists. */
  lemma NothingEvictable(a: Arc, o: Orders)
    requires Inv(a, o) && NoneEvictable(a.arena.nodes, o.mru) && NoneEvictable(a.arena.nodes, o.mfu)
    ensures a.evictable == 0
  {
    forall i | i in Evictable(a.arena.nodes) ensures false {
      assert NodeOk(a, i);
      InItsList(a, o, i);
    }
    assert Evictable(a.arena.nodes) == {};
  }

  lemma VictimHeld(a: Arc, o: Orders, id: ListId, k: nat, idx: nat)
    requires Inv(a, o) && Resident(id) && LeastEvictable(a.arena.nodes, o.Get(id), k, idx)
    ensures idx !in a.unused && a.arena.nodes[idx].list == id && a.arena.nodes[idx].frame.Some?
            && Find(a.frames, a.arena.nodes[idx].frame.value) == Some(idx)
    ensures a.evictable > 0
  {
    ListNamed(a.arena, o, id, idx);
    assert !Loose(o, idx);
    assert NodeOk(a, idx);
    assert idx in Evictable(a.arena.nodes);
  }

  /** Puts the victim back where it was. */
  function UndoEviction(a: Arc, u: EvictionUndo): Arc
    requires u.node < |a.arena.nodes| && (u.moreRecent.Some? ==> u.moreRecent.value < |a.arena.nodes|)
  {
    var arena := InsertAfter(Detach(a.arena, u.node), u.node, u.list, u.moreRecent);
    a.(arena := Arena(arena.nodes[u.node := arena.nodes[u.node].(frame := Some(u.frame), evictable := true)],
        arena.heads),
       frames := a.frames[u.frame := u.node], evictable := a.evictable + 1)
  }

  /** Nodes in no list are not touched. */
  lemma GiveUpLoose(a: Arc, o: Orders, idx: nat, i: nat)
    requires Inv(a, o) && idx < |a.arena.nodes| && idx !in a.unused && i < |a.arena.nodes| && Loose(o, i)
    ensures var b := GiveUp(a, idx).arena; i < |b.nodes| && b.nodes[i] == a.arena.nodes[i]
  {
    InItsList(a, o, idx);
    var n := a.arena.nodes[idx];
    ChangedAndMoved(a.arena, o, idx, n.(frame := None, evictable := false), GhostOf(n.list));
  }

  lemma Respliced(s: seq<nat>, k: nat)
    requires k < |s|
    ensures Spliced(Cut(s, k), k, s[k]) == s && Before(Cut(s, k), k) == Before(s, k)
  {}

  /** A node put back into the place it was taken from. */
  lemma Reinserted(d: Arena, o: Orders, id: ListId, k: nat)
    requires k < |o.Get(id)| && ListsOk(d, o.Set(id, Cut(o.Get(id), k))) && o.Get(id)[k] < |d.nodes|
             && Loose(o.Set(id, Cut(o.Get(id), k)), o.Get(id)[k])
    ensures var v, prev := o.Get(id)[k], Before(o.Get(id), k);
            && (prev.Some? ==> prev.value < |d.nodes|)
            && var c := InsertAfter(d, v, id, prev);
               && ListsOk(c, o) && |c.nodes| == |d.nodes|
               && (forall i :: 0 <= i < |d.nodes| ==> SameBody(d.nodes[i], c.nodes[i]))
               && (forall i: nat :: i < |d.nodes| && Loose(o, i) ==> c.nodes[i] == d.nodes[i])
  {
    var s := o.Get(id);
    var cut := o.Set(id, Cut(s, k));
    Respliced(s, k);
    InsertOk(d, cut, s[k], id, k);
    assert cut.Set(id, s) == o;
    forall i: nat | Loose(o, i) ensures i !in Cut(s, k) && i != s[k] { assert i !in o.Get(id); }
  }

  lemma FrontLoose(o: Orders, v: nat, to: ListId, i: nat)
    requires Loose(Dropped(o, v), i) && i != v
    ensures Loose(Front(o, v, to), i)
  {
    forall y ensures i !in Front(o, v, to).Get(y) { assert i !in Dropped(o, v).Get(y); }
  }

  lemma {:induction false} WithoutTwice(s: seq<nat>, x: nat)
    requires NoRepeats(s)
    ensures Without(Without(s, x), x) == Without(s, x) && Without([x] + Without(s, x), x) == Without(s, x)
  {
    assert ([x] + Without(s, x))[1..] == Without(s, x);
    if x in s {
      var k: nat :| k < |s| && s[k] == x;
      WithoutIsCut(s, k);
      CutOut(s, k);
    } else {
      WithoutAbsent(s, x);
    }
    WithoutAbsent(Without(s, x), x);
  }

  lemma DroppedTwice(a: Arena, o: Orders, v: nat, to: ListId)
    requires ListsOk(a, o)
    ensures Dropped(Front(o, v, to), v) == Dropped(o, v)
  {
    forall y ensures NoRepeats(o.Get(y)) { assert Linked(a.nodes, a.heads.Get(y), o.Get(y), y); }
    assert NoRepeats(o.Get(Mru)) && NoRepeats(o.Get(Mfu)) && NoRepeats(o.Get(GhostMru)) && NoRepeats(o.Get(GhostMfu));
    WithoutTwice(o.mru, v);
    WithoutTwice(o.mfu, v);
    WithoutTwice(o.ghostMru, v);
    WithoutTwice(o.ghostMfu, v);
  }

  /** The lists without the victim, once it is taken out of its ghost list again. */
  lemma VictimOut(a: Arc, o: Orders, id: ListId, k: nat, v: nat)
    requires Inv(a, o) && Resident(id) && LeastEvictable(a.arena.nodes, o.Get(id), k, v)
    ensures var b := GiveUp(a, v).arena;
            && v < |b.nodes| == |a.arena.nodes|
            && var d := Detach(b, v);
               && ListsOk(d, o.Set(id, Cut(o.Get(id), k))) && Loose(o.Set(id, Cut(o.Get(id), k)), v)
               && OnlyMoved(b.nodes, d.nodes, v, GhostOf(id))
               && (forall i: nat :: i < |b.nodes| && Loose(o, i) ==> d.nodes[i] == a.arena.nodes[i])
  {
    var b, front := GiveUp(a, v).arena, Front(o, v, GhostOf(id));
    VictimHeld(a, o, id, k, v);
    GiveUpArena(a, o, v);
    assert v in front.Get(GhostOf(id));
    DetachIsDrop(b, front, GhostOf(id), v);
    DroppedTwice(a.arena, o, v, GhostOf(id));
    DroppedIsCut(a.arena, o, id, k);
    DropKeeps(a.arena, o, id, v);
    forall i: nat | i < |b.nodes| && Loose(o, i) ensures Detach(b, v).nodes[i] == a.arena.nodes[i] {
      assert i !in o.Get(id);
      GiveUpLoose(a, o, v, i);
      FrontLoose(o, v, GhostOf(id), i);
    }
  }

  lemma VictimBack(a: Arena, o: Orders, id: ListId, k: nat, v: nat, b: Arena, d: Arena)
    requires k < |o.Get(id)| && o.Get(id)[k] == v < |a.nodes| == |b.nodes| && OnlyNode(a.nodes, b.nodes, v)
             && OnlyMoved(b.nodes, d.nodes, v, GhostOf(id))
    requires ListsOk(d, o.Set(id, Cut(o.Get(id), k))) && Loose(o.Set(id, Cut(o.Get(id), k)), v)
    requires forall i: nat :: i < |b.nodes| && Loose(o, i) ==> d.nodes[i] == a.nodes[i]
    ensures var prev := Before(o.Get(id), k);
            && (prev.Some? ==> prev.value < |d.nodes|)
            && var c := InsertAfter(d, v, id, prev);
               && ListsOk(c, o) && |c.nodes| == |a.nodes| && SameBody(b.nodes[v], c.nodes[v])
               && (forall i: nat :: i < |c.nodes| && i != v ==> SameBody(a.nodes[i], c.nodes[i]))
               && (forall i: nat :: i < |c.nodes| && Loose(o, i) ==> c.nodes[i] == a.nodes[i])
  {
    Reinserted(d, o, id, k);
  }

  lemma UndoArena(a: Arc, o: Orders, id: ListId, k: nat, v: nat, frame: nat)
    requires Inv(a, o) && Resident(id) && LeastEvictable(a.arena.nodes, o.Get(id), k, v)
             && a.arena.nodes[v].frame == Some(frame)
    ensures var b, prev := GiveUp(a, v).arena, a.arena.nodes[v].prev;
            && v < |b.nodes| && (prev.Some? ==> prev.value < |b.nodes|)
            && var c := InsertAfter(Detach(b, v), v, id, prev);
               v < |c.nodes|
                   && Arena(c.nodes[v := c.nodes[v].(frame := Some(frame), evictable := true)], c.heads) == a.arena
  {
    VictimHeld(a, o, id, k, v);
    VictimOut(a, o, id, k, v);
    GiveUpArena(a, o, v);
    assert Linked(a.arena.nodes, a.arena.heads.Get(id), o.Get(id), id);
    assert NodeLinked(a.arena.nodes, o.Get(id), id, k);
    VictimBack(a.arena, o, id, k, v, GiveUp(a, v).arena, Detach(GiveUp(a, v).arena, v));
    assert !Loose(o, v);
    SameAgain(a, o, v, frame, InsertAfter(Detach(GiveUp(a, v).arena, v), v, id, a.arena.nodes[v].prev));
  }

  /** An eviction that is begun and dropped changes nothing at all. */
  lemma UndoRestores(a: Arc, o: Orders, u: EvictionUndo)
    requires Inv(a, o) && VictimOf(a, o, u)
    ensures var b := GiveUp(a, u.node);
            u.node < |b.arena.nodes| && (u.moreRecent.Some? ==> u.moreRecent.value < |b.arena.nodes|)
                && UndoEviction(b, u) == a
  {
    var k: nat :| LeastEvictable(a.arena.nodes, o.Get(u.list), k, u.node);
    VictimHeld(a, o, u.list, k, u.node);
    UndoArena(a, o, u.list, k, u.node, u.frame);
    FrameBack(a.frames, u.frame, u.node);
  }

  lemma FrameBack(frames: map<nat, nat>, f: nat, i: nat)
    requires Find(frames, f) == Some(i)
    ensures (frames - {f})[f := i] == frames
  {}

  lemma SameAgain(a: Arc, o: Orders, v: nat, frame: nat, c: Arena)
    requires Inv(a, o) && v < |a.arena.nodes| && a.arena.nodes[v].frame == Some(frame) && a.arena.nodes[v].evictable
             && !Loose(o, v)
    requires ListsOk(c, o) && |c.nodes| == |a.arena.nodes|
             && SameBody(c.nodes[v], a.arena.nodes[v].(frame := None, evictable := false))
    requires forall i: nat :: i < |c.nodes| && i != v ==> SameBody(a.arena.nodes[i], c.nodes[i])
    requires forall i: nat :: i < |c.nodes| && Loose(o, i) ==> c.nodes[i] == a.arena.nodes[i]
    ensures Arena(c.nodes[v := c.nodes[v].(frame := Some(frame), evictable := true)], c.heads) == a.arena
  {
    var nodes := c.nodes[v := c.nodes[v].(frame := Some(frame), evictable := true)];
    BodyOk(c, o, nodes);
    LinksDetermined(a.arena, Arena(nodes, c.heads), o);
  }

  // ---------------------------------------------------------------- what frames hold

  /** The page in a frame, and whether the frame may be evicted. */
  function View(a: Arc, f: nat): Option<(nat, bool)> {
    if f in a.frames && a.frames[f] < |a.arena.nodes| then Some(Shown(a.arena.nodes[a.frames[f]])) else None
  }

  function Shown(n: Node): (nat, bool) { (n.page, n.evictable) }

  /** A step that changes one node, and may give it another frame or none. */
  lemma ViewChanged(a: Arc, o: Orders, b: Arc, idx: nat, f: nat)
    requires Inv(a, o) && MapsOk(b) && idx < |a.arena.nodes| && OnlyNode(a.arena.nodes, b.arena.nodes, idx)
    requires var n, n' := a.arena.nodes[idx], b.arena.nodes[idx];
             && (Some(f) == n'.frame ==> f in b.frames && b.frames[f] == idx)
             && (Some(f) != n'.frame && Some(f) == n.frame ==> f !in b.frames)
             && (Some(f) != n'.frame && Some(f) != n.frame ==> Find(b.frames, f) == Find(a.frames, f))
    ensures var n, n' := a.arena.nodes[idx], b.arena.nodes[idx];
            View(b, f) == if Some(f) == n'.frame then Some(Shown(n')) else if Some(f) == n.frame then None
                else View(a, f)
  {}

  lemma GiveUpView(a: Arc, o: Orders, idx: nat, f: nat)
    requires Inv(a, o) && idx < |a.arena.nodes| && idx !in a.unused && Resident(a.arena.nodes[idx].list)
    ensures View(GiveUp(a, idx), f) == if Some(f) == a.arena.nodes[idx].frame then None else View(a, f)
  {
    GiveUpArena(a, o, idx);
    GiveUpInv(a, o, idx);
    ViewChanged(a, o, GiveUp(a, idx), idx, f);
  }

  lemma ReframedView(a: Arc, o: Orders, idx: nat, frame: nat, f: nat)
    requires Inv(a, o) && idx < |a.arena.nodes| && idx !in a.unused && Resident(a.arena.nodes[idx].list)
             && frame !in a.frames
    ensures var n := a.arena.nodes[idx];
            View(Reframed(a, idx, frame), f) == if f == frame then Some((n.page, false)) else if Some(f) == n.frame
                then None else View(a, f)
  {
    ReframedInv(a, o, idx, frame);
    ViewChanged(a, o, Reframed(a, idx, frame), idx, f);
  }

  lemma PromotedView(a: Arc, o: Orders, idx: nat, f: nat)
    requires Inv(a, o) && idx < |a.arena.nodes| && idx !in a.unused && Resident(a.arena.nodes[idx].list)
    ensures View(Promoted(a, idx), f) == View(a, f)
  {
    InItsList(a, o, idx);
    MoveToFrontOk(a.arena, o, a.arena.nodes[idx].list, idx, Mfu);
  }

  lemma RevivedView(a: Arc, o: Orders, idx: nat, frame: nat, f: nat)
    requires Inv(a, o) && idx < |a.arena.nodes| && idx !in a.unused && !Resident(a.arena.nodes[idx].list)
             && frame !in a.frames && ResidentCount(o) < a.capacity
    ensures View(Revived(a, idx, frame), f) == if f == frame then Some((a.arena.nodes[idx].page, false)) else View(a, f)
  {
    RevivedArena(a, o, idx, frame);
    RevivedInv(a, o, idx, frame);
    assert NodeOk(a, idx);
    ViewChanged(a, o, Revived(a, idx, frame), idx, f);
  }

  lemma ForgottenView(a: Arc, o: Orders, idx: nat, f: nat)
    requires Inv(a, o) && idx < |a.arena.nodes| && idx !in a.unused
    ensures View(Forgotten(a, idx), f) == if Some(f) == a.arena.nodes[idx].frame then None else View(a, f)
  {
    ForgottenArena(a, o, idx);
    ForgottenInv(a, o, idx);
    ViewChanged(a, o, Forgotten(a, idx), idx, f);
  }

  lemma AdmittedView(a: Arc, o: Orders, frame: nat, page: nat, f: nat)
    requires Inv(a, o) && frame !in a.frames
    ensures View(Admitted(a, frame, page), f) == if f == frame then Some((page, false)) else View(a, f)
  {
    AdmittedArena(a, o, frame, page);
    if f in a.frames {
      if a.unused != [] { assert NodeOk(a, FreshNode(a)); }
    }
  }

  // ---------------------------------------------------------------- recording an access

  /** A frame taken from the page that holds it. */
  function TakeFrame(a: Arc, frame: nat): Arc
    requires frame in a.frames ==> a.frames[frame] < |a.arena.nodes|
  {
    if frame in a.frames then GiveUp(a, a.frames[frame]) else a
  }

  ghost function Freed(a: Arc, o: Orders, frame: nat): Orders {
    if frame in a.frames && a.frames[frame] < |a.arena.nodes|
        then Front(o, a.frames[frame], GhostOf(a.arena.nodes[a.frames[frame]].list)) else o
  }

  lemma HolderResident(a: Arc, o: Orders, frame: nat)
    requires Inv(a, o) && frame in a.frames
    ensures var i := a.frames[frame]; i < |a.arena.nodes| && i !in a.unused && Resident(a.arena.nodes[i].list)
  {
    assert NodeOk(a, a.frames[frame]);
  }

  /** What freeing a frame keeps of the nodes that do not hold it. */
  lemma TakeFrameInv(a: Arc, o: Orders, frame: nat)
    requires Inv(a, o)
    ensures frame in a.frames ==> a.frames[frame] < |a.arena.nodes|
    ensures var b, o' := TakeFrame(a, frame), Freed(a, o, frame);
            && Inv(b, o') && frame !in b.frames && b.pages == a.pages && b.unused == a.unused
            && b.capacity == a.capacity && b.target == a.target
            && |b.arena.nodes| == |a.arena.nodes|
            && ResidentCount(o') == ResidentCount(o) - (if frame in a.frames then 1 else 0)
            && (forall i: nat :: i < |a.arena.nodes| && a.arena.nodes[i].frame != Some(frame) ==>
                SameBody(a.arena.nodes[i], b.arena.nodes[i]) && b.arena.nodes[i].list == a.arena.nodes[i].list)
  {
    if frame in a.frames {
      var idx := a.frames[frame];
      HolderResident(a, o, frame);
      GiveUpInv(a, o, idx);
      GiveUpArena(a, o, idx);
      FreedSize(a, o, idx);
    }
  }

  lemma FreedSize(a: Arc, o: Orders, idx: nat)
    requires Inv(a, o) && idx < |a.arena.nodes| && idx !in a.unused && Resident(a.arena.nodes[idx].list)
    ensures ResidentCount(Front(o, idx, GhostOf(a.arena.nodes[idx].list))) == ResidentCount(o) - 1
  {
    var id := a.arena.nodes[idx].list;
    GiveUpArena(a, o, idx);
    var o' := Front(o, idx, GhostOf(id));
    assert |o'.Get(Mru)| == |o.Get(Mru)| - Plus(Mru, id) + Plus(Mru, GhostOf(id))
        && |o'.Get(Mfu)| == |o.Get(Mfu)| - Plus(Mfu, id) + Plus(Mfu, GhostOf(id));
  }

  lemma TakeFrameView(a: Arc, o: Orders, frame: nat, f: nat)
    requires Inv(a, o)
    ensures frame in a.frames ==> a.frames[frame] < |a.arena.nodes|
    ensures View(TakeFrame(a, frame), f) == if f == frame then None else View(a, f)
  {
    if frame in a.frames {
      HolderResident(a, o, frame);
      GiveUpView(a, o, a.frames[frame], f);
    }
  }

  /** After an access the page is in the frame, in no other one, and nothing else changed hands. A
      page new to its frame cannot be evicted yet. */
  ghost predicate Accessed(a: Arc, b: Arc, frame: nat, page: nat) {
    forall f: nat :: View(b, f) == AccessView(a, frame, page, f)
  }

  function AccessView(a: Arc, frame: nat, page: nat, f: nat): Option<(nat, bool)> {
    if f == frame then Some((page, View(a, frame) == Some((page, true))))
    else if View(a, f).Some? && View(a, f).value.0 == page then None
    else View(a, f)
  }

  lemma ViewPage(a: Arc, o: Orders, f: nat)
    requires Inv(a, o) && View(a, f).Some?
    ensures var p := View(a, f).value.0;
            && p in a.pages && a.pages[p] == a.frames[f] && a.pages[p] < |a.arena.nodes|
            && Resident(a.arena.nodes[a.pages[p]].list) && a.arena.nodes[a.pages[p]].frame == Some(f)
  {
    HolderResident(a, o, f);
    assert NodeOk(a, a.frames[f]);
  }

  /** A resident page that gets another frame. */
  lemma MovedFrame(a: Arc, o: Orders, frame: nat, page: nat)
    requires Inv(a, o) && page in a.pages && Resident(a.arena.nodes[a.pages[page]].list)
             && a.arena.nodes[a.pages[page]].frame != Some(frame)
    ensures frame in a.frames ==> a.frames[frame] < |a.arena.nodes|
    ensures a.pages[page] < |TakeFrame(a, frame).arena.nodes|
    ensures var b := Reframed(TakeFrame(a, frame), a.pages[page], frame);
            && Inv(b, Freed(a, o, frame)) && Accessed(a, b, frame, page) && b.pages == a.pages
            && b.unused == a.unused && b.capacity == a.capacity && b.target == a.target
            && a.pages[page] < |b.arena.nodes| && Resident(b.arena.nodes[a.pages[page]].list)
  {
    var idx, o' := a.pages[page], Freed(a, o, frame);
    assert NodeOk(a, idx);
    TakeFrameInv(a, o, frame);
    var taken := TakeFrame(a, frame);
    assert Inv(Reframed(taken, idx, frame), o') by { ReframedInv(taken, o', idx, frame); }
    forall f: nat ensures View(Reframed(taken, idx, frame), f) == AccessView(a, frame, page, f) {
      MovedFrameView(a, o, frame, page, f);
    }
  }

  lemma MovedFrameView(a: Arc, o: Orders, frame: nat, page: nat, f: nat)
    requires Inv(a, o) && page in a.pages && Resident(a.arena.nodes[a.pages[page]].list)
             && a.arena.nodes[a.pages[page]].frame != Some(frame)
    requires frame in a.frames ==> a.frames[frame] < |a.arena.nodes|
    requires a.pages[page] < |TakeFrame(a, frame).arena.nodes|
    ensures View(Reframed(TakeFrame(a, frame), a.pages[page], frame), f) == AccessView(a, frame, page, f)
  {
    assert NodeOk(a, a.pages[page]);
    TakeFrameInv(a, o, frame);
    TakeFrameView(a, o, frame, f);
    ReframedView(TakeFrame(a, frame), Freed(a, o, frame), a.pages[page], frame, f);
    if View(a, f).Some? { ViewPage(a, o, f); }
  }

  lemma SameFrame(a: Arc, o: Orders, frame: nat, page: nat)
    requires Inv(a, o) && page in a.pages && Resident(a.arena.nodes[a.pages[page]].list)
             && a.arena.nodes[a.pages[page]].frame == Some(frame)
    ensures Accessed(a, a, frame, page)
  {
    assert NodeOk(a, a.pages[page]);
    forall f: nat ensures View(a, f) == AccessView(a, frame, page, f) {
      if View(a, f).Some? { ViewPage(a, o, f); }
    }
  }

  lemma PromotedKeeps(a: Arc, o: Orders, idx: nat)
    requires Inv(a, o) && idx < |a.arena.nodes| && idx !in a.unused && Resident(a.arena.nodes[idx].list)
    ensures Inv(Promoted(a, idx), Front(o, idx, Mfu)) && forall f: nat :: View(Promoted(a, idx), f) == View(a, f)
  {
    PromotedInv(a, o, idx);
    forall f: nat ensures View(Promoted(a, idx), f) == View(a, f) { PromotedView(a, o, idx, f); }
  }

  /** A page that is resident goes to the front of the MFU list, in the frame it is now in. */
  method AccessResident(a: Arc, frame: nat, page: nat, ghost o: Orders) returns (b: Arc, ghost o': Orders)
    requires Inv(a, o) && page in a.pages && Resident(a.arena.nodes[a.pages[page]].list)
    ensures Inv(b, o') && Accessed(a, b, frame, page) && b.capacity == a.capacity && b.target == a.target
    ensures o' == Front(if a.arena.nodes[a.pages[page]].frame == Some(frame) then o
            else Freed(a, o, frame), a.pages[page], Mfu)
  {
    var idx := a.pages[page];
    b, o' := a, o;
    if a.arena.nodes[idx].frame != Some(frame) {
      MovedFrame(a, o, frame, page);
      b, o' := Reframed(TakeFrame(a, frame), idx, frame), Freed(a, o, frame);
    } else {
      SameFrame(a, o, frame, page);
    }
    PromotedKeeps(b, o', idx);
    b, o' := Promoted(b, idx), Front(o', idx, Mfu);
  }

  function Min(x: nat, y: nat): nat { if x <= y then x else y }

  /** How far a hit moves the target: by how much longer the other ghost list is than the one hit. */
  function Delta(hit: int, other: int): nat {
    if hit >= other || hit <= 0 then 1 else other / hit
  }

  /** The target after a hit on a ghost list: towards the list the page was evicted from. */
  function Adapted(target: nat, capacity: nat, list: ListId, heads: Heads): nat {
    match list
    case GhostMru => Min(target + Delta(heads.ghostMru.length, heads.ghostMfu.length), capacity)
    case GhostMfu =>
      var delta := Delta(heads.ghostMfu.length, heads.ghostMru.length);
      if target >= delta then target - delta else 0
    case _ => target
  }

  /** How many times over the list hit fits into the longer of the two. */
  predicate Ratio(hit: nat, other: nat, d: nat) { d * hit <= (if hit >= other then hit else other) < (d + 1) * hit }

  /** A hit on a ghost list moves the target towards the list the page was evicted from: by one, or by as many
      times as the other ghost list is longer than the one hit, and never past 0 or the capacity. */
  ghost predicate Adapts(o: Orders, list: ListId, capacity: nat, target: nat, target': nat) {
    match list
    case GhostMru => exists d: nat ::
      Ratio(|o.ghostMru|, |o.ghostMfu|, d) && target' == if target + d <= capacity then target + d else capacity
    case GhostMfu => exists d: nat ::
      Ratio(|o.ghostMfu|, |o.ghostMru|, d) && target' == if d <= target then target - d else 0
    case _ => target' == target
  }

  lemma DeltaRatio(hit: nat, other: nat)
    requires hit > 0
    ensures Ratio(hit, other, Delta(hit, other)) && Delta(hit, other) >= 1
  {
    if hit < other {
      var d := other / hit;
      assert other == d * hit + other % hit;
      assert (d + 1) * hit == d * hit + hit;
      assert d >= 1;
    }
  }

  lemma AdaptedAdapts(a: Arc, o: Orders, list: ListId)
    requires Inv(a, o) && o.Get(list) != []
    ensures Adapts(o, list, a.capacity, a.target, Adapted(a.target, a.capacity, list, a.arena.heads))
  {
    GhostHeads(a, o);
    if list == GhostMru { DeltaRatio(|o.ghostMru|, |o.ghostMfu|); }
    if list == GhostMfu { DeltaRatio(|o.ghostMfu|, |o.ghostMru|); }
  }

  lemma GhostRevives(a: Arc, o: Orders, frame: nat, page: nat)
    requires Inv(a, o) && page in a.pages && !Resident(a.arena.nodes[a.pages[page]].list)
             && (frame in a.frames || ResidentCount(o) < a.capacity)
    ensures frame in a.frames ==> a.frames[frame] < |a.arena.nodes|
    ensures a.pages[page] < |TakeFrame(a, frame).arena.nodes|
    ensures var taken := TakeFrame(a, frame);
            var b := Revived(taken, a.pages[page], frame);
            && taken.arena.heads.mru.length + taken.arena.heads.mfu.length < a.capacity
            && Inv(b, Front(Freed(a, o, frame), a.pages[page], Mfu)) && b.capacity == a.capacity && b.target == a.target
  {
    var idx, freed := a.pages[page], Freed(a, o, frame);
    assert NodeOk(a, idx);
    TakeFrameInv(a, o, frame);
    ResidentHeads(TakeFrame(a, frame), freed);
    RevivedInv(TakeFrame(a, frame), freed, idx, frame);
  }

  lemma GhostRevivesView(a: Arc, o: Orders, frame: nat, page: nat)
    requires Inv(a, o) && page in a.pages && !Resident(a.arena.nodes[a.pages[page]].list)
             && (frame in a.frames || ResidentCount(o) < a.capacity)
    requires frame in a.frames ==> a.frames[frame] < |a.arena.nodes|
    requires a.pages[page] < |TakeFrame(a, frame).arena.nodes|
    ensures forall f: nat ::
            View(Revived(TakeFrame(a, frame), a.pages[page], frame), f) == AccessView(a, frame, page, f)
  {
    var idx, freed := a.pages[page], Freed(a, o, frame);
    assert NodeOk(a, idx);
    TakeFrameInv(a, o, frame);
    var taken := TakeFrame(a, frame);
    forall f: nat ensures View(Revived(taken, idx, frame), f) == AccessView(a, frame, page, f) {
      TakeFrameView(a, o, frame, f);
      RevivedView(taken, freed, idx, frame, f);
      GhostUnseen(a, o, page, f);
    }
  }

  /** A page on a ghost list, or tracked nowhere, is in no frame. */
  lemma GhostUnseen(a: Arc, o: Orders, page: nat, f: nat)
    requires Inv(a, o)
             && (page in a.pages ==> a.pages[page] < |a.arena.nodes| && !Resident(a.arena.nodes[a.pages[page]].list))
    ensures View(a, f).Some? ==> View(a, f).value.0 != page
  {
    if View(a, f).Some? { ViewPage(a, o, f); }
  }

  lemma TargetUnseen(a: Arc, target: nat, frame: nat, page: nat)
    ensures forall f :: AccessView(a.(target := target), frame, page, f) == AccessView(a, frame, page, f)
  {
    forall f ensures AccessView(a.(target := target), frame, page, f) == AccessView(a, frame, page, f) {
      assert View(a.(target := target), f) == View(a, f) && View(a.(target := target), frame) == View(a, frame);
    }
  }

  /** A page remembered on a ghost list becomes resident, at the front of the MFU list. */
  method AccessGhost(a: Arc, frame: nat, page: nat, ghost o: Orders) returns (b: Arc, ghost o': Orders)
    requires Inv(a, o) && page in a.pages && !Resident(a.arena.nodes[a.pages[page]].list)
             && (frame in a.frames || ResidentCount(o) < a.capacity)
    ensures Inv(b, o') && Accessed(a, b, frame, page) && b.capacity == a.capacity
    ensures o' == Front(Freed(a, o, frame), a.pages[page], Mfu)
            && Adapts(o, a.arena.nodes[a.pages[page]].list, a.capacity, a.target, b.target)
  {
    var idx := a.pages[page];
    var list := a.arena.nodes[idx].list;
    assert a.arena.heads.Get(list).length > 0 by {
      InItsList(a, o, idx);
      GhostHeads(a, o);
    }
    assert Adapts(o, list, a.capacity, a.target, Adapted(a.target, a.capacity, list, a.arena.heads)) by {
      InItsList(a, o, idx);
      AdaptedAdapts(a, o, list);
    }
    var adapted := a.(target := Adapted(a.target, a.capacity, list, a.arena.heads));
    TargetInv(a, o, adapted.target);
    GhostRevives(adapted, o, frame, page);
    GhostRevivesView(adapted, o, frame, page);
    var taken := TakeFrame(adapted, frame);
    assert taken.arena.heads.mru.length + taken.arena.heads.mfu.length < taken.capacity;
    b, o' := Revived(taken, idx, frame), Front(Freed(a, o, frame), idx, Mfu);
    TargetUnseen(a, adapted.target, frame, page);
  }

  lemma GhostHeads(a: Arc, o: Orders)
    requires Inv(a, o)
    ensures a.arena.heads.ghostMru.length == |o.ghostMru| && a.arena.heads.ghostMfu.length == |o.ghostMfu|
  {
    assert Linked(a.arena.nodes, a.arena.heads.Get(GhostMru), o.Get(GhostMru), GhostMru)
        && Linked(a.arena.nodes, a.arena.heads.Get(GhostMfu), o.Get(GhostMfu), GhostMfu);
  }

  lemma ResidentHeads(a: Arc, o: Orders)
    requires Inv(a, o)
    ensures a.arena.heads.mru.length == |o.mru| && a.arena.heads.mfu.length == |o.mfu|
  {
    assert Linked(a.arena.nodes, a.arena.heads.Get(Mru), o.Get(Mru), Mru)
        && Linked(a.arena.nodes, a.arena.heads.Get(Mfu), o.Get(Mfu), Mfu);
  }

  lemma TargetInv(a: Arc, o: Orders, target: nat)
    requires Inv(a, o) && target <= a.capacity
    ensures Inv(a.(target := target), o)
  {
    forall i: nat | i < |a.arena.nodes| ensures NodeOk(a.(target := target), i) { assert NodeOk(a, i); }
  }

  /** The ghosts that make room for a new page: the oldest of the MRU side when that side is full,
      else the oldest of the MFU side when twice the capacity is tracked. */
  function Trimmed(o: Orders, capacity: nat): Orders {
    if |o.mru| + |o.ghostMru| == capacity then (if o.ghostMru == [] then o else o.(ghostMru := Base.Init(o.ghostMru)))
    else if Tracked(o) == 2 * capacity then (if o.ghostMfu == [] then o else o.(ghostMfu := Base.Init(o.ghostMfu)))
    else o
  }

  lemma TrimInv(a: Arc, o: Orders, id: ListId)
    requires Inv(a, o) && o.Get(id) != [] && !Resident(id)
    ensures var least := Last(o.Get(id));
            && a.arena.heads.Get(id).leastRecent == Some(least) && least < |a.arena.nodes| && least !in a.unused
            && Inv(Forgotten(a, least), o.Set(id, Base.Init(o.Get(id)))) && Forgotten(a, least).frames == a.frames
            && Forgotten(a, least).pages.Keys <= a.pages.Keys
            && forall f: nat :: View(Forgotten(a, least), f) == View(a, f)
  {
    var s := o.Get(id);
    var least := Last(s);
    assert Linked(a.arena.nodes, a.arena.heads.Get(id), s, id);
    ListNamed(a.arena, o, id, least);
    assert !Loose(o, least);
    assert NodeOk(a, least);
    DroppedIsCut(a.arena, o, id, |s| - 1);
    assert Cut(s, |s| - 1) == Base.Init(s);
    ForgottenInv(a, o, least);
    forall f: nat ensures View(Forgotten(a, least), f) == View(a, f) { ForgottenView(a, o, least, f); }
  }

  /** Forgets the oldest page of a ghost list. */
  method TrimGhost(a: Arc, id: ListId, ghost o: Orders) returns (b: Arc, ghost o': Orders)
    requires Inv(a, o) && o.Get(id) != [] && !Resident(id)
    ensures Inv(b, o') && o' == o.Set(id, Base.Init(o.Get(id))) && b.frames == a.frames && b.pages.Keys <= a.pages.Keys
    ensures b.capacity == a.capacity && b.target == a.target && forall f: nat :: View(b, f) == View(a, f)
  {
    TrimInv(a, o, id);
    var least := a.arena.heads.Get(id).leastRecent;
    assert least.Some?;
    b, o' := Forgotten(a, least.value), o.Set(id, Base.Init(o.Get(id)));
  }

  /** Makes room for one more page among the tracked ones; there is always a ghost to forget. */
  method MakeRoom(a: Arc, ghost o: Orders) returns (b: Arc, ghost o': Orders)
    requires Inv(a, o) && ResidentCount(o) < a.capacity
    ensures Inv(b, o') && o' == Trimmed(o, a.capacity) && b.frames == a.frames && b.pages.Keys <= a.pages.Keys
    ensures ResidentCount(o') < b.capacity && |o'.mru| + |o'.ghostMru| < b.capacity && Tracked(o') < 2 * b.capacity
    ensures b.capacity == a.capacity && b.target == a.target && forall f: nat :: View(b, f) == View(a, f)
  {
    ResidentHeads(a, o);
    GhostHeads(a, o);
    b, o' := a, o;
    var mruSide := a.arena.heads.mru.length + a.arena.heads.ghostMru.length;
    if mruSide == a.capacity {
      b, o' := TrimGhost(a, GhostMru, o);
    } else {
      assert mruSide < a.capacity;
      if mruSide + a.arena.heads.mfu.length + a.arena.heads.ghostMfu.length == 2 * a.capacity {
        b, o' := TrimGhost(a, GhostMfu, o);
      }
    }
  }

  lemma AdmittedAccess(a: Arc, o: Orders, b: Arc, o': Orders, frame: nat, page: nat)
    requires Inv(a, o) && Inv(b, o') && page !in a.pages && frame !in b.frames
             && (forall f :: f != frame ==> View(b, f) == View(a, f))
    ensures Accessed(a, Admitted(b, frame, page), frame, page)
  {
    forall f: nat ensures View(Admitted(b, frame, page), f) == AccessView(a, frame, page, f) {
      AdmittedView(b, o', frame, page, f);
      GhostUnseen(a, o, page, f);
    }
  }

  lemma TakeFrameViews(a: Arc, o: Orders, frame: nat)
    requires Inv(a, o)
    ensures frame in a.frames ==> a.frames[frame] < |a.arena.nodes|
    ensures forall f :: f != frame ==> View(TakeFrame(a, frame), f) == View(a, f)
  {
    TakeFrameInv(a, o, frame);
    forall f | f != frame ensures View(TakeFrame(a, frame), f) == View(a, f) { TakeFrameView(a, o, frame, f); }
  }

  /** A page seen for the first time goes to the front of the MRU list, and the oldest ghosts make room for it. */
  method AccessFirst(a: Arc, frame: nat, page: nat, ghost o: Orders) returns (b: Arc, ghost o': Orders)
    requires Inv(a, o) && page !in a.pages && (frame in a.frames || ResidentCount(o) < a.capacity)
    ensures Inv(b, o') && Accessed(a, b, frame, page) && b.capacity == a.capacity && b.target == a.target
            && page in b.pages
    ensures var trimmed := Trimmed(Freed(a, o, frame), a.capacity); o' == trimmed.(mru := [b.pages[page]] + trimmed.mru)
  {
    TakeFrameInv(a, o, frame);
    TakeFrameViews(a, o, frame);
    var taken := TakeFrame(a, frame);
    assert taken.arena.heads.mru.length + taken.arena.heads.mfu.length < taken.capacity by { ResidentHeads(taken,
        Freed(a, o, frame)); }
    var room;
    room, o' := MakeRoom(taken, Freed(a, o, frame));
    AdmittedInv(room, o', frame, page);
    AdmittedAccess(a, o, room, o', frame, page);
    b, o' := Admitted(room, frame, page), o'.(mru := [FreshNode(room)] + o'.mru);
  }

  // ---------------------------------------------------------------- flags and removal

  /** A frame marked evictable or not; a frame nobody holds is ignored. */
  function Marked(a: Arc, frame: nat, evictable: bool): Arc
    requires frame in a.frames ==> a.frames[frame] < |a.arena.nodes|
  {
    if frame !in a.frames then a
    else
      var idx := a.frames[frame];
      var n := a.arena.nodes[idx];
      a.(arena := Arena(a.arena.nodes[idx := n.(evictable := evictable)], a.arena.heads),
         evictable := a.evictable + (if evictable && !n.evictable then 1 else if !evictable && n.evictable then -1
             else 0))
  }

  lemma MarkedInv(a: Arc, o: Orders, frame: nat, evictable: bool)
    requires Inv(a, o)
    ensures frame in a.frames ==> a.frames[frame] < |a.arena.nodes|
    ensures Inv(Marked(a, frame, evictable), o)
    ensures forall f: nat ::
            View(Marked(a, frame, evictable), f) == if f == frame && View(a, f).Some?
            then Some((View(a, f).value.0, evictable)) else View(a, f)
  {
    if frame in a.frames {
      var idx, b := a.frames[frame], Marked(a, frame, evictable);
      BodyOk(a.arena, o, b.arena.nodes);
      forall i: nat | i < |b.arena.nodes| ensures NodeOk(b, i) && (i in b.unused <==> Loose(o, i)) {
        assert NodeOk(a, i);
      }
      assert MapsOk(b);
      StepInv(a, o, b, o, idx);
      forall f | f in a.frames && f != frame ensures a.frames[f] != idx {}
    }
  }

  /** Forgets a page, resident or not, and returns the frame it held. */
  method RemovePage(a: Arc, page: nat, ghost o: Orders) returns (frame: Option<nat>, b: Arc, ghost o': Orders)
    requires Inv(a, o)
    ensures Inv(b, o') && page !in b.pages && b.capacity == a.capacity && b.target == a.target
    ensures page !in a.pages ==> frame == None && b == a && o' == o
    ensures page in a.pages ==>
            frame == a.arena.nodes[a.pages[page]].frame && o' == Dropped(o, a.pages[page])
            && b.pages == a.pages - {page}
    ensures forall f: nat :: View(b, f) == if Some(f) == frame then None else View(a, f)
  {
    if page !in a.pages {
      return None, a, o;
    }
    var idx := a.pages[page];
    ForgottenInv(a, o, idx);
    frame, b, o' := a.arena.nodes[idx].frame, Forgotten(a, idx), Dropped(o, idx);
    forall f: nat ensures View(b, f) == if Some(f) == frame then None else View(a, f) { ForgottenView(a, o, idx, f); }
  }

  /** What a caller must see to before it records an access: that a page new to the cache has a frame to go to. */
  ghost predicate Admits(a: Arc, o: Orders, frame: nat, page: nat) {
    frame in a.frames || ResidentCount(o) < a.capacity
        || (page in a.pages && a.pages[page] < |a.arena.nodes| && Resident(a.arena.nodes[a.pages[page]].list))
  }

  /** The lists after an access. */
  ghost predicate AccessOrders(a: Arc, o: Orders, b: Arc, o': Orders, frame: nat, page: nat) {
    if page in a.pages && a.pages[page] < |a.arena.nodes| then
      o' == Front(if a.arena.nodes[a.pages[page]].frame == Some(frame) then o
          else Freed(a, o, frame), a.pages[page], Mfu)
    else
      var trimmed := Trimmed(Freed(a, o, frame), a.capacity);
          page in b.pages && o' == trimmed.(mru := [b.pages[page]] + trimmed.mru)
  }

  method RecordAccess(a: Arc, frame: nat, page: nat, ghost o: Orders) returns (b: Arc, ghost o': Orders)
    requires Inv(a, o) && Admits(a, o, frame, page)
    ensures Inv(b, o') && Accessed(a, b, frame, page) && AccessOrders(a, o, b, o', frame, page)
            && b.capacity == a.capacity
    ensures if page in a.pages
            then Adapts(o, a.arena.nodes[a.pages[page]].list, a.capacity, a.target, b.target) else b.target == a.target
  {
    if page !in a.pages {
      b, o' := AccessFirst(a, frame, page, o);
    } else if Resident(a.arena.nodes[a.pages[page]].list) {
      b, o' := AccessResident(a, frame, page, o);
    } else {
      assert NodeOk(a, a.pages[page]);
      b, o' := AccessGhost(a, frame, page, o);
    }
  }

  // ---------------------------------------------------------------- the replacer

  class Replacer {
    const capacity: nat
    var arena: Arena
    var unused: seq<nat>
    var pages: map<nat, nat>
    var frames: map<nat, nat>
    var target: nat
    var evictableCount: int
    ghost var order: Orders

    function State(): Arc
      reads this
    {
      Arc(arena, unused, pages, frames, target, capacity, evictableCount)
    }

    ghost predicate Valid()
      reads this
    {
      Inv(State(), order)
    }

    constructor (capacity: nat)
      ensures Valid() && this.capacity == capacity && target == 0 && order == Four([], [], [], [])
    {
      this.capacity := capacity;
      var a := New(capacity);
      arena, unused, pages, frames, target, evictableCount := a.arena, a.unused, a.pages, a.frames, a.target,
          a.evictable;
      order := Four([], [], [], []);
      new;
      NewInv(capacity);
    }

    method Store(a: Arc, ghost o: Orders)
      requires a.capacity == capacity
      modifies this
      ensures State() == a && order == o
    {
      arena, unused, pages, frames, target, evictableCount, order := a.arena, a.unused, a.pages, a.frames, a.target,
          a.evictable, o;
    }

    method Size() returns (n: int)
      requires Valid()
      ensures n == |Evictable(arena.nodes)|
    {
      n := evictableCount;
    }

    method SetEvictable(frame: nat, evictable: bool)
      requires Valid()
      modifies this
      ensures Valid() && order == old(order)
      ensures forall f: nat :: View(State(), f) ==
                          if f == frame && old(View(State(), f)).Some?
                              then Some((old(View(State(), f)).value.0, evictable)) else old(View(State(), f))
    {
      MarkedInv(State(), order, frame, evictable);
      Store(Marked(State(), frame, evictable), order);
    }

    method Remove(page: nat) returns (frame: Option<nat>)
      requires Valid()
      modifies this
      ensures Valid() && page !in pages && target == old(target)
      ensures forall f: nat :: View(State(), f) == if Some(f) == frame then None else old(View(State(), f))
      ensures if page in old(pages)
              then order == Dropped(old(order), old(pages)[page]) && frame == old(arena).nodes[old(pages)[page]].frame
              else State() == old(State()) && frame == None
    {
      var a;
      ghost var o;
      frame, a, o := RemovePage(State(), page, order);
      Store(a, o);
    }

    method Access(frame: nat, page: nat)
      requires Valid() && Admits(State(), order, frame, page)
      modifies this
      ensures Valid() && Accessed(old(State()), State(), frame, page)
              && AccessOrders(old(State()), old(order), State(), order, frame, page)
      ensures if page in old(pages)
              then Adapts(old(order), old(arena).nodes[old(pages)[page]].list, capacity, old(target), target)
              else target == old(target)
    {
      var a;
      ghost var o;
      a, o := RecordAccess(State(), frame, page, order);
      Store(a, o);
    }

    /** Takes the victim out, so that it can be put back until the eviction is committed. */
    method Begin() returns (undo: Option<EvictionUndo>)
      requires Valid()
      modifies this
      ensures Valid()
      ensures undo.None? <==> old(evictableCount) == 0
      ensures undo.None? ==> State() == old(State()) && order == old(order)
      ensures undo.Some? ==>
                && VictimOf(old(State()), old(order), undo.value) && State() == GiveUp(old(State()), undo.value.node)
                && order == Front(old(order), undo.value.node, if undo.value.list == Mru then GhostMru else GhostMfu)
    {
      var a;
      ghost var o;
      undo, a, o := BeginEviction(State(), order);
      Store(a, o);
    }

    /** An eviction dropped without being committed leaves the replacer as it was, field by field. */
    method Drop(undo: EvictionUndo, ghost was: Arc, ghost o: Orders)
      requires Inv(was, o) && VictimOf(was, o, undo) && State() == GiveUp(was, undo.node)
      modifies this
      ensures State() == was && order == o && Valid()
    {
      UndoRestores(was, o, undo);
      Store(UndoEviction(State(), undo), o);
    }

    /** Evicts and returns the victim's frame. */
    method Evict() returns (frame: Option<nat>)
      requires Valid()
      modifies this
      ensures Valid() && (frame.None? <==> old(evictableCount) == 0)
      ensures frame.Some? ==> old(View(State(), frame.value)).Some? && old(View(State(), frame.value)).value.1
      ensures frame.Some? ==>
              frame.value in old(frames) && Victim(old(State()), old(order), old(frames)[frame.value])
              && Evicts(old(order), order, old(frames)[frame.value])
      ensures forall f: nat :: View(State(), f) == if Some(f) == frame then None else old(View(State(), f))
    {
      ghost var was, o := State(), order;
      var undo := Begin();
      if undo.None? {
        return None;
      }
      EvictedView(was, o, undo.value);
      VictimEvicts(was, o, undo.value);
      return Some(undo.value.frame);
    }
  }

  lemma VictimEvicts(a: Arc, o: Orders, u: EvictionUndo)
    requires Inv(a, o) && VictimOf(a, o, u)
    ensures Evicts(o, Front(o, u.node, if u.list == Mru then GhostMru else GhostMfu), u.node)
  {
    var k: nat :| LeastEvictable(a.arena.nodes, o.Get(u.list), k, u.node);
  }

  lemma EvictedView(a: Arc, o: Orders, u: EvictionUndo)
    requires Inv(a, o) && VictimOf(a, o, u)
    ensures View(a, u.frame).Some? && View(a, u.frame).value.1
    ensures forall f: nat :: View(GiveUp(a, u.node), f) == if f == u.frame then None else View(a, f)
  {
    var k: nat :| LeastEvictable(a.arena.nodes, o.Get(u.list), k, u.node);
    VictimHeld(a, o, u.list, k, u.node);
    assert NodeOk(a, u.node);
    forall f: nat ensures View(GiveUp(a, u.node), f) == if f == u.frame then None else View(a, f) {
      GiveUpView(a, o, u.node, f);
    }
  }
}
