/** The node arena of the ARC replacer: four doubly linked lists over one vector of nodes. */
module ArcLists {
  import opened Base

  datatype ListId = Mru | Mfu | GhostMru | GhostMfu

  datatype Node = Node(page: nat, frame: Option<nat>, evictable: bool, list: ListId, next: Option<nat>,
      prev: Option<nat>)

  datatype Head = Head(mostRecent: Option<nat>, leastRecent: Option<nat>, length: int)

  /** One value per list. */
  datatype Four<T> = Four(mru: T, mfu: T, ghostMru: T, ghostMfu: T)
  {
    function Get(id: ListId): T {
      match id
      case Mru => mru
      case Mfu => mfu
      case GhostMru => ghostMru
      case GhostMfu => ghostMfu
    }

    function Set(id: ListId, x: T): Four<T> {
      match id
      case Mru => this.(mru := x)
      case Mfu => this.(mfu := x)
      case GhostMru => this.(ghostMru := x)
      case GhostMfu => this.(ghostMfu := x)
    }
  }

  type Heads = Four<Head>

  /** The node indices of each list, most recent first. */
  type Orders = Four<seq<nat>>

  datatype Arena = Arena(nodes: seq<Node>, heads: Heads)

  // ---------------------------------------------------------------- what the links mean

  function Before(s: seq<nat>, i: nat): Option<nat> { if 0 < i <= |s| then Some(s[i - 1]) else None }

  function After(s: seq<nat>, i: nat): Option<nat> { if i + 1 < |s| then Some(s[i + 1]) else None }

  predicate NoRepeats(s: seq<nat>) { forall i, j :: 0 <= i < j < |s| ==> s[i] != s[j] }

  predicate NodeLinked(nodes: seq<Node>, s: seq<nat>, id: ListId, i: nat)
    requires i < |s|
  {
    s[i] < |nodes| && nodes[s[i]].list == id && nodes[s[i]].prev == Before(s, i) && nodes[s[i]].next == After(s, i)
  }

  predicate HeadOk(h: Head, s: seq<nat>) {
    h.length == |s|
        && h.mostRecent == (if s == [] then None else Some(s[0])) && h.leastRecent == (if s == [] then None
        else Some(Last(s)))
  }

  /** The links of list `id` go through `s`. */
  predicate Linked(nodes: seq<Node>, h: Head, s: seq<nat>, id: ListId) {
    HeadOk(h, s) && NoRepeats(s) && forall i: nat :: i < |s| ==> NodeLinked(nodes, s, id, i)
  }

  ghost predicate ListsOk(a: Arena, o: Orders) { forall id :: Linked(a.nodes, a.heads.Get(id), o.Get(id), id) }

  /** A node is in no list. */
  ghost predicate Loose(o: Orders, idx: nat) { forall id :: idx !in o.Get(id) }

  /** Everything but the links and the list is the same. */
  predicate SameBody(x: Node, y: Node) { x.page == y.page && x.frame == y.frame && x.evictable == y.evictable }

  /** Only the links of the nodes in `s` and of `idx`, and the list of `idx`, may differ. */
  predicate Relinked(nodes: seq<Node>, nodes': seq<Node>, s: seq<nat>, idx: nat) {
    && |nodes'| == |nodes|
    && (forall i ::
        0 <= i < |nodes| ==> SameBody(nodes[i], nodes'[i]) && (i != idx ==> nodes'[i].list == nodes[i].list))
    && (forall i :: 0 <= i < |nodes| && i !in s && i != idx ==> nodes'[i] == nodes[i])
  }

  // ---------------------------------------------------------------- link surgery

  function WithNext(nodes: seq<Node>, at: Option<nat>, next: Option<nat>): seq<Node> {
    if at.Some? && at.value < |nodes| then nodes[at.value := nodes[at.value].(next := next)] else nodes
  }

  function WithPrev(nodes: seq<Node>, at: Option<nat>, prev: Option<nat>): seq<Node> {
    if at.Some? && at.value < |nodes| then nodes[at.value := nodes[at.value].(prev := prev)] else nodes
  }

  function Detach(a: Arena, idx: nat): Arena
    requires idx < |a.nodes|
  {
    var n := a.nodes[idx];
    var h := a.heads.Get(n.list);
    var h' := Head(if h.mostRecent == Some(idx) then n.next else h.mostRecent, if h.leastRecent == Some(idx)
        then n.prev else h.leastRecent, h.length - 1);
    var nodes := WithPrev(WithNext(a.nodes, n.prev, n.next), n.next, n.prev);
    Arena(nodes[idx := nodes[idx].(prev := None, next := None)], a.heads.Set(n.list, h'))
  }

  function Push(a: Arena, idx: nat, list: ListId): Arena
    requires idx < |a.nodes|
  {
    var h := a.heads.Get(list);
    var h' := Head(Some(idx), if h.mostRecent.None? then Some(idx) else h.leastRecent, h.length + 1);
    var nodes := a.nodes[idx := a.nodes[idx].(list := list, prev := None, next := h.mostRecent)];
    Arena(WithPrev(nodes, h.mostRecent, Some(idx)), a.heads.Set(list, h'))
  }

  function InsertAfter(a: Arena, idx: nat, list: ListId, moreRecent: Option<nat>): Arena
    requires idx < |a.nodes| && (moreRecent.Some? ==> moreRecent.value < |a.nodes|)
  {
    if moreRecent.None? then Push(a, idx, list)
    else
      var lessRecent := a.nodes[moreRecent.value].next;
      var nodes := WithNext(a.nodes, moreRecent, Some(idx));
      var linked := nodes[idx := nodes[idx].(list := list, prev := moreRecent, next := lessRecent)];
      var h := a.heads.Get(list);
      var h' := Head(h.mostRecent, if lessRecent.None? then Some(idx) else h.leastRecent, h.length + 1);
      Arena(WithPrev(linked, lessRecent, Some(idx)), a.heads.Set(list, h'))
  }

  // ---------------------------------------------------------------- surgery on one list

  function Cut(s: seq<nat>, k: nat): seq<nat>
    requires k < |s|
  {
    s[..k] + s[k + 1..]
  }

  function Spliced(s: seq<nat>, k: nat, idx: nat): seq<nat>
    requires k <= |s|
  {
    s[..k] + [idx] + s[k..]
  }

  /** Where the elements of a cut list were, and what is around them. */
  lemma CutPlace(s: seq<nat>, k: nat, i: nat)
    requires NoRepeats(s) && k < |s| && i < |Cut(s, k)|
    ensures var j: nat := if i < k then i else i + 1;
            && j < |s| && Cut(s, k)[i] == s[j] && s[j] != s[k]
            && Before(Cut(s, k), i) == (if j == k + 1 then Before(s, k) else Before(s, j))
            && After(Cut(s, k), i) == (if j + 1 == k then After(s, k) else After(s, j))
            && (Some(s[j]) == Before(s, k) <==> j + 1 == k) && (Some(s[j]) == After(s, k) <==> j == k + 1)
  {}

  lemma DetachLinks(a: Arena, idx: nat, s: seq<nat>, k: nat)
    requires idx < |a.nodes| && k < |s| && s[k] == idx
             && Linked(a.nodes, a.heads.Get(a.nodes[idx].list), s, a.nodes[idx].list)
    ensures var id := a.nodes[idx].list; Linked(Detach(a, idx).nodes, Detach(a, idx).heads.Get(id), Cut(s, k), id)
    ensures Relinked(a.nodes, Detach(a, idx).nodes, s, idx) && Detach(a, idx).nodes[idx].list == a.nodes[idx].list
  {
    var id, s', b := a.nodes[idx].list, Cut(s, k), Detach(a, idx);
    assert NodeLinked(a.nodes, s, id, k);
    if k > 0 { assert NodeLinked(a.nodes, s, id, k - 1); }
    if k + 1 < |s| { assert NodeLinked(a.nodes, s, id, k + 1); }
    forall i: nat | i < |s'| ensures NodeLinked(b.nodes, s', id, i) {
      CutPlace(s, k, i);
      assert NodeLinked(a.nodes, s, id, if i < k then i else i + 1);
    }
  }

  lemma SplicedPlace(s: seq<nat>, k: nat, idx: nat, i: nat)
    requires NoRepeats(s) && k <= |s| && idx !in s && i < |Spliced(s, k, idx)| && i != k
    ensures var s', j: nat := Spliced(s, k, idx), if i < k then i else i - 1;
            && j < |s| && s'[i] == s[j] && s[j] != idx
            && Before(s', i) == (if j == k then Some(idx) else Before(s, j)) && After(s', i) == (if j + 1 == k
                then Some(idx) else After(s, j))
            && (Some(s[j]) == Before(s, k) <==> j + 1 == k) && (k < |s| ==> (s[j] == s[k] <==> j == k))
  {}

  lemma SplicedEnds(s: seq<nat>, k: nat, idx: nat)
    requires NoRepeats(s) && k <= |s| && idx !in s
    ensures var s' := Spliced(s, k, idx);
            && NoRepeats(s') && s'[k] == idx && Before(s', k) == Before(s, k)
            && After(s', k) == (if k < |s| then Some(s[k]) else None)
            && |s'| == |s| + 1 && s'[0] == (if k == 0 then idx else s[0]) && Last(s') == (if k == |s| then idx
                else Last(s))
  {}

  /** Inserting after the node before place `k`, or at the front. */
  lemma InsertLinks(a: Arena, idx: nat, id: ListId, s: seq<nat>, k: nat)
    requires idx < |a.nodes| && k <= |s| && idx !in s && Linked(a.nodes, a.heads.Get(id), s, id)
    requires k > 0 ==> s[k - 1] < |a.nodes|
    ensures var b := InsertAfter(a, idx, id, Before(s, k));
            && Linked(b.nodes, b.heads.Get(id), Spliced(s, k, idx), id) && Relinked(a.nodes, b.nodes, s, idx)
            && b.nodes[idx].list == id
  {
    var s', b := Spliced(s, k, idx), InsertAfter(a, idx, id, Before(s, k));
    SplicedEnds(s, k, idx);
    if k > 0 { assert NodeLinked(a.nodes, s, id, k - 1); }
    if k < |s| { assert NodeLinked(a.nodes, s, id, k); }
    forall i: nat | i < |s'| ensures NodeLinked(b.nodes, s', id, i) { InsertLink(a, idx, id, s, k, i); }
  }

  lemma InsertLink(a: Arena, idx: nat, id: ListId, s: seq<nat>, k: nat, i: nat)
    requires idx < |a.nodes| && k <= |s| && idx !in s && Linked(a.nodes, a.heads.Get(id), s, id) && i <= |s|
    requires k > 0 ==> s[k - 1] < |a.nodes|
    ensures NodeLinked(InsertAfter(a, idx, id, Before(s, k)).nodes, Spliced(s, k, idx), id, i)
  {
    if k > 0 { assert NodeLinked(a.nodes, s, id, k - 1); }
    if k < |s| { assert NodeLinked(a.nodes, s, id, k); }
    if i != k {
      SplicedPlace(s, k, idx, i);
      assert NodeLinked(a.nodes, s, id, if i < k then i else i - 1);
    }
  }

  // ---------------------------------------------------------------- surgery among four lists

  /** A list none of whose nodes changed is as it was. */
  lemma OtherList(nodes: seq<Node>, nodes': seq<Node>, h: Head, s: seq<nat>, id: ListId)
    requires Linked(nodes, h, s, id) && |nodes'| == |nodes| && forall i :: 0 <= i < |s| && s[i] < |nodes| ==>
             nodes'[s[i]] == nodes[s[i]]
    ensures Linked(nodes', h, s, id)
  {
    forall i: nat | i < |s| ensures NodeLinked(nodes', s, id, i) { assert NodeLinked(nodes, s, id, i); }
  }

  /** A node is in the list it names. */
  lemma ListNamed(a: Arena, o: Orders, id: ListId, i: nat)
    requires ListsOk(a, o)
    ensures i in o.Get(id) ==> i < |a.nodes| && a.nodes[i].list == id
  {
    var s := o.Get(id);
    assert Linked(a.nodes, a.heads.Get(id), s, id);
    if i in s {
      var k: nat :| k < |s| && s[k] == i;
      assert NodeLinked(a.nodes, s, id, k);
    }
  }

  lemma Apart(a: Arena, o: Orders, x: ListId, y: ListId, i: nat)
    requires ListsOk(a, o) && x != y && i in o.Get(x)
    ensures i !in o.Get(y)
  {
    ListNamed(a, o, x, i);
    ListNamed(a, o, y, i);
  }

  lemma OthersStay(a: Arena, o: Orders, b: Arena, x: ListId, y: ListId, idx: nat)
    requires ListsOk(a, o) && x != y && Relinked(a.nodes, b.nodes, o.Get(x), idx) && idx !in o.Get(y)
             && b.heads.Get(y) == a.heads.Get(y)
    ensures Linked(b.nodes, b.heads.Get(y), o.Get(y), y)
  {
    var t := o.Get(y);
    assert Linked(a.nodes, a.heads.Get(y), t, y);
    forall i | 0 <= i < |t| && t[i] < |a.nodes| ensures b.nodes[t[i]] == a.nodes[t[i]] { Apart(a, o, y, x, t[i]); }
    OtherList(a.nodes, b.nodes, a.heads.Get(y), t, y);
  }

  /** Taking node `k` out of list `id`. */
  lemma DetachOk(a: Arena, o: Orders, id: ListId, k: nat)
    requires ListsOk(a, o) && k < |o.Get(id)|
    ensures var idx := o.Get(id)[k];
            && idx < |a.nodes| && a.nodes[idx].list == id && ListsOk(Detach(a, idx), o.Set(id, Cut(o.Get(id), k)))
            && Loose(o.Set(id, Cut(o.Get(id), k)), idx)
            && Relinked(a.nodes, Detach(a, idx).nodes, o.Get(id), idx)
  {
    var s := o.Get(id);
    var idx := s[k];
    assert Linked(a.nodes, a.heads.Get(id), s, id);
    assert NodeLinked(a.nodes, s, id, k);
    DetachLinks(a, idx, s, k);
    forall y | y != id ensures Linked(Detach(a, idx).nodes, Detach(a, idx).heads.Get(y), o.Get(y), y)
        && idx !in o.Get(y) {
      Apart(a, o, id, y, idx);
      OthersStay(a, o, Detach(a, idx), id, y, idx);
    }
    CutOut(s, k);
  }

  lemma CutOut(s: seq<nat>, k: nat)
    requires NoRepeats(s) && k < |s|
    ensures s[k] !in Cut(s, k) && forall i :: i in Cut(s, k) <==> i in s && i != s[k]
  {
    assert s == s[..k] + [s[k]] + s[k + 1..];
  }

  /** Putting a loose node into place `k` of list `id`. */
  lemma InsertOk(a: Arena, o: Orders, idx: nat, id: ListId, k: nat)
    requires ListsOk(a, o) && Loose(o, idx) && idx < |a.nodes| && k <= |o.Get(id)|
    ensures var s := o.Get(id);
            && (k > 0 ==> s[k - 1] < |a.nodes|)
            && var b := InsertAfter(a, idx, id, Before(s, k));
               ListsOk(b, o.Set(id, Spliced(s, k, idx))) && Relinked(a.nodes, b.nodes, s, idx)
                   && b.nodes[idx].list == id
  {
    var s := o.Get(id);
    assert Linked(a.nodes, a.heads.Get(id), s, id);
    if k > 0 { assert NodeLinked(a.nodes, s, id, k - 1); }
    InsertLinks(a, idx, id, s, k);
    var b := InsertAfter(a, idx, id, Before(s, k));
    forall y | y != id ensures Linked(b.nodes, b.heads.Get(y), o.Get(y), y) {
      OthersStay(a, o, b, id, y, idx);
    }
  }

  /** Orders and nodes determine the links: two arenas over the same lists whose nodes hold the same are the same. */
  lemma LinksDetermined(a: Arena, b: Arena, o: Orders)
    requires ListsOk(a, o) && ListsOk(b, o) && |a.nodes| == |b.nodes|
    requires forall i: nat ::
             i < |a.nodes| ==> SameBody(a.nodes[i], b.nodes[i]) && (Loose(o, i) ==> a.nodes[i] == b.nodes[i])
    ensures a == b
  {
    forall i: nat | i < |a.nodes| ensures a.nodes[i] == b.nodes[i] {
      if !Loose(o, i) {
        var id :| i in o.Get(id);
        var s := o.Get(id);
        var k: nat :| k < |s| && s[k] == i;
        assert Linked(a.nodes, a.heads.Get(id), s, id) && Linked(b.nodes, b.heads.Get(id), s, id);
        assert NodeLinked(a.nodes, s, id, k) && NodeLinked(b.nodes, s, id, k);
      }
    }
    forall id ensures a.heads.Get(id) == b.heads.Get(id) {
      assert Linked(a.nodes, a.heads.Get(id), o.Get(id), id) && Linked(b.nodes, b.heads.Get(id), o.Get(id), id);
    }
    assert a.heads.Get(Mru) == b.heads.Get(Mru) && a.heads.Get(Mfu) == b.heads.Get(Mfu);
    assert a.heads.Get(GhostMru) == b.heads.Get(GhostMru) && a.heads.Get(GhostMfu) == b.heads.Get(GhostMfu);
    assert a.nodes == b.nodes;
  }

  /** Moving a node to the front of a list, its own or another. */
  function MoveToFront(a: Arena, idx: nat, to: ListId): Arena
    requires idx < |a.nodes|
  {
    Push(Detach(a, idx), idx, to)
  }

  function Moved(o: Orders, id: ListId, k: nat, to: ListId): Orders
    requires k < |o.Get(id)|
  {
    var cut := o.Set(id, Cut(o.Get(id), k));
    cut.Set(to, [o.Get(id)[k]] + cut.Get(to))
  }

  lemma MoveOk(a: Arena, o: Orders, id: ListId, k: nat, to: ListId)
    requires ListsOk(a, o) && k < |o.Get(id)|
    ensures var idx := o.Get(id)[k];
            && idx < |a.nodes| && a.nodes[idx].list == id
            && var b := MoveToFront(a, idx, to);
               && ListsOk(b, Moved(o, id, k, to)) && |b.nodes| == |a.nodes| && b.nodes[idx].list == to
               && (forall i ::
                   0 <= i < |a.nodes| ==>
                   SameBody(a.nodes[i], b.nodes[i]) && (i != idx ==> b.nodes[i].list == a.nodes[i].list))
               && (forall i: nat :: i < |a.nodes| && Loose(o, i) ==> b.nodes[i] == a.nodes[i])
  {
    var idx, cut := o.Get(id)[k], o.Set(id, Cut(o.Get(id), k));
    DetachOk(a, o, id, k);
    InsertOk(Detach(a, idx), cut, idx, to, 0);
    assert Spliced(cut.Get(to), 0, idx) == [idx] + cut.Get(to);
    CutMembers(o, id, k);
  }

  /** The other nodes stay in their lists. */
  lemma CutMembers(o: Orders, id: ListId, k: nat)
    requires k < |o.Get(id)|
    ensures forall i, y :: i in o.Set(id, Cut(o.Get(id), k)).Get(y) ==> i in o.Get(y)
  {}

  // ---------------------------------------------------------------- orders by node

  function Without(s: seq<nat>, x: nat): seq<nat> {
    if s == [] then [] else if s[0] == x then s[1..] else [s[0]] + Without(s[1..], x)
  }

  lemma {:induction false} WithoutIsCut(s: seq<nat>, k: nat)
    requires NoRepeats(s) && k < |s|
    ensures Without(s, s[k]) == Cut(s, k)
  {
    if k == 0 {
      assert Cut(s, 0) == s[1..];
    } else {
      assert s[0] != s[k];
      WithoutIsCut(s[1..], k - 1);
      assert Cut(s, k) == [s[0]] + Cut(s[1..], k - 1);
    }
  }

  lemma {:induction false} WithoutAbsent(s: seq<nat>, x: nat)
    requires x !in s
    ensures Without(s, x) == s
  {
    if s != [] { WithoutAbsent(s[1..], x); }
  }

  /** The lists without a node, and with it in front of one of them. */
  function Dropped(o: Orders, x: nat): Orders {
    Four(Without(o.mru, x), Without(o.mfu, x), Without(o.ghostMru, x), Without(o.ghostMfu, x))
  }

  function Front(o: Orders, x: nat, to: ListId): Orders { Dropped(o, x).Set(to, [x] + Dropped(o, x).Get(to)) }

  lemma DroppedIsCut(a: Arena, o: Orders, id: ListId, k: nat)
    requires ListsOk(a, o) && k < |o.Get(id)|
    ensures Dropped(o, o.Get(id)[k]) == o.Set(id, Cut(o.Get(id), k))
  {
    var x := o.Get(id)[k];
    assert Linked(a.nodes, a.heads.Get(id), o.Get(id), id);
    WithoutIsCut(o.Get(id), k);
    forall y | y != id ensures Without(o.Get(y), x) == o.Get(y) {
      Apart(a, o, id, y, x);
      WithoutAbsent(o.Get(y), x);
    }
    assert Without(o.Get(Mru), x) == o.Set(id, Cut(o.Get(id), k)).Get(Mru)
        && Without(o.Get(Mfu), x) == o.Set(id, Cut(o.Get(id), k)).Get(Mfu);
    assert Without(o.Get(GhostMru), x) == o.Set(id, Cut(o.Get(id), k)).Get(GhostMru)
        && Without(o.Get(GhostMfu), x) == o.Set(id, Cut(o.Get(id), k)).Get(GhostMfu);
  }

  /** How many nodes are in list `y` when the one in `id` has gone to the front of `to`. */
  function Plus(x: ListId, y: ListId): nat { if x == y then 1 else 0 }

  /** The nodes with only links changed, and the list of `idx`. */
  predicate OnlyMoved(nodes: seq<Node>, nodes': seq<Node>, idx: nat, to: ListId) {
    && |nodes'| == |nodes| && (idx < |nodes| ==> nodes'[idx].list == to)
    && (forall i ::
        0 <= i < |nodes| ==> SameBody(nodes[i], nodes'[i]) && (i != idx ==> nodes'[i].list == nodes[i].list))
  }

  /** What moving a node to the front does to the arena. */
  lemma MoveToFrontOk(a: Arena, o: Orders, id: ListId, idx: nat, to: ListId)
    requires ListsOk(a, o) && idx in o.Get(id)
    ensures idx < |a.nodes| && a.nodes[idx].list == id && ListsOk(MoveToFront(a, idx, to), Front(o, idx, to))
    ensures OnlyMoved(a.nodes, MoveToFront(a, idx, to).nodes, idx, to)
    ensures forall i: nat :: i < |a.nodes| && Loose(o, i) ==> MoveToFront(a, idx, to).nodes[i] == a.nodes[i]
  {
    var k: nat :| k < |o.Get(id)| && o.Get(id)[k] == idx;
    MoveOk(a, o, id, k, to);
    DroppedIsCut(a, o, id, k);
  }

  lemma FrontKeeps(a: Arena, o: Orders, id: ListId, idx: nat, to: ListId)
    requires ListsOk(a, o) && idx in o.Get(id)
    ensures forall i: nat :: Loose(Front(o, idx, to), i) <==> Loose(o, i)
    ensures forall y :: |Front(o, idx, to).Get(y)| == |o.Get(y)| - Plus(y, id) + Plus(y, to)
  {
    var k: nat :| k < |o.Get(id)| && o.Get(id)[k] == idx;
    assert Front(o, idx, to) == Moved(o, id, k, to) by { DroppedIsCut(a, o, id, k); }
    FrontMembers(a, o, id, k, to);
    forall y ensures |Front(o, idx, to).Get(y)| == |o.Get(y)| - Plus(y, id) + Plus(y, to) {
      MovedSize(o, id, k, to, y);
    }
  }

  lemma MovedSize(o: Orders, id: ListId, k: nat, to: ListId, y: ListId)
    requires k < |o.Get(id)|
    ensures |Moved(o, id, k, to).Get(y)| == |o.Get(y)| - Plus(y, id) + Plus(y, to)
  {}

  lemma FrontMembers(a: Arena, o: Orders, id: ListId, k: nat, to: ListId)
    requires ListsOk(a, o) && k < |o.Get(id)|
    ensures forall i: nat :: Loose(Moved(o, id, k, to), i) <==> Loose(o, i)
  {
    var x, m := o.Get(id)[k], Moved(o, id, k, to);
    assert Linked(a.nodes, a.heads.Get(id), o.Get(id), id);
    CutOut(o.Get(id), k);
    forall i: nat ensures Loose(m, i) <==> Loose(o, i) {
      if i == x {
        assert x in m.Get(to);
      } else {
        forall y ensures i in m.Get(y) <==> i in o.Get(y) {}
      }
    }
  }

  /** Changing what a node holds changes no list. */
  lemma BodyOk(a: Arena, o: Orders, nodes: seq<Node>)
    requires ListsOk(a, o) && |nodes| == |a.nodes|
    requires forall i: nat :: i < |nodes| && !Loose(o, i) ==>
             nodes[i].list == a.nodes[i].list && nodes[i].next == a.nodes[i].next && nodes[i].prev == a.nodes[i].prev
    ensures ListsOk(Arena(nodes, a.heads), o)
  {
    forall id ensures Linked(nodes, a.heads.Get(id), o.Get(id), id) {
      var s := o.Get(id);
      assert Linked(a.nodes, a.heads.Get(id), s, id);
      forall i: nat | i < |s| ensures NodeLinked(nodes, s, id, i) {
        assert NodeLinked(a.nodes, s, id, i);
        assert !Loose(o, s[i]);
      }
    }
  }

  lemma GrowOk(a: Arena, o: Orders, n: Node)
    requires ListsOk(a, o)
    ensures ListsOk(Arena(a.nodes + [n], a.heads), o) && Loose(o, |a.nodes|)
  {
    forall id ensures Linked(a.nodes + [n], a.heads.Get(id), o.Get(id), id) && |a.nodes| !in o.Get(id) {
      var s := o.Get(id);
      assert Linked(a.nodes, a.heads.Get(id), s, id);
      forall i: nat | i < |s| ensures NodeLinked(a.nodes + [n], s, id, i) { assert NodeLinked(a.nodes, s, id, i); }
      ListNamed(a, o, id, |a.nodes|);
    }
  }

  lemma DetachIsDrop(a: Arena, o: Orders, id: ListId, idx: nat)
    requires ListsOk(a, o) && idx in o.Get(id)
    ensures idx < |a.nodes| && a.nodes[idx].list == id && ListsOk(Detach(a, idx), Dropped(o, idx))
            && OnlyMoved(a.nodes, Detach(a, idx).nodes, idx, id)
    ensures forall i: nat :: i < |a.nodes| && Loose(o, i) ==> Detach(a, idx).nodes[i] == a.nodes[i]
  {
    var k: nat :| k < |o.Get(id)| && o.Get(id)[k] == idx;
    DetachOk(a, o, id, k);
    DroppedIsCut(a, o, id, k);
    var s := o.Get(id);
    assert Linked(a.nodes, a.heads.Get(id), s, id);
    DetachLinks(a, idx, s, k);
  }

  lemma DropKeeps(a: Arena, o: Orders, id: ListId, idx: nat)
    requires ListsOk(a, o) && idx in o.Get(id)
    ensures forall i: nat :: Loose(Dropped(o, idx), i) <==> Loose(o, i) || i == idx
    ensures forall y :: |Dropped(o, idx).Get(y)| == |o.Get(y)| - Plus(y, id)
  {
    var k: nat :| k < |o.Get(id)| && o.Get(id)[k] == idx;
    DroppedIsCut(a, o, id, k);
    CutLoose(a, o, id, k);
  }

  lemma CutLoose(a: Arena, o: Orders, id: ListId, k: nat)
    requires ListsOk(a, o) && k < |o.Get(id)|
    ensures var x, o' := o.Get(id)[k], o.Set(id, Cut(o.Get(id), k));
            forall i: nat :: Loose(o', i) <==> Loose(o, i) || i == x
  {
    var x, o' := o.Get(id)[k], o.Set(id, Cut(o.Get(id), k));
    assert Linked(a.nodes, a.heads.Get(id), o.Get(id), id);
    CutOut(o.Get(id), k);
    forall y | y != id ensures x !in o.Get(y) { Apart(a, o, id, y, x); }
    forall i: nat ensures Loose(o', i) <==> Loose(o, i) || i == x {
      forall y ensures i in o'.Get(y) <==> i in o.Get(y) && i != x {}
    }
  }
}
