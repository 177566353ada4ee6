/** Range scans: a cursor over a private copy of one leaf at a time, that follows the leaf chain. */
module BPlusScan {
  import opened Base
  import opened BPlusLayout
  import opened BPlusTree
  import opened BPlusPages
  import opened BPlusIndex
  import opened BPlusMap
  import L = BPlusLeaf

  datatype Bound = Unbounded | Included(key: Key) | Excluded(key: Key)

  predicate FromBound(l: Layout, key: Key, lo: Bound) {
    match lo
    case Unbounded => true
    case Included(k) => !l.before(key, k)
    case Excluded(k) => l.before(k, key)
  }

  predicate UpToBound(l: Layout, key: Key, hi: Bound) {
    match hi
    case Unbounded => true
    case Included(k) => !l.before(k, key)
    case Excluded(k) => l.before(key, k)
  }

  /** What a scan promises: the rows in the range, in their order. */
  function InRange(l: Layout, rows: seq<Entry>, lo: Bound, hi: Bound): seq<Entry> {
    if rows == [] then []
    else if FromBound(l, rows[0].key, lo) && UpToBound(l, rows[0].key, hi)
        then [rows[0]] + InRange(l, rows[1..], lo, hi)
    else InRange(l, rows[1..], lo, hi)
  }

  /** The rows before the first one past the bound. */
  function UpTo(l: Layout, rows: seq<Entry>, hi: Bound): seq<Entry> {
    if rows == [] || !UpToBound(l, rows[0].key, hi) then [] else [rows[0]] + UpTo(l, rows[1..], hi)
  }

  lemma {:induction false} BelowRange(l: Layout, a: seq<Entry>, rest: seq<Entry>, lo: Bound, hi: Bound)
    requires forall i :: 0 <= i < |a| ==> !FromBound(l, a[i].key, lo)
    ensures InRange(l, a + rest, lo, hi) == InRange(l, rest, lo, hi)
  {
    if a == [] {
      assert a + rest == rest;
    } else {
      assert (a + rest)[0] == a[0] && (a + rest)[1..] == a[1..] + rest;
      BelowRange(l, a[1..], rest, lo, hi);
    }
  }

  lemma {:induction false} PastRange(l: Layout, rows: seq<Entry>, lo: Bound, hi: Bound)
    requires forall i :: 0 <= i < |rows| ==> !UpToBound(l, rows[i].key, hi)
    ensures InRange(l, rows, lo, hi) == []
  {
    if rows != [] {
      PastRange(l, rows[1..], lo, hi);
    }
  }

  /** On sorted rows that are all past the lower bound, stopping at the first row past the upper one misses nothing. */
  lemma {:induction false} StopsInTime(l: Layout, rows: seq<Entry>, lo: Bound, hi: Bound)
    requires TotalOrder(l.before) && L.Sorted(l, rows) && forall i :: 0 <= i < |rows| ==> FromBound(l, rows[i].key, lo)
    ensures InRange(l, rows, lo, hi) == UpTo(l, rows, hi)
  {
    if rows != [] {
      if UpToBound(l, rows[0].key, hi) {
        StopsInTime(l, rows[1..], lo, hi);
      } else {
        PastRange(l, rows, lo, hi);
      }
    }
  }

  // ---------------------------------------------------------------- the cursor

  /** The chain from the cursor's leaf on is stored, and none of the later leaves has been visited. */
  ghost predicate CursorOk(pages: Pages, leaf: L.Leaf, slot: nat, seen: set<nat>, leaves: seq<Tree>) {
    && leaves != [] && leaves[0].Lf? && leaves[0].leaf == leaf && slot <= |leaf.entries| && ChainOk(leaves, None)
    && HoldsAll(pages, leaves[1..]) && DistinctKids(leaves[1..]) && AllIdsOf(leaves[1..]) !! seen
  }

  /** The rows from the cursor on, and those of them the scan will still return. */
  ghost function RowsAhead(leaf: L.Leaf, slot: nat, leaves: seq<Tree>): seq<Entry>
    requires leaves != [] && slot <= |leaf.entries|
  {
    L.LiveOf(L.Items(leaf)[slot..]) + RowsOf(leaves[1..])
  }

  lemma SlotAhead(leaf: L.Leaf, slot: nat)
    requires slot < |leaf.entries|
    ensures L.LiveOf(L.Items(leaf)[slot..]) == (if slot in leaf.dead then []
            else [leaf.entries[slot]]) + L.LiveOf(L.Items(leaf)[slot + 1..])
  {
    LiveFrom(L.Items(leaf), slot);
  }

  lemma LiveFrom(items: seq<L.Item>, i: nat)
    requires i < |items|
    ensures L.LiveOf(items[i..]) == (if items[i].live then [items[i].entry] else []) + L.LiveOf(items[i + 1..])
  {
    assert items[i..] == [items[i]] + items[i + 1..];
    L.LiveAppend([items[i]], items[i + 1..]);
    L.LiveOne(items[i]);
  }

  /** What is ahead of a slot and of the one after it, and what of it the scan returns. */
  lemma RowAhead(l: Layout, leaf: L.Leaf, slot: nat, leaves: seq<Tree>, hi: Bound)
    requires leaves != [] && slot < |leaf.entries|
    ensures slot in leaf.dead ==> RowsAhead(leaf, slot, leaves) == RowsAhead(leaf, slot + 1, leaves)
    ensures slot !in leaf.dead ==>
              UpTo(l, RowsAhead(leaf, slot, leaves), hi) ==
              if UpToBound(l, leaf.entries[slot].key, hi)
                  then [leaf.entries[slot]] + UpTo(l, RowsAhead(leaf, slot + 1, leaves), hi) else []
  {
    SlotAhead(leaf, slot);
    if slot !in leaf.dead {
      var e, rest := leaf.entries[slot], RowsAhead(leaf, slot + 1, leaves);
      assert RowsAhead(leaf, slot, leaves) == [e] + rest;
      assert ([e] + rest)[0] == e && ([e] + rest)[1..] == rest;
    }
  }

  /** From one leaf to the next. */
  lemma LeafAhead(pages: Pages, leaf: L.Leaf, seen: set<nat>, leaves: seq<Tree>)
    requires CursorOk(pages, leaf, |leaf.entries|, seen, leaves)
    ensures leaf.next.None? ==> RowsAhead(leaf, |leaf.entries|, leaves) == []
    ensures leaf.next.Some? ==>
              && |leaves| > 1 && leaf.next == Some(leaves[1].id) && leaves[1].id !in seen
              && leaves[1].Lf? && Find(pages, leaves[1].id) == Some(LeafPage(leaves[1].leaf))
              && CursorOk(pages, leaves[1].leaf, 0, seen + {leaves[1].id}, leaves[1..])
              && RowsAhead(leaf, |leaf.entries|, leaves) == RowsAhead(leaves[1].leaf, 0, leaves[1..])
  {
    assert leaf.next == Following(leaves, None, 0);
    assert L.Items(leaf)[|leaf.entries|..] == [];
    if |leaves| > 1 {
      var rest := leaves[1..];
      assert rest[0] == leaves[1] && rest[1..] == leaves[2..];
      assert L.Items(leaves[1].leaf)[0..] == L.Items(leaves[1].leaf);
      OwnId(rest[0]);
      assert RowsOf(rest) == L.Rows(leaves[1].leaf) + RowsOf(rest[1..]);
      assert RowsAhead(leaf, |leaf.entries|, leaves) == [] + RowsOf(rest) == RowsOf(rest);
      forall i: nat | i < |rest| ensures rest[i].Lf? && rest[i].leaf.next == Following(rest, None, i) {
        assert leaves[i + 1].leaf.next == Following(leaves, None, i + 1);
      }
    }
  }

  /** The next row of a scan: the next live entry of the leaf or of the leaves after it, unless it is past the bound. */
  method Advance(l: Layout, pages: Pages, leaf0: L.Leaf, slot0: nat, seen0: set<nat>, hi: Bound,
                 ghost leaves0: seq<Tree>)
    returns (r: Option<Entry>, leaf: Option<L.Leaf>, slot: nat, seen: set<nat>, cycle: bool, ghost leaves: seq<Tree>)
    requires CursorOk(pages, leaf0, slot0, seen0, leaves0)
    ensures !cycle && (r.Some? <==> leaf.Some?)
    ensures r.None? ==> UpTo(l, RowsAhead(leaf0, slot0, leaves0), hi) == []
    ensures r.Some? ==>
              && CursorOk(pages, leaf.value, slot, seen, leaves)
              && UpTo(l, RowsAhead(leaf0, slot0, leaves0), hi) == [r.value] + UpTo(l,
                  RowsAhead(leaf.value, slot, leaves), hi)
  {
    var current := leaf0;
    slot, seen, leaves, cycle := slot0, seen0, leaves0, false;
    while true
      invariant CursorOk(pages, current, slot, seen, leaves) && !cycle
      invariant RowsAhead(leaf0, slot0, leaves0) == RowsAhead(current, slot, leaves)
      decreases |leaves|, |current.entries| - slot
    {
      if slot >= |current.entries| {
        LeafAhead(pages, current, seen, leaves);
        if current.next.None? {
          return None, None, slot, seen, false, leaves;
        }
        var id := current.next.value;
        if id in seen {
          return None, None, slot, seen, true, leaves;
        }
        current, slot, seen, leaves := pages[id].leaf, 0, seen + {id}, leaves[1..];
      } else {
        RowAhead(l, current, slot, leaves, hi);
        var i := slot;
        slot := slot + 1;
        if i !in current.dead {
          if !UpToBound(l, current.entries[i].key, hi) {
            return None, None, slot, seen, false, leaves;
          }
          return Some(current.entries[i]), Some(current), slot, seen, false, leaves;
        }
      }
    }
  }

  // ---------------------------------------------------------------- where a scan starts

  predicate NoneFrom(l: Layout, rows: seq<Entry>, lo: Bound) {
    forall i :: 0 <= i < |rows| ==> !FromBound(l, rows[i].key, lo)
  }

  predicate AllFrom(l: Layout, rows: seq<Entry>, lo: Bound) {
    forall i :: 0 <= i < |rows| ==> FromBound(l, rows[i].key, lo)
  }

  lemma BoundsAppend(l: Layout, a: seq<Entry>, b: seq<Entry>, lo: Bound)
    ensures NoneFrom(l, a, lo) && NoneFrom(l, b, lo) ==> NoneFrom(l, a + b, lo)
    ensures AllFrom(l, a, lo) && AllFrom(l, b, lo) ==> AllFrom(l, a + b, lo)
  {}

  predicate SlotSplits(l: Layout, leaf: L.Leaf, slot: nat, lo: Bound) {
    slot <= |leaf.entries| && NoneFrom(l, leaf.entries[..slot], lo) && AllFrom(l, leaf.entries[slot..], lo)
  }

  /** The first slot of a leaf that is not below the bound. */
  method StartSlot(l: Layout, leaf: L.Leaf, lo: Bound) returns (slot: nat)
    requires TotalOrder(l.before) && (lo != Unbounded ==> L.Sorted(l, leaf.entries))
    ensures SlotSplits(l, leaf, slot, lo)
  {
    var pred := (i: nat) => i < |leaf.entries| && !FromBound(l, leaf.entries[i].key, lo);
    if lo == Unbounded {
      return 0;
    }
    slot := L.PartitionPoint(|leaf.entries|, pred);
    forall i | 0 <= i < slot ensures !FromBound(l, leaf.entries[i].key, lo) { assert pred(i); }
    forall i | slot <= i < |leaf.entries| ensures FromBound(l, leaf.entries[i].key, lo) { assert !pred(i); }
  }

  lemma {:induction false} LiveBounds(l: Layout, items: seq<L.Item>, entries: seq<Entry>, lo: Bound)
    requires |items| == |entries| && forall i :: 0 <= i < |items| ==> items[i].entry == entries[i]
    ensures NoneFrom(l, entries, lo) ==> NoneFrom(l, L.LiveOf(items), lo)
    ensures AllFrom(l, entries, lo) ==> AllFrom(l, L.LiveOf(items), lo)
  {
    if items != [] {
      LiveBounds(l, Base.Init(items), Base.Init(entries), lo);
    }
  }

  lemma LiveParts(l: Layout, leaf: L.Leaf, slot: nat, lo: Bound)
    requires SlotSplits(l, leaf, slot, lo)
    ensures var items := L.Items(leaf);
            && L.Rows(leaf) == L.LiveOf(items[..slot]) + L.LiveOf(items[slot..])
            && NoneFrom(l, L.LiveOf(items[..slot]), lo) && AllFrom(l, L.LiveOf(items[slot..]), lo)
  {
    var a, b := L.Items(leaf)[..slot], L.Items(leaf)[slot..];
    assert L.Rows(leaf) == L.LiveOf(a) + L.LiveOf(b) by {
      L.LiveAppend(a, b);
      assert L.Items(leaf) == a + b;
    }
    LiveBounds(l, a, leaf.entries[..slot], lo);
    LiveBounds(l, b, leaf.entries[slot..], lo);
  }

  /** Of sorted rows, those from the first one past the lower bound to the last one within the upper
      bound are the rows in range. */
  lemma RangeIsPart(l: Layout, dropped: seq<Entry>, rest: seq<Entry>, lo: Bound, hi: Bound)
    requires TotalOrder(l.before) && L.Sorted(l, dropped + rest) && NoneFrom(l, dropped, lo) && AllFrom(l, rest, lo)
    ensures UpTo(l, rest, hi) == InRange(l, dropped + rest, lo, hi)
  {
    forall i, j | 0 <= i < j < |rest| ensures l.before(rest[i].key, rest[j].key) {
      assert (dropped + rest)[|dropped| + i] == rest[i] && (dropped + rest)[|dropped| + j] == rest[j];
    }
    BelowRange(l, dropped, rest, lo, hi);
    StopsInTime(l, rest, lo, hi);
  }

  /** A scan from the first slot not below the bound, in the leaf where the bound belongs, is ahead
      of exactly the rows in range. */
  lemma StartsInRange(l: Layout, rows: seq<Entry>, left: seq<Entry>, leaf: L.Leaf, right: seq<Entry>, slot: nat,
                      lo: Bound, hi: Bound)
    requires TotalOrder(l.before) && L.Sorted(l, rows) && rows == left + L.Rows(leaf) + right
             && SlotSplits(l, leaf, slot, lo)
    requires NoneFrom(l, left, lo) && AllFrom(l, right, lo)
    ensures UpTo(l, L.LiveOf(L.Items(leaf)[slot..]) + right, hi) == InRange(l, rows, lo, hi)
  {
    var a, b := L.LiveOf(L.Items(leaf)[..slot]), L.LiveOf(L.Items(leaf)[slot..]);
    LiveParts(l, leaf, slot, lo);
    BoundsAppend(l, left, a, lo);
    BoundsAppend(l, b, right, lo);
    Regroup(left, a, b, right);
    RangeIsPart(l, left + a, b + right, lo, hi);
  }

  /** The leaf a scan starts in, and the leaves after it. */
  ghost predicate StartsAt(l: Layout, t: Tree, cur: Tree, before: seq<Tree>, later: seq<Tree>, lo: Bound) {
    cur.Lf? && Leaves(t) == before + [cur] + later && NoneFrom(l, RowsOf(before), lo) && AllFrom(l, RowsOf(later), lo)
  }

  lemma CursorStarts(l: Layout, pages: Pages, t: Tree, cur: Tree, before: seq<Tree>, later: seq<Tree>, slot: nat)
    requires TreeOk(l, t, None, None, None) && Holds(pages, t) && DistinctIds(t) && cur.Lf?
             && Leaves(t) == before + [cur] + later && slot <= |cur.leaf.entries|
    ensures CursorOk(pages, cur.leaf, slot, {cur.id}, [cur] + later)
  {
    ChainIsInOrder(l, t, None, None, None);
    LeavesStored(pages, t);
    CursorOnChain(pages, before, cur, later, slot);
  }

  lemma CursorOnChain(pages: Pages, before: seq<Tree>, cur: Tree, later: seq<Tree>, slot: nat)
    requires var leaves := before + [cur] + later;
             ChainOk(leaves, None) && HoldsAll(pages, leaves) && DistinctKids(leaves)
    requires cur.Lf? && slot <= |cur.leaf.entries|
    ensures CursorOk(pages, cur.leaf, slot, {cur.id}, [cur] + later)
  {
    var leaves, chain := before + [cur] + later, [cur] + later;
    assert chain[0] == cur && chain[1..] == later && leaves == before + chain;
    ChainPart(before, chain);
    forall i | 0 <= i < |later| ensures Holds(pages, later[i]) { assert leaves[|before| + 1 + i] == later[i]; }
    DistinctKidsAppend(before, chain);
    OwnId(cur);
  }

  lemma ChainPart(a: seq<Tree>, b: seq<Tree>)
    requires ChainOk(a + b, None)
    ensures ChainOk(b, None)
  {
    forall i: nat | i < |b| ensures b[i].Lf? && b[i].leaf.next == Following(b, None, i) {
      assert (a + b)[|a| + i].leaf.next == Following(a + b, None, |a| + i);
    }
  }

  lemma RangeStarts(l: Layout, t: Tree, cur: Tree, before: seq<Tree>, later: seq<Tree>, slot: nat, lo: Bound, hi: Bound)
    requires TotalOrder(l.before) && TreeOk(l, t, None, None, None) && StartsAt(l, t, cur, before, later, lo)
             && SlotSplits(l, cur.leaf, slot, lo)
    ensures UpTo(l, RowsAhead(cur.leaf, slot, [cur] + later), hi) == InRange(l, Rows(t), lo, hi)
  {
    LeavesRows(t);
    RowsAppend(before + [cur], later);
    RowsAppend(before, [cur]);
    RowsOne(cur);
    RowsSorted(l, t, None, None, None);
    StartsInRange(l, Rows(t), RowsOf(before), cur.leaf, RowsOf(later), slot, lo, hi);
    assert ([cur] + later)[1..] == later;
  }

  lemma BoundPlace(l: Layout, t: Tree, path: Path, cur: Tree, lo: Bound)
    requires TotalOrder(l.before) && lo != Unbounded && Leads(t, path, cur) && PathOk(l, path, lo.key) && cur.Lf?
    ensures StartsAt(l, t, cur, LeavesBefore(path), LeavesAfter(path), lo)
  {
    LeafPlace(t, path, cur);
    BesideLeaf(l, t, path, cur, lo.key);
    KeyBounds(l, RowsOf(LeavesBefore(path)), RowsOf(LeavesAfter(path)), lo);
  }

  lemma KeyBounds(l: Layout, a: seq<Entry>, b: seq<Entry>, lo: Bound)
    requires TotalOrder(l.before) && lo != Unbounded && AllBefore(l, a, lo.key) && AllAfter(l, lo.key, b)
    ensures NoneFrom(l, a, lo) && AllFrom(l, b, lo)
  {}

  /** Starts a scan: in the leaf where the lower bound belongs, or in the first leaf. */
  method StartScan(l: Layout, pages: Pages, root: nat, first: nat, lo: Bound, ghost hi: Bound, ghost t: Tree)
    returns (leaf: L.Leaf, slot: nat, seen: set<nat>, ghost leaves: seq<Tree>)
    requires TotalOrder(l.before) && TreeOk(l, t, None, None, None) && Holds(pages, t) && DistinctIds(t)
             && root == t.id && first == First(t)
    ensures CursorOk(pages, leaf, slot, seen, leaves)
            && UpTo(l, RowsAhead(leaf, slot, leaves), hi) == InRange(l, Rows(t), lo, hi)
  {
    var leafId := first;
    ghost var path, cur, left, right;
    if lo == Unbounded {
      cur, left, right := FirstLeaf(l, pages, t, lo);
    } else {
      leafId, path, cur := FindLeaf(l, pages, root, t, lo.key);
      BoundPlace(l, t, path, cur, lo);
      left, right := LeavesBefore(path), LeavesAfter(path);
    }
    leaf, seen, leaves := pages[leafId].leaf, {leafId}, [cur] + right;
    slot := StartSlot(l, leaf, lo);
    CursorStarts(l, pages, t, cur, left, right, slot);
    RangeStarts(l, t, cur, left, right, slot, lo, hi);
  }

  lemma FirstLeaf(l: Layout, pages: Pages, t: Tree, lo: Bound) returns (cur: Tree, left: seq<Tree>, right: seq<Tree>)
    requires TreeOk(l, t, None, None, None) && Holds(pages, t) && DistinctIds(t) && lo == Unbounded
    ensures StartsAt(l, t, cur, left, right, lo) && cur.id == First(t) && Find(pages, cur.id) == Some(PageOf(cur))
  {
    ChainIsInOrder(l, t, None, None, None);
    LeavesStored(pages, t);
    var leaves := Leaves(t);
    cur, left, right := leaves[0], [], leaves[1..];
    HeadLeaf(pages, leaves);
  }

  lemma HeadLeaf(pages: Pages, leaves: seq<Tree>)
    requires leaves != [] && ChainOk(leaves, None) && HoldsAll(pages, leaves)
    ensures leaves == [] + [leaves[0]] + leaves[1..] && leaves[0].Lf?
            && Find(pages, leaves[0].id) == Some(PageOf(leaves[0]))
  {
    assert leaves[0].leaf.next == Following(leaves, None, 0) && Holds(pages, leaves[0]);
  }

  /** A scan over pages that nobody writes. */
  class Cursor {
    const l: Layout
    const pages: Pages
    const hi: Bound
    var leaf: Option<L.Leaf>
    var slot: nat
    var seen: set<nat>
    ghost var leaves: seq<Tree>

    ghost predicate Valid()
      reads this
    {
      leaf.Some? ==> CursorOk(pages, leaf.value, slot, seen, leaves)
    }

    /** The rows the scan has yet to return. */
    ghost function Ahead(): seq<Entry>
      reads this
      requires Valid()
    {
      if leaf.None? then [] else UpTo(l, RowsAhead(leaf.value, slot, leaves), hi)
    }

    constructor (l: Layout, pages: Pages, root: Option<nat>, first: Option<nat>, lo: Bound, hi: Bound,
                 ghost t: Option<Tree>)
      requires TotalOrder(l.before) && (root.None? <==> t.None?)
      requires t.Some? ==>
                 TreeOk(l, t.value, None, None, None) && Holds(pages, t.value) && DistinctIds(t.value)
                     && root == Some(t.value.id) && first == Some(First(t.value))
      ensures Valid() && Ahead() == InRange(l, if t.None? then [] else Rows(t.value), lo, hi)
    {
      this.l, this.pages, this.hi := l, pages, hi;
      if root.None? {
        leaf, slot, seen, leaves := None, 0, {}, [];
      } else {
        var start, at, visited;
        ghost var chain;
        start, at, visited, chain := StartScan(l, pages, root.value, first.value, lo, hi, t.value);
        leaf, slot, seen, leaves := Some(start), at, visited, chain;
      }
    }

    /** Returns the rows one by one, then nothing; the chain has no cycle to report. */
    method Next() returns (r: Option<Entry>, cycle: bool)
      requires Valid()
      modifies this
      ensures Valid() && !cycle
      ensures if old(Ahead()) == [] then r == None && Ahead() == []
              else r == Some(old(Ahead())[0]) && Ahead() == old(Ahead())[1..]
    {
      if leaf.None? {
        return None, false;
      }
      r, leaf, slot, seen, cycle, leaves := Advance(l, pages, leaf.value, slot, seen, hi, leaves);
    }
  }
}
