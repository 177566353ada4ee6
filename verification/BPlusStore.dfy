/** The index kept in a B+ tree: a tree's pages, its root and its first leaf. */
module BPlusStore {
  import opened Base
  import opened BPlusLayout
  import opened BPlusTree
  import opened BPlusPages
  import opened BPlusFull
  import opened BPlusIndex
  import opened BPlusRemove
  import opened BPlusMap
  import opened BPlusScan
  import L = BPlusLeaf

  /** What an index page set promises: its pages hold a well-formed tree, and the header names the
      root and the first leaf. */
  ghost predicate IndexOk(l: Layout, pages: Pages, next: nat, root: Option<nat>, first: Option<nat>, t: Option<Tree>) {
    match t
    case None => root == None && first == None
    case Some(n) => RootOk(l, n) && Stored(pages, n, next) && root == Some(n.id) && first == Some(First(n))
  }

  ghost function IndexRows(t: Option<Tree>): seq<Entry> { if t.None? then [] else Rows(t.value) }

  /** The index as a map from key to record id. */
  ghost function MapIn(t: Option<Tree>): map<Key, RecordId> { MapOf(IndexRows(t)) }

  /** All keys have length `n`, and every page but the root is at least minimally full. */
  ghost predicate EvenIn(l: Layout, n: nat, t: Option<Tree>) { t.Some? ==> EvenBelow(l, n, t.value) }

  lemma IndexSorted(l: Layout, pages: Pages, next: nat, root: Option<nat>, first: Option<nat>, t: Option<Tree>)
    requires TotalOrder(l.before) && IndexOk(l, pages, next, root, first, t)
    ensures L.Sorted(l, IndexRows(t))
  {
    if t.Some? { RowsSorted(l, t.value, None, None, None); }
  }

  /** Keys of the index are short enough for it. */
  lemma {:induction false} KeysShort(l: Layout, t: Tree, lo: Option<Key>, hi: Option<Key>, after: Option<nat>)
    requires TreeOk(l, t, lo, hi, after)
    ensures L.KeysFit(l, Rows(t))
    decreases t, 1
  {
    match t
    case Lf(_, leaf) =>
      forall i | 0 <= i < |Rows(t)| ensures |Rows(t)[i].key| <= l.maxKeyLen {
        L.LiveAreItems(L.Items(leaf), Rows(t)[i]);
      }
    case Nd(_, keys, kids) =>
      KidsShort(l, t, lo, hi, after, 0);
  }

  lemma {:induction false} KidsShort(l: Layout, t: Tree, lo: Option<Key>, hi: Option<Key>, after: Option<nat>, n: nat)
    requires TreeOk(l, t, lo, hi, after) && t.Nd? && n <= |t.kids|
    ensures L.KeysFit(l, RowsOf(t.kids[n..]))
    decreases t, 0, |t.kids| - n
  {
    if n < |t.kids| {
      KeysShort(l, t.kids[n], LoAt(t.keys, lo, n), HiAt(t.keys, hi, n), NextAt(t.kids, after, n));
      KidsShort(l, t, lo, hi, after, n + 1);
      assert t.kids[n..][0] == t.kids[n] && t.kids[n..][1..] == t.kids[n + 1..];
    }
  }

  lemma LongKeyAbsent(l: Layout, pages: Pages, next: nat, root: Option<nat>, first: Option<nat>, t: Option<Tree>,
                      key: Key)
    requires TotalOrder(l.before) && IndexOk(l, pages, next, root, first, t) && |key| > l.maxKeyLen
    ensures key !in MapIn(t)
  {
    IndexSorted(l, pages, next, root, first, t);
    KeyIn(l, IndexRows(t), key);
    if t.Some? { KeysShort(l, t.value, None, None, None); }
  }

  /** A tree of one leaf. */
  lemma FirstInsert(l: Layout, pages: Pages, next: nat, e: Entry)
    requires l.Valid() && TotalOrder(l.before) && |e.key| <= l.maxKeyLen
    ensures var leaf := L.Leaf([e], [], None);
            && IndexOk(l, Put(pages, next, LeafPage(leaf)), next + 1, Some(next), Some(next), Some(Lf(next, leaf)))
            && Rows(Lf(next, leaf)) == [e]
  {
    Thresholds(l);
    L.UsedOne(e);
    var leaf := L.Leaf([e], [], None);
    assert L.Items(leaf) == [L.Item(e, true)];
    L.LiveOne(L.Item(e, true));
  }

  lemma EmptyInsert(l: Layout, e: Entry)
    requires TotalOrder(l.before)
    ensures L.Insert(l, L.Leaf([], [], None), e) == Some(L.Leaf([e], [], None))
  {
    var none: seq<Entry> := [];
    assert L.LowerBound(l, none, e.key) == 0 && none[..0] + [e] + none[0..] == [e];
    assert L.MovedUp([], 0, 1) == [];
  }

  lemma OneRow(e: Entry)
    ensures MapOf([e]) == map[e.key := e.rid]
  {
    assert Base.Init([e]) == [];
  }

  /** The record id under `key`. */
  method SearchKey(l: Layout, pages: Pages, root: Option<nat>, key: Key, ghost next: nat, ghost first: Option<nat>,
                   ghost t: Option<Tree>) returns (r: Option<RecordId>)
    requires TotalOrder(l.before) && IndexOk(l, pages, next, root, first, t)
    ensures r == Find(MapIn(t), key)
  {
    IndexSorted(l, pages, next, root, first, t);
    if |key| > l.maxKeyLen {
      LongKeyAbsent(l, pages, next, root, first, t, key);
      return None;
    } else if root.None? {
      return None;
    }
    var leafId;
    ghost var path, cur;
    leafId, path, cur := FindLeaf(l, pages, root.value, t.value, key);
    var leaf := pages[leafId].leaf;
    r := L.Get(l, leaf, key);
    L.GetFindsRow(l, leaf, key);
    HasUp(l, t.value, path, cur, key);
    KeyIn(l, IndexRows(t), key);
    if r.Some? {
      RowUp(t.value, path, cur, L.Entry(key, r.value));
      MapIs(l, IndexRows(t), key, r.value);
    }
  }

  /** A row of a subtree is a row of the tree. */
  lemma {:induction false} RowUp(root: Tree, path: Path, cur: Tree, e: Entry)
    requires Leads(root, path, cur) && e in Rows(cur)
    ensures e in Rows(root)
    decreases path
  {
    if path.Under? {
      RowsAround(path.t.kids, path.i);
      RowUp(root, path.up, path.t, e);
    }
  }

  // ---------------------------------------------------------------- insert and remove

  /** Inserts, first into the leaf alone, and with the path to it latched when that has no room. */
  method InsertEntry(l: Layout, pages: Pages, next: nat, root: Option<nat>, first: Option<nat>, e: Entry,
                     ghost t: Option<Tree>)
    returns (r: Outcome, pages': Pages, next': nat, root': Option<nat>, first': Option<nat>, ghost t': Option<Tree>)
    requires l.Valid() && TotalOrder(l.before) && IndexOk(l, pages, next, root, first, t)
    ensures IndexOk(l, pages', next', root', first', t')
    ensures r == if |e.key| > l.maxKeyLen then KeyTooLong else if e.key in MapIn(t) then DuplicateKey else Done
    ensures r == Done ==> MapIn(t') == MapIn(t)[e.key := e.rid]
    ensures r != Done ==> pages' == pages && next' == next && root' == root && first' == first && t' == t
    ensures EvenIn(l, |e.key|, t) ==> EvenIn(l, |e.key|, t')
  {
    IndexSorted(l, pages, next, root, first, t);
    if |e.key| > l.maxKeyLen {
      return KeyTooLong, pages, next, root, first, t;
    }
    if root.None? {
      EmptyInsert(l, e);
      FirstInsert(l, pages, next, e);
      OneRow(e);
      var leaf := L.Insert(l, L.Leaf([], [], None), e).value;
      return Done, Put(pages, next, LeafPage(leaf)), next + 1, Some(next), Some(next), Some(Lf(next, leaf));
    }
    KeyIn(l, IndexRows(t), e.key);
    var leafId;
    ghost var path, cur;
    leafId, path, cur := FindLeaf(l, pages, root.value, t.value, e.key);
    if leafId != root.value {
      var leaf := pages[leafId].leaf;
      var inserted := L.Insert(l, leaf, e);
      if inserted.None? {
        L.InsertRows(l, leaf, e);
        HasUp(l, t.value, path, cur, e.key);
        return DuplicateKey, pages, next, root, first, t;
      }
      if L.Fits(l, inserted.value) {
        LeafStays(l, pages, next, t.value, path, cur, e);
        if EvenIn(l, |e.key|, t) { LeafGrowsEven(l, |e.key|, t.value, path, cur, e); }
        ghost var n := Plug(path, Lf(leafId, inserted.value));
        InsertedMap(l, IndexRows(t), Rows(n), e);
        return Done, Put(pages, leafId, LeafPage(inserted.value)), next, root, first, Some(n);
      }
    }
    var rootId;
    ghost var n;
    r, pages', next', rootId, n := InsertPessimistic(l, pages, next, root.value, e, t.value);
    if r == Done { InsertedMap(l, IndexRows(t), Rows(n), e); }
    root', first', t' := Some(rootId), first, Some(n);
  }

  /** Removes, first from the leaf alone, and with the path to it latched when that may leave it underfull. */
  method RemoveKey(l: Layout, pages: Pages, root: Option<nat>, first: Option<nat>, key: Key, ghost next: nat,
                   ghost t: Option<Tree>)
    returns (r: Outcome, pages': Pages, root': Option<nat>, first': Option<nat>, ghost t': Option<Tree>)
    requires l.Valid() && TotalOrder(l.before) && IndexOk(l, pages, next, root, first, t)
    ensures IndexOk(l, pages', next, root', first', t')
    ensures r == if key in MapIn(t) then Done else KeyNotFound
    ensures r == Done ==> MapIn(t') == MapIn(t) - {key}
    ensures r != Done ==> pages' == pages && root' == root && first' == first && t' == t
    ensures EvenIn(l, |key|, t) ==> EvenIn(l, |key|, t')
  {
    IndexSorted(l, pages, next, root, first, t);
    if |key| > l.maxKeyLen {
      LongKeyAbsent(l, pages, next, root, first, t, key);
      return KeyNotFound, pages, root, first, t;
    } else if root.None? {
      return KeyNotFound, pages, root, first, t;
    }
    KeyIn(l, IndexRows(t), key);
    var leafId;
    ghost var path, cur;
    leafId, path, cur := FindLeaf(l, pages, root.value, t.value, key);
    if leafId != root.value {
      var leaf := pages[leafId].leaf;
      L.RemoveOk(l, leaf, key);
      HasUp(l, t.value, path, cur, key);
      var removed := L.Remove(l, leaf, key);
      if removed.None? {
        return KeyNotFound, pages, root, first, t;
      } else if SafeForRemove(l, pages[leafId]) {
        LeafShrinksUp(l, pages, t.value, path, cur, key, next);
        LeafWritten(l, pages, t.value, path, cur, Lf(leafId, removed.value), key, next);
        if EvenIn(l, |key|, t) { RemovedShort(l, |key|, t.value, path, cur, key); }
        ghost var n := Plug(path, Lf(leafId, removed.value));
        RemovedMap(l, IndexRows(t), Rows(n), key);
        return Done, Put(pages, leafId, LeafPage(removed.value)), root, first, Some(n);
      }
    }
    r, pages', root', t' := RemovePessimistic(l, pages, root.value, key, next, t.value);
    if r == Done { RemovedMap(l, IndexRows(t), IndexRows(t'), key); }
    first' := if root'.None? then None else first;
  }

  /** The rows of a range, in key order, with no writer running. */
  method ScanAll(l: Layout, pages: Pages, root: Option<nat>, first: Option<nat>, lo: Bound, hi: Bound,
                 ghost next: nat, ghost t: Option<Tree>)
    returns (rows: seq<Entry>)
    requires TotalOrder(l.before) && IndexOk(l, pages, next, root, first, t)
    ensures rows == InRange(l, IndexRows(t), lo, hi)
  {
    var cursor := new Cursor(l, pages, root, first, lo, hi, t);
    rows := [];
    ghost var ahead, all := cursor.Ahead(), InRange(l, IndexRows(t), lo, hi);
    while true
      invariant cursor.Valid() && fresh(cursor) && ahead == cursor.Ahead() && rows + ahead == all
      decreases |ahead|
    {
      ghost var was := ahead;
      var row, cycle := cursor.Next();
      ahead := cursor.Ahead();
      if row.None? {
        assert rows + [] == rows;
        return;
      }
      MovesOver(rows, row.value, was, ahead);
      rows := rows + [row.value];
    }
  }

  lemma MovesOver<T>(rows: seq<T>, row: T, was: seq<T>, ahead: seq<T>)
    requires was != [] && row == was[0] && ahead == was[1..]
    ensures (rows + [row]) + ahead == rows + was
  {}

  /** Scanning everything returns the map's entries in key order. */
  lemma {:induction false} WholeRange(l: Layout, rows: seq<Entry>)
    ensures InRange(l, rows, Unbounded, Unbounded) == rows
  {
    if rows != [] { WholeRange(l, rows[1..]); }
  }

  /** Which keys a scan returns. */
  lemma {:induction false} RangeHolds(l: Layout, rows: seq<Entry>, lo: Bound, hi: Bound, e: Entry)
    ensures e in InRange(l, rows, lo, hi) <==> e in rows && FromBound(l, e.key, lo) && UpToBound(l, e.key, hi)
  {
    if rows != [] {
      RangeHolds(l, rows[1..], lo, hi, e);
      assert rows == [rows[0]] + rows[1..];
    }
  }

  class Index {
    const l: Layout
    var pages: Pages
    var next: nat
    var root: Option<nat>
    var firstLeaf: Option<nat>
    ghost var tree: Option<Tree>

    ghost predicate Valid()
      reads this
    {
      l.Valid() && TotalOrder(l.before) && IndexOk(l, pages, next, root, firstLeaf, tree)
    }

    ghost function Contents(): map<Key, RecordId>
      reads this
    {
      MapIn(tree)
    }

    constructor (l: Layout)
      requires l.Valid() && TotalOrder(l.before)
      ensures Valid() && this.l == l && Contents() == map[] && forall n :: EvenIn(l, n, tree)
    {
      this.l, pages, next, root, firstLeaf, tree := l, map[], 0, None, None, None;
    }

    method Insert(key: Key, rid: RecordId) returns (r: Outcome)
      requires Valid()
      modifies this
      ensures Valid()
      ensures r == if |key| > l.maxKeyLen then KeyTooLong else if key in old(Contents()) then DuplicateKey else Done
      ensures Contents() == if r == Done then old(Contents())[key := rid] else old(Contents())
      ensures old(EvenIn(l, |key|, tree)) ==> EvenIn(l, |key|, tree)
    {
      r, pages, next, root, firstLeaf, tree := InsertEntry(l, pages, next, root, firstLeaf, L.Entry(key, rid), tree);
    }

    method Remove(key: Key) returns (r: Outcome)
      requires Valid()
      modifies this
      ensures Valid()
      ensures r == if key in old(Contents()) then Done else KeyNotFound
      ensures Contents() == old(Contents()) - {key}
      ensures old(EvenIn(l, |key|, tree)) ==> EvenIn(l, |key|, tree)
    {
      r, pages, root, firstLeaf, tree := RemoveKey(l, pages, root, firstLeaf, key, next, tree);
    }

    method Search(key: Key) returns (r: Option<RecordId>)
      requires Valid()
      ensures r == Find(Contents(), key)
    {
      r := SearchKey(l, pages, root, key, next, firstLeaf, tree);
    }

    method Scan(lo: Bound, hi: Bound) returns (rows: seq<Entry>)
      requires Valid()
      ensures L.Sorted(l, rows)
      ensures forall k, v :: L.Entry(k, v) in rows <==>
                && Find(Contents(), k) == Some(v)
                && (lo.Included? ==> !l.before(k, lo.key)) && (lo.Excluded? ==> l.before(lo.key, k))
                && (hi.Included? ==> !l.before(hi.key, k)) && (hi.Excluded? ==> l.before(k, hi.key))
    {
      rows := ScanAll(l, pages, root, firstLeaf, lo, hi, next, tree);
      IndexSorted(l, pages, next, root, firstLeaf, tree);
      RangeSorted(l, IndexRows(tree), lo, hi);
      forall k, v
        ensures L.Entry(k, v) in rows <==>
          Find(Contents(), k) == Some(v) && FromBound(l, k, lo) && UpToBound(l, k, hi) {
        RangeHolds(l, IndexRows(tree), lo, hi, L.Entry(k, v));
        MapIs(l, IndexRows(tree), k, v);
      }
    }
  }

  lemma {:induction false} RangeSorted(l: Layout, rows: seq<Entry>, lo: Bound, hi: Bound)
    requires L.Sorted(l, rows)
    ensures L.Sorted(l, InRange(l, rows, lo, hi))
  {
    if rows != [] {
      RangeSorted(l, rows[1..], lo, hi);
      forall e | e in InRange(l, rows[1..], lo, hi) ensures l.before(rows[0].key, e.key) {
        RangeHolds(l, rows[1..], lo, hi, e);
      }
    }
  }
}
