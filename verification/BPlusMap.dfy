/** The B+ tree index as a sorted map: search, insert, remove and range scans. */
module BPlusMap {
  import opened Base
  import opened BPlusLayout
  import opened BPlusTree
  import opened BPlusPages
  import opened BPlusIndex
  import opened BPlusRemove
  import L = BPlusLeaf

  type Entry = L.Entry

  // ---------------------------------------------------------------- rows are a sorted map

  lemma SortedAppend(l: Layout, a: seq<Entry>, b: seq<Entry>)
    requires L.Sorted(l, a) && L.Sorted(l, b) && forall j :: 0 <= j < |b| ==> AllBefore(l, a, b[j].key)
    ensures L.Sorted(l, a + b)
  {
    var s := a + b;
    forall i, j | 0 <= i < j < |s| ensures l.before(s[i].key, s[j].key) {
      if i < |a| <= j { assert AllBefore(l, a, b[j - |a|].key); }
    }
  }

  lemma {:induction false} LiveSorted(l: Layout, items: seq<L.Item>)
    requires forall i, j :: 0 <= i < j < |items| ==> l.before(items[i].entry.key, items[j].entry.key)
    ensures L.Sorted(l, L.LiveOf(items))
  {
    if items != [] {
      var init, last := Base.Init(items), Last(items);
      LiveSorted(l, init);
      forall i | 0 <= i < |L.LiveOf(init)| ensures l.before(L.LiveOf(init)[i].key, last.entry.key) {
        L.LiveAreItems(init, L.LiveOf(init)[i]);
      }
    }
  }

  /** Rows are in key order. */
  lemma {:induction false} RowsSorted(l: Layout, t: Tree, lo: Option<Key>, hi: Option<Key>, after: Option<nat>)
    requires TotalOrder(l.before) && TreeOk(l, t, lo, hi, after)
    ensures L.Sorted(l, Rows(t))
    decreases t, 1
  {
    match t
    case Lf(_, leaf) => LiveSorted(l, L.Items(leaf));
    case Nd(id, keys, kids) =>
      assert kids[..|kids|] == kids;
      KidsSorted(l, t, lo, hi, after, |kids|);
  }

  lemma {:induction false} KidsSorted(l: Layout, t: Tree, lo: Option<Key>, hi: Option<Key>, after: Option<nat>, n: nat)
    requires TotalOrder(l.before) && TreeOk(l, t, lo, hi, after) && t.Nd? && n <= |t.kids|
    ensures L.Sorted(l, RowsOf(t.kids[..n]))
    decreases t, 0, n
  {
    if n > 0 {
      var keys, kids, m := t.keys, t.kids, n - 1;
      var kid := kids[m];
      KidsSorted(l, t, lo, hi, after, m);
      RowsSorted(l, kid, LoAt(keys, lo, m), HiAt(keys, hi, m), NextAt(kids, after, m));
      KidAfterOthers(l, t, lo, hi, after, m);
      SortedAppend(l, RowsOf(kids[..m]), Rows(kid));
      OneMoreKid(kids, m);
    }
  }

  lemma OneMoreKid(kids: seq<Tree>, m: nat)
    requires m < |kids|
    ensures RowsOf(kids[..m + 1]) == RowsOf(kids[..m]) + Rows(kids[m])
  {
    assert kids[..m + 1] == kids[..m] + [kids[m]];
    RowsAppend(kids[..m], [kids[m]]);
    RowsOne(kids[m]);
  }

  /** The rows of a child come after those of the children before it. */
  lemma KidAfterOthers(l: Layout, t: Tree, lo: Option<Key>, hi: Option<Key>, after: Option<nat>, m: nat)
    requires TotalOrder(l.before) && TreeOk(l, t, lo, hi, after) && t.Nd? && m < |t.kids|
    ensures forall j :: 0 <= j < |Rows(t.kids[m])| ==> AllBefore(l, RowsOf(t.kids[..m]), Rows(t.kids[m])[j].key)
  {
    var keys, kids, kid := t.keys, t.kids, t.kids[m];
    RowsWithin(l, kid, LoAt(keys, lo, m), HiAt(keys, hi, m), NextAt(kids, after, m));
    assert NodeOk(l, keys, kids, lo, hi, after) by { TreeIsNode(l, t.id, keys, kids, lo, hi, after); }
    forall j | 0 <= j < |Rows(kid)| ensures AllBefore(l, RowsOf(kids[..m]), Rows(kid)[j].key) {
      RowsBeside(l, keys, kids, lo, hi, after, Rows(kid)[j].key, m);
    }
  }

  /** What the rows map keys to. */
  function MapOf(rows: seq<Entry>): map<Key, RecordId> {
    if rows == [] then map[] else MapOf(Base.Init(rows))[Last(rows).key := Last(rows).rid]
  }

  /** The map holds exactly the rows. */
  lemma {:induction false} MapIs(l: Layout, rows: seq<Entry>, k: Key, v: RecordId)
    requires TotalOrder(l.before) && L.Sorted(l, rows)
    ensures Find(MapOf(rows), k) == Some(v) <==> L.Entry(k, v) in rows
  {
    if rows != [] {
      var init, last := Base.Init(rows), Last(rows);
      MapIs(l, init, k, v);
      assert rows == init + [last];
      assert k == last.key ==> L.Entry(k, v) !in init;
    }
  }

  lemma MapsAgree<V>(a: map<Key, V>, b: map<Key, V>)
    requires forall k, v :: Find(a, k) == Some(v) <==> Find(b, k) == Some(v)
    ensures a == b
  {
    forall k ensures Find(a, k) == Find(b, k) {
      if k in a { assert Find(b, k) == Some(a[k]); } else if k in b { assert Find(a, k) == Some(b[k]); }
    }
    forall k ensures k in a <==> k in b { assert Find(a, k) == Find(b, k); }
    forall k | k in a ensures a[k] == b[k] { assert Find(a, k) == Find(b, k); }
  }

  lemma KeyIn(l: Layout, rows: seq<Entry>, k: Key)
    requires TotalOrder(l.before) && L.Sorted(l, rows)
    ensures k in MapOf(rows) <==> L.Has(rows, k)
  {
    if k in MapOf(rows) {
      MapIs(l, rows, k, MapOf(rows)[k]);
    } else if L.Has(rows, k) {
      var i :| 0 <= i < |rows| && rows[i].key == k;
      MapIs(l, rows, k, rows[i].rid);
    }
  }

  /** A new row is one more key of the map. */
  lemma InsertedMap(l: Layout, rows: seq<Entry>, rows': seq<Entry>, e: Entry)
    requires TotalOrder(l.before) && L.Sorted(l, rows) && L.Inserted(l, rows, rows', e)
    ensures L.Sorted(l, rows') && MapOf(rows') == MapOf(rows)[e.key := e.rid]
  {
    var i: nat :| L.InsertedAt(l, rows, rows', e, i);
    L.InsertSorted(l, rows, i, e);
    var a, b := rows[..i], rows[i..];
    assert rows == a + b;
    forall k, v ensures Find(MapOf(rows'), k) == Some(v) <==> Find(MapOf(rows)[e.key := e.rid], k) == Some(v) {
      MapIs(l, rows, k, v);
      MapIs(l, rows', k, v);
      assert k == e.key ==> L.Entry(k, v) !in rows;
    }
    MapsAgree(MapOf(rows'), MapOf(rows)[e.key := e.rid]);
  }

  /** A row that is gone is a key of the map that is gone. */
  lemma RemovedMap(l: Layout, rows: seq<Entry>, rows': seq<Entry>, key: Key)
    requires TotalOrder(l.before) && L.Sorted(l, rows) && L.Removed(rows, rows', key)
    ensures L.Sorted(l, rows') && key in MapOf(rows) && MapOf(rows') == MapOf(rows) - {key}
  {
    var i: nat :| L.RemovedAt(rows, rows', key, i);
    KeyIn(l, rows, key);
    assert L.Sorted(l, rows');
    forall k, v ensures Find(MapOf(rows'), k) == Some(v) <==> Find(MapOf(rows) - {key}, k) == Some(v) {
      MapIs(l, rows, k, v);
      MapIs(l, rows', k, v);
      RowsKept(l, rows, i, L.Entry(k, v));
    }
    MapsAgree(MapOf(rows'), MapOf(rows) - {key});
  }

  lemma RowsKept(l: Layout, rows: seq<Entry>, i: nat, e: Entry)
    requires TotalOrder(l.before) && L.Sorted(l, rows) && i < |rows|
    ensures e in rows[..i] + rows[i + 1..] <==> e in rows && e.key != rows[i].key
  {
    var a, b := rows[..i], rows[i + 1..];
    assert rows == a + [rows[i]] + b;
    assert e.key == rows[i].key ==> e !in a && e !in b;
  }

  // ---------------------------------------------------------------- the leaf chain

  /** The leaves, left to right. */
  function Leaves(t: Tree): seq<Tree> {
    match t
    case Lf(_, _) => [t]
    case Nd(_, _, kids) => LeavesOf(kids)
  }

  function LeavesOf(kids: seq<Tree>): seq<Tree> { if kids == [] then [] else Leaves(kids[0]) + LeavesOf(kids[1..]) }

  /** Each leaf names the next, and the last one names `after`. */
  predicate ChainOk(leaves: seq<Tree>, after: Option<nat>) {
    forall i: nat :: i < |leaves| ==> leaves[i].Lf? && leaves[i].leaf.next == Following(leaves, after, i)
  }

  function Following(leaves: seq<Tree>, after: Option<nat>, i: nat): Option<nat> {
    if i + 1 < |leaves| then Some(leaves[i + 1].id) else after
  }

  lemma ChainAppend(a: seq<Tree>, b: seq<Tree>, after: Option<nat>)
    requires b != [] && ChainOk(a, Some(b[0].id)) && ChainOk(b, after)
    ensures ChainOk(a + b, after)
  {
    var s := a + b;
    forall i: nat | i < |s| ensures s[i].Lf? && s[i].leaf.next == Following(s, after, i) {
      if i < |a| {
        assert Following(a, Some(b[0].id), i) == Following(s, after, i);
      } else {
        assert Following(b, after, i - |a|) == Following(s, after, i);
      }
    }
  }

  /** Following the chain from the first leaf visits the leaves of the tree in order. */
  lemma {:induction false} ChainIsInOrder(l: Layout, t: Tree, lo: Option<Key>, hi: Option<Key>, after: Option<nat>)
    requires TreeOk(l, t, lo, hi, after)
    ensures |Leaves(t)| > 0 && ChainOk(Leaves(t), after) && Leaves(t)[0].id == First(t)
    decreases t, 1
  {
    if t.Nd? {
      KidsChain(l, t, lo, hi, after, 0);
    }
  }

  lemma {:induction false} KidsChain(l: Layout, t: Tree, lo: Option<Key>, hi: Option<Key>, after: Option<nat>, n: nat)
    requires TreeOk(l, t, lo, hi, after) && t.Nd? && n < |t.kids|
    ensures var leaves := LeavesOf(t.kids[n..]);
            |leaves| > 0 && ChainOk(leaves, after) && leaves[0].id == First(t.kids[n])
    decreases t, 0, |t.kids| - n
  {
    var kid, rest := t.kids[n], t.kids[n + 1..];
    assert t.kids[n..][0] == kid && t.kids[n..][1..] == rest;
    ChainIsInOrder(l, kid, LoAt(t.keys, lo, n), HiAt(t.keys, hi, n), NextAt(t.kids, after, n));
    if rest == [] {
      assert LeavesOf(t.kids[n..]) == Leaves(kid);
    } else {
      KidsChain(l, t, lo, hi, after, n + 1);
      ChainAppend(Leaves(kid), LeavesOf(rest), after);
    }
  }

  /** The rows of the leaves are the rows of the tree. */
  lemma {:induction false} LeavesRows(t: Tree)
    ensures RowsOf(Leaves(t)) == Rows(t)
    decreases t, 1
  {
    if t.Lf? { RowsOne(t); } else { LeavesOfRows(t, 0); }
  }

  lemma {:induction false} LeavesOfRows(t: Tree, n: nat)
    requires t.Nd? && n <= |t.kids|
    ensures RowsOf(LeavesOf(t.kids[n..])) == RowsOf(t.kids[n..])
    decreases t, 0, |t.kids| - n
  {
    if n < |t.kids| {
      assert t.kids[n..][0] == t.kids[n] && t.kids[n..][1..] == t.kids[n + 1..];
      LeavesRows(t.kids[n]);
      LeavesOfRows(t, n + 1);
      RowsAppend(Leaves(t.kids[n]), LeavesOf(t.kids[n + 1..]));
    }
  }

  lemma {:induction false} LeavesStored(pages: Pages, t: Tree)
    requires Holds(pages, t) && DistinctIds(t)
    ensures HoldsAll(pages, Leaves(t)) && DistinctKids(Leaves(t)) && AllIdsOf(Leaves(t)) <= AllIds(t)
    decreases t, 1
  {
    if t.Lf? {
      AllIdsOne(t);
      DistinctOne(t);
    } else {
      LeavesOfStored(pages, t, 0);
    }
  }

  lemma {:induction false} LeavesOfStored(pages: Pages, t: Tree, n: nat)
    requires t.Nd? && n <= |t.kids| && HoldsAll(pages, t.kids) && DistinctKids(t.kids[n..])
    ensures var leaves := LeavesOf(t.kids[n..]);
            HoldsAll(pages, leaves) && DistinctKids(leaves) && AllIdsOf(leaves) <= AllIdsOf(t.kids[n..])
    decreases t, 0, |t.kids| - n
  {
    if n < |t.kids| {
      var kid, rest := t.kids[n], t.kids[n + 1..];
      assert t.kids[n..][0] == kid && t.kids[n..][1..] == rest;
      LeavesStored(pages, kid);
      LeavesOfStored(pages, t, n + 1);
      DistinctKidsAppend(Leaves(kid), LeavesOf(rest));
      AllIdsAppend(Leaves(kid), LeavesOf(rest));
    }
  }

  lemma LeavesAppend(a: seq<Tree>, b: seq<Tree>)
    ensures LeavesOf(a + b) == LeavesOf(a) + LeavesOf(b)
  {
    if a == [] {
      assert a + b == b;
    } else {
      assert (a + b)[0] == a[0] && (a + b)[1..] == a[1..] + b;
      LeavesAppend(a[1..], b);
    }
  }

  /** The leaves before and after a descent's. */
  ghost function LeavesBefore(path: Path): seq<Tree> {
    if path.Under? && path.t.Nd? && path.i < |path.t.kids|
        then LeavesBefore(path.up) + LeavesOf(path.t.kids[..path.i]) else []
  }

  ghost function LeavesAfter(path: Path): seq<Tree> {
    if path.Under? && path.t.Nd? && path.i < |path.t.kids|
        then LeavesOf(path.t.kids[path.i + 1..]) + LeavesAfter(path.up) else []
  }

  lemma {:induction false} LeafPlace(root: Tree, path: Path, cur: Tree)
    requires Leads(root, path, cur)
    ensures Leaves(root) == LeavesBefore(path) + Leaves(cur) + LeavesAfter(path)
    decreases path
  {
    if path.Under? {
      LeafPlace(root, path.up, path.t);
      var a, b := path.t.kids[..path.i], path.t.kids[path.i + 1..];
      LeavesAppend(a, [cur] + b);
      assert path.t.kids == a + ([cur] + b) && ([cur] + b)[0] == cur && ([cur] + b)[1..] == b;
    }
  }

  lemma KidsLeavesRows(kids: seq<Tree>)
    ensures RowsOf(LeavesOf(kids)) == RowsOf(kids)
  {
    LeavesOfRows(Nd(0, [], kids), 0);
    assert kids[0..] == kids;
  }

  /** The rows before the leaf for `key` come before it, and those after the leaf come after it. */
  lemma {:induction false} BesideLeaf(l: Layout, root: Tree, path: Path, cur: Tree, key: Key)
    requires TotalOrder(l.before) && Leads(root, path, cur) && PathOk(l, path, key)
    ensures AllBefore(l, RowsOf(LeavesBefore(path)), key) && AllAfter(l, key, RowsOf(LeavesAfter(path)))
    decreases path
  {
    if path.Under? {
      BesideLeaf(l, root, path.up, path.t, key);
      BesideKid(l, path, key);
      BesideBefore(l, LeavesBefore(path.up), path.t.kids[..path.i], key);
      BesideAfter(l, path.t.kids[path.i + 1..], LeavesAfter(path.up), key);
    }
  }

  lemma BesideBefore(l: Layout, leaves: seq<Tree>, kids: seq<Tree>, key: Key)
    requires AllBefore(l, RowsOf(leaves), key) && AllBefore(l, RowsOf(kids), key)
    ensures AllBefore(l, RowsOf(leaves + LeavesOf(kids)), key)
  {
    KidsLeavesRows(kids);
    RowsAppend(leaves, LeavesOf(kids));
  }

  lemma BesideAfter(l: Layout, kids: seq<Tree>, leaves: seq<Tree>, key: Key)
    requires AllAfter(l, key, RowsOf(kids)) && AllAfter(l, key, RowsOf(leaves))
    ensures AllAfter(l, key, RowsOf(LeavesOf(kids) + leaves))
  {
    KidsLeavesRows(kids);
    RowsAppend(LeavesOf(kids), leaves);
  }

  lemma BesideKid(l: Layout, path: Path, key: Key)
    requires TotalOrder(l.before) && path.Under? && PathOk(l, path, key) && path.i < |path.t.kids|
    ensures AllBefore(l, RowsOf(path.t.kids[..path.i]), key) && AllAfter(l, key, RowsOf(path.t.kids[path.i + 1..]))
  {
    var t, lo, hi, after := path.t, PathLo(path.up), PathHi(path.up), PathAfter(path.up);
    TreeIsNode(l, t.id, t.keys, t.kids, lo, hi, after);
    ChildWithin(l, t.keys, lo, hi, key);
    RowsBeside(l, t.keys, t.kids, lo, hi, after, key, path.i);
  }
}
