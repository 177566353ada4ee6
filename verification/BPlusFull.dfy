/** How full the pages of a B+ tree stay: with keys of one length, every page but the root keeps at least the
    minimum, although tombstones count as entries until they are purged. */
module BPlusFull {
  import opened Base
  import opened BPlusLayout
  import opened BPlusTree
  import opened BPlusPages
  import L = BPlusLeaf

  predicate Sized(n: nat, keys: seq<Key>) { forall i :: 0 <= i < |keys| ==> |keys[i]| == n }

  predicate SizedLeaf(n: nat, leaf: L.Leaf) { forall i :: 0 <= i < |leaf.entries| ==> |leaf.entries[i].key| == n }

  /** The page holds at least the minimum. */
  predicate FullPage(l: Layout, t: Tree) {
    match t
    case Lf(_, leaf) => L.Used(leaf.entries) >= l.LeafMin()
    case Nd(_, keys, _) => Used(keys) >= l.InternalMin()
  }

  /** All keys have length `n`, and every page is full. */
  predicate Even(l: Layout, n: nat, t: Tree) {
    && FullPage(l, t)
    && match t
       case Lf(_, leaf) => SizedLeaf(n, leaf)
       case Nd(_, keys, kids) => Sized(n, keys) && forall i :: 0 <= i < |kids| ==> Even(l, n, kids[i])
  }

  /** The same of every page but the topmost, as of a root. */
  predicate EvenBelow(l: Layout, n: nat, t: Tree) {
    match t
    case Lf(_, leaf) => SizedLeaf(n, leaf)
    case Nd(_, keys, kids) => Sized(n, keys) && forall i :: 0 <= i < |kids| ==> Even(l, n, kids[i])
  }

  /** And the topmost page is at most one entry short of the minimum. */
  predicate Short(l: Layout, n: nat, t: Tree) {
    && EvenBelow(l, n, t)
    && match t
       case Lf(_, leaf) => L.Used(leaf.entries) + LeafCost(n) >= l.LeafMin()
       case Nd(_, keys, _) => Used(keys) + InternalCost(n) >= l.InternalMin()
  }

  // ---------------------------------------------------------------- along a path

  /** The pages along a path and beside it are as they should be. */
  ghost predicate PathEven(l: Layout, n: nat, path: Path) {
    match path
    case Top => true
    case Under(up, t, i) =>
      && t.Nd? && i < |t.kids| && Sized(n, t.keys) && (up.Under? ==> Used(t.keys) >= l.InternalMin())
      && (forall j :: 0 <= j < |t.kids| && j != i ==> Even(l, n, t.kids[j]))
      && PathEven(l, n, up)
  }

  lemma {:induction false} LeadsEven(l: Layout, n: nat, root: Tree, path: Path, cur: Tree)
    requires Leads(root, path, cur) && EvenBelow(l, n, root)
    ensures PathEven(l, n, path) && EvenBelow(l, n, cur) && (path.Under? ==> Even(l, n, cur))
    decreases path
  {
    if path.Under? { LeadsEven(l, n, root, path.up, path.t); }
  }

  /** Every page of the tree but the root is full. */
  lemma PagesFull(l: Layout, n: nat, root: Tree, path: Path, cur: Tree)
    requires EvenBelow(l, n, root) && Leads(root, path, cur) && path.Under?
    ensures cur.Nd? ==> Used(cur.keys) >= l.InternalMin()
    ensures cur.Lf? ==> L.Used(cur.leaf.entries) >= l.LeafMin()
  {
    LeadsEven(l, n, root, path, cur);
  }

  lemma {:induction false} PlugEven(l: Layout, n: nat, path: Path, c: Tree)
    requires PathEven(l, n, path) && EvenBelow(l, n, c) && (path.Under? ==> Even(l, n, c))
    ensures EvenBelow(l, n, Plug(path, c))
    decreases path
  {
    if path.Under? {
      var t := Nd(path.t.id, path.t.keys, path.t.kids[path.i := c]);
      assert forall j :: 0 <= j < |t.kids| ==> Even(l, n, t.kids[j]);
      PlugEven(l, n, path.up, t);
    }
  }

  // ---------------------------------------------------------------- inserting

  lemma LeafInserts(l: Layout, n: nat, leaf: L.Leaf, e: Entry)
    requires TotalOrder(l.before) && L.LeafOk(l, leaf) && |e.key| == n <= l.maxKeyLen && SizedLeaf(n, leaf)
             && L.Insert(l, leaf, e).Some?
    ensures var leaf' := L.Insert(l, leaf, e).value;
            SizedLeaf(n, leaf') && L.Used(leaf'.entries) >= L.Used(leaf.entries)
  {
    L.InsertOk(l, leaf, e);
  }

  /** An entry put into a leaf with room. */
  lemma LeafGrowsEven(l: Layout, n: nat, root: Tree, path: Path, cur: Tree, e: Entry)
    requires TotalOrder(l.before) && EvenBelow(l, n, root) && Leads(root, path, cur) && cur.Lf?
             && L.LeafOk(l, cur.leaf) && |e.key| == n <= l.maxKeyLen && L.Insert(l, cur.leaf, e).Some?
    ensures EvenBelow(l, n, Plug(path, Lf(cur.id, L.Insert(l, cur.leaf, e).value)))
  {
    LeadsEven(l, n, root, path, cur);
    LeafInserts(l, n, cur.leaf, e);
    PlugEven(l, n, path, Lf(cur.id, L.Insert(l, cur.leaf, e).value));
  }

  /** A page that has become two: both are full, and so is everything beside the path. */
  ghost predicate EvenSplit(l: Layout, n: nat, path: Path, a: Tree, sep: Key, b: Tree) {
    PathEven(l, n, path) && Even(l, n, a) && Even(l, n, b) && |sep| == n
  }

  lemma LeafSplitsEven(l: Layout, n: nat, root: Tree, path: Path, cur: Tree, e: Entry, mid: nat, a: Tree, b: Tree)
    requires TotalOrder(l.before) && EvenBelow(l, n, root) && Leads(root, path, cur) && cur.Lf?
             && L.LeafOk(l, cur.leaf) && |e.key| == n <= l.maxKeyLen && L.Insert(l, cur.leaf, e).Some?
    requires var entries := L.Insert(l, cur.leaf, e).value.entries;
             && mid < |entries| && L.Used(entries[..mid]) >= l.LeafMin() && L.Used(entries[mid..]) >= l.LeafMin()
             && a.Lf? && b.Lf? && a.leaf.entries == entries[..mid] && b.leaf.entries == entries[mid..]
    ensures EvenSplit(l, n, path, a, L.Insert(l, cur.leaf, e).value.entries[mid].key, b)
  {
    LeadsEven(l, n, root, path, cur);
    LeafInserts(l, n, cur.leaf, e);
  }

  /** The children of a parent that has taken a separator, and its keys. */
  lemma TakenEven(l: Layout, n: nat, path: Path, a: Tree, sep: Key, b: Tree)
    requires path.Under? && EvenSplit(l, n, path, a, sep, b) && |path.t.kids| == |path.t.keys| + 1
    ensures Sized(n, TakenKeys(path.t, path.i, sep))
    ensures forall j :: 0 <= j < |TakenKids(path.t, path.i, a, b)| ==> Even(l, n, TakenKids(path.t, path.i, a, b)[j])
    ensures path.up.Under? ==> Used(TakenKeys(path.t, path.i, sep)) >= l.InternalMin()
  {
    UsedInsert(path.t.keys, path.i, sep);
  }

  lemma TakesEven(l: Layout, n: nat, path: Path, a: Tree, sep: Key, b: Tree)
    requires path.Under? && EvenSplit(l, n, path, a, sep, b) && |path.t.kids| == |path.t.keys| + 1
    ensures EvenBelow(l, n,
            Plug(path.up, Nd(path.t.id, TakenKeys(path.t, path.i, sep), TakenKids(path.t, path.i, a, b))))
  {
    TakenEven(l, n, path, a, sep, b);
    PlugEven(l, n, path.up, Nd(path.t.id, TakenKeys(path.t, path.i, sep), TakenKids(path.t, path.i, a, b)));
  }

  lemma HalvesEven(l: Layout, n: nat, path: Path, a: Tree, sep: Key, b: Tree, mid: nat, a': Tree, b': Tree)
    requires path.Under? && EvenSplit(l, n, path, a, sep, b) && |path.t.kids| == |path.t.keys| + 1
    requires var keys, kids := TakenKeys(path.t, path.i, sep), TakenKids(path.t, path.i, a, b);
             && mid < |keys| && Used(keys[..mid]) >= l.InternalMin() && Used(keys[mid + 1..]) >= l.InternalMin()
             && a'.Nd? && a'.keys == keys[..mid] && a'.kids == kids[..mid + 1]
             && b'.Nd? && b'.keys == keys[mid + 1..] && b'.kids == kids[mid + 1..]
    ensures EvenSplit(l, n, path.up, a', TakenKeys(path.t, path.i, sep)[mid], b')
  {
    TakenEven(l, n, path, a, sep, b);
  }

  lemma RootEven(l: Layout, n: nat, id: nat, a: Tree, sep: Key, b: Tree)
    requires Even(l, n, a) && Even(l, n, b) && |sep| == n
    ensures EvenBelow(l, n, Nd(id, [sep], [a, b]))
  {}

  // ---------------------------------------------------------------- how many entries a leaf has

  lemma {:induction false} UsedSized(n: nat, entries: seq<Entry>)
    requires forall i :: 0 <= i < |entries| ==> |entries[i].key| == n
    ensures L.Used(entries) == |entries| * LeafCost(n)
  {
    if entries == [] {
      assert L.Costs(entries) == [];
    } else {
      var init, last := Base.Init(entries), Last(entries);
      UsedSized(n, init);
      L.UsedAppend(init, [last]);
      L.UsedOne(last);
      assert entries == init + [last];
    }
  }

  lemma SizedAmong(n: nat, a: seq<Entry>, b: seq<Entry>)
    requires L.Among(a, b) && forall i :: 0 <= i < |b| ==> |b[i].key| == n
    ensures forall i :: 0 <= i < |a| ==> |a[i].key| == n
  {}

  /** A removal takes at most one entry out of a leaf. */
  lemma LeafShort(l: Layout, n: nat, leaf: L.Leaf, key: Key)
    requires TotalOrder(l.before) && L.LeafOk(l, leaf) && SizedLeaf(n, leaf) && L.Remove(l, leaf, key).Some?
    ensures var leaf' := L.Remove(l, leaf, key).value;
            SizedLeaf(n, leaf') && L.Used(leaf'.entries) + LeafCost(n) >= L.Used(leaf.entries)
  {
    var leaf' := L.Remove(l, leaf, key).value;
    L.RemoveOk(l, leaf, key);
    SizedAmong(n, leaf'.entries, leaf.entries);
    RemovedOne(l, leaf, key);
    OneShorter(n, leaf.entries, leaf'.entries);
  }

  lemma RemovedOne(l: Layout, leaf: L.Leaf, key: Key)
    requires TotalOrder(l.before) && L.LeafOk(l, leaf) && L.Remove(l, leaf, key).Some?
    ensures |L.Remove(l, leaf, key).value.entries| + 1 >= |leaf.entries|
  {
    if l.tombstoneCapacity > 0 && |leaf.dead| >= l.tombstoneCapacity { L.PurgedSlots(leaf); }
  }

  lemma OneShorter(n: nat, a: seq<Entry>, b: seq<Entry>)
    requires |b| + 1 >= |a| && (forall i :: 0 <= i < |a| ==> |a[i].key| == n)
             && (forall i :: 0 <= i < |b| ==> |b[i].key| == n)
    ensures L.Used(b) + LeafCost(n) >= L.Used(a)
  {
    UsedSized(n, a);
    UsedSized(n, b);
    TimesAtLeast(|b| + 1, |a|, LeafCost(n));
  }

  lemma TimesAtLeast(a: nat, b: nat, c: nat)
    requires a >= b
    ensures a * c >= b * c
  {}

  lemma RemovedShort(l: Layout, n: nat, root: Tree, path: Path, cur: Tree, key: Key)
    requires TotalOrder(l.before) && EvenBelow(l, n, root) && Leads(root, path, cur) && cur.Lf?
             && L.LeafOk(l, cur.leaf) && L.Remove(l, cur.leaf, key).Some?
    ensures var c := Lf(cur.id, L.Remove(l, cur.leaf, key).value);
            && PathEven(l, n, path) && EvenBelow(l, n, c) && (path.Under? ==> Short(l, n, c))
            && (path.Top? || !L.Underfull(l, c.leaf) ==> EvenBelow(l, n, Plug(path, c)))
  {
    var c := Lf(cur.id, L.Remove(l, cur.leaf, key).value);
    LeadsEven(l, n, root, path, cur);
    LeafShort(l, n, cur.leaf, key);
    if path.Top? || !L.Underfull(l, c.leaf) { PlugEven(l, n, path, c); }
  }

  // ---------------------------------------------------------------- borrowing and merging

  /** What a page one entry short and the sibling beside it become is full. */
  ghost predicate EvenPair(l: Layout, n: nat, r: Paired) {
    match r
    case Merged(m) => Even(l, n, m)
    case Shared(x, sep, y) => Even(l, n, x) && Even(l, n, y) && |sep| == n
    case Empty => true
  }

  lemma PairsEven(l: Layout, n: nat, a: Tree, sep: Key, b: Tree, right: bool, lo: Option<Key>, hi: Option<Key>,
                  after: Option<nat>)
    requires l.Valid() && TotalOrder(l.before) && Adjacent(l, a, sep, b, lo, hi, after) && |sep| == n
             && Shaped(l, a) && Shaped(l, b)
    requires var c, sibling := if right then a else b, if right then b else a;
             Underfull(l, c) && Short(l, n, c) && Even(l, n, sibling)
    ensures EvenPair(l, n, Pair(l, a, sep, b, right))
  {
    if a.Lf? {
      LeavesPairEven(l, n, a, sep, b, right, lo, hi, after);
    } else {
      NodesPairEven(l, n, a, sep, b, right);
    }
  }

  lemma NodesPairEven(l: Layout, n: nat, a: Tree, sep: Key, b: Tree, right: bool)
    requires a.Nd? && b.Nd? && |sep| == n && Shaped(l, a) && Shaped(l, b)
    requires var c, sibling := if right then a else b, if right then b else a;
             Short(l, n, c) && Even(l, n, sibling)
    ensures EvenPair(l, n, Pair(l, a, sep, b, right))
  {
    if right && CanLend(l, b.keys, true) {
      UsedFirst(b.keys);
      UsedAppend(a.keys, [sep]);
      UsedOne(sep);
    } else if !right && CanLend(l, a.keys, false) {
      UsedLast(a.keys);
      UsedAppend([sep], b.keys);
      UsedOne(sep);
    } else {
      JoinedEven(l, n, a, sep, b);
    }
  }

  lemma JoinedEven(l: Layout, n: nat, a: Tree, sep: Key, b: Tree)
    requires a.Nd? && b.Nd? && |sep| == n && EvenBelow(l, n, a) && EvenBelow(l, n, b)
    requires Used(a.keys) >= l.InternalMin() || Used(b.keys) >= l.InternalMin()
    ensures Even(l, n, Nd(a.id, a.keys + [sep] + b.keys, a.kids + b.kids))
  {
    UsedAppend(a.keys + [sep], b.keys);
    UsedAppend(a.keys, [sep]);
  }

  lemma LeavesPairEven(l: Layout, n: nat, a: Tree, sep: Key, b: Tree, right: bool, lo: Option<Key>, hi: Option<Key>,
                       after: Option<nat>)
    requires l.Valid() && TotalOrder(l.before) && a.Lf? && b.Lf? && Adjacent(l, a, sep, b, lo, hi, after) && |sep| == n
    requires var c, sibling := if right then a else b, if right then b else a;
             Underfull(l, c) && Short(l, n, c) && Even(l, n, sibling)
    ensures EvenPair(l, n, Pair(l, a, sep, b, right))
  {
    AdjacentEntries(l, a.leaf, b.leaf, sep, lo, hi);
    var c, sibling := if right then a.leaf else b.leaf, if right then b.leaf else a.leaf;
    L.BorrowOk(l, c, sibling, right);
    var (c', sibling') := L.Borrow(l, c, sibling, right);
    BorrowSized(n, c, sibling, right, c', sibling');
    BorrowKeeps(l, c, sibling, right);
    PairedEven(l, n, a, sep, b, right, c', sibling');
  }

  lemma BorrowSized(n: nat, c: L.Leaf, sibling: L.Leaf, right: bool, c': L.Leaf, sibling': L.Leaf)
    requires SizedLeaf(n, c) && SizedLeaf(n, sibling)
    requires L.Among(c'.entries, L.Ordered(c.entries, sibling.entries, right))
             && L.Among(sibling'.entries, sibling.entries)
    ensures SizedLeaf(n, c') && SizedLeaf(n, sibling')
  {
    SizedAmong(n, c'.entries, L.Ordered(c.entries, sibling.entries, right));
    SizedAmong(n, sibling'.entries, sibling.entries);
  }

  /** Borrowing takes nothing out of the leaf, and leaves the sibling full. */
  lemma {:induction false} BorrowKeeps(l: Layout, leaf: L.Leaf, sibling: L.Leaf, right: bool)
    requires L.Used(sibling.entries) >= l.LeafMin()
    ensures var (leaf', sibling') := L.Borrow(l, leaf, sibling, right);
            L.Used(leaf'.entries) >= L.Used(leaf.entries) && L.Used(sibling'.entries) >= l.LeafMin()
    decreases |sibling.entries|
  {
    if L.Underfull(l, leaf) && L.CanLend(l, sibling, right) {
      var (leaf1, sibling1) := L.Lent(l, leaf, sibling, right);
      LentKeeps(l, leaf, sibling, right);
      BorrowKeeps(l, leaf1, sibling1, right);
    }
  }

  lemma LentKeeps(l: Layout, leaf: L.Leaf, sibling: L.Leaf, right: bool)
    requires L.CanLend(l, sibling, right)
    ensures var (leaf', sibling') := L.Lent(l, leaf, sibling, right);
            && L.Used(leaf'.entries) >= L.Used(leaf.entries) && L.Used(sibling'.entries) >= l.LeafMin()
            && |sibling'.entries| < |sibling.entries|
  {
    var e, entries := sibling.entries[L.Edge(sibling, right)], sibling.entries;
    L.UsedAppend(leaf.entries, [e]);
    L.UsedAppend([e], leaf.entries);
    L.UsedOne(e);
    if right {
      assert entries == [e] + entries[1..];
      assert entries[..0] + entries[0 + 1..] == entries[1..];
      L.UsedAppend([e], entries[1..]);
    } else {
      assert entries == Base.Init(entries) + [e];
      L.UsedAppend(Base.Init(entries), [e]);
    }
  }

  /** The leaves after borrowing: the child has enough by now, or the two become one. */
  lemma PairedEven(l: Layout, n: nat, a: Tree, sep: Key, b: Tree, right: bool, c: L.Leaf, sibling: L.Leaf)
    requires a.Lf? && b.Lf? && Shaped(l, a) && Shaped(l, b) && L.Together(l, c, sibling, right)
    requires (c, sibling) == if right then L.Borrow(l, a.leaf, b.leaf, true) else L.Borrow(l, b.leaf, a.leaf, false)
    requires SizedLeaf(n, c) && SizedLeaf(n, sibling)
    requires L.Used(c.entries) + LeafCost(n) >= l.LeafMin() && L.Used(sibling.entries) >= l.LeafMin()
    ensures EvenPair(l, n, Pair(l, a, sep, b, right))
  {
    if L.Underfull(l, c) { MergedEven(l, n, if right then c else sibling, if right then sibling else c); }
  }

  // ---------------------------------------------------------------- tombstones with room for all of them

  /** While one leaf has room for the tombstones of both, borrowing moves them along and drops none. */
  lemma {:induction false} BorrowKeepsTombstones(l: Layout, leaf: L.Leaf, sibling: L.Leaf, right: bool)
    requires L.Together(l, leaf, sibling, right) && |leaf.dead| + |sibling.dead| <= l.tombstoneCapacity
    ensures var (leaf', sibling') := L.Borrow(l, leaf, sibling, right);
            L.Ordered(L.Items(leaf'), L.Items(sibling'), right) == L.Ordered(L.Items(leaf), L.Items(sibling), right)
    decreases |sibling.entries|
  {
    if L.Underfull(l, leaf) && L.CanLend(l, sibling, right) {
      var (leaf1, sibling1) := L.Lent(l, leaf, sibling, right);
      L.LentOk(l, leaf, sibling, right);
      LentItems(l, leaf, sibling, right);
      BorrowKeepsTombstones(l, leaf1, sibling1, right);
    }
  }

  lemma LentItems(l: Layout, leaf: L.Leaf, sibling: L.Leaf, right: bool)
    requires L.SlotsOk(leaf) && L.SlotsOk(sibling) && sibling.entries != []
             && |leaf.dead| + |sibling.dead| <= l.tombstoneCapacity
    ensures var (leaf', sibling') := L.Lent(l, leaf, sibling, right);
            && |leaf'.dead| + |sibling'.dead| <= l.tombstoneCapacity
            && L.Ordered(L.Items(leaf'), L.Items(sibling'), right) == L.Ordered(L.Items(leaf), L.Items(sibling), right)
  {
    var item := L.Items(sibling)[L.Edge(sibling, right)];
    PoppedDead(sibling, right);
    L.PushedSlots(leaf, item, right);
    PushedAfter(leaf, item, right);
    PoppedBefore(sibling, right);
    L.OrderedTurns(L.Items(leaf), [item], L.Items(L.Popped(sibling, right)), right);
  }

  lemma PushedAfter(leaf: L.Leaf, item: L.Item, right: bool)
    requires L.SlotsOk(leaf)
    ensures L.Items(L.Pushed(leaf, item, right)) == L.Ordered(L.Items(leaf), [item], right)
  {
    L.PushedItems(leaf, item, right);
  }

  lemma PoppedBefore(leaf: L.Leaf, right: bool)
    requires leaf.entries != []
    ensures var items := L.Items(leaf);
            items == L.Ordered([items[L.Edge(leaf, right)]], L.Items(L.Popped(leaf, right)), right)
  {
    L.PoppedItems(leaf, right);
    FirstAndRest(L.Items(leaf));
  }

  lemma FirstAndRest<T>(s: seq<T>)
    requires s != []
    ensures s == [s[0]] + s[1..] && s == Base.Init(s) + [s[|s| - 1]]
  {}

  lemma PoppedDead(leaf: L.Leaf, right: bool)
    requires L.SlotsOk(leaf) && leaf.entries != []
    ensures |L.Popped(leaf, right).dead| + (if L.Edge(leaf, right) in leaf.dead then 1 else 0) == |leaf.dead|
  {
    if right { L.MovedDownDistinct(leaf.dead, 0); } else { WithoutCount(leaf.dead, |leaf.entries| - 1); }
  }

  lemma {:induction false} WithoutCount(dead: seq<nat>, at: nat)
    requires L.Distinct(dead)
    ensures |L.Without(dead, at)| + (if at in dead then 1 else 0) == |dead|
  {
    if dead != [] {
      WithoutCount(Base.Init(dead), at);
      assert dead == Base.Init(dead) + [Last(dead)];
      if Last(dead) == at { WithoutAbsent(Base.Init(dead), at); }
    }
  }

  lemma {:induction false} WithoutAbsent(dead: seq<nat>, at: nat)
    requires at !in dead
    ensures L.Without(dead, at) == dead
  {
    if dead != [] {
      WithoutAbsent(Base.Init(dead), at);
      assert dead == Base.Init(dead) + [Last(dead)];
    }
  }

  /** And so does a merge. */
  lemma MergeKeepsTombstones(l: Layout, left: L.Leaf, rest: L.Leaf)
    requires L.SlotsOk(left) && L.SlotsOk(rest) && |left.dead| + |rest.dead| <= l.tombstoneCapacity
    ensures L.Items(L.Absorbed(l, left, rest)) == L.Items(left) + L.Items(rest)
  {
    var n := |left.entries|;
    L.MovedUpDistinct(rest.dead, 0, n);
    forall s: nat ensures s in L.MovedUp(rest.dead, 0, n) <==> s >= n && s - n in rest.dead {
      L.MovedUpHas(rest.dead, 0, n, s);
    }
  }

  // ---------------------------------------------------------------- what purging tombstones leaves

  function Slots(dead: seq<nat>): set<nat> { set s | s in dead }

  lemma {:induction false} SlotSet(dead: seq<nat>)
    requires L.Distinct(dead)
    ensures |Slots(dead)| == |dead|
  {
    if dead == [] {
      assert Slots(dead) == {};
    } else {
      SlotSet(Base.Init(dead));
      assert dead == Base.Init(dead) + [Last(dead)];
      assert Slots(dead) == Slots(Base.Init(dead)) + {Last(dead)};
    }
  }

  lemma {:induction false} SlotsBelow(t: set<nat>, n: nat)
    requires forall s :: s in t ==> s < n
    ensures |t| <= n
  {
    if n == 0 {
      assert t == {};
    } else {
      SlotsBelow(t - {n - 1}, n - 1);
      assert |t| <= |t - {n - 1}| + 1 by {
        if n - 1 in t { assert t == (t - {n - 1}) + {n - 1}; } else { assert t == t - {n - 1}; }
      }
    }
  }

  /** A leaf has no more tombstones than entries. */
  lemma TombstonesFit(leaf: L.Leaf)
    requires L.SlotsOk(leaf)
    ensures |leaf.dead| <= |leaf.entries|
  {
    SlotSet(leaf.dead);
    SlotsBelow(Slots(leaf.dead), |leaf.entries|);
  }

  lemma {:induction false} PurgedCount(l: Layout, leaf: L.Leaf)
    requires L.SlotsOk(leaf)
    ensures |L.PurgedTo(l, leaf).entries| + |leaf.dead| ==
            |leaf.entries| + if |leaf.dead| > l.tombstoneCapacity then l.tombstoneCapacity else |leaf.dead|
    decreases |leaf.dead|
  {
    if |leaf.dead| > l.tombstoneCapacity {
      L.PurgedSlots(leaf);
      PurgedCount(l, L.Purged(leaf));
    }
  }

  /** Of two leaves merged, at least half the entries stay: each had room for its tombstones. */
  lemma MergedHalf(l: Layout, left: L.Leaf, rest: L.Leaf)
    requires L.LeafOk(l, left) && L.LeafOk(l, rest) && L.Sorted(l, left.entries + rest.entries)
    ensures 2 * |L.Absorbed(l, left, rest).entries| >= |left.entries| + |rest.entries|
  {
    var both := L.Appended(left, rest);
    L.AppendedOk(left, rest);
    L.MovedUpDistinct(rest.dead, 0, |left.entries|);
    TombstonesFit(both);
    PurgedCount(l, both);
  }

  /** Half of two leaves, one full and one an entry short, is a full leaf. */
  lemma HalfIsEnough(a: nat, b: nat, k: nat, c: nat, min: int)
    requires c > 0 && 2 * k >= a + b && (a + 1) * c >= min && b * c >= min
    ensures k * c >= min
  {
    if k > a { TimesAtLeast(k, a + 1, c); } else { TimesAtLeast(k, b, c); }
  }

  lemma MergedEven(l: Layout, n: nat, left: L.Leaf, rest: L.Leaf)
    requires L.LeafOk(l, left) && L.LeafOk(l, rest) && L.Sorted(l, left.entries + rest.entries)
             && SizedLeaf(n, left) && SizedLeaf(n, rest)
    requires L.Used(left.entries) + LeafCost(n) >= l.LeafMin() && L.Used(rest.entries) + LeafCost(n) >= l.LeafMin()
    requires L.Used(left.entries) >= l.LeafMin() || L.Used(rest.entries) >= l.LeafMin()
    ensures SizedLeaf(n, L.Absorbed(l, left, rest)) && L.Used(L.Absorbed(l, left, rest).entries) >= l.LeafMin()
  {
    var m := L.Absorbed(l, left, rest);
    L.AbsorbedOk(l, left, rest);
    SizedAmong(n, m.entries, left.entries + rest.entries);
    MergedHalf(l, left, rest);
    if L.Used(rest.entries) >= l.LeafMin() {
      HalfIsFull(n, left.entries, rest.entries, m.entries, l.LeafMin());
    } else {
      HalfIsFull(n, rest.entries, left.entries, m.entries, l.LeafMin());
    }
  }

  lemma HalfIsFull(n: nat, a: seq<Entry>, b: seq<Entry>, m: seq<Entry>, min: int)
    requires forall i :: 0 <= i < |a| ==> |a[i].key| == n
    requires forall i :: 0 <= i < |b| ==> |b[i].key| == n
    requires forall i :: 0 <= i < |m| ==> |m[i].key| == n
    requires 2 * |m| >= |a| + |b| && L.Used(a) + LeafCost(n) >= min && L.Used(b) >= min
    ensures L.Used(m) >= min
  {
    UsedSized(n, a);
    UsedSized(n, b);
    UsedSized(n, m);
    HalfIsEnough(|a|, |b|, |m|, LeafCost(n), min);
  }

  // ---------------------------------------------------------------- the parent

  /** A page of a full tree that is one entry short has a sibling, and its parent room for a new separator. */
  lemma SiblingAndRoom(l: Layout, n: nat, path: Path, sep: Key, p: nat)
    requires l.Valid() && path.Under? && PathEven(l, n, path) && |path.t.kids| == |path.t.keys| + 1
             && !Overfull(path.t.keys)
    requires path.up.Top? ==> |path.t.kids| >= 2
    ensures |path.t.kids| >= 2
    ensures |sep| == n && p < |path.t.keys| ==> FitsReplacing(path.t.keys, p, sep)
  {
    Thresholds(l);
    assert Used([]) == 0;
  }

  lemma PutBack<T>(s: seq<T>, s': seq<T>, i: nat)
    requires i < |s| && s' == s[..i] + s[i + 1..]
    ensures i <= |s'| && s'[..i] + [s[i]] + s'[i..] == s
  {}

  lemma UsedWithout(keys: seq<Key>, p: nat)
    requires p < |keys|
    ensures Used(keys[..p] + keys[p + 1..]) + InternalCost(|keys[p]|) == Used(keys)
  {
    var rest := keys[..p] + keys[p + 1..];
    PutBack(keys, rest, p);
    UsedInsert(rest, p, keys[p]);
  }

  /** The parent once its children `p` and `p + 1` are one. */
  lemma MergedParent(l: Layout, n: nat, path: Path, kids: seq<Tree>, p: nat, m: Tree)
    requires path.Under? && PathEven(l, n, path) && |kids| == |path.t.kids| == |path.t.keys| + 1 && p < |path.t.keys|
             && (path.i == p || path.i == p + 1) && Even(l, n, m)
             && forall j :: 0 <= j < |kids| && j != path.i ==> kids[j] == path.t.kids[j]
    ensures var t := Nd(path.t.id, path.t.keys[..p] + path.t.keys[p + 1..], kids[..p] + [m] + kids[p + 2..]);
            EvenBelow(l, n, t) && (path.up.Under? ==> Short(l, n, t))
  {
    UsedWithout(path.t.keys, p);
  }

  /** And once they have shared out their entries. */
  lemma SharedParent(l: Layout, n: nat, path: Path, kids: seq<Tree>, p: nat, x: Tree, sep: Key, y: Tree)
    requires path.Under? && PathEven(l, n, path) && |kids| == |path.t.kids| == |path.t.keys| + 1 && p < |path.t.keys|
             && (path.i == p || path.i == p + 1) && Even(l, n, x) && Even(l, n, y) && |sep| == n
             && forall j :: 0 <= j < |kids| && j != path.i ==> kids[j] == path.t.kids[j]
    ensures var t := Nd(path.t.id, path.t.keys[p := sep], kids[p := x][p + 1 := y]);
            EvenBelow(l, n, t) && (path.up.Under? ==> Short(l, n, t))
  {
    UsedReplaced(path.t.keys, p, sep);
  }
}
