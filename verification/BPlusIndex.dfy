/** The B+ tree over its pages: inserts and removes that descend with latches, release the ones above
    a page that cannot split or become underfull, and rewrite pages on the way back up. */
module BPlusIndex {
  import opened Base
  import opened BPlusLayout
  import opened BPlusTree
  import opened BPlusPages
  import opened BPlusFull
  import L = BPlusLeaf

  // ---------------------------------------------------------------- where a descent is

  function PathLo(path: Path): Option<Key> {
    if path.Under? && path.t.Nd? then LoAt(path.t.keys, PathLo(path.up), path.i) else None
  }

  function PathHi(path: Path): Option<Key> {
    if path.Under? && path.t.Nd? then HiAt(path.t.keys, PathHi(path.up), path.i) else None
  }

  function PathAfter(path: Path): Option<nat> {
    if path.Under? && path.t.Nd? then NextAt(path.t.kids, PathAfter(path.up), path.i) else None
  }

  /** Every node on the path is well-formed, and the path takes the child for `key`. */
  ghost predicate PathOk(l: Layout, path: Path, key: Key) {
    path.Under? ==>
      && path.t.Nd? && TreeOk(l, path.t, PathLo(path.up), PathHi(path.up), PathAfter(path.up))
      && path.i == ChildIndex(l, path.t.keys, key) && Within(l, key, PathLo(path.up), PathHi(path.up))
      && PathOk(l, path.up, key)
  }

  /** A descent for `key` from `root` has come to `cur`. */
  ghost predicate At(l: Layout, pages: Pages, root: Tree, path: Path, cur: Tree, key: Key) {
    && Leads(root, path, cur) && PathOk(l, path, key) && PathHolds(pages, path)
    && Holds(pages, cur) && DistinctIds(cur) && AllIds(cur) !! PathIds(path)
    && AllIds(cur) + PathIds(path) == AllIds(root)
    && TreeOk(l, cur, PathLo(path), PathHi(path), PathAfter(path)) && Within(l, key, PathLo(path), PathHi(path))
  }

  lemma StepDown(l: Layout, pages: Pages, root: Tree, path: Path, cur: Tree, key: Key)
    requires TotalOrder(l.before) && At(l, pages, root, path, cur, key) && cur.Nd?
    ensures var i := ChildIndex(l, cur.keys, key);
            i < |cur.kids| && At(l, pages, root, Under(path, cur, i), cur.kids[i], key)
  {
    var i := ChildIndex(l, cur.keys, key);
    PathDown(pages, path, cur, i);
    ChildWithin(l, cur.keys, PathLo(path), PathHi(path), key);
  }

  lemma ChildWithin(l: Layout, keys: seq<Key>, lo: Option<Key>, hi: Option<Key>, key: Key)
    requires TotalOrder(l.before) && SortedKeys(l, keys) && Within(l, key, lo, hi)
    ensures var i := ChildIndex(l, keys, key); Within(l, key, LoAt(keys, lo, i), HiAt(keys, hi, i))
  {}

  // ---------------------------------------------------------------- latches

  predicate SafeForInsert(l: Layout, page: Page) {
    match page
    case LeafPage(leaf) => l.LeafCapacity() - L.Used(leaf.entries) >= l.LeafMax()
    case NodePage(keys, _) => INTERNAL_CAPACITY - Used(keys) >= l.InternalMax()
  }

  predicate SafeForRemove(l: Layout, page: Page) {
    match page
    case LeafPage(leaf) => L.Used(leaf.entries) - l.LeafMax() >= l.LeafMin()
    case NodePage(keys, _) => Used(keys) - l.InternalMax() >= l.InternalMin()
  }

  predicate Safe(l: Layout, page: Page, inserting: bool) {
    if inserting then SafeForInsert(l, page) else SafeForRemove(l, page)
  }

  /** The latches held above the current page: the pages of the path down from the lowest safe one, and all of
      them and the header too if none below the root is safe. A safe page holds no latch above it. */
  ghost predicate LatchedOk(l: Layout, path: Path, latched: seq<nat>, header: bool, inserting: bool, safe: bool) {
    if latched == [] then (header <==> path.Top?) && (path.Under? ==> safe)
    else !safe && path.Under? && Last(latched) == path.t.id && LatchedOk(l, path.up, Base.Init(latched), header,
        inserting, path.up.Under? && Safe(l, PageOf(path.t), inserting))
  }

  lemma LatchOne(l: Layout, path: Path, latched: seq<nat>, header: bool, inserting: bool, cur: Tree, i: nat)
    requires LatchedOk(l, path, latched, header, inserting, path.Under? && Safe(l, PageOf(cur), inserting)) && cur.Nd?
    ensures LatchedOk(l, Under(path, cur, i), latched + [cur.id], header, inserting, false)
  {
    assert Base.Init(latched + [cur.id]) == latched;
  }

  /** The key an overfull internal page splits around. */
  method SplitIndex(l: Layout, keys: seq<Key>) returns (mid: nat)
    requires l.Valid() && KeysFit(l, keys) && INTERNAL_CAPACITY < Used(keys) <= INTERNAL_CAPACITY + l.InternalMax()
    ensures 1 <= mid <= |keys| - 2 && mid == SplitPoint(keys)
    ensures l.InternalMin() <= Used(keys[..mid]) <= INTERNAL_CAPACITY
            && l.InternalMin() <= Used(keys[mid + 1..]) <= INTERNAL_CAPACITY
  {
    SplitFitsPages(l, keys);
    mid := BalancedSplit(Costs(keys), true);
    mid := if mid <= |keys| - 2 then mid else |keys| - 2;
  }

  /** Where an overfull leaf splits. */
  method LeafSplitIndex(l: Layout, entries: seq<Entry>) returns (mid: nat)
    requires l.Valid() && L.KeysFit(l, entries) && l.LeafCapacity() < L.Used(entries) <= l.LeafCapacity() + l.LeafMax()
    ensures 1 <= mid < |entries| && mid == L.SplitPoint(entries)
    ensures l.LeafMin() <= L.Used(entries[..mid]) <= l.LeafCapacity()
            && l.LeafMin() <= L.Used(entries[mid..]) <= l.LeafCapacity()
  {
    L.SplitFitsPages(l, entries);
    mid := BalancedSplit(L.Costs(entries), false);
  }

  /** Latches the path to the leaf for `key`, releasing the latches above a page that is safe. */
  method LatchPathToLeaf(l: Layout, pages: Pages, root: nat, ghost t: Tree, key: Key, inserting: bool)
    returns (leafId: nat, latched: seq<nat>, header: bool, ghost path: Path, ghost cur: Tree)
    requires TotalOrder(l.before) && t.id == root && TreeOk(l, t, None, None, None) && Holds(pages, t) && DistinctIds(t)
    ensures At(l, pages, t, path, cur, key) && cur.Lf? && cur.id == leafId
    ensures LatchedOk(l, path, latched, header, inserting, path.Under? && Safe(l, PageOf(cur), inserting))
  {
    leafId, latched, header, path, cur := root, [], true, Top, t;
    while pages[leafId].NodePage?
      invariant At(l, pages, t, path, cur, key) && cur.id == leafId
      invariant LatchedOk(l, path, latched, header, inserting, path.Under? && Safe(l, PageOf(cur), inserting))
      decreases Height(cur)
    {
      StepDown(l, pages, t, path, cur, key);
      var page := pages[leafId];
      var i := ChildIndex(l, page.keys, key);
      var child := page.kids[i];
      LatchOne(l, path, latched, header, inserting, cur, i);
      latched := latched + [leafId];
      if Safe(l, pages[child], inserting) {
        latched, header := [], false;
      }
      path, cur, leafId := Under(path, cur, i), cur.kids[i], child;
    }
  }

  /** Puts a separator and the page right of it into their parent, and splits the parent if it has
      no room. */
  method TakeSeparator(l: Layout, pages: Pages, next: nat, parentId: nat, sep: Key, rightId: nat,
                       ghost root: Tree, ghost e: Entry, ghost path: Path, ghost cur: Tree, ghost a: Tree,
                       ghost b: Tree)
    returns (done: bool, pages': Pages, next': nat, sep': Key, rightId': nat, ghost a': Tree, ghost b': Tree)
    requires l.Valid() && TotalOrder(l.before) && RootOk(l, root) && path.Under? && parentId == path.t.id
             && rightId == b.id
    requires Rising(l, root, path, cur, e, a, sep, b) && SplitStored(pages, path, a, b, next)
    ensures done ==> GrownRoot(l, root, a', e) && Stored(pages', a', next')
    ensures !done ==> a'.id == parentId && rightId' == b'.id && !SafeForInsert(l, PageOf(path.t))
    ensures !done ==> Rising(l, root, path.up, path.t, e, a', sep', b') && SplitStored(pages', path.up, a', b', next')
    ensures EvenSplit(l, |e.key|, path, a, sep, b) ==>
            if done then EvenBelow(l, |e.key|, a') else EvenSplit(l, |e.key|, path.up, a', sep', b')
  {
    ParentTakes(l, pages, root, path, cur, e, a, sep, b);
    var keys, kids := pages[parentId].keys, pages[parentId].kids;
    var at := ChildIndex(l, keys, sep);
    keys, kids := keys[..at] + [sep] + keys[at..], kids[..at + 1] + [rightId] + kids[at + 1..];
    if !Overfull(keys) {
      ParentFits(l, root, path, cur, e, a, sep, b);
      ParentStored(pages, path, keys, a, b, next);
      if EvenSplit(l, |e.key|, path, a, sep, b) { TakesEven(l, |e.key|, path, a, sep, b); }
      return true, Put(pages, parentId, NodePage(keys, kids)), next, sep, rightId,
          Plug(path.up, Nd(parentId, keys, TakenKids(path.t, path.i, a, b))), b;
    }
    ParentOverfull(l, root, path, cur, e, a, sep, b);
    var mid := SplitIndex(l, keys);
    a', b' := ParentHalves(l, pages, root, path, cur, e, a, sep, b, next, mid);
    if EvenSplit(l, |e.key|, path, a, sep, b) { HalvesEven(l, |e.key|, path, a, sep, b, mid, a', b'); }
    pages' := Put(Put(pages, parentId, NodePage(keys[..mid], kids[..mid + 1])), next,
        NodePage(keys[mid + 1..], kids[mid + 1..]));
    done, sep', rightId', next' := false, keys[mid], next, next + 1;
  }

  /** Carries a split up to the parents: the separator goes into each, and splits those without room.
      A split of the root gets a new root. Every parent that is needed is still latched. */
  method InsertSeparators(l: Layout, pages0: Pages, next0: nat, rootId0: nat, latches: seq<nat>, header: bool,
                          leftId0: nat, sep0: Key, rightId0: nat,
                          ghost root: Tree, ghost e: Entry, ghost path0: Path, ghost cur0: Tree, ghost a0: Tree,
                          ghost b0: Tree)
    returns (r: Outcome, pages: Pages, next: nat, rootId: nat, ghost t: Tree)
    requires l.Valid() && TotalOrder(l.before) && RootOk(l, root) && rootId0 == root.id
    requires Rising(l, root, path0, cur0, e, a0, sep0, b0) && SplitStored(pages0, path0, a0, b0, next0)
             && leftId0 == a0.id && rightId0 == b0.id
    requires LatchedOk(l, path0, latches, header, true, false)
    ensures r == Done && InsertedRoot(l, root, t, e) && rootId == t.id && Stored(pages, t, next)
    ensures EvenSplit(l, |e.key|, path0, a0, sep0, b0) ==> EvenBelow(l, |e.key|, t)
  {
    pages, next, rootId := pages0, next0, rootId0;
    var latched, leftId, sep, rightId := latches, leftId0, sep0, rightId0;
    ghost var path, cur, a, b := path0, cur0, a0, b0;
    while latched != []
      invariant Rising(l, root, path, cur, e, a, sep, b) && SplitStored(pages, path, a, b, next) && leftId == a.id
                && rightId == b.id
      invariant LatchedOk(l, path, latched, header, true, false)
      invariant EvenSplit(l, |e.key|, path0, a0, sep0, b0) ==> EvenSplit(l, |e.key|, path, a, sep, b)
      decreases |latched|
    {
      var parentId := Last(latched);
      latched := Base.Init(latched);
      var done;
      ghost var parent := path.t;
      done, pages, next, sep, rightId, a, b := TakeSeparator(l, pages, next, parentId, sep, rightId, root, e, path,
          cur, a, b);
      if done {
        return Done, pages, next, rootId, a;
      }
      leftId, path, cur := parentId, path.up, parent;
    }
    if leftId != rootId || !header {
      return Structure, pages, next, rootId, root;
    }
    RootOver(l, a, sep, b, next);
    RootStored(pages, a, sep, b, next);
    if EvenSplit(l, |e.key|, path, a, sep, b) { RootEven(l, |e.key|, next, a, sep, b); }
    return Done, Put(pages, next, NodePage([sep], [leftId, rightId])), next + 1, next, Nd(next, [sep], [a, b]);
  }

  /** Descends to the leaf for `key`. */
  method FindLeaf(l: Layout, pages: Pages, root: nat, ghost t: Tree, key: Key)
    returns (leafId: nat, ghost path: Path, ghost cur: Tree)
    requires TotalOrder(l.before) && t.id == root && TreeOk(l, t, None, None, None) && Holds(pages, t) && DistinctIds(t)
    ensures At(l, pages, t, path, cur, key) && cur.Lf? && cur.id == leafId
  {
    leafId, path, cur := root, Top, t;
    while pages[leafId].NodePage?
      invariant At(l, pages, t, path, cur, key) && cur.id == leafId
      decreases Height(cur)
    {
      StepDown(l, pages, t, path, cur, key);
      var i := ChildIndex(l, pages[leafId].keys, key);
      path, cur, leafId := Under(path, cur, i), cur.kids[i], pages[leafId].kids[i];
    }
  }

  /** Inserts with every page that may have to change latched. */
  method InsertPessimistic(l: Layout, pages: Pages, next: nat, root: nat, e: Entry, ghost t: Tree)
    returns (r: Outcome, pages': Pages, next': nat, root': nat, ghost t': Tree)
    requires l.Valid() && TotalOrder(l.before) && RootOk(l, t) && Stored(pages, t, next) && root == t.id
             && |e.key| <= l.maxKeyLen
    ensures r == Done || r == DuplicateKey
    ensures r == DuplicateKey ==> L.Has(Rows(t), e.key) && pages' == pages && next' == next && root' == root && t' == t
    ensures r == Done ==> InsertedRoot(l, t, t', e) && root' == t'.id && Stored(pages', t', next')
    ensures EvenBelow(l, |e.key|, t) ==> EvenBelow(l, |e.key|, t')
  {
    var leafId, latched, header;
    ghost var path, cur;
    leafId, latched, header, path, cur := LatchPathToLeaf(l, pages, root, t, e.key, true);
    var leaf := pages[leafId].leaf;
    var inserted := L.Insert(l, leaf, e);
    if inserted.None? {
      L.InsertRows(l, leaf, e);
      HasUp(l, t, path, cur, e.key);
      return DuplicateKey, pages, next, root, t;
    }
    if L.Fits(l, inserted.value) {
      LeafStays(l, pages, next, t, path, cur, e);
      if EvenBelow(l, |e.key|, t) { LeafGrowsEven(l, |e.key|, t, path, cur, e); }
      return Done, Put(pages, leafId, LeafPage(inserted.value)), next, root, Plug(path, Lf(leafId, inserted.value));
    }
    r, pages', next', root', t' := InsertSplitting(l, pages, next, root, latched, header, leafId, e, t, path, cur);
  }

  /** Splits the leaf that has no room for `e`, and puts the new separators into the pages above. */
  method InsertSplitting(l: Layout, pages: Pages, next: nat, root: nat, latched: seq<nat>, header: bool, leafId: nat,
                         e: Entry,
                         ghost t: Tree, ghost path: Path, ghost cur: Tree)
    returns (r: Outcome, pages': Pages, next': nat, root': nat, ghost t': Tree)
    requires l.Valid() && TotalOrder(l.before) && RootOk(l, t) && Stored(pages, t, next) && root == t.id
             && |e.key| <= l.maxKeyLen
    requires At(l, pages, t, path, cur, e.key) && cur.Lf? && cur.id == leafId
    requires LatchedOk(l, path, latched, header, true, path.Under? && Safe(l, PageOf(cur), true))
    requires L.Insert(l, cur.leaf, e).Some? && !L.Fits(l, L.Insert(l, cur.leaf, e).value)
    ensures r == Done && InsertedRoot(l, t, t', e) && root' == t'.id && Stored(pages', t', next')
    ensures EvenBelow(l, |e.key|, t) ==> EvenBelow(l, |e.key|, t')
  {
    var leaf := L.Insert(l, pages[leafId].leaf, e).value;
    LeafOverfull(l, pages[leafId].leaf, e);
    var mid := LeafSplitIndex(l, leaf.entries);
    ghost var a, b := LeafSplitsUp(l, pages, next, t, path, cur, e, mid);
    if EvenBelow(l, |e.key|, t) { LeafSplitsEven(l, |e.key|, t, path, cur, e, mid, a, b); }
    pages' := Put(Put(pages, leafId, LeafPage(L.SplitLeft(leaf, mid, next))), next, LeafPage(L.SplitRight(leaf, mid)));
    r, pages', next', root', t' := InsertSeparators(l, pages', next + 1, root, latched, header, leafId,
        leaf.entries[mid].key, next, t, e, path, cur, a, b);
  }

  /** The tree after an insert: well-formed, with exactly the new entry. */
  ghost predicate InsertedRoot(l: Layout, root: Tree, t: Tree, e: Entry) {
    RootOk(l, t) && First(t) == First(root) && !L.Has(Rows(root), e.key) && L.Inserted(l, Rows(root), Rows(t), e)
  }

  /** The root: a well-formed tree whose root, when internal, has at least two children. */
  ghost predicate RootOk(l: Layout, t: Tree) { TreeOk(l, t, None, None, None) && (t.Nd? ==> |t.kids| >= 2) }

  ghost predicate Stored(pages: Pages, t: Tree, next: nat) {
    Holds(pages, t) && DistinctIds(t) && forall id :: id in AllIds(t) ==> id < next
  }

  // ---------------------------------------------------------------- an insert on its way up

  /** The subtree `cur` at the end of the path has become `a` and `b` by inserting `e`. */
  ghost predicate Rising(l: Layout, root: Tree, path: Path, cur: Tree, e: Entry, a: Tree, sep: Key, b: Tree) {
    && Leads(root, path, cur) && PathOk(l, path, e.key)
    && SplitOk(l, cur, a, sep, b, PathLo(path), PathHi(path), PathAfter(path), e)
  }

  /** The two halves of a split page are stored, and the pages above are as they were. */
  ghost predicate SplitStored(pages: Pages, path: Path, a: Tree, b: Tree, next: nat) {
    && PathHolds(pages, path) && Holds(pages, a) && Holds(pages, b) && DistinctIds(a) && DistinctIds(b)
    && AllIds(a) !! AllIds(b) && AllIds(a) + AllIds(b) !! PathIds(path)
    && (forall id :: id in AllIds(a) + AllIds(b) + PathIds(path) ==> id < next)
  }

  /** What a parent's page holds, and what taking the separator makes of it. */
  lemma ParentTakes(l: Layout, pages: Pages, root: Tree, path: Path, cur: Tree, e: Entry, a: Tree, sep: Key, b: Tree)
    requires l.Valid() && TotalOrder(l.before) && path.Under? && Rising(l, root, path, cur, e, a, sep, b)
             && PathHolds(pages, path)
    ensures var t, i := path.t, path.i;
            && t.Nd? && i < |t.kids| == |t.keys| + 1 && Find(pages, t.id) == Some(NodePage(t.keys, Ids(t.kids)))
            && ChildIndex(l, t.keys, sep) == i
            && Ids(t.kids)[..i + 1] + [b.id] + Ids(t.kids)[i + 1..] == Ids(TakenKids(t, i, a, b))
            && |TakenKids(t, i, a, b)| == |TakenKeys(t, i, sep)| + 1 && PathFills(path)
            && (Overfull(TakenKeys(t, i, sep)) ==> |TakenKeys(t, i, sep)| >= 3)
  {
    LeadsFills(root, path, cur);
    TakenFacts(l, path.t, path.i, a, sep, b, PathLo(path.up), PathHi(path.up));
  }

  lemma TakenFacts(l: Layout, t: Tree, i: nat, a: Tree, sep: Key, b: Tree, lo: Option<Key>, hi: Option<Key>)
    requires l.Valid() && TotalOrder(l.before) && t.Nd? && i < |t.kids| == |t.keys| + 1 && SortedKeys(l, t.keys)
             && KeysFit(l, t.keys)
    requires Inside(l, sep, LoAt(t.keys, lo, i), HiAt(t.keys, hi, i)) && |sep| <= l.maxKeyLen && a.id == t.kids[i].id
    ensures ChildIndex(l, t.keys, sep) == i
            && Ids(t.kids)[..i + 1] + [b.id] + Ids(t.kids)[i + 1..] == Ids(TakenKids(t, i, a, b))
    ensures |TakenKids(t, i, a, b)| == |TakenKeys(t, i, sep)| + 1
            && (Overfull(TakenKeys(t, i, sep)) ==> |TakenKeys(t, i, sep)| >= 3)
  {
    SeparatorIndex(l, t.keys, sep, i);
    TakenIds(t, i, a, b);
    if Overfull(TakenKeys(t, i, sep)) { ManyKeys(l, TakenKeys(t, i, sep)); }
  }

  lemma TakenStored(pages: Pages, path: Path, a: Tree, b: Tree)
    requires path.Under? && PathHolds(pages, path) && path.i < |path.t.kids|
    requires Holds(pages, a) && Holds(pages, b) && DistinctIds(a) && DistinctIds(b) && AllIds(a) !! AllIds(b)
             && AllIds(a) + AllIds(b) !! PathIds(path)
    ensures var t, kids := path.t, TakenKids(path.t, path.i, a, b);
            && HoldsAll(pages, kids) && DistinctKids(kids) && t.id !in AllIdsOf(kids)
            && {t.id} + AllIdsOf(kids) !! PathIds(path.up)
            && {t.id} + AllIdsOf(kids) + PathIds(path.up) == AllIds(a) + AllIds(b) + PathIds(path)
  {
    TakenBetween(pages, path.t.id, path.t.kids[..path.i], a, b, path.t.kids[path.i + 1..], PathIds(path.up));
  }

  /** Two subtrees between the children of a node, with nothing of them elsewhere in the tree. */
  lemma TakenBetween(pages: Pages, id: nat, left: seq<Tree>, a: Tree, b: Tree, right: seq<Tree>, above: set<nat>)
    requires HoldsAll(pages, left) && HoldsAll(pages, right) && Holds(pages, a) && Holds(pages, b)
    requires DistinctKids(left) && DistinctKids(right) && DistinctIds(a) && DistinctIds(b) && AllIds(a) !! AllIds(b)
    requires id !in AllIdsOf(left) + AllIdsOf(right) && AllIdsOf(left) !! AllIdsOf(right)
             && {id} + AllIdsOf(left) + AllIdsOf(right) !! above
    requires AllIds(a) + AllIds(b) !! {id} + AllIdsOf(left) + AllIdsOf(right) + above
    ensures var kids := left + [a, b] + right;
            && HoldsAll(pages, kids) && DistinctKids(kids) && id !in AllIdsOf(kids) && {id} + AllIdsOf(kids) !! above
            && {id} + AllIdsOf(kids) + above ==
                AllIds(a) + AllIds(b) + ({id} + AllIdsOf(left) + AllIdsOf(right) + above)
  {
    TwoBetween(left, a, b, right);
  }

  lemma StoreNode(pages: Pages, id: nat, keys: seq<Key>, kids: seq<Tree>)
    requires HoldsAll(pages, kids) && DistinctKids(kids) && id !in AllIdsOf(kids)
    ensures var pages', t := pages[id := NodePage(keys, Ids(kids))], Nd(id, keys, kids);
            Holds(pages', t) && DistinctIds(t) && AllIds(t) == {id} + AllIdsOf(kids)
  {
    AllHoldElsewhere(pages, kids, id, NodePage(keys, Ids(kids)));
  }

  /** A parent with room: nothing above it changes. */
  lemma ParentFits(l: Layout, root: Tree, path: Path, cur: Tree, e: Entry, a: Tree, sep: Key, b: Tree)
    requires l.Valid() && TotalOrder(l.before) && RootOk(l, root) && path.Under?
             && Rising(l, root, path, cur, e, a, sep, b)
    requires path.i < |path.t.kids| == |path.t.keys| + 1 && !Overfull(TakenKeys(path.t, path.i, sep))
    ensures GrownRoot(l, root,
            Plug(path.up, Nd(path.t.id, TakenKeys(path.t, path.i, sep), TakenKids(path.t, path.i, a, b))), e)
  {
    var t, keys, kids := path.t, TakenKeys(path.t, path.i, sep), TakenKids(path.t, path.i, a, b);
    ParentGrows(l, path, cur, e, a, sep, b);
    NodeGrows(l, t, keys, kids, PathLo(path.up), PathHi(path.up), PathAfter(path.up), e);
    GrowsUp(l, root, path.up, t, e, Nd(t.id, keys, kids));
    RootKids(root, path.up, t, Nd(t.id, keys, kids));
  }

  ghost predicate GrownRoot(l: Layout, root: Tree, t: Tree, e: Entry) {
    InsertedRoot(l, root, t, e) && t.id == root.id
  }

  lemma ParentGrows(l: Layout, path: Path, cur: Tree, e: Entry, a: Tree, sep: Key, b: Tree)
    requires l.Valid() && TotalOrder(l.before) && path.Under? && PathOk(l, path, e.key) && path.t.Nd?
             && path.i < |path.t.kids| && cur == path.t.kids[path.i]
    requires SplitOk(l, cur, a, sep, b, PathLo(path), PathHi(path), PathAfter(path), e)
    ensures var t, keys, kids := path.t, TakenKeys(path.t, path.i, sep), TakenKids(path.t, path.i, a, b);
            && NodeOk(l, keys, kids, PathLo(path.up), PathHi(path.up), PathAfter(path.up))
            && Used(keys) <= Used(t.keys) + l.InternalMax()
            && First(kids[0]) == First(t.kids[0]) && Height(kids[0]) == Height(t.kids[0])
            && !L.Has(Rows(t), e.key) && L.Inserted(l, Rows(t), RowsOf(kids), e)
  {
    ChildWithin(l, path.t.keys, PathLo(path.up), PathHi(path.up), e.key);
    KidSplits(l, path.t, path.i, a, sep, b, PathLo(path.up), PathHi(path.up), PathAfter(path.up), e);
  }

  /** A subtree that stays one page leaves everything above as it was. */
  lemma {:induction false} GrowsUp(l: Layout, root: Tree, path: Path, cur: Tree, e: Entry, c: Tree)
    requires l.Valid() && TotalOrder(l.before) && Leads(root, path, cur) && PathOk(l, path, e.key)
    requires GrownOk(l, cur, c, PathLo(path), PathHi(path), PathAfter(path), e)
    ensures GrownOk(l, root, Plug(path, c), None, None, None, e)
    decreases path
  {
    if path.Under? {
      var t, i := path.t, path.i;
      ChildWithin(l, t.keys, PathLo(path.up), PathHi(path.up), e.key);
      KidGrows(l, t, i, c, PathLo(path.up), PathHi(path.up), PathAfter(path.up), e);
      GrowsUp(l, root, path.up, t, e, Nd(t.id, t.keys, t.kids[i := c]));
    }
  }

  /** The root keeps its children, and gets one more at most. */
  lemma {:induction false} RootKids(root: Tree, path: Path, t: Tree, c: Tree)
    requires Leads(root, path, t) && (t.Nd? ==> c.Nd? && |c.kids| >= |t.kids|) && (t.Lf? ==> c.Lf?)
    ensures root.Nd? <==> Plug(path, c).Nd?
    ensures root.Nd? ==> |Plug(path, c).kids| >= |root.kids|
  {
    if path.Under? {
      RootKids(root, path.up, path.t, Nd(path.t.id, path.t.keys, path.t.kids[path.i := c]));
    }
  }

  lemma ParentStored(pages: Pages, path: Path, keys: seq<Key>, a: Tree, b: Tree, next: nat)
    requires path.Under? && SplitStored(pages, path, a, b, next) && path.i < |path.t.kids| && PathFills(path)
    ensures var t, kids := path.t, TakenKids(path.t, path.i, a, b);
            Stored(pages[t.id := NodePage(keys, Ids(kids))], Plug(path.up, Nd(t.id, keys, kids)), next)
  {
    var t, kids := path.t, TakenKids(path.t, path.i, a, b);
    TakenStored(pages, path, a, b);
    StoreNode(pages, t.id, keys, kids);
    PathHoldsElsewhere(pages, path.up, t.id, NodePage(keys, Ids(kids)));
    PlugHolds(pages[t.id := NodePage(keys, Ids(kids))], path.up, Nd(t.id, keys, kids));
  }

  /** A parent that splits: both its halves are stored. */
  lemma HalvesStored(pages: Pages, path: Path, id: nat, next: nat, keys: seq<Key>, kids: seq<Tree>, mid: nat)
    requires HoldsAll(pages, kids) && DistinctKids(kids) && |kids| == |keys| + 1 && mid < |keys|
             && id !in AllIdsOf(kids) && id < next && next !in AllIdsOf(kids)
    requires PathHolds(pages, path) && {id} + AllIdsOf(kids) !! PathIds(path) && next !in PathIds(path)
    ensures var a, b := Nd(id, keys[..mid], kids[..mid + 1]), Nd(next, keys[mid + 1..], kids[mid + 1..]);
            var pages' := Put(Put(pages, id, PageOf(a)), next, PageOf(b));
            && Holds(pages', a) && Holds(pages', b) && DistinctIds(a) && DistinctIds(b) && AllIds(a) !! AllIds(b)
            && PathHolds(pages', path) && AllIds(a) + AllIds(b) == {id, next} + AllIdsOf(kids)
  {
    var left, right := kids[..mid + 1], kids[mid + 1..];
    var a, b := Nd(id, keys[..mid], left), Nd(next, keys[mid + 1..], right);
    assert kids == left + right;
    AllIdsAppend(left, right);
    DistinctKidsAppend(left, right);
    assert HoldsAll(pages, left) && HoldsAll(pages, right);
    StoreNode(pages, id, a.keys, left);
    AllHoldElsewhere(pages, right, id, PageOf(a));
    var pages1 := pages[id := PageOf(a)];
    HoldsElsewhere(pages1, a, next, PageOf(b));
    StoreNode(pages1, next, b.keys, right);
    PathHoldsElsewhere(pages, path, id, PageOf(a));
    PathHoldsElsewhere(pages1, path, next, PageOf(b));
  }

  /** A parent without room was not safe, and is overfull by one entry. */
  lemma ParentOverfull(l: Layout, root: Tree, path: Path, cur: Tree, e: Entry, a: Tree, sep: Key, b: Tree)
    requires l.Valid() && TotalOrder(l.before) && path.Under? && Rising(l, root, path, cur, e, a, sep, b)
    requires path.i <= |path.t.keys| && Overfull(TakenKeys(path.t, path.i, sep))
    ensures !SafeForInsert(l, PageOf(path.t)) && KeysFit(l, TakenKeys(path.t, path.i, sep))
    ensures Used(TakenKeys(path.t, path.i, sep)) <= INTERNAL_CAPACITY + l.InternalMax()
  {
    UsedInsert(path.t.keys, path.i, sep);
    ParentKeysFit(l, path.t.keys, path.i, sep);
  }

  lemma ParentKeysFit(l: Layout, keys: seq<Key>, i: nat, sep: Key)
    requires KeysFit(l, keys) && |sep| <= l.maxKeyLen && i <= |keys|
    ensures KeysFit(l, keys[..i] + [sep] + keys[i..])
  {}

  /** The halves of a parent go on one page further up. */
  lemma ParentSplits(l: Layout, root: Tree, path: Path, cur: Tree, e: Entry, a: Tree, sep: Key, b: Tree, next: nat,
                     mid: nat)
    requires l.Valid() && TotalOrder(l.before) && path.Under? && Rising(l, root, path, cur, e, a, sep, b)
    requires path.i < |path.t.kids| == |path.t.keys| + 1 && 1 <= mid <= |path.t.keys|
    requires var keys := TakenKeys(path.t, path.i, sep); !Overfull(keys[..mid]) && !Overfull(keys[mid + 1..])
    ensures var keys, kids := TakenKeys(path.t, path.i, sep), TakenKids(path.t, path.i, a, b);
            Rising(l, root, path.up, path.t, e, Nd(path.t.id, keys[..mid], kids[..mid + 1]), keys[mid],
                Nd(next, keys[mid + 1..], kids[mid + 1..]))
  {
    var t, keys, kids := path.t, TakenKeys(path.t, path.i, sep), TakenKids(path.t, path.i, a, b);
    ParentGrows(l, path, cur, e, a, sep, b);
    NodeSplits(l, t, keys, kids, next, PathLo(path.up), PathHi(path.up), PathAfter(path.up), e, mid);
  }

  lemma ParentHalves(l: Layout, pages: Pages, root: Tree, path: Path, cur: Tree, e: Entry, a: Tree, sep: Key,
                     b: Tree, next: nat, mid: nat)
    returns (a': Tree, b': Tree)
    requires l.Valid() && TotalOrder(l.before) && path.Under? && Rising(l, root, path, cur, e, a, sep, b)
             && SplitStored(pages, path, a, b, next)
    requires path.i < |path.t.kids| == |path.t.keys| + 1 && 1 <= mid <= |path.t.keys|
    requires var keys := TakenKeys(path.t, path.i, sep); !Overfull(keys[..mid]) && !Overfull(keys[mid + 1..])
    ensures a'.id == path.t.id && b'.id == next
    ensures var keys, kids := TakenKeys(path.t, path.i, sep), TakenKids(path.t, path.i, a, b);
            && a'.Nd? && a'.keys == keys[..mid] && |kids| == |keys| + 1 && a'.kids == kids[..mid + 1]
            && b'.Nd? && b'.keys == keys[mid + 1..] && b'.kids == kids[mid + 1..]
    ensures var keys, ids := TakenKeys(path.t, path.i, sep), Ids(TakenKids(path.t, path.i, a, b));
            && Rising(l, root, path.up, path.t, e, a', keys[mid], b')
            && |ids| == |keys| + 1
            && SplitStored(Put(Put(pages, path.t.id, NodePage(keys[..mid], ids[..mid + 1])), next,
                NodePage(keys[mid + 1..], ids[mid + 1..])), path.up, a', b', next + 1)
  {
    var keys, kids := TakenKeys(path.t, path.i, sep), TakenKids(path.t, path.i, a, b);
    a', b' := Nd(path.t.id, keys[..mid], kids[..mid + 1]), Nd(next, keys[mid + 1..], kids[mid + 1..]);
    ParentSplits(l, root, path, cur, e, a, sep, b, next, mid);
    StoredHalves(pages, path, keys, a, b, next, mid);
    HalfIds(kids, mid);
  }

  lemma StoredHalves(pages: Pages, path: Path, keys: seq<Key>, a: Tree, b: Tree, next: nat, mid: nat)
    requires path.Under? && SplitStored(pages, path, a, b, next) && path.i < |path.t.kids|
    requires |TakenKids(path.t, path.i, a, b)| == |keys| + 1 && mid < |keys|
    ensures var kids := TakenKids(path.t, path.i, a, b);
            var a', b' := Nd(path.t.id, keys[..mid], kids[..mid + 1]), Nd(next, keys[mid + 1..], kids[mid + 1..]);
            SplitStored(Put(Put(pages, path.t.id, PageOf(a')), next, PageOf(b')), path.up, a', b', next + 1)
  {
    TakenStored(pages, path, a, b);
    HalvesStored(pages, path.up, path.t.id, next, keys, TakenKids(path.t, path.i, a, b), mid);
  }

  /** The child ids a parent's page gets are those of its new children. */
  lemma TakenIds(t: Tree, i: nat, a: Tree, b: Tree)
    requires t.Nd? && i < |t.kids| && a.id == t.kids[i].id
    ensures Ids(t.kids)[..i + 1] + [b.id] + Ids(t.kids)[i + 1..] == Ids(TakenKids(t, i, a, b))
  {}

  lemma HalfIds(kids: seq<Tree>, mid: nat)
    requires mid < |kids|
    ensures Ids(kids[..mid + 1]) == Ids(kids)[..mid + 1] && Ids(kids[mid + 1..]) == Ids(kids)[mid + 1..]
  {}

  datatype Outcome = Done | DuplicateKey | KeyNotFound | KeyTooLong | Structure

  lemma RootOver(l: Layout, a: Tree, sep: Key, b: Tree, id: nat)
    requires l.Valid() && TreeOk(l, a, None, Some(sep), Some(First(b))) && TreeOk(l, b, Some(sep), None, None)
             && Height(a) == Height(b) && |sep| <= l.maxKeyLen
    ensures RootOk(l, Nd(id, [sep], [a, b])) && Rows(Nd(id, [sep], [a, b])) == Rows(a) + Rows(b)
  {
    var keys, kids := [sep], [a, b];
    forall i: nat | i < |kids| ensures KidOk(l, keys, kids, None, None, None, i) {}
    assert !Overfull(keys) by {
      Thresholds(l);
      UsedOne(sep);
    }
    assert NodeOk(l, keys, kids, None, None, None);
    TreeIsNode(l, id, keys, kids, None, None, None);
    assert RowsOf(kids) == Rows(a) + Rows(b) by {
      RowsAppend([a], [b]);
      RowsOne(a);
      RowsOne(b);
      assert [a] + [b] == kids;
    }
  }

  lemma RootStored(pages: Pages, a: Tree, sep: Key, b: Tree, next: nat)
    requires SplitStored(pages, Top, a, b, next)
    ensures Stored(pages[next := NodePage([sep], [a.id, b.id])], Nd(next, [sep], [a, b]), next + 1)
  {
    assert forall id :: id in AllIds(a) + AllIds(b) ==> id in AllIds(a) + AllIds(b) + PathIds(Top);
    assert [a] + [b] == [a, b];
    AllIdsAppend([a], [b]);
    AllIdsOne(a);
    AllIdsOne(b);
    DistinctKidsAppend([a], [b]);
    DistinctOne(a);
    DistinctOne(b);
    StoreNode(pages, next, [sep], [a, b]);
    assert Ids([a, b]) == [a.id, b.id];
  }

  // ---------------------------------------------------------------- the leaf of an insert

  lemma {:induction false} HasUp(l: Layout, root: Tree, path: Path, cur: Tree, key: Key)
    requires TotalOrder(l.before) && Leads(root, path, cur) && PathOk(l, path, key)
    ensures L.Has(Rows(root), key) <==> L.Has(Rows(cur), key)
    decreases path
  {
    if path.Under? {
      var t, i, lo, hi, after := path.t, path.i, PathLo(path.up), PathHi(path.up), PathAfter(path.up);
      TreeIsNode(l, t.id, t.keys, t.kids, lo, hi, after);
      ChildWithin(l, t.keys, lo, hi, key);
      RowsBeside(l, t.keys, t.kids, lo, hi, after, key, i);
      RowsAround(t.kids, i);
      HasInMiddle(l, RowsOf(t.kids[..i]), Rows(cur), RowsOf(t.kids[i + 1..]), key);
      HasUp(l, root, path.up, t, key);
    }
  }

  lemma LeafStays(l: Layout, pages: Pages, next: nat, root: Tree, path: Path, cur: Tree, e: Entry)
    requires l.Valid() && TotalOrder(l.before) && RootOk(l, root) && At(l, pages, root, path, cur, e.key) && cur.Lf?
             && |e.key| <= l.maxKeyLen
    requires L.Insert(l, cur.leaf, e).Some? && L.Fits(l, L.Insert(l, cur.leaf, e).value)
             && forall id :: id in AllIds(root) ==> id < next
    ensures var leaf := L.Insert(l, cur.leaf, e).value;
            GrownRoot(l, root, Plug(path, Lf(cur.id, leaf)), e)
                && Stored(Put(pages, cur.id, LeafPage(leaf)), Plug(path, Lf(cur.id, leaf)), next)
  {
    var c := Lf(cur.id, L.Insert(l, cur.leaf, e).value);
    LeafGrows(l, cur.id, cur.leaf, e, PathLo(path), PathHi(path), PathAfter(path));
    GrowsUp(l, root, path, cur, e, c);
    RootKids(root, path, cur, c);
    LeafStored(pages, root, path, cur, c.leaf, next);
  }

  /** A leaf rewritten in its place. */
  lemma LeafStored(pages: Pages, root: Tree, path: Path, cur: Tree, leaf: L.Leaf, next: nat)
    requires Leads(root, path, cur) && cur.Lf? && PathHolds(pages, path) && AllIds(cur) !! PathIds(path)
    requires forall id :: id in AllIds(cur) + PathIds(path) ==> id < next
    ensures Stored(Put(pages, cur.id, LeafPage(leaf)), Plug(path, Lf(cur.id, leaf)), next)
  {
    LeadsFills(root, path, cur);
    PathHoldsElsewhere(pages, path, cur.id, LeafPage(leaf));
    PlugHolds(Put(pages, cur.id, LeafPage(leaf)), path, Lf(cur.id, leaf));
  }

  /** A leaf that overflows was not safe, and is overfull by one entry. */
  lemma LeafOverfull(l: Layout, leaf: L.Leaf, e: Entry)
    requires TotalOrder(l.before) && L.LeafOk(l, leaf) && L.Fits(l, leaf) && |e.key| <= l.maxKeyLen
    requires L.Insert(l, leaf, e).Some? && !L.Fits(l, L.Insert(l, leaf, e).value)
    ensures !SafeForInsert(l, LeafPage(leaf)) && L.KeysFit(l, L.Insert(l, leaf, e).value.entries)
    ensures L.Used(L.Insert(l, leaf, e).value.entries) <= l.LeafCapacity() + l.LeafMax()
  {
    L.InsertOk(l, leaf, e);
  }

  lemma LeafSplitsUp(l: Layout, pages: Pages, next: nat, root: Tree, path: Path, cur: Tree, e: Entry, mid: nat)
    returns (a: Tree, b: Tree)
    requires l.Valid() && TotalOrder(l.before) && At(l, pages, root, path, cur, e.key) && cur.Lf?
             && |e.key| <= l.maxKeyLen
    requires L.Insert(l, cur.leaf, e).Some? && forall id :: id in AllIds(root) ==> id < next
    requires var entries := L.Insert(l, cur.leaf, e).value.entries;
             1 <= mid < |entries| && L.Used(entries[..mid]) <= l.LeafCapacity()
                 && L.Used(entries[mid..]) <= l.LeafCapacity()
    ensures a.id == cur.id && b.id == next
    ensures var entries := L.Insert(l, cur.leaf, e).value.entries;
            a.Lf? && b.Lf? && a.leaf.entries == entries[..mid] && b.leaf.entries == entries[mid..]
    ensures var leaf := L.Insert(l, cur.leaf, e).value;
            && Rising(l, root, path, cur, e, a, leaf.entries[mid].key, b)
            && SplitStored(Put(Put(pages, cur.id, LeafPage(L.SplitLeft(leaf, mid, next))), next,
                LeafPage(L.SplitRight(leaf, mid))), path, a, b, next + 1)
  {
    var leaf := L.Insert(l, cur.leaf, e).value;
    a, b := Lf(cur.id, L.SplitLeft(leaf, mid, next)), Lf(next, L.SplitRight(leaf, mid));
    LeafSplits(l, cur.id, cur.leaf, e, next, mid, PathLo(path), PathHi(path), PathAfter(path));
    TwoLeavesStored(pages, path, cur.id, a.leaf, next, b.leaf);
  }

  lemma TwoLeavesStored(pages: Pages, path: Path, id: nat, left: L.Leaf, next: nat, right: L.Leaf)
    requires PathHolds(pages, path) && id !in PathIds(path) && id < next && forall p :: p in PathIds(path) ==> p < next
    ensures SplitStored(Put(Put(pages, id, LeafPage(left)), next, LeafPage(right)), path, Lf(id, left),
            Lf(next, right), next + 1)
  {
    PathHoldsElsewhere(pages, path, id, LeafPage(left));
    PathHoldsElsewhere(Put(pages, id, LeafPage(left)), path, next, LeafPage(right));
  }
}
