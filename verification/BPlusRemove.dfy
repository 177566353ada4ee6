/** Removing from the B+ tree: an underfull page borrows from a sibling or merges with it, and its
    parent may be underfull in turn. */
module BPlusRemove {
  import opened Base
  import opened BPlusLayout
  import opened BPlusTree
  import opened BPlusPages
  import opened BPlusFull
  import opened BPlusIndex
  import L = BPlusLeaf

  // ---------------------------------------------------------------- a removal on its way up

  /** The subtree `cur` at the end of the path has become `c` by removing `key`. */
  ghost predicate Sinking(l: Layout, root: Tree, path: Path, cur: Tree, c: Tree, key: Key) {
    Leads(root, path, cur) && PathOk(l, path, key)
        && ShrunkOk(l, cur, c, PathLo(path), PathHi(path), PathAfter(path), key)
  }

  function PageUsed(page: Page): nat { if page.LeafPage? then L.Used(page.leaf.entries) else Used(page.keys) }

  function PageMax(l: Layout, page: Page): nat { if page.LeafPage? then l.LeafMax() else l.InternalMax() }

  /** A page that lost at most one entry. */
  predicate LostOne(l: Layout, was: Tree, now: Tree) {
    (was.Lf? <==> now.Lf?) && PageUsed(PageOf(now)) >= PageUsed(PageOf(was)) - PageMax(l, PageOf(was))
  }

  /** Everything below `c` is stored, and the pages above are as they were. */
  ghost predicate SunkStored(pages: Pages, path: Path, c: Tree, next: nat) {
    && PathHolds(pages, path) && HoldsBelow(pages, c) && DistinctIds(c) && AllIds(c) !! PathIds(path)
    && (forall id :: id in AllIds(c) + PathIds(path) ==> id < next)
  }

  /** The parent's children with `c` in place. */
  function WithKid(t: Tree, i: nat, c: Tree): seq<Tree>
    requires t.Nd? && i < |t.kids|
  {
    t.kids[i := c]
  }

  lemma KidsStored(pages: Pages, path: Path, c: Tree, next: nat)
    requires path.Under? && SunkStored(pages, path, c, next)
    ensures var kids := WithKid(path.t, path.i, c);
            && DistinctKids(kids) && path.t.id !in AllIdsOf(kids) && {path.t.id} + AllIdsOf(kids) !! PathIds(path.up)
            && {path.t.id} + AllIdsOf(kids) + PathIds(path.up) == AllIds(c) + PathIds(path)
            && (forall j :: 0 <= j < |kids| ==> HoldsBelow(pages, kids[j]))
            && (forall j :: 0 <= j < |kids| && j != path.i ==> Holds(pages, kids[j]))
  {
    var kids, i := WithKid(path.t, path.i, c), path.i;
    AllIdsAround(kids, i);
    DistinctAround(kids, i);
    assert kids[..i] == path.t.kids[..i] && kids[i + 1..] == path.t.kids[i + 1..];
    forall j | 0 <= j < |kids| && j != i ensures Holds(pages, kids[j]) {
      if j < i { assert kids[j] == path.t.kids[..i][j]; } else { assert kids[j] == path.t.kids[i + 1..][j - i - 1]; }
    }
  }

  /** What is stored once the parent has been dealt with. */
  ghost predicate ParentDone(pages: Pages, path: Path, c: Tree, t: Tree, next: nat) {
    path.Under? && Holds(pages, t) && SunkStored(pages, path.up, t, next)
  }

  /** Nothing but the child's own page is written. */
  lemma KeptStored(pages: Pages, path: Path, c: Tree, next: nat)
    requires path.Under? && SunkStored(pages, path, c, next) && Fills(path, c)
    ensures ParentDone(Put(pages, c.id, PageOf(c)), path, c, Nd(path.t.id, path.t.keys, WithKid(path.t, path.i, c)),
            next)
  {
    var pages1 := Put(pages, c.id, PageOf(c));
    OwnId(c);
    KidHeld(pages, c);
    PathHoldsElsewhere(pages, path, c.id, PageOf(c));
    PlugOne(pages1, path, c);
  }

  /** A node's children, with two of them to be replaced, under the pages of `up`. */
  ghost predicate PairUnder(pages: Pages, up: Path, id: nat, left: seq<Tree>, a: Tree, b: Tree, right: seq<Tree>,
                            next: nat) {
    var ids := {id} + AllIdsOf(left) + AllIds(a) + AllIds(b) + AllIdsOf(right);
    && ApartKids(left, a, b, right) && HoldsAll(pages, left) && HoldsAll(pages, right) && PathHolds(pages, up)
    && id !in AllIdsOf(left) + AllIds(a) + AllIds(b) + AllIdsOf(right) && ids !! PathIds(up)
    && (forall n :: n in ids + PathIds(up) ==> n < next)
  }

  lemma MergedUnder(pages: Pages, up: Path, id: nat, keys: seq<Key>, left: seq<Tree>, a: Tree, b: Tree,
                    right: seq<Tree>, m: Tree, next: nat)
    requires PairUnder(pages, up, id, left, a, b, right, next) && HoldsBelow(pages, m) && DistinctIds(m)
             && AllIds(m) <= AllIds(a) + AllIds(b)
    ensures var t, pages' := Nd(id, keys, left + [m] + right),
            Put(Put(pages, m.id, PageOf(m)), id, NodePage(keys, Ids(left + [m] + right)));
            Holds(pages', t) && SunkStored(pages', up, t, next)
  {
    var page := NodePage(keys, Ids(left + [m] + right));
    OneKidDistinct(left, m, right);
    StoreKid(pages, id, keys, left, m, right);
    OwnId(m);
    PathHoldsElsewhere(pages, up, m.id, PageOf(m));
    PathHoldsElsewhere(Put(pages, m.id, PageOf(m)), up, id, page);
    ReplacedUnder(pages, up, id, keys, left, a, b, right, left + [m] + right, next);
  }

  /** Children with no page id but those of the two they replace. */
  lemma ReplacedUnder(pages: Pages, up: Path, id: nat, keys: seq<Key>, left: seq<Tree>, a: Tree, b: Tree,
                      right: seq<Tree>, kids: seq<Tree>, next: nat)
    requires PairUnder(pages, up, id, left, a, b, right, next) && DistinctKids(kids)
             && AllIdsOf(kids) <= AllIdsOf(left) + AllIds(a) + AllIds(b) + AllIdsOf(right)
    ensures var t := Nd(id, keys, kids);
            DistinctIds(t) && AllIds(t) !! PathIds(up) && forall n :: n in AllIds(t) + PathIds(up) ==> n < next
  {
    var ids := {id} + AllIdsOf(left) + AllIds(a) + AllIds(b) + AllIdsOf(right);
    assert AllIds(Nd(id, keys, kids)) <= ids;
    forall n | n in AllIds(Nd(id, keys, kids)) + PathIds(up) ensures n < next { assert n in ids + PathIds(up); }
  }

  lemma SharedUnder(pages: Pages, up: Path, id: nat, keys: seq<Key>, left: seq<Tree>, a: Tree, b: Tree,
                    right: seq<Tree>, x: Tree, y: Tree, next: nat)
    requires PairUnder(pages, up, id, left, a, b, right, next) && HoldsBelow(pages, x) && HoldsBelow(pages, y)
             && DistinctIds(x) && DistinctIds(y)
    requires AllIds(x) !! AllIds(y) && AllIds(x) + AllIds(y) <= AllIds(a) + AllIds(b)
    ensures var t := Nd(id, keys, left + [x, y] + right);
            var pages' := Put(Put(Put(pages, x.id, PageOf(x)), y.id, PageOf(y)), id,
                NodePage(keys, Ids(left + [x, y] + right)));
            Holds(pages', t) && SunkStored(pages', up, t, next)
  {
    var pages1 := Put(pages, x.id, PageOf(x));
    var pages2 := Put(pages1, y.id, PageOf(y));
    assert ApartKids(left, x, y, right);
    TwoKidsDistinct(left, x, y, right);
    StoreKids(pages, id, keys, left, x, y, right);
    OwnId(x);
    OwnId(y);
    PathHoldsElsewhere(pages, up, x.id, PageOf(x));
    PathHoldsElsewhere(pages1, up, y.id, PageOf(y));
    PathHoldsElsewhere(pages2, up, id, NodePage(keys, Ids(left + [x, y] + right)));
    ReplacedUnder(pages, up, id, keys, left, a, b, right, left + [x, y] + right, next);
  }

  lemma ChildrenUnder(pages: Pages, path: Path, c: Tree, next: nat, p: nat)
    requires path.Under? && SunkStored(pages, path, c, next) && p + 1 < |path.t.kids|
             && (path.i == p || path.i == p + 1)
    ensures var kids := WithKid(path.t, path.i, c);
            PairUnder(pages, path.up, path.t.id, kids[..p], kids[p], kids[p + 1], kids[p + 2..], next)
  {
    var kids := WithKid(path.t, path.i, c);
    KidsStored(pages, path, c, next);
    PairAround(kids, p);
  }

  /** The parent with the smaller child in place. */
  ghost function Sunk(path: Path, c: Tree): Tree
    requires path.Under? && path.t.Nd? && path.i < |path.t.kids|
  {
    Nd(path.t.id, path.t.keys, WithKid(path.t, path.i, c))
  }

  ghost predicate ShrunkUp(l: Layout, path: Path, t: Tree, key: Key) {
    path.Under? && ShrunkOk(l, path.t, t, PathLo(path.up), PathHi(path.up), PathAfter(path.up), key)
  }

  lemma ParentShrinks(l: Layout, root: Tree, path: Path, cur: Tree, c: Tree, key: Key)
    requires l.Valid() && TotalOrder(l.before) && path.Under? && Sinking(l, root, path, cur, c, key)
    ensures path.t.Nd? && path.i < |path.t.kids| == |path.t.keys| + 1 && path.i == ChildIndex(l, path.t.keys, key)
            && Fills(path, c)
    ensures ShrunkUp(l, path, Sunk(path, c), key) && Shaped(l, Sunk(path, c))
  {
    KidShrinks(l, path.t, path.i, c, PathLo(path.up), PathHi(path.up), PathAfter(path.up), key);
    OkIsShaped(l, Sunk(path, c), PathLo(path.up), PathHi(path.up), PathAfter(path.up));
  }

  /** A node that holds the same rows in the same place has shrunk as much. */
  lemma ShrunkRebalanced(l: Layout, path: Path, t: Tree, t': Tree, key: Key)
    requires ShrunkUp(l, path, t, key) && Rebalanced(l, t, t', PathLo(path.up), PathHi(path.up), PathAfter(path.up))
    ensures ShrunkUp(l, path, t', key)
  {}

  /** What the child and its sibling become. */
  lemma ChildPairs(l: Layout, path: Path, c: Tree, key: Key, p: nat)
    requires l.Valid() && TotalOrder(l.before) && path.Under? && path.t.Nd? && Underfull(l, c)
    requires p < |path.t.keys| && path.i < |path.t.kids| == |path.t.keys| + 1
             && path.i == (if path.i == 0 then p else p + 1)
    requires ShrunkUp(l, path, Sunk(path, c), key) && Shaped(l, Sunk(path, c))
    ensures var t := Sunk(path, c);
            && PairInPlace(l, t, p, Pair(l, t.kids[p], t.keys[p], t.kids[p + 1], path.i == 0), PathLo(path.up),
                PathHi(path.up), PathAfter(path.up))
            && PairPages(l, PageOf(t.kids[p]), t.keys[p], PageOf(t.kids[p + 1]), path.i == 0) ==
                PagesOfPair(Pair(l, t.kids[p], t.keys[p], t.kids[p + 1], path.i == 0))
  {
    var kids := WithKid(path.t, path.i, c);
    TreeIsNode(l, path.t.id, path.t.keys, kids, PathLo(path.up), PathHi(path.up), PathAfter(path.up));
    KidsPair(l, path.t.keys, kids, p, path.i == 0, PathLo(path.up), PathHi(path.up), PathAfter(path.up));
    PairPagesOk(l, kids[p], path.t.keys[p], kids[p + 1], path.i == 0);
  }

  /** A child one entry short, in a tree that is full otherwise. */
  ghost predicate EvenChild(l: Layout, n: nat, path: Path, c: Tree) {
    path.Under? && PathEven(l, n, path) && Short(l, n, c) && (path.up.Top? ==> |path.t.kids| >= 2)
  }

  /** What it and its sibling become is full. */
  lemma ChildPairsEven(l: Layout, n: nat, path: Path, c: Tree, key: Key, p: nat)
    requires l.Valid() && TotalOrder(l.before) && path.Under? && path.t.Nd? && Underfull(l, c)
    requires p < |path.t.keys| && path.i < |path.t.kids| == |path.t.keys| + 1
             && path.i == (if path.i == 0 then p else p + 1)
    requires ShrunkUp(l, path, Sunk(path, c), key) && Shaped(l, Sunk(path, c)) && EvenChild(l, n, path, c)
    ensures var t := Sunk(path, c);
            EvenPair(l, n, Pair(l, t.kids[p], t.keys[p], t.kids[p + 1], path.i == 0))
  {
    var keys, kids := path.t.keys, WithKid(path.t, path.i, c);
    TreeIsNode(l, path.t.id, keys, kids, PathLo(path.up), PathHi(path.up), PathAfter(path.up));
    AdjacentKids(l, keys, kids, PathLo(path.up), PathHi(path.up), PathAfter(path.up), p);
    PairsEven(l, n, kids[p], keys[p], kids[p + 1], path.i == 0, LoAt(keys, PathLo(path.up), p),
        HiAt(keys, PathHi(path.up), p + 1), NextAt(kids, PathAfter(path.up), p + 1));
  }

  lemma ChildPairStored(l: Layout, pages: Pages, path: Path, c: Tree, next: nat, p: nat, sep: Key, right: bool)
    requires path.Under? && SunkStored(pages, path, c, next) && p + 1 < |path.t.kids|
             && (path.i == p || path.i == p + 1) && Shaped(l, Sunk(path, c))
    ensures var kids := WithKid(path.t, path.i, c);
            match Pair(l, kids[p], sep, kids[p + 1], right)
            case Merged(m) =>
                m.id == kids[p].id && HoldsBelow(pages, m) && DistinctIds(m)
                && AllIds(m) <= AllIds(kids[p]) + AllIds(kids[p + 1])
            case Shared(x, _, y) =>
              && x.id == kids[p].id && y.id == kids[p + 1].id && HoldsBelow(pages, x) && HoldsBelow(pages, y)
              && DistinctIds(x) && DistinctIds(y)
              && AllIds(x) !! AllIds(y) && AllIds(x) + AllIds(y) <= AllIds(kids[p]) + AllIds(kids[p + 1])
            case Empty => true
  {
    var kids := WithKid(path.t, path.i, c);
    KidsStored(pages, path, c, next);
    PairAround(kids, p);
    PairStored(l, pages, kids[p], sep, kids[p + 1], right);
  }

  /** What rebalancing a child did to its parent. */
  datatype Rebalance = Changed | Kept | Broken

  /** What rebalancing leaves of a node: the same rows with at most one separator less, and no
      single child that is a single child's parent. */
  ghost predicate RebalancedNode(l: Layout, t: Tree, t': Tree) {
    && t.Nd? && t'.Nd? && LostOne(l, t, t')
    && (|t'.kids| >= |t.kids|
        || (|t'.kids| + 1 == |t.kids| && (|t'.kids| == 1 ==> t'.kids[0].Lf? || |t'.kids[0].kids| >= 2)))
  }

  ghost predicate PairInPlace(l: Layout, t: Tree, p: nat, r: Paired, lo: Option<Key>, hi: Option<Key>,
                              after: Option<nat>) {
    && t.Nd? && p < |t.keys| && |t.kids| == |t.keys| + 1
    && PairedOk(l, t.kids[p], t.kids[p + 1], r, LoAt(t.keys, lo, p), HiAt(t.keys, hi, p + 1),
        NextAt(t.kids, after, p + 1))
  }

  /** The node with children `p` and `p + 1` made one. */
  function MergedNode(t: Tree, p: nat, m: Tree): Tree
    requires t.Nd? && p < |t.keys| && |t.kids| == |t.keys| + 1
  {
    Nd(t.id, t.keys[..p] + t.keys[p + 1..], t.kids[..p] + [m] + t.kids[p + 2..])
  }

  lemma MergedShape(l: Layout, t: Tree, p: nat, right: bool, m: Tree)
    requires t.Nd? && p < |t.keys| && |t.kids| == |t.keys| + 1 && KeysFit(l, t.keys)
    requires Shaped(l, t.kids[p]) && Shaped(l, t.kids[p + 1])
             && Pair(l, t.kids[p], t.keys[p], t.kids[p + 1], right) == Merged(m)
    ensures RebalancedNode(l, t, MergedNode(t, p, m))
  {
    SeparatorLost(l, t.keys, p);
    PairMany(l, t.kids[p], t.keys[p], t.kids[p + 1], right);
  }

  /** A merged node has the children of both. */
  lemma PairMany(l: Layout, a: Tree, sep: Key, b: Tree, right: bool)
    requires Shaped(l, a) && Shaped(l, b)
    ensures var r := Pair(l, a, sep, b, right); r.Merged? && r.t.Nd? ==> |r.t.kids| >= 2
  {}

  lemma MergedIds(kids: seq<Tree>, p: nat, m: Tree)
    requires p + 1 < |kids| && m.id == kids[p].id
    ensures Ids(kids[..p] + [m] + kids[p + 2..]) == Ids(kids)[..p + 1] + Ids(kids)[p + 2..]
  {}

  /** The node with children `p` and `p + 1` having shared out their entries. */
  function SharedNode(t: Tree, p: nat, a: Tree, sep: Key, b: Tree): Tree
    requires t.Nd? && p < |t.keys| && |t.kids| == |t.keys| + 1
  {
    Nd(t.id, t.keys[p := sep], t.kids[p := a][p + 1 := b])
  }

  lemma SharedKids(kids: seq<Tree>, p: nat, a: Tree, b: Tree)
    requires p + 1 < |kids| && a.id == kids[p].id && b.id == kids[p + 1].id
    ensures kids[p := a][p + 1 := b] == kids[..p] + [a, b] + kids[p + 2..] && Ids(kids[p := a][p + 1 := b]) == Ids(kids)
  {}

  lemma SharedShape(l: Layout, t: Tree, p: nat, a: Tree, sep: Key, b: Tree)
    requires t.Nd? && p < |t.keys| && |t.kids| == |t.keys| + 1 && KeysFit(l, t.keys)
    ensures RebalancedNode(l, t, SharedNode(t, p, a, sep, b))
  {
    UsedReplaced(t.keys, p, sep);
  }

  lemma ChildMerged(l: Layout, pages: Pages, path: Path, c: Tree, key: Key, next: nat, p: nat, m: Tree)
    requires l.Valid() && TotalOrder(l.before) && path.Under? && SunkStored(pages, path, c, next)
             && (path.i == p || path.i == p + 1)
    requires p < |path.t.keys| && |path.t.kids| == |path.t.keys| + 1 && ShrunkUp(l, path, Sunk(path, c), key)
             && Shaped(l, Sunk(path, c))
    requires var t := Sunk(path, c);
             && PairInPlace(l, t, p, Merged(m), PathLo(path.up), PathHi(path.up), PathAfter(path.up))
             && Pair(l, t.kids[p], t.keys[p], t.kids[p + 1], path.i == 0) == Merged(m)
    ensures ShrunkUp(l, path, MergedNode(Sunk(path, c), p, m), key) && m.id == Sunk(path, c).kids[p].id
    ensures var t := MergedNode(Sunk(path, c), p, m);
            ParentDone(Put(Put(pages, m.id, PageOf(m)), path.t.id, PageOf(t)), path, c, t, next)
  {
    var t := Sunk(path, c);
    NodeMerged(l, t, p, m, PathLo(path.up), PathHi(path.up), PathAfter(path.up));
    ShrunkRebalanced(l, path, t, MergedNode(t, p, m), key);
    ChildrenUnder(pages, path, c, next, p);
    ChildPairStored(l, pages, path, c, next, p, t.keys[p], path.i == 0);
    MergedUnder(pages, path.up, t.id, t.keys[..p] + t.keys[p + 1..], t.kids[..p], t.kids[p], t.kids[p + 1],
        t.kids[p + 2..], m, next);
  }

  lemma ChildShared(l: Layout, pages: Pages, path: Path, c: Tree, key: Key, next: nat, p: nat, a: Tree, sep: Key,
                    b: Tree)
    requires l.Valid() && TotalOrder(l.before) && path.Under? && SunkStored(pages, path, c, next)
             && (path.i == p || path.i == p + 1)
    requires p < |path.t.keys| && |path.t.kids| == |path.t.keys| + 1 && ShrunkUp(l, path, Sunk(path, c), key)
             && Shaped(l, Sunk(path, c))
    requires var t := Sunk(path, c);
             && PairInPlace(l, t, p, Shared(a, sep, b), PathLo(path.up), PathHi(path.up), PathAfter(path.up))
             && Pair(l, t.kids[p], t.keys[p], t.kids[p + 1], path.i == 0) == Shared(a, sep, b)
             && FitsReplacing(t.keys, p, sep)
    ensures ShrunkUp(l, path, SharedNode(Sunk(path, c), p, a, sep, b), key) && a.id == Sunk(path, c).kids[p].id
            && b.id == Sunk(path, c).kids[p + 1].id
    ensures var t := SharedNode(Sunk(path, c), p, a, sep, b);
            ParentDone(Put(Put(Put(pages, a.id, PageOf(a)), b.id, PageOf(b)), path.t.id, PageOf(t)), path, c, t, next)
  {
    var t := Sunk(path, c);
    NodeShared(l, t, p, a, sep, b, PathLo(path.up), PathHi(path.up), PathAfter(path.up));
    ShrunkRebalanced(l, path, t, SharedNode(t, p, a, sep, b), key);
    ChildrenUnder(pages, path, c, next, p);
    ChildPairStored(l, pages, path, c, next, p, t.keys[p], path.i == 0);
    SharedUnder(pages, path.up, t.id, t.keys[p := sep], t.kids[..p], t.kids[p], t.kids[p + 1], t.kids[p + 2..], a, b,
        next);
    SharedKids(t.kids, p, a, b);
  }

  /** The pages of a child and its sibling. */
  lemma SiblingPages(pages: Pages, path: Path, c: Tree, next: nat, p: nat)
    requires path.Under? && SunkStored(pages, path, c, next) && p + 1 < |path.t.kids|
             && path.i == (if path.i == 0 then p else p + 1)
    ensures Find(pages, path.t.id) == Some(PageOf(path.t))
    ensures if path.i == 0
            then Find(pages, path.t.kids[1].id) == Some(PageOf(Sunk(path, c).kids[1])) && Sunk(path, c).kids[0] == c
            else Find(pages, path.t.kids[p].id) == Some(PageOf(Sunk(path, c).kids[p])) && Sunk(path, c).kids[p + 1] == c
  {
    KidsStored(pages, path, c, next);
    var kids := WithKid(path.t, path.i, c);
    assert Holds(pages, kids[if path.i == 0 then 1 else p]);
  }

  /** The pages of the child and its sibling make up `pair`, in the order they are in. */
  ghost predicate PairsTo(l: Layout, path: Path, c: Tree, p: nat, pair: PagePair) {
    && path.Under? && path.t.Nd? && path.i < |path.t.kids| == |path.t.keys| + 1 && p < |path.t.keys|
    && path.i == (if path.i == 0 then p else p + 1)
    && var t := Sunk(path, c); PairPages(l, PageOf(t.kids[p]), t.keys[p], PageOf(t.kids[p + 1]), path.i == 0) == pair
  }

  lemma WithKidIds(t: Tree, i: nat, c: Tree)
    requires t.Nd? && i < |t.kids| && c.id == t.kids[i].id
    ensures Ids(WithKid(t, i, c)) == Ids(t.kids)
  {}

  lemma PairMerges(l: Layout, pages: Pages, path: Path, c: Tree, key: Key, next: nat, p: nat, m: Page) returns (t: Tree)
    requires l.Valid() && TotalOrder(l.before) && SunkStored(pages, path, c, next) && Underfull(l, c)
    requires PairsTo(l, path, c, p, OnePage(m)) && Fills(path, c)
    requires ShrunkUp(l, path, Sunk(path, c), key) && Shaped(l, Sunk(path, c))
    ensures ShrunkUp(l, path, t, key) && RebalancedNode(l, path.t, t)
    ensures EvenChild(l, |key|, path, c) ==> EvenParent(l, |key|, path, t)
    ensures var keys, kids := path.t.keys, Ids(path.t.kids);
            ParentDone(Put(Put(pages, kids[p], m), path.t.id,
                NodePage(keys[..p] + keys[p + 1..], kids[..p + 1] + kids[p + 2..])), path, c, t, next)
  {
    ChildPairs(l, path, c, key, p);
    var n := Sunk(path, c);
    var one := Pair(l, n.kids[p], n.keys[p], n.kids[p + 1], path.i == 0).t;
    t := MergedNode(n, p, one);
    ChildMerged(l, pages, path, c, key, next, p, one);
    MergedShape(l, n, p, path.i == 0, one);
    MergedIds(n.kids, p, one);
    WithKidIds(path.t, path.i, c);
    if EvenChild(l, |key|, path, c) { MergeIsEven(l, path, c, key, p, one); }
  }

  lemma MergeIsEven(l: Layout, path: Path, c: Tree, key: Key, p: nat, m: Tree)
    requires l.Valid() && TotalOrder(l.before) && Underfull(l, c) && EvenChild(l, |key|, path, c)
    requires p < |path.t.keys| && path.i < |path.t.kids| == |path.t.keys| + 1
             && path.i == (if path.i == 0 then p else p + 1)
    requires ShrunkUp(l, path, Sunk(path, c), key) && Shaped(l, Sunk(path, c))
    requires var t := Sunk(path, c); Pair(l, t.kids[p], t.keys[p], t.kids[p + 1], path.i == 0) == Merged(m)
    ensures EvenParent(l, |key|, path, MergedNode(Sunk(path, c), p, m))
  {
    ChildPairsEven(l, |key|, path, c, key, p);
    MergedParent(l, |key|, path, Sunk(path, c).kids, p, m);
  }

  lemma ShareIsEven(l: Layout, path: Path, c: Tree, key: Key, p: nat, a: Tree, sep: Key, b: Tree)
    requires l.Valid() && TotalOrder(l.before) && Underfull(l, c) && EvenChild(l, |key|, path, c)
    requires p < |path.t.keys| && path.i < |path.t.kids| == |path.t.keys| + 1
             && path.i == (if path.i == 0 then p else p + 1)
    requires ShrunkUp(l, path, Sunk(path, c), key) && Shaped(l, Sunk(path, c))
    requires var t := Sunk(path, c); Pair(l, t.kids[p], t.keys[p], t.kids[p + 1], path.i == 0) == Shared(a, sep, b)
    ensures EvenParent(l, |key|, path, SharedNode(Sunk(path, c), p, a, sep, b))
  {
    ChildPairsEven(l, |key|, path, c, key, p);
    SharedParent(l, |key|, path, Sunk(path, c).kids, p, a, sep, b);
  }

  /** The parent in turn: below it all is full, and it is one entry short at most unless it is the root. */
  ghost predicate EvenParent(l: Layout, n: nat, path: Path, t: Tree) {
    path.Under? && EvenBelow(l, n, t) && (path.up.Under? ==> Short(l, n, t))
  }

  /** The separator that borrowing gives the parent is no longer than the one it replaces. */
  lemma RoomForSeparator(l: Layout, path: Path, c: Tree, key: Key, p: nat, a: Page, sep: Key, b: Page)
    requires l.Valid() && TotalOrder(l.before) && Underfull(l, c) && PairsTo(l, path, c, p, TwoPages(a, sep, b))
    requires ShrunkUp(l, path, Sunk(path, c), key) && Shaped(l, Sunk(path, c))
    ensures EvenChild(l, |key|, path, c) ==> FitsReplacing(path.t.keys, p, sep)
  {
    if EvenChild(l, |key|, path, c) {
      ChildPairs(l, path, c, key, p);
      ChildPairsEven(l, |key|, path, c, key, p);
      SiblingAndRoom(l, |key|, path, sep, p);
    }
  }

  lemma PairShares(l: Layout, pages: Pages, path: Path, c: Tree, key: Key, next: nat, p: nat, a: Page, sep: Key,
                   b: Page) returns (t: Tree)
    requires l.Valid() && TotalOrder(l.before) && SunkStored(pages, path, c, next) && Underfull(l, c)
    requires PairsTo(l, path, c, p, TwoPages(a, sep, b)) && Fills(path, c) && FitsReplacing(path.t.keys, p, sep)
    requires ShrunkUp(l, path, Sunk(path, c), key) && Shaped(l, Sunk(path, c))
    ensures ShrunkUp(l, path, t, key) && RebalancedNode(l, path.t, t)
    ensures EvenChild(l, |key|, path, c) ==> EvenParent(l, |key|, path, t)
    ensures var keys, kids := path.t.keys, Ids(path.t.kids);
            ParentDone(Put(Put(Put(pages, kids[p], a), kids[p + 1], b), path.t.id, NodePage(keys[p := sep], kids)),
                path, c, t, next)
  {
    ChildPairs(l, path, c, key, p);
    var n := Sunk(path, c);
    var two := Pair(l, n.kids[p], n.keys[p], n.kids[p + 1], path.i == 0);
    t := SharedNode(n, p, two.a, sep, two.b);
    ChildShared(l, pages, path, c, key, next, p, two.a, sep, two.b);
    SharedShape(l, n, p, two.a, sep, two.b);
    SharedKids(n.kids, p, two.a, two.b);
    WithKidIds(path.t, path.i, c);
    if EvenChild(l, |key|, path, c) { ShareIsEven(l, path, c, key, p, two.a, sep, two.b); }
  }

  /** An underfull child and its sibling always make up one page or two. */
  lemma PairNotEmpty(l: Layout, pages: Pages, path: Path, c: Tree, key: Key, next: nat, p: nat, pair: PagePair)
    requires l.Valid() && TotalOrder(l.before) && SunkStored(pages, path, c, next) && Underfull(l, c)
    requires PairsTo(l, path, c, p, pair)
    requires ShrunkUp(l, path, Sunk(path, c), key) && Shaped(l, Sunk(path, c))
    ensures pair != NoPage
  {
    ChildPairs(l, path, c, key, p);
  }

  /** When an underfull child has to stay as it is: it has no sibling, or borrowing needs a separator that the
      parent has no room for. */
  ghost predicate MustKeep(l: Layout, path: Path, c: Tree) {
    && path.Under? && path.t.Nd? && path.i < |path.t.kids| == |path.t.keys| + 1 && Shaped(l, Sunk(path, c))
    && (path.t.keys == []
        || var p, kids := if path.i == 0 then 0 else path.i - 1, WithKid(path.t, path.i, c);
           var pair := Pair(l, kids[p], path.t.keys[p], kids[p + 1], path.i == 0);
           pair.Shared? && !FitsReplacing(path.t.keys, p, pair.sep))
  }

  lemma KeepsWhen(l: Layout, path: Path, c: Tree, key: Key, p: nat, pair: PagePair)
    requires l.Valid() && TotalOrder(l.before) && Underfull(l, c) && PairsTo(l, path, c, p, pair)
    requires ShrunkUp(l, path, Sunk(path, c), key) && Shaped(l, Sunk(path, c))
    ensures MustKeep(l, path, c) <==> pair.TwoPages? && !FitsReplacing(path.t.keys, p, pair.sep)
  {
    ChildPairs(l, path, c, key, p);
  }

  lemma HasSibling(l: Layout, n: nat, path: Path, c: Tree)
    requires l.Valid() && path.Under? && path.t.Nd? && |path.t.kids| == |path.t.keys| + 1 && !Overfull(path.t.keys)
    ensures EvenChild(l, n, path, c) ==> |path.t.kids| >= 2
  {
    if EvenChild(l, n, path, c) { SiblingAndRoom(l, n, path, [], 0); }
  }

  /** Rebalances an underfull child: it borrows from the sibling beside it, or merges with it. It is
      kept as it is when it has no sibling, or its parent has no room for the new separator. */
  method RebalanceChild(l: Layout, pages: Pages, parentId: nat, childPage: Page, key: Key, ghost next: nat,
                        ghost root: Tree, ghost path: Path, ghost cur: Tree, ghost c: Tree)
    returns (r: Rebalance, pages': Pages, ghost t: Tree)
    requires l.Valid() && TotalOrder(l.before) && path.Under? && parentId == path.t.id && childPage == PageOf(c)
             && Underfull(l, c)
    requires Sinking(l, root, path, cur, c, key) && SunkStored(pages, path, c, next)
    ensures r == Changed || r == Kept
    ensures ShrunkUp(l, path, t, key) && ParentDone(pages', path, c, t, next)
    ensures r == Changed ==> RebalancedNode(l, path.t, t)
    ensures r == Kept ==> t.Nd? && path.t.Nd? && |t.kids| == |path.t.kids|
    ensures r == Kept <==> MustKeep(l, path, c)
    ensures EvenChild(l, |key|, path, c) ==> r == Changed && EvenParent(l, |key|, path, t)
  {
    ParentShrinks(l, root, path, cur, c, key);
    HasSibling(l, |key|, path, c);
    var keys, kids := pages[parentId].keys, pages[parentId].kids;
    var i := ChildIndex(l, keys, key);
    KeptStored(pages, path, c, next);
    r, pages', t := Kept, Put(pages, kids[i], childPage), Sunk(path, c);
    if |kids| > 1 {
      var p := if i == 0 then 0 else i - 1;
      SiblingPages(pages, path, c, next, p);
      var pair;
      if i == 0 {
        pair := PairUp(l, childPage, keys[p], pages[kids[1]], true);
      } else {
        pair := PairUp(l, pages[kids[p]], keys[p], childPage, false);
      }
      PairNotEmpty(l, pages, path, c, key, next, p, pair);
      KeepsWhen(l, path, c, key, p, pair);
      match pair
      case NoPage =>
        r := Broken;
      case OnePage(m) =>
        t := PairMerges(l, pages, path, c, key, next, p, m);
        r, pages' := Changed,
            Put(Put(pages, kids[p], m), parentId, NodePage(keys[..p] + keys[p + 1..], kids[..p + 1] + kids[p + 2..]));
      case TwoPages(a, sep, b) =>
        RoomForSeparator(l, path, c, key, p, a, sep, b);
        if FitsReplacing(keys, p, sep) {
          t := PairShares(l, pages, path, c, key, next, p, a, sep, b);
          r, pages' := Changed,
              Put(Put(Put(pages, kids[p], a), kids[p + 1], b), parentId, NodePage(keys[p := sep], kids));
        }
    }
  }

  // ---------------------------------------------------------------- up to the root

  /** The tree after a removal: well-formed, without exactly the row of `key`. */
  ghost predicate RemovedRoot(l: Layout, root: Tree, t: Tree, key: Key) {
    RootOk(l, t) && First(t) == First(root) && L.Removed(Rows(root), Rows(t), key)
  }

  lemma {:induction false} ShrinksUp(l: Layout, root: Tree, path: Path, cur: Tree, c: Tree, key: Key)
    requires l.Valid() && TotalOrder(l.before) && Sinking(l, root, path, cur, c, key)
    ensures ShrunkOk(l, root, Plug(path, c), None, None, None, key)
    decreases path
  {
    if path.Under? {
      ParentShrinks(l, root, path, cur, c, key);
      ShrinksUp(l, root, path.up, path.t, Sunk(path, c), key);
    }
  }

  /** Below the root, nothing changes how many children the root has. */
  lemma {:induction false} RootKidsStay(root: Tree, path: Path, cur: Tree, c: Tree)
    requires Leads(root, path, cur) && path.Under?
    ensures root.Nd? && Plug(path, c).Nd? && |Plug(path, c).kids| == |root.kids| && root.id in PathIds(path)
  {
    if path.up.Under? {
      RootKidsStay(root, path.up, path.t, Nd(path.t.id, path.t.keys, path.t.kids[path.i := c]));
    }
  }

  /** A removal that stops at a page leaves the pages above it as they were. */
  lemma RemoveStops(l: Layout, pages: Pages, root: Tree, path: Path, cur: Tree, c: Tree, key: Key, next: nat)
    requires l.Valid() && TotalOrder(l.before) && RootOk(l, root) && Sinking(l, root, path, cur, c, key)
             && Holds(pages, c) && SunkStored(pages, path, c, next)
    requires path.Top? && c.Nd? ==> |c.kids| >= 2
    ensures RemovedRoot(l, root, Plug(path, c), key) && Plug(path, c).id == root.id
            && Stored(pages, Plug(path, c), next)
  {
    ShrinksUp(l, root, path, cur, c, key);
    if path.Under? { RootKidsStay(root, path, cur, c); }
    LeadsFills(root, path, cur);
    PlugHolds(pages, path, c);
  }

  /** A root left with one child gives way to that child. */
  lemma RootCollapses(l: Layout, pages: Pages, root: Tree, t: Tree, key: Key, next: nat)
    requires RootOk(l, root) && root.Nd? && ShrunkOk(l, root, t, None, None, None, key) && RebalancedNode(l, root, t)
             && |t.kids| == 1
    requires Holds(pages, t) && SunkStored(pages, Top, t, next)
    ensures RemovedRoot(l, root, t.kids[0], key) && Stored(pages, t.kids[0], next)
  {
    var c := t.kids[0];
    TreeIsNode(l, t.id, t.keys, t.kids, None, None, None);
    assert KidOk(l, t.keys, t.kids, None, None, None, 0);
    assert t.kids == [c];
    RowsOne(c);
    AllIdsOne(c);
    DistinctOne(c);
    forall id | id in AllIds(c) ensures id < next { assert id in AllIds(t) + PathIds(Top); }
  }

  /** The latch of every page that turns underfull is still held. */
  lemma UnderfullWasUnsafe(l: Layout, t: Tree, t': Tree)
    requires LostOne(l, t, t') && Underfull(l, t')
    ensures !SafeForRemove(l, PageOf(t))
  {}

  /** What is done once a child is rebalanced: a root with one child left is replaced by that child,
      and a parent that is not underfull, or was kept, ends the removal. */
  method Settle(l: Layout, pages: Pages, rootId: nat, header: bool, parentId: nat, outcome: Rebalance, key: Key,
                ghost next: nat, ghost root: Tree, ghost up: Path, ghost parent: Tree, ghost n: Tree)
    returns (done: bool, r: Outcome, rootId': nat, ghost t: Tree)
    requires l.Valid() && TotalOrder(l.before) && RootOk(l, root) && rootId == root.id && parentId == n.id
             && parent.Nd? && n.Nd? && (up.Top? ==> header)
    requires Sinking(l, root, up, parent, n, key) && Holds(pages, n) && SunkStored(pages, up, n, next)
    requires if outcome == Changed then RebalancedNode(l, parent, n) else outcome == Kept && |n.kids| == |parent.kids|
    ensures done ==> r == Done && RemovedRoot(l, root, t, key) && rootId' == t.id && Stored(pages, t, next)
    ensures !done ==> outcome == Changed && up.Under? && Underfull(l, n)
    ensures done && outcome == Changed && PathEven(l, |key|, up) && EvenBelow(l, |key|, n) ==> EvenBelow(l, |key|, t)
  {
    if up.Under? { RootKidsStay(root, up, parent, n); }
    var page := pages[parentId];
    if outcome == Changed && parentId == rootId && |page.kids| == 1 {
      RootCollapses(l, pages, root, n, key, next);
      if !header {
        return true, Structure, rootId, root;
      }
      return true, Done, page.kids[0], n.kids[0];
    }
    if outcome == Kept || parentId == rootId || Used(page.keys) >= l.InternalMin() {
      RemoveStops(l, pages, root, up, parent, n, key, next);
      if outcome == Changed && PathEven(l, |key|, up) && EvenBelow(l, |key|, n) { PlugEven(l, |key|, up, n); }
      return true, Done, rootId, Plug(up, n);
    }
    return false, Done, rootId, root;
  }

  /** Carries a removal up: each underfull page is rebalanced under its parent, until one has enough
      entries or is kept as it is. Every parent that is needed is still latched. */
  method RebalanceUp(l: Layout, pages0: Pages, rootId0: nat, latches: seq<nat>, header: bool, leafPage: Page, key: Key,
                     ghost next: nat, ghost root: Tree, ghost path0: Path, ghost cur0: Tree, ghost c0: Tree)
    returns (r: Outcome, pages: Pages, rootId: nat, ghost t: Tree)
    requires l.Valid() && TotalOrder(l.before) && RootOk(l, root) && rootId0 == root.id && path0.Under?
             && leafPage == PageOf(c0) && Underfull(l, c0)
    requires Sinking(l, root, path0, cur0, c0, key) && SunkStored(pages0, path0, c0, next)
             && LatchedOk(l, path0, latches, header, false, false)
    ensures r == Done && RemovedRoot(l, root, t, key) && rootId == t.id && Stored(pages, t, next)
    ensures PathEven(l, |key|, path0) && Short(l, |key|, c0) ==> EvenBelow(l, |key|, t)
  {
    pages, rootId := pages0, rootId0;
    var latched, childPage := latches, leafPage;
    ghost var path, cur, c := path0, cur0, c0;
    while true
      invariant path.Under? && childPage == PageOf(c) && Underfull(l, c) && Sinking(l, root, path, cur, c, key)
                && SunkStored(pages, path, c, next)
      invariant LatchedOk(l, path, latched, header, false, false)
      invariant PathEven(l, |key|, path0) && Short(l, |key|, c0) ==> PathEven(l, |key|, path) && Short(l, |key|, c)
      decreases |latched|
    {
      if latched == [] {
        return Structure, pages, rootId, root;
      }
      var parentId := Last(latched);
      latched := Base.Init(latched);
      ghost var parent, up, n := path.t, path.up, c;
      var outcome;
      outcome, pages, n := RebalanceChild(l, pages, parentId, childPage, key, next, root, path, cur, c);
      if outcome == Broken {
        return Structure, pages, rootId, root;
      }
      var done;
      done, r, rootId, t := Settle(l, pages, rootId0, header, parentId, outcome, key, next, root, up, parent, n);
      if done {
        return;
      }
      UnderfullWasUnsafe(l, parent, n);
      childPage, path, cur, c := pages[parentId], up, parent, n;
    }
  }

  /** What a removal makes of the index: nothing is left of an emptied root leaf. */
  ghost predicate RemovedIndex(l: Layout, root: Tree, t: Option<Tree>, key: Key) {
    match t
    case None => L.Removed(Rows(root), [], key)
    case Some(n) => RemovedRoot(l, root, n, key)
  }

  /** Removing from a leaf, in its place. */
  lemma LeafShrinksUp(l: Layout, pages: Pages, root: Tree, path: Path, cur: Tree, key: Key, next: nat)
    requires TotalOrder(l.before) && At(l, pages, root, path, cur, key) && cur.Lf? && L.Remove(l, cur.leaf, key).Some?
    requires forall id :: id in AllIds(root) ==> id < next
    ensures var c := Lf(cur.id, L.Remove(l, cur.leaf, key).value);
            Sinking(l, root, path, cur, c, key) && SunkStored(pages, path, c, next) && LostOne(l, cur, c)
  {
    LeafShrinks(l, cur, key, PathLo(path), PathHi(path), PathAfter(path));
  }

  /** A leaf that is not underfull, or is the root, is written in its place. */
  lemma LeafWritten(l: Layout, pages: Pages, root: Tree, path: Path, cur: Tree, c: Tree, key: Key, next: nat)
    requires l.Valid() && TotalOrder(l.before) && RootOk(l, root) && cur.Lf? && c.Lf?
             && Sinking(l, root, path, cur, c, key) && SunkStored(pages, path, c, next)
    ensures RemovedRoot(l, root, Plug(path, c), key) && Plug(path, c).id == root.id
            && Stored(Put(pages, c.id, PageOf(c)), Plug(path, c), next)
  {
    var pages' := Put(pages, c.id, PageOf(c));
    PathHoldsElsewhere(pages, path, c.id, PageOf(c));
    RemoveStops(l, pages', root, path, cur, c, key, next);
  }

  /** Removes with every page that may have to change latched. */
  method RemovePessimistic(l: Layout, pages: Pages, root: nat, key: Key, ghost next: nat, ghost t: Tree)
    returns (r: Outcome, pages': Pages, root': Option<nat>, ghost t': Option<Tree>)
    requires l.Valid() && TotalOrder(l.before) && RootOk(l, t) && Stored(pages, t, next) && root == t.id
    ensures r == Done || r == KeyNotFound
    ensures r == KeyNotFound ==> !L.Has(Rows(t), key) && pages' == pages && root' == Some(root) && t' == Some(t)
    ensures r == Done ==> RemovedIndex(l, t, t', key)
    ensures r == Done ==>
            match t' case None => root' == None case Some(n) => root' == Some(n.id) && Stored(pages', n, next)
    ensures EvenBelow(l, |key|, t) && t'.Some? ==> EvenBelow(l, |key|, t'.value)
  {
    var leafId, latched, header;
    ghost var path, cur;
    leafId, latched, header, path, cur := LatchPathToLeaf(l, pages, root, t, key, false);
    var leaf := pages[leafId].leaf;
    L.RemoveOk(l, leaf, key);
    HasUp(l, t, path, cur, key);
    var removed := L.Remove(l, leaf, key);
    if removed.None? {
      return KeyNotFound, pages, Some(root), Some(t);
    }
    LeafShrinksUp(l, pages, t, path, cur, key, next);
    ghost var c := Lf(leafId, removed.value);
    LeafWritten(l, pages, t, path, cur, c, key, next);
    if path.Under? { RootKidsStay(t, path, cur, c); }
    if EvenBelow(l, |key|, t) { RemovedShort(l, |key|, t, path, cur, key); }
    var written := Put(pages, leafId, LeafPage(removed.value));
    if leafId == root {
      if !header {
        return Structure, pages, Some(root), Some(t);
      } else if removed.value.entries == [] {
        return Done, written, None, None;
      }
      return Done, written, Some(root), Some(Plug(path, c));
    }
    if SafeForRemove(l, pages[leafId]) || !L.Underfull(l, removed.value) {
      return Done, written, Some(root), Some(Plug(path, c));
    }
    var rootId;
    ghost var n;
    r, pages', rootId, n := RebalanceUp(l, pages, root, latched, header, LeafPage(removed.value), key, next, t, path,
        cur, c);
    root', t' := Some(rootId), Some(n);
  }
}
