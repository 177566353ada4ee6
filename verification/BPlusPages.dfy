/** B+ tree pages by page id, and which tree a set of pages holds. */
module BPlusPages {
  import opened Base
  import opened BPlusLayout
  import opened BPlusTree
  import L = BPlusLeaf

  datatype Page = LeafPage(leaf: L.Leaf) | NodePage(keys: seq<Key>, kids: seq<nat>)

  type Pages = map<nat, Page>

  /** The pages with one written. */
  function Put(pages: Pages, id: nat, page: Page): Pages { pages[id := page] }

  function Ids(kids: seq<Tree>): (ids: seq<nat>)
    ensures |ids| == |kids| && forall i :: 0 <= i < |kids| ==> ids[i] == kids[i].id
  {
    seq(|kids|, i requires 0 <= i < |kids| => kids[i].id)
  }

  function PageOf(t: Tree): Page {
    match t
    case Lf(_, leaf) => LeafPage(leaf)
    case Nd(_, keys, kids) => NodePage(keys, Ids(kids))
  }

  /** Every page of `t` is in `pages`. */
  predicate Holds(pages: Pages, t: Tree) {
    Find(pages, t.id) == Some(PageOf(t)) && (t.Nd? ==> forall i :: 0 <= i < |t.kids| ==> Holds(pages, t.kids[i]))
  }

  // ---------------------------------------------------------------- page ids

  function AllIds(t: Tree): set<nat> {
    match t
    case Lf(id, _) => {id}
    case Nd(id, _, kids) => {id} + AllIdsOf(kids)
  }

  function AllIdsOf(kids: seq<Tree>): set<nat> { if kids == [] then {} else AllIds(kids[0]) + AllIdsOf(kids[1..]) }

  lemma {:induction false} AllIdsAppend(a: seq<Tree>, b: seq<Tree>)
    ensures AllIdsOf(a + b) == AllIdsOf(a) + AllIdsOf(b)
  {
    if a == [] {
      assert a + b == b;
    } else {
      assert (a + b)[0] == a[0] && (a + b)[1..] == a[1..] + b;
      AllIdsAppend(a[1..], b);
    }
  }

  lemma AllIdsAround(kids: seq<Tree>, i: nat)
    requires i < |kids|
    ensures AllIdsOf(kids) == AllIdsOf(kids[..i]) + AllIds(kids[i]) + AllIdsOf(kids[i + 1..])
  {
    AllIdsAppend(kids[..i], kids[i..]);
    assert kids == kids[..i] + kids[i..] && kids[i..][0] == kids[i] && kids[i..][1..] == kids[i + 1..];
  }

  lemma AllIdsOne(t: Tree)
    ensures AllIdsOf([t]) == AllIds(t)
  {
    assert [t][1..] == [];
  }

  lemma OwnId(t: Tree)
    ensures t.id in AllIds(t)
  {}

  lemma {:induction false} KidIds(kids: seq<Tree>, i: nat)
    requires i < |kids|
    ensures AllIds(kids[i]) <= AllIdsOf(kids)
  {
    AllIdsAround(kids, i);
  }

  /** No page id is used twice. */
  predicate DistinctIds(t: Tree) { t.Nd? ==> t.id !in AllIdsOf(t.kids) && DistinctKids(t.kids) }

  predicate DistinctKids(kids: seq<Tree>) {
    kids == [] || (DistinctIds(kids[0]) && AllIds(kids[0]) !! AllIdsOf(kids[1..]) && DistinctKids(kids[1..]))
  }

  lemma {:induction false} DistinctKidsAppend(a: seq<Tree>, b: seq<Tree>)
    ensures DistinctKids(a + b) <==> DistinctKids(a) && DistinctKids(b) && AllIdsOf(a) !! AllIdsOf(b)
  {
    if a == [] {
      assert a + b == b;
    } else {
      assert (a + b)[0] == a[0] && (a + b)[1..] == a[1..] + b;
      DistinctKidsAppend(a[1..], b);
      AllIdsAppend(a[1..], b);
    }
  }

  lemma DistinctOne(t: Tree)
    ensures DistinctKids([t]) <==> DistinctIds(t)
  {
    assert [t][1..] == [];
  }

  /** The children around child `i`. */
  lemma DistinctAround(kids: seq<Tree>, i: nat)
    requires i < |kids|
    ensures DistinctKids(kids) <==>
            && DistinctKids(kids[..i]) && DistinctIds(kids[i]) && DistinctKids(kids[i + 1..])
            && AllIdsOf(kids[..i]) !! AllIds(kids[i]) !! AllIdsOf(kids[i + 1..])
  {
    DistinctKidsAppend(kids[..i], kids[i..]);
    assert kids == kids[..i] + kids[i..] && kids[i..][0] == kids[i] && kids[i..][1..] == kids[i + 1..];
  }

  // ---------------------------------------------------------------- writing a page

  lemma {:induction false} HoldsElsewhere(pages: Pages, t: Tree, id: nat, page: Page)
    requires Holds(pages, t) && id !in AllIds(t)
    ensures Holds(pages[id := page], t)
  {
    if t.Nd? {
      forall i | 0 <= i < |t.kids| ensures Holds(pages[id := page], t.kids[i]) {
        KidIds(t.kids, i);
        HoldsElsewhere(pages, t.kids[i], id, page);
      }
    }
  }

  predicate HoldsAll(pages: Pages, kids: seq<Tree>) { forall i :: 0 <= i < |kids| ==> Holds(pages, kids[i]) }

  lemma AllHoldElsewhere(pages: Pages, kids: seq<Tree>, id: nat, page: Page)
    requires HoldsAll(pages, kids) && id !in AllIdsOf(kids)
    ensures HoldsAll(pages[id := page], kids)
  {
    forall i | 0 <= i < |kids| ensures Holds(pages[id := page], kids[i]) {
      KidIds(kids, i);
      HoldsElsewhere(pages, kids[i], id, page);
    }
  }

  // ---------------------------------------------------------------- the path above a page

  /** The pages above a subtree: each is a node, with the child the path goes through. */
  datatype Path = Top | Under(up: Path, t: Tree, i: nat)

  /** `path` leads from `root` down to `cur`. */
  ghost predicate Leads(root: Tree, path: Path, cur: Tree) {
    match path
    case Top => cur == root
    case Under(up, t, i) => t.Nd? && i < |t.kids| && cur == t.kids[i] && Leads(root, up, t)
  }

  function Beside(t: Tree, i: nat): (r: (seq<Tree>, seq<Tree>))
    requires t.Nd? && i < |t.kids|
  {
    (t.kids[..i], t.kids[i + 1..])
  }

  /** The page ids on the path and in the subtrees beside it. */
  ghost function PathIds(path: Path): set<nat> {
    if path.Under? && path.t.Nd? && path.i < |path.t.kids| then
      var (a, b) := Beside(path.t, path.i); {path.t.id} + AllIdsOf(a) + AllIdsOf(b) + PathIds(path.up)
    else {}
  }

  /** The path and the subtrees beside it are in `pages`, and use no id twice. */
  ghost predicate PathHolds(pages: Pages, path: Path) {
    path.Under? ==>
      && path.t.Nd? && path.i < |path.t.kids| && Find(pages, path.t.id) == Some(PageOf(path.t))
      && var (a, b) := Beside(path.t, path.i);
         && HoldsAll(pages, a) && HoldsAll(pages, b) && PathHolds(pages, path.up)
         && DistinctKids(a) && DistinctKids(b) && path.t.id !in AllIdsOf(a) + AllIdsOf(b) && AllIdsOf(a) !! AllIdsOf(b)
         && {path.t.id} + AllIdsOf(a) + AllIdsOf(b) !! PathIds(path.up)
  }

  lemma {:induction false} PathHoldsElsewhere(pages: Pages, path: Path, id: nat, page: Page)
    requires PathHolds(pages, path) && id !in PathIds(path)
    ensures PathHolds(pages[id := page], path)
  {
    if path.Under? {
      var (a, b) := Beside(path.t, path.i);
      AllHoldElsewhere(pages, a, id, page);
      AllHoldElsewhere(pages, b, id, page);
      PathHoldsElsewhere(pages, path.up, id, page);
    }
  }

  /** One step further down. */
  lemma PathDown(pages: Pages, path: Path, t: Tree, i: nat)
    requires PathHolds(pages, path) && t.Nd? && i < |t.kids| && Holds(pages, t) && DistinctIds(t)
             && AllIds(t) !! PathIds(path)
    ensures PathHolds(pages, Under(path, t, i)) && Holds(pages, t.kids[i]) && DistinctIds(t.kids[i])
    ensures AllIds(t.kids[i]) !! PathIds(Under(path, t, i))
            && AllIds(t) + PathIds(path) == AllIds(t.kids[i]) + PathIds(Under(path, t, i))
  {
    AllIdsAround(t.kids, i);
    DistinctAround(t.kids, i);
  }

  /** The tree with `t` at the end of the path. */
  function Plug(path: Path, t: Tree): Tree {
    if path.Under? && path.t.Nd? && path.i < |path.t.kids|
        then Plug(path.up, Nd(path.t.id, path.t.keys, path.t.kids[path.i := t])) else t
  }

  ghost predicate Fills(path: Path, t: Tree) {
    path.Under? && path.t.Nd? && path.i < |path.t.kids| ==> t.id == path.t.kids[path.i].id
  }

  lemma PlugOne(pages: Pages, path: Path, t: Tree)
    requires PathHolds(pages, path) && path.Under? && Holds(pages, t) && DistinctIds(t) && AllIds(t) !! PathIds(path)
             && Fills(path, t)
    ensures var n := Nd(path.t.id, path.t.keys, path.t.kids[path.i := t]);
            Holds(pages, n) && DistinctIds(n) && AllIds(n) !! PathIds(path.up)
                && AllIds(n) + PathIds(path.up) == AllIds(t) + PathIds(path)
  {
    var kids, i := path.t.kids[path.i := t], path.i;
    AllIdsAround(kids, i);
    DistinctAround(kids, i);
    assert kids[..i] == path.t.kids[..i] && kids[i + 1..] == path.t.kids[i + 1..];
    assert Ids(kids) == Ids(path.t.kids);
    forall j | 0 <= j < |kids| ensures Holds(pages, kids[j]) {
      if j < i { assert kids[j] == path.t.kids[..i][j]; }
          else if j > i { assert kids[j] == path.t.kids[i + 1..][j - i - 1]; }
    }
  }

  /** Putting a page back under its parents gives a tree the pages hold. */
  lemma {:induction false} PlugHolds(pages: Pages, path: Path, t: Tree)
    requires PathHolds(pages, path) && Holds(pages, t) && DistinctIds(t) && AllIds(t) !! PathIds(path)
             && Fills(path, t) && PathFills(path)
    ensures Holds(pages, Plug(path, t)) && DistinctIds(Plug(path, t))
            && AllIds(Plug(path, t)) == AllIds(t) + PathIds(path)
  {
    if path.Under? {
      PlugOne(pages, path, t);
      PlugHolds(pages, path.up, Nd(path.t.id, path.t.keys, path.t.kids[path.i := t]));
    }
  }

  /** Each node on the path is the child the path above goes through. */
  ghost predicate PathFills(path: Path) { path.Under? ==> Fills(path.up, path.t) && PathFills(path.up) }

  lemma {:induction false} LeadsFills(root: Tree, path: Path, cur: Tree)
    requires Leads(root, path, cur)
    ensures Fills(path, cur) && PathFills(path)
  {
    if path.Under? {
      LeadsFills(root, path.up, path.t);
    }
  }

  // ---------------------------------------------------------------- two siblings

  /** Everything below `t` is in `pages`; its own page need not be. */
  predicate HoldsBelow(pages: Pages, t: Tree) { t.Nd? ==> HoldsAll(pages, t.kids) }

  datatype PagePair = OnePage(page: Page) | TwoPages(a: Page, sep: Key, b: Page) | NoPage

  /** What the pages of an underfull subtree and its sibling become. */
  function PairPages(l: Layout, a: Page, sep: Key, b: Page, right: bool): PagePair {
    if a.LeafPage? && b.LeafPage? then
      match PairLeaves(l, a.leaf, b.leaf, right)
      case OneLeaf(leaf) => OnePage(LeafPage(leaf))
      case TwoLeaves(left, rest) =>
          TwoPages(LeafPage(left), if rest.entries == [] then sep else rest.entries[0].key, LeafPage(rest))
      case NoLeaf => NoPage
    else if a.NodePage? && b.NodePage? && |a.kids| == |a.keys| + 1 && |b.kids| == |b.keys| + 1 then
      match PairNodes(l, a.keys, a.kids, sep, b.keys, b.kids, right)
      case OneNode(keys, kids) => OnePage(NodePage(keys, kids))
      case TwoNodes(aKeys, aKids, sep', bKeys, bKids) => TwoPages(NodePage(aKeys, aKids), sep', NodePage(bKeys, bKids))
    else NoPage
  }

  /** The same, borrowing one entry at a time. */
  method PairUp(l: Layout, a: Page, sep: Key, b: Page, right: bool) returns (pair: PagePair)
    ensures pair == PairPages(l, a, sep, b, right)
  {
    if a.LeafPage? && b.LeafPage? {
      var leaf, sibling := a.leaf, b.leaf;
      if right {
        leaf, sibling := L.BorrowFromSibling(l, leaf, sibling, true);
      } else {
        sibling, leaf := L.BorrowFromSibling(l, sibling, leaf, false);
      }
      if !L.SlotsOk(leaf) || !L.SlotsOk(sibling) {
        return NoPage;
      }
      if L.Underfull(l, if right then leaf else sibling) {
        return OnePage(LeafPage(L.Absorbed(l, leaf, sibling)));
      }
      return if sibling.entries == [] then NoPage
          else TwoPages(LeafPage(leaf), sibling.entries[0].key, LeafPage(sibling));
    }
    return PairPages(l, a, sep, b, right);
  }

  function PagesOfPair(r: Paired): PagePair {
    match r
    case Merged(m) => OnePage(PageOf(m))
    case Shared(a, sep, b) => TwoPages(PageOf(a), sep, PageOf(b))
    case Empty => NoPage
  }

  lemma PairPagesOk(l: Layout, a: Tree, sep: Key, b: Tree, right: bool)
    requires Shaped(l, a) && Shaped(l, b)
    ensures PairPages(l, PageOf(a), sep, PageOf(b), right) == PagesOfPair(Pair(l, a, sep, b, right))
  {
    if a.Nd? && b.Nd? { PairIds(a.kids, b.kids); }
  }

  lemma PairIds(a: seq<Tree>, b: seq<Tree>)
    requires a != [] && b != []
    ensures Ids(a + b) == Ids(a) + Ids(b) && Ids(a + [b[0]]) == Ids(a) + [Ids(b)[0]] && Ids(b[1..]) == Ids(b)[1..]
    ensures Ids(Base.Init(a)) == Base.Init(Ids(a)) && Ids([Last(a)] + b) == [Last(Ids(a))] + Ids(b)
  {}

  /** Merging or sharing moves subtrees, and uses no page id twice. */
  lemma PairStored(l: Layout, pages: Pages, a: Tree, sep: Key, b: Tree, right: bool)
    requires Shaped(l, a) && Shaped(l, b) && HoldsBelow(pages, a) && HoldsBelow(pages, b) && DistinctIds(a)
             && DistinctIds(b) && AllIds(a) !! AllIds(b)
    ensures match Pair(l, a, sep, b, right)
            case Merged(m) =>
                m.id == a.id && HoldsBelow(pages, m) && DistinctIds(m) && AllIds(m) <= AllIds(a) + AllIds(b)
            case Shared(x, _, y) =>
              && x.id == a.id && y.id == b.id && HoldsBelow(pages, x) && HoldsBelow(pages, y) && DistinctIds(x)
              && DistinctIds(y)
              && AllIds(x) !! AllIds(y) && AllIds(x) + AllIds(y) <= AllIds(a) + AllIds(b)
            case Empty => true
  {
    if a.Nd? && b.Nd? {
      AllIdsAppend(a.kids, b.kids);
      DistinctKidsAppend(a.kids, b.kids);
      assert HoldsAll(pages, a.kids + b.kids);
      PairKeepsKids(l, a.keys, a.kids, sep, b.keys, b.kids, right);
      var r := PairNodes(l, a.keys, a.kids, sep, b.keys, b.kids, right);
      if r.TwoNodes? {
        MovedKid(pages, a, b, Nd(a.id, r.aKeys, r.aKids), Nd(b.id, r.bKeys, r.bKids));
      }
    }
  }

  /** The children stay, in their order. */
  lemma PairKeepsKids<T>(l: Layout, aKeys: seq<Key>, aKids: seq<T>, sep: Key, bKeys: seq<Key>, bKids: seq<T>,
                         right: bool)
    requires |aKids| == |aKeys| + 1 && |bKids| == |bKeys| + 1
    ensures match PairNodes(l, aKeys, aKids, sep, bKeys, bKids, right)
            case OneNode(_, kids) => kids == aKids + bKids
            case TwoNodes(_, x, _, _, y) => x + y == aKids + bKids
  {}

  lemma MovedKid(pages: Pages, a: Tree, b: Tree, x: Tree, y: Tree)
    requires a.Nd? && b.Nd? && x.Nd? && y.Nd? && x.kids + y.kids == a.kids + b.kids && x.id == a.id && y.id == b.id
    requires HoldsAll(pages, a.kids + b.kids) && DistinctKids(a.kids + b.kids) && a.id != b.id
             && a.id !in AllIdsOf(a.kids + b.kids) && b.id !in AllIdsOf(a.kids + b.kids)
    ensures HoldsBelow(pages, x) && HoldsBelow(pages, y) && DistinctIds(x) && DistinctIds(y) && AllIds(x) !! AllIds(y)
    ensures AllIds(x) + AllIds(y) == {a.id, b.id} + AllIdsOf(a.kids + b.kids)
  {
    AllIdsAppend(x.kids, y.kids);
    DistinctKidsAppend(x.kids, y.kids);
    forall i | 0 <= i < |x.kids| ensures Holds(pages, x.kids[i]) { assert (x.kids + y.kids)[i] == x.kids[i]; }
    forall i | 0 <= i < |y.kids| ensures Holds(pages, y.kids[i]) {
      assert (x.kids + y.kids)[|x.kids| + i] == y.kids[i];
    }
  }

  /** Writing a child's page and its parent's. */
  lemma StoreKid(pages: Pages, id: nat, keys: seq<Key>, left: seq<Tree>, m: Tree, right: seq<Tree>)
    requires HoldsAll(pages, left) && HoldsAll(pages, right) && HoldsBelow(pages, m)
    requires DistinctKids(left + [m] + right) && id !in AllIdsOf(left + [m] + right)
    ensures var kids := left + [m] + right;
            var pages1 := Put(pages, m.id, PageOf(m));
            HoldsAll(pages1, kids) && Holds(Put(pages1, id, NodePage(keys, Ids(kids))), Nd(id, keys, kids))
  {
    var kids, pages1, page := left + [m] + right, Put(pages, m.id, PageOf(m)), NodePage(keys, Ids(left + [m] + right));
    var n := |left|;
    assert kids[n] == m && kids[..n] == left && kids[n + 1..] == right;
    DistinctAround(kids, n);
    OwnId(m);
    AllHoldElsewhere(pages, left, m.id, PageOf(m));
    AllHoldElsewhere(pages, right, m.id, PageOf(m));
    KidHeld(pages, m);
    forall i | 0 <= i < |kids| ensures Holds(pages1, kids[i]) {}
    AllHoldElsewhere(pages1, kids, id, page);
  }

  lemma KidHeld(pages: Pages, m: Tree)
    requires HoldsBelow(pages, m) && DistinctIds(m)
    ensures Holds(Put(pages, m.id, PageOf(m)), m)
  {
    if m.Nd? { AllHoldElsewhere(pages, m.kids, m.id, PageOf(m)); }
  }

  /** Writing two children's pages and their parent's. */
  /** The page ids of two subtrees and those around them. */
  lemma TwoBetween(left: seq<Tree>, a: Tree, b: Tree, right: seq<Tree>)
    ensures AllIdsOf(left + [a, b] + right) == AllIdsOf(left) + (AllIds(a) + AllIds(b)) + AllIdsOf(right)
    ensures DistinctKids(left + [a, b] + right) <==>
            && DistinctKids(left) && DistinctIds(a) && DistinctIds(b) && DistinctKids(right)
            && AllIdsOf(left) !! AllIds(a) + AllIds(b) && AllIds(a) !! AllIds(b)
            && AllIdsOf(left) + (AllIds(a) + AllIds(b)) !! AllIdsOf(right)
  {
    BothIds(a, b);
    AllIdsAppend(left + [a, b], right);
    AllIdsAppend(left, [a, b]);
    DistinctKidsAppend(left + [a, b], right);
    DistinctKidsAppend(left, [a, b]);
  }

  lemma BothIds(a: Tree, b: Tree)
    ensures AllIdsOf([a, b]) == AllIds(a) + AllIds(b)
    ensures DistinctKids([a, b]) <==> DistinctIds(a) && DistinctIds(b) && AllIds(a) !! AllIds(b)
  {
    assert [a] + [b] == [a, b];
    AllIdsAppend([a], [b]);
    AllIdsOne(a);
    AllIdsOne(b);
    DistinctKidsAppend([a], [b]);
    DistinctOne(a);
    DistinctOne(b);
  }

  lemma StoreKids(pages: Pages, id: nat, keys: seq<Key>, left: seq<Tree>, a: Tree, b: Tree, right: seq<Tree>)
    requires HoldsAll(pages, left) && HoldsAll(pages, right) && HoldsBelow(pages, a) && HoldsBelow(pages, b)
    requires DistinctKids(left + [a, b] + right) && id !in AllIdsOf(left + [a, b] + right)
    ensures var kids := left + [a, b] + right;
            Holds(Put(Put(Put(pages, a.id, PageOf(a)), b.id, PageOf(b)), id, NodePage(keys, Ids(kids))),
                Nd(id, keys, kids))
  {
    StoreFirst(pages, left, a, b, right);
    assert (left + [a]) + [b] + right == left + [a, b] + right;
    StoreKid(Put(pages, a.id, PageOf(a)), id, keys, left + [a], b, right);
  }

  lemma StoreFirst(pages: Pages, left: seq<Tree>, a: Tree, b: Tree, right: seq<Tree>)
    requires HoldsAll(pages, left) && HoldsAll(pages, right) && HoldsBelow(pages, a) && HoldsBelow(pages, b)
    requires DistinctKids(left + [a, b] + right)
    ensures var pages1 := Put(pages, a.id, PageOf(a));
            HoldsAll(pages1, left + [a]) && HoldsAll(pages1, right) && HoldsBelow(pages1, b)
  {
    TwoBetween(left, a, b, right);
    OwnId(a);
    AllHoldElsewhere(pages, left, a.id, PageOf(a));
    AllHoldElsewhere(pages, right, a.id, PageOf(a));
    if b.Nd? { AllHoldElsewhere(pages, b.kids, a.id, PageOf(a)); }
    KidHeld(pages, a);
  }

  /** Two neighbouring children, and the children around them. */
  lemma PairAround(kids: seq<Tree>, p: nat)
    requires p + 1 < |kids| && DistinctKids(kids)
    ensures var left, a, b, right := kids[..p], kids[p], kids[p + 1], kids[p + 2..];
            && AllIdsOf(kids) == AllIdsOf(left) + AllIds(a) + AllIds(b) + AllIdsOf(right)
            && ApartKids(left, a, b, right)
  {
    var rest := kids[p + 1..];
    assert rest[..0] == [] && rest[0] == kids[p + 1] && rest[1..] == kids[p + 2..];
    AllIdsAround(kids, p);
    DistinctAround(kids, p);
    AllIdsAround(rest, 0);
    DistinctAround(rest, 0);
  }

  predicate ApartKids(left: seq<Tree>, a: Tree, b: Tree, right: seq<Tree>) {
    && DistinctKids(left) && DistinctIds(a) && DistinctIds(b) && DistinctKids(right)
    && AllIds(a) !! AllIds(b) && AllIdsOf(left) !! AllIdsOf(right)
    && AllIds(a) + AllIds(b) !! AllIdsOf(left) + AllIdsOf(right)
  }

  lemma OneKidDistinct(left: seq<Tree>, m: Tree, right: seq<Tree>)
    requires DistinctKids(left) && DistinctKids(right) && DistinctIds(m) && AllIdsOf(left) !! AllIdsOf(right)
             && AllIds(m) !! AllIdsOf(left) + AllIdsOf(right)
    ensures DistinctKids(left + [m] + right)
            && AllIdsOf(left + [m] + right) == AllIdsOf(left) + AllIds(m) + AllIdsOf(right)
  {
    var kids, n := left + [m] + right, |left|;
    assert kids[n] == m && kids[..n] == left && kids[n + 1..] == right;
    DistinctAround(kids, n);
    AllIdsAround(kids, n);
  }

  lemma TwoKidsDistinct(left: seq<Tree>, a: Tree, b: Tree, right: seq<Tree>)
    requires ApartKids(left, a, b, right)
    ensures DistinctKids(left + [a, b] + right)
            && AllIdsOf(left + [a, b] + right) == AllIdsOf(left) + AllIds(a) + AllIds(b) + AllIdsOf(right)
  {
    OneKidDistinct(left, a, []);
    assert left + [a] + [] == left + [a];
    OneKidDistinct(left + [a], b, right);
    assert (left + [a]) + [b] + right == left + [a, b] + right;
  }
}
