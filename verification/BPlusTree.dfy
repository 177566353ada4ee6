/** The B+ tree as a tree of pages: inserting and removing on the way back up from the leaf, against
    the sorted sequence of live entries it holds. */
module BPlusTree {
  import opened Base
  import opened BPlusLayout
  import L = BPlusLeaf

  type Entry = L.Entry

  /** A page and everything below it. `id` is its page id. */
  datatype Tree = Lf(id: nat, leaf: L.Leaf) | Nd(id: nat, keys: seq<Key>, kids: seq<Tree>)

  function Costs(keys: seq<Key>): (c: seq<nat>)
    ensures |c| == |keys| && forall i :: 0 <= i < |keys| ==> c[i] == InternalCost(|keys[i]|)
  {
    seq(|keys|, i requires 0 <= i < |keys| => InternalCost(|keys[i]|))
  }

  function Used(keys: seq<Key>): nat { Sum(Costs(keys)) }

  predicate Overfull(keys: seq<Key>) { Used(keys) > INTERNAL_CAPACITY }

  /** The live entries, from left to right. */
  function Rows(t: Tree): seq<Entry> {
    match t
    case Lf(_, leaf) => L.Rows(leaf)
    case Nd(_, _, kids) => RowsOf(kids)
  }

  function RowsOf(kids: seq<Tree>): seq<Entry> { if kids == [] then [] else Rows(kids[0]) + RowsOf(kids[1..]) }

  function Height(t: Tree): nat {
    match t
    case Lf(_, _) => 0
    case Nd(_, _, kids) => if kids == [] then 1 else 1 + Height(kids[0])
  }

  /** The page id of the leftmost leaf. */
  function First(t: Tree): nat {
    match t
    case Lf(id, _) => id
    case Nd(id, _, kids) => if kids == [] then id else First(kids[0])
  }

  // ---------------------------------------------------------------- well-formed trees

  predicate AtLeast(l: Layout, k: Key, lo: Option<Key>) { lo.Some? ==> !l.before(k, lo.value) }

  predicate Below(l: Layout, k: Key, hi: Option<Key>) { hi.Some? ==> l.before(k, hi.value) }

  predicate Within(l: Layout, k: Key, lo: Option<Key>, hi: Option<Key>) { AtLeast(l, k, lo) && Below(l, k, hi) }

  /** Strictly between the bounds, as a separator is. */
  predicate Inside(l: Layout, k: Key, lo: Option<Key>, hi: Option<Key>) {
    (lo.Some? ==> l.before(lo.value, k)) && Below(l, k, hi)
  }

  predicate SortedKeys(l: Layout, keys: seq<Key>) { forall i, j :: 0 <= i < j < |keys| ==> l.before(keys[i], keys[j]) }

  predicate KeysFit(l: Layout, keys: seq<Key>) { forall i :: 0 <= i < |keys| ==> |keys[i]| <= l.maxKeyLen }

  /** What every page promises by itself. */
  predicate Shaped(l: Layout, t: Tree) {
    match t
    case Lf(_, leaf) => L.LeafOk(l, leaf)
    case Nd(_, keys, kids) => |kids| == |keys| + 1 && KeysFit(l, keys) && forall i ::
        0 <= i < |kids| ==> Shaped(l, kids[i])
  }

  /** The bounds and the next leaf of child `i`. */
  function LoAt(keys: seq<Key>, lo: Option<Key>, i: nat): Option<Key> {
    if 0 < i <= |keys| then Some(keys[i - 1]) else lo
  }

  function HiAt(keys: seq<Key>, hi: Option<Key>, i: nat): Option<Key> { if i < |keys| then Some(keys[i]) else hi }

  function NextAt(kids: seq<Tree>, after: Option<nat>, i: nat): Option<nat> {
    if i + 1 < |kids| then Some(First(kids[i + 1])) else after
  }

  predicate KeysOk(l: Layout, keys: seq<Key>, lo: Option<Key>, hi: Option<Key>) {
    SortedKeys(l, keys) && KeysFit(l, keys) && forall i :: 0 <= i < |keys| ==> Inside(l, keys[i], lo, hi)
  }

  /** Every page fits and is sorted, keys are within the separators above them, leaves are at one
      depth and each leads to the next, the last one to `after`. */
  predicate TreeOk(l: Layout, t: Tree, lo: Option<Key>, hi: Option<Key>, after: Option<nat>) {
    match t
    case Lf(_, leaf) =>
      && L.LeafOk(l, leaf) && L.Fits(l, leaf) && leaf.next == after
      && (forall i :: 0 <= i < |leaf.entries| ==> Within(l, leaf.entries[i].key, lo, hi))
    case Nd(_, keys, kids) =>
      && |kids| == |keys| + 1 && KeysOk(l, keys, lo, hi) && !Overfull(keys)
      && (forall i ::
          0 <= i < |kids| ==> TreeOk(l, kids[i], LoAt(keys, lo, i), HiAt(keys, hi, i), NextAt(kids, after, i)))
      && (forall i :: 0 <= i < |kids| ==> Height(kids[i]) == Height(kids[0]))
  }

  lemma {:induction false} OkIsShaped(l: Layout, t: Tree, lo: Option<Key>, hi: Option<Key>, after: Option<nat>)
    requires TreeOk(l, t, lo, hi, after)
    ensures Shaped(l, t)
  {
    if t.Nd? {
      forall i | 0 <= i < |t.kids| ensures Shaped(l, t.kids[i]) {
        OkIsShaped(l, t.kids[i], LoAt(t.keys, lo, i), HiAt(t.keys, hi, i), NextAt(t.kids, after, i));
      }
    }
  }

  // ---------------------------------------------------------------- descending

  /** Which child to descend into for `key`, counting the separators that do not come after it. */
  function ChildIndex(l: Layout, keys: seq<Key>, key: Key): (i: nat)
    ensures i <= |keys|
    ensures TotalOrder(l.before) && SortedKeys(l, keys) ==>
              (forall j :: 0 <= j < i ==> !l.before(key, keys[j]))
                  && (forall j :: i <= j < |keys| ==> l.before(key, keys[j]))
  {
    if keys == [] then 0
    else if !l.before(key, Last(keys)) then |keys|
    else ChildIndex(l, Base.Init(keys), key)
  }

  // ---------------------------------------------------------------- how full pages are

  lemma ManyKeys(l: Layout, keys: seq<Key>)
    requires l.Valid() && KeysFit(l, keys) && Overfull(keys)
    ensures |keys| >= 3
  {
    Thresholds(l);
    BPlusLayout.AtLeast(Costs(keys), l.InternalMax());
  }

  /** The key an internal page splits around. */
  function SplitPoint(keys: seq<Key>): (mid: nat)
    requires |keys| >= 3
    ensures 1 <= mid <= |keys| - 2
  {
    var best := Best(Costs(keys), true, |keys|);
    if best <= |keys| - 2 then best else |keys| - 2
  }

  // ---------------------------------------------------------------- rows of a node

  lemma {:induction false} RowsAppend(a: seq<Tree>, b: seq<Tree>)
    ensures RowsOf(a + b) == RowsOf(a) + RowsOf(b)
  {
    if a == [] {
      assert a + b == b;
    } else {
      assert (a + b)[0] == a[0] && (a + b)[1..] == a[1..] + b;
      RowsAppend(a[1..], b);
    }
  }

  lemma RowsOne(t: Tree)
    ensures RowsOf([t]) == Rows(t)
  {
    assert [t][1..] == [];
  }

  lemma RowsAround(kids: seq<Tree>, i: nat)
    requires i < |kids|
    ensures RowsOf(kids) == RowsOf(kids[..i]) + Rows(kids[i]) + RowsOf(kids[i + 1..])
  {
    var a, b := kids[..i], kids[i..];
    assert kids == a + b && b[0] == kids[i] && b[1..] == kids[i + 1..];
    RowsAppend(a, b);
    Assoc(RowsOf(a), Rows(kids[i]), RowsOf(kids[i + 1..]));
  }

  lemma Assoc(a: seq<Entry>, b: seq<Entry>, c: seq<Entry>)
    ensures a + (b + c) == a + b + c
  {}

  predicate AllBefore(l: Layout, rows: seq<Entry>, key: Key) {
    forall j :: 0 <= j < |rows| ==> l.before(rows[j].key, key)
  }

  predicate AllAfter(l: Layout, key: Key, rows: seq<Entry>) {
    forall j :: 0 <= j < |rows| ==> l.before(key, rows[j].key)
  }

  /** Rows of subtrees are within their bounds. */
  lemma {:induction false} RowsWithin(l: Layout, t: Tree, lo: Option<Key>, hi: Option<Key>, after: Option<nat>)
    requires TotalOrder(l.before) && TreeOk(l, t, lo, hi, after)
    ensures forall j :: 0 <= j < |Rows(t)| ==> Within(l, Rows(t)[j].key, lo, hi)
  {
    match t
    case Lf(_, leaf) => LeafRowsWithin(l, leaf, lo, hi);
    case Nd(_, keys, kids) =>
      forall i | 0 <= i < |kids| ensures RowsIn(l, Rows(kids[i]), lo, hi) {
        RowsWithin(l, kids[i], LoAt(keys, lo, i), HiAt(keys, hi, i), NextAt(kids, after, i));
      }
      KidsRowsWithin(l, kids, lo, hi);
  }

  predicate RowsIn(l: Layout, rows: seq<Entry>, lo: Option<Key>, hi: Option<Key>) {
    forall j :: 0 <= j < |rows| ==> Within(l, rows[j].key, lo, hi)
  }

  lemma LeafRowsWithin(l: Layout, leaf: L.Leaf, lo: Option<Key>, hi: Option<Key>)
    requires forall i :: 0 <= i < |leaf.entries| ==> Within(l, leaf.entries[i].key, lo, hi)
    ensures RowsIn(l, L.Rows(leaf), lo, hi)
  {
    var rows := L.Rows(leaf);
    forall j | 0 <= j < |rows| ensures Within(l, rows[j].key, lo, hi) {
      L.LiveAreItems(L.Items(leaf), rows[j]);
      var i :| 0 <= i < |L.Items(leaf)| && L.Items(leaf)[i] == L.Item(rows[j], true);
      assert leaf.entries[i] == rows[j];
    }
  }

  lemma {:induction false} KidsRowsWithin(l: Layout, kids: seq<Tree>, lo: Option<Key>, hi: Option<Key>)
    requires forall i :: 0 <= i < |kids| ==> RowsIn(l, Rows(kids[i]), lo, hi)
    ensures RowsIn(l, RowsOf(kids), lo, hi)
  {
    if kids != [] {
      KidsRowsWithin(l, kids[1..], lo, hi);
    }
  }

  predicate KidOk(l: Layout, keys: seq<Key>, kids: seq<Tree>, lo: Option<Key>, hi: Option<Key>, after: Option<nat>,
                  i: nat)
    requires i < |kids|
  {
    TreeOk(l, kids[i], LoAt(keys, lo, i), HiAt(keys, hi, i), NextAt(kids, after, i))
        && Height(kids[i]) == Height(kids[0])
  }

  /** A node apart from whether its keys fit. */
  predicate NodeOk(l: Layout, keys: seq<Key>, kids: seq<Tree>, lo: Option<Key>, hi: Option<Key>, after: Option<nat>) {
    |kids| == |keys| + 1 && KeysOk(l, keys, lo, hi)
        && forall i: nat :: i < |kids| ==> KidOk(l, keys, kids, lo, hi, after, i)
  }

  lemma TreeIsNode(l: Layout, id: nat, keys: seq<Key>, kids: seq<Tree>, lo: Option<Key>, hi: Option<Key>,
                   after: Option<nat>)
    ensures TreeOk(l, Nd(id, keys, kids), lo, hi, after) <==> NodeOk(l, keys, kids, lo, hi, after) && !Overfull(keys)
  {
    if NodeOk(l, keys, kids, lo, hi, after) {
      forall i | 0 <= i < |kids|
        ensures TreeOk(l, kids[i], LoAt(keys, lo, i), HiAt(keys, hi, i), NextAt(kids, after, i))
                && Height(kids[i]) == Height(kids[0])
      {
        assert KidOk(l, keys, kids, lo, hi, after, i);
      }
    }
  }

  /** A key in the bounds of child `i`: the rows of the children before it come before the key, and
      those of the children after it come after. */
  lemma RowsBeside(l: Layout, keys: seq<Key>, kids: seq<Tree>, lo: Option<Key>, hi: Option<Key>, after: Option<nat>,
                   key: Key, i: nat)
    requires TotalOrder(l.before) && NodeOk(l, keys, kids, lo, hi, after) && i < |kids|
             && Within(l, key, LoAt(keys, lo, i), HiAt(keys, hi, i))
    ensures AllBefore(l, RowsOf(kids[..i]), key) && AllAfter(l, key, RowsOf(kids[i + 1..]))
  {
    RowsLeft(l, keys, kids, lo, hi, after, key, i);
    RowsRight(l, keys, kids, lo, hi, after, key, i);
  }

  lemma RowsLeft(l: Layout, keys: seq<Key>, kids: seq<Tree>, lo: Option<Key>, hi: Option<Key>, after: Option<nat>,
                 key: Key, i: nat)
    requires TotalOrder(l.before) && NodeOk(l, keys, kids, lo, hi, after) && i < |kids|
             && (i > 0 ==> !l.before(key, keys[i - 1]))
    ensures AllBefore(l, RowsOf(kids[..i]), key)
  {
    forall j | 0 <= j < i ensures AllBefore(l, Rows(kids[j]), key) {
      OrderedKeys(l, keys, j, i - 1);
      assert KidOk(l, keys, kids, lo, hi, after, j);
      KidBefore(l, kids[j], LoAt(keys, lo, j), keys[j], NextAt(kids, after, j), keys[i - 1], key);
    }
    BeforeAll(l, kids[..i], key);
  }

  lemma RowsRight(l: Layout, keys: seq<Key>, kids: seq<Tree>, lo: Option<Key>, hi: Option<Key>, after: Option<nat>,
                  key: Key, i: nat)
    requires TotalOrder(l.before) && NodeOk(l, keys, kids, lo, hi, after) && i < |kids|
             && (i < |keys| ==> l.before(key, keys[i]))
    ensures AllAfter(l, key, RowsOf(kids[i + 1..]))
  {
    forall j | i < j < |kids| ensures AllAfter(l, key, Rows(kids[j])) {
      OrderedKeys(l, keys, i, j - 1);
      assert KidOk(l, keys, kids, lo, hi, after, j);
      KidAfter(l, kids[j], keys[j - 1], HiAt(keys, hi, j), NextAt(kids, after, j), keys[i], key);
    }
    AfterAll(l, key, kids[i + 1..]);
  }

  lemma OrderedKeys(l: Layout, keys: seq<Key>, i: nat, j: nat)
    requires SortedKeys(l, keys) && i <= j < |keys|
    ensures keys[i] == keys[j] || l.before(keys[i], keys[j])
  {}

  lemma KidBefore(l: Layout, t: Tree, lo: Option<Key>, hi: Key, after: Option<nat>, bound: Key, key: Key)
    requires TotalOrder(l.before) && TreeOk(l, t, lo, Some(hi), after) && (hi == bound || l.before(hi, bound))
             && !l.before(key, bound)
    ensures AllBefore(l, Rows(t), key)
  {
    RowsWithin(l, t, lo, Some(hi), after);
    forall j | 0 <= j < |Rows(t)| ensures l.before(Rows(t)[j].key, key) {
      assert Within(l, Rows(t)[j].key, lo, Some(hi));
    }
  }

  lemma KidAfter(l: Layout, t: Tree, lo: Key, hi: Option<Key>, after: Option<nat>, bound: Key, key: Key)
    requires TotalOrder(l.before) && TreeOk(l, t, Some(lo), hi, after) && (lo == bound || l.before(bound, lo))
             && l.before(key, bound)
    ensures AllAfter(l, key, Rows(t))
  {
    RowsWithin(l, t, Some(lo), hi, after);
    forall j | 0 <= j < |Rows(t)| ensures l.before(key, Rows(t)[j].key) {
      assert Within(l, Rows(t)[j].key, Some(lo), hi);
    }
  }

  lemma {:induction false} BeforeAll(l: Layout, kids: seq<Tree>, key: Key)
    requires forall j :: 0 <= j < |kids| ==> AllBefore(l, Rows(kids[j]), key)
    ensures AllBefore(l, RowsOf(kids), key)
  {
    if kids != [] {
      BeforeAll(l, kids[1..], key);
    }
  }

  lemma {:induction false} AfterAll(l: Layout, key: Key, kids: seq<Tree>)
    requires forall j :: 0 <= j < |kids| ==> AllAfter(l, key, Rows(kids[j]))
    ensures AllAfter(l, key, RowsOf(kids))
  {
    if kids != [] {
      AfterAll(l, key, kids[1..]);
    }
  }

  // ---------------------------------------------------------------- changing a child

  /** A child that takes the place of `kids[i]`. */
  ghost predicate Replaces(l: Layout, old_: Tree, c: Tree, lo: Option<Key>, hi: Option<Key>, after: Option<nat>) {
    TreeOk(l, c, lo, hi, after) && Height(c) == Height(old_) && First(c) == First(old_)
  }

  lemma ReplaceKid(l: Layout, keys: seq<Key>, kids: seq<Tree>, lo: Option<Key>, hi: Option<Key>, after: Option<nat>,
                   i: nat, c: Tree)
    requires NodeOk(l, keys, kids, lo, hi, after) && i < |kids|
    requires Replaces(l, kids[i], c, LoAt(keys, lo, i), HiAt(keys, hi, i), NextAt(kids, after, i))
    ensures NodeOk(l, keys, kids[i := c], lo, hi, after)
  {
    var kids' := kids[i := c];
    assert KidOk(l, keys, kids, lo, hi, after, i);
    forall j: nat | j < |kids'| ensures KidOk(l, keys, kids', lo, hi, after, j) {
      assert KidOk(l, keys, kids, lo, hi, after, j);
    }
  }

  /** Child `i` becomes two, with a separator between them. */
  lemma SplitKid(l: Layout, keys: seq<Key>, kids: seq<Tree>, lo: Option<Key>, hi: Option<Key>, after: Option<nat>,
                 i: nat, a: Tree, sep: Key, b: Tree)
    requires NodeOk(l, keys, kids, lo, hi, after) && i < |kids| && |sep| <= l.maxKeyLen && Height(b) == Height(kids[i])
    requires Replaces(l, kids[i], a, LoAt(keys, lo, i), Some(sep), Some(First(b)))
    requires TreeOk(l, b, Some(sep), HiAt(keys, hi, i), NextAt(kids, after, i))
    requires KeysOk(l, keys[..i] + [sep] + keys[i..], lo, hi)
    ensures NodeOk(l, keys[..i] + [sep] + keys[i..], kids[..i] + [a, b] + kids[i + 1..], lo, hi, after)
  {
    var keys', kids' := keys[..i] + [sep] + keys[i..], kids[..i] + [a, b] + kids[i + 1..];
    assert KidOk(l, keys, kids, lo, hi, after, i);
    forall j: nat | j < |kids'| ensures KidOk(l, keys', kids', lo, hi, after, j) {
      SplitPlace(keys, kids, lo, hi, after, i, a, sep, b, j);
      var was := if j <= i then j else j - 1;
      assert KidOk(l, keys, kids, lo, hi, after, was);
    }
  }

  /** Where the children and their bounds are once child `i` has become two. */
  lemma SplitPlace(keys: seq<Key>, kids: seq<Tree>, lo: Option<Key>, hi: Option<Key>, after: Option<nat>, i: nat,
                   a: Tree, sep: Key, b: Tree, j: nat)
    requires |kids| == |keys| + 1 && i < |kids| && j < |kids| + 1 && First(a) == First(kids[i])
    ensures var keys', kids' := keys[..i] + [sep] + keys[i..], kids[..i] + [a, b] + kids[i + 1..];
            && |kids'| == |kids| + 1 && kids'[0] == (if i == 0 then a else kids[0])
            && kids'[j] == (if j < i then kids[j] else if j == i then a else if j == i + 1 then b else kids[j - 1])
            && LoAt(keys', lo, j) == (if j <= i then LoAt(keys, lo, j) else if j == i + 1 then Some(sep)
                else LoAt(keys, lo, j - 1))
            && HiAt(keys', hi, j) == (if j < i then HiAt(keys, hi, j) else if j == i then Some(sep)
                else HiAt(keys, hi, j - 1))
            && NextAt(kids', after, j) == (if j < i then NextAt(kids, after, j) else if j == i then Some(First(b))
                else NextAt(kids, after, j - 1))
  {}

  // ---------------------------------------------------------------- inserting keeps the tree

  /** A subtree after inserting `e`: one page where it was. */
  ghost predicate GrownOk(l: Layout, t: Tree, t': Tree, lo: Option<Key>, hi: Option<Key>, after: Option<nat>,
                          e: Entry) {
    Replaces(l, t, t', lo, hi, after) && t'.id == t.id && !L.Has(Rows(t), e.key) && L.Inserted(l, Rows(t), Rows(t'), e)
  }

  /** A subtree after inserting `e`: two pages, with a separator between them. */
  ghost predicate SplitOk(l: Layout, t: Tree, a: Tree, sep: Key, b: Tree, lo: Option<Key>, hi: Option<Key>,
                          after: Option<nat>, e: Entry) {
    && Replaces(l, t, a, lo, Some(sep), Some(First(b))) && a.id == t.id && TreeOk(l, b, Some(sep), hi, after)
    && Height(b) == Height(t)
    && Inside(l, sep, lo, hi) && |sep| <= l.maxKeyLen && !L.Has(Rows(t), e.key)
    && L.Inserted(l, Rows(t), Rows(a) + Rows(b), e)
  }

  /** A leaf with the entry in it, still in one page. */
  lemma LeafGrows(l: Layout, id: nat, leaf: L.Leaf, e: Entry, lo: Option<Key>, hi: Option<Key>, after: Option<nat>)
    requires l.Valid() && TotalOrder(l.before) && TreeOk(l, Lf(id, leaf), lo, hi, after) && |e.key| <= l.maxKeyLen
             && Within(l, e.key, lo, hi)
    requires L.Insert(l, leaf, e).Some? && L.Fits(l, L.Insert(l, leaf, e).value)
    ensures GrownOk(l, Lf(id, leaf), Lf(id, L.Insert(l, leaf, e).value), lo, hi, after, e)
  {
    L.InsertRows(l, leaf, e);
    L.InsertOk(l, leaf, e);
    InsertedWithin(l, leaf, e, lo, hi);
  }

  /** A leaf that the entry makes overfull, in two pages. */
  lemma LeafSplits(l: Layout, id: nat, leaf: L.Leaf, e: Entry, next: nat, mid: nat, lo: Option<Key>, hi: Option<Key>,
                   after: Option<nat>)
    requires l.Valid() && TotalOrder(l.before) && TreeOk(l, Lf(id, leaf), lo, hi, after) && |e.key| <= l.maxKeyLen
             && Within(l, e.key, lo, hi)
    requires L.Insert(l, leaf, e).Some?
    requires var entries := L.Insert(l, leaf, e).value.entries;
             1 <= mid < |entries| && L.Used(entries[..mid]) <= l.LeafCapacity()
                 && L.Used(entries[mid..]) <= l.LeafCapacity()
    ensures var leaf' := L.Insert(l, leaf, e).value;
            SplitOk(l, Lf(id, leaf), Lf(id, L.SplitLeft(leaf', mid, next)), leaf'.entries[mid].key,
                Lf(next, L.SplitRight(leaf', mid)), lo, hi, after, e)
  {
    L.InsertRows(l, leaf, e);
    L.InsertOk(l, leaf, e);
    InsertedWithin(l, leaf, e, lo, hi);
    LeafHalves(l, id, L.Insert(l, leaf, e).value, next, lo, hi, mid);
  }

  lemma InsertedWithin(l: Layout, leaf: L.Leaf, e: Entry, lo: Option<Key>, hi: Option<Key>)
    requires TotalOrder(l.before) && L.Sorted(l, leaf.entries) && L.Insert(l, leaf, e).Some? && Within(l, e.key, lo, hi)
    requires forall i :: 0 <= i < |leaf.entries| ==> Within(l, leaf.entries[i].key, lo, hi)
    ensures var entries := L.Insert(l, leaf, e).value.entries;
            forall i :: 0 <= i < |entries| ==> Within(l, entries[i].key, lo, hi)
  {}

  lemma LeafHalves(l: Layout, id: nat, leaf: L.Leaf, next: nat, lo: Option<Key>, hi: Option<Key>, mid: nat)
    requires TotalOrder(l.before) && L.LeafOk(l, leaf) && 1 <= mid < |leaf.entries|
    requires forall i :: 0 <= i < |leaf.entries| ==> Within(l, leaf.entries[i].key, lo, hi)
    requires L.Used(leaf.entries[..mid]) <= l.LeafCapacity() && L.Used(leaf.entries[mid..]) <= l.LeafCapacity()
    ensures var sep, left, right := leaf.entries[mid].key, L.SplitLeft(leaf, mid, next), L.SplitRight(leaf, mid);
            && TreeOk(l, Lf(id, left), lo, Some(sep), Some(next))
            && TreeOk(l, Lf(next, right), Some(sep), hi, leaf.next)
            && Inside(l, sep, lo, hi) && L.Rows(leaf) == L.Rows(left) + L.Rows(right)
  {
    L.SplitLeafOk(l, leaf, mid, next);
    assert L.Rows(leaf) ==
        L.Rows(L.SplitLeft(leaf, mid, next)) + L.Rows(L.SplitRight(leaf, mid)) by { L.SplitRows(leaf, mid, next); }
    HalvesWithin(l, leaf.entries, lo, hi, mid);
  }

  lemma HalvesWithin(l: Layout, entries: seq<Entry>, lo: Option<Key>, hi: Option<Key>, mid: nat)
    requires TotalOrder(l.before) && L.Sorted(l, entries) && 1 <= mid < |entries|
    requires forall i :: 0 <= i < |entries| ==> Within(l, entries[i].key, lo, hi)
    ensures var sep := entries[mid].key;
            && Inside(l, sep, lo, hi) && (forall i :: 0 <= i < mid ==> Within(l, entries[..mid][i].key, lo, Some(sep)))
            && forall i :: 0 <= i < |entries| - mid ==> Within(l, entries[mid..][i].key, Some(sep), hi)
  {
    assert Within(l, entries[0].key, lo, hi) && Within(l, entries[mid].key, lo, hi);
  }

  // ---------------------------------------------------------------- inserting into a node

  lemma SeparatorIndex(l: Layout, keys: seq<Key>, key: Key, i: nat)
    requires TotalOrder(l.before) && SortedKeys(l, keys) && i <= |keys|
    requires (i > 0 ==> !l.before(key, keys[i - 1])) && (i < |keys| ==> l.before(key, keys[i]))
    ensures ChildIndex(l, keys, key) == i
  {
  }

  lemma KeysGrow(l: Layout, keys: seq<Key>, lo: Option<Key>, hi: Option<Key>, i: nat, sep: Key)
    requires TotalOrder(l.before) && KeysOk(l, keys, lo, hi) && i <= |keys| && |sep| <= l.maxKeyLen
    requires Inside(l, sep, LoAt(keys, lo, i), HiAt(keys, hi, i))
    ensures KeysOk(l, keys[..i] + [sep] + keys[i..], lo, hi)
            && Used(keys[..i] + [sep] + keys[i..]) == Used(keys) + InternalCost(|sep|)
  {
    forall j | 0 <= j < i ensures l.before(keys[j], sep) { OrderedKeys(l, keys, j, i - 1); }
    forall j | i <= j < |keys| ensures l.before(sep, keys[j]) { OrderedKeys(l, keys, i, j); }
    KeyInserted(l, keys, i, sep);
    SeparatorWithin(l, keys, lo, hi, i, sep);
    UsedInsert(keys, i, sep);
  }

  lemma SeparatorWithin(l: Layout, keys: seq<Key>, lo: Option<Key>, hi: Option<Key>, i: nat, sep: Key)
    requires TotalOrder(l.before) && i <= |keys| && (forall j :: 0 <= j < |keys| ==> Inside(l, keys[j], lo, hi))
    requires Inside(l, sep, LoAt(keys, lo, i), HiAt(keys, hi, i))
    ensures Inside(l, sep, lo, hi)
  {
    if i > 0 { assert Inside(l, keys[i - 1], lo, hi); }
    if i < |keys| { assert Inside(l, keys[i], lo, hi); }
  }

  lemma KeyInserted(l: Layout, keys: seq<Key>, i: nat, sep: Key)
    requires SortedKeys(l, keys) && i <= |keys|
    requires (forall j :: 0 <= j < i ==> l.before(keys[j], sep))
             && (forall j :: i <= j < |keys| ==> l.before(sep, keys[j]))
    ensures SortedKeys(l, keys[..i] + [sep] + keys[i..])
  {}

  lemma UsedAppend(a: seq<Key>, b: seq<Key>)
    ensures Used(a + b) == Used(a) + Used(b)
  {
    assert Costs(a + b) == Costs(a) + Costs(b);
    SumAppend(Costs(a), Costs(b));
  }

  lemma UsedOne(k: Key)
    ensures Used([k]) == InternalCost(|k|)
  {
    var c := InternalCost(|k|);
    assert Costs([k]) == [c];
    assert Sum([c]) == c by { assert Base.Init([c]) == []; }
  }

  lemma UsedInsert(keys: seq<Key>, i: nat, k: Key)
    requires i <= |keys|
    ensures Used(keys[..i] + [k] + keys[i..]) == Used(keys) + InternalCost(|k|)
  {
    UsedAppend(keys[..i] + [k], keys[i..]);
    UsedAppend(keys[..i], [k]);
    UsedOne(k);
    UsedAppend(keys[..i], keys[i..]);
    assert keys[..i] + keys[i..] == keys;
  }

  /** Part of a node's children under part of its keys. */
  lemma NodePart(l: Layout, keys: seq<Key>, kids: seq<Tree>, lo: Option<Key>, hi: Option<Key>, after: Option<nat>,
                 from: nat, to: nat)
    requires TotalOrder(l.before) && NodeOk(l, keys, kids, lo, hi, after) && from <= to <= |keys|
    ensures NodeOk(l, keys[from..to], kids[from..to + 1], LoAt(keys, lo, from), HiAt(keys, hi, to),
            NextAt(kids, after, to))
    ensures Height(kids[from]) == Height(kids[0])
  {
    var keys', kids' := keys[from..to], kids[from..to + 1];
    forall j: nat | j < |kids'|
      ensures KidOk(l, keys', kids', LoAt(keys, lo, from), HiAt(keys, hi, to), NextAt(kids, after, to), j) {
      assert KidOk(l, keys, kids, lo, hi, after, from + j);
      assert KidOk(l, keys, kids, lo, hi, after, from);
      PartPlace(keys, kids, lo, hi, after, from, to, j);
    }
    assert KidOk(l, keys, kids, lo, hi, after, from);
    PartKeys(l, keys, lo, hi, from, to);
  }

  lemma PartPlace(keys: seq<Key>, kids: seq<Tree>, lo: Option<Key>, hi: Option<Key>, after: Option<nat>, from: nat,
                  to: nat, j: nat)
    requires |kids| == |keys| + 1 && from <= to <= |keys| && j <= to - from
    ensures var keys', kids' := keys[from..to], kids[from..to + 1];
            && kids'[j] == kids[from + j]
            && LoAt(keys', LoAt(keys, lo, from), j) == LoAt(keys, lo, from + j)
            && HiAt(keys', HiAt(keys, hi, to), j) == HiAt(keys, hi, from + j)
            && NextAt(kids', NextAt(kids, after, to), j) == NextAt(kids, after, from + j)
  {}

  lemma PartKeys(l: Layout, keys: seq<Key>, lo: Option<Key>, hi: Option<Key>, from: nat, to: nat)
    requires TotalOrder(l.before) && KeysOk(l, keys, lo, hi) && from <= to <= |keys|
    ensures KeysOk(l, keys[from..to], LoAt(keys, lo, from), HiAt(keys, hi, to))
  {
    forall j | 0 <= j < to - from ensures Inside(l, keys[from..to][j], LoAt(keys, lo, from), HiAt(keys, hi, to)) {
      assert Inside(l, keys[from + j], lo, hi);
    }
  }

  lemma NodeHalves(l: Layout, id: nat, keys: seq<Key>, kids: seq<Tree>, next: nat, lo: Option<Key>, hi: Option<Key>,
                   after: Option<nat>, mid: nat)
    requires TotalOrder(l.before) && NodeOk(l, keys, kids, lo, hi, after) && mid < |keys| && !Overfull(keys[..mid])
             && !Overfull(keys[mid + 1..])
    ensures TreeOk(l, Nd(id, keys[..mid], kids[..mid + 1]), lo, Some(keys[mid]), Some(First(kids[mid + 1])))
    ensures TreeOk(l, Nd(next, keys[mid + 1..], kids[mid + 1..]), Some(keys[mid]), hi, after)
    ensures Height(kids[mid + 1]) == Height(kids[0])
  {
    var n := |keys|;
    NodePart(l, keys, kids, lo, hi, after, 0, mid);
    NodePart(l, keys, kids, lo, hi, after, mid + 1, n);
    assert keys[0..mid] == keys[..mid] && keys[mid + 1..n] == keys[mid + 1..] && kids[0..mid + 1] == kids[..mid + 1]
        && kids[mid + 1..n + 1] == kids[mid + 1..];
    TreeIsNode(l, id, keys[..mid], kids[..mid + 1], lo, Some(keys[mid]), Some(First(kids[mid + 1])));
    TreeIsNode(l, next, keys[mid + 1..], kids[mid + 1..], Some(keys[mid]), hi, after);
  }

  lemma NodeHalvesRows(l: Layout, keys: seq<Key>, kids: seq<Tree>, lo: Option<Key>, hi: Option<Key>, mid: nat)
    requires TotalOrder(l.before) && KeysOk(l, keys, lo, hi) && |kids| == |keys| + 1 && 1 <= mid < |keys|
    ensures RowsOf(kids) == RowsOf(kids[..mid + 1]) + RowsOf(kids[mid + 1..]) && Inside(l, keys[mid], lo, hi)
  {
    RowsAppend(kids[..mid + 1], kids[mid + 1..]);
    assert kids[..mid + 1] + kids[mid + 1..] == kids;
  }

  lemma SplitFitsPages(l: Layout, keys: seq<Key>)
    requires l.Valid() && KeysFit(l, keys) && INTERNAL_CAPACITY < Used(keys) <= INTERNAL_CAPACITY + l.InternalMax()
    ensures |keys| >= 3
    ensures var mid := SplitPoint(keys);
            && l.InternalMin() <= Used(keys[..mid]) <= INTERNAL_CAPACITY
            && l.InternalMin() <= Used(keys[mid + 1..]) <= INTERNAL_CAPACITY
  {
    Thresholds(l);
    SplitFits(Costs(keys), true, l.InternalMax(), INTERNAL_CAPACITY);
    UsedAround(keys, SplitPoint(keys));
  }

  lemma UsedAround(keys: seq<Key>, mid: nat)
    requires mid < |keys|
    ensures Used(keys[..mid]) == Sum(Costs(keys)[..mid]) && Used(keys[mid + 1..]) == Sum(Costs(keys)[mid + 1..])
  {
    assert Costs(keys[..mid]) == Costs(keys)[..mid] && Costs(keys[mid + 1..]) == Costs(keys)[mid + 1..];
  }

  /** The parent of a changed child: what holds of the child's rows holds of the parent's. */
  lemma InsertedInKid(l: Layout, keys: seq<Key>, kids: seq<Tree>, lo: Option<Key>, hi: Option<Key>,
                      after: Option<nat>, i: nat, rows: seq<Entry>, e: Entry)
    requires TotalOrder(l.before) && NodeOk(l, keys, kids, lo, hi, after) && i < |kids|
             && Within(l, e.key, LoAt(keys, lo, i), HiAt(keys, hi, i))
    requires L.Inserted(l, Rows(kids[i]), rows, e) && !L.Has(Rows(kids[i]), e.key)
    ensures L.Inserted(l, RowsOf(kids), RowsOf(kids[..i]) + rows + RowsOf(kids[i + 1..]), e)
            && !L.Has(RowsOf(kids), e.key)
  {
    RowsBeside(l, keys, kids, lo, hi, after, e.key, i);
    RowsAround(kids, i);
    L.InsertedAround(l, RowsOf(kids[..i]), Rows(kids[i]), rows, RowsOf(kids[i + 1..]), e);
    HasInMiddle(l, RowsOf(kids[..i]), Rows(kids[i]), RowsOf(kids[i + 1..]), e.key);
  }

  lemma HasInMiddle(l: Layout, a: seq<Entry>, rows: seq<Entry>, b: seq<Entry>, key: Key)
    requires TotalOrder(l.before) && AllBefore(l, a, key) && AllAfter(l, key, b)
    ensures L.Has(a + rows + b, key) <==> L.Has(rows, key)
  {
    var whole := a + rows + b;
    if i :| 0 <= i < |whole| && whole[i].key == key {
      assert |a| <= i < |a| + |rows| && rows[i - |a|].key == key;
    }
    if i :| 0 <= i < |rows| && rows[i].key == key {
      assert whole[|a| + i].key == key;
    }
  }

  lemma WholeKid(l: Layout, t: Tree, i: nat, c: Tree, lo: Option<Key>, hi: Option<Key>, after: Option<nat>)
    requires TotalOrder(l.before) && t.Nd? && TreeOk(l, t, lo, hi, after) && i < |t.kids|
    requires Replaces(l, t.kids[i], c, LoAt(t.keys, lo, i), HiAt(t.keys, hi, i), NextAt(t.kids, after, i))
    ensures Replaces(l, t, Nd(t.id, t.keys, t.kids[i := c]), lo, hi, after)
    ensures RowsOf(t.kids[i := c]) == RowsOf(t.kids[..i]) + Rows(c) + RowsOf(t.kids[i + 1..])
  {
    TreeIsNode(l, t.id, t.keys, t.kids, lo, hi, after);
    ReplaceKid(l, t.keys, t.kids, lo, hi, after, i, c);
    TreeIsNode(l, t.id, t.keys, t.kids[i := c], lo, hi, after);
    RowsAround(t.kids[i := c], i);
    assert t.kids[i := c][..i] == t.kids[..i] && t.kids[i := c][i + 1..] == t.kids[i + 1..];
  }

  /** The parent of a child that stays one page. */
  lemma KidGrows(l: Layout, t: Tree, i: nat, c: Tree, lo: Option<Key>, hi: Option<Key>, after: Option<nat>, e: Entry)
    requires l.Valid() && TotalOrder(l.before) && t.Nd? && TreeOk(l, t, lo, hi, after) && i < |t.kids|
    requires Within(l, e.key, LoAt(t.keys, lo, i), HiAt(t.keys, hi, i))
    requires GrownOk(l, t.kids[i], c, LoAt(t.keys, lo, i), HiAt(t.keys, hi, i), NextAt(t.kids, after, i), e)
    ensures GrownOk(l, t, Nd(t.id, t.keys, t.kids[i := c]), lo, hi, after, e)
  {
    WholeKid(l, t, i, c, lo, hi, after);
    TreeIsNode(l, t.id, t.keys, t.kids, lo, hi, after);
    InsertedInKid(l, t.keys, t.kids, lo, hi, after, i, Rows(c), e);
  }

  /** The keys and children of a node once child `i` has become two. */
  function TakenKeys(t: Tree, i: nat, sep: Key): seq<Key>
    requires t.Nd? && i <= |t.keys|
  {
    t.keys[..i] + [sep] + t.keys[i..]
  }

  function TakenKids(t: Tree, i: nat, a: Tree, b: Tree): seq<Tree>
    requires t.Nd? && i < |t.kids|
  {
    t.kids[..i] + [a, b] + t.kids[i + 1..]
  }

  /** The parent of a child that splits, apart from whether its keys fit. */
  lemma KidSplits(l: Layout, t: Tree, i: nat, a: Tree, sep: Key, b: Tree, lo: Option<Key>, hi: Option<Key>,
                  after: Option<nat>, e: Entry)
    requires l.Valid() && TotalOrder(l.before) && t.Nd? && TreeOk(l, t, lo, hi, after) && i < |t.kids|
    requires Within(l, e.key, LoAt(t.keys, lo, i), HiAt(t.keys, hi, i))
    requires SplitOk(l, t.kids[i], a, sep, b, LoAt(t.keys, lo, i), HiAt(t.keys, hi, i), NextAt(t.kids, after, i), e)
    ensures var keys, kids := TakenKeys(t, i, sep), TakenKids(t, i, a, b);
            && NodeOk(l, keys, kids, lo, hi, after) && Used(keys) <= Used(t.keys) + l.InternalMax()
            && First(kids[0]) == First(t.kids[0]) && Height(kids[0]) == Height(t.kids[0])
            && !L.Has(Rows(t), e.key) && L.Inserted(l, Rows(t), RowsOf(kids), e)
  {
    TreeIsNode(l, t.id, t.keys, t.kids, lo, hi, after);
    KidSplitsNode(l, t.keys, t.kids, lo, hi, after, i, a, sep, b);
    InsertedInKid(l, t.keys, t.kids, lo, hi, after, i, Rows(a) + Rows(b), e);
    TwoKidsRows(t.kids, i, a, b);
    assert Height(t.kids[i]) == Height(t.kids[0]) by { assert KidOk(l, t.keys, t.kids, lo, hi, after, i); }
  }

  lemma KidSplitsNode(l: Layout, keys: seq<Key>, kids: seq<Tree>, lo: Option<Key>, hi: Option<Key>,
                      after: Option<nat>, i: nat, a: Tree, sep: Key, b: Tree)
    requires TotalOrder(l.before) && NodeOk(l, keys, kids, lo, hi, after) && i < |kids| && |sep| <= l.maxKeyLen
             && Height(b) == Height(kids[i])
    requires Replaces(l, kids[i], a, LoAt(keys, lo, i), Some(sep), Some(First(b)))
    requires TreeOk(l, b, Some(sep), HiAt(keys, hi, i), NextAt(kids, after, i))
             && Inside(l, sep, LoAt(keys, lo, i), HiAt(keys, hi, i))
    ensures NodeOk(l, keys[..i] + [sep] + keys[i..], kids[..i] + [a, b] + kids[i + 1..], lo, hi, after)
    ensures Used(keys[..i] + [sep] + keys[i..]) <= Used(keys) + l.InternalMax()
  {
    KeysGrow(l, keys, lo, hi, i, sep);
    SplitKid(l, keys, kids, lo, hi, after, i, a, sep, b);
  }

  /** A node whose keys and children have changed, in one page. */
  lemma NodeGrows(l: Layout, t: Tree, keys: seq<Key>, kids: seq<Tree>, lo: Option<Key>, hi: Option<Key>,
                  after: Option<nat>, e: Entry)
    requires t.Nd? && t.kids != [] && NodeOk(l, keys, kids, lo, hi, after) && !Overfull(keys)
    requires First(kids[0]) == First(t.kids[0]) && Height(kids[0]) == Height(t.kids[0])
    requires !L.Has(Rows(t), e.key) && L.Inserted(l, Rows(t), RowsOf(kids), e)
    ensures GrownOk(l, t, Nd(t.id, keys, kids), lo, hi, after, e)
  {
    TreeIsNode(l, t.id, keys, kids, lo, hi, after);
  }

  /** A node that has become overfull, in two pages around the key that goes up. */
  lemma NodeSplits(l: Layout, t: Tree, keys: seq<Key>, kids: seq<Tree>, next: nat, lo: Option<Key>, hi: Option<Key>,
                   after: Option<nat>, e: Entry, mid: nat)
    requires TotalOrder(l.before) && t.Nd? && t.kids != [] && NodeOk(l, keys, kids, lo, hi, after) && 1 <= mid < |keys|
    requires !Overfull(keys[..mid]) && !Overfull(keys[mid + 1..]) && First(kids[0]) == First(t.kids[0])
             && Height(kids[0]) == Height(t.kids[0])
    requires !L.Has(Rows(t), e.key) && L.Inserted(l, Rows(t), RowsOf(kids), e)
    ensures SplitOk(l, t, Nd(t.id, keys[..mid], kids[..mid + 1]), keys[mid],
            Nd(next, keys[mid + 1..], kids[mid + 1..]), lo, hi, after, e)
  {
    var left, right := Nd(t.id, keys[..mid], kids[..mid + 1]), Nd(next, keys[mid + 1..], kids[mid + 1..]);
    NodeHalves(l, t.id, keys, kids, next, lo, hi, after, mid);
    NodeHalvesRows(l, keys, kids, lo, hi, mid);
    assert Rows(left) + Rows(right) == RowsOf(kids);
    assert left.kids[0] == kids[0] && right.kids[0] == kids[mid + 1];
    assert Height(left) == Height(t) && Height(right) == Height(t) && First(left) == First(t)
        && First(right) == First(kids[mid + 1]);
    assert |keys[mid]| <= l.maxKeyLen;
  }

  lemma TwoKidsRows(kids: seq<Tree>, i: nat, a: Tree, b: Tree)
    requires i < |kids|
    ensures RowsOf(kids[..i] + [a, b] + kids[i + 1..]) ==
            RowsOf(kids[..i]) + (Rows(a) + Rows(b)) + RowsOf(kids[i + 1..])
  {
    RowsAppend(kids[..i] + [a, b], kids[i + 1..]);
    RowsAppend(kids[..i], [a, b]);
    RowsAppend([a], [b]);
    assert [a] + [b] == [a, b];
    RowsOne(a);
    RowsOne(b);
  }

  // ---------------------------------------------------------------- removing

  predicate Underfull(l: Layout, t: Tree) {
    match t
    case Lf(_, leaf) => L.Underfull(l, leaf)
    case Nd(_, keys, _) => Used(keys) < l.InternalMin()
  }

  predicate CanLend(l: Layout, keys: seq<Key>, right: bool) {
    keys != [] && Used(keys) - InternalCost(|if right then keys[0] else Last(keys)|) >= l.InternalMin()
  }

  /** What an underfull leaf and its sibling become: one leaf, or two. `NoLeaf` is a sibling with no
      entry to give. */
  datatype LeafPair = OneLeaf(leaf: L.Leaf) | TwoLeaves(a: L.Leaf, b: L.Leaf) | NoLeaf

  /** `right` says that `b` is the sibling of an underfull `a`, else `a` is that of `b`. */
  function PairLeaves(l: Layout, a: L.Leaf, b: L.Leaf, right: bool): LeafPair {
    var (leaf, sibling) := if right then L.Borrow(l, a, b, true) else L.Borrow(l, b, a, false);
    var (left, rest) := if right then (leaf, sibling) else (sibling, leaf);
    if !L.SlotsOk(left) || !L.SlotsOk(rest) then NoLeaf
    else if L.Underfull(l, leaf) then OneLeaf(L.Absorbed(l, left, rest))
    else if rest.entries == [] then NoLeaf
    else TwoLeaves(left, rest)
  }

  /** What an underfull node and its sibling become: one node, or two with a child moved across. */
  datatype NodePair<T> = OneNode(keys: seq<Key>, kids: seq<T>) | TwoNodes(aKeys: seq<Key>, aKids: seq<T>, sep: Key,
      bKeys: seq<Key>, bKids: seq<T>)

  function PairNodes<T>(l: Layout, aKeys: seq<Key>, aKids: seq<T>, sep: Key, bKeys: seq<Key>, bKids: seq<T>,
                        right: bool): NodePair<T>
    requires |aKids| == |aKeys| + 1 && |bKids| == |bKeys| + 1
  {
    if right && CanLend(l, bKeys, true)
        then TwoNodes(aKeys + [sep], aKids + [bKids[0]], bKeys[0], bKeys[1..], bKids[1..])
    else if !right && CanLend(l, aKeys, false)
        then TwoNodes(Base.Init(aKeys), Base.Init(aKids), Last(aKeys), [sep] + bKeys, [Last(aKids)] + bKids)
    else OneNode(aKeys + [sep] + bKeys, aKids + bKids)
  }

  /** What an underfull subtree and its sibling become. */
  datatype Paired = Merged(t: Tree) | Shared(a: Tree, sep: Key, b: Tree) | Empty

  function Pair(l: Layout, a: Tree, sep: Key, b: Tree, right: bool): Paired
    requires Shaped(l, a) && Shaped(l, b)
  {
    if a.Lf? && b.Lf? then
      match PairLeaves(l, a.leaf, b.leaf, right)
      case OneLeaf(leaf) => Merged(Lf(a.id, leaf))
      case TwoLeaves(left, rest) =>
          Shared(Lf(a.id, left), if rest.entries == [] then sep else rest.entries[0].key, Lf(b.id, rest))
      case NoLeaf => Empty
    else if a.Nd? && b.Nd? then
      match PairNodes(l, a.keys, a.kids, sep, b.keys, b.kids, right)
      case OneNode(keys, kids) => Merged(Nd(a.id, keys, kids))
      case TwoNodes(aKeys, aKids, sep', bKeys, bKids) => Shared(Nd(a.id, aKeys, aKids), sep', Nd(b.id, bKeys, bKids))
    else Empty
  }

  function Joined(a: Tree, sep: Key, b: Tree): Tree
    requires a.Nd? && b.Nd?
  {
    Nd(a.id, a.keys + [sep] + b.keys, a.kids + b.kids)
  }

  /** Whether a node has room for another separator in place of key `i`. */
  predicate FitsReplacing(keys: seq<Key>, i: nat, key: Key)
    requires i < |keys|
  {
    Used(keys) - InternalCost(|keys[i]|) + InternalCost(|key|) <= INTERNAL_CAPACITY
  }

  // ---------------------------------------------------------------- joining two nodes

  lemma JoinedOk(l: Layout, a: Tree, sep: Key, b: Tree, lo: Option<Key>, hi: Option<Key>, after: Option<nat>)
    requires TotalOrder(l.before) && a.Nd? && b.Nd? && Height(a) == Height(b) && |sep| <= l.maxKeyLen
    requires TreeOk(l, a, lo, Some(sep), Some(First(b))) && TreeOk(l, b, Some(sep), hi, after) && Inside(l, sep, lo, hi)
    ensures NodeOk(l, Joined(a, sep, b).keys, Joined(a, sep, b).kids, lo, hi, after)
    ensures Used(Joined(a, sep, b).keys) == Used(a.keys) + InternalCost(|sep|) + Used(b.keys)
    ensures RowsOf(a.kids + b.kids) == Rows(a) + Rows(b)
  {
    var keys, kids := a.keys + [sep] + b.keys, a.kids + b.kids;
    TreeIsNode(l, a.id, a.keys, a.kids, lo, Some(sep), Some(First(b)));
    TreeIsNode(l, b.id, b.keys, b.kids, Some(sep), hi, after);
    forall j: nat | j < |kids| ensures KidOk(l, keys, kids, lo, hi, after, j) {
      JoinPlace(a, sep, b, lo, hi, after, j);
      if j < |a.kids| {
        assert KidOk(l, a.keys, a.kids, lo, Some(sep), Some(First(b)), j);
      } else {
        assert KidOk(l, b.keys, b.kids, Some(sep), hi, after, j - |a.kids|);
      }
    }
    JoinedKeys(l, a.keys, sep, b.keys, lo, hi);
    UsedAppend(a.keys + [sep], b.keys);
    UsedAppend(a.keys, [sep]);
    UsedOne(sep);
    RowsAppend(a.kids, b.kids);
  }

  lemma JoinPlace(a: Tree, sep: Key, b: Tree, lo: Option<Key>, hi: Option<Key>, after: Option<nat>, j: nat)
    requires a.Nd? && b.Nd? && |a.kids| == |a.keys| + 1 && |b.kids| == |b.keys| + 1 && j < |a.kids| + |b.kids|
    ensures var keys, kids, n := a.keys + [sep] + b.keys, a.kids + b.kids, |a.kids|;
            && kids[j] == (if j < n then a.kids[j] else b.kids[j - n])
            && LoAt(keys, lo, j) == (if j < n then LoAt(a.keys, lo, j) else LoAt(b.keys, Some(sep), j - n))
            && HiAt(keys, hi, j) == (if j < n then HiAt(a.keys, Some(sep), j) else HiAt(b.keys, hi, j - n))
            && NextAt(kids, after, j) == (if j < n then NextAt(a.kids, Some(First(b)), j)
                else NextAt(b.kids, after, j - n))
  {}

  lemma JoinedKeys(l: Layout, a: seq<Key>, sep: Key, b: seq<Key>, lo: Option<Key>, hi: Option<Key>)
    requires TotalOrder(l.before) && KeysOk(l, a, lo, Some(sep)) && KeysOk(l, b, Some(sep), hi) && |sep| <= l.maxKeyLen
    requires Inside(l, sep, lo, hi)
    ensures KeysOk(l, a + [sep] + b, lo, hi)
  {
    forall j | 0 <= j < |a| ensures Inside(l, a[j], lo, hi) && l.before(a[j], sep) {
      assert Inside(l, a[j], lo, Some(sep));
    }
    forall j | 0 <= j < |b| ensures Inside(l, b[j], lo, hi) && l.before(sep, b[j]) {
      assert Inside(l, b[j], Some(sep), hi);
    }
  }

  // ---------------------------------------------------------------- an underfull page and its sibling

  /** What a pair of siblings becomes holds the same rows, in the place the two were in. */
  ghost predicate PairedOk(l: Layout, a: Tree, b: Tree, r: Paired, lo: Option<Key>, hi: Option<Key>,
                           after: Option<nat>) {
    match r
    case Empty => false
    case Merged(m) => Replaces(l, a, m, lo, hi, after) && m.id == a.id && Rows(m) == Rows(a) + Rows(b)
    case Shared(a', sep, b') =>
      && Replaces(l, a, a', lo, Some(sep), Some(First(b'))) && TreeOk(l, b', Some(sep), hi, after)
      && Height(b') == Height(a)
      && a'.id == a.id && b'.id == b.id && Inside(l, sep, lo, hi) && |sep| <= l.maxKeyLen
      && Rows(a') + Rows(b') == Rows(a) + Rows(b)
  }

  /** Two adjacent subtrees and the separator between them. */
  ghost predicate Adjacent(l: Layout, a: Tree, sep: Key, b: Tree, lo: Option<Key>, hi: Option<Key>,
                           after: Option<nat>) {
    && TreeOk(l, a, lo, Some(sep), Some(First(b))) && TreeOk(l, b, Some(sep), hi, after) && Height(a) == Height(b)
    && Inside(l, sep, lo, hi) && |sep| <= l.maxKeyLen
  }

  lemma PairNodesOk(l: Layout, a: Tree, sep: Key, b: Tree, right: bool, lo: Option<Key>, hi: Option<Key>,
                    after: Option<nat>)
    requires l.Valid() && TotalOrder(l.before) && a.Nd? && b.Nd? && Adjacent(l, a, sep, b, lo, hi, after)
    requires Underfull(l, if right then a else b)
    ensures Shaped(l, a) && Shaped(l, b) && PairedOk(l, a, b, Pair(l, a, sep, b, right), lo, hi, after)
  {
    OkIsShaped(l, a, lo, Some(sep), Some(First(b)));
    OkIsShaped(l, b, Some(sep), hi, after);
    if right && CanLend(l, b.keys, true) {
      LendFromRight(l, a, sep, b, lo, hi, after);
    } else if !right && CanLend(l, a.keys, false) {
      LendFromLeft(l, a, sep, b, lo, hi, after);
    } else {
      JoinedOk(l, a, sep, b, lo, hi, after);
      MergedFits(l, a.keys, sep, b.keys, right);
      TreeIsNode(l, a.id, a.keys + [sep] + b.keys, a.kids + b.kids, lo, hi, after);
    }
  }

  lemma LendFromRight(l: Layout, a: Tree, sep: Key, b: Tree, lo: Option<Key>, hi: Option<Key>, after: Option<nat>)
    requires l.Valid() && TotalOrder(l.before) && a.Nd? && b.Nd? && Adjacent(l, a, sep, b, lo, hi, after)
             && Underfull(l, a) && b.keys != []
    ensures PairedOk(l, a, b,
            Shared(Nd(a.id, a.keys + [sep], a.kids + [b.kids[0]]), b.keys[0], Nd(b.id, b.keys[1..], b.kids[1..])),
            lo, hi, after)
  {
    LendSizes(l, a.keys, sep, b.keys);
    JoinedAfterFirst(a, sep, b);
    SharedNodes(l, a, sep, b, |a.keys| + 1, lo, hi, after);
  }

  lemma JoinedAfterFirst(a: Tree, sep: Key, b: Tree)
    requires a.Nd? && b.Nd? && b.keys != [] && |a.kids| == |a.keys| + 1 && |b.kids| == |b.keys| + 1
    ensures var j, n := Joined(a, sep, b), |a.keys| + 1;
            && j.keys[..n] == a.keys + [sep] && j.keys[n] == b.keys[0] && j.keys[n + 1..] == b.keys[1..]
            && j.kids[..n + 1] == a.kids + [b.kids[0]] && j.kids[n + 1..] == b.kids[1..]
  {}

  lemma LendFromLeft(l: Layout, a: Tree, sep: Key, b: Tree, lo: Option<Key>, hi: Option<Key>, after: Option<nat>)
    requires l.Valid() && TotalOrder(l.before) && a.Nd? && b.Nd? && Adjacent(l, a, sep, b, lo, hi, after)
             && Underfull(l, b) && a.keys != []
    ensures PairedOk(l, a, b,
            Shared(Nd(a.id, Base.Init(a.keys), Base.Init(a.kids)), Last(a.keys),
            Nd(b.id, [sep] + b.keys, [Last(a.kids)] + b.kids)), lo, hi, after)
  {
    var j, n := Joined(a, sep, b), |a.keys| - 1;
    LendSizes(l, b.keys, sep, a.keys);
    JoinedBeforeLast(a, sep, b);
    SharedNodes(l, a, sep, b, n, lo, hi, after);
  }

  lemma JoinedBeforeLast(a: Tree, sep: Key, b: Tree)
    requires a.Nd? && b.Nd? && a.keys != [] && |a.kids| == |a.keys| + 1
    ensures var j, n := Joined(a, sep, b), |a.keys| - 1;
            && j.keys[..n] == Base.Init(a.keys) && j.keys[n] == Last(a.keys) && j.keys[n + 1..] == [sep] + b.keys
            && j.kids[..n + 1] == Base.Init(a.kids) && j.kids[n + 1..] == [Last(a.kids)] + b.kids
  {}

  /** An underfull page has room for the separator, and its sibling only gets smaller. */
  lemma LendSizes(l: Layout, keys: seq<Key>, sep: Key, sibling: seq<Key>)
    requires l.Valid() && Used(keys) < l.InternalMin() && |sep| <= l.maxKeyLen && !Overfull(sibling) && sibling != []
    ensures !Overfull(keys + [sep]) && !Overfull([sep] + keys) && !Overfull(sibling[1..])
            && !Overfull(Base.Init(sibling))
  {
    Thresholds(l);
    UsedAppend(keys, [sep]);
    UsedAppend([sep], keys);
    UsedOne(sep);
    UsedFirst(sibling);
    UsedLast(sibling);
  }

  lemma UsedFirst(keys: seq<Key>)
    requires keys != []
    ensures Used(keys) == InternalCost(|keys[0]|) + Used(keys[1..])
  {
    UsedOne(keys[0]);
    UsedAppend([keys[0]], keys[1..]);
    assert keys == [keys[0]] + keys[1..];
  }

  lemma UsedLast(keys: seq<Key>)
    requires keys != []
    ensures Used(keys) == Used(Base.Init(keys)) + InternalCost(|Last(keys)|)
  {
    UsedOne(Last(keys));
    UsedAppend(Base.Init(keys), [Last(keys)]);
    assert keys == Base.Init(keys) + [Last(keys)];
  }

  lemma MergedFits(l: Layout, a: seq<Key>, sep: Key, b: seq<Key>, right: bool)
    requires l.Valid() && KeysFit(l, a) && KeysFit(l, b) && |sep| <= l.maxKeyLen
    requires if right then Used(a) < l.InternalMin() && !CanLend(l, b, true)
             else Used(b) < l.InternalMin() && !CanLend(l, a, false)
    ensures Used(a) + InternalCost(|sep|) + Used(b) <= INTERNAL_CAPACITY
  {
    Thresholds(l);
    var sibling := if right then b else a;
    if sibling == [] {
      assert Costs(sibling) == [];
    } else {
      UsedFirst(sibling);
      UsedLast(sibling);
    }
  }

  /** Moving a child across is joining the two nodes and splitting them one key further. */
  lemma SharedNodes(l: Layout, a: Tree, sep: Key, b: Tree, mid: nat, lo: Option<Key>, hi: Option<Key>,
                    after: Option<nat>)
    requires TotalOrder(l.before) && a.Nd? && b.Nd? && Adjacent(l, a, sep, b, lo, hi, after)
    requires var j := Joined(a, sep, b); mid < |j.keys| && !Overfull(j.keys[..mid]) && !Overfull(j.keys[mid + 1..])
    ensures var j := Joined(a, sep, b);
            PairedOk(l, a, b,
                Shared(Nd(a.id, j.keys[..mid], j.kids[..mid + 1]), j.keys[mid],
                Nd(b.id, j.keys[mid + 1..], j.kids[mid + 1..])), lo, hi, after)
  {
    JoinedOk(l, a, sep, b, lo, hi, after);
    NodesShared(l, a, b, Joined(a, sep, b).keys, Joined(a, sep, b).kids, mid, lo, hi, after);
  }

  lemma NodesShared(l: Layout, a: Tree, b: Tree, keys: seq<Key>, kids: seq<Tree>, mid: nat, lo: Option<Key>,
                    hi: Option<Key>, after: Option<nat>)
    requires TotalOrder(l.before) && a.Nd? && a.kids != [] && kids != [] && kids[0] == a.kids[0]
             && NodeOk(l, keys, kids, lo, hi, after)
    requires mid < |keys| && !Overfull(keys[..mid]) && !Overfull(keys[mid + 1..]) && RowsOf(kids) == Rows(a) + Rows(b)
    ensures PairedOk(l, a, b,
            Shared(Nd(a.id, keys[..mid], kids[..mid + 1]), keys[mid], Nd(b.id, keys[mid + 1..], kids[mid + 1..])),
            lo, hi, after)
  {
    NodeHalves(l, a.id, keys, kids, b.id, lo, hi, after, mid);
    HalvesMeasured(a, b, keys, kids, mid);
    assert Inside(l, keys[mid], lo, hi) && |keys[mid]| <= l.maxKeyLen;
  }

  lemma HalvesMeasured(a: Tree, b: Tree, keys: seq<Key>, kids: seq<Tree>, mid: nat)
    requires a.Nd? && a.kids != [] && |kids| == |keys| + 1 && kids[0] == a.kids[0] && mid < |keys|
    requires RowsOf(kids) == Rows(a) + Rows(b) && Height(kids[mid + 1]) == Height(kids[0])
    ensures var x, y := Nd(a.id, keys[..mid], kids[..mid + 1]), Nd(b.id, keys[mid + 1..], kids[mid + 1..]);
            && Rows(x) + Rows(y) == Rows(a) + Rows(b) && Height(x) == Height(a) == Height(y)
            && First(x) == First(a) && First(y) == First(kids[mid + 1])
  {
    RowsAppend(kids[..mid + 1], kids[mid + 1..]);
    assert kids[..mid + 1] + kids[mid + 1..] == kids;
    assert kids[..mid + 1][0] == a.kids[0] && kids[mid + 1..][0] == kids[mid + 1];
  }

  lemma AdjacentEntries(l: Layout, a: L.Leaf, b: L.Leaf, sep: Key, lo: Option<Key>, hi: Option<Key>)
    requires TotalOrder(l.before) && L.Sorted(l, a.entries) && L.Sorted(l, b.entries) && Inside(l, sep, lo, hi)
    requires forall i :: 0 <= i < |a.entries| ==> Within(l, a.entries[i].key, lo, Some(sep))
    requires forall i :: 0 <= i < |b.entries| ==> Within(l, b.entries[i].key, Some(sep), hi)
    ensures L.Sorted(l, a.entries + b.entries)
    ensures forall e :: e in a.entries + b.entries ==> Within(l, e.key, lo, hi)
  {
    forall i | 0 <= i < |a.entries| ensures Within(l, a.entries[i].key, lo, hi) && l.before(a.entries[i].key, sep) {
      assert Within(l, a.entries[i].key, lo, Some(sep));
    }
    forall i | 0 <= i < |b.entries| ensures Within(l, b.entries[i].key, lo, hi) && !l.before(b.entries[i].key, sep) {
      assert Within(l, b.entries[i].key, Some(sep), hi);
    }
    forall i, j | 0 <= i < |a.entries| && 0 <= j < |b.entries| ensures l.before(a.entries[i].key, b.entries[j].key) {}
  }

  lemma PairLeavesOk(l: Layout, a: Tree, sep: Key, b: Tree, right: bool, lo: Option<Key>, hi: Option<Key>,
                     after: Option<nat>)
    requires l.Valid() && TotalOrder(l.before) && a.Lf? && b.Lf? && Adjacent(l, a, sep, b, lo, hi, after)
    requires Underfull(l, if right then a else b)
    ensures PairedOk(l, a, b, Pair(l, a, sep, b, right), lo, hi, after)
  {
    AdjacentEntries(l, a.leaf, b.leaf, sep, lo, hi);
    if right {
      L.BorrowOk(l, a.leaf, b.leaf, true);
      var (leaf, sibling) := L.Borrow(l, a.leaf, b.leaf, true);
      BorrowedLeaves(l, a, b, leaf, sibling, true, lo, hi);
    } else {
      L.BorrowOk(l, b.leaf, a.leaf, false);
      var (leaf, sibling) := L.Borrow(l, b.leaf, a.leaf, false);
      BorrowedLeaves(l, a, b, sibling, leaf, false, lo, hi);
    }
  }

  /** The leaves after borrowing, `left` and `rest`, merged or shared. */
  lemma BorrowedLeaves(l: Layout, a: Tree, b: Tree, left: L.Leaf, rest: L.Leaf, right: bool, lo: Option<Key>,
                       hi: Option<Key>)
    requires l.Valid() && TotalOrder(l.before) && a.Lf? && b.Lf? && left.next == Some(b.id) && rest.next == b.leaf.next
    requires L.LeafOk(l, left) && L.LeafOk(l, rest) && L.Sorted(l, left.entries + rest.entries)
    requires L.Fits(l, a.leaf) && L.Fits(l, b.leaf)
    requires L.Used((if right then left else rest).entries) < l.LeafMin() + l.LeafMax()
    requires L.Used((if right then rest else left).entries) <= L.Used((if right then b.leaf else a.leaf).entries)
    requires var leaf, sibling := if right then left else rest, if right then rest else left;
             if L.Underfull(l, leaf) then !L.CanLend(l, sibling, right) else L.Used(sibling.entries) >= l.LeafMin()
    requires forall e :: e in a.leaf.entries + b.leaf.entries ==> Within(l, e.key, lo, hi)
    requires L.Among(left.entries, a.leaf.entries + b.leaf.entries)
             && L.Among(rest.entries, a.leaf.entries + b.leaf.entries)
    requires L.Rows(left) + L.Rows(rest) == L.Rows(a.leaf) + L.Rows(b.leaf)
    ensures if L.Underfull(l, if right then left else rest)
            then PairedOk(l, a, b, Merged(Lf(a.id, L.Absorbed(l, left, rest))), lo, hi, b.leaf.next)
            else rest.entries != [] && PairedOk(l, a, b, Shared(Lf(a.id, left), rest.entries[0].key, Lf(b.id, rest)),
                lo, hi, b.leaf.next)
  {
    Thresholds(l);
    if L.Underfull(l, if right then left else rest) {
      MergedLeafFits(l, left, rest, right);
      LeavesMerged(l, a, b, left, rest, lo, hi);
    } else {
      LeavesShared(l, a, b, left, rest, lo, hi);
    }
  }

  lemma LeavesShared(l: Layout, a: Tree, b: Tree, left: L.Leaf, rest: L.Leaf, lo: Option<Key>, hi: Option<Key>)
    requires l.Valid() && TotalOrder(l.before) && a.Lf? && b.Lf? && left.next == Some(b.id) && rest.next == b.leaf.next
    requires L.LeafOk(l, left) && L.LeafOk(l, rest) && L.Sorted(l, left.entries + rest.entries)
    requires l.LeafMin() <= L.Used(left.entries) <= l.LeafCapacity()
             && l.LeafMin() <= L.Used(rest.entries) <= l.LeafCapacity()
    requires forall e :: e in a.leaf.entries + b.leaf.entries ==> Within(l, e.key, lo, hi)
    requires L.Among(left.entries, a.leaf.entries + b.leaf.entries)
             && L.Among(rest.entries, a.leaf.entries + b.leaf.entries)
    requires L.Rows(left) + L.Rows(rest) == L.Rows(a.leaf) + L.Rows(b.leaf)
    ensures rest.entries != []
            && PairedOk(l, a, b, Shared(Lf(a.id, left), rest.entries[0].key, Lf(b.id, rest)), lo, hi, b.leaf.next)
  {
    Thresholds(l);
    NotEmpty(left.entries);
    NotEmpty(rest.entries);
    SharedLeaves(l, left, rest, a.leaf.entries + b.leaf.entries, lo, hi);
  }

  lemma LeavesMerged(l: Layout, a: Tree, b: Tree, left: L.Leaf, rest: L.Leaf, lo: Option<Key>, hi: Option<Key>)
    requires a.Lf? && b.Lf? && rest.next == b.leaf.next && L.LeafOk(l, left) && L.LeafOk(l, rest)
             && L.Sorted(l, left.entries + rest.entries)
    requires L.Used(left.entries) + L.Used(rest.entries) <= l.LeafCapacity()
    requires forall e :: e in a.leaf.entries + b.leaf.entries ==> Within(l, e.key, lo, hi)
    requires L.Among(left.entries, a.leaf.entries + b.leaf.entries)
             && L.Among(rest.entries, a.leaf.entries + b.leaf.entries)
    requires L.Rows(left) + L.Rows(rest) == L.Rows(a.leaf) + L.Rows(b.leaf)
    ensures PairedOk(l, a, b, Merged(Lf(a.id, L.Absorbed(l, left, rest))), lo, hi, b.leaf.next)
  {
    L.AbsorbedOk(l, left, rest);
    AmongWithin(l, L.Absorbed(l, left, rest).entries, left.entries + rest.entries, a.leaf.entries + b.leaf.entries,
        lo, hi);
  }

  lemma NotEmpty(entries: seq<Entry>)
    requires L.Used(entries) > 0
    ensures entries != []
  {}

  lemma MergedLeafFits(l: Layout, left: L.Leaf, rest: L.Leaf, right: bool)
    requires l.Valid() && L.KeysFit(l, left.entries) && L.KeysFit(l, rest.entries)
    requires if right then L.Underfull(l, left) && !L.CanLend(l, rest, true)
             else L.Underfull(l, rest) && !L.CanLend(l, left, false)
    ensures L.Used(left.entries) + L.Used(rest.entries) <= l.LeafCapacity()
  {
    Thresholds(l);
    var sibling := if right then rest else left;
    if sibling.entries == [] {
      assert L.Costs(sibling.entries) == [];
    } else {
      var used, edge := L.Used((if right then left else rest).entries),
          LeafCost(|sibling.entries[L.Edge(sibling, right)].key|);
      MergeFits(l.LeafCapacity(), l.LeafMax(), used, L.Used(sibling.entries), edge, 0, l.LeafMin());
    }
  }

  lemma AmongWithin(l: Layout, entries: seq<Entry>, both: seq<Entry>, all: seq<Entry>, lo: Option<Key>, hi: Option<Key>)
    requires L.Among(entries, both) && (forall e :: e in both ==> e in all)
             && (forall e :: e in all ==> Within(l, e.key, lo, hi))
    ensures forall i :: 0 <= i < |entries| ==> Within(l, entries[i].key, lo, hi)
  {}

  lemma SharedLeaves(l: Layout, left: L.Leaf, rest: L.Leaf, all: seq<Entry>, lo: Option<Key>, hi: Option<Key>)
    requires TotalOrder(l.before) && left.entries != [] && rest.entries != []
             && L.Sorted(l, left.entries + rest.entries)
    requires (forall e :: e in all ==> Within(l, e.key, lo, hi)) && L.Among(left.entries, all)
             && L.Among(rest.entries, all)
    ensures var sep := rest.entries[0].key;
            && Inside(l, sep, lo, hi)
            && (forall i :: 0 <= i < |left.entries| ==> Within(l, left.entries[i].key, lo, Some(sep)))
            && (forall i :: 0 <= i < |rest.entries| ==> Within(l, rest.entries[i].key, Some(sep), hi))
  {
    var sep, both, n := rest.entries[0].key, left.entries + rest.entries, |left.entries|;
    forall i | 0 <= i < n ensures l.before(left.entries[i].key, sep) {
      assert both[i] == left.entries[i] && both[n] == rest.entries[0];
    }
    forall i | 0 < i < |rest.entries| ensures l.before(sep, rest.entries[i].key) {
      assert both[n + i] == rest.entries[i] && both[n] == rest.entries[0];
    }
    assert left.entries[0] in all && rest.entries[0] in all;
  }

  lemma PairOk(l: Layout, a: Tree, sep: Key, b: Tree, right: bool, lo: Option<Key>, hi: Option<Key>, after: Option<nat>)
    requires l.Valid() && TotalOrder(l.before) && Adjacent(l, a, sep, b, lo, hi, after) && Shaped(l, a) && Shaped(l, b)
    requires Underfull(l, if right then a else b)
    ensures PairedOk(l, a, b, Pair(l, a, sep, b, right), lo, hi, after)
  {
    if a.Lf? && b.Lf? {
      PairLeavesOk(l, a, sep, b, right, lo, hi, after);
    } else if a.Nd? && b.Nd? {
      PairNodesOk(l, a, sep, b, right, lo, hi, after);
    }
  }

  // ---------------------------------------------------------------- rebalancing a child

  lemma AdjacentKids(l: Layout, keys: seq<Key>, kids: seq<Tree>, lo: Option<Key>, hi: Option<Key>,
                     after: Option<nat>, p: nat)
    requires NodeOk(l, keys, kids, lo, hi, after) && p < |keys| && TotalOrder(l.before)
    ensures Adjacent(l, kids[p], keys[p], kids[p + 1], LoAt(keys, lo, p), HiAt(keys, hi, p + 1),
            NextAt(kids, after, p + 1))
  {
    assert KidOk(l, keys, kids, lo, hi, after, p) && KidOk(l, keys, kids, lo, hi, after, p + 1);
    assert Inside(l, keys[p], lo, hi);
  }

  /** Children `p` and `p + 1` become one. */
  lemma MergeKids(l: Layout, keys: seq<Key>, kids: seq<Tree>, lo: Option<Key>, hi: Option<Key>, after: Option<nat>,
                  p: nat, m: Tree)
    requires NodeOk(l, keys, kids, lo, hi, after) && p < |keys|
    requires Replaces(l, kids[p], m, LoAt(keys, lo, p), HiAt(keys, hi, p + 1), NextAt(kids, after, p + 1))
    ensures NodeOk(l, keys[..p] + keys[p + 1..], kids[..p] + [m] + kids[p + 2..], lo, hi, after)
    ensures Used(keys[..p] + keys[p + 1..]) == Used(keys) - InternalCost(|keys[p]|)
  {
    var keys', kids' := keys[..p] + keys[p + 1..], kids[..p] + [m] + kids[p + 2..];
    assert KidOk(l, keys, kids, lo, hi, after, p);
    forall j: nat | j < |kids'| ensures KidOk(l, keys', kids', lo, hi, after, j) {
      MergePlace(keys, kids, lo, hi, after, p, m, j);
      var was := if j <= p then j else j + 1;
      assert KidOk(l, keys, kids, lo, hi, after, was);
    }
    KeyOut(l, keys, lo, hi, p);
  }

  lemma KeyOut(l: Layout, keys: seq<Key>, lo: Option<Key>, hi: Option<Key>, p: nat)
    requires KeysOk(l, keys, lo, hi) && p < |keys|
    ensures KeysOk(l, keys[..p] + keys[p + 1..], lo, hi)
            && Used(keys[..p] + keys[p + 1..]) == Used(keys) - InternalCost(|keys[p]|)
  {
    KeyOutUsed(keys, p);
  }

  lemma KeyOutUsed(keys: seq<Key>, p: nat)
    requires p < |keys|
    ensures Used(keys[..p] + keys[p + 1..]) == Used(keys) - InternalCost(|keys[p]|)
  {
    OutAndIn(keys, p);
    UsedInsert(keys[..p] + keys[p + 1..], p, keys[p]);
  }

  lemma OutAndIn<T>(s: seq<T>, p: nat)
    requires p < |s|
    ensures var rest := s[..p] + s[p + 1..]; rest[..p] + [s[p]] + rest[p..] == s
  {}

  lemma MergePlace(keys: seq<Key>, kids: seq<Tree>, lo: Option<Key>, hi: Option<Key>, after: Option<nat>, p: nat,
                   m: Tree, j: nat)
    requires |kids| == |keys| + 1 && p < |keys| && j < |kids| - 1 && First(m) == First(kids[p])
    ensures var keys', kids' := keys[..p] + keys[p + 1..], kids[..p] + [m] + kids[p + 2..];
            && |kids'| == |kids| - 1 && kids'[0] == (if p == 0 then m else kids[0])
            && kids'[j] == (if j < p then kids[j] else if j == p then m else kids[j + 1])
            && LoAt(keys', lo, j) == (if j <= p then LoAt(keys, lo, j) else LoAt(keys, lo, j + 1))
            && HiAt(keys', hi, j) == (if j < p then HiAt(keys, hi, j) else HiAt(keys, hi, j + 1))
            && NextAt(kids', after, j) == (if j < p then NextAt(kids, after, j) else NextAt(kids, after, j + 1))
  {}

  /** Children `p` and `p + 1` change, and the separator between them. */
  lemma ShareKids(l: Layout, keys: seq<Key>, kids: seq<Tree>, lo: Option<Key>, hi: Option<Key>, after: Option<nat>,
                  p: nat, a: Tree, sep: Key, b: Tree)
    requires TotalOrder(l.before) && NodeOk(l, keys, kids, lo, hi, after) && p < |keys| && |sep| <= l.maxKeyLen
    requires Inside(l, sep, LoAt(keys, lo, p), HiAt(keys, hi, p + 1)) && Height(b) == Height(kids[p])
    requires Replaces(l, kids[p], a, LoAt(keys, lo, p), Some(sep), Some(First(b)))
    requires TreeOk(l, b, Some(sep), HiAt(keys, hi, p + 1), NextAt(kids, after, p + 1))
    ensures NodeOk(l, keys[p := sep], kids[p := a][p + 1 := b], lo, hi, after)
  {
    var keys', kids' := keys[p := sep], kids[p := a][p + 1 := b];
    forall j: nat | j < |kids'| ensures KidOk(l, keys', kids', lo, hi, after, j) {
      assert KidOk(l, keys, kids, lo, hi, after, p) && KidOk(l, keys, kids, lo, hi, after, j);
      ShareKid(l, keys, kids, lo, hi, after, p, a, sep, b, j);
    }
    ReplacedKey(l, keys, lo, hi, p, sep);
  }

  lemma ShareKid(l: Layout, keys: seq<Key>, kids: seq<Tree>, lo: Option<Key>, hi: Option<Key>, after: Option<nat>,
                 p: nat, a: Tree, sep: Key, b: Tree, j: nat)
    requires |kids| == |keys| + 1 && p < |keys| && j < |kids| && KidOk(l, keys, kids, lo, hi, after, p)
             && KidOk(l, keys, kids, lo, hi, after, j)
    requires Replaces(l, kids[p], a, LoAt(keys, lo, p), Some(sep), Some(First(b))) && Height(b) == Height(kids[p])
    requires TreeOk(l, b, Some(sep), HiAt(keys, hi, p + 1), NextAt(kids, after, p + 1))
    ensures KidOk(l, keys[p := sep], kids[p := a][p + 1 := b], lo, hi, after, j)
  {
    SharePlace(keys, kids, lo, hi, after, p, a, sep, b, j);
  }

  lemma SharePlace(keys: seq<Key>, kids: seq<Tree>, lo: Option<Key>, hi: Option<Key>, after: Option<nat>, p: nat,
                   a: Tree, sep: Key, b: Tree, j: nat)
    requires |kids| == |keys| + 1 && p < |keys| && j < |kids| && First(a) == First(kids[p])
    ensures var keys', kids' := keys[p := sep], kids[p := a][p + 1 := b];
            && kids'[0] == (if p == 0 then a else kids[0]) && kids'[j] == (if j == p then a else if j == p + 1 then b
                else kids[j])
            && LoAt(keys', lo, j) == (if j == p + 1 then Some(sep) else LoAt(keys, lo, j))
            && HiAt(keys', hi, j) == (if j == p then Some(sep) else HiAt(keys, hi, j))
            && NextAt(kids', after, j) == (if j == p then Some(First(b)) else NextAt(kids, after, j))
  {}

  lemma ReplacedKey(l: Layout, keys: seq<Key>, lo: Option<Key>, hi: Option<Key>, p: nat, sep: Key)
    requires TotalOrder(l.before) && KeysOk(l, keys, lo, hi) && p < |keys| && |sep| <= l.maxKeyLen
    requires Inside(l, sep, LoAt(keys, lo, p), HiAt(keys, hi, p + 1))
    ensures KeysOk(l, keys[p := sep], lo, hi)
  {
    forall j | 0 <= j < p ensures l.before(keys[j], sep) { OrderedKeys(l, keys, j, p - 1); }
    forall j | p < j < |keys| ensures l.before(sep, keys[j]) { OrderedKeys(l, keys, p + 1, j); }
    assert Inside(l, sep, lo, hi) by {
      if p > 0 { assert Inside(l, keys[p - 1], lo, hi); }
      if p + 1 < |keys| { assert Inside(l, keys[p + 1], lo, hi); }
    }
  }

  /** Losing or replacing one separator takes at most the largest entry off a node. */
  lemma SeparatorLost(l: Layout, keys: seq<Key>, p: nat)
    requires KeysFit(l, keys) && p < |keys|
    ensures Used(keys[..p] + keys[p + 1..]) >= Used(keys) - l.InternalMax()
  {
    var rest := keys[..p] + keys[p + 1..];
    UsedInsert(rest, p, keys[p]);
    assert rest[..p] + [keys[p]] + rest[p..] == keys;
  }

  lemma UsedReplaced(keys: seq<Key>, p: nat, sep: Key)
    requires p < |keys|
    ensures Used(keys[p := sep]) == Used(keys) - InternalCost(|keys[p]|) + InternalCost(|sep|)
  {
    var rest := keys[..p] + keys[p + 1..];
    UsedInsert(rest, p, keys[p]);
    UsedInsert(rest, p, sep);
    assert rest[..p] + [keys[p]] + rest[p..] == keys && rest[..p] + [sep] + rest[p..] == keys[p := sep];
  }

  lemma PairRows(kids: seq<Tree>, p: nat)
    requires p + 1 < |kids|
    ensures RowsOf(kids) == RowsOf(kids[..p]) + (Rows(kids[p]) + Rows(kids[p + 1])) + RowsOf(kids[p + 2..])
  {
    RowsAround(kids, p);
    RowsAround(kids[p + 1..], 0);
    assert kids[p + 1..][..0] == [] && kids[p + 1..][0] == kids[p + 1] && kids[p + 1..][1..] == kids[p + 2..];
    Regroup(RowsOf(kids[..p]), Rows(kids[p]), Rows(kids[p + 1]), RowsOf(kids[p + 2..]));
  }

  lemma Regroup(a: seq<Entry>, x: seq<Entry>, y: seq<Entry>, z: seq<Entry>)
    ensures a + x + (y + z) == a + (x + y) + z && a + x + ([] + y + z) == a + (x + y) + z
  {}

  /** A rebalanced node holds the same rows in the same place. */
  ghost predicate Rebalanced(l: Layout, t: Tree, t': Tree, lo: Option<Key>, hi: Option<Key>, after: Option<nat>) {
    Replaces(l, t, t', lo, hi, after) && t'.id == t.id && Rows(t') == Rows(t)
  }

  lemma KidsPair(l: Layout, keys: seq<Key>, kids: seq<Tree>, p: nat, right: bool, lo: Option<Key>, hi: Option<Key>,
                 after: Option<nat>)
    requires l.Valid() && TotalOrder(l.before) && NodeOk(l, keys, kids, lo, hi, after) && p < |keys|
             && Shaped(l, kids[p]) && Shaped(l, kids[p + 1])
    requires Underfull(l, if right then kids[p] else kids[p + 1])
    ensures PairedOk(l, kids[p], kids[p + 1], Pair(l, kids[p], keys[p], kids[p + 1], right), LoAt(keys, lo, p),
            HiAt(keys, hi, p + 1), NextAt(kids, after, p + 1))
  {
    AdjacentKids(l, keys, kids, lo, hi, after, p);
    PairOk(l, kids[p], keys[p], kids[p + 1], right, LoAt(keys, lo, p), HiAt(keys, hi, p + 1),
        NextAt(kids, after, p + 1));
  }

  lemma NodeMerged(l: Layout, t: Tree, p: nat, m: Tree, lo: Option<Key>, hi: Option<Key>, after: Option<nat>)
    requires l.Valid() && TotalOrder(l.before) && t.Nd? && TreeOk(l, t, lo, hi, after) && p < |t.keys|
    requires PairedOk(l, t.kids[p], t.kids[p + 1], Merged(m), LoAt(t.keys, lo, p), HiAt(t.keys, hi, p + 1),
             NextAt(t.kids, after, p + 1))
    ensures Rebalanced(l, t, Nd(t.id, t.keys[..p] + t.keys[p + 1..], t.kids[..p] + [m] + t.kids[p + 2..]), lo, hi,
            after)
  {
    var keys, kids := t.keys[..p] + t.keys[p + 1..], t.kids[..p] + [m] + t.kids[p + 2..];
    assert NodeOk(l, t.keys, t.kids, lo, hi, after) by { TreeIsNode(l, t.id, t.keys, t.kids, lo, hi, after); }
    assert NodeOk(l, keys, kids, lo, hi, after)
        && !Overfull(keys) by { MergeKids(l, t.keys, t.kids, lo, hi, after, p, m); }
    assert RowsOf(kids) == RowsOf(t.kids) by { MergedRows(t.kids, p, m); }
    assert kids[0] == if p == 0 then m else t.kids[0];
    RebalancedFrom(l, t, keys, kids, lo, hi, after);
  }

  lemma RebalancedFrom(l: Layout, t: Tree, keys: seq<Key>, kids: seq<Tree>, lo: Option<Key>, hi: Option<Key>,
                       after: Option<nat>)
    requires t.Nd? && t.kids != [] && NodeOk(l, keys, kids, lo, hi, after) && !Overfull(keys)
             && RowsOf(kids) == RowsOf(t.kids)
    requires Height(kids[0]) == Height(t.kids[0]) && First(kids[0]) == First(t.kids[0])
    ensures Rebalanced(l, t, Nd(t.id, keys, kids), lo, hi, after)
  {
    TreeIsNode(l, t.id, keys, kids, lo, hi, after);
  }

  lemma MergedRows(kids: seq<Tree>, p: nat, m: Tree)
    requires p + 1 < |kids| && Rows(m) == Rows(kids[p]) + Rows(kids[p + 1])
    ensures RowsOf(kids[..p] + [m] + kids[p + 2..]) == RowsOf(kids)
  {
    var kids' := kids[..p] + [m] + kids[p + 2..];
    PairRows(kids, p);
    RowsAround(kids', p);
    assert kids'[..p] == kids[..p] && kids'[p] == m && kids'[p + 1..] == kids[p + 2..];
  }

  lemma NodeShared(l: Layout, t: Tree, p: nat, a: Tree, sep: Key, b: Tree, lo: Option<Key>, hi: Option<Key>,
                   after: Option<nat>)
    requires l.Valid() && TotalOrder(l.before) && t.Nd? && TreeOk(l, t, lo, hi, after) && p < |t.keys|
             && FitsReplacing(t.keys, p, sep)
    requires PairedOk(l, t.kids[p], t.kids[p + 1], Shared(a, sep, b), LoAt(t.keys, lo, p), HiAt(t.keys, hi, p + 1),
             NextAt(t.kids, after, p + 1))
    ensures Rebalanced(l, t, Nd(t.id, t.keys[p := sep], t.kids[p := a][p + 1 := b]), lo, hi, after)
  {
    var keys, kids := t.keys[p := sep], t.kids[p := a][p + 1 := b];
    assert NodeOk(l, t.keys, t.kids, lo, hi, after) by { TreeIsNode(l, t.id, t.keys, t.kids, lo, hi, after); }
    assert NodeOk(l, keys, kids, lo, hi, after) by {
      assert KidOk(l, t.keys, t.kids, lo, hi, after, p) && KidOk(l, t.keys, t.kids, lo, hi, after, p + 1);
      ShareKids(l, t.keys, t.kids, lo, hi, after, p, a, sep, b);
    }
    assert !Overfull(keys) by { UsedReplaced(t.keys, p, sep); }
    assert RowsOf(kids) == RowsOf(t.kids) by { SharedRows(t.kids, p, a, b); }
    assert kids[0] == if p == 0 then a else t.kids[0];
    RebalancedFrom(l, t, keys, kids, lo, hi, after);
  }

  lemma SharedRows(kids: seq<Tree>, p: nat, a: Tree, b: Tree)
    requires p + 1 < |kids| && Rows(a) + Rows(b) == Rows(kids[p]) + Rows(kids[p + 1])
    ensures RowsOf(kids[p := a][p + 1 := b]) == RowsOf(kids)
  {
    var kids' := kids[p := a][p + 1 := b];
    PairRows(kids, p);
    PairRows(kids', p);
    assert kids'[..p] == kids[..p] && kids'[p] == a && kids'[p + 1] == b && kids'[p + 2..] == kids[p + 2..];
  }

  /** A subtree after removing `key`. */
  ghost predicate ShrunkOk(l: Layout, t: Tree, t': Tree, lo: Option<Key>, hi: Option<Key>, after: Option<nat>,
                           key: Key) {
    Replaces(l, t, t', lo, hi, after) && t'.id == t.id && L.Removed(Rows(t), Rows(t'), key)
  }

  lemma LeafShrinks(l: Layout, t: Tree, key: Key, lo: Option<Key>, hi: Option<Key>, after: Option<nat>)
    requires TotalOrder(l.before) && t.Lf? && TreeOk(l, t, lo, hi, after) && L.Remove(l, t.leaf, key).Some?
    ensures ShrunkOk(l, t, Lf(t.id, L.Remove(l, t.leaf, key).value), lo, hi, after, key)
    ensures L.Used(L.Remove(l, t.leaf, key).value.entries) >= L.Used(t.leaf.entries) - l.LeafMax()
  {
    L.RemoveOk(l, t.leaf, key);
    ShrunkWithin(l, t.leaf, L.Remove(l, t.leaf, key).value, lo, hi);
  }

  lemma ShrunkWithin(l: Layout, leaf: L.Leaf, leaf': L.Leaf, lo: Option<Key>, hi: Option<Key>)
    requires L.Among(leaf'.entries, leaf.entries)
             && forall i :: 0 <= i < |leaf.entries| ==> Within(l, leaf.entries[i].key, lo, hi)
    ensures forall i :: 0 <= i < |leaf'.entries| ==> Within(l, leaf'.entries[i].key, lo, hi)
  {
    forall i | 0 <= i < |leaf'.entries| ensures Within(l, leaf'.entries[i].key, lo, hi) {
      var j :| 0 <= j < |leaf.entries| && leaf.entries[j] == leaf'.entries[i];
    }
  }

  /** The parent of a child that has shrunk. */
  lemma KidShrinks(l: Layout, t: Tree, i: nat, c: Tree, lo: Option<Key>, hi: Option<Key>, after: Option<nat>, key: Key)
    requires l.Valid() && TotalOrder(l.before) && t.Nd? && TreeOk(l, t, lo, hi, after) && i < |t.kids|
    requires ShrunkOk(l, t.kids[i], c, LoAt(t.keys, lo, i), HiAt(t.keys, hi, i), NextAt(t.kids, after, i), key)
    ensures ShrunkOk(l, t, Nd(t.id, t.keys, t.kids[i := c]), lo, hi, after, key)
  {
    WholeKid(l, t, i, c, lo, hi, after);
    RowsAround(t.kids, i);
    L.RemovedAround(RowsOf(t.kids[..i]), Rows(t.kids[i]), Rows(c), RowsOf(t.kids[i + 1..]), key);
  }
}
