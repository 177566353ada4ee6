/** Leaf pages: sorted entries, some of them deleted and kept as tombstones until the oldest ones are
    purged. */
module BPlusLeaf {
  import opened Base
  import opened BPlusLayout

  datatype Entry = Entry(key: Key, rid: RecordId)

  /** `dead` holds the slots of the deleted entries, oldest deletion first. */
  datatype Leaf = Leaf(entries: seq<Entry>, dead: seq<nat>, next: Option<nat>)

  function Costs(entries: seq<Entry>): (c: seq<nat>)
    ensures |c| == |entries| && forall i :: 0 <= i < |entries| ==> c[i] == LeafCost(|entries[i].key|)
  {
    seq(|entries|, i requires 0 <= i < |entries| => LeafCost(|entries[i].key|))
  }

  function Used(entries: seq<Entry>): nat { Sum(Costs(entries)) }

  lemma UsedAppend(a: seq<Entry>, b: seq<Entry>)
    ensures Used(a + b) == Used(a) + Used(b)
  {
    assert Costs(a + b) == Costs(a) + Costs(b);
    SumAppend(Costs(a), Costs(b));
  }

  lemma UsedOne(e: Entry)
    ensures Used([e]) == LeafCost(|e.key|)
  {
    var c := LeafCost(|e.key|);
    assert Costs([e]) == [c];
    assert Sum([c]) == c by { assert Base.Init([c]) == []; }
  }

  // ---------------------------------------------------------------- live entries

  /** An entry and whether it is live. */
  datatype Item = Item(entry: Entry, live: bool)

  function Items(leaf: Leaf): (items: seq<Item>)
    ensures |items| == |leaf.entries|
    ensures forall i :: 0 <= i < |items| ==> items[i] == Item(leaf.entries[i], i !in leaf.dead)
  {
    seq(|leaf.entries|, i requires 0 <= i < |leaf.entries| => Item(leaf.entries[i], i !in leaf.dead))
  }

  function LiveOf(items: seq<Item>): seq<Entry> {
    if items == [] then []
    else if Last(items).live then LiveOf(Base.Init(items)) + [Last(items).entry]
    else LiveOf(Base.Init(items))
  }

  /** The live entries of a leaf, in key order. */
  function Rows(leaf: Leaf): seq<Entry> { LiveOf(Items(leaf)) }

  lemma {:induction false} LiveAppend(a: seq<Item>, b: seq<Item>)
    ensures LiveOf(a + b) == LiveOf(a) + LiveOf(b)
  {
    if b == [] {
      assert a + b == a;
    } else {
      assert Base.Init(a + b) == a + Base.Init(b) && Last(a + b) == Last(b);
      LiveAppend(a, Base.Init(b));
    }
  }

  lemma LiveOne(item: Item)
    ensures LiveOf([item]) == if item.live then [item.entry] else []
  {
    assert Base.Init([item]) == [];
  }

  lemma {:induction false} LiveAreItems(items: seq<Item>, e: Entry)
    ensures e in LiveOf(items) <==> Item(e, true) in items
  {
    if items != [] {
      LiveAreItems(Base.Init(items), e);
      assert items == Base.Init(items) + [Last(items)];
    }
  }

  // ---------------------------------------------------------------- well-formed leaves

  predicate Sorted(l: Layout, s: seq<Entry>) { forall i, j :: 0 <= i < j < |s| ==> l.before(s[i].key, s[j].key) }

  predicate Distinct(dead: seq<nat>) { dead == [] || (Last(dead) !in Base.Init(dead) && Distinct(Base.Init(dead))) }

  /** Tombstones name different slots of the leaf. */
  predicate SlotsOk(leaf: Leaf) { Distinct(leaf.dead) && forall s :: s in leaf.dead ==> s < |leaf.entries| }

  predicate DeadOk(l: Layout, leaf: Leaf) { SlotsOk(leaf) && |leaf.dead| <= l.tombstoneCapacity }

  predicate Among(a: seq<Entry>, b: seq<Entry>) { forall i :: 0 <= i < |a| ==> a[i] in b }

  predicate KeysFit(l: Layout, s: seq<Entry>) { forall i :: 0 <= i < |s| ==> |s[i].key| <= l.maxKeyLen }

  /** A leaf in memory, which may take more than one page. */
  predicate LeafOk(l: Layout, leaf: Leaf) { Sorted(l, leaf.entries) && KeysFit(l, leaf.entries) && DeadOk(l, leaf) }

  predicate Fits(l: Layout, leaf: Leaf) { Used(leaf.entries) <= l.LeafCapacity() }

  predicate Underfull(l: Layout, leaf: Leaf) { Used(leaf.entries) < l.LeafMin() }

  // ---------------------------------------------------------------- what an operation does to the rows

  /** `e` is new in `rows'`, at its place in the order. */
  ghost predicate Inserted(l: Layout, rows: seq<Entry>, rows': seq<Entry>, e: Entry) {
    exists i: nat :: InsertedAt(l, rows, rows', e, i)
  }

  predicate InsertedAt(l: Layout, rows: seq<Entry>, rows': seq<Entry>, e: Entry, i: nat) {
    && i <= |rows| && rows' == rows[..i] + [e] + rows[i..]
    && (forall j :: 0 <= j < i ==> l.before(rows[j].key, e.key))
    && (forall j :: i <= j < |rows| ==> l.before(e.key, rows[j].key))
  }

  /** The row of `key` is gone from `rows'`, and nothing else. */
  ghost predicate Removed(rows: seq<Entry>, rows': seq<Entry>, key: Key) {
    exists i: nat :: RemovedAt(rows, rows', key, i)
  }

  predicate RemovedAt(rows: seq<Entry>, rows': seq<Entry>, key: Key, i: nat) {
    i < |rows| && rows[i].key == key && rows' == rows[..i] + rows[i + 1..]
  }

  ghost predicate Has(rows: seq<Entry>, key: Key) { exists i :: 0 <= i < |rows| && rows[i].key == key }

  lemma InsertedAround(l: Layout, a: seq<Entry>, rows: seq<Entry>, rows': seq<Entry>, b: seq<Entry>, e: Entry)
    requires Inserted(l, rows, rows', e)
    requires (forall j :: 0 <= j < |a| ==> l.before(a[j].key, e.key))
             && (forall j :: 0 <= j < |b| ==> l.before(e.key, b[j].key))
    ensures Inserted(l, a + rows + b, a + rows' + b, e)
  {
    var i: nat :| InsertedAt(l, rows, rows', e, i);
    var whole := a + rows + b;
    assert whole[..|a| + i] == a + rows[..i] && whole[|a| + i..] == rows[i..] + b;
    assert InsertedAt(l, whole, a + rows' + b, e, |a| + i);
  }

  lemma RemovedAround(a: seq<Entry>, rows: seq<Entry>, rows': seq<Entry>, b: seq<Entry>, key: Key)
    requires Removed(rows, rows', key)
    ensures Removed(a + rows + b, a + rows' + b, key)
  {
    var i: nat :| RemovedAt(rows, rows', key, i);
    var whole := a + rows + b;
    assert whole[..|a| + i] == a + rows[..i] && whole[|a| + i + 1..] == rows[i + 1..] + b;
    assert RemovedAt(whole, a + rows' + b, key, |a| + i);
  }

  // ---------------------------------------------------------------- searching

  /** How many of the sorted entries come before `key`. */
  function LowerBound(l: Layout, entries: seq<Entry>, key: Key): (p: nat)
    requires TotalOrder(l.before) && Sorted(l, entries)
    ensures p <= |entries|
    ensures forall i :: 0 <= i < p ==> l.before(entries[i].key, key)
    ensures forall i :: p <= i < |entries| ==> !l.before(entries[i].key, key)
  {
    if entries == [] then 0
    else if l.before(Last(entries).key, key) then |entries|
    else LowerBound(l, Base.Init(entries), key)
  }

  /** The first of `n` indices where `pred` fails, by halving. */
  method PartitionPoint(n: nat, pred: nat -> bool) returns (p: nat)
    requires forall i: nat, j: nat :: i < j < n && pred(j) ==> pred(i)
    ensures p <= n && (forall i: nat :: i < p ==> pred(i)) && (forall i: nat :: p <= i < n ==> !pred(i))
  {
    var lo: nat, hi: nat := 0, n;
    while lo < hi
      invariant lo <= hi <= n
      invariant forall i: nat :: i < lo ==> pred(i)
      invariant forall i: nat :: hi <= i < n ==> !pred(i)
    {
      var mid := lo + (hi - lo) / 2;
      if pred(mid) {
        lo := mid + 1;
      } else {
        hi := mid;
      }
    }
    p := lo;
  }

  predicate Found(l: Layout, leaf: Leaf, key: Key)
    requires TotalOrder(l.before) && Sorted(l, leaf.entries)
  {
    var p := LowerBound(l, leaf.entries, key);
    p < |leaf.entries| && leaf.entries[p].key == key
  }

  function Get(l: Layout, leaf: Leaf, key: Key): Option<RecordId>
    requires TotalOrder(l.before) && Sorted(l, leaf.entries)
  {
    var p := LowerBound(l, leaf.entries, key);
    if Found(l, leaf, key) && p !in leaf.dead then Some(leaf.entries[p].rid) else None
  }

  lemma GetFindsRow(l: Layout, leaf: Leaf, key: Key)
    requires TotalOrder(l.before) && Sorted(l, leaf.entries)
    ensures Get(l, leaf, key).None? ==> !Has(Rows(leaf), key)
    ensures Get(l, leaf, key).Some? ==> Entry(key, Get(l, leaf, key).value) in Rows(leaf)
  {
    var p := LowerBound(l, leaf.entries, key);
    if Get(l, leaf, key).Some? {
      assert Items(leaf)[p] == Item(Entry(key, leaf.entries[p].rid), true);
      LiveAreItems(Items(leaf), Entry(key, leaf.entries[p].rid));
    } else {
      forall i | 0 <= i < |Rows(leaf)| ensures Rows(leaf)[i].key != key {
        var e := Rows(leaf)[i];
        LiveAreItems(Items(leaf), e);
        var j :| 0 <= j < |Items(leaf)| && Items(leaf)[j] == Item(e, true);
        assert e.key == key ==> j == p;
      }
    }
  }

  // ---------------------------------------------------------------- slots of tombstones

  lemma InInit(s: seq<nat>, x: nat)
    requires s != []
    ensures x in s <==> x in Base.Init(s) || x == Last(s)
  {
    assert s == Base.Init(s) + [Last(s)];
  }

  lemma DistinctNext(s: seq<nat>, x: nat)
    requires Distinct(s) && x !in s
    ensures Distinct(s + [x])
  {
    assert Base.Init(s + [x]) == s;
  }

  /** The slots after `n` entries are put in at slot `at`. */
  function MovedUp(dead: seq<nat>, at: nat, n: nat): seq<nat> {
    if dead == [] then [] else MovedUp(Base.Init(dead), at, n) + [if Last(dead) >= at then Last(dead) + n
        else Last(dead)]
  }

  lemma {:induction false} MovedUpHas(dead: seq<nat>, at: nat, n: nat, s: nat)
    ensures s in MovedUp(dead, at, n) <==> (s < at && s in dead) || (s >= at + n && s - n in dead)
  {
    if dead != [] {
      MovedUpHas(Base.Init(dead), at, n, s);
      InInit(dead, s);
      if s >= n { InInit(dead, s - n); }
    }
  }

  lemma {:induction false} MovedUpDistinct(dead: seq<nat>, at: nat, n: nat)
    requires Distinct(dead)
    ensures Distinct(MovedUp(dead, at, n)) && |MovedUp(dead, at, n)| == |dead|
  {
    if dead != [] {
      var rest, s := MovedUp(Base.Init(dead), at, n), if Last(dead) >= at then Last(dead) + n else Last(dead);
      MovedUpDistinct(Base.Init(dead), at, n);
      assert s !in rest by { MovedUpHas(Base.Init(dead), at, n, s); }
      DistinctNext(rest, s);
    }
  }

  /** The slots after the entry at slot `at` is taken out. */
  function MovedDown(dead: seq<nat>, at: nat): seq<nat> {
    if dead == [] then []
    else
      var rest, last := MovedDown(Base.Init(dead), at), Last(dead);
      if last == at then rest else rest + [if last > at then last - 1 else last]
  }

  lemma {:induction false} MovedDownHas(dead: seq<nat>, at: nat, s: nat)
    ensures s in MovedDown(dead, at) <==> (s < at && s in dead) || (s >= at && s + 1 in dead)
  {
    if dead != [] {
      MovedDownHas(Base.Init(dead), at, s);
      InInit(dead, s);
      InInit(dead, s + 1);
    }
  }

  lemma {:induction false} MovedDownDistinct(dead: seq<nat>, at: nat)
    requires Distinct(dead)
    ensures Distinct(MovedDown(dead, at)) && |MovedDown(dead, at)| == if at in dead then |dead| - 1 else |dead|
  {
    if dead != [] {
      var rest, last := MovedDown(Base.Init(dead), at), Last(dead);
      MovedDownDistinct(Base.Init(dead), at);
      InInit(dead, at);
      if last != at {
        var s := if last > at then last - 1 else last;
        assert s !in rest by { MovedDownHas(Base.Init(dead), at, s); }
        DistinctNext(rest, s);
      }
    }
  }

  /** The slots other than `at`. */
  function Without(dead: seq<nat>, at: nat): seq<nat> {
    if dead == [] then []
    else if Last(dead) == at then Without(Base.Init(dead), at)
    else Without(Base.Init(dead), at) + [Last(dead)]
  }

  lemma {:induction false} WithoutHas(dead: seq<nat>, at: nat, s: nat)
    ensures s in Without(dead, at) <==> s in dead && s != at
  {
    if dead != [] {
      WithoutHas(Base.Init(dead), at, s);
      InInit(dead, s);
    }
  }

  lemma {:induction false} WithoutDistinct(dead: seq<nat>, at: nat)
    requires Distinct(dead)
    ensures Distinct(Without(dead, at)) && |Without(dead, at)| <= |dead|
  {
    if dead != [] {
      var rest := Without(Base.Init(dead), at);
      WithoutDistinct(Base.Init(dead), at);
      if Last(dead) != at {
        WithoutHas(Base.Init(dead), at, Last(dead));
        assert Base.Init(rest + [Last(dead)]) == rest;
      }
    }
  }

  /** The slots of the left and the right part of a leaf split before slot `mid`. */
  function SlotsBelow(dead: seq<nat>, mid: nat): seq<nat> {
    if dead == [] then []
    else if Last(dead) < mid then SlotsBelow(Base.Init(dead), mid) + [Last(dead)]
    else SlotsBelow(Base.Init(dead), mid)
  }

  function SlotsFrom(dead: seq<nat>, mid: nat): seq<nat> {
    if dead == [] then []
    else if Last(dead) < mid then SlotsFrom(Base.Init(dead), mid)
    else SlotsFrom(Base.Init(dead), mid) + [Last(dead) - mid]
  }

  lemma {:induction false} SlotsSplitHas(dead: seq<nat>, mid: nat, s: nat)
    ensures s in SlotsBelow(dead, mid) <==> s < mid && s in dead
    ensures s in SlotsFrom(dead, mid) <==> s + mid in dead
  {
    if dead != [] {
      SlotsSplitHas(Base.Init(dead), mid, s);
      InInit(dead, s);
      InInit(dead, s + mid);
    }
  }

  lemma {:induction false} SlotsSplitDistinct(dead: seq<nat>, mid: nat)
    requires Distinct(dead)
    ensures Distinct(SlotsBelow(dead, mid)) && Distinct(SlotsFrom(dead, mid))
    ensures |SlotsBelow(dead, mid)| + |SlotsFrom(dead, mid)| == |dead|
  {
    if dead != [] {
      var below, from, last := SlotsBelow(Base.Init(dead), mid), SlotsFrom(Base.Init(dead), mid), Last(dead);
      SlotsSplitDistinct(Base.Init(dead), mid);
      if last < mid {
        SlotsSplitHas(Base.Init(dead), mid, last);
        assert Base.Init(below + [last]) == below;
      } else {
        SlotsSplitHas(Base.Init(dead), mid, last - mid);
        assert Base.Init(from + [last - mid]) == from;
      }
    }
  }

  lemma {:induction false} DistinctAppend(a: seq<nat>, b: seq<nat>)
    requires Distinct(a) && Distinct(b) && forall s :: s in a ==> s !in b
    ensures Distinct(a + b)
  {
    if b == [] {
      assert a + b == a;
    } else {
      InInit(b, Last(b));
      assert Base.Init(a + b) == a + Base.Init(b) && Last(a + b) == Last(b);
      forall s | s in a ensures s !in Base.Init(b) { InInit(b, s); }
      DistinctAppend(a, Base.Init(b));
    }
  }

  // ---------------------------------------------------------------- inserting

  /** The leaf with a new entry at slot `p`. */
  function In(leaf: Leaf, p: nat, e: Entry): Leaf
    requires p <= |leaf.entries|
  {
    Leaf(leaf.entries[..p] + [e] + leaf.entries[p..], MovedUp(leaf.dead, p, 1), leaf.next)
  }

  /** The leaf with the tombstoned entry at slot `p` live again. */
  function Revived(leaf: Leaf, p: nat, e: Entry): Leaf
    requires p < |leaf.entries|
  {
    Leaf(leaf.entries[p := e], Without(leaf.dead, p), leaf.next)
  }

  /** `None` when the key is already live; a tombstoned key is revived. */
  function Insert(l: Layout, leaf: Leaf, e: Entry): Option<Leaf>
    requires TotalOrder(l.before) && Sorted(l, leaf.entries)
  {
    var p := LowerBound(l, leaf.entries, e.key);
    if !Found(l, leaf, e.key) then Some(In(leaf, p, e))
    else if p in leaf.dead then Some(Revived(leaf, p, e))
    else None
  }

  lemma InRows(leaf: Leaf, p: nat, e: Entry)
    requires p <= |leaf.entries|
    ensures Rows(leaf) == LiveOf(Items(leaf)[..p]) + LiveOf(Items(leaf)[p..])
    ensures Rows(In(leaf, p, e)) == LiveOf(Items(leaf)[..p]) + [e] + LiveOf(Items(leaf)[p..])
  {
    var leaf', a, b := In(leaf, p, e), Items(leaf)[..p], Items(leaf)[p..];
    forall s | 0 <= s < |leaf'.entries| ensures Items(leaf')[s] == (a + [Item(e, true)] + b)[s] {
      MovedUpHas(leaf.dead, p, 1, s);
    }
    assert Items(leaf') == a + [Item(e, true)] + b && Items(leaf) == a + b;
    LiveAppend(a, b);
    LiveThree(a, Item(e, true), b);
  }

  lemma RevivedRows(leaf: Leaf, p: nat, e: Entry)
    requires p < |leaf.entries| && p in leaf.dead
    ensures Rows(leaf) == LiveOf(Items(leaf)[..p]) + LiveOf(Items(leaf)[p + 1..])
    ensures Rows(Revived(leaf, p, e)) == LiveOf(Items(leaf)[..p]) + [e] + LiveOf(Items(leaf)[p + 1..])
  {
    var a, b := Items(leaf)[..p], Items(leaf)[p + 1..];
    RevivedItems(leaf, p, e);
    assert Items(leaf) == a + [Items(leaf)[p]] + b;
    LiveThree(a, Items(leaf)[p], b);
    LiveThree(a, Item(e, true), b);
  }

  lemma RevivedItems(leaf: Leaf, p: nat, e: Entry)
    requires p < |leaf.entries| && p in leaf.dead
    ensures Items(Revived(leaf, p, e)) == Items(leaf)[..p] + [Item(e, true)] + Items(leaf)[p + 1..]
  {
    var leaf' := Revived(leaf, p, e);
    forall s: nat | s < |leaf'.entries| ensures Items(leaf')[s] == if s == p then Item(e, true) else Items(leaf)[s] {
      WithoutHas(leaf.dead, p, s);
    }
  }

  lemma LiveThree(a: seq<Item>, item: Item, b: seq<Item>)
    ensures LiveOf(a + [item] + b) == LiveOf(a) + (if item.live then [item.entry] else []) + LiveOf(b)
  {
    LiveAppend(a + [item], b);
    LiveAppend(a, [item]);
    LiveOne(item);
  }

  lemma InsertRows(l: Layout, leaf: Leaf, e: Entry)
    requires TotalOrder(l.before) && Sorted(l, leaf.entries)
    ensures Insert(l, leaf, e).None? <==> Has(Rows(leaf), e.key)
    ensures Insert(l, leaf, e).Some? ==> Inserted(l, Rows(leaf), Rows(Insert(l, leaf, e).value), e)
  {
    var p := LowerBound(l, leaf.entries, e.key);
    if Insert(l, leaf, e).Some? {
      var q := if Found(l, leaf, e.key) then p + 1 else p;
      if Found(l, leaf, e.key) {
        RevivedRows(leaf, p, e);
      } else {
        InRows(leaf, p, e);
      }
      LiveBetween(l, leaf, e.key, p, q);
      assert InsertedAt(l, Rows(leaf), Rows(Insert(l, leaf, e).value), e, |LiveOf(Items(leaf)[..p])|);
    }
    GetFindsRow(l, leaf, e.key);
    if Get(l, leaf, e.key).Some? {
      HasKey(Rows(leaf), Entry(e.key, Get(l, leaf, e.key).value));
    }
  }

  lemma HasKey(rows: seq<Entry>, e: Entry)
    requires e in rows
    ensures Has(rows, e.key)
  {
    var i :| 0 <= i < |rows| && rows[i] == e;
    assert rows[i].key == e.key;
  }

  /** The rows before slot `p` come before `key`, and the rows from slot `q` after it. */
  lemma LiveBetween(l: Layout, leaf: Leaf, key: Key, p: nat, q: nat)
    requires p <= q <= |leaf.entries|
    requires forall i :: 0 <= i < p ==> l.before(leaf.entries[i].key, key)
    requires forall i :: q <= i < |leaf.entries| ==> l.before(key, leaf.entries[i].key)
    ensures forall j :: 0 <= j < |LiveOf(Items(leaf)[..p])| ==> l.before(LiveOf(Items(leaf)[..p])[j].key, key)
    ensures forall j :: 0 <= j < |LiveOf(Items(leaf)[q..])| ==> l.before(key, LiveOf(Items(leaf)[q..])[j].key)
  {
    var a, b := Items(leaf)[..p], Items(leaf)[q..];
    forall j | 0 <= j < |LiveOf(a)| ensures l.before(LiveOf(a)[j].key, key) {
      LiveAreItems(a, LiveOf(a)[j]);
      var i :| 0 <= i < |a| && a[i] == Item(LiveOf(a)[j], true);
    }
    forall j | 0 <= j < |LiveOf(b)| ensures l.before(key, LiveOf(b)[j].key) {
      LiveAreItems(b, LiveOf(b)[j]);
      var i :| 0 <= i < |b| && b[i] == Item(LiveOf(b)[j], true);
    }
  }

  lemma RevivedOk(l: Layout, leaf: Leaf, p: nat, e: Entry)
    requires LeafOk(l, leaf) && p < |leaf.entries| && leaf.entries[p].key == e.key
    ensures LeafOk(l, Leaf(leaf.entries[p := e], Without(leaf.dead, p), leaf.next))
    ensures Used(leaf.entries[p := e]) == Used(leaf.entries)
  {
    WithoutDistinct(leaf.dead, p);
    forall s | s in Without(leaf.dead, p) ensures s < |leaf.entries| { WithoutHas(leaf.dead, p, s); }
    assert Costs(leaf.entries[p := e]) == Costs(leaf.entries);
  }

  lemma AddedSlots(leaf: Leaf, p: nat, e: Entry)
    requires SlotsOk(leaf) && p <= |leaf.entries|
    ensures SlotsOk(Leaf(leaf.entries[..p] + [e] + leaf.entries[p..], MovedUp(leaf.dead, p, 1), leaf.next))
    ensures |MovedUp(leaf.dead, p, 1)| == |leaf.dead|
  {
    MovedUpDistinct(leaf.dead, p, 1);
    forall s | s in MovedUp(leaf.dead, p, 1) ensures s < |leaf.entries| + 1 { MovedUpHas(leaf.dead, p, 1, s); }
  }

  lemma InsertOk(l: Layout, leaf: Leaf, e: Entry)
    requires TotalOrder(l.before) && LeafOk(l, leaf) && |e.key| <= l.maxKeyLen && Insert(l, leaf, e).Some?
    ensures var leaf' := Insert(l, leaf, e).value;
            && LeafOk(l, leaf') && leaf'.next == leaf.next && leaf'.entries != []
            && Used(leaf.entries) <= Used(leaf'.entries) <= Used(leaf.entries) + l.LeafMax()
  {
    var p := LowerBound(l, leaf.entries, e.key);
    if Found(l, leaf, e.key) {
      RevivedOk(l, leaf, p, e);
    } else {
      AddedSlots(leaf, p, e);
      UsedInsert(leaf.entries, p, e);
      InsertSorted(l, leaf.entries, p, e);
    }
  }

  lemma InsertSorted(l: Layout, s: seq<Entry>, p: nat, e: Entry)
    requires Sorted(l, s) && p <= |s|
    requires forall i :: 0 <= i < p ==> l.before(s[i].key, e.key)
    requires forall i :: p <= i < |s| ==> l.before(e.key, s[i].key)
    ensures Sorted(l, s[..p] + [e] + s[p..])
  {}

  lemma UsedInsert(s: seq<Entry>, p: nat, e: Entry)
    requires p <= |s|
    ensures Used(s[..p] + [e] + s[p..]) == Used(s) + LeafCost(|e.key|)
  {
    UsedAppend(s[..p] + [e], s[p..]);
    UsedAppend(s[..p], [e]);
    UsedOne(e);
    UsedAppend(s[..p], s[p..]);
    assert s[..p] + s[p..] == s;
  }

  // ---------------------------------------------------------------- removing

  /** The leaf without the entry at slot `s`. */
  function Out(leaf: Leaf, s: nat): Leaf
    requires s < |leaf.entries|
  {
    Leaf(leaf.entries[..s] + leaf.entries[s + 1..], MovedDown(leaf.dead, s), leaf.next)
  }

  /** The leaf with the entry of its oldest tombstone gone for good. */
  function Purged(leaf: Leaf): Leaf
    requires SlotsOk(leaf) && leaf.dead != []
  {
    assert leaf.dead[0] in leaf.dead;
    Out(Leaf(leaf.entries, leaf.dead[1..], leaf.next), leaf.dead[0])
  }

  /** The leaf with the live entry at slot `p` deleted. */
  function Tombstoned(l: Layout, leaf: Leaf, p: nat): Leaf
    requires SlotsOk(leaf) && p < |leaf.entries| && p !in leaf.dead
  {
    if l.tombstoneCapacity == 0 then Out(leaf, p)
    else if |leaf.dead| < l.tombstoneCapacity then leaf.(dead := leaf.dead + [p])
    else
      var purged := Purged(leaf);
      purged.(dead := purged.dead + [if leaf.dead[0] < p then p - 1 else p])
  }

  /** `None` when the key is absent or already deleted. */
  function Remove(l: Layout, leaf: Leaf, key: Key): Option<Leaf>
    requires TotalOrder(l.before) && Sorted(l, leaf.entries) && SlotsOk(leaf)
  {
    var p := LowerBound(l, leaf.entries, key);
    if !Found(l, leaf, key) || p in leaf.dead then None else Some(Tombstoned(l, leaf, p))
  }

  lemma OutItems(leaf: Leaf, s: nat)
    requires s < |leaf.entries|
    ensures Items(Out(leaf, s)) == Items(leaf)[..s] + Items(leaf)[s + 1..]
  {
    forall i | 0 <= i < |leaf.entries| - 1
      ensures i in Out(leaf, s).dead <==> (i < s && i in leaf.dead) || (i >= s && i + 1 in leaf.dead) {
      MovedDownHas(leaf.dead, s, i);
    }
  }

  lemma OutOk(l: Layout, leaf: Leaf, s: nat)
    requires LeafOk(l, leaf) && s < |leaf.entries|
    ensures LeafOk(l, Out(leaf, s))
            && Used(Out(leaf, s).entries) == Used(leaf.entries) - LeafCost(|leaf.entries[s].key|)
    ensures |Out(leaf, s).dead| == if s in leaf.dead then |leaf.dead| - 1 else |leaf.dead|
  {
    var leaf' := Out(leaf, s);
    MovedDownDistinct(leaf.dead, s);
    forall i | i in leaf'.dead ensures i < |leaf'.entries| { MovedDownHas(leaf.dead, s, i); }
    OutEntries(l, leaf.entries, s);
  }

  lemma LiveAt(items: seq<Item>, s: nat)
    requires s < |items|
    ensures LiveOf(items) == LiveOf(items[..s]) + (if items[s].live then [items[s].entry]
            else []) + LiveOf(items[s + 1..])
    ensures LiveOf(items[..s] + items[s + 1..]) == LiveOf(items[..s]) + LiveOf(items[s + 1..])
  {
    Around(items, s);
    LiveAround(items, items[..s], items[s], items[s + 1..]);
  }

  lemma Around<T>(s: seq<T>, i: nat)
    requires i < |s|
    ensures s == s[..i] + [s[i]] + s[i + 1..]
  {}

  lemma LiveAround(items: seq<Item>, a: seq<Item>, item: Item, b: seq<Item>)
    requires items == a + [item] + b
    ensures LiveOf(items) == LiveOf(a) + (if item.live then [item.entry] else []) + LiveOf(b)
    ensures LiveOf(a + b) == LiveOf(a) + LiveOf(b)
  {
    LiveThree(a, item, b);
    LiveAppend(a, b);
  }

  /** Taking an entry out: a dead one leaves no trace, a live one is gone from the rows. */
  lemma OutRows(leaf: Leaf, s: nat)
    requires s < |leaf.entries|
    ensures s in leaf.dead ==> Rows(Out(leaf, s)) == Rows(leaf)
    ensures s !in leaf.dead ==> Removed(Rows(leaf), Rows(Out(leaf, s)), leaf.entries[s].key)
  {
    OutItems(leaf, s);
    LiveAt(Items(leaf), s);
    if s !in leaf.dead {
      assert RemovedAt(Rows(leaf), Rows(Out(leaf, s)), leaf.entries[s].key, |LiveOf(Items(leaf)[..s])|);
    }
  }

  lemma TombstoneItems(leaf: Leaf, s: nat)
    requires s < |leaf.entries| && s !in leaf.dead
    ensures Items(leaf.(dead := leaf.dead + [s])) ==
            Items(leaf)[..s] + [Item(leaf.entries[s], false)] + Items(leaf)[s + 1..]
  {}

  lemma TombstoneRows(leaf: Leaf, s: nat)
    requires s < |leaf.entries| && s !in leaf.dead
    ensures Removed(Rows(leaf), Rows(leaf.(dead := leaf.dead + [s])), leaf.entries[s].key)
  {
    var items, leaf' := Items(leaf), leaf.(dead := leaf.dead + [s]);
    TombstoneItems(leaf, s);
    LiveThree(items[..s], Item(leaf.entries[s], false), items[s + 1..]);
    LiveAt(items, s);
    assert RemovedAt(Rows(leaf), Rows(leaf'), leaf.entries[s].key, |LiveOf(items[..s])|);
  }

  lemma {:induction false} FirstIsDistinct(dead: seq<nat>)
    requires Distinct(dead) && dead != []
    ensures Distinct(dead[1..]) && dead[0] !in dead[1..] && forall s :: s in dead <==> s == dead[0] || s in dead[1..]
  {
    assert dead == [dead[0]] + dead[1..];
    if |dead| > 1 {
      FirstIsDistinct(Base.Init(dead));
      assert Base.Init(dead)[1..] == Base.Init(dead[1..]) && Last(dead[1..]) == Last(dead);
      InInit(dead[1..], dead[0]);
      InInit(dead, dead[0]);
      forall s | s in Base.Init(dead[1..]) ensures s in Base.Init(dead) {}
    }
  }

  /** Purging the oldest tombstone changes no row. */
  lemma PurgedRows(leaf: Leaf)
    requires SlotsOk(leaf) && leaf.dead != []
    ensures Rows(Purged(leaf)) == Rows(leaf)
  {
    assert leaf.dead[0] in leaf.dead;
    PurgedItems(leaf);
    LiveAt(Items(leaf), leaf.dead[0]);
  }

  lemma PurgedItems(leaf: Leaf)
    requires SlotsOk(leaf) && leaf.dead != [] && leaf.dead[0] in leaf.dead
    ensures Items(Purged(leaf)) == Items(leaf)[..leaf.dead[0]] + Items(leaf)[leaf.dead[0] + 1..]
  {
    var s, items := leaf.dead[0], Items(leaf);
    var rest := Leaf(leaf.entries, leaf.dead[1..], leaf.next);
    OutItems(rest, s);
    FirstIsDistinct(leaf.dead);
    assert Items(rest)[..s] == items[..s] && Items(rest)[s + 1..] == items[s + 1..];
  }

  lemma PurgedHas(leaf: Leaf, i: nat)
    requires SlotsOk(leaf) && leaf.dead != []
    ensures var s := leaf.dead[0];
            i in Purged(leaf).dead <==> (i < s && i in leaf.dead) || (i >= s && i + 1 in leaf.dead)
  {
    FirstIsDistinct(leaf.dead);
    MovedDownHas(leaf.dead[1..], leaf.dead[0], i);
  }

  lemma PurgedSlots(leaf: Leaf)
    requires SlotsOk(leaf) && leaf.dead != []
    ensures var leaf', s := Purged(leaf), leaf.dead[0];
            && s < |leaf.entries| && leaf'.entries == leaf.entries[..s] + leaf.entries[s + 1..]
            && leaf'.next == leaf.next
            && SlotsOk(leaf') && |leaf'.dead| == |leaf.dead| - 1
  {
    var s, leaf' := leaf.dead[0], Purged(leaf);
    assert s in leaf.dead;
    FirstIsDistinct(leaf.dead);
    MovedDownDistinct(leaf.dead[1..], s);
    forall i | i in leaf'.dead ensures i < |leaf'.entries| { PurgedHas(leaf, i); }
  }

  lemma OutEntries(l: Layout, entries: seq<Entry>, s: nat)
    requires Sorted(l, entries) && KeysFit(l, entries) && s < |entries|
    ensures var entries' := entries[..s] + entries[s + 1..];
            && Sorted(l, entries') && KeysFit(l, entries')
            && Used(entries') == Used(entries) - LeafCost(|entries[s].key|)
  {
    var entries' := entries[..s] + entries[s + 1..];
    UsedInsert(entries', s, entries[s]);
    assert entries'[..s] + [entries[s]] + entries'[s..] == entries;
  }

  lemma RemoveOk(l: Layout, leaf: Leaf, key: Key)
    requires TotalOrder(l.before) && LeafOk(l, leaf)
    ensures Remove(l, leaf, key).None? <==> !Has(Rows(leaf), key)
    ensures Remove(l, leaf, key).Some? ==>
              Removed(Rows(leaf), Rows(Remove(l, leaf, key).value), key) && Shrunk(l, leaf, Remove(l, leaf, key).value)
  {
    GetFindsRow(l, leaf, key);
    if Get(l, leaf, key).Some? {
      HasKey(Rows(leaf), Entry(key, Get(l, leaf, key).value));
      TombstonedOk(l, leaf, LowerBound(l, leaf.entries, key));
    }
  }

  /** A leaf after a deletion: well-formed, and at most one entry shorter. */
  predicate Shrunk(l: Layout, leaf: Leaf, leaf': Leaf) {
    && LeafOk(l, leaf') && leaf'.next == leaf.next
    && Used(leaf.entries) - l.LeafMax() <= Used(leaf'.entries) <= Used(leaf.entries)
    && Among(leaf'.entries, leaf.entries)
  }

  lemma TombstonedOk(l: Layout, leaf: Leaf, p: nat)
    requires LeafOk(l, leaf) && p < |leaf.entries| && p !in leaf.dead
    ensures Removed(Rows(leaf), Rows(Tombstoned(l, leaf, p)), leaf.entries[p].key)
            && Shrunk(l, leaf, Tombstoned(l, leaf, p))
  {
    if l.tombstoneCapacity == 0 {
      OutRows(leaf, p);
      OutShrinks(l, leaf, p);
    } else if |leaf.dead| < l.tombstoneCapacity {
      TombstoneRows(leaf, p);
      assert Base.Init(leaf.dead + [p]) == leaf.dead;
    } else {
      PurgeThenTombstone(l, leaf, p);
    }
  }

  lemma OutShrinks(l: Layout, leaf: Leaf, s: nat)
    requires LeafOk(l, leaf) && s < |leaf.entries|
    ensures Shrunk(l, leaf, Out(leaf, s))
  {
    OutOk(l, leaf, s);
  }

  lemma PurgeThenTombstone(l: Layout, leaf: Leaf, p: nat)
    requires LeafOk(l, leaf) && p < |leaf.entries| && p !in leaf.dead && 0 < l.tombstoneCapacity <= |leaf.dead|
    ensures Removed(Rows(leaf), Rows(Tombstoned(l, leaf, p)), leaf.entries[p].key)
            && Shrunk(l, leaf, Tombstoned(l, leaf, p))
  {
    PurgedRows(leaf);
    PurgedMark(leaf, p);
    var s, purged := leaf.dead[0], Purged(leaf);
    TombstoneAfterPurge(purged, leaf.entries, s, p);
    ShrunkAfterPurge(l, leaf, purged, s, if s < p then p - 1 else p);
  }

  lemma PurgedMark(leaf: Leaf, p: nat)
    requires SlotsOk(leaf) && leaf.dead != [] && p < |leaf.entries| && p !in leaf.dead
    ensures var purged, s := Purged(leaf), leaf.dead[0];
            && s < |leaf.entries| && s != p && purged.entries == leaf.entries[..s] + leaf.entries[s + 1..]
            && purged.next == leaf.next
            && SlotsOk(purged) && |purged.dead| < |leaf.dead| && (if s < p then p - 1 else p) !in purged.dead
  {
    PurgedSlots(leaf);
    PurgedHas(leaf, if leaf.dead[0] < p then p - 1 else p);
    assert leaf.dead[0] in leaf.dead;
  }

  lemma TombstoneAfterPurge(purged: Leaf, entries: seq<Entry>, s: nat, p: nat)
    requires s < |entries| && p < |entries| && p != s && purged.entries == entries[..s] + entries[s + 1..]
    requires (if s < p then p - 1 else p) !in purged.dead
    ensures Removed(Rows(purged), Rows(purged.(dead := purged.dead + [if s < p then p - 1 else p])), entries[p].key)
  {
    var q := if s < p then p - 1 else p;
    assert purged.entries[q] == entries[p];
    TombstoneRows(purged, q);
  }

  lemma ShrunkAfterPurge(l: Layout, leaf: Leaf, purged: Leaf, s: nat, q: nat)
    requires LeafOk(l, leaf) && s < |leaf.entries| && q < |leaf.entries| - 1
    requires purged.entries == leaf.entries[..s] + leaf.entries[s + 1..] && purged.next == leaf.next
    requires SlotsOk(purged) && |purged.dead| < |leaf.dead| && q !in purged.dead
    ensures Shrunk(l, leaf, purged.(dead := purged.dead + [q]))
  {
    assert Base.Init(purged.dead + [q]) == purged.dead;
    OutEntries(l, leaf.entries, s);
  }

  // ---------------------------------------------------------------- splitting

  function SplitPoint(entries: seq<Entry>): nat
    requires |entries| >= 2
  {
    Best(Costs(entries), false, |entries|)
  }

  function SplitLeft(leaf: Leaf, mid: nat, rightId: nat): Leaf
    requires mid <= |leaf.entries|
  {
    Leaf(leaf.entries[..mid], SlotsBelow(leaf.dead, mid), Some(rightId))
  }

  function SplitRight(leaf: Leaf, mid: nat): Leaf
    requires mid <= |leaf.entries|
  {
    Leaf(leaf.entries[mid..], SlotsFrom(leaf.dead, mid), leaf.next)
  }

  lemma SplitRows(leaf: Leaf, mid: nat, rightId: nat)
    requires mid <= |leaf.entries|
    ensures Rows(leaf) == Rows(SplitLeft(leaf, mid, rightId)) + Rows(SplitRight(leaf, mid))
  {
    var left, right, items := SplitLeft(leaf, mid, rightId), SplitRight(leaf, mid), Items(leaf);
    forall s | 0 <= s < mid ensures s in left.dead <==> s in leaf.dead { SlotsSplitHas(leaf.dead, mid, s); }
    assert Items(left) == items[..mid];
    forall s | 0 <= s < |items| - mid ensures Items(right)[s] == items[mid..][s] { SlotsSplitHas(leaf.dead, mid, s); }
    assert Items(right) == items[mid..] && items == items[..mid] + items[mid..];
    LiveAppend(items[..mid], items[mid..]);
  }

  lemma SplitLeafOk(l: Layout, leaf: Leaf, mid: nat, rightId: nat)
    requires LeafOk(l, leaf) && mid <= |leaf.entries|
    ensures LeafOk(l, SplitLeft(leaf, mid, rightId)) && LeafOk(l, SplitRight(leaf, mid))
  {
    SlotsSplitDistinct(leaf.dead, mid);
    forall s | s in SlotsBelow(leaf.dead, mid) ensures s < mid { SlotsSplitHas(leaf.dead, mid, s); }
    forall s | s in SlotsFrom(leaf.dead, mid) ensures s < |leaf.entries| - mid { SlotsSplitHas(leaf.dead, mid, s); }
  }

  /** An overfull leaf splits into two that fit and are at least minimally full. */
  lemma SplitFitsPages(l: Layout, entries: seq<Entry>)
    requires l.Valid() && KeysFit(l, entries) && l.LeafCapacity() < Used(entries) <= l.LeafCapacity() + l.LeafMax()
    ensures |entries| >= 4
    ensures var mid := SplitPoint(entries);
            && 1 <= mid < |entries|
            && l.LeafMin() <= Used(entries[..mid]) <= l.LeafCapacity()
            && l.LeafMin() <= Used(entries[mid..]) <= l.LeafCapacity()
  {
    Thresholds(l);
    var costs := Costs(entries);
    SplitFits(costs, false, l.LeafMax(), l.LeafCapacity());
    var mid := SplitPoint(entries);
    assert Costs(entries[..mid]) == costs[..mid] && Costs(entries[mid..]) == costs[mid..];
  }

  // ---------------------------------------------------------------- merging

  function Appended(left: Leaf, right: Leaf): Leaf {
    Leaf(left.entries + right.entries, left.dead + MovedUp(right.dead, 0, |left.entries|), right.next)
  }

  /** Purges the oldest tombstones until there is room for the rest. */
  function PurgedTo(l: Layout, leaf: Leaf): Leaf
    requires SlotsOk(leaf)
    decreases |leaf.dead|
  {
    if |leaf.dead| <= l.tombstoneCapacity then leaf
    else
      PurgedSlots(leaf);
      PurgedTo(l, Purged(leaf))
  }

  lemma AppendedOk(left: Leaf, right: Leaf)
    requires SlotsOk(left) && SlotsOk(right)
    ensures SlotsOk(Appended(left, right)) && Rows(Appended(left, right)) == Rows(left) + Rows(right)
  {
    var both, n := Appended(left, right), |left.entries|;
    MovedUpDistinct(right.dead, 0, n);
    forall s ensures s in MovedUp(right.dead, 0, n) <==> s >= n && s - n in right.dead {
      if s >= 0 { MovedUpHas(right.dead, 0, n, s); }
    }
    DistinctAppend(left.dead, MovedUp(right.dead, 0, n));
    assert Items(both) == Items(left) + Items(right);
    LiveAppend(Items(left), Items(right));
  }

  lemma PurgedOk(l: Layout, leaf: Leaf)
    requires SlotsOk(leaf) && Sorted(l, leaf.entries) && KeysFit(l, leaf.entries) && leaf.dead != []
    ensures var leaf' := Purged(leaf);
            && SlotsOk(leaf') && Sorted(l, leaf'.entries) && KeysFit(l, leaf'.entries) && |leaf'.dead| < |leaf.dead|
            && Rows(leaf') == Rows(leaf) && leaf'.next == leaf.next && Used(leaf'.entries) <= Used(leaf.entries)
            && Among(leaf'.entries, leaf.entries)
  {
    PurgedSlots(leaf);
    PurgedRows(leaf);
    PurgedEntries(l, leaf.entries, leaf.dead[0]);
  }

  lemma PurgedEntries(l: Layout, entries: seq<Entry>, s: nat)
    requires Sorted(l, entries) && KeysFit(l, entries) && s < |entries|
    ensures var entries' := entries[..s] + entries[s + 1..];
            Sorted(l, entries') && KeysFit(l, entries') && Used(entries') <= Used(entries) && Among(entries', entries)
  {
    OutEntries(l, entries, s);
  }

  lemma AmongAll(a: seq<Entry>, b: seq<Entry>, c: seq<Entry>)
    requires Among(a, b) && Among(b, c)
    ensures Among(a, c)
  {
    forall i | 0 <= i < |a| ensures a[i] in c {
      var j :| 0 <= j < |b| && b[j] == a[i];
    }
  }

  lemma {:induction false} PurgedToOk(l: Layout, leaf: Leaf)
    requires SlotsOk(leaf) && Sorted(l, leaf.entries) && KeysFit(l, leaf.entries)
    ensures var leaf' := PurgedTo(l, leaf);
            && LeafOk(l, leaf') && Rows(leaf') == Rows(leaf) && leaf'.next == leaf.next
            && Used(leaf'.entries) <= Used(leaf.entries)
            && Among(leaf'.entries, leaf.entries)
    decreases |leaf.dead|
  {
    if |leaf.dead| > l.tombstoneCapacity {
      PurgedOk(l, leaf);
      PurgedToOk(l, Purged(leaf));
      AmongAll(PurgedTo(l, leaf).entries, Purged(leaf).entries, leaf.entries);
    }
  }

  /** The leaf `right` merges into, with the oldest tombstones purged if there are too many. */
  function Absorbed(l: Layout, left: Leaf, right: Leaf): Leaf
    requires SlotsOk(left) && SlotsOk(right)
  {
    AppendedOk(left, right);
    PurgedTo(l, Appended(left, right))
  }

  lemma AbsorbedOk(l: Layout, left: Leaf, right: Leaf)
    requires LeafOk(l, left) && LeafOk(l, right) && Sorted(l, left.entries + right.entries)
    ensures var both := Absorbed(l, left, right);
            && LeafOk(l, both) && Rows(both) == Rows(left) + Rows(right) && both.next == right.next
            && Used(both.entries) <= Used(left.entries) + Used(right.entries)
            && Among(both.entries, left.entries + right.entries)
  {
    AppendedOk(left, right);
    UsedAppend(left.entries, right.entries);
    PurgedToOk(l, Appended(left, right));
  }

  // ---------------------------------------------------------------- borrowing

  /** The slot a sibling lends from: its first when it is the right sibling, else its last. */
  function Edge(leaf: Leaf, right: bool): nat
    requires leaf.entries != []
  {
    if right then 0 else |leaf.entries| - 1
  }

  predicate CanLend(l: Layout, leaf: Leaf, right: bool) {
    leaf.entries != [] && Used(leaf.entries) - LeafCost(|leaf.entries[Edge(leaf, right)].key|) >= l.LeafMin()
  }

  function PopLast(leaf: Leaf): Leaf
    requires leaf.entries != []
  {
    Leaf(Base.Init(leaf.entries), Without(leaf.dead, |leaf.entries| - 1), leaf.next)
  }

  function Popped(leaf: Leaf, right: bool): Leaf
    requires leaf.entries != []
  {
    if right then Out(leaf, 0) else PopLast(leaf)
  }

  function PushBack(leaf: Leaf, item: Item): Leaf {
    Leaf(leaf.entries + [item.entry], if item.live then leaf.dead else leaf.dead + [|leaf.entries|], leaf.next)
  }

  function PushFront(leaf: Leaf, item: Item): Leaf {
    var dead := MovedUp(leaf.dead, 0, 1);
    Leaf([item.entry] + leaf.entries, if item.live then dead else dead + [0], leaf.next)
  }

  function Pushed(leaf: Leaf, item: Item, right: bool): Leaf {
    if right then PushBack(leaf, item) else PushFront(leaf, item)
  }

  /** One entry moves from the sibling to the leaf; a tombstone the leaf has no room for is dropped. */
  function Lent(l: Layout, leaf: Leaf, sibling: Leaf, right: bool): (Leaf, Leaf)
    requires sibling.entries != []
  {
    var item := Items(sibling)[Edge(sibling, right)];
    (if !item.live && |leaf.dead| >= l.tombstoneCapacity then leaf
        else Pushed(leaf, item, right), Popped(sibling, right))
  }

  /** The two leaves once the leaf is full enough or the sibling can lend no more. */
  function Borrow(l: Layout, leaf: Leaf, sibling: Leaf, right: bool): (Leaf, Leaf)
    decreases |sibling.entries|
  {
    if Underfull(l, leaf) && CanLend(l, sibling, right) then
      var (leaf', sibling') := Lent(l, leaf, sibling, right);
      Borrow(l, leaf', sibling', right)
    else (leaf, sibling)
  }

  method BorrowFromSibling(l: Layout, leaf: Leaf, sibling: Leaf, right: bool) returns (leaf': Leaf, sibling': Leaf)
    ensures (leaf', sibling') == Borrow(l, leaf, sibling, right)
  {
    leaf', sibling' := leaf, sibling;
    while Underfull(l, leaf') && CanLend(l, sibling', right)
      invariant Borrow(l, leaf', sibling', right) == Borrow(l, leaf, sibling, right)
      decreases |sibling'.entries|
    {
      var (a, b) := Lent(l, leaf', sibling', right);
      leaf', sibling' := a, b;
    }
  }

  /** The entries of the leaf and its sibling in key order. */
  function Ordered<T>(leaf: seq<T>, sibling: seq<T>, right: bool): seq<T> {
    if right then leaf + sibling else sibling + leaf
  }

  lemma PopLastItems(leaf: Leaf)
    requires leaf.entries != []
    ensures Items(PopLast(leaf)) == Base.Init(Items(leaf))
  {
    forall s | 0 <= s < |leaf.entries| - 1 ensures s in PopLast(leaf).dead <==> s in leaf.dead {
      WithoutHas(leaf.dead, |leaf.entries| - 1, s);
    }
  }

  lemma PoppedItems(leaf: Leaf, right: bool)
    requires leaf.entries != []
    ensures Items(Popped(leaf, right)) == if right then Items(leaf)[1..] else Base.Init(Items(leaf))
  {
    if right {
      OutItems(leaf, 0);
      assert Items(leaf)[..0] + Items(leaf)[1..] == Items(leaf)[1..];
    } else {
      PopLastItems(leaf);
    }
  }

  lemma PushedItems(leaf: Leaf, item: Item, right: bool)
    requires SlotsOk(leaf)
    ensures Items(Pushed(leaf, item, right)) == if right then Items(leaf) + [item] else [item] + Items(leaf)
  {
    if !right {
      forall s | 0 <= s < |leaf.entries| + 1 ensures Items(Pushed(leaf, item, right))[s] == ([item] + Items(leaf))[s] {
        MovedUpHas(leaf.dead, 0, 1, s);
      }
    }
  }

  function RowOf(item: Item): seq<Entry> { if item.live then [item.entry] else [] }

  lemma PoppedRows(leaf: Leaf, right: bool)
    requires leaf.entries != []
    ensures Rows(leaf) == Ordered(RowOf(Items(leaf)[Edge(leaf, right)]), Rows(Popped(leaf, right)), right)
  {
    var items, item := Items(leaf), Items(leaf)[Edge(leaf, right)];
    PoppedItems(leaf, right);
    LiveOne(item);
    if right {
      assert items == [item] + items[1..];
      LiveAppend([item], items[1..]);
    } else {
      assert items == Base.Init(items) + [item];
      LiveAppend(Base.Init(items), [item]);
    }
  }

  lemma PushedRows(leaf: Leaf, item: Item, right: bool)
    requires SlotsOk(leaf)
    ensures Rows(Pushed(leaf, item, right)) == Ordered(Rows(leaf), RowOf(item), right)
  {
    PushedItems(leaf, item, right);
    LiveOne(item);
    if right {
      LiveAppend(Items(leaf), [item]);
    } else {
      LiveAppend([item], Items(leaf));
    }
  }

  lemma OrderedTurns<T>(a: seq<T>, b: seq<T>, c: seq<T>, right: bool)
    ensures Ordered(Ordered(a, b, right), c, right) == Ordered(a, Ordered(b, c, right), right)
  {
    assert a + b + c == a + (b + c) && c + (b + a) == c + b + a;
  }

  /** Moving an entry across keeps the rows, in their order. */
  lemma LentRows(l: Layout, leaf: Leaf, sibling: Leaf, right: bool)
    requires SlotsOk(leaf) && sibling.entries != []
    ensures Ordered(Rows(Lent(l, leaf, sibling, right).0), Rows(Lent(l, leaf, sibling, right).1), right) ==
            Ordered(Rows(leaf), Rows(sibling), right)
  {
    var item := Items(sibling)[Edge(sibling, right)];
    PoppedRows(sibling, right);
    PushedRows(leaf, item, right);
    OrderedTurns(Rows(leaf), RowOf(item), Rows(Popped(sibling, right)), right);
    assert !item.live ==> Ordered([], Rows(Popped(sibling, right)), right) == Rows(Popped(sibling, right));
  }

  lemma PoppedOk(l: Layout, leaf: Leaf, right: bool)
    requires LeafOk(l, leaf) && leaf.entries != []
    ensures var leaf' := Popped(leaf, right);
            && LeafOk(l, leaf') && leaf'.next == leaf.next && |leaf'.entries| == |leaf.entries| - 1
            && leaf'.entries == (if right then leaf.entries[1..] else Base.Init(leaf.entries))
            && Used(leaf'.entries) == Used(leaf.entries) - LeafCost(|leaf.entries[Edge(leaf, right)].key|)
  {
    var n := |leaf.entries| - 1;
    if right {
      OutOk(l, leaf, 0);
      assert leaf.entries[..0] + leaf.entries[1..] == leaf.entries[1..];
    } else {
      WithoutDistinct(leaf.dead, n);
      forall s | s in PopLast(leaf).dead ensures s < n { WithoutHas(leaf.dead, n, s); }
      OutEntries(l, leaf.entries, n);
      assert leaf.entries[..n] + leaf.entries[n + 1..] == leaf.entries[..n];
    }
  }

  lemma PushedSlots(leaf: Leaf, item: Item, right: bool)
    requires SlotsOk(leaf)
    ensures SlotsOk(Pushed(leaf, item, right))
    ensures |Pushed(leaf, item, right).dead| == |leaf.dead| + if item.live then 0 else 1
  {
    if right { PushedLast(leaf.dead, |leaf.entries|); } else { PushedFirst(leaf.dead, |leaf.entries|); }
  }

  lemma PushedLast(dead: seq<nat>, n: nat)
    requires Distinct(dead) && forall s :: s in dead ==> s < n
    ensures Distinct(dead + [n]) && forall s :: s in dead + [n] ==> s < n + 1
  {
    DistinctNext(dead, n);
  }

  lemma PushedFirst(dead: seq<nat>, n: nat)
    requires Distinct(dead) && forall s :: s in dead ==> s < n
    ensures var up := MovedUp(dead, 0, 1); |up| == |dead| && Distinct(up) && Distinct(up + [0])
    ensures forall s :: s in MovedUp(dead, 0, 1) ==> s < n + 1
  {
    var up := MovedUp(dead, 0, 1);
    MovedUpDistinct(dead, 0, 1);
    forall s | s in up ensures 0 < s < n + 1 { MovedUpHas(dead, 0, 1, s); }
    DistinctNext(up, 0);
  }

  lemma UsedOrdered(entries: seq<Entry>, e: Entry, right: bool)
    ensures Used(Ordered(entries, [e], right)) == Used(entries) + LeafCost(|e.key|)
  {
    UsedOne(e);
    UsedAppend(entries, [e]);
    UsedAppend([e], entries);
  }

  lemma PushedOk(l: Layout, leaf: Leaf, item: Item, right: bool)
    requires LeafOk(l, leaf) && |item.entry.key| <= l.maxKeyLen && (item.live || |leaf.dead| < l.tombstoneCapacity)
    requires Sorted(l, Ordered(leaf.entries, [item.entry], right))
    ensures var leaf' := Pushed(leaf, item, right);
            && LeafOk(l, leaf') && leaf'.next == leaf.next
            && leaf'.entries == Ordered(leaf.entries, [item.entry], right)
            && Used(leaf'.entries) == Used(leaf.entries) + LeafCost(|item.entry.key|)
  {
    PushedSlots(leaf, item, right);
    UsedOrdered(leaf.entries, item.entry, right);
  }

  /** What borrowing keeps of a leaf and its sibling. */
  ghost predicate Together(l: Layout, leaf: Leaf, sibling: Leaf, right: bool) {
    LeafOk(l, leaf) && LeafOk(l, sibling) && Sorted(l, Ordered(leaf.entries, sibling.entries, right))
  }

  lemma LentOk(l: Layout, leaf: Leaf, sibling: Leaf, right: bool)
    requires Together(l, leaf, sibling, right) && sibling.entries != []
    ensures var (leaf', sibling') := Lent(l, leaf, sibling, right);
            && Together(l, leaf', sibling', right) && leaf'.next == leaf.next && sibling'.next == sibling.next
            && |sibling'.entries| == |sibling.entries| - 1
            && Used(leaf'.entries) <= Used(leaf.entries) + l.LeafMax()
            && Used(sibling'.entries) == Used(sibling.entries) - LeafCost(|sibling.entries[Edge(sibling, right)].key|)
            && Among(leaf'.entries, Ordered(leaf.entries, sibling.entries, right))
            && Among(sibling'.entries, sibling.entries)
  {
    var item := Items(sibling)[Edge(sibling, right)];
    PoppedOk(l, sibling, right);
    SortedPart(l, leaf.entries, sibling.entries, right);
    if item.live || |leaf.dead| < l.tombstoneCapacity {
      PushedOk(l, leaf, item, right);
    }
  }

  /** Moving the nearest entry across, or dropping it, keeps the order. */
  lemma SortedPart(l: Layout, leaf: seq<Entry>, sibling: seq<Entry>, right: bool)
    requires Sorted(l, Ordered(leaf, sibling, right)) && sibling != []
    ensures var e, rest := sibling[if right then 0 else |sibling| - 1], if right then sibling[1..]
            else Base.Init(sibling);
            && Sorted(l, Ordered(leaf, [e], right)) && Sorted(l, Ordered(leaf, rest, right))
            && Sorted(l, Ordered(Ordered(leaf, [e], right), rest, right))
            && Among(leaf, Ordered(leaf, sibling, right))
            && Among(Ordered(leaf, [e], right), Ordered(leaf, sibling, right)) && Among(rest, sibling)
  {
    var both := Ordered(leaf, sibling, right);
    var e, rest := sibling[if right then 0 else |sibling| - 1], if right then sibling[1..] else Base.Init(sibling);
    assert Ordered(Ordered(leaf, [e], right), rest, right) == both;
    assert Ordered(leaf, [e], right) == if right then both[..|leaf| + 1] else both[|sibling| - 1..];
    if right {
      assert both[..|leaf|] == leaf && forall i :: |leaf| <= i < |leaf + rest| ==> (leaf + rest)[i] == both[i + 1];
    } else {
      assert forall i :: |rest| <= i < |rest + leaf| ==> (rest + leaf)[i] == both[i + 1];
    }
  }

  /** After borrowing the rows are the same, in the same order. The leaf is full enough and fits, or
      the sibling can lend no more; the sibling is as full as it must be. */
  lemma {:induction false} BorrowOk(l: Layout, leaf: Leaf, sibling: Leaf, right: bool)
    requires l.Valid() && Together(l, leaf, sibling, right) && Underfull(l, leaf)
    ensures var (leaf', sibling') := Borrow(l, leaf, sibling, right);
            && Together(l, leaf', sibling', right) && leaf'.next == leaf.next && sibling'.next == sibling.next
            && Ordered(Rows(leaf'), Rows(sibling'), right) == Ordered(Rows(leaf), Rows(sibling), right)
            && Used(leaf'.entries) < l.LeafMin() + l.LeafMax() && (Underfull(l, leaf') ==> !CanLend(l, sibling', right))
            && (!Underfull(l, leaf') ==> Used(sibling'.entries) >= l.LeafMin())
            && Used(sibling'.entries) <= Used(sibling.entries)
            && Among(leaf'.entries, Ordered(leaf.entries, sibling.entries, right))
            && Among(sibling'.entries, sibling.entries)
    decreases |sibling.entries|
  {
    if CanLend(l, sibling, right) {
      var (leaf1, sibling1) := Lent(l, leaf, sibling, right);
      LentOk(l, leaf, sibling, right);
      LentRows(l, leaf, sibling, right);
      if Underfull(l, leaf1) {
        BorrowOk(l, leaf1, sibling1, right);
      }
    }
  }
}
