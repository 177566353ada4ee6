/** The in-place leaf view: tombstones kept oldest first in a fixed array of the page, rewritten where
    they are. It does what the owned leaf does. */
module LeafView {
  import opened Base
  import opened BPlusLayout
  import L = BPlusLeaf

  type Entry = L.Entry

  /** What a rewrite of the tombstone list makes of it: each slot at its position is kept, changed or dropped. */
  function Rewritten(dead: seq<nat>, f: (nat, nat) -> Option<nat>): seq<nat> {
    if dead == [] then []
    else
      match f(|dead| - 1, Last(dead))
      case None => Rewritten(Base.Init(dead), f)
      case Some(slot) => Rewritten(Base.Init(dead), f) + [slot]
  }

  lemma {:induction false} RewrittenShorter(dead: seq<nat>, f: (nat, nat) -> Option<nat>)
    ensures |Rewritten(dead, f)| <= |dead|
  {
    if dead != [] { RewrittenShorter(Base.Init(dead), f); }
  }

  // ---------------------------------------------------------------- the rewrites the view does

  function Drop(slot: nat): (nat, nat) -> Option<nat> { (i: nat, s: nat) => if s != slot then Some(s) else None }

  function MoveUp(at: nat): (nat, nat) -> Option<nat> { (i: nat, s: nat) => Some(if s >= at then s + 1 else s) }

  function MoveDown(slot: nat): (nat, nat) -> Option<nat> {
    (i: nat, s: nat) => if s == slot then None else if s > slot then Some(s - 1) else Some(s)
  }

  function DropFirst(): (nat, nat) -> Option<nat> { (i: nat, s: nat) => if i == 0 then None else Some(s) }

  lemma {:induction false} DropIsWithout(dead: seq<nat>, slot: nat)
    ensures Rewritten(dead, Drop(slot)) == L.Without(dead, slot)
  {
    if dead != [] { DropIsWithout(Base.Init(dead), slot); }
  }

  lemma {:induction false} MoveUpIsMovedUp(dead: seq<nat>, at: nat)
    ensures Rewritten(dead, MoveUp(at)) == L.MovedUp(dead, at, 1)
  {
    if dead != [] { MoveUpIsMovedUp(Base.Init(dead), at); }
  }

  lemma {:induction false} MoveDownIsMovedDown(dead: seq<nat>, slot: nat)
    ensures Rewritten(dead, MoveDown(slot)) == L.MovedDown(dead, slot)
  {
    if dead != [] { MoveDownIsMovedDown(Base.Init(dead), slot); }
  }

  lemma {:induction false} DropFirstIsRest(dead: seq<nat>)
    ensures Rewritten(dead, DropFirst()) == if dead == [] then [] else dead[1..]
  {
    if dead != [] {
      DropFirstIsRest(Base.Init(dead));
      if |dead| == 1 {
        assert Base.Init(dead) == [];
      } else {
        assert Base.Init(dead)[1..] + [Last(dead)] == dead[1..];
      }
    }
  }

  datatype InsertResult = Inserted | DuplicateKey | Full

  class LeafPageView {
    const l: Layout
    var entries: seq<Entry>
    var next: Option<nat>
    const tombs: array<nat>
    var count: nat

    /** The owned leaf the page holds. */
    function Leaf(): L.Leaf
      reads this, tombs
      requires count <= tombs.Length
    {
      L.Leaf(entries, tombs[..count], next)
    }

    ghost predicate Valid()
      reads this, tombs
    {
      count <= tombs.Length == l.tombstoneCapacity && TotalOrder(l.before) && L.LeafOk(l, Leaf()) && L.Fits(l, Leaf())
    }

    constructor (l: Layout, leaf: L.Leaf)
      requires TotalOrder(l.before) && L.LeafOk(l, leaf) && L.Fits(l, leaf)
      ensures Valid() && Leaf() == leaf && this.l == l
    {
      this.l, entries, next, count := l, leaf.entries, leaf.next, |leaf.dead|;
      var array_ := new nat[l.tombstoneCapacity](i => if 0 <= i < |leaf.dead| then leaf.dead[i] else 0);
      tombs := array_;
      new;
      assert tombs[..count] == leaf.dead;
    }

    method IsTombstoned(slot: nat) returns (r: bool)
      requires count <= tombs.Length
      ensures r <==> slot in tombs[..count]
    {
      var i := 0;
      while i < count
        invariant 0 <= i <= count && slot !in tombs[..i]
      {
        if tombs[i] == slot {
          return true;
        }
        i := i + 1;
      }
      return false;
    }

    /** Rewrites the tombstone list in place and zeroes the slots it frees. */
    method RewriteTombstones(f: (nat, nat) -> Option<nat>)
      requires count <= tombs.Length
      modifies this`count, tombs
      ensures count <= tombs.Length && tombs[..count] == Rewritten(old(tombs[..count]), f)
      ensures forall i :: count <= i < old(count) ==> tombs[i] == 0
      ensures forall i :: old(count) <= i < tombs.Length ==> tombs[i] == old(tombs[i])
    {
      ghost var dead := tombs[..count];
      var kept, i := 0, 0;
      while i < count
        invariant 0 <= kept <= i <= count == |dead| == old(count) && tombs[..kept] == Rewritten(dead[..i], f)
        invariant forall j :: i <= j < tombs.Length ==> tombs[j] == old(tombs[j])
      {
        assert Base.Init(dead[..i + 1]) == dead[..i] && Last(dead[..i + 1]) == dead[i] == tombs[i];
        var slot := f(i, tombs[i]);
        if slot.Some? {
          tombs[kept] := slot.value;
          assert tombs[..kept + 1] == tombs[..kept] + [slot.value];
          kept := kept + 1;
        }
        i := i + 1;
      }
      assert dead[..count] == dead;
      ghost var list := tombs[..kept];
      i := kept;
      while i < count
        invariant kept <= i <= count == old(count) && tombs[..kept] == list
                  && forall j :: kept <= j < i ==> tombs[j] == 0
        invariant forall j :: count <= j < tombs.Length ==> tombs[j] == old(tombs[j])
      {
        tombs[i] := 0;
        i := i + 1;
      }
      count := kept;
    }

    /** Where `key` is or belongs, and whether it is there. */
    method Search(key: Key) returns (found: bool, p: nat)
      requires Valid()
      ensures p == L.LowerBound(l, entries, key) && (found <==> L.Found(l, Leaf(), key))
    {
      var es := entries;
      var pred := (i: nat) => i < |es| && l.before(es[i].key, key);
      p := L.PartitionPoint(|es|, pred);
      forall i: nat | i < p ensures l.before(es[i].key, key) { assert pred(i); }
      forall i: nat | p <= i < |es| ensures !l.before(es[i].key, key) { assert !pred(i); }
      SamePoint(l, es, key, p);
      found := p < |es| && es[p].key == key;
    }

    /** Inserts in place: a tombstoned key is revived, and a new one needs room for its entry. */
    method Insert(e: Entry) returns (r: InsertResult)
      requires Valid() && |e.key| <= l.maxKeyLen
      modifies this, tombs
      ensures Valid()
      ensures r == var leaf := L.Insert(l, old(Leaf()), e);
              if leaf.None? then DuplicateKey else if L.Fits(l, leaf.value) then Inserted else Full
      ensures if r == Inserted then L.Insert(l, old(Leaf()), e) == Some(Leaf()) else Leaf() == old(Leaf())
    {
      ghost var leaf := Leaf();
      var found, p := Search(e.key);
      if found {
        var dead := IsTombstoned(p);
        if !dead {
          return DuplicateKey;
        }
        L.InsertOk(l, leaf, e);
        ReviveFits(l, leaf, e);
        DropIsWithout(tombs[..count], p);
        RewriteTombstones(Drop(p));
        entries := entries[p := L.Entry(entries[p].key, e.rid)];
        assert entries == leaf.entries[p := e];
        return Inserted;
      }
      L.InsertOk(l, leaf, e);
      L.UsedInsert(entries, p, e);
      if l.LeafCapacity() - L.Used(entries) < LeafCost(|e.key|) {
        return Full;
      }
      MoveUpIsMovedUp(tombs[..count], p);
      L.MovedUpDistinct(tombs[..count], p, 1);
      entries := entries[..p] + [e] + entries[p..];
      RewriteTombstones(MoveUp(p));
      return Inserted;
    }

    /** Takes an entry out, and its tombstone if it has one. */
    method PhysicalRemoveAt(slot: nat)
      requires count <= tombs.Length && slot < |entries|
      modifies this, tombs
      ensures count <= tombs.Length && next == old(next) && Leaf() == L.Out(old(Leaf()), slot)
    {
      MoveDownIsMovedDown(tombs[..count], slot);
      entries := entries[..slot] + entries[slot + 1..];
      RewriteTombstones(MoveDown(slot));
    }

    /** Takes the entry of the oldest tombstone out for good. */
    method PurgeOldest() returns (oldest: nat)
      requires 0 < count <= tombs.Length && L.SlotsOk(Leaf())
      modifies this, tombs
      ensures count <= tombs.Length && Leaf() == L.Purged(old(Leaf())) && oldest == old(tombs[0])
              && count == old(count) - 1
    {
      ghost var leaf := Leaf();
      oldest := tombs[0];
      OldestInRange(leaf);
      ForgetOldest();
      assert Leaf() == L.Leaf(leaf.entries, leaf.dead[1..], leaf.next);
      PhysicalRemoveAt(oldest);
      assert |Leaf().dead| == count;
    }

    method ForgetOldest()
      requires 0 < count <= tombs.Length
      modifies this`count, tombs
      ensures count <= tombs.Length && tombs[..count] == old(tombs[..count])[1..]
    {
      DropFirstIsRest(tombs[..count]);
      RewriteTombstones(DropFirst());
    }

    method AddTombstone(slot: nat)
      requires count < tombs.Length
      modifies this`count, tombs
      ensures count <= tombs.Length && Leaf() == old(Leaf()).(dead := old(Leaf()).dead + [slot])
    {
      tombs[count] := slot;
      count := count + 1;
      assert tombs[..count] == old(tombs[..count]) + [slot];
    }

    /** Deletes the live entry at slot `p`. */
    method Tombstone(p: nat)
      requires count <= tombs.Length == l.tombstoneCapacity && L.SlotsOk(Leaf()) && p < |entries| && p !in Leaf().dead
      modifies this, tombs
      ensures count <= tombs.Length && Leaf() == L.Tombstoned(l, old(Leaf()), p)
    {
      var slot := p;
      if l.tombstoneCapacity == 0 {
        PhysicalRemoveAt(slot);
        return;
      }
      if count >= l.tombstoneCapacity {
        var oldest := PurgeOldest();
        if oldest < slot {
          slot := slot - 1;
        }
      }
      AddTombstone(slot);
    }

    /** Deletes a key by a tombstone; when the list is full, the entry of the oldest one goes first. */
    method RemoveKey(key: Key) returns (ok: bool)
      requires Valid()
      modifies this, tombs
      ensures Valid()
      ensures ok <==> L.Remove(l, old(Leaf()), key).Some?
      ensures if ok then L.Remove(l, old(Leaf()), key) == Some(Leaf()) else Leaf() == old(Leaf())
    {
      L.RemoveOk(l, Leaf(), key);
      var found, p := Search(key);
      if !found {
        return false;
      }
      var dead := IsTombstoned(p);
      if dead {
        return false;
      }
      Tombstone(p);
      return true;
    }
  }

  lemma SamePoint(l: Layout, entries: seq<Entry>, key: Key, p: nat)
    requires TotalOrder(l.before) && L.Sorted(l, entries) && p <= |entries|
    requires (forall i: nat :: i < p ==> l.before(entries[i].key, key))
             && (forall i: nat :: p <= i < |entries| ==> !l.before(entries[i].key, key))
    ensures p == L.LowerBound(l, entries, key)
  {}

  lemma ReviveFits(l: Layout, leaf: L.Leaf, e: Entry)
    requires TotalOrder(l.before) && L.LeafOk(l, leaf) && L.Found(l, leaf, e.key)
             && L.LowerBound(l, leaf.entries, e.key) in leaf.dead
    ensures L.Used(L.Insert(l, leaf, e).value.entries) == L.Used(leaf.entries)
  {
    var p := L.LowerBound(l, leaf.entries, e.key);
    assert L.Costs(leaf.entries[p := e]) == L.Costs(leaf.entries);
  }

  lemma OldestInRange(leaf: L.Leaf)
    requires L.SlotsOk(leaf) && leaf.dead != []
    ensures leaf.dead[0] < |leaf.entries|
            && L.Purged(leaf) == L.Out(L.Leaf(leaf.entries, leaf.dead[1..], leaf.next), leaf.dead[0])
    ensures |L.Purged(leaf).dead| == |leaf.dead| - 1
  {
    assert leaf.dead[0] in leaf.dead;
    L.FirstIsDistinct(leaf.dead);
    L.MovedDownDistinct(leaf.dead[1..], leaf.dead[0]);
  }
}
