/** A slotted table page: tuples in regions of one byte buffer, and a directory of the slots that own
    them. The directory's fields are kept as values; the buffer is the page's tuple area. */
module TablePage {
  import opened Base

  const HEADER_SIZE: int := 12
  const SLOT_SIZE: int := 17

  datatype Meta = Meta(ts: nat, deleted: bool)

  /** A directory entry: the region it has reserved runs from `offset - capacity` to `offset`, and the
      row's bytes fill the low `size` of it. */
  datatype Slot = Slot(offset: int, size: int, capacity: int, meta: Meta)
  {
    function Start(): int { offset - capacity }
  }

  datatype Page = Page(bytes: Bytes, slots: seq<Slot>, free: int, deleted: int)
  {
    function DirectoryEnd(): int { HEADER_SIZE + SLOT_SIZE * |slots| }

    function FreeBytes(): int { if free > DirectoryEnd() then free - DirectoryEnd() else 0 }
  }

  datatype Error =
    | DoesNotFit
    | SlotCountOverflow
    | SlotMissing
    | SlotOutOfBounds
    | AlreadyDeleted
    | CorruptDeletedCounter
    | UpdateDoesNotFit

  // ---------------------------------------------------------------- well-formed pages

  /** A slot's region lies in the tuple area. */
  predicate RegionOk(s: Slot, free: int) { 0 <= s.size <= s.capacity <= s.offset <= PAGE_SIZE && s.Start() >= free }

  predicate Apart(s: Slot, t: Slot) { s.offset <= t.Start() || t.offset <= s.Start() }

  function DeletedCount(slots: seq<Slot>): nat {
    if slots == [] then 0 else DeletedCount(Base.Init(slots)) + (if Last(slots).meta.deleted then 1 else 0)
  }

  predicate PageOk(p: Page) {
    && |p.bytes| == PAGE_SIZE && p.DirectoryEnd() <= p.free <= PAGE_SIZE && p.deleted == DeletedCount(p.slots)
    && (forall i :: 0 <= i < |p.slots| ==> RegionOk(p.slots[i], p.free))
    && (forall i, j :: 0 <= i < j < |p.slots| ==> Apart(p.slots[i], p.slots[j]))
  }

  /** The bytes of a slot's tuple, and of its whole region. */
  function Tuple(p: Page, i: nat): Bytes
    requires i < |p.slots| && |p.bytes| == PAGE_SIZE && RegionOk(p.slots[i], 0)
  {
    p.bytes[p.slots[i].Start()..p.slots[i].Start() + p.slots[i].size]
  }

  function Region(p: Page, i: nat): Bytes
    requires i < |p.slots| && |p.bytes| == PAGE_SIZE && RegionOk(p.slots[i], 0)
  {
    p.bytes[p.slots[i].Start()..p.slots[i].offset]
  }

  // ---------------------------------------------------------------- bytes

  function Written(b: Bytes, at: int, data: Bytes): (r: Bytes)
    requires 0 <= at && at + |data| <= |b|
    ensures |r| == |b|
  {
    b[..at] + data + b[at + |data|..]
  }

  lemma WrittenHere(b: Bytes, at: int, data: Bytes)
    requires 0 <= at && at + |data| <= |b|
    ensures Written(b, at, data)[at..at + |data|] == data
  {}

  lemma WrittenElsewhere(b: Bytes, at: int, data: Bytes, from: int, to: int)
    requires 0 <= at && at + |data| <= |b| && 0 <= from <= to <= |b| && (to <= at || at + |data| <= from)
    ensures Written(b, at, data)[from..to] == b[from..to]
  {}

  lemma WrittenAbove(a: Bytes, b: Bytes, at: int, data: Bytes, m: int, n: int)
    requires 0 <= m <= n <= |a| == |b| && m <= at && at + |data| <= |b| && a[..n] == b[..n]
    ensures Written(b, at, data)[..m] == a[..m]
  {
    WrittenElsewhere(b, at, data, 0, m);
    assert a[..m] == a[..n][..m] && b[..m] == b[..n][..m];
  }

  // ---------------------------------------------------------------- room for regions

  function Range(a: int, b: int): (r: set<int>)
    requires a <= b
    ensures |r| == b - a && forall x :: x in r <==> a <= x < b
    decreases b - a
  {
    if a == b then {} else Range(a, b - 1) + {b - 1}
  }

  function Capacities(slots: seq<Slot>): int {
    if slots == [] then 0 else Capacities(Base.Init(slots)) + Last(slots).capacity
  }

  predicate Sized(slots: seq<Slot>) { forall i :: 0 <= i < |slots| ==> slots[i].capacity >= 0 }

  function Cover(slots: seq<Slot>): set<int>
    requires Sized(slots)
  {
    if slots == [] then {} else Cover(Base.Init(slots)) + Range(Last(slots).Start(), Last(slots).offset)
  }

  lemma {:induction false} CoverIn(slots: seq<Slot>, x: int)
    requires Sized(slots) && x in Cover(slots)
    ensures exists i :: 0 <= i < |slots| && slots[i].Start() <= x < slots[i].offset
  {
    if x in Cover(Base.Init(slots)) {
      CoverIn(Base.Init(slots), x);
      var i :| 0 <= i < |slots| - 1 && Base.Init(slots)[i].Start() <= x < Base.Init(slots)[i].offset;
      assert slots[i].Start() <= x < slots[i].offset;
    }
  }

  /** Regions that do not overlap take as many bytes as their capacities. */
  lemma {:induction false} CoverSize(slots: seq<Slot>)
    requires Sized(slots) && forall i, j :: 0 <= i < j < |slots| ==> Apart(slots[i], slots[j])
    ensures |Cover(slots)| == Capacities(slots)
  {
    if slots != [] {
      var init, last := Base.Init(slots), Last(slots);
      CoverSize(init);
      assert Cover(init) !! Range(last.Start(), last.offset) by {
        forall x | x in Cover(init) ensures x !in Range(last.Start(), last.offset) {
          CoverIn(init, x);
          var i :| 0 <= i < |init| && init[i].Start() <= x < init[i].offset;
          assert Apart(slots[i], slots[|slots| - 1]);
        }
      }
    }
  }

  /** The regions of a page fit between its free space and its end. */
  lemma RegionsFit(slots: seq<Slot>, free: int)
    requires free <= PAGE_SIZE && (forall i :: 0 <= i < |slots| ==> RegionOk(slots[i], free))
             && forall i, j :: 0 <= i < j < |slots| ==> Apart(slots[i], slots[j])
    ensures Capacities(slots) <= PAGE_SIZE - free
  {
    CoverSize(slots);
    forall x | x in Cover(slots) ensures x in Range(free, PAGE_SIZE) { CoverIn(slots, x); }
    Subsets(Cover(slots), Range(free, PAGE_SIZE));
  }

  lemma Subsets(a: set<int>, b: set<int>)
    requires a <= b
    ensures |a| <= |b|
  {
    assert b == a + (b - a);
  }

  /** What the regions of the first `n` slots take, without slot `skip`. */
  function Others(slots: seq<Slot>, skip: nat, n: nat): int
    requires n <= |slots|
  {
    if n == 0 then 0 else Others(slots, skip, n - 1) + (if n - 1 == skip then 0 else slots[n - 1].capacity)
  }

  lemma {:induction false} OthersAre(slots: seq<Slot>, skip: nat, n: nat)
    requires n <= |slots| && skip < |slots|
    ensures Others(slots, skip, n) == Capacities(slots[..n]) - (if skip < n then slots[skip].capacity else 0)
  {
    if n > 0 {
      OthersAre(slots, skip, n - 1);
      assert Base.Init(slots[..n]) == slots[..n - 1] && Last(slots[..n]) == slots[n - 1];
    }
  }

  lemma {:induction false} OthersGrow(slots: seq<Slot>, skip: nat, m: nat, n: nat)
    requires m <= n <= |slots| && Sized(slots)
    ensures 0 <= Others(slots, skip, m) <= Others(slots, skip, n)
    decreases n
  {
    if m < n {
      OthersGrow(slots, skip, m, n - 1);
    } else if n > 0 {
      OthersGrow(slots, skip, n - 1, n - 1);
    }
  }

  /** The room a page has for slot `skip` when everything else is packed. */
  function Available(p: Page, skip: nat): int
    requires skip < |p.slots|
  {
    PAGE_SIZE - p.DirectoryEnd() - Others(p.slots, skip, |p.slots|)
  }

  /** Packing frees at least what the page has free and what the slot has. */
  lemma AvailableIsMost(p: Page, skip: nat)
    requires PageOk(p) && skip < |p.slots|
    ensures Available(p, skip) >= p.FreeBytes() + p.slots[skip].capacity
  {
    RegionsFit(p.slots, p.free);
    OthersAre(p.slots, skip, |p.slots|);
    assert p.slots[..|p.slots|] == p.slots;
  }

  // ---------------------------------------------------------------- inserting

  predicate CanInsert(p: Page, len: int) { p.DirectoryEnd() + SLOT_SIZE + len <= p.free }

  function Inserted(p: Page, meta: Meta, data: Bytes): Page
    requires |p.bytes| == PAGE_SIZE && CanInsert(p, |data|) && p.free <= PAGE_SIZE
  {
    Page(Written(p.bytes, p.free - |data|, data), p.slots + [Slot(p.free, |data|, |data|, meta)], p.free - |data|,
        p.deleted + (if meta.deleted then 1 else 0))
  }

  /** A slot whose tuple, metadata and capacity are what they were, wherever its region is. */
  predicate SlotKept(p: Page, q: Page, i: nat)
    requires PageOk(p) && PageOk(q)
  {
    i < |p.slots| && i < |q.slots| && Tuple(q, i) == Tuple(p, i) && q.slots[i].meta == p.slots[i].meta
        && q.slots[i].capacity == p.slots[i].capacity
  }

  predicate SlotHolds(p: Page, i: nat, meta: Meta, data: Bytes)
    requires PageOk(p)
  {
    i < |p.slots| && Tuple(p, i) == data && p.slots[i].meta == meta
  }

  /** No byte that the header and the directory of `q` take is written. */
  predicate DirectoryKept(p: Page, q: Page)
    requires |p.bytes| == |q.bytes| == PAGE_SIZE && q.DirectoryEnd() <= PAGE_SIZE
  {
    q.bytes[..q.DirectoryEnd()] == p.bytes[..q.DirectoryEnd()]
  }

  lemma InsertedTuple(p: Page, meta: Meta, data: Bytes, i: nat)
    requires PageOk(p) && CanInsert(p, |data|) && i < |p.slots|
    ensures Inserted(p, meta, data).slots[i] == p.slots[i] && Tuple(Inserted(p, meta, data), i) == Tuple(p, i)
  {
    WrittenElsewhere(p.bytes, p.free - |data|, data, p.slots[i].Start(), p.slots[i].Start() + p.slots[i].size);
  }

  lemma InsertedPage(p: Page, meta: Meta, data: Bytes)
    requires PageOk(p) && CanInsert(p, |data|)
    ensures PageOk(Inserted(p, meta, data))
  {
    assert Base.Init(Inserted(p, meta, data).slots) == p.slots;
  }

  /** An insert adds a slot and changes no other. */
  lemma InsertedOk(p: Page, meta: Meta, data: Bytes)
    requires PageOk(p) && CanInsert(p, |data|)
    ensures PageOk(Inserted(p, meta, data)) && SlotHolds(Inserted(p, meta, data), |p.slots|, meta, data)
    ensures forall i: nat :: i < |p.slots| ==> SlotKept(p, Inserted(p, meta, data), i)
    ensures DirectoryKept(p, Inserted(p, meta, data))
    ensures var q := Inserted(p, meta, data);
            q.slots[|p.slots|].capacity == |data| && q.free == p.free - |data| && |q.slots| == |p.slots| + 1
  {
    var q := Inserted(p, meta, data);
    InsertedPage(p, meta, data);
    forall i: nat | i < |p.slots| ensures SlotKept(p, q, i) { InsertedTuple(p, meta, data, i); }
    WrittenHere(p.bytes, p.free - |data|, data);
    WrittenElsewhere(p.bytes, p.free - |data|, data, 0, q.DirectoryEnd());
  }

  /** A page never has more slots than their count can say. */
  lemma FewSlots(p: Page)
    requires PageOk(p)
    ensures |p.slots| < 0xFFFF
  {}

  // ---------------------------------------------------------------- metadata

  lemma {:induction false} DeletedChanged(slots: seq<Slot>, i: nat, s: Slot)
    requires i < |slots|
    ensures DeletedCount(slots[i := s]) == DeletedCount(slots) - (if slots[i].meta.deleted then 1
            else 0) + (if s.meta.deleted then 1 else 0)
  {
    var init := Base.Init(slots);
    if i < |slots| - 1 {
      DeletedChanged(init, i, s);
      assert Base.Init(slots[i := s]) == init[i := s];
    } else {
      assert Base.Init(slots[i := s]) == init;
    }
  }

  lemma {:induction false} DeletedAtMost(slots: seq<Slot>)
    ensures DeletedCount(slots) <= |slots|
            && ((exists i :: 0 <= i < |slots| && slots[i].meta.deleted) ==> DeletedCount(slots) > 0)
  {
    if slots != [] {
      DeletedAtMost(Base.Init(slots));
      if Last(slots).meta.deleted {
      } else if i :| 0 <= i < |slots| && slots[i].meta.deleted {
        assert Base.Init(slots)[i].meta.deleted;
      }
    }
  }

  /** The deleted-tuple counter after a slot's metadata changes, unless that takes it out of its range. */
  function CounterAfter(deleted: int, was: bool, now: bool): Option<int> {
    if !was && now then (if deleted < 0xFFFF then Some(deleted + 1) else None)
    else if was && !now then (if deleted > 0 then Some(deleted - 1) else None)
    else Some(deleted)
  }

  /** The counter of a well-formed page never leaves its range. */
  lemma CounterInRange(p: Page, slot: nat, meta: Meta)
    requires PageOk(p) && slot < |p.slots|
    ensures CounterAfter(p.deleted, p.slots[slot].meta.deleted, meta.deleted) ==
            Some(DeletedCount(p.slots[slot := p.slots[slot].(meta := meta)]))
  {
    DeletedAtMost(p.slots);
    DeletedChanged(p.slots, slot, p.slots[slot].(meta := meta));
  }

  function MetaUpdated(p: Page, slot: nat, meta: Meta): Result<Page, Error> {
    if slot >= |p.slots| then Err(SlotMissing)
    else match CounterAfter(p.deleted, p.slots[slot].meta.deleted, meta.deleted)
      case None => Err(CorruptDeletedCounter)
      case Some(deleted) => Ok(p.(slots := p.slots[slot := p.slots[slot].(meta := meta)], deleted := deleted))
  }

  lemma MetaUpdatedOk(p: Page, slot: nat, meta: Meta)
    requires PageOk(p)
    ensures MetaUpdated(p, slot, meta).Ok? <==> slot < |p.slots|
    ensures slot >= |p.slots| ==> MetaUpdated(p, slot, meta) == Err(SlotMissing)
    ensures slot < |p.slots| ==>
              var q := MetaUpdated(p, slot, meta).value;
              PageOk(q) && SlotHolds(q, slot, meta, Tuple(p, slot)) && q.bytes == p.bytes && q.free == p.free
              && q.slots == p.slots[slot := p.slots[slot].(meta := meta)]
              && forall i: nat :: i < |p.slots| && i != slot ==> SlotKept(p, q, i)
  {
    if slot < |p.slots| { CounterInRange(p, slot, meta); }
  }

  // ---------------------------------------------------------------- a new region for a slot

  /** Well-formed apart from what slot `skip` owns. */
  predicate OkBut(p: Page, skip: nat) {
    && |p.bytes| == PAGE_SIZE && p.DirectoryEnd() <= p.free <= PAGE_SIZE && p.deleted == DeletedCount(p.slots)
    && skip < |p.slots|
    && (forall i :: 0 <= i < |p.slots| && i != skip ==> RegionOk(p.slots[i], p.free))
    && (forall i, j :: 0 <= i < j < |p.slots| && i != skip && j != skip ==> Apart(p.slots[i], p.slots[j]))
  }

  /** The slot with its tuple in a new region, taken from the free space. */
  function Relocated(p: Page, slot: nat, data: Bytes): Page
    requires slot < |p.slots| && |p.bytes| == PAGE_SIZE && |data| <= p.free <= PAGE_SIZE
  {
    var s := p.slots[slot].(offset := p.free, size := |data|, capacity := |data|);
    p.(bytes := Written(p.bytes, p.free - |data|, data), slots := p.slots[slot := s], free := p.free - |data|)
  }

  lemma RelocatedOk(p: Page, slot: nat, data: Bytes)
    requires OkBut(p, slot) && p.DirectoryEnd() + |data| <= p.free
    ensures PageOk(Relocated(p, slot, data)) && SlotHolds(Relocated(p, slot, data), slot, p.slots[slot].meta, data)
            && Relocated(p, slot, data).slots[slot].capacity == |data|
    ensures forall i: nat :: i < |p.slots| && i != slot ==>
                               var q := Relocated(p, slot, data);
                               q.slots[i] == p.slots[i] && Tuple(q, i) == Tuple(p, i)
  {
    var q := Relocated(p, slot, data);
    DeletedChanged(p.slots, slot, q.slots[slot]);
    WrittenHere(p.bytes, p.free - |data|, data);
    forall i: nat | i < |p.slots| && i != slot ensures q.slots[i] == p.slots[i] && Tuple(q, i) == Tuple(p, i) {
      WrittenElsewhere(p.bytes, p.free - |data|, data, p.slots[i].Start(), p.slots[i].Start() + p.slots[i].size);
    }
  }

  // ---------------------------------------------------------------- compaction

  /** Where the region of slot `n` ends when the slots before it are packed against the end of the page. */
  function PackedEnd(p: Page, skip: nat, n: nat): int
    requires n <= |p.slots|
  {
    PAGE_SIZE - Others(p.slots, skip, n)
  }

  function PackedSlot(p: Page, skip: nat, i: nat): Slot
    requires i < |p.slots|
  {
    if i == skip then p.slots[i].(offset := PackedEnd(p, skip, i), capacity := 0)
        else p.slots[i].(offset := PackedEnd(p, skip, i))
  }

  /** The directory with the first `n` slots packed. */
  function PackedSlots(p: Page, skip: nat, n: nat): (r: seq<Slot>)
    requires n <= |p.slots|
    ensures |r| == |p.slots|
            && forall i :: 0 <= i < |r| ==> r[i] == if i < n then PackedSlot(p, skip, i) else p.slots[i]
  {
    seq(|p.slots|, i requires 0 <= i < |p.slots| => if i < n then PackedSlot(p, skip, i) else p.slots[i])
  }

  lemma PackedFits(p: Page, skip: nat, n: nat)
    requires PageOk(p) && skip < |p.slots| && n <= |p.slots|
    ensures p.free <= PackedEnd(p, skip, n) <= PAGE_SIZE
    ensures n < |p.slots| && n != skip ==>
            PackedEnd(p, skip, n + 1) == PackedEnd(p, skip, n) - p.slots[n].capacity
            && p.free <= PackedEnd(p, skip, n + 1)
  {
    AvailableIsMost(p, skip);
    OthersGrow(p.slots, skip, n, |p.slots|);
    if n < |p.slots| { OthersGrow(p.slots, skip, n + 1, |p.slots|); }
  }

  /** The bytes once the regions of the first `n` slots are copied to their places. */
  function PackedBytes(p: Page, skip: nat, n: nat): (r: Bytes)
    requires PageOk(p) && skip < |p.slots| && n <= |p.slots|
    ensures |r| == PAGE_SIZE
  {
    if n == 0 then p.bytes
    else if n - 1 == skip then PackedBytes(p, skip, n - 1)
    else PackedFits(p, skip, n - 1); Written(PackedBytes(p, skip, n - 1), PackedEnd(p, skip, n), Region(p, n - 1))
  }

  lemma PackedLast(p: Page, skip: nat, n: nat)
    requires PageOk(p) && skip < |p.slots| && 0 < n <= |p.slots| && n - 1 != skip
    ensures 0 <= PackedEnd(p, skip, n) == PackedEnd(p, skip, n - 1) - |Region(p, n - 1)| <= PackedEnd(p, skip,
            n - 1) <= PAGE_SIZE
    ensures PackedBytes(p, skip, n) == Written(PackedBytes(p, skip, n - 1), PackedEnd(p, skip, n), Region(p, n - 1))
  {
    PackedFits(p, skip, n - 1);
  }

  lemma PackedHere(p: Page, skip: nat, n: nat)
    requires PageOk(p) && skip < |p.slots| && 0 < n <= |p.slots| && n - 1 != skip
    ensures 0 <= PackedEnd(p, skip, n) <= PackedEnd(p, skip, n - 1) <= PAGE_SIZE
    ensures PackedBytes(p, skip, n)[PackedEnd(p, skip, n)..PackedEnd(p, skip, n - 1)] == Region(p, n - 1)
  {
    PackedLast(p, skip, n);
    WrittenHere(PackedBytes(p, skip, n - 1), PackedEnd(p, skip, n), Region(p, n - 1));
  }

  /** What is packed already stays where it is. */
  lemma PackedStays(p: Page, skip: nat, n: nat, from: int, to: int)
    requires PageOk(p) && skip < |p.slots| && 0 < n <= |p.slots|
             && 0 <= PackedEnd(p, skip, n - 1) <= from <= to <= PAGE_SIZE
    ensures PackedBytes(p, skip, n)[from..to] == PackedBytes(p, skip, n - 1)[from..to]
  {
    if n - 1 != skip {
      PackedLast(p, skip, n);
      WrittenElsewhere(PackedBytes(p, skip, n - 1), PackedEnd(p, skip, n), Region(p, n - 1), from, to);
    }
  }

  /** Packing writes nothing below the tuple area. */
  lemma {:induction false} PackedAbove(p: Page, skip: nat, n: nat)
    requires PageOk(p) && skip < |p.slots| && n <= |p.slots|
    ensures PackedBytes(p, skip, n)[..p.free] == p.bytes[..p.free]
  {
    if n > 0 {
      PackedAbove(p, skip, n - 1);
      if n - 1 != skip {
        PackedLast(p, skip, n);
        PackedFits(p, skip, n);
        WrittenElsewhere(PackedBytes(p, skip, n - 1), PackedEnd(p, skip, n), Region(p, n - 1), 0, p.free);
      }
    }
  }

  /** Packing puts every region where its slot says. */
  lemma {:induction false} PackedRegion(p: Page, skip: nat, n: nat, j: nat, from: int, to: int)
    requires PageOk(p) && skip < |p.slots| && j < n <= |p.slots| && j != skip && from == PackedEnd(p, skip, j + 1)
             && to == PackedEnd(p, skip, j)
    ensures 0 <= from <= to <= PAGE_SIZE && PackedBytes(p, skip, n)[from..to] == Region(p, j)
    decreases n
  {
    if j == n - 1 {
      PackedHere(p, skip, n);
    } else {
      assert 0 <= from <= to <= PAGE_SIZE && PackedBytes(p, skip, n - 1)[from..to] == Region(p, j) by {
        PackedRegion(p, skip, n - 1, j, from, to);
      }
      assert 0 <= PackedEnd(p, skip, n - 1) <= from by { PackedBelow(p, skip, j + 1, n - 1); }
      PackedStays(p, skip, n, from, to);
    }
  }

  lemma PackedBelow(p: Page, skip: nat, m: nat, n: nat)
    requires PageOk(p) && skip < |p.slots| && m <= n <= |p.slots|
    ensures 0 <= PackedEnd(p, skip, n) <= PackedEnd(p, skip, m)
  {
    PackedFits(p, skip, n);
    OthersGrow(p.slots, skip, m, n);
  }

  function Compacted(p: Page, skip: nat): Page
    requires PageOk(p) && skip < |p.slots|
  {
    var n := |p.slots|;
    p.(bytes := PackedBytes(p, skip, n), slots := PackedSlots(p, skip, n), free := PackedEnd(p, skip, n))
  }

  lemma {:induction false} SameDeleted(a: seq<Slot>, b: seq<Slot>)
    requires |a| == |b| && forall i :: 0 <= i < |a| ==> a[i].meta == b[i].meta
    ensures DeletedCount(a) == DeletedCount(b)
  {
    if a != [] { SameDeleted(Base.Init(a), Base.Init(b)); }
  }

  lemma PackedPlace(p: Page, skip: nat, i: nat)
    requires PageOk(p) && skip < |p.slots| && i < |p.slots| && i != skip
    ensures var s := PackedSlot(p, skip, i);
            RegionOk(s, PackedEnd(p, skip, |p.slots|)) && s.Start() == PackedEnd(p, skip, i + 1)
            && RegionOk(p.slots[i], 0)
    ensures p.free <= PackedEnd(p, skip, |p.slots|)
  {
    PackedFits(p, skip, i);
    PackedFits(p, skip, |p.slots|);
    OthersGrow(p.slots, skip, i + 1, |p.slots|);
  }

  /** A tuple is the beginning of its region. */
  lemma TupleOfRegion(p: Page, q: Page, i: nat)
    requires i < |p.slots| && i < |q.slots| && |p.bytes| == |q.bytes| == PAGE_SIZE && RegionOk(p.slots[i], 0)
             && RegionOk(q.slots[i], 0)
    requires p.slots[i].size == q.slots[i].size && Region(p, i) == Region(q, i)
    ensures Tuple(p, i) == Tuple(q, i)
  {
    Prefix(p.bytes, p.slots[i].Start(), p.slots[i].offset, p.slots[i].size);
    Prefix(q.bytes, q.slots[i].Start(), q.slots[i].offset, q.slots[i].size);
  }

  lemma Prefix(b: Bytes, from: int, to: int, k: int)
    requires 0 <= from <= to <= |b| && 0 <= k <= to - from
    ensures b[from..from + k] == b[from..to][..k]
  {}

  lemma PackedTuple(p: Page, skip: nat, i: nat)
    requires PageOk(p) && skip < |p.slots| && i < |p.slots| && i != skip
    ensures RegionOk(Compacted(p, skip).slots[i], 0) && Tuple(Compacted(p, skip), i) == Tuple(p, i)
  {
    PackedPlace(p, skip, i);
    PackedRegion(p, skip, |p.slots|, i, PackedEnd(p, skip, i + 1), PackedEnd(p, skip, i));
    TupleOfRegion(p, Compacted(p, skip), i);
  }

  lemma CompactedRegions(p: Page, skip: nat)
    requires PageOk(p) && skip < |p.slots|
    ensures OkBut(Compacted(p, skip), skip)
  {
    var q, n := Compacted(p, skip), |p.slots|;
    SameDeleted(p.slots, q.slots);
    PackedFits(p, skip, n);
    forall i: nat | i < n && i != skip ensures RegionOk(q.slots[i], q.free) { PackedPlace(p, skip, i); }
    forall i, j | 0 <= i < j < n && i != skip && j != skip ensures Apart(q.slots[i], q.slots[j]) {
      PackedApart(p, skip, i, j);
    }
  }

  /** Packing keeps every other tuple, and leaves all the room there is. */
  lemma CompactedOk(p: Page, skip: nat)
    requires PageOk(p) && skip < |p.slots|
    ensures var q := Compacted(p, skip);
            && OkBut(q, skip) && q.free - q.DirectoryEnd() == Available(p, skip)
            && q.slots[skip].meta == p.slots[skip].meta
            && forall i: nat :: i < |p.slots| && i != skip ==>
                q.slots[i] == PackedSlot(p, skip, i) && Tuple(q, i) == Tuple(p, i)
  {
    CompactedRegions(p, skip);
    forall i: nat | i < |p.slots| && i != skip ensures Tuple(Compacted(p, skip), i) == Tuple(p, i) {
      PackedTuple(p, skip, i);
    }
  }

  lemma PackedApart(p: Page, skip: nat, i: nat, j: nat)
    requires PageOk(p) && skip < |p.slots| && i < j < |p.slots| && i != skip && j != skip
    ensures Apart(PackedSlot(p, skip, i), PackedSlot(p, skip, j))
  {
    PackedFits(p, skip, i);
    OthersGrow(p.slots, skip, i + 1, j);
  }

  // ---------------------------------------------------------------- updating

  const MAX_TUPLE_SIZE: int := PAGE_SIZE - HEADER_SIZE - SLOT_SIZE

  datatype Placement = InPlace | Free | AfterCompaction

  /** Where an update of a slot to `len` bytes goes. */
  function Place(p: Page, slot: nat, len: int): Option<Placement>
    requires slot < |p.slots|
  {
    if len <= p.slots[slot].capacity then Some(InPlace)
    else if len <= p.FreeBytes() then Some(Free)
    else if len <= Available(p, slot) then Some(AfterCompaction)
    else None
  }

  /** The tuple over the old one, inside the slot's region. */
  function Overwritten(p: Page, slot: nat, data: Bytes): Page
    requires slot < |p.slots| && |p.bytes| == PAGE_SIZE && RegionOk(p.slots[slot], 0)
             && |data| <= p.slots[slot].capacity
  {
    p.(bytes := Written(p.bytes, p.slots[slot].Start(), data), slots := p.slots[slot := p.slots[slot].(size := |data|)])
  }

  function Updated(p: Page, slot: nat, meta: Meta, data: Bytes): Result<Page, Error>
    requires PageOk(p)
  {
    if slot >= |p.slots| then Err(SlotMissing)
    else if |data| > MAX_TUPLE_SIZE then Err(DoesNotFit)
    else if Place(p, slot, |data|).None? then Err(UpdateDoesNotFit)
    else
      MetaUpdatedOk(p, slot, meta);
      var q := MetaUpdated(p, slot, meta).value;
      match Place(p, slot, |data|).value
      case InPlace => Ok(Overwritten(q, slot, data))
      case Free => Ok(Relocated(q, slot, data))
      case AfterCompaction =>
          CompactedOk(q, slot); SameOthers(p, q, slot); Ok(Relocated(Compacted(q, slot), slot, data))
  }

  lemma {:induction false} OthersSame(a: seq<Slot>, b: seq<Slot>, skip: nat, n: nat)
    requires |a| == |b| && n <= |a| && forall i :: 0 <= i < n && i != skip ==> a[i].capacity == b[i].capacity
    ensures Others(a, skip, n) == Others(b, skip, n)
  {
    if n > 0 { OthersSame(a, b, skip, n - 1); }
  }

  lemma SameOthers(p: Page, q: Page, slot: nat)
    requires slot < |p.slots| && |q.slots| == |p.slots| && forall i :: 0 <= i < |p.slots| && i != slot ==>
             q.slots[i].capacity == p.slots[i].capacity
    ensures Available(q, slot) == Available(p, slot)
  {
    OthersSame(p.slots, q.slots, slot, |p.slots|);
  }

  lemma OverwrittenTuple(p: Page, slot: nat, data: Bytes, i: nat)
    requires PageOk(p) && slot < |p.slots| && |data| <= p.slots[slot].capacity && i < |p.slots| && i != slot
    ensures Overwritten(p, slot, data).slots[i] == p.slots[i] && Tuple(Overwritten(p, slot, data), i) == Tuple(p, i)
  {
    assert Apart(p.slots[if i < slot then i else slot], p.slots[if i < slot then slot else i]);
    WrittenElsewhere(p.bytes, p.slots[slot].Start(), data, p.slots[i].Start(), p.slots[i].Start() + p.slots[i].size);
  }

  lemma OverwrittenPage(p: Page, slot: nat, data: Bytes)
    requires PageOk(p) && slot < |p.slots| && |data| <= p.slots[slot].capacity
    ensures PageOk(Overwritten(p, slot, data))
  {
    var q := Overwritten(p, slot, data);
    DeletedChanged(p.slots, slot, q.slots[slot]);
    forall i, j | 0 <= i < j < |q.slots| ensures Apart(q.slots[i], q.slots[j]) { assert Apart(p.slots[i], p.slots[j]); }
  }

  lemma OverwrittenOk(p: Page, slot: nat, data: Bytes)
    requires PageOk(p) && slot < |p.slots| && |data| <= p.slots[slot].capacity
    ensures UpdateKept(p, Overwritten(p, slot, data), slot, p.slots[slot].meta, data)
  {
    var q, at := Overwritten(p, slot, data), p.slots[slot].Start();
    OverwrittenPage(p, slot, data);
    WrittenHere(p.bytes, at, data);
    WrittenElsewhere(p.bytes, at, data, 0, p.DirectoryEnd());
    forall i: nat | i < |p.slots| && i != slot ensures SlotKept(p, q, i) { OverwrittenTuple(p, slot, data, i); }
  }

  /** What an update promises of the page it makes: the slot has the new tuple and no less room than
      before, no other slot changed, and no tuple was written over the directory. */
  predicate UpdateKept(p: Page, q: Page, slot: nat, meta: Meta, data: Bytes)
    requires PageOk(p)
  {
    && PageOk(q) && |q.slots| == |p.slots| && SlotHolds(q, slot, meta, data) && DirectoryKept(p, q)
    && slot < |p.slots|
    && q.slots[slot].capacity == (if |data| <= p.slots[slot].capacity then p.slots[slot].capacity else |data|)
    && forall i: nat :: i < |p.slots| && i != slot ==> SlotKept(p, q, i)
  }

  lemma CompactedUpdate(p: Page, slot: nat, data: Bytes)
    requires PageOk(p) && slot < |p.slots| && p.slots[slot].capacity < |data| <= Available(p, slot)
    ensures OkBut(Compacted(p, slot), slot) && Compacted(p, slot).free >= |data|
            && Compacted(p, slot).free == p.DirectoryEnd() + Available(p, slot)
            && |Compacted(p, slot).bytes| == PAGE_SIZE && Compacted(p, slot).free <= PAGE_SIZE
    ensures UpdateKept(p, Relocated(Compacted(p, slot), slot, data), slot, p.slots[slot].meta, data)
  {
    CompactedOk(p, slot);
    RelocatedOk(Compacted(p, slot), slot, data);
    assert Compacted(p, slot).bytes[..p.free] == p.bytes[..p.free] by { PackedAbove(p, slot, |p.slots|); }
    RelocatedAbove(p, Compacted(p, slot), slot, data);
  }

  lemma RelocatedAbove(p: Page, c: Page, slot: nat, data: Bytes)
    requires |p.bytes| == |c.bytes| == PAGE_SIZE && slot < |c.slots| == |p.slots|
             && p.DirectoryEnd() <= p.free <= PAGE_SIZE
    requires p.DirectoryEnd() + |data| <= c.free <= PAGE_SIZE && c.bytes[..p.free] == p.bytes[..p.free]
    ensures DirectoryKept(p, Relocated(c, slot, data))
  {
    WrittenAbove(p.bytes, c.bytes, c.free - |data|, data, p.DirectoryEnd(), p.free);
  }

  lemma FreeUpdate(p: Page, slot: nat, data: Bytes)
    requires PageOk(p) && slot < |p.slots| && p.slots[slot].capacity < |data| <= p.FreeBytes()
    ensures UpdateKept(p, Relocated(p, slot, data), slot, p.slots[slot].meta, data)
  {
    RelocatedOk(p, slot, data);
    WrittenElsewhere(p.bytes, p.free - |data|, data, 0, p.DirectoryEnd());
  }

  /** A slot's metadata written first makes no difference to the others. */
  lemma KeptThrough(p: Page, q: Page, r: Page, slot: nat, meta: Meta, data: Bytes)
    requires PageOk(p) && PageOk(q) && slot < |p.slots| && q.slots == p.slots[slot := p.slots[slot].(meta := meta)]
             && q.bytes == p.bytes
    requires UpdateKept(q, r, slot, meta, data)
    ensures UpdateKept(p, r, slot, meta, data)
  {
    forall i: nat | i < |p.slots| && i != slot ensures SlotKept(p, r, i) {
      assert SlotKept(q, r, i);
    }
  }

  /** What an update that has a place makes of the page. */
  lemma PlacedOk(p: Page, slot: nat, meta: Meta, data: Bytes)
    requires PageOk(p) && slot < |p.slots| && |data| <= MAX_TUPLE_SIZE && Place(p, slot, |data|).Some?
    ensures Updated(p, slot, meta, data).Ok? && UpdateKept(p, Updated(p, slot, meta, data).value, slot, meta, data)
    ensures Updated(p, slot, meta, data).value.free == FreeAfter(p, slot, |data|)
  {
    MetaUpdatedOk(p, slot, meta);
    var q := MetaUpdated(p, slot, meta).value;
    SameOthers(p, q, slot);
    match Place(p, slot, |data|).value {
      case InPlace => OverwrittenOk(q, slot, data);
      case Free => FreeUpdate(q, slot, data);
      case AfterCompaction => CompactedUpdate(q, slot, data);
    }
    KeptThrough(p, q, Updated(p, slot, meta, data).value, slot, meta, data);
  }

  /** Where the free space ends after an update: an update in place takes none of it, and one that packs the page
      leaves it all the page has left. */
  function FreeAfter(p: Page, slot: nat, len: int): int
    requires slot < |p.slots|
  {
    if len <= p.slots[slot].capacity then p.free
    else if len <= p.FreeBytes() then p.free - len
    else p.DirectoryEnd() + Available(p, slot) - len
  }

  /** The room an update has is all there can be: a page with as many slots, as much room for every other slot and
      `len` bytes for this one exists only if that is within it. */
  lemma RoomIsExact(p: Page, slot: nat, q: Page)
    requires PageOk(p) && PageOk(q) && slot < |p.slots| == |q.slots|
    requires forall i: nat :: i < |p.slots| && i != slot ==> q.slots[i].capacity == p.slots[i].capacity
    ensures q.slots[slot].capacity <= Available(p, slot)
  {
    AvailableIsMost(q, slot);
    SameOthers(p, q, slot);
  }

  /** An update fails only for a missing slot or a tuple there is no room for, even after
      compaction; else it changes its slot alone. */
  lemma UpdatedOk(p: Page, slot: nat, meta: Meta, data: Bytes)
    requires PageOk(p)
    ensures var r := Updated(p, slot, meta, data);
            && (r == Err(SlotMissing) <==> slot >= |p.slots|)
            && (r == Err(DoesNotFit) <==> slot < |p.slots| && |data| > MAX_TUPLE_SIZE)
            && (r == Err(UpdateDoesNotFit) <==>
                slot < |p.slots| && |data| <= MAX_TUPLE_SIZE && |data| > Available(p, slot))
            && (r.Ok? <==> slot < |p.slots| && |data| <= MAX_TUPLE_SIZE && |data| <= Available(p, slot))
            && (r.Ok? ==> UpdateKept(p, r.value, slot, meta, data) && r.value.free == FreeAfter(p, slot, |data|))
  {
    if slot < |p.slots| {
      AvailableIsMost(p, slot);
      if |data| <= MAX_TUPLE_SIZE && |data| <= Available(p, slot) { PlacedOk(p, slot, meta, data); }
    }
  }

  // ---------------------------------------------------------------- runs

  datatype Op = Insert(meta: Meta, data: Bytes) | Update(slot: nat, meta: Meta, data: Bytes) | UpdateMeta(slot: nat,
      meta: Meta)

  /** The page after an operation; one that fails leaves it alone. */
  function Applied(p: Page, op: Op): Page
    requires PageOk(p)
  {
    match op
    case Insert(meta, data) => if CanInsert(p, |data|) then Inserted(p, meta, data) else p
    case Update(slot, meta, data) => if Updated(p, slot, meta, data).Ok? then Updated(p, slot, meta, data).value else p
    case UpdateMeta(slot, meta) => if MetaUpdated(p, slot, meta).Ok? then MetaUpdated(p, slot, meta).value else p
  }

  lemma AppliedOk(p: Page, op: Op)
    requires PageOk(p)
    ensures PageOk(Applied(p, op)) && |Applied(p, op).slots| >= |p.slots|
    ensures forall i: nat :: i < |p.slots| ==> Applied(p, op).slots[i].capacity >= p.slots[i].capacity
  {
    match op
    case Insert(meta, data) => if CanInsert(p, |data|) { InsertedOk(p, meta, data); }
    case Update(slot, meta, data) =>
      UpdatedOk(p, slot, meta, data);
      forall i: nat | i < |p.slots| ensures Applied(p, op).slots[i].capacity >= p.slots[i].capacity {
        if Updated(p, slot, meta, data).Ok? && i != slot { assert SlotKept(p, Applied(p, op), i); }
      }
    case UpdateMeta(slot, meta) => MetaUpdatedOk(p, slot, meta);
  }

  ghost predicate Reaches(p: Page, ops: seq<Op>, q: Page)
    requires PageOk(p)
    decreases |ops|
  {
    if ops == [] then q == p else AppliedOk(p, ops[0]); Reaches(Applied(p, ops[0]), ops[1..], q)
  }

  /** Over any run the page stays well-formed, and a slot's capacity never shrinks. */
  lemma {:induction false} CapacityNeverShrinks(p: Page, ops: seq<Op>, q: Page)
    requires PageOk(p) && Reaches(p, ops, q)
    ensures PageOk(q) && |q.slots| >= |p.slots|
            && forall i: nat :: i < |p.slots| ==> q.slots[i].capacity >= p.slots[i].capacity
    decreases |ops|
  {
    if ops != [] {
      AppliedOk(p, ops[0]);
      CapacityNeverShrinks(Applied(p, ops[0]), ops[1..], q);
    }
  }

  /** An earlier image of a slot's tuple can always be written back, as an abort does. */
  lemma EarlierImageFits(p: Page, ops: seq<Op>, q: Page, slot: nat, meta: Meta)
    requires PageOk(p) && Reaches(p, ops, q) && slot < |p.slots|
    ensures PageOk(q) && Updated(q, slot, meta, Tuple(p, slot)).Ok?
            && UpdateKept(q, Updated(q, slot, meta, Tuple(p, slot)).value, slot, meta, Tuple(p, slot))
  {
    CapacityNeverShrinks(p, ops, q);
    AvailableIsMost(q, slot);
    UpdatedOk(q, slot, meta, Tuple(p, slot));
  }

  // ---------------------------------------------------------------- the page in its buffer

  class SlottedPage {
    const buf: array<byte>
    var slots: seq<Slot>
    var free: int
    var deleted: int

    function State(): Page
      reads this, buf
    {
      Page(buf[..], slots, free, deleted)
    }

    ghost predicate Valid()
      reads this, buf
    {
      PageOk(State())
    }

    /** Formats a buffer as an empty page, and leaves its bytes alone. */
    constructor (buf: array<byte>)
      requires buf.Length == PAGE_SIZE
      ensures Valid() && this.buf == buf && slots == [] && buf[..] == old(buf[..])
    {
      this.buf, slots, free, deleted := buf, [], PAGE_SIZE, 0;
    }

    method WriteBytes(at: int, data: Bytes)
      requires 0 <= at && at + |data| <= buf.Length
      modifies buf
      ensures buf[..] == Written(old(buf[..]), at, data)
    {
      forall i | 0 <= i < |data| {
        buf[at + i] := data[i];
      }
      assert forall i :: 0 <= i < buf.Length ==> buf[i] == Written(old(buf[..]), at, data)[i];
    }

    method InsertTuple(meta: Meta, data: Bytes) returns (r: Result<nat, Error>)
      requires Valid()
      modifies this, buf
      ensures Valid()
      ensures r == if HEADER_SIZE + SLOT_SIZE * (|old(slots)| + 1) + |data| <= old(free) then Ok(|old(slots)|)
              else Err(DoesNotFit)
      ensures State() == if r.Ok? then Inserted(old(State()), meta, data) else old(State())
    {
      if !CanInsert(State(), |data|) {
        return Err(DoesNotFit);
      }
      InsertedOk(State(), meta, data);
      FewSlots(State());
      if |slots| >= 0xFFFF {
        return Err(SlotCountOverflow);
      }
      r := Ok(|slots|);
      WriteBytes(free - |data|, data);
      slots := slots + [Slot(free, |data|, |data|, meta)];
      deleted := deleted + if meta.deleted then 1 else 0;
      free := free - |data|;
    }

    /** Changes a slot's metadata; the counter check never fails on a well-formed page. */
    method SetMeta(slot: nat, meta: Meta) returns (r: Result<(), Error>)
      requires Valid()
      modifies this
      ensures Valid()
      ensures r == if slot < |old(slots)| then Ok(()) else Err(SlotMissing)
      ensures r.Ok? ==> Ok(State()) == MetaUpdated(old(State()), slot, meta)
      ensures r.Err? ==> State() == old(State())
    {
      MetaUpdatedOk(State(), slot, meta);
      var p := MetaUpdated(State(), slot, meta);
      if p.Err? {
        return Err(p.error);
      }
      slots, deleted := p.value.slots, p.value.deleted;
      return Ok(());
    }

    method MarkDeleted(slot: nat) returns (r: Result<(), Error>)
      requires Valid()
      modifies this
      ensures Valid()
      ensures r == if slot >= |old(slots)| then Err(SlotMissing) else if old(slots)[slot].meta.deleted
              then Err(AlreadyDeleted) else Ok(())
      ensures if r.Ok? then Ok(State()) == MetaUpdated(old(State()), slot, Meta(old(slots)[slot].meta.ts, true))
              else State() == old(State())
    {
      MetaUpdatedOk(State(), slot, Meta(0, true));
      if slot >= |slots| {
        return Err(SlotMissing);
      }
      if slots[slot].meta.deleted {
        return Err(AlreadyDeleted);
      }
      r := SetMeta(slot, Meta(slots[slot].meta.ts, true));
    }

    /** The first `i` slots are packed, down to `end`. */
    ghost predicate Packing(p: Page, skip: nat, i: nat, end: int)
      reads this, buf
    {
      && PageOk(p) && skip < |p.slots| && i <= |p.slots| && end == PackedEnd(p, skip, i)
      && slots == PackedSlots(p, skip, i) && buf[..] == PackedBytes(p, skip, i) && free == p.free
      && deleted == p.deleted
    }

    /** Copies the region of slot `i` to where it is packed. */
    method PackSlot(skip: nat, i: nat, end: int, capacity: int, region: Bytes, ghost p: Page) returns (end': int)
      requires Packing(p, skip, i, end) && i < |p.slots| && capacity == p.slots[i].capacity && region == Region(p, i)
      modifies this`slots, buf
      ensures Packing(p, skip, i + 1, end')
    {
      PackedStep(p, skip, i);
      end' := end;
      if i == skip {
        slots := slots[i := slots[i].(offset := end, capacity := 0)];
      } else {
        PackedLast(p, skip, i + 1);
        WriteBytes(end - capacity, region);
        slots, end' := slots[i := slots[i].(offset := end)], end - capacity;
      }
    }

    method PackAll(skip: nat, was: seq<Slot>, regions: seq<Bytes>, ghost p: Page) returns (end: int)
      requires Packing(p, skip, 0, PAGE_SIZE) && was == p.slots && regions == Regions(p)
      modifies this`slots, buf
      ensures Packing(p, skip, |was|, end)
    {
      end := PAGE_SIZE;
      var i := 0;
      while i < |was|
        invariant 0 <= i <= |was| && Packing(p, skip, i, end)
      {
        end := PackSlot(skip, i, end, was[i].capacity, regions[i], p);
        i := i + 1;
      }
    }

    /** Packs every region but that of `skip` against the end of the page, from copies of the regions. */
    method CompactWithout(skip: nat)
      requires Valid() && skip < |slots|
      modifies this, buf
      ensures State() == Compacted(old(State()), skip)
    {
      ghost var p := State();
      assert PackedSlots(p, skip, 0) == slots;
      free := PackAll(skip, slots, Regions(State()), p);
      IsCompacted(p, skip, State());
    }

    method Overwrite(slot: nat, data: Bytes)
      requires Valid() && slot < |slots| && |data| <= slots[slot].capacity
      modifies this`slots, buf
      ensures State() == Overwritten(old(State()), slot, data)
    {
      WriteBytes(slots[slot].Start(), data);
      slots := slots[slot := slots[slot].(size := |data|)];
    }

    method MoveToFree(slot: nat, data: Bytes)
      requires buf.Length == PAGE_SIZE && slot < |slots| && |data| <= free <= PAGE_SIZE
      modifies this, buf
      ensures State() == Relocated(old(State()), slot, data)
    {
      WriteBytes(free - |data|, data);
      slots := slots[slot := slots[slot].(offset := free, size := |data|, capacity := |data|)];
      free := free - |data|;
    }

    /** Overwrites a slot's tuple and metadata; a tuple too large for the slot's region gets a new one. */
    method UpdateInPlace(slot: nat, meta: Meta, data: Bytes) returns (r: Result<(), Error>)
      requires Valid()
      modifies this, buf
      ensures Valid()
      ensures r == if slot >= |old(slots)| then Err(SlotMissing)
              else if |data| > MAX_TUPLE_SIZE then Err(DoesNotFit)
              else if |data| > Available(old(State()), slot) then Err(UpdateDoesNotFit) else Ok(())
      ensures if r.Ok?
              then Ok(State()) == Updated(old(State()), slot, meta, data) && UpdateKept(old(State()), State(), slot,
              meta, data) else State() == old(State())
    {
      ghost var p := State();
      UpdatedOk(p, slot, meta, data);
      if slot >= |slots| {
        return Err(SlotMissing);
      }
      if |data| > MAX_TUPLE_SIZE {
        return Err(DoesNotFit);
      }
      var placement := Place(State(), slot, |data|);
      if placement.None? {
        return Err(UpdateDoesNotFit);
      }
      MetaUpdatedOk(p, slot, meta);
      var written := SetMeta(slot, meta);
      if placement.value == InPlace {
        Overwrite(slot, data);
      } else {
        if placement.value == AfterCompaction {
          SameOthers(p, State(), slot);
          CompactedUpdate(State(), slot, data);
          CompactWithout(slot);
        }
        MoveToFree(slot, data);
      }
      return Ok(());
    }
  }

  lemma IsCompacted(p: Page, skip: nat, q: Page)
    requires PageOk(p) && skip < |p.slots| && q.slots == PackedSlots(p, skip, |p.slots|)
             && q.bytes == PackedBytes(p, skip, |p.slots|)
    requires q.free == PackedEnd(p, skip, |p.slots|) && q.deleted == p.deleted
    ensures q == Compacted(p, skip)
  {}

  function Regions(p: Page): (r: seq<Bytes>)
    requires PageOk(p)
    ensures |r| == |p.slots| && forall i :: 0 <= i < |r| ==> r[i] == Region(p, i)
  {
    seq(|p.slots|, i requires 0 <= i < |p.slots| => Region(p, i))
  }

  lemma PackedStep(p: Page, skip: nat, i: nat)
    requires PageOk(p) && skip < |p.slots| && i < |p.slots|
    ensures PackedSlots(p, skip, i)[i := PackedSlot(p, skip, i)] == PackedSlots(p, skip, i + 1)
    ensures PackedSlots(p, skip, i)[i] == p.slots[i]
  {}
}
