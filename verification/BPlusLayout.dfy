/** The byte thresholds of B+ tree pages: what an entry costs, how full pages must be, where a page
    splits, and why both halves of a split and the page a merge makes always fit. */
module BPlusLayout {
  import opened Base

  const MIN_ENTRIES_PER_PAGE := 4
  const INTERNAL_CAPACITY := PAGE_SIZE - 24

  type Key = Bytes

  /** A strict order of the keys; the tree asks nothing else of them. */
  type Order = (Key, Key) -> bool

  ghost predicate TotalOrder(before: Order) {
    && (forall a :: !before(a, a))
    && (forall a, b :: before(a, b) || before(b, a) || a == b)
    && (forall a, b, c :: before(a, b) && before(b, c) ==> before(a, c))
  }

  datatype Layout = Layout(maxKeyLen: nat, tombstoneCapacity: nat, before: Order)
  {
    function LeafCapacity(): int { PAGE_SIZE - 28 - 4 * tombstoneCapacity }

    function LeafMax(): nat { LeafCost(maxKeyLen) }

    function InternalMax(): nat { InternalCost(maxKeyLen) }

    function LeafMin(): int { (LeafCapacity() - LeafMax()) / 2 }

    function InternalMin(): int { (INTERNAL_CAPACITY - 2 * InternalMax()) / 2 }

    /** The layouts `build` accepts: tombstones that leave room, and keys that fit four to a page. */
    predicate Valid() {
      && maxKeyLen > 0 && LeafCapacity() > 0
      && maxKeyLen + LeafCost(0) <= LeafCapacity() / MIN_ENTRIES_PER_PAGE
      && maxKeyLen + InternalCost(0) <= INTERNAL_CAPACITY / MIN_ENTRIES_PER_PAGE
    }
  }

  /** Bytes of an entry: its slot, its key and its record id or child. */
  function LeafCost(keyLen: nat): nat { 2 + keyLen + 16 }

  function InternalCost(keyLen: nat): nat { 2 + keyLen + 8 }

  // ---------------------------------------------------------------- sums

  function Sum(costs: seq<nat>): nat {
    if costs == [] then 0 else Sum(Base.Init(costs)) + Last(costs)
  }

  lemma {:induction false} SumAppend(a: seq<nat>, b: seq<nat>)
    ensures Sum(a + b) == Sum(a) + Sum(b)
  {
    if b == [] {
      assert a + b == a;
    } else {
      assert Base.Init(a + b) == a + Base.Init(b);
      SumAppend(a, Base.Init(b));
    }
  }

  lemma SumNext(costs: seq<nat>, n: nat)
    requires n < |costs|
    ensures Sum(costs[..n + 1]) == Sum(costs[..n]) + costs[n]
  {
    assert Base.Init(costs[..n + 1]) == costs[..n];
  }

  lemma SumWhole(costs: seq<nat>, n: nat)
    requires n <= |costs|
    ensures Sum(costs) == Sum(costs[..n]) + Sum(costs[n..])
  {
    Halves(costs, n);
    SumAppend(costs[..n], costs[n..]);
  }

  lemma Halves<T>(s: seq<T>, n: nat)
    requires n <= |s|
    ensures s[..n] + s[n..] == s
  {}

  // ---------------------------------------------------------------- where to split

  /** The bytes left and right of a split before entry `s`; with `drop`, entry `s` goes to neither side. */
  function LeftBytes(costs: seq<nat>, s: nat): nat
    requires s < |costs|
  {
    Sum(costs[..s])
  }

  function RightBytes(costs: seq<nat>, drop: bool, s: nat): int
    requires s < |costs|
  {
    Sum(costs) - Sum(costs[..s]) - if drop then costs[s] else 0
  }

  function Gap(costs: seq<nat>, drop: bool, s: nat): nat
    requires s < |costs|
  {
    var d := LeftBytes(costs, s) - RightBytes(costs, drop, s);
    if d < 0 then -d else d
  }

  /** The first split before entry `n` with the least gap. */
  function Best(costs: seq<nat>, drop: bool, n: nat): (s: nat)
    requires 2 <= n <= |costs|
    ensures 1 <= s < n
    ensures forall j :: 1 <= j < n ==> Gap(costs, drop, s) <= Gap(costs, drop, j)
    ensures forall j :: 1 <= j < s ==> Gap(costs, drop, s) < Gap(costs, drop, j)
  {
    if n == 2 then 1
    else
      var b := Best(costs, drop, n - 1);
      if Gap(costs, drop, n - 1) < Gap(costs, drop, b) then n - 1 else b
  }

  lemma GapIs(costs: seq<nat>, drop: bool, s: nat, left: int, right: int)
    requires s < |costs| && left == Sum(costs[..s]) && right == Sum(costs) - left - if drop then costs[s] else 0
    ensures Gap(costs, drop, s) == if left < right then right - left else left - right
  {}

  method BalancedSplit(costs: seq<nat>, drop: bool) returns (split: nat)
    requires |costs| >= 2
    ensures split == Best(costs, drop, |costs|)
  {
    var total: int := Sum(costs);
    split := 1;
    var best := None;
    var left: int := 0;
    for s := 0 to |costs|
      invariant left == Sum(costs[..s])
      invariant split == if s < 2 then 1 else Best(costs, drop, s)
      invariant best == if s < 2 then None else Some(Gap(costs, drop, split))
    {
      var right := total - left - if drop then costs[s] else 0;
      if s > 0 {
        var gap := if left < right then right - left else left - right;
        GapIs(costs, drop, s, left, right);
        if best.None? || gap < best.value {
          best, split := Some(gap), s;
        }
      }
      SumNext(costs, s);
      left := left + costs[s];
    }
  }

  // ---------------------------------------------------------------- the least gap is small

  predicate AllAtMost(costs: seq<nat>, m: nat) { forall i :: 0 <= i < |costs| ==> costs[i] <= m }

  /** Twice the bytes left of the cut; with `drop` the cut runs through the middle of entry `s`. */
  function Doubled(costs: seq<nat>, drop: bool, s: nat): nat
    requires s < |costs|
  {
    2 * Sum(costs[..s]) + if drop then costs[s] else 0
  }

  lemma GapIsDistance(costs: seq<nat>, drop: bool, s: nat)
    requires s < |costs|
    ensures var d := Doubled(costs, drop, s) - Sum(costs); Gap(costs, drop, s) == if d < 0 then -d else d
  {}

  lemma DoubledSteps(costs: seq<nat>, drop: bool, s: nat, m: nat)
    requires s + 1 < |costs| && AllAtMost(costs, m)
    ensures Doubled(costs, drop, s) <= Doubled(costs, drop, s + 1) <= Doubled(costs, drop, s) + 2 * m
  {
    SumNext(costs, s);
  }

  /** Where the doubled bytes first reach the total, one of the two cuts there is within `m`. */
  lemma {:induction false} CrossingFrom(costs: seq<nat>, drop: bool, s: nat, m: nat) returns (cut: nat)
    requires 1 <= s < |costs| && AllAtMost(costs, m) && Doubled(costs, drop, s) < Sum(costs)
    requires Sum(costs) <= Doubled(costs, drop, |costs| - 1)
    ensures s <= cut < |costs| && Gap(costs, drop, cut) <= m
    decreases |costs| - s
  {
    DoubledSteps(costs, drop, s, m);
    GapIsDistance(costs, drop, s);
    GapIsDistance(costs, drop, s + 1);
    if Doubled(costs, drop, s + 1) < Sum(costs) {
      cut := CrossingFrom(costs, drop, s + 1, m);
    } else {
      cut := if Gap(costs, drop, s) <= m then s else s + 1;
    }
  }

  /** A page of entries of at most `m` bytes, with more than four of them to hold, splits with a gap
      of at most `m`. */
  lemma LeastGap(costs: seq<nat>, drop: bool, m: nat)
    requires AllAtMost(costs, m) && Sum(costs) > 4 * m
    ensures |costs| >= 4 && Gap(costs, drop, Best(costs, drop, |costs|)) <= m
  {
    AtLeast(costs, m);
    SumNext(costs, 0);
    var n := |costs|;
    assert costs[..n] == costs;
    SumNext(costs, n - 1);
    var cut := CrossingFrom(costs, drop, 1, m);
  }

  lemma {:induction false} AtLeast(costs: seq<nat>, m: nat)
    requires AllAtMost(costs, m)
    ensures Sum(costs) <= |costs| * m
  {
    if costs != [] {
      AtLeast(Base.Init(costs), m);
      assert |costs| * m == (|costs| - 1) * m + m;
    }
  }

  /** Splitting a page overfull by one entry: both halves within one page and at least minimally
      full. With `drop` the middle entry goes up, and neither side is empty. */
  lemma SplitFits(costs: seq<nat>, drop: bool, m: nat, capacity: nat)
    requires AllAtMost(costs, m) && 4 * m <= capacity < Sum(costs) <= capacity + m && m > 0
    ensures |costs| >= 4
    ensures var s := Best(costs, drop, |costs|);
            var left, right := Sum(costs[..s]), Sum(costs[if drop then s + 1 else s..]);
            && left + right + (if drop then costs[s] else 0) == Sum(costs)
            && 2 * left >= capacity - (if drop then 2 * m else m) && 2 * right >= capacity - (if drop then 2 * m else m)
            && left <= capacity && right <= capacity
            && (drop ==> s <= |costs| - 2)
  {
    LeastGap(costs, drop, m);
    var s := Best(costs, drop, |costs|);
    SumNext(costs, s);
    SumWhole(costs, s);
    SumWhole(costs, s + 1);
    GapIsDistance(costs, drop, s);
  }

  // ---------------------------------------------------------------- merging

  /** An underfull page and a sibling that cannot lend fit in one page, with the separator that comes
      down between internal pages. */
  lemma MergeFits(capacity: nat, m: nat, used: nat, sibling: nat, edge: nat, separator: nat, minimum: nat)
    requires edge <= m && separator <= m && sibling - edge < minimum && used < minimum
    requires (2 * minimum <= capacity - m && separator == 0) || 2 * minimum <= capacity - 2 * m
    ensures used + separator + sibling <= capacity
  {}

  /** The thresholds of an accepted layout. */
  lemma Thresholds(l: Layout)
    requires l.Valid()
    ensures 0 < 4 * l.LeafMax() <= l.LeafCapacity() && 0 < 4 * l.InternalMax() <= INTERNAL_CAPACITY
    ensures 0 < 2 * l.LeafMin() <= l.LeafCapacity() - l.LeafMax() < 2 * l.LeafMin() + 2
    ensures 0 < 2 * l.InternalMin() <= INTERNAL_CAPACITY - 2 * l.InternalMax() < 2 * l.InternalMin() + 2
  {}
}
