/** What a write-ahead log says: the records it holds, and the pages and unfinished transactions
    replaying them gives. Page images are a type parameter. */
module WalLog {
  import opened Base

  datatype TxnRecord = Writes(txn: nat) | Undo(txn: nat, rid: RecordId, image: Version) | End(txn: nat)

  datatype Record<P> = Page(id: nat, image: P) | Durable | Txn(record: TxnRecord)

  /** The records of each transaction that has written and not ended. */
  type Open = map<nat, seq<TxnRecord>>

  function RecordsOf(open: Open, t: nat): seq<TxnRecord> { if t in open then open[t] else [] }

  function Track(open: Open, r: TxnRecord): Open {
    if r.End? then open - {r.txn} else open[r.txn := RecordsOf(open, r.txn) + [r]]
  }

  function OpenAfter<P>(open: Open, rs: seq<Record<P>>): Open {
    if rs == [] then open
    else
      var before := OpenAfter(open, Base.Init(rs));
      if Last(rs).Txn? then Track(before, Last(rs).record) else before
  }

  function OpenOf<P>(rs: seq<Record<P>>): Open { OpenAfter(map[], rs) }

  /** The newest image of each page in `rs`. */
  function PagesOf<P>(rs: seq<Record<P>>): map<nat, P> {
    if rs == [] then map[]
    else
      var before := PagesOf(Base.Init(rs));
      if Last(rs).Page? then before[Last(rs).id := Last(rs).image] else before
  }

  /** How many records come up to and including the last durable point. */
  function LastDurable<P>(rs: seq<Record<P>>): (n: nat)
    ensures n <= |rs| && (n > 0 ==> rs[n - 1] == Durable)
    ensures forall i :: n <= i < |rs| ==> rs[i] != Durable
  {
    if rs == [] then 0 else if Last(rs) == Durable then |rs| else LastDurable(Base.Init(rs))
  }

  function DurablePart<P>(rs: seq<Record<P>>): seq<Record<P>> { rs[..LastDurable(rs)] }

  // ---------------------------------------------------------------- unfinished transactions

  /** The first undo image of each record, as a rollback uses it. */
  function FirstImages(rs: seq<TxnRecord>): map<RecordId, Version> {
    if rs == [] then map[]
    else
      var before := FirstImages(Base.Init(rs));
      var r := Last(rs);
      if r.Undo? && r.rid !in before then before[r.rid := r.image] else before
  }

  function ImagesOf(m: map<nat, map<RecordId, Version>>, t: nat): map<RecordId, Version> {
    if t in m then m[t] else map[]
  }

  /** The transactions to roll back, accumulated record by record as `open` reads them. */
  function Unfinished<P>(rs: seq<Record<P>>): map<nat, map<RecordId, Version>> {
    if rs == [] then map[]
    else
      var before := Unfinished(Base.Init(rs));
      if !Last(rs).Txn? then before
      else
        var r := Last(rs).record;
        match r
        case Writes(t) => if t in before then before else before[t := map[]]
        case Undo(t, rid, image) =>
          var images := ImagesOf(before, t);
          before[t := if rid in images then images else images[rid := image]]
        case End(t) => before - {t}
  }

  /** What is rolled back depends only on each open transaction's own records, in their order. */
  lemma {:induction false} UnfinishedIsOpen<P>(rs: seq<Record<P>>)
    ensures Unfinished(rs).Keys == OpenOf(rs).Keys
    ensures forall t :: t in OpenOf(rs) ==> Unfinished(rs)[t] == FirstImages(OpenOf(rs)[t])
  {
    if rs != [] {
      UnfinishedIsOpen(Base.Init(rs));
      if Last(rs).Txn? && !Last(rs).record.End? {
        var r, open := Last(rs).record, OpenOf(Base.Init(rs));
        var mine := RecordsOf(open, r.txn);
        assert Base.Init(mine + [r]) == mine;
        assert OpenOf(rs)[r.txn] == mine + [r];
      }
    }
  }

  // ---------------------------------------------------------------- carrying open transactions over

  function Tagged<P>(rs: seq<TxnRecord>): (out: seq<Record<P>>)
    ensures |out| == |rs| && forall i :: 0 <= i < |rs| ==> out[i] == Txn(rs[i])
  {
    seq(|rs|, i requires 0 <= i < |rs| => Txn(rs[i]))
  }

  function LeastKey(open: Open): (t: nat)
    requires open != map[]
    ensures t in open && forall u :: u in open ==> t <= u
  {
    assert exists t :: t in open;
    var t :| t in open;
    LeastKeyExists(open, t);
    var least :| least in open && forall u :: u in open ==> least <= u;
    least
  }

  lemma {:induction false} LeastKeyExists(open: Open, t: nat)
    requires t in open
    ensures exists least :: least in open && forall u :: u in open ==> least <= u
  {
    if exists u :: u in open && u < t {
      var u :| u in open && u < t;
      LeastKeyExists(open, u);
    }
  }

  /** The records of the open transactions, transaction by transaction in id order. */
  function Carried<P>(open: Open): seq<Record<P>>
    decreases |open|
  {
    if open == map[] then []
    else var t := LeastKey(open); Tagged(open[t]) + Carried(open - {t})
  }

  /** Every list is non-empty and holds only its own transaction's writes and undo images. */
  predicate OwnRecords(open: Open) {
    forall t :: t in open ==> open[t] != [] && forall i ::
        0 <= i < |open[t]| ==> !open[t][i].End? && open[t][i].txn == t
  }

  lemma {:induction false} OpenHasOwnRecords<P>(open: Open, rs: seq<Record<P>>)
    requires OwnRecords(open)
    ensures OwnRecords(OpenAfter(open, rs))
  {
    if rs != [] { OpenHasOwnRecords(open, Base.Init(rs)); }
  }

  lemma {:induction false} OpenAfterAppend<P>(open: Open, a: seq<Record<P>>, b: seq<Record<P>>)
    ensures OpenAfter(open, a + b) == OpenAfter(OpenAfter(open, a), b)
  {
    if b == [] {
      assert a + b == a;
    } else {
      assert Base.Init(a + b) == a + Base.Init(b);
      OpenAfterAppend(open, a, Base.Init(b));
    }
  }

  lemma {:induction false} TaggedOpens<P>(open: Open, rs: seq<TxnRecord>, t: nat)
    requires forall i :: 0 <= i < |rs| ==> !rs[i].End? && rs[i].txn == t
    ensures OpenAfter<P>(open, Tagged(rs)) == if rs == [] then open else open[t := RecordsOf(open, t) + rs]
  {
    if rs == [] {
      assert Tagged<P>(rs) == [];
    } else {
      TaggedOpens<P>(open, Base.Init(rs), t);
      assert Base.Init(Tagged<P>(rs)) == Tagged(Base.Init(rs));
      assert Base.Init(rs) + [Last(rs)] == rs;
      assert RecordsOf(open, t) + Base.Init(rs) + [Last(rs)] == RecordsOf(open, t) + rs;
    }
  }

  lemma MoveKey<K, V>(m: map<K, V>, n: map<K, V>, k: K)
    requires k in n && k !in m
    ensures m[k := n[k]] + (n - {k}) == m + n
  {}

  /** Regrouping the records of open transactions by transaction loses nothing: replaying them
      gives the same open transactions back. */
  lemma {:induction false} CarriedOpens<P>(start: Open, open: Open)
    requires OwnRecords(open) && start.Keys !! open.Keys
    ensures OpenAfter<P>(start, Carried(open)) == start + open
    decreases |open|
  {
    if open == map[] {
      assert start + open == start;
    } else {
      var t := LeastKey(open);
      var first, rest := Tagged<P>(open[t]), open - {t};
      assert OpenAfter(start, first) == start[t := open[t]] by {
        TaggedOpens<P>(start, open[t], t);
        assert RecordsOf(start, t) + open[t] == open[t];
      }
      assert OpenAfter<P>(start[t := open[t]], Carried(rest)) == start[t := open[t]] + rest by {
        CarriedOpens<P>(start[t := open[t]], rest);
      }
      OpenAfterAppend<P>(start, first, Carried(rest));
      MoveKey(start, open, t);
    }
  }

  lemma {:induction false} CarriedHasNoPages<P>(open: Open)
    ensures forall i :: 0 <= i < |Carried<P>(open)| ==> Carried<P>(open)[i].Txn?
    decreases |open|
  {
    if open != map[] { CarriedHasNoPages<P>(open - {LeastKey(open)}); }
  }

  // ---------------------------------------------------------------- pages

  lemma {:induction false} PagesOfAppend<P>(a: seq<Record<P>>, b: seq<Record<P>>)
    ensures PagesOf(a + b) == PagesOf(a) + PagesOf(b)
  {
    if b == [] {
      assert a + b == a;
    } else {
      assert Base.Init(a + b) == a + Base.Init(b);
      PagesOfAppend(a, Base.Init(b));
    }
  }

  lemma {:induction false} NoPages<P>(rs: seq<Record<P>>)
    requires forall i :: 0 <= i < |rs| ==> !rs[i].Page?
    ensures PagesOf(rs) == map[]
  {
    if rs != [] { NoPages(Base.Init(rs)); }
  }

  lemma {:induction false} LastDurableAppend<P>(a: seq<Record<P>>, b: seq<Record<P>>)
    ensures LastDurable(a + b) == if LastDurable(b) > 0 then |a| + LastDurable(b) else LastDurable(a)
  {
    if b == [] {
      assert a + b == a;
    } else {
      assert Base.Init(a + b) == a + Base.Init(b);
      if Last(b) != Durable { LastDurableAppend(a, Base.Init(b)); }
    }
  }
}
