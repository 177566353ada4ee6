/** An index of a table: record ids filed under the encoded key of their row, in a B+ tree. */
module TableIndex {
  import opened Base
  import opened ByteOrder
  import opened KeyEncoding
  import opened BPlusScan
  import opened BPlusStore
  import BPlusIndex
  import BPlusLayout
  import L = BPlusLeaf

  /** Every key of the tree is an entry key, and leads to its record id. */
  ghost predicate Filed(c: map<Bytes, RecordId>, ts: seq<Type>) {
    forall k :: k in c ==> RidFits(c[k]) && exists ws :: OfTypes(ws, ts) && k == EntryKey(EncodeAll(ws, ts), c[k])
  }

  /** An empty index whose keys are compared byte by byte. */
  method NewIndex(maxKeyLen: nat, tombstones: nat) returns (index: Index)
    requires BPlusLayout.Layout(maxKeyLen, tombstones, Less).Valid()
    ensures fresh(index) && index.Valid() && index.l == BPlusLayout.Layout(maxKeyLen, tombstones, Less)
    ensures index.Contents() == map[] && forall ts :: Filed(index.Contents(), ts)
  {
    LessIsTotalOrder();
    index := new Index(BPlusLayout.Layout(maxKeyLen, tombstones, Less));
  }

  /** Files a record id under a key; filing it twice changes nothing. */
  method Insert(index: Index, ts: seq<Type>, vs: seq<Value>, rid: RecordId) returns (tooLong: bool)
    requires index.Valid() && index.l.before == Less && OfTypes(vs, ts) && RidFits(rid) && Filed(index.Contents(), ts)
    modifies index
    ensures index.Valid() && Filed(index.Contents(), ts)
    ensures tooLong <==> |EncodeAll(vs, ts)| + 8 > index.l.maxKeyLen
    ensures index.Contents() == if tooLong then old(index.Contents())
            else old(index.Contents())[EntryKey(EncodeAll(vs, ts), rid) := rid]
  {
    var key := EncodeKey(vs, ts);
    key := EntryKey(key, rid);
    ghost var was := index.Contents();
    var r := index.Insert(key, rid);
    if r == BPlusIndex.DuplicateKey {
      SameEntry(was, ts, vs, rid);
    }
    return r == BPlusIndex.KeyTooLong;
  }

  /** An entry key has one record id. */
  lemma SameEntry(c: map<Bytes, RecordId>, ts: seq<Type>, vs: seq<Value>, rid: RecordId)
    requires Filed(c, ts) && OfTypes(vs, ts) && RidFits(rid) && EntryKey(EncodeAll(vs, ts), rid) in c
    ensures c[EntryKey(EncodeAll(vs, ts), rid)] == rid
  {
    var k := EntryKey(EncodeAll(vs, ts), rid);
    var ws :| OfTypes(ws, ts) && k == EntryKey(EncodeAll(ws, ts), c[k]);
    var x, y := EncodeAll(vs, ts), EncodeAll(ws, ts);
    assert |x| == |y|;
    assert k[|x|..] == Suffix(rid) && k[|y|..] == Suffix(c[k]);
    SuffixOrder(rid, c[k]);
  }

  /** The record ids filed under exactly a key, in record id order. */
  method EntriesForKey(index: Index, ts: seq<Type>, vs: seq<Value>) returns (rids: seq<RecordId>)
    requires index.Valid() && index.l.before == Less && OfTypes(vs, ts) && Filed(index.Contents(), ts)
    ensures forall rid :: rid in rids <==> RidFits(rid) && EntryKey(EncodeAll(vs, ts), rid) in index.Contents()
    ensures forall i, j :: 0 <= i < j < |rids| ==> RidLess(rids[i], rids[j])
  {
    var k := EncodeKey(vs, ts);
    var rows := index.Scan(Included(EntryKey(k, RID_MIN)), Included(EntryKey(k, RID_MAX)));
    rids := RidsOf(rows);
    RowsOfKey(index.Contents(), ts, vs, rows);
    RidsInOrder(index.Contents(), ts, vs, rows);
  }

  function RidsOf(rows: seq<L.Entry>): (rids: seq<RecordId>)
    ensures |rids| == |rows| && forall i :: 0 <= i < |rows| ==> rids[i] == rows[i].rid
  {
    seq(|rows|, i requires 0 <= i < |rows| => rows[i].rid)
  }

  /** The rows between the brackets of a key are its entries. */
  lemma RowsOfKey(c: map<Bytes, RecordId>, ts: seq<Type>, vs: seq<Value>, rows: seq<L.Entry>)
    requires Filed(c, ts) && OfTypes(vs, ts)
    requires forall k, v :: L.Entry(k, v) in rows <==>
             Find(c, k) == Some(v) && !Less(k, EntryKey(EncodeAll(vs, ts), RID_MIN))
             && !Less(EntryKey(EncodeAll(vs, ts), RID_MAX), k)
    ensures forall rid :: rid in RidsOf(rows) <==> RidFits(rid) && EntryKey(EncodeAll(vs, ts), rid) in c
  {
    var key := EncodeAll(vs, ts);
    forall rid ensures rid in RidsOf(rows) <==> RidFits(rid) && EntryKey(key, rid) in c {
      if rid in RidsOf(rows) {
        var i :| 0 <= i < |rows| && RidsOf(rows)[i] == rid;
        assert rows[i] == L.Entry(rows[i].key, rid) && rows[i] in rows;
        RowOfKey(c, ts, vs, rows[i].key, rid);
      }
      if RidFits(rid) && EntryKey(key, rid) in c {
        SameEntry(c, ts, vs, rid);
        BracketIsKey(ts, vs, vs, rid);
        assert L.Entry(EntryKey(key, rid), rid) in rows;
        var i :| 0 <= i < |rows| && rows[i] == L.Entry(EntryKey(key, rid), rid);
        assert RidsOf(rows)[i] == rid;
      }
    }
  }

  /** Entries of one key are in the order of their record ids. */
  lemma RidsInOrder(c: map<Bytes, RecordId>, ts: seq<Type>, vs: seq<Value>, rows: seq<L.Entry>)
    requires Filed(c, ts) && OfTypes(vs, ts) && forall i, j :: 0 <= i < j < |rows| ==> Less(rows[i].key, rows[j].key)
    requires forall k, v :: L.Entry(k, v) in rows <==>
             Find(c, k) == Some(v) && !Less(k, EntryKey(EncodeAll(vs, ts), RID_MIN))
             && !Less(EntryKey(EncodeAll(vs, ts), RID_MAX), k)
    ensures forall i, j :: 0 <= i < j < |rows| ==> RidLess(RidsOf(rows)[i], RidsOf(rows)[j])
  {
    forall i | 0 <= i < |rows| ensures RidFits(rows[i].rid) && rows[i].key == EntryKey(EncodeAll(vs, ts), rows[i].rid) {
      assert rows[i] == L.Entry(rows[i].key, rows[i].rid) && rows[i] in rows;
      RowOfKey(c, ts, vs, rows[i].key, rows[i].rid);
    }
    forall i, j | 0 <= i < j < |rows| ensures RidLess(RidsOf(rows)[i], RidsOf(rows)[j]) {
      TupleTotal(ts, vs, vs);
      EntryOrder(ts, vs, rows[i].rid, vs, rows[j].rid);
    }
  }

  /** A row between the brackets of a key is an entry of the key. */
  lemma RowOfKey(c: map<Bytes, RecordId>, ts: seq<Type>, vs: seq<Value>, key: Bytes, rid: RecordId)
    requires Filed(c, ts) && OfTypes(vs, ts) && Find(c, key) == Some(rid)
    requires !Less(key, EntryKey(EncodeAll(vs, ts), RID_MIN)) && !Less(EntryKey(EncodeAll(vs, ts), RID_MAX), key)
    ensures RidFits(rid) && key == EntryKey(EncodeAll(vs, ts), rid)
  {
    var ws :| OfTypes(ws, ts) && key == EntryKey(EncodeAll(ws, ts), c[key]);
    BracketIsKey(ts, vs, ws, rid);
  }
}
