/** The bytes of the log file: how a record is written, how the file is read back, and what cutting
    the file at any byte leaves. The checksum is any function of the bytes it covers. */
module WalCodec {
  import opened Base
  import opened WalLog

  const LOG_MAGIC: Bytes := [67, 77, 85, 68, 66, 87, 65, 76]
  const LOG_VERSION := 1
  const LOG_HEADER_LEN := 12
  const RECORD_HEADER_LEN := 9
  const PAGE_ID_LEN := 8
  const UNDO_FIXED_LEN := 25
  const MAX_PAYLOAD_LEN := UNDO_FIXED_LEN + PAGE_SIZE

  const KIND_PAGE: byte := 1
  const KIND_DURABLE: byte := 2
  const KIND_WRITES: byte := 3
  const KIND_UNDO: byte := 4
  const KIND_END: byte := 5

  type Checksum = Bytes -> nat

  // ---------------------------------------------------------------- little-endian integers

  function Le(n: nat, width: nat): (b: Bytes)
    ensures |b| == width
  {
    if width == 0 then [] else [(n % 256) as byte] + Le(n / 256, width - 1)
  }

  function UnLe(b: Bytes): (n: nat)
    ensures n < Pow256(|b|)
  {
    if b == [] then 0 else b[0] as nat + 256 * UnLe(b[1..])
  }

  lemma {:induction false} LeRoundTrip(n: nat, width: nat)
    requires n < Pow256(width)
    ensures UnLe(Le(n, width)) == n
  {
    if width > 0 {
      LeRoundTrip(n / 256, width - 1);
      assert Le(n, width)[1..] == Le(n / 256, width - 1);
    }
  }

  lemma Widths()
    ensures Pow256(4) == 0x1_0000_0000 && Pow256(8) == 0x1_0000_0000_0000_0000
  {
    assert Pow256(2) == 0x1_0000;
    assert Pow256(4) == 0x1_0000_0000;
    assert Pow256(6) == 0x1_0000_0000_0000;
  }

  // ---------------------------------------------------------------- records

  function Sealed(crc: Checksum, kind: byte, payload: Bytes): Bytes {
    var head := [kind] + Le(|payload|, 4);
    head + Le(crc(head + payload) % 0x1_0000_0000, 4) + payload
  }

  function Kind(r: Record<Bytes>): byte {
    match r
    case Page(_, _) => KIND_PAGE
    case Durable => KIND_DURABLE
    case Txn(Writes(_)) => KIND_WRITES
    case Txn(Undo(_, _, _)) => KIND_UNDO
    case Txn(End(_)) => KIND_END
  }

  function Payload(r: Record<Bytes>): Bytes {
    match r
    case Page(id, image) => Le(id, 8) + image
    case Durable => []
    case Txn(Writes(t)) => Le(t, 8)
    case Txn(End(t)) => Le(t, 8)
    case Txn(Undo(t, rid, v)) =>
      Le(t, 8) + Le(rid.pageId, 4) + Le(rid.slotId, 4) + Le(v.ts, 8) + [if v.deleted then 1 else 0] + v.data
  }

  function Encode(crc: Checksum, r: Record<Bytes>): Bytes { Sealed(crc, Kind(r), Payload(r)) }

  /** The records a log is ever given: ids and timestamps in their widths, one page of bytes. */
  predicate Fits(r: Record<Bytes>) {
    match r
    case Page(id, image) => id <= MAX_PAGE_ID && |image| == PAGE_SIZE
    case Durable => true
    case Txn(Writes(t)) => t < 0x1_0000_0000_0000_0000
    case Txn(End(t)) => t < 0x1_0000_0000_0000_0000
    case Txn(Undo(t, rid, v)) =>
      && t < 0x1_0000_0000_0000_0000 && rid.pageId <= MAX_PAGE_ID && rid.slotId < 0x1_0000_0000
      && v.ts < 0x1_0000_0000_0000_0000 && |v.data| <= PAGE_SIZE
  }

  function DecodePayload(kind: byte, p: Bytes): Option<Record<Bytes>> {
    if kind == KIND_PAGE && |p| == PAGE_ID_LEN + PAGE_SIZE then
      (if UnLe(p[..8]) <= MAX_PAGE_ID then Some(Page(UnLe(p[..8]), p[8..])) else None)
    else if kind == KIND_DURABLE && |p| == 0 then Some(Durable)
    else if kind == KIND_WRITES && |p| == 8 then Some(Txn(Writes(UnLe(p))))
    else if kind == KIND_END && |p| == 8 then Some(Txn(End(UnLe(p))))
    else if kind == KIND_UNDO && |p| >= UNDO_FIXED_LEN then
      (if UnLe(p[8..12]) <= MAX_PAGE_ID then
         Some(Txn(Undo(UnLe(p[..8]), RecordId(UnLe(p[8..12]), UnLe(p[12..16])),
             Version(UnLe(p[16..24]), p[24] != 0, p[25..]))))
       else None)
    else None
  }

  /** The payload at the start of `b`, or `None`: nothing left, cut short, or a checksum that does
      not match. */
  function Unseal(crc: Checksum, b: Bytes): (p: Option<Bytes>)
    ensures p.Some? ==> RECORD_HEADER_LEN + |p.value| <= |b| && p.value == b[9..9 + |p.value|]
  {
    if |b| < RECORD_HEADER_LEN then None
    else
      var len := UnLe(b[1..5]);
      if len > MAX_PAYLOAD_LEN || |b| < RECORD_HEADER_LEN + len then None
      else if crc(b[..5] + b[9..9 + len]) % 0x1_0000_0000 != UnLe(b[5..9]) then None
      else Some(b[9..9 + len])
  }

  /** The record at the start of `b` and its length, or `None` where the log ends: no whole sealed
      payload, or a record no encoder writes. */
  function ReadRecord(crc: Checksum, b: Bytes): (r: Option<(Record<Bytes>, nat)>)
    ensures r.Some? ==> RECORD_HEADER_LEN <= r.value.1 <= |b|
  {
    var payload := Unseal(crc, b);
    if payload.None? then None
    else
      var record := DecodePayload(b[0], payload.value);
      if record.Some? then Some((record.value, RECORD_HEADER_LEN + |payload.value|)) else None
  }

  lemma PayloadRoundTrip(r: Record<Bytes>)
    requires Fits(r)
    ensures |Payload(r)| <= MAX_PAYLOAD_LEN && DecodePayload(Kind(r), Payload(r)) == Some(r)
  {
    Widths();
    var p := Payload(r);
    match r
    case Page(id, image) =>
      LeRoundTrip(id, 8);
      assert p[..8] == Le(id, 8) && p[8..] == image;
    case Durable =>
    case Txn(Writes(t)) => LeRoundTrip(t, 8);
    case Txn(End(t)) => LeRoundTrip(t, 8);
    case Txn(Undo(t, rid, v)) =>
      LeRoundTrip(t, 8);
      LeRoundTrip(rid.pageId, 4);
      LeRoundTrip(rid.slotId, 4);
      LeRoundTrip(v.ts, 8);
      assert p[..8] == Le(t, 8) && p[8..12] == Le(rid.pageId, 4) && p[12..16] == Le(rid.slotId, 4);
      assert p[16..24] == Le(v.ts, 8) && p[25..] == v.data;
  }

  /** Where the parts of a sealed payload lie. */
  lemma SealedParts(crc: Checksum, kind: byte, p: Bytes)
    ensures var b := Sealed(crc, kind, p);
            && |b| == RECORD_HEADER_LEN + |p| && b[0] == kind && b[..5] == [kind] + Le(|p|, 4)
            && b[1..5] == Le(|p|, 4) && b[5..9] == Le(crc([kind] + Le(|p|, 4) + p) % 0x1_0000_0000, 4) && b[9..] == p
  {
    var head := [kind] + Le(|p|, 4);
    assert Sealed(crc, kind, p) == head + Le(crc(head + p) % 0x1_0000_0000, 4) + p;
    assert head[1..5] == Le(|p|, 4);
  }

  lemma Unsealed(crc: Checksum, kind: byte, p: Bytes, rest: Bytes)
    requires |p| <= MAX_PAYLOAD_LEN
    ensures var b := Sealed(crc, kind, p) + rest; |b| > 0 && b[0] == kind && Unseal(crc, b) == Some(p)
  {
    SealedParts(crc, kind, p);
    Widths();
    LeRoundTrip(|p|, 4);
    LeRoundTrip(crc([kind] + Le(|p|, 4) + p) % 0x1_0000_0000, 4);
    var e := Sealed(crc, kind, p);
    var b := e + rest;
    assert b[..5] == e[..5] && b[1..5] == e[1..5] && b[5..9] == e[5..9] && b[9..9 + |p|] == e[9..];
  }

  /** A whole record reads back as itself, whatever follows it. */
  lemma RecordRoundTrip(crc: Checksum, r: Record<Bytes>, rest: Bytes)
    requires Fits(r)
    ensures ReadRecord(crc, Encode(crc, r) + rest) == Some((r, |Encode(crc, r)|))
  {
    PayloadRoundTrip(r);
    Unsealed(crc, Kind(r), Payload(r), rest);
  }

  /** A record cut short does not read back at all. */
  lemma CutRecord(crc: Checksum, r: Record<Bytes>, n: nat)
    requires Fits(r) && n < |Encode(crc, r)|
    ensures ReadRecord(crc, Encode(crc, r)[..n]) == None
  {
    if n >= RECORD_HEADER_LEN {
      SealedParts(crc, Kind(r), Payload(r));
      Widths();
      PayloadRoundTrip(r);
      LeRoundTrip(|Payload(r)|, 4);
      assert Encode(crc, r)[..n][1..5] == Encode(crc, r)[1..5];
    }
  }

  lemma {:induction false} LeUndoes(b: Bytes)
    ensures Le(UnLe(b), |b|) == b
  {
    if b != [] {
      LeUndoes(b[1..]);
      assert b == [b[0]] + b[1..];
    }
  }

  /** The bytes of a sealed payload are those its sealing makes. */
  lemma OnlySealed(crc: Checksum, b: Bytes)
    requires Unseal(crc, b).Some?
    ensures var p := Unseal(crc, b).value; b[..RECORD_HEADER_LEN + |p|] == Sealed(crc, b[0], p)
  {
    var p := Unseal(crc, b).value;
    LeUndoes(b[1..5]);
    LeUndoes(b[5..9]);
    assert b[..5] == [b[0]] + Le(|p|, 4);
    assert b[5..9] == Le(crc(b[..5] + p) % 0x1_0000_0000, 4);
    assert b[..9 + |p|] == b[..5] + b[5..9] + p;
  }

  /** The flag of an undo record is written as 0 or 1, and read as whether it is 0. */
  predicate OtherFlag(r: Record<Bytes>, p: Bytes) {
    r.Txn? && r.record.Undo? && |p| >= UNDO_FIXED_LEN && p[24] > 1
  }

  lemma PayloadRead(kind: byte, p: Bytes)
    requires DecodePayload(kind, p).Some? && |p| <= MAX_PAYLOAD_LEN
    ensures var r := DecodePayload(kind, p).value;
            Fits(r) && Kind(r) == kind && (Payload(r) == p || OtherFlag(r, p))
  {
    Widths();
    var r := DecodePayload(kind, p).value;
    match r
    case Page(_, _) =>
      LeUndoes(p[..8]);
      assert p == p[..8] + p[8..];
    case Durable =>
    case Txn(Writes(_)) => LeUndoes(p);
    case Txn(End(_)) => LeUndoes(p);
    case Txn(Undo(_, _, _)) => UndoRead(p);
  }

  lemma UndoRead(p: Bytes)
    requires UNDO_FIXED_LEN <= |p| <= MAX_PAYLOAD_LEN && DecodePayload(KIND_UNDO, p).Some?
    ensures var r := DecodePayload(KIND_UNDO, p).value; Fits(r) && (Payload(r) == p || p[24] > 1)
  {
    Widths();
    LeUndoes(p[..8]);
    LeUndoes(p[8..12]);
    LeUndoes(p[12..16]);
    LeUndoes(p[16..24]);
    SixParts(p);
  }

  lemma SixParts(p: Bytes)
    requires |p| >= UNDO_FIXED_LEN
    ensures p == p[..8] + p[8..12] + p[12..16] + p[16..24] + [p[24]] + p[25..]
  {
    assert p[..12] == p[..8] + p[8..12];
    assert p[..16] == p[..12] + p[12..16];
    assert p[..24] == p[..16] + p[16..24];
    assert p[..25] == p[..24] + [p[24]];
  }

  /** A record is read only where it was written with that checksum: its bytes are its encoding, but for the flag
      of an undo record. */
  lemma ReadsOnlyWritten(crc: Checksum, b: Bytes)
    requires ReadRecord(crc, b).Some?
    ensures var (r, len) := ReadRecord(crc, b).value;
            && Fits(r) && b[..len] == Sealed(crc, Kind(r), b[9..len])
            && (b[..len] == Encode(crc, r) || OtherFlag(r, b[9..len]))
  {
    var p := Unseal(crc, b).value;
    OnlySealed(crc, b);
    PayloadRead(b[0], p);
  }

  // ---------------------------------------------------------------- records one after the other

  type Encoder = Record<Bytes> -> Bytes

  type Reader = Bytes -> Option<(Record<Bytes>, nat)>

  function Writing(crc: Checksum): Encoder { r => Encode(crc, r) }

  function Reading(crc: Checksum): Reader { b => ReadRecord(crc, b) }

  function EncodeAll(enc: Encoder, rs: seq<Record<Bytes>>): Bytes {
    if rs == [] then [] else enc(rs[0]) + EncodeAll(enc, rs[1..])
  }

  /** The records a reader finds, up to the first place where it finds none. */
  function DecodeAll(read: Reader, b: Bytes): seq<Record<Bytes>>
    decreases |b|
  {
    var r := read(b);
    if r.Some? && 0 < r.value.1 <= |b| then [r.value.0] + DecodeAll(read, b[r.value.1..]) else []
  }

  /** A reader finds the record in its bytes, whatever follows them, and nothing in fewer bytes. */
  ghost predicate ReadsBack(read: Reader, code: Bytes, r: Record<Bytes>) {
    && code != [] && (forall rest :: read(code + rest) == Some((r, |code|)))
    && forall n: nat :: n < |code| ==> read(code[..n]) == None
  }

  lemma RecordReadsBack(crc: Checksum, r: Record<Bytes>)
    requires Fits(r)
    ensures ReadsBack(Reading(crc), Writing(crc)(r), r)
  {
    forall rest ensures Reading(crc)(Encode(crc, r) + rest) == Some((r, |Encode(crc, r)|)) {
      RecordRoundTrip(crc, r, rest);
    }
    forall n: nat | n < |Encode(crc, r)| ensures Reading(crc)(Encode(crc, r)[..n]) == None { CutRecord(crc, r, n); }
  }

  /** How many of the records are whole in the first `n` bytes. */
  function WholeRecords(enc: Encoder, rs: seq<Record<Bytes>>, n: nat): (k: nat)
    ensures k <= |rs|
  {
    if rs == [] || n < |enc(rs[0])| then 0 else 1 + WholeRecords(enc, rs[1..], n - |enc(rs[0])|)
  }

  lemma CutAfterFirst(read: Reader, code: Bytes, r: Record<Bytes>, rest: Bytes, m: nat)
    requires ReadsBack(read, code, r) && m <= |rest|
    ensures DecodeAll(read, (code + rest)[..|code| + m]) == [r] + DecodeAll(read, rest[..m])
  {
    assert (code + rest)[..|code| + m] == code + rest[..m];
    assert (code + rest[..m])[|code|..] == rest[..m];
  }

  lemma CutBeforeFirst(read: Reader, code: Bytes, r: Record<Bytes>, rest: Bytes, n: nat)
    requires ReadsBack(read, code, r) && n < |code|
    ensures DecodeAll(read, (code + rest)[..n]) == []
  {
    assert (code + rest)[..n] == code[..n];
  }

  /** Cutting the records' bytes anywhere leaves exactly the records that are still whole. */
  lemma {:induction false} CutDecodes(enc: Encoder, read: Reader, rs: seq<Record<Bytes>>, n: nat)
    requires (forall i :: 0 <= i < |rs| ==> ReadsBack(read, enc(rs[i]), rs[i])) && n <= |EncodeAll(enc, rs)|
    requires read([]) == None
    ensures DecodeAll(read, EncodeAll(enc, rs)[..n]) == rs[..WholeRecords(enc, rs, n)]
  {
    if rs != [] {
      var code, rest := enc(rs[0]), EncodeAll(enc, rs[1..]);
      assert ReadsBack(read, code, rs[0]);
      if n < |code| {
        CutBeforeFirst(read, code, rs[0], rest, n);
      } else {
        var m := n - |code|;
        CutDecodes(enc, read, rs[1..], m);
        CutAfterFirst(read, code, rs[0], rest, m);
        assert [rs[0]] + rs[1..][..WholeRecords(enc, rs[1..], m)] == rs[..1 + WholeRecords(enc, rs[1..], m)];
      }
    }
  }

  /** The whole records take no more than `n` bytes, and one more would. */
  lemma {:induction false} WholeRecordsExact(enc: Encoder, rs: seq<Record<Bytes>>, n: nat)
    ensures var k := WholeRecords(enc, rs, n);
            |EncodeAll(enc, rs[..k])| <= n && (k < |rs| ==> n < |EncodeAll(enc, rs[..k + 1])|)
  {
    if rs != [] && n >= |enc(rs[0])| {
      var k := WholeRecords(enc, rs, n);
      WholeRecordsExact(enc, rs[1..], n - |enc(rs[0])|);
      assert rs[..k][1..] == rs[1..][..k - 1];
      if k < |rs| { assert rs[..k + 1][1..] == rs[1..][..k]; }
    } else if rs != [] {
      assert rs[..1][1..] == [];
    }
  }

  // ---------------------------------------------------------------- the file

  datatype Opened = NotALog | Log(records: seq<Record<Bytes>>)

  function LogHeader(): (h: Bytes)
    ensures |h| == LOG_HEADER_LEN
  {
    LOG_MAGIC + Le(LOG_VERSION, 4)
  }

  /** What `replay` makes of a log file: nothing for an empty file, a refusal for a bad header, else
      the records up to the last durable point. */
  function ReadLog(crc: Checksum, file: Bytes): Opened {
    if file == [] then Log([])
    else if |file| < LOG_HEADER_LEN || file[..8] != LOG_MAGIC || UnLe(file[8..12]) != LOG_VERSION then NotALog
    else Log(DurablePart(DecodeAll(Reading(crc), file[LOG_HEADER_LEN..])))
  }

  lemma GoodHeader(crc: Checksum, rest: Bytes)
    ensures ReadLog(crc, LogHeader() + rest) == Log(DurablePart(DecodeAll(Reading(crc), rest)))
  {
    var file, version := LogHeader() + rest, Le(LOG_VERSION, 4);
    Widths();
    LeRoundTrip(LOG_VERSION, 4);
    assert file == LOG_MAGIC + version + rest;
    assert file[..8] == LOG_MAGIC && file[8..12] == version && file[12..] == rest;
  }

  lemma CutRecords(crc: Checksum, rs: seq<Record<Bytes>>, n: nat)
    requires (forall i :: 0 <= i < |rs| ==> Fits(rs[i])) && n <= |EncodeAll(Writing(crc), rs)|
    ensures DecodeAll(Reading(crc), EncodeAll(Writing(crc), rs)[..n]) == rs[..WholeRecords(Writing(crc), rs, n)]
  {
    forall i | 0 <= i < |rs| ensures ReadsBack(Reading(crc), Writing(crc)(rs[i]), rs[i]) {
      RecordReadsBack(crc, rs[i]);
    }
    CutDecodes(Writing(crc), Reading(crc), rs, n);
  }

  /** Cutting a log file at any byte: past the header it replays exactly the whole records before
      the last whole durable point. An empty file is an empty log, and a torn header is refused. */
  lemma CutFile(crc: Checksum, rs: seq<Record<Bytes>>, n: nat)
    requires (forall i :: 0 <= i < |rs| ==> Fits(rs[i])) && n <= LOG_HEADER_LEN + |EncodeAll(Writing(crc), rs)|
    ensures ReadLog(crc, (LogHeader() + EncodeAll(Writing(crc), rs))[..n]) ==
            if n == 0 then Log([]) else if n < LOG_HEADER_LEN then NotALog
            else Log(DurablePart(rs[..WholeRecords(Writing(crc), rs, n - LOG_HEADER_LEN)]))
  {
    var body := EncodeAll(Writing(crc), rs);
    if n < LOG_HEADER_LEN {
      assert |(LogHeader() + body)[..n]| == n;
    } else {
      CutBehindHeader(LogHeader(), body, n);
      CutBody(crc, rs, n - LOG_HEADER_LEN);
    }
  }

  lemma CutBehindHeader(header: Bytes, body: Bytes, n: nat)
    requires |header| <= n <= |header| + |body|
    ensures (header + body)[..n] == header + body[..n - |header|]
  {}

  lemma CutBody(crc: Checksum, rs: seq<Record<Bytes>>, n: nat)
    requires (forall i :: 0 <= i < |rs| ==> Fits(rs[i])) && n <= |EncodeAll(Writing(crc), rs)|
    ensures ReadLog(crc, LogHeader() + EncodeAll(Writing(crc), rs)[..n]) ==
            Log(DurablePart(rs[..WholeRecords(Writing(crc), rs, n)]))
  {
    GoodHeader(crc, EncodeAll(Writing(crc), rs)[..n]);
    CutRecords(crc, rs, n);
  }

  // ---------------------------------------------------------------- replaying

  function TxnsOf(rs: seq<Record<Bytes>>): seq<TxnRecord> {
    if rs == [] then [] else TxnsOf(Base.Init(rs)) + if Last(rs).Txn? then [Last(rs).record] else []
  }

  lemma {:induction false} TxnsOfAppend(a: seq<Record<Bytes>>, b: seq<Record<Bytes>>)
    ensures TxnsOf(a + b) == TxnsOf(a) + TxnsOf(b)
  {
    if b == [] {
      assert a + b == a;
    } else {
      assert Base.Init(a + b) == a + Base.Init(b);
      TxnsOfAppend(a, Base.Init(b));
    }
  }

  /** `offsets` says where in the file the image of each page of `pages` is. */
  ghost predicate OffsetsOk(file: Bytes, offsets: map<nat, nat>, pages: map<nat, Bytes>) {
    && offsets.Keys == pages.Keys
    && forall id ::
        id in offsets ==> offsets[id] + PAGE_SIZE <= |file| && file[offsets[id]..offsets[id] + PAGE_SIZE] == pages[id]
  }

  /** The accumulators of a replay: what is durable, and what has come since the last durable
      point. `V` is a page's image, or where in the file it is. */
  datatype Replayed<V> = Replayed(durable: seq<TxnRecord>, durablePages: map<nat, V>, since: seq<TxnRecord>,
      pagesSince: map<nat, V>)

  /** The accumulators after one more record, whose page image, if it has one, is `v`. */
  function Absorb<V>(acc: Replayed<V>, r: Record<Bytes>, v: V): Replayed<V> {
    match r
    case Durable => Replayed(acc.durable + acc.since, acc.durablePages + acc.pagesSince, [], map[])
    case Page(id, _) => Replayed(acc.durable, acc.durablePages, acc.since, acc.pagesSince[id := v])
    case Txn(t) => Replayed(acc.durable, acc.durablePages, acc.since + [t], acc.pagesSince)
  }

  /** What a replay has gathered once `read` has been read: its part up to the last durable point,
      and the rest. */
  ghost function Gathered(read: seq<Record<Bytes>>): Replayed<Bytes> {
    var n := LastDurable(read);
    Parted(read[..n], read[n..])
  }

  ghost function Parted(durable: seq<Record<Bytes>>, since: seq<Record<Bytes>>): Replayed<Bytes> {
    Replayed(TxnsOf(durable), PagesOf(durable), TxnsOf(since), PagesOf(since))
  }

  lemma PartedDurable(durable: seq<Record<Bytes>>, since: seq<Record<Bytes>>)
    ensures Parted(durable + since + [Durable], []) == Absorb(Parted(durable, since), Durable, [])
  {
    assert Base.Init(durable + since + [Durable]) == durable + since;
    TxnsOfAppend(durable, since);
    PagesOfAppend(durable, since);
  }

  lemma PartedNext(durable: seq<Record<Bytes>>, since: seq<Record<Bytes>>, r: Record<Bytes>)
    requires !r.Durable?
    ensures Parted(durable, since + [r]) == Absorb(Parted(durable, since), r, if r.Page? then r.image else [])
  {
    assert Base.Init(since + [r]) == since;
  }

  lemma GatheredNext(read: seq<Record<Bytes>>, r: Record<Bytes>)
    ensures Gathered(read + [r]) == Absorb(Gathered(read), r, if r.Page? then r.image else [])
  {
    var n := LastDurable(read);
    NextDurable(read, r);
    if r.Durable? {
      PartedDurable(read[..n], read[n..]);
    } else {
      PartedNext(read[..n], read[n..], r);
    }
  }

  lemma NextDurable(read: seq<Record<Bytes>>, r: Record<Bytes>)
    ensures var n, now := LastDurable(read), read + [r];
            && LastDurable(now) == (if r.Durable? then |now| else n)
            && (r.Durable? ==> now[..|now|] == read[..n] + read[n..] + [r] && now[|now|..] == [])
            && (!r.Durable? ==> now[..n] == read[..n] && now[n..] == read[n..] + [r])
  {
    assert Base.Init(read + [r]) == read;
    SplitNext(read, r, LastDurable(read));
  }

  lemma SplitNext<T>(s: seq<T>, x: T, n: nat)
    requires n <= |s|
    ensures (s + [x])[..n] == s[..n] && (s + [x])[n..] == s[n..] + [x]
    ensures (s + [x])[..|s| + 1] == s[..n] + s[n..] + [x] && (s + [x])[|s| + 1..] == []
  {}

  /** `acc` holds what `full` holds, with every page image given by where it is in the file. */
  ghost predicate Located(file: Bytes, acc: Replayed<nat>, full: Replayed<Bytes>) {
    && acc.durable == full.durable && acc.since == full.since
    && OffsetsOk(file, acc.durablePages, full.durablePages) && OffsetsOk(file, acc.pagesSince, full.pagesSince)
  }

  lemma LocatedNext(file: Bytes, acc: Replayed<nat>, full: Replayed<Bytes>, r: Record<Bytes>, at: nat)
    requires Located(file, acc, full)
    requires r.Page? ==> at + PAGE_SIZE <= |file| && file[at..at + PAGE_SIZE] == r.image
    ensures Located(file, Absorb(acc, r, at), Absorb(full, r, if r.Page? then r.image else []))
  {
  }

  /** Reads the log record by record, keeping what comes after the last durable point apart. */
  method Replay(crc: Checksum, file: Bytes) returns (r: Option<(seq<TxnRecord>, map<nat, nat>)>)
    ensures r.None? <==> ReadLog(crc, file).NotALog?
    ensures r.Some? ==>
            r.value.0 == TxnsOf(ReadLog(crc, file).records)
            && OffsetsOk(file, r.value.1, PagesOf(ReadLog(crc, file).records))
  {
    if file == [] {
      return Some(([], map[]));
    }
    if |file| < LOG_HEADER_LEN || file[..8] != LOG_MAGIC || UnLe(file[8..12]) != LOG_VERSION {
      return None;
    }
    var acc := ReplayRecords(Reading(crc), file);
    ReplayedOk(crc, file);
    return Some((acc.durable, acc.durablePages));
  }

  /** The accumulators of a replay that goes on from `offset`. */
  function ReplayFrom(read: Reader, file: Bytes, offset: nat, acc: Replayed<nat>): Replayed<nat>
    requires offset <= |file|
    decreases |file| - offset
  {
    var next := read(file[offset..]);
    if next.None? || !(0 < next.value.1 <= |file| - offset) then acc
    else ReplayFrom(read, file, offset + next.value.1,
        Absorb(acc, next.value.0, offset + RECORD_HEADER_LEN + PAGE_ID_LEN))
  }

  const NOTHING_READ: Replayed<nat> := Replayed([], map[], [], map[])

  method ReplayRecords(read: Reader, file: Bytes) returns (acc: Replayed<nat>)
    requires LOG_HEADER_LEN <= |file|
    ensures acc == ReplayFrom(read, file, LOG_HEADER_LEN, NOTHING_READ)
  {
    acc := NOTHING_READ;
    var offset := LOG_HEADER_LEN;
    while true
      invariant offset <= |file|
                && ReplayFrom(read, file, offset, acc) == ReplayFrom(read, file, LOG_HEADER_LEN, NOTHING_READ)
      decreases |file| - offset
    {
      var next := read(file[offset..]);
      if next.None? || !(0 < next.value.1 <= |file| - offset) {
        return;
      }
      acc := Absorb(acc, next.value.0, offset + RECORD_HEADER_LEN + PAGE_ID_LEN);
      offset := offset + next.value.1;
    }
  }

  /** The image of every page record a reader finds lies where the record's offset says. */
  ghost predicate ImagesInPlace(read: Reader, file: Bytes) {
    forall offset: nat :: offset <= |file| && read(file[offset..]).Some? && read(file[offset..]).value.0.Page? ==>
      var at := offset + RECORD_HEADER_LEN + PAGE_ID_LEN;
      at + PAGE_SIZE <= |file| && file[at..at + PAGE_SIZE] == read(file[offset..]).value.0.image
  }

  /** A replay gathers what its file decodes to, keeping where the page images are. */
  lemma {:induction false} ReplayLocates(read: Reader, file: Bytes, offset: nat, done: seq<Record<Bytes>>,
                                         acc: Replayed<nat>)
    requires offset <= |file| && Located(file, acc, Gathered(done)) && ImagesInPlace(read, file)
    ensures Located(file, ReplayFrom(read, file, offset, acc), Gathered(done + DecodeAll(read, file[offset..])))
    decreases |file| - offset
  {
    if Stops(read, file, offset) {
      assert done + [] == done;
    } else {
      var record, len := NextRecord(read, file, offset), NextLength(read, file, offset);
      var acc' := Absorb(acc, record, offset + RECORD_HEADER_LEN + PAGE_ID_LEN);
      ReplayNext(read, file, offset, done, acc);
      ReplayLocates(read, file, offset + len, done + [record], acc');
    }
  }

  predicate Stops(read: Reader, file: Bytes, offset: nat)
    requires offset <= |file|
  {
    read(file[offset..]).None? || !(0 < read(file[offset..]).value.1 <= |file| - offset)
  }

  function NextRecord(read: Reader, file: Bytes, offset: nat): Record<Bytes>
    requires offset <= |file| && !Stops(read, file, offset)
  {
    read(file[offset..]).value.0
  }

  function NextLength(read: Reader, file: Bytes, offset: nat): (len: nat)
    requires offset <= |file| && !Stops(read, file, offset)
    ensures 0 < len <= |file| - offset
  {
    read(file[offset..]).value.1
  }

  /** One more record read: what is gathered grows by it, and the rest of the file by so much less. */
  lemma ReplayNext(read: Reader, file: Bytes, offset: nat, done: seq<Record<Bytes>>, acc: Replayed<nat>)
    requires offset <= |file| && !Stops(read, file, offset)
    requires Located(file, acc, Gathered(done)) && ImagesInPlace(read, file)
    ensures var record, len := NextRecord(read, file, offset), NextLength(read, file, offset);
            var acc' := Absorb(acc, record, offset + RECORD_HEADER_LEN + PAGE_ID_LEN);
            && Located(file, acc', Gathered(done + [record]))
            && ReplayFrom(read, file, offset, acc) == ReplayFrom(read, file, offset + len, acc')
            && done + DecodeAll(read, file[offset..]) == (done + [record]) + DecodeAll(read, file[offset + len..])
  {
    var record := NextRecord(read, file, offset);
    AbsorbNext(file, done, acc, record, offset + RECORD_HEADER_LEN + PAGE_ID_LEN);
    DecodeNext(read, file, offset, done);
  }

  lemma DecodeNext(read: Reader, file: Bytes, offset: nat, done: seq<Record<Bytes>>)
    requires offset <= |file| && read(file[offset..]).Some? && 0 < read(file[offset..]).value.1 <= |file| - offset
    ensures var (record, len) := read(file[offset..]).value;
            done + DecodeAll(read, file[offset..]) == (done + [record]) + DecodeAll(read, file[offset + len..])
  {
    var (record, len) := read(file[offset..]).value;
    assert file[offset..][len..] == file[offset + len..];
    assert done + ([record] + DecodeAll(read, file[offset + len..])) == (done + [record]) + DecodeAll(read,
        file[offset + len..]);
  }

  lemma AbsorbNext(file: Bytes, done: seq<Record<Bytes>>, acc: Replayed<nat>, record: Record<Bytes>, at: nat)
    requires Located(file, acc, Gathered(done))
    requires record.Page? ==> at + PAGE_SIZE <= |file| && file[at..at + PAGE_SIZE] == record.image
    ensures Located(file, Absorb(acc, record, at), Gathered(done + [record]))
  {
    GatheredNext(done, record);
    LocatedNext(file, acc, Gathered(done), record, at);
  }

  lemma ReplayedOk(crc: Checksum, file: Bytes)
    requires LOG_HEADER_LEN <= |file|
    ensures Located(file, ReplayFrom(Reading(crc), file, LOG_HEADER_LEN, NOTHING_READ),
            Gathered(DecodeAll(Reading(crc), file[LOG_HEADER_LEN..])))
  {
    var read := Reading(crc);
    forall offset: nat | offset <= |file| && read(file[offset..]).Some? && read(file[offset..]).value.0.Page?
      ensures var at := offset + RECORD_HEADER_LEN + PAGE_ID_LEN;
              at + PAGE_SIZE <= |file| && file[at..at + PAGE_SIZE] == read(file[offset..]).value.0.image
    {
      ImageInPlace(crc, file, offset);
    }
    NothingGathered();
    ReplayLocates(read, file, LOG_HEADER_LEN, [], NOTHING_READ);
    assert [] + DecodeAll(read, file[LOG_HEADER_LEN..]) == DecodeAll(read, file[LOG_HEADER_LEN..]);
  }

  lemma NothingGathered()
    ensures Gathered([]) == Replayed([], map[], [], map[])
  {}

  lemma ImageInPlace(crc: Checksum, file: Bytes, offset: nat)
    requires offset <= |file| && ReadRecord(crc, file[offset..]).Some? && ReadRecord(crc, file[offset..]).value.0.Page?
    ensures var at := offset + RECORD_HEADER_LEN + PAGE_ID_LEN;
            at + PAGE_SIZE <= |file| && file[at..at + PAGE_SIZE] == ReadRecord(crc, file[offset..]).value.0.image
  {
    var b, at := file[offset..], offset + RECORD_HEADER_LEN + PAGE_ID_LEN;
    assert b[9..9 + PAGE_ID_LEN + PAGE_SIZE][8..] == file[at..at + PAGE_SIZE];
  }

  /** The pass of `open` over the durable records: what is left open, and what each of those
      transactions must be rolled back to. */
  method CollectUnfinished(records: seq<Record<Bytes>>)
    returns (open: Open, unfinished: map<nat, map<RecordId, Version>>)
    ensures open == OpenOf(records) && unfinished == Unfinished(records)
  {
    open, unfinished := map[], map[];
    for i := 0 to |records|
      invariant open == OpenOf(records[..i]) && unfinished == Unfinished(records[..i])
    {
      assert Base.Init(records[..i + 1]) == records[..i];
      if records[i].Txn? {
        var r := records[i].record;
        match r {
          case Writes(t) =>
            open := open[t := RecordsOf(open, t) + [r]];
            if t !in unfinished { unfinished := unfinished[t := map[]]; }
          case Undo(t, rid, image) =>
            open := open[t := RecordsOf(open, t) + [r]];
            var images := if t in unfinished then unfinished[t] else map[];
            unfinished := unfinished[t := if rid in images then images else images[rid := image]];
          case End(t) =>
            open := open - {t};
            unfinished := unfinished - {t};
        }
      }
    }
    assert records[..|records|] == records;
  }
}
