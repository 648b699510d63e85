/** Market-depth records (command 52): bit-packed with two-bit digits, joined
    without alignment. */
module Depth {
  import opened Results
  import opened Bits
  import opened PackedCode
  import opened BitPack

  datatype DepthEntry = DepthEntry(
    mask: u64, entryType: byte, priceInteger: i64, volumeDelta: i64, auxiliary: i64)

  datatype DepthRecord = DepthRecord(
    symbolId: i32, headerA: i64, headerB: u64, entries: seq<DepthEntry>)

  /** The entry count fits the 64 bits it is written in. */
  predicate Encodable(r: DepthRecord) {
    |r.entries| < 0x1_0000_0000_0000_0000
  }

  const MAX_RECORDS: nat := 1024
  const MAX_ENTRIES: nat := 100_000

  // ---- the encoding -------------------------------------------------------

  const ENTRY: seq<Field> :=
    [Packed(64, false), Packed(8, false), Packed(64, true), SignedMagnitude(64), Packed(64, true)]

  const HEADER: seq<Field> :=
    [Packed(32, true), Packed(64, true), Packed(64, false), Packed(64, false)]

  function EntryValues(e: DepthEntry): seq<int> {
    [e.mask, e.entryType, e.priceInteger, e.volumeDelta, e.auxiliary]
  }

  function HeaderValues(r: DepthRecord): seq<int> {
    [r.symbolId, r.headerA, r.headerB, |r.entries|]
  }

  function EntryBits(e: DepthEntry): seq<bool> {
    LayoutBits(2, ENTRY, EntryValues(e))
  }

  function HeaderBits(r: DepthRecord): seq<bool> {
    LayoutBits(2, HEADER, HeaderValues(r))
  }

  function EntriesBits(es: seq<DepthEntry>): seq<bool> {
    if |es| == 0 then [] else EntryBits(es[0]) + EntriesBits(es[1..])
  }

  function RecordBits(r: DepthRecord): seq<bool> {
    HeaderBits(r) + EntriesBits(r.entries)
  }

  function BatchBits(rs: seq<DepthRecord>): seq<bool> {
    if |rs| == 0 then [] else RecordBits(rs[0]) + BatchBits(rs[1..])
  }

  function TotalEntries(rs: seq<DepthRecord>): nat {
    if |rs| == 0 then 0 else |rs[0].entries| + TotalEntries(rs[1..])
  }

  lemma EntryReadable(e: DepthEntry)
    ensures AllReadable(ENTRY, EntryValues(e))
  {
    hide Pow2;
    WordSizes();
  }

  lemma HeaderReadable(r: DepthRecord)
    requires Encodable(r)
    ensures AllReadable(HEADER, HeaderValues(r))
  {
    hide Pow2;
    WordSizes();
  }

  // Write one record's header or one entry, whose values all fit.
  method WriteFields(w: BitWriter, fs: seq<Field>, vs: seq<int>)
    requires w.Valid() && w.k == 2 && AllReadable(fs, vs)
    modifies w
    ensures w.Valid() && w.Contents() == old(w.Contents()) + LayoutBits(2, fs, vs)
  {
    hide LayoutBits, Readable, Writable;
    ReadableWritable(fs, vs);
    var _ := w.Fields(fs, vs);
  }

  method EncodeDepthRecord(rec: DepthRecord) returns (data: Result<seq<byte>>)
    requires Encodable(rec)
    ensures data.Ok? && Holds(data.value, RecordBits(rec))
  {
    hide LayoutBits, EntriesBits, Holds, AllReadable, Encodable;
    var w := new BitWriter();
    HeaderReadable(rec);
    WriteFields(w, HEADER, HeaderValues(rec));
    assert rec.entries[0..] == rec.entries;
    assert w.Contents() == HeaderBits(rec);
    for i := 0 to |rec.entries|
      invariant w.Valid() && w.Contents() + EntriesBits(rec.entries[i..]) == RecordBits(rec)
    {
      var e := rec.entries[i];
      EntryReadable(e);
      EntriesFrom(w.Contents(), rec.entries, i);
      WriteFields(w, ENTRY, EntryValues(e));
    }
    EntriesFrom(w.Contents(), rec.entries, |rec.entries|);
    return Ok(w.data);
  }

  lemma EntriesFrom(c: seq<bool>, es: seq<DepthEntry>, i: nat)
    requires i <= |es|
    ensures c + EntriesBits(es[i..]) ==
            if i == |es| then c else c + EntryBits(es[i]) + EntriesBits(es[i + 1..])
  {
    hide EntryBits;
    if i < |es| {
      assert es[i..][1..] == es[i + 1..];
      Associate(c, EntryBits(es[i]), EntriesBits(es[i + 1..]), []);
    } else {
      assert c + [] == c;
    }
  }

  // ---- the decoding -------------------------------------------------------

  function ReadEntry(s: seq<bool>, pos: nat): (r: Result<(DepthEntry, nat)>)
    requires pos <= |s|
    ensures r.Ok? ==> pos < r.value.1 <= |s|
  {
    var (v, next) :- ReadLayout(s, pos, 2, ENTRY);
    LayoutReadable(s, pos, 2, ENTRY);
    WordSizes();
    if !(-0x8000_0000_0000_0000 <= v[3] < 0x8000_0000_0000_0000) then Err
    else Ok((DepthEntry(v[0], v[1], v[2], v[3], v[4]), next))
  }

  function ReadEntries(s: seq<bool>, pos: nat, count: nat, acc: seq<DepthEntry>):
    (r: Result<(seq<DepthEntry>, nat)>)
    requires pos <= |s|
    ensures r.Ok? ==> pos <= r.value.1 <= |s| && |r.value.0| == |acc| + count
    decreases count
  {
    if count == 0 then Ok((acc, pos)) else
    var (e, p) :- ReadEntry(s, pos);
    ReadEntries(s, p, count - 1, acc + [e])
  }

  function ReadRecord(s: seq<bool>, pos: nat): (r: Result<(DepthRecord, nat)>)
    requires pos <= |s|
    ensures r.Ok? ==> pos < r.value.1 <= |s|
  {
    var (v, next) :- ReadLayout(s, pos, 2, HEADER);
    LayoutReadable(s, pos, 2, HEADER);
    WordSizes();
    if v[3] > MAX_ENTRIES then Err else
    var (entries, end) :- ReadEntries(s, next, v[3], []);
    Ok((DepthRecord(v[0], v[1], v[2], entries), end))
  }

  /** Whole records until at most seven bits are left, which must be zero. */
  function ReadBatch(s: seq<bool>, pos: nat, acc: seq<DepthRecord>, entries: nat): Result<seq<DepthRecord>>
    requires pos <= |s|
    decreases |s| - pos
  {
    if |s| - pos > 7 then
      var (record, p) :- ReadRecord(s, pos);
      var total := entries + |record.entries|;
      if |acc| >= MAX_RECORDS || total > MAX_ENTRIES then Err
      else ReadBatch(s, p, acc + [record], total)
    else
      var (rest, _) :- ReadBits(s, pos, |s| - pos);
      if rest != 0 then Err else Ok(acc)
  }

  method DecodeEntry(r: BitReader) returns (e: Result<DepthEntry>)
    requires r.Valid() && r.k == 2 && r.position <= r.limit
    modifies r`position
    ensures Reads(e, r.position, ReadEntry(r.Stream(), old(r.position)))
  {
    LayoutReadableIfOk(r.Stream(), r.position, 2, ENTRY);
    WordSizes();
    var v :- r.Fields(ENTRY);
    if !(-0x8000_0000_0000_0000 <= v[3] < 0x8000_0000_0000_0000) {
      return Err;
    }
    return Ok(DepthEntry(v[0], v[1], v[2], v[3], v[4]));
  }

  method DecodeRecord(r: BitReader) returns (rec: Result<DepthRecord>)
    requires r.Valid() && r.k == 2 && r.position <= r.limit
    modifies r`position
    ensures Reads(rec, r.position, ReadRecord(r.Stream(), old(r.position)))
  {
    hide ReadLayout, ReadEntries, Pow2;
    LayoutReadableIfOk(r.Stream(), r.position, 2, HEADER);
    WordSizes();
    var v :- r.Fields(HEADER);
    if v[3] > MAX_ENTRIES {
      return Err;
    }
    var entries :- DecodeEntries(r, v[3]);
    return Ok(DepthRecord(v[0], v[1], v[2], entries));
  }

  method DecodeEntries(r: BitReader, count: nat) returns (es: Result<seq<DepthEntry>>)
    requires r.Valid() && r.k == 2 && r.position <= r.limit
    modifies r`position
    ensures Reads(es, r.position, ReadEntries(r.Stream(), old(r.position), count, []))
  {
    hide ReadEntry, Unpack;
    var entries := [];
    ghost var start := r.position;
    for i := 0 to count
      invariant r.position <= r.limit
      invariant ReadEntries(r.Stream(), start, count, []) == ReadEntries(r.Stream(), r.position, count - i, entries)
    {
      var e :- DecodeEntry(r);
      entries := entries + [e];
    }
    return Ok(entries);
  }

  method DecodeDepthRecord(data: seq<byte>) returns (rec: Result<(DepthRecord, nat)>)
    ensures rec == ReadRecord(Unpack(data), 0)
  {
    var r := new BitReader(data);
    var record :- DecodeRecord(r);
    return Ok((record, r.position));
  }

  method DecodeDepth(data: seq<byte>) returns (rs: Result<seq<DepthRecord>>)
    ensures rs == ReadBatch(Unpack(data), 0, [], 0)
  {
    hide ReadRecord, Unpack, ToNat;
    var r := new BitReader(data);
    var records := [];
    var entries: nat := 0;
    while 8 * |data| - r.position > 7
      invariant r.position <= 8 * |data|
      invariant ReadBatch(Unpack(data), 0, [], 0) == ReadBatch(Unpack(data), r.position, records, entries)
      decreases 8 * |data| - r.position
    {
      var record :- DecodeRecord(r);
      entries := entries + |record.entries|;
      if |records| >= MAX_RECORDS || entries > MAX_ENTRIES {
        return Err;
      }
      records := records + [record];
    }
    var trailing := r.Bits(8 * |data| - r.position);
    var rest := trailing.Extract();
    if rest != 0 {
      return Err;
    }
    return Ok(records);
  }

  // ---- decoding undoes encoding -------------------------------------------

  lemma EntryRead(s: seq<bool>, pos: nat, e: DepthEntry)
    requires At(s, pos, EntryBits(e))
    ensures ReadEntry(s, pos) == Ok((e, pos + |EntryBits(e)|))
  {
    hide ReadLayout, LayoutBits, At, AllReadable;
    EntryReadable(e);
    LayoutReadExact(s, pos, 2, ENTRY, EntryValues(e));
  }

  lemma {:induction false} EntriesRead(s: seq<bool>, pos: nat, es: seq<DepthEntry>, acc: seq<DepthEntry>)
    requires At(s, pos, EntriesBits(es))
    ensures ReadEntries(s, pos, |es|, acc) == Ok((acc + es, pos + |EntriesBits(es)|))
    decreases |es|
  {
    hide At, EntryBits, ReadEntry;
    if |es| == 0 {
      assert acc + es == acc;
    } else {
      AtSplit(s, pos, EntryBits(es[0]), EntriesBits(es[1..]));
      EntryRead(s, pos, es[0]);
      EntriesRead(s, pos + |EntryBits(es[0])|, es[1..], acc + [es[0]]);
      assert acc + [es[0]] + es[1..] == acc + es;
    }
  }

  /** One record reads back wherever it stands, unless it has more entries than
      the reader admits, and takes at least a byte. */
  lemma RecordRead(s: seq<bool>, pos: nat, r: DepthRecord)
    requires At(s, pos, RecordBits(r)) && Encodable(r)
    ensures ReadRecord(s, pos) ==
            if |r.entries| <= MAX_ENTRIES then Ok((r, pos + |RecordBits(r)|)) else Err
    ensures |RecordBits(r)| >= 8
  {
    hide ReadLayout, ReadEntries, LayoutBits, At, RecordBits, EntriesBits, HeaderBits, Encodable;
    RecordParts(s, pos, r);
  }

  lemma RecordParts(s: seq<bool>, pos: nat, r: DepthRecord)
    requires At(s, pos, RecordBits(r)) && Encodable(r)
    ensures |RecordBits(r)| == |HeaderBits(r)| + |EntriesBits(r.entries)| && |HeaderBits(r)| >= 8
    ensures var next := pos + |HeaderBits(r)|;
      && next <= |s| && ReadLayout(s, pos, 2, HEADER) == Ok((HeaderValues(r), next))
      && ReadEntries(s, next, |r.entries|, []) == Ok((r.entries, next + |EntriesBits(r.entries)|))
  {
    hide *;
    HeaderReadable(r);
    RecordSplit(s, pos, r);
    assert [] + r.entries == r.entries;
    LayoutReadExact(s, pos, 2, HEADER, HeaderValues(r));
    EntriesRead(s, pos + |HeaderBits(r)|, r.entries, []);
  }

  lemma RecordSplit(s: seq<bool>, pos: nat, r: DepthRecord)
    requires At(s, pos, RecordBits(r))
    ensures At(s, pos, LayoutBits(2, HEADER, HeaderValues(r))) && HeaderBits(r) ==
            LayoutBits(2, HEADER, HeaderValues(r))
    ensures 8 <= |HeaderBits(r)| && pos + |RecordBits(r)| <= |s|
    ensures At(s, pos + |HeaderBits(r)|, EntriesBits(r.entries))
    ensures |RecordBits(r)| == |HeaderBits(r)| + |EntriesBits(r.entries)|
  {
    hide LayoutBits, EntriesBits, At;
    AtEnd(s, pos, RecordBits(r));
    AtSplit(s, pos, HeaderBits(r), EntriesBits(r.entries));
  }

  lemma {:induction false} BatchRead(s: seq<bool>, pos: nat, rs: seq<DepthRecord>, pad: seq<bool>,
                                     acc: seq<DepthRecord>, entries: nat)
    requires At(s, pos, BatchBits(rs)) && At(s, pos + |BatchBits(rs)|, pad)
    requires |s| == pos + |BatchBits(rs)| + |pad| && |pad| < 8
    requires |acc| <= MAX_RECORDS && entries <= MAX_ENTRIES
    requires forall r :: r in rs ==> Encodable(r)
    ensures ReadBatch(s, pos, acc, entries) ==
            if |acc| + |rs| <= MAX_RECORDS && entries + TotalEntries(rs) <= MAX_ENTRIES && ToNat(pad) == 0
            then Ok(acc + rs) else Err
    decreases |rs|
  {
    hide RecordBits, ReadRecord, ToNat, Encodable;
    if |rs| == 0 {
      assert acc + rs == acc;
    } else {
      var r := rs[0];
      AtSplit(s, pos, RecordBits(r), BatchBits(rs[1..]));
      RecordRead(s, pos, r);
      if |acc| < MAX_RECORDS && entries + |r.entries| <= MAX_ENTRIES {
        BatchRead(s, pos + |RecordBits(r)|, rs[1..], pad, acc + [r], entries + |r.entries|);
        assert acc + [r] + rs[1..] == acc + rs;
      }
    }
  }

  /** Records joined bit to bit, with fewer than eight bits after them, decode to
      exactly themselves when the batch limits are kept and the bits after them
      are zero, and are refused in every other case. */
  lemma BatchRoundTrip(data: seq<byte>, rs: seq<DepthRecord>, pad: seq<bool>)
    requires Unpack(data) == BatchBits(rs) + pad && |pad| < 8
    requires forall r :: r in rs ==> Encodable(r)
    ensures ReadBatch(Unpack(data), 0, [], 0) ==
            if |rs| <= 1024 && TotalEntries(rs) <= 100_000 && ToNat(pad) == 0 then Ok(rs) else Err
  {
    hide BatchBits, ReadBatch, TotalEntries, ToNat, Encodable;
    BatchRead(Unpack(data), 0, rs, pad, [], 0);
    assert [] + rs == rs;
  }

  /** What the encoder returns for one record reads back as that record, and the
      reader reports the record's exact bit length. */
  lemma RecordRoundTrip(data: seq<byte>, r: DepthRecord)
    requires Encodable(r) && Holds(data, RecordBits(r))
    ensures ReadRecord(Unpack(data), 0) ==
            if |r.entries| <= MAX_ENTRIES then Ok((r, |RecordBits(r)|)) else Err
  {
    hide RecordBits, ReadRecord;
    RecordRead(Unpack(data), 0, r);
  }
}
