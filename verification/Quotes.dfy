/** Live-tick (command 50) and market-watch (command 51) quote records. */
module Quotes {
  import opened Results
  import opened Bits
  import opened PackedCode
  import opened BitPack

  /** A field that is present when its mask bit is set. */
  datatype Slot = Slot(bit: nat, field: Field)

  const LIVE_FIELDS: seq<Slot> := [
    Slot(0, Packed(64, true)), Slot(1, Packed(64, true)), Slot(2, Packed(64, true)),
    Slot(3, Packed(64, false)), Slot(4, Packed(64, true)), Slot(5, Packed(16, true)),
    Slot(6, Packed(64, true)), Slot(7, Packed(64, true)), Slot(8, Packed(64, false))]

  predicate SnapshotUnsigned(bit: nat) {
    9 <= bit <= 15 || bit == 17
  }

  /** Bits 0 to 25, then 27, then 26, then 28 to 40. */
  function SnapshotBit(i: nat): nat {
    if i == 26 then 27 else if i == 27 then 26 else i
  }

  function SnapshotFields(): (t: seq<Slot>)
    ensures ValidTable(t)
  {
    seq(41, i requires 0 <= i < 41 => Slot(SnapshotBit(i), Packed(64, !SnapshotUnsigned(SnapshotBit(i)))))
  }

  /** Every bit from `first` up to 63, unsigned. */
  function ExtensionFields(first: nat): (t: seq<Slot>)
    requires first <= 64
    ensures ValidTable(t)
  {
    seq(64 - first, i requires 0 <= i < 64 - first => Slot(first + i, Packed(64, false)))
  }

  const ADDITIONAL_FIELDS: seq<Slot> := [Slot(62, Packed(64, false)), Slot(63, Packed(64, false))]

  predicate ValidTable(table: seq<Slot>) {
    forall slot :: slot in table ==> WellFormed(slot.field)
  }

  datatype QuoteInput = QuoteInput(
    symbolId: int, seconds: int, mask: u64, values: map<nat, int>, additionalMasks: map<nat, int>)

  type Present = seq<(nat, int)>

  datatype QuoteRow = QuoteRow(
    command: byte, symbolId: int, seconds: int, mask: u64,
    live: Present, timeMs: Option<int>, volumeUnits: Option<int>,
    fields: Present, compatibilityTimeMs: Option<int>,
    extensions: Present, additionalMasks: Option<Present>,
    bitsBeforePadding: nat, paddingCount: nat, paddingValue: nat)

  function Lookup(fields: Present, bit: nat): Option<int> {
    if |fields| == 0 then None
    else if fields[0].0 == bit then Some(fields[0].1) else Lookup(fields[1..], bit)
  }

  function ValueOr(fields: Present, bit: nat, default: int): int {
    match Lookup(fields, bit)
    case Some(v) => v
    case None => default
  }

  /** A row with its projections: the joined time and volume of a live tick, and
      the snapshot time that is shown only when mask bit 26 is set. */
  function MakeRow(command: byte, symbolId: int, seconds: int, mask: u64, main: Present,
                   extensions: Present, additional: Present, bits: nat, paddingCount: nat, padding: nat): QuoteRow
  {
    if command == 50 then
      QuoteRow(command, symbolId, seconds, mask,
               main,
               Some(WrapI64(seconds * 1000 + ValueOr(main, 6, 0))),
               if Bit(mask, 3) || Bit(mask, 8)
               then Some((ValueOr(main, 3, 0) * 100_000_000 + ValueOr(main, 8, 0)) % 0x1_0000_0000_0000_0000)
               else None,
               [], None, extensions, None, bits, paddingCount, padding)
    else
      QuoteRow(command, symbolId, seconds, mask, [], None, None,
               main, Some(if Bit(mask, 26) then WrapI64(seconds * 1000) else 0),
               extensions, Some(additional), bits, paddingCount, padding)
  }

  // ---- layout by command --------------------------------------------------

  const LIVE_HEAD: seq<Field> := [Packed(32, true), Packed(64, true), Packed(64, false)]
  const SNAPSHOT_HEAD: seq<Field> := [Packed(32, true), Packed(64, false), Packed(64, true)]

  function Head(command: byte): (fs: seq<Field>)
    ensures |fs| == 3
  {
    if command == 50 then LIVE_HEAD else SNAPSHOT_HEAD
  }

  function HeadValues(rec: QuoteInput, command: byte): (vs: seq<int>)
    ensures |vs| == 3
  {
    if command == 50 then [rec.symbolId, rec.seconds, rec.mask] else [rec.symbolId, rec.mask, rec.seconds]
  }

  function MainTable(command: byte): (t: seq<Slot>)
    ensures ValidTable(t)
  {
    if command == 50 then LIVE_FIELDS else SnapshotFields()
  }

  function ExtensionTable(command: byte): (t: seq<Slot>)
    ensures ValidTable(t)
  {
    ExtensionFields(if command == 50 then 9 else 41)
  }

  function AdditionalTable(command: byte): (t: seq<Slot>)
    ensures ValidTable(t)
  {
    if command == 50 then [] else ADDITIONAL_FIELDS
  }

  // ---- what is written ----------------------------------------------------

  /** The present fields all have a value, and one their field can hold. */
  predicate CanWrite(mask: u64, table: seq<Slot>, values: map<nat, int>)
    requires ValidTable(table)
  {
    forall slot :: slot in table && Bit(mask, slot.bit) ==>
      slot.bit in values && Writable(slot.field, values[slot.bit])
  }

  function ValueAt(values: map<nat, int>, bit: nat): int {
    if bit in values then values[bit] else 0
  }

  function PresentBits(mask: u64, table: seq<Slot>, values: map<nat, int>): seq<bool> {
    if |table| == 0 then []
    else if Bit(mask, table[0].bit) then
      FieldBits(2, table[0].field, ValueAt(values, table[0].bit)) + PresentBits(mask, table[1..], values)
    else PresentBits(mask, table[1..], values)
  }

  predicate Encodable(rec: QuoteInput, command: byte) {
    && Packable(rec.symbolId, 32) && Packable(rec.seconds, 64)
    && CanWrite(rec.mask, MainTable(command), rec.values)
    && CanWrite(rec.mask, ExtensionTable(command), rec.values)
    && CanWrite(rec.mask, AdditionalTable(command), rec.additionalMasks)
  }

  function BodyBits(rec: QuoteInput, command: byte): seq<bool>
  {
    LayoutBits(2, Head(command), HeadValues(rec, command))
    + PresentBits(rec.mask, MainTable(command), rec.values)
    + PresentBits(rec.mask, ExtensionTable(command), rec.values)
    + PresentBits(rec.mask, AdditionalTable(command), rec.additionalMasks)
  }

  /** A record: its fields and 1 to 8 zero bits up to a byte boundary. */
  function QuoteBits(rec: QuoteInput, command: byte): (s: seq<bool>)
    ensures |s| % 8 == 0
  {
    BodyBits(rec, command) + Padding(|BodyBits(rec, command)|)
  }

  method WritePresent(w: BitWriter, mask: u64, table: seq<Slot>, values: map<nat, int>) returns (r: Result<()>)
    requires w.Valid() && w.k == 2 && ValidTable(table)
    modifies w
    ensures w.Valid()
    ensures r.Ok? <==> CanWrite(mask, table, values)
    ensures r.Ok? ==> w.Contents() == old(w.Contents()) + PresentBits(mask, table, values)
  {
    hide PresentBits, Writable, FieldBits, Bit;
    ghost var goal := w.Contents() + PresentBits(mask, table, values);
    assert table[0..] == table;
    for i := 0 to |table|
      invariant w.Valid()
      invariant forall j :: 0 <= j < i && Bit(mask, table[j].bit) ==>
        table[j].bit in values && Writable(table[j].field, values[table[j].bit])
      invariant w.Contents() + PresentBits(mask, table[i..], values) == goal
    {
      var slot := table[i];
      PresentFrom(w.Contents(), mask, table, values, i);
      if Bit(mask, slot.bit) {
        if slot.bit !in values {
          return Err;
        }
        var _ :- w.OneField(slot.field, values[slot.bit]);
      }
    }
    PresentFrom(w.Contents(), mask, table, values, |table|);
    return Ok(());
  }

  lemma PresentFrom(c: seq<bool>, mask: u64, table: seq<Slot>, values: map<nat, int>, i: nat)
    requires i <= |table|
    ensures c + PresentBits(mask, table[i..], values) ==
            if i == |table| then c
            else (if Bit(mask, table[i].bit)
                  then c + FieldBits(2, table[i].field, ValueAt(values, table[i].bit)) else c)
                 + PresentBits(mask, table[i + 1..], values)
  {
    hide FieldBits, Bit;
    if i < |table| {
      assert table[i..][1..] == table[i + 1..];
      Associate(c, FieldBits(2, table[i].field, ValueAt(values, table[i].bit)),
                PresentBits(mask, table[i + 1..], values), []);
    } else {
      assert c + [] == c;
    }
  }

  method WriteBody(w: BitWriter, rec: QuoteInput, command: byte) returns (r: Result<()>)
    requires w.Valid() && w.k == 2 && (command == 50 || command == 51)
    modifies w
    ensures w.Valid()
    ensures r.Ok? <==> Encodable(rec, command)
    ensures r.Ok? ==> w.Contents() == old(w.Contents()) + BodyBits(rec, command)
  {
    hide LayoutBits, PresentBits, CanWrite, Packable, Writable;
    HeadWritable(rec, command);
    AssociateBody(w.Contents(), rec, command);
    var _ :- w.Fields(Head(command), HeadValues(rec, command));
    var _ :- WritePresent(w, rec.mask, MainTable(command), rec.values);
    var _ :- WritePresent(w, rec.mask, ExtensionTable(command), rec.values);
    NoAdditional(w.Contents(), rec.mask, rec.additionalMasks);
    if command == 51 {
      var _ :- WritePresent(w, rec.mask, ADDITIONAL_FIELDS, rec.additionalMasks);
    }
    return Ok(());
  }

  lemma AssociateBody(c: seq<bool>, rec: QuoteInput, command: byte)
    ensures c + LayoutBits(2, Head(command), HeadValues(rec, command))
            + PresentBits(rec.mask, MainTable(command), rec.values)
            + PresentBits(rec.mask, ExtensionTable(command), rec.values)
            + PresentBits(rec.mask, AdditionalTable(command), rec.additionalMasks)
         == c + BodyBits(rec, command)
  {
    hide LayoutBits, PresentBits;
  }

  method EncodeQuote(rec: QuoteInput, command: byte) returns (data: Result<seq<byte>>)
    ensures data.Ok? <==> (command == 50 || command == 51) && Encodable(rec, command)
    ensures data.Ok? ==> Unpack(data.value) == QuoteBits(rec, command)
  {
    hide BodyBits, Encodable, Unpack, Padding;
    if command != 50 && command != 51 {
      return Err;
    }
    var w := new BitWriter();
    var _ :- WriteBody(w, rec, command);
    assert w.Contents() == BodyBits(rec, command);
    var _ := w.StrictBoundary();
    assert w.Contents() == QuoteBits(rec, command);
    WholeBytes(w.data, w.Contents());
    return Ok(w.data);
  }

  lemma HeadWritable(rec: QuoteInput, command: byte)
    ensures (forall i :: 0 <= i < 3 ==> Writable(Head(command)[i], HeadValues(rec, command)[i]))
       <==> Packable(rec.symbolId, 32) && Packable(rec.seconds, 64)
  {
    hide Pow2;
    var fs, vs := Head(command), HeadValues(rec, command);
    WordSizes();
    assert Writable(fs[0], vs[0]) == Packable(rec.symbolId, 32);
    assert command == 50 ==> Writable(fs[1], vs[1]) == Packable(rec.seconds, 64) && Writable(fs[2], vs[2]);
    assert command != 50 ==> Writable(fs[2], vs[2]) == Packable(rec.seconds, 64) && Writable(fs[1], vs[1]);
  }

  lemma NoAdditional(c: seq<bool>, mask: u64, values: map<nat, int>)
    ensures CanWrite(mask, AdditionalTable(50), values)
    ensures c + PresentBits(mask, AdditionalTable(50), values) == c
  {
  }

  lemma WholeBytes(data: seq<byte>, bits: seq<bool>)
    requires Holds(data, bits) && |bits| % 8 == 0
    ensures Unpack(data) == bits
  {
    hide Unpack;
    assert Unpack(data)[..|bits|] == Unpack(data);
  }

  // ---- what is read -------------------------------------------------------

  function ReadPresent(s: seq<bool>, pos: nat, mask: u64, table: seq<Slot>, acc: Present): (r: Result<(Present, nat)>)
    requires pos <= |s|
    ensures r.Ok? ==> pos <= r.value.1 <= |s|
    decreases |table|
  {
    if |table| == 0 then Ok((acc, pos))
    else if Bit(mask, table[0].bit) then
      var (v, next) :- ReadField(s, pos, 2, table[0].field);
      ReadPresent(s, next, mask, table[1..], acc + [(table[0].bit, v)])
    else ReadPresent(s, pos, mask, table[1..], acc)
  }

  function ReadQuote(s: seq<bool>, pos: nat, command: byte): (r: Result<(QuoteRow, nat)>)
    requires pos <= |s|
    ensures r.Ok? ==> pos < r.value.1 <= |s|
  {
    var (h, p) :- ReadLayout(s, pos, 2, Head(command));
    LayoutReadable(s, pos, 2, Head(command));
    WordSizes();
    var mask := if command == 50 then h[2] else h[1];
    var seconds := if command == 50 then h[1] else h[2];
    var (main, p) :- ReadPresent(s, p, mask, MainTable(command), []);
    var (extensions, p) :- ReadPresent(s, p, mask, ExtensionTable(command), []);
    var (additional, p) :- ReadPresent(s, p, mask, AdditionalTable(command), []);
    var ((count, padding), end) :- ReadBoundary(s, p);
    Ok((MakeRow(command, h[0], seconds, mask, main, extensions, additional, p - pos, count, padding), end))
  }

  function ReadQuotes(s: seq<bool>, pos: nat, command: byte, acc: seq<QuoteRow>): Result<seq<QuoteRow>>
    requires pos <= |s|
    decreases |s| - pos
  {
    if pos == |s| then Ok(acc) else
    var (row, next) :- ReadQuote(s, pos, command);
    ReadQuotes(s, next, command, acc + [row])
  }

  method DecodePresent(r: BitReader, mask: u64, table: seq<Slot>) returns (got: Result<Present>)
    requires r.Valid() && r.k == 2 && r.position <= r.limit
    modifies r`position
    ensures Reads(got, r.position, ReadPresent(r.Stream(), old(r.position), mask, table, []))
  {
    hide ReadField, Bit;
    var present: Present := [];
    ghost var start := r.position;
    assert table[0..] == table;
    for i := 0 to |table|
      invariant r.position <= r.limit
      invariant ReadPresent(r.Stream(), start, mask, table, []) ==
                ReadPresent(r.Stream(), r.position, mask, table[i..], present)
    {
      assert table[i..][1..] == table[i + 1..];
      if Bit(mask, table[i].bit) {
        var v :- r.OneField(table[i].field);
        present := present + [(table[i].bit, v)];
      }
    }
    return Ok(present);
  }

  method DecodeQuote(r: BitReader, command: byte) returns (row: Result<QuoteRow>)
    requires r.Valid() && r.k == 2 && r.position <= r.limit
    modifies r`position
    ensures Reads(row, r.position, ReadQuote(r.Stream(), old(r.position), command))
  {
    hide ReadPresent, ReadLayout, ReadBits, MakeRow, PaddingCount, Pow2;
    var start := r.position;
    HeadReadable(r.Stream(), start, command);
    var h :- r.Fields(Head(command));
    var mask := if command == 50 then h[2] else h[1];
    var seconds := if command == 50 then h[1] else h[2];
    var main :- DecodePresent(r, mask, MainTable(command));
    var extensions :- DecodePresent(r, mask, ExtensionTable(command));
    var additional :- DecodePresent(r, mask, AdditionalTable(command));
    var bits := r.position - start;
    var padding :- r.StrictBoundary();
    return Ok(MakeRow(command, h[0], seconds, mask, main, extensions, additional, bits, padding.0, padding.1));
  }

  lemma HeadReadable(s: seq<bool>, pos: nat, command: byte)
    requires pos <= |s|
    ensures ReadLayout(s, pos, 2, Head(command)).Ok? ==>
      var h := ReadLayout(s, pos, 2, Head(command)).value.0;
      0 <= (if command == 50 then h[2] else h[1]) < 0x1_0000_0000_0000_0000
  {
    hide ReadLayout, Pow2;
    if ReadLayout(s, pos, 2, Head(command)).Ok? {
      LayoutReadable(s, pos, 2, Head(command));
      WordSizes();
    }
  }

  method DecodeQuotes(data: seq<byte>, command: byte) returns (rows: Result<seq<QuoteRow>>)
    ensures rows == if command == 50 || command == 51 then ReadQuotes(Unpack(data), 0, command, []) else Err
  {
    hide ReadQuote;
    if command != 50 && command != 51 {
      return Err;
    }
    var r := new BitReader(data);
    var acc := [];
    while r.position < 8 * |data|
      invariant r.position <= 8 * |data|
      invariant ReadQuotes(Unpack(data), 0, command, []) == ReadQuotes(Unpack(data), r.position, command, acc)
      decreases 8 * |data| - r.position
    {
      var row :- DecodeQuote(r, command);
      acc := acc + [row];
    }
    return Ok(acc);
  }

  // ---- decoding undoes encoding -------------------------------------------

  /** The present fields of a table, in table order, as the reader sees them. */
  function PresentViews(mask: u64, table: seq<Slot>, values: map<nat, int>): Present
    requires ValidTable(table)
  {
    if |table| == 0 then []
    else if Bit(mask, table[0].bit) then
      [(table[0].bit, FieldView(table[0].field, ValueAt(values, table[0].bit)))]
      + PresentViews(mask, table[1..], values)
    else PresentViews(mask, table[1..], values)
  }

  /** The row that stands for a record. */
  function ExpectedRow(rec: QuoteInput, command: byte): QuoteRow {
    var bits := |BodyBits(rec, command)|;
    MakeRow(command, Viewed(rec.symbolId, 32, true), Viewed(rec.seconds, 64, true), rec.mask,
            PresentViews(rec.mask, MainTable(command), rec.values),
            PresentViews(rec.mask, ExtensionTable(command), rec.values),
            PresentViews(rec.mask, AdditionalTable(command), rec.additionalMasks),
            bits, PaddingCount(bits), 0)
  }

  lemma {:induction false} PresentRead(s: seq<bool>, pos: nat, mask: u64, table: seq<Slot>,
                                       values: map<nat, int>, acc: Present)
    requires ValidTable(table) && CanWrite(mask, table, values)
    requires At(s, pos, PresentBits(mask, table, values))
    ensures pos <= |s| && ReadPresent(s, pos, mask, table, acc) ==
            Ok((acc + PresentViews(mask, table, values), pos + |PresentBits(mask, table, values)|))
    decreases |table|
  {
    hide FieldBits, ReadField, FieldView, Bit, Writable, WellFormed;
    if |table| == 0 {
      assert acc + [] == acc;
    } else if Bit(mask, table[0].bit) {
      var bits := FieldBits(2, table[0].field, ValueAt(values, table[0].bit));
      AtSplit(s, pos, bits, PresentBits(mask, table[1..], values));
      FieldRead(s, pos, 2, table[0].field, ValueAt(values, table[0].bit));
      var v := (table[0].bit, FieldView(table[0].field, ValueAt(values, table[0].bit)));
      PresentRead(s, pos + |bits|, mask, table[1..], values, acc + [v]);
      assert acc + [v] + PresentViews(mask, table[1..], values) == acc + PresentViews(mask, table, values);
    } else {
      PresentRead(s, pos, mask, table[1..], values, acc);
    }
  }

  lemma HeadRead(s: seq<bool>, pos: nat, rec: QuoteInput, command: byte)
    requires Packable(rec.symbolId, 32) && Packable(rec.seconds, 64)
    requires At(s, pos, LayoutBits(2, Head(command), HeadValues(rec, command)))
    ensures pos <= |s|
    ensures var id, seconds := Viewed(rec.symbolId, 32, true), Viewed(rec.seconds, 64, true);
      ReadLayout(s, pos, 2, Head(command)) ==
      Ok((if command == 50 then [id, seconds, rec.mask] else [id, rec.mask, seconds],
          pos + |LayoutBits(2, Head(command), HeadValues(rec, command))|))
  {
    hide ReadLayout, LayoutBits, Viewed, Pow2;
    var fs, vs := Head(command), HeadValues(rec, command);
    HeadWritable(rec, command);
    LayoutRead(s, pos, 2, fs, vs);
    WordSizes();
    ViewedIsIdentity(rec.mask, 64, false);
    var id, seconds := Viewed(rec.symbolId, 32, true), Viewed(rec.seconds, 64, true);
    assert Views(fs, vs)[0] == id;
    assert Views(fs, vs) == if command == 50 then [id, seconds, rec.mask] else [id, rec.mask, seconds];
  }

  lemma QuoteSplit(s: seq<bool>, pos: nat, rec: QuoteInput, command: byte)
    requires At(s, pos, QuoteBits(rec, command))
    ensures At(s, pos, LayoutBits(2, Head(command), HeadValues(rec, command)))
    ensures var p := pos + |LayoutBits(2, Head(command), HeadValues(rec, command))|;
      && At(s, p, PresentBits(rec.mask, MainTable(command), rec.values))
      && var p := p + |PresentBits(rec.mask, MainTable(command), rec.values)|;
      && At(s, p, PresentBits(rec.mask, ExtensionTable(command), rec.values))
      && var p := p + |PresentBits(rec.mask, ExtensionTable(command), rec.values)|;
      && At(s, p, PresentBits(rec.mask, AdditionalTable(command), rec.additionalMasks))
      && var p := p + |PresentBits(rec.mask, AdditionalTable(command), rec.additionalMasks)|;
      && p == pos + |BodyBits(rec, command)|
      && At(s, p, Padding(|BodyBits(rec, command)|))
  {
    hide LayoutBits, PresentBits, Padding, At;
    var head := LayoutBits(2, Head(command), HeadValues(rec, command));
    var main := PresentBits(rec.mask, MainTable(command), rec.values);
    var extensions := PresentBits(rec.mask, ExtensionTable(command), rec.values);
    var additional := PresentBits(rec.mask, AdditionalTable(command), rec.additionalMasks);
    AtSplit(s, pos, head + main + extensions + additional, Padding(|BodyBits(rec, command)|));
    AtSplit(s, pos, head + main + extensions, additional);
    AtSplit(s, pos, head + main, extensions);
    AtSplit(s, pos, head, main);
  }

  lemma PaddingRead(s: seq<bool>, pos: nat, bits: nat)
    requires pos % 8 == 0 && At(s, pos + bits, Padding(bits))
    ensures ReadBoundary(s, pos + bits) == Ok(((PaddingCount(bits), 0), pos + bits + PaddingCount(bits)))
  {
    hide ToBits, At, ReadBits;
    assert (pos + bits) / 8 == pos / 8 + bits / 8;
    assert PaddingCount(pos + bits) == PaddingCount(bits);
    ReadBitsAt(s, pos + bits, 0, PaddingCount(bits));
  }

  /** A record that starts on a byte boundary reads back as its row, and the
      reader stops on the boundary where the record ends. */
  lemma QuoteRead(s: seq<bool>, pos: nat, rec: QuoteInput, command: byte)
    requires pos % 8 == 0 && Encodable(rec, command) && At(s, pos, QuoteBits(rec, command))
    ensures pos + |QuoteBits(rec, command)| <= |s|
    ensures ReadQuote(s, pos, command) == Ok((ExpectedRow(rec, command), pos + |QuoteBits(rec, command)|))
  {
    hide ReadLayout, ReadPresent, ReadBoundary, LayoutBits, PresentBits, PresentViews, CanWrite, BodyBits,
      Packable, Viewed, MakeRow, At, PaddingCount, ToBits, Head, HeadValues, MainTable, ExtensionTable, AdditionalTable;
    AtEnd(s, pos, QuoteBits(rec, command));
    QuoteSplit(s, pos, rec, command);
    HeadRead(s, pos, rec, command);
    var p := pos + |LayoutBits(2, Head(command), HeadValues(rec, command))|;
    PresentRead(s, p, rec.mask, MainTable(command), rec.values, []);
    p := p + |PresentBits(rec.mask, MainTable(command), rec.values)|;
    PresentRead(s, p, rec.mask, ExtensionTable(command), rec.values, []);
    p := p + |PresentBits(rec.mask, ExtensionTable(command), rec.values)|;
    PresentRead(s, p, rec.mask, AdditionalTable(command), rec.additionalMasks, []);
    PaddingRead(s, pos, |BodyBits(rec, command)|);
    NothingBefore(PresentViews(rec.mask, MainTable(command), rec.values));
    NothingBefore(PresentViews(rec.mask, ExtensionTable(command), rec.values));
    NothingBefore(PresentViews(rec.mask, AdditionalTable(command), rec.additionalMasks));
  }

  lemma NothingBefore<T>(s: seq<T>)
    ensures [] + s == s
  {
  }

  function BatchBits(recs: seq<QuoteInput>, command: byte): seq<bool> {
    if |recs| == 0 then [] else QuoteBits(recs[0], command) + BatchBits(recs[1..], command)
  }

  function ExpectedRows(recs: seq<QuoteInput>, command: byte): seq<QuoteRow> {
    if |recs| == 0 then [] else [ExpectedRow(recs[0], command)] + ExpectedRows(recs[1..], command)
  }

  lemma {:induction false} QuotesRead(s: seq<bool>, pos: nat, recs: seq<QuoteInput>, command: byte, acc: seq<QuoteRow>)
    requires pos % 8 == 0 && |s| == pos + |BatchBits(recs, command)| && At(s, pos, BatchBits(recs, command))
    requires forall rec :: rec in recs ==> Encodable(rec, command)
    ensures ReadQuotes(s, pos, command, acc) == Ok(acc + ExpectedRows(recs, command))
    decreases |recs|
  {
    hide QuoteBits, ReadQuote, ExpectedRow, Encodable, At;
    if |recs| == 0 {
      assert acc + [] == acc;
    } else {
      var rec := recs[0];
      AtSplit(s, pos, QuoteBits(rec, command), BatchBits(recs[1..], command));
      QuoteRead(s, pos, rec, command);
      QuotesRead(s, pos + |QuoteBits(rec, command)|, recs[1..], command, acc + [ExpectedRow(rec, command)]);
      assert acc + [ExpectedRow(rec, command)] + ExpectedRows(recs[1..], command) == acc + ExpectedRows(recs, command);
    }
  }

  function Joined(parts: seq<seq<byte>>): seq<byte> {
    if |parts| == 0 then [] else parts[0] + Joined(parts[1..])
  }

  lemma {:induction false} JoinedBits(parts: seq<seq<byte>>, recs: seq<QuoteInput>, command: byte)
    requires |parts| == |recs|
    requires forall i :: 0 <= i < |recs| ==> Unpack(parts[i]) == QuoteBits(recs[i], command)
    ensures Unpack(Joined(parts)) == BatchBits(recs, command)
  {
    hide Unpack, QuoteBits;
    if |recs| > 0 {
      UnpackConcat(parts[0], Joined(parts[1..]));
      JoinedBits(parts[1..], recs[1..], command);
    } else {
      assert |Unpack([])| == 0;
    }
  }

  /** Any number of encoded records, joined byte to byte, decode to their rows in
      order. Nothing is assumed of the values but that the encoder took them. */
  lemma BatchRoundTrip(parts: seq<seq<byte>>, recs: seq<QuoteInput>, command: byte)
    requires |parts| == |recs|
    requires forall rec :: rec in recs ==> Encodable(rec, command)
    requires forall i :: 0 <= i < |recs| ==> Unpack(parts[i]) == QuoteBits(recs[i], command)
    ensures ReadQuotes(Unpack(Joined(parts)), 0, command, []) == Ok(ExpectedRows(recs, command))
  {
    hide ReadQuotes, BatchBits, ExpectedRows, QuoteBits, Encodable, Unpack;
    JoinedBits(parts, recs, command);
    QuotesRead(BatchBits(recs, command), 0, recs, command, []);
    assert [] + ExpectedRows(recs, command) == ExpectedRows(recs, command);
  }

  // ---- rows and inputs ----------------------------------------------------

  predicate Distinct(table: seq<Slot>) {
    forall i, j :: 0 <= i < j < |table| ==> table[i].bit != table[j].bit
  }

  /** A row's lookup finds a field exactly when its mask bit is set, and finds the
      value that was given for it when that lies in the field's range. */
  lemma {:induction false} LookupPresent(mask: u64, table: seq<Slot>, values: map<nat, int>, i: nat)
    requires ValidTable(table) && Distinct(table) && i < |table|
    ensures Lookup(PresentViews(mask, table, values), table[i].bit) ==
            if Bit(mask, table[i].bit) then Some(FieldView(table[i].field, ValueAt(values, table[i].bit))) else None
    ensures Readable(table[i].field, ValueAt(values, table[i].bit)) ==>
            FieldView(table[i].field, ValueAt(values, table[i].bit)) == ValueAt(values, table[i].bit)
    decreases |table|
  {
    hide FieldView, Bit, Readable;
    if Readable(table[i].field, ValueAt(values, table[i].bit)) {
      ReadableView(table[i].field, ValueAt(values, table[i].bit));
    }
    if i == 0 {
      if !Bit(mask, table[0].bit) {
        LookupAbsent(mask, table[1..], values, table[0].bit);
      }
    } else {
      LookupPresent(mask, table[1..], values, i - 1);
    }
  }

  lemma {:induction false} LookupAbsent(mask: u64, table: seq<Slot>, values: map<nat, int>, bit: nat)
    requires ValidTable(table) && forall slot :: slot in table ==> slot.bit != bit
    ensures Lookup(PresentViews(mask, table, values), bit) == None
    decreases |table|
  {
    hide FieldView, Bit;
    if |table| > 0 {
      LookupAbsent(mask, table[1..], values, bit);
    }
  }

  lemma TablesDistinct(command: byte)
    ensures Distinct(MainTable(command)) && Distinct(ExtensionTable(command)) && Distinct(AdditionalTable(command))
  {
  }

  /** The snapshot fields in the order they travel: 27 comes before 26. */
  const SNAPSHOT_ORDER: seq<nat> :=
    [0, 1, 2, 3, 4, 5, 6, 7, 8, 9, 10, 11, 12, 13, 14, 15, 16, 17, 18, 19, 20, 21, 22, 23, 24, 25, 27, 26,
     28, 29, 30, 31, 32, 33, 34, 35, 36, 37, 38, 39, 40]

  function BitsOf(fields: Present): seq<nat> {
    if |fields| == 0 then [] else [fields[0].0] + BitsOf(fields[1..])
  }

  function Set(mask: u64, order: seq<nat>): seq<nat> {
    if |order| == 0 then []
    else if Bit(mask, order[0]) then [order[0]] + Set(mask, order[1..])
    else Set(mask, order[1..])
  }

  lemma {:induction false} ViewsInOrder(mask: u64, table: seq<Slot>, values: map<nat, int>, order: seq<nat>)
    requires ValidTable(table) && |table| == |order| && forall i :: 0 <= i < |table| ==> table[i].bit == order[i]
    ensures BitsOf(PresentViews(mask, table, values)) == Set(mask, order)
    decreases |table|
  {
    hide FieldView, Bit;
    if |table| > 0 {
      ViewsInOrder(mask, table[1..], values, order[1..]);
      if Bit(mask, table[0].bit) {
        var first := (table[0].bit, FieldView(table[0].field, ValueAt(values, table[0].bit)));
        assert ([first] + PresentViews(mask, table[1..], values))[1..] == PresentViews(mask, table[1..], values);
      }
    }
  }

  /** What the reader of a bit can return. */
  predicate InReaderRange(command: byte, bit: nat, v: int) {
    if bit >= (if command == 50 then 9 else 41) then 0 <= v < 0x1_0000_0000_0000_0000
    else if command == 50 && bit == 5 then -0x8000 <= v < 0x8000
    else if (if command == 50 then bit == 3 || bit == 8 else 9 <= bit <= 15 || bit == 17)
    then 0 <= v < 0x1_0000_0000_0000_0000
    else -0x8000_0000_0000_0000 <= v < 0x8000_0000_0000_0000
  }

  /** Everything the record says lies in the reader's ranges. */
  predicate AllInRange(rec: QuoteInput, command: byte) {
    && -0x8000_0000 <= rec.symbolId < 0x8000_0000
    && -0x8000_0000_0000_0000 <= rec.seconds < 0x8000_0000_0000_0000
    && (forall bit :: 0 <= bit < 64 && Bit(rec.mask, bit) ==>
          bit in rec.values && InReaderRange(command, bit, rec.values[bit]))
    && (command == 51 ==> forall bit :: 62 <= bit < 64 && Bit(rec.mask, bit) ==>
          bit in rec.additionalMasks && 0 <= rec.additionalMasks[bit] < 0x1_0000_0000_0000_0000)
  }

  function Given(mask: u64, values: map<nat, int>, bit: nat): Option<int> {
    if Bit(mask, bit) then Some(ValueAt(values, bit)) else None
  }

  lemma SlotReadable(command: byte, slot: Slot, v: int)
    requires slot in MainTable(command) || slot in ExtensionTable(command) || slot in AdditionalTable(command)
    ensures WellFormed(slot.field)
    ensures (slot in MainTable(command) || slot in ExtensionTable(command)) && InReaderRange(command, slot.bit, v) ==>
      Readable(slot.field, v)
    ensures slot in AdditionalTable(command) && 0 <= v < 0x1_0000_0000_0000_0000 ==> Readable(slot.field, v)
  {
    hide Pow2;
    WordSizes();
  }

  lemma LookupGiven(mask: u64, table: seq<Slot>, values: map<nat, int>, i: nat)
    requires ValidTable(table) && Distinct(table) && i < |table|
    requires Bit(mask, table[i].bit) ==> Readable(table[i].field, ValueAt(values, table[i].bit))
    ensures Lookup(PresentViews(mask, table, values), table[i].bit) == Given(mask, values, table[i].bit)
  {
    hide PresentViews, FieldView, Bit, Readable;
    LookupPresent(mask, table, values, i);
  }

  lemma MainLookup(rec: QuoteInput, command: byte, bit: nat)
    requires AllInRange(rec, command) && bit < if command == 50 then 9 else 41
    ensures Lookup(PresentViews(rec.mask, MainTable(command), rec.values), bit) == Given(rec.mask, rec.values, bit)
  {
    hide PresentViews, Bit, Readable, InReaderRange, Distinct;
    TablesDistinct(command);
    var i := if command == 50 then bit else SnapshotBit(bit);
    var slot := MainTable(command)[i];
    SlotReadable(command, slot, ValueAt(rec.values, bit));
    LookupGiven(rec.mask, MainTable(command), rec.values, i);
  }

  lemma ExtensionLookup(rec: QuoteInput, command: byte, bit: nat)
    requires AllInRange(rec, command) && (if command == 50 then 9 else 41) <= bit < 64
    ensures Lookup(PresentViews(rec.mask, ExtensionTable(command), rec.values), bit) == Given(rec.mask, rec.values, bit)
  {
    hide PresentViews, Bit, Readable, InReaderRange, Distinct;
    TablesDistinct(command);
    var i := bit - if command == 50 then 9 else 41;
    SlotReadable(command, ExtensionTable(command)[i], ValueAt(rec.values, bit));
    LookupGiven(rec.mask, ExtensionTable(command), rec.values, i);
  }

  lemma AdditionalLookup(rec: QuoteInput, bit: nat)
    requires AllInRange(rec, 51) && 62 <= bit < 64
    ensures Lookup(PresentViews(rec.mask, AdditionalTable(51), rec.additionalMasks), bit) ==
            Given(rec.mask, rec.additionalMasks, bit)
  {
    hide PresentViews, Bit, Readable, InReaderRange, Distinct;
    TablesDistinct(51);
    SlotReadable(51, AdditionalTable(51)[bit - 62], ValueAt(rec.additionalMasks, bit));
    LookupGiven(rec.mask, AdditionalTable(51), rec.additionalMasks, bit - 62);
  }

  /** What a decoded row tells about the record it came from: the identity, every
      field under its own bit in its own list, and 1 to 8 zero padding bits. */
  lemma RowMeans(rec: QuoteInput, command: byte)
    requires (command == 50 || command == 51) && AllInRange(rec, command)
    ensures var row := ExpectedRow(rec, command);
      && row.command == command && row.symbolId == rec.symbolId && row.seconds == rec.seconds && row.mask == rec.mask
      && 1 <= row.paddingCount <= 8 && row.paddingValue == 0 && (row.bitsBeforePadding + row.paddingCount) % 8 == 0
    ensures forall bit :: 0 <= bit < (if command == 50 then 9 else 41) ==>
      var row := ExpectedRow(rec, command);
      Lookup(if command == 50 then row.live else row.fields, bit) == Given(rec.mask, rec.values, bit)
    ensures forall bit :: (if command == 50 then 9 else 41) <= bit < 64 ==>
      Lookup(ExpectedRow(rec, command).extensions, bit) == Given(rec.mask, rec.values, bit)
    ensures command == 50 ==> ExpectedRow(rec, command).additionalMasks == None
    ensures command == 51 ==> ExpectedRow(rec, command).additionalMasks.Some?
    ensures forall bit :: command == 51 && 62 <= bit < 64 ==>
      Lookup(ExpectedRow(rec, command).additionalMasks.value, bit) == Given(rec.mask, rec.additionalMasks, bit)
  {
    hide PresentViews, Lookup, Bit, BodyBits, AllInRange, MainTable, ExtensionTable, AdditionalTable, Viewed, InRange;
    HeadIdentity(rec, command);
    forall bit | 0 <= bit < (if command == 50 then 9 else 41)
      ensures Lookup(PresentViews(rec.mask, MainTable(command), rec.values), bit) == Given(rec.mask, rec.values, bit)
    {
      MainLookup(rec, command, bit);
    }
    forall bit | (if command == 50 then 9 else 41) <= bit < 64
      ensures Lookup(PresentViews(rec.mask, ExtensionTable(command), rec.values), bit) ==
              Given(rec.mask, rec.values, bit)
    {
      ExtensionLookup(rec, command, bit);
    }
    if command == 51 {
      AdditionalLookup(rec, 62);
      AdditionalLookup(rec, 63);
    }
  }

  lemma HeadIdentity(rec: QuoteInput, command: byte)
    requires AllInRange(rec, command)
    ensures Viewed(rec.symbolId, 32, true) == rec.symbolId && Viewed(rec.seconds, 64, true) == rec.seconds
  {
    hide Pow2, Viewed;
    WordSizes();
    ViewedIsIdentity(rec.symbolId, 32, true);
    ViewedIsIdentity(rec.seconds, 64, true);
  }

  /** Whatever lies in the reader's ranges can be written. */
  lemma InRangeEncodable(rec: QuoteInput, command: byte)
    requires (command == 50 || command == 51) && AllInRange(rec, command)
    ensures Encodable(rec, command)
  {
    hide Pow2, Bit, MainTable, ExtensionTable, AdditionalTable, InReaderRange, Readable, Writable;
    WordSizes();
    forall slot | slot in MainTable(command) + ExtensionTable(command) + AdditionalTable(command)
      ensures 0 <= slot.bit < 64 && WellFormed(slot.field)
    {
      SlotBits(command, slot);
    }
    forall slot | slot in MainTable(command) + ExtensionTable(command) && Bit(rec.mask, slot.bit)
      ensures Writable(slot.field, rec.values[slot.bit])
    {
      SlotReadable(command, slot, rec.values[slot.bit]);
      ReadableView(slot.field, rec.values[slot.bit]);
    }
    forall slot | slot in AdditionalTable(command) && Bit(rec.mask, slot.bit)
      ensures slot.bit in rec.additionalMasks && Writable(slot.field, rec.additionalMasks[slot.bit])
    {
      SlotBits(command, slot);
      SlotReadable(command, slot, rec.additionalMasks[slot.bit]);
      ReadableView(slot.field, rec.additionalMasks[slot.bit]);
    }
  }

  lemma SlotBits(command: byte, slot: Slot)
    requires slot in MainTable(command) || slot in ExtensionTable(command) || slot in AdditionalTable(command)
    ensures 0 <= slot.bit < 64 && WellFormed(slot.field)
    ensures slot in AdditionalTable(command) ==> command != 50 && 62 <= slot.bit
  {
  }

  function OrZero(rec: QuoteInput, bit: nat): int {
    if Bit(rec.mask, bit) then ValueAt(rec.values, bit) else 0
  }

  /** What a live row projects: milliseconds added to the seconds, and whole and
      fractional volume joined, both modulo 2^64. */
  lemma LiveProjections(rec: QuoteInput)
    requires AllInRange(rec, 50)
    ensures var row := ExpectedRow(rec, 50);
      && row.timeMs.Some?
      && (row.timeMs.value - (rec.seconds * 1000 + OrZero(rec, 6))) % 0x1_0000_0000_0000_0000 == 0
      && (row.volumeUnits.Some? <==> Bit(rec.mask, 3) || Bit(rec.mask, 8))
      && (row.volumeUnits.Some? ==>
          row.volumeUnits.value == (OrZero(rec, 3) * 100_000_000 + OrZero(rec, 8)) % 0x1_0000_0000_0000_0000)
  {
    hide PresentViews, Lookup, Bit, BodyBits, AllInRange, Viewed, WrapI64, ExtensionTable, AdditionalTable, ValueAt;
    HeadIdentity(rec, 50);
    var time := rec.seconds * 1000 + OrZero(rec, 6);
    NegatedMultiple(time - WrapI64(time), 0x1_0000_0000_0000_0000);
    MainLookup(rec, 50, 3);
    MainLookup(rec, 50, 6);
    MainLookup(rec, 50, 8);
  }

  lemma SnapshotTable()
    ensures |MainTable(51)| == |SNAPSHOT_ORDER| && forall i :: 0 <= i < 41 ==> MainTable(51)[i].bit == SNAPSHOT_ORDER[i]
  {
  }

  lemma SnapshotRow(rec: QuoteInput)
    ensures var row := ExpectedRow(rec, 51);
      && row.fields == PresentViews(rec.mask, MainTable(51), rec.values)
      && row.compatibilityTimeMs == Some(if Bit(rec.mask, 26) then WrapI64(Viewed(rec.seconds, 64, true) * 1000) else 0)
  {
    hide PresentViews, Bit, BodyBits, Viewed, WrapI64, MainTable, ExtensionTable, AdditionalTable;
  }

  /** A snapshot row lists its fields in transmission order, and shows a time only
      when field 26 is present. */
  lemma SnapshotProjections(rec: QuoteInput)
    requires AllInRange(rec, 51)
    ensures var row := ExpectedRow(rec, 51);
      && BitsOf(row.fields) == Set(rec.mask, SNAPSHOT_ORDER)
      && row.compatibilityTimeMs.Some?
      && (Bit(rec.mask, 26) ==> (row.compatibilityTimeMs.value - rec.seconds * 1000) % 0x1_0000_0000_0000_0000 == 0)
      && (!Bit(rec.mask, 26) ==> row.compatibilityTimeMs.value == 0)
  {
    hide ExpectedRow, PresentViews, Bit, AllInRange, Viewed, BitsOf, Set, WrapI64, MainTable;
    HeadIdentity(rec, 51);
    SnapshotRow(rec);
    SnapshotTable();
    ViewsInOrder(rec.mask, MainTable(51), rec.values, SNAPSHOT_ORDER);
  }
}
