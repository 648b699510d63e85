/** Building a column group, and reading it back. */
module ColumnGroups {
  import opened Results
  import opened Bits
  import opened Columns

  /** A column to be written: its id and its values' little-endian bytes. */
  datatype Source = Source(id: i32, values: seq<byte>)

  type Deflater = seq<byte> -> seq<byte>

  // ---- the layout ---------------------------------------------------------

  function DescriptorBytes(word0: nat, compressed: nat, size: nat, id: i32): (s: seq<byte>)
    ensures |s| == 36
  {
    LE32(word0) + LE32(compressed) + LE32(size) + LE32(id % 0x1_0000_0000) + Zeros(20)
  }

  function HeaderBytes(sum: nat, count: nat, n: nat): (s: seq<byte>)
    ensures |s| == 52
  {
    Zeros(4) + LE32(sum) + LE32(count) + Zeros(36) + LE32(n)
  }

  function DescriptorsBytes(deflate: Deflater, cs: seq<Source>, word0: nat): (s: seq<byte>)
    ensures |s| == 36 * |cs|
  {
    if |cs| == 0 then []
    else DescriptorBytes(word0, |deflate(cs[0].values)|, |cs[0].values|, cs[0].id) +
         DescriptorsBytes(deflate, cs[1..], word0)
  }

  function BlocksBytes(deflate: Deflater, cs: seq<Source>): seq<byte> {
    if |cs| == 0 then [] else deflate(cs[0].values) + BlocksBytes(deflate, cs[1..])
  }

  function GroupBytes(deflate: Deflater, cs: seq<Source>, count: nat, word0: nat): seq<byte> {
    HeaderBytes(|BlocksBytes(deflate, cs)|, count, |cs|) + DescriptorsBytes(deflate, cs, word0) +
    BlocksBytes(deflate, cs)
  }

  /** The first column of the rest moves from the rest to what is written. */
  lemma MoveOne(deflate: Deflater, cs: seq<Source>, i: nat, word0: nat)
    requires i < |cs|
    ensures forall headers :: headers + DescriptorsBytes(deflate, cs[i..], word0) ==
                              headers + DescriptorBytes(word0, |deflate(cs[i].values)|, |cs[i].values|, cs[i].id)
                              + DescriptorsBytes(deflate, cs[i + 1..], word0)
    ensures forall blocks :: blocks + BlocksBytes(deflate, cs[i..]) ==
                             blocks + deflate(cs[i].values) + BlocksBytes(deflate, cs[i + 1..])
  {
    hide DescriptorBytes;
    assert cs[i..][1..] == cs[i + 1..];
  }

  method MakeColumnGroup(deflate: Deflater, columns: seq<Source>, count: nat, word0: nat) returns (out: seq<byte>)
    ensures out == GroupBytes(deflate, columns, count, word0)
  {
    hide DescriptorBytes, HeaderBytes, DescriptorsBytes, BlocksBytes;
    var headers, blocks := [], [];
    assert columns[0..] == columns;
    assert headers + DescriptorsBytes(deflate, columns, word0) == DescriptorsBytes(deflate, columns, word0);
    assert blocks + BlocksBytes(deflate, columns) == BlocksBytes(deflate, columns);
    for i := 0 to |columns|
      invariant headers + DescriptorsBytes(deflate, columns[i..], word0) == DescriptorsBytes(deflate, columns, word0)
      invariant blocks + BlocksBytes(deflate, columns[i..]) == BlocksBytes(deflate, columns)
    {
      MoveOne(deflate, columns, i, word0);
      var compressed := deflate(columns[i].values);
      headers := headers + DescriptorBytes(word0, |compressed|, |columns[i].values|, columns[i].id);
      blocks := blocks + compressed;
    }
    Ends(deflate, word0);
    assert columns[|columns|..] == [];
    assert headers + [] == headers && blocks + [] == blocks;
    out := HeaderBytes(|blocks|, count, |columns|) + headers + blocks;
  }

  lemma Ends(deflate: Deflater, word0: nat)
    ensures DescriptorsBytes(deflate, [], word0) == [] && BlocksBytes(deflate, []) == []
  {
  }

  // ---- reading it back ----------------------------------------------------

  lemma FieldRead(v: nat)
    requires v < 0x1_0000_0000
    ensures FromLE(LE32(v)) == v
  {
    hide LE, FromLE;
    assert Pow256(4) == 0x1_0000_0000;
    LERoundTrip(v, 4);
  }

  lemma SignedFieldRead(v: i32)
    ensures FromLE32(LE32(v % 0x1_0000_0000)) == v
  {
    FieldRead(v % 0x1_0000_0000);
  }

  function Described(deflate: Deflater, word0: nat, c: Source): Column {
    Column(word0, |deflate(c.values)|, |c.values|, c.id, [], [], false, [])
  }

  function Inflated(deflate: Deflater, word0: nat, c: Source): Column {
    if Known(c.id) then Described(deflate, word0, c).(decoded := c.values)
    else Described(deflate, word0, c).(encoded := deflate(c.values))
  }

  function AllDescribed(deflate: Deflater, word0: nat, cs: seq<Source>): (ds: seq<Column>)
    ensures |ds| == |cs| && forall d :: d in ds ==> |d.decoded| == 0
  {
    if |cs| == 0 then [] else [Described(deflate, word0, cs[0])] + AllDescribed(deflate, word0, cs[1..])
  }

  function AllInflated(deflate: Deflater, word0: nat, cs: seq<Source>): (ds: seq<Column>)
    ensures |ds| == |cs| && forall i :: 0 <= i < |cs| ==> ds[i] == Inflated(deflate, word0, cs[i])
  {
    if |cs| == 0 then [] else [Inflated(deflate, word0, cs[0])] + AllInflated(deflate, word0, cs[1..])
  }

  function KnownBytes(cs: seq<Source>): nat {
    if |cs| == 0 then 0 else (if Known(cs[0].id) then |cs[0].values| else 0) + KnownBytes(cs[1..])
  }

  /** The block inflates back, within any limit that holds the values. */
  ghost predicate Undone(inflate: Inflater, deflate: Deflater, c: Source) {
    forall n :: |c.values| <= n ==> inflate(deflate(c.values), n) == Ok(c.values)
  }

  /** The sizes fit their 32-bit fields. */
  predicate SizesFit(deflate: Deflater, c: Source) {
    |c.values| < 0x1_0000_0000 && |deflate(c.values)| < 0x1_0000_0000
  }

  lemma DescriptorRead(word0: nat, compressed: nat, size: nat, id: i32)
    requires word0 < 0x1_0000_0000 && compressed < 0x1_0000_0000 && size < 0x1_0000_0000
    ensures DescriptorOf(DescriptorBytes(word0, compressed, size, id)) ==
            Column(word0, compressed, size, id, [], [], false, [])
  {
    hide LE32, FromLE, FromLE32;
    var s := DescriptorBytes(word0, compressed, size, id);
    assert s[0..4] == LE32(word0) && s[4..8] == LE32(compressed) && s[8..12] == LE32(size);
    assert s[12..16] == LE32(id % 0x1_0000_0000);
    FieldRead(word0);
    FieldRead(compressed);
    FieldRead(size);
    SignedFieldRead(id);
  }

  lemma HeaderRead(sum: nat, count: nat, n: nat)
    requires sum < 0x1_0000_0000 && count < 0x1_0000_0000 && n < 0x8000_0000
    ensures var s := HeaderBytes(sum, count, n);
      U32At(s, 4) == sum && U32At(s, 8) == count && I32At(s, 48) == n
  {
    hide LE32, FromLE, FromLE32;
    var s := HeaderBytes(sum, count, n);
    assert s[4..8] == LE32(sum) && s[8..12] == LE32(count) && s[48..52] == LE32(n);
    FieldRead(sum);
    FieldRead(count);
    SignedFieldRead(n);
  }

  lemma NoSources(deflate: Deflater, word0: nat, cs: seq<Source>)
    requires |cs| == 0
    ensures |BlocksBytes(deflate, cs)| == 0 && KnownBytes(cs) == 0
    ensures AllDescribed(deflate, word0, cs) == [] && AllInflated(deflate, word0, cs) == []
  {
  }

  lemma FirstOf(deflate: Deflater, word0: nat, cs: seq<Source>)
    requires |cs| > 0
    ensures DescriptorsBytes(deflate, cs, word0) ==
            DescriptorBytes(word0, |deflate(cs[0].values)|, |cs[0].values|, cs[0].id) +
            DescriptorsBytes(deflate, cs[1..], word0)
    ensures BlocksBytes(deflate, cs) == deflate(cs[0].values) + BlocksBytes(deflate, cs[1..])
    ensures |Inflated(deflate, word0, cs[0]).decoded| == if Known(cs[0].id) then |cs[0].values| else 0
    ensures KnownBytes(cs) == |Inflated(deflate, word0, cs[0]).decoded| + KnownBytes(cs[1..])
    ensures var ds := AllDescribed(deflate, word0, cs);
      ds[0] == Described(deflate, word0, cs[0]) && ds[1..] == AllDescribed(deflate, word0, cs[1..])
      && ds == [Described(deflate, word0, cs[0])] + AllDescribed(deflate, word0, cs[1..])
    ensures AllInflated(deflate, word0, cs) == [Inflated(deflate, word0, cs[0])] + AllInflated(deflate, word0, cs[1..])
  {
    hide DescriptorBytes;
  }

  lemma AtTaken(data: seq<byte>, pos: nat, piece: seq<byte>)
    requires At(data, pos, piece)
    ensures Taken(data, pos, |piece|) == Ok((piece, pos + |piece|))
  {
  }

  lemma {:induction false} DescriptorsRead(data: seq<byte>, pos: nat, deflate: Deflater, cs: seq<Source>, word0: nat,
                                           acc: seq<Column>)
    requires word0 < 0x1_0000_0000 && forall c :: c in cs ==> SizesFit(deflate, c)
    requires At(data, pos, DescriptorsBytes(deflate, cs, word0))
    ensures Columns.Descriptors(data, pos, |cs|, acc) == Ok((acc + AllDescribed(deflate, word0, cs), pos + 36 * |cs|))
    decreases |cs|
  {
    hide DescriptorBytes, DescriptorOf, DescriptorsBytes, BlocksBytes, AllDescribed, AllInflated, Inflated, Taken, At;
    if |cs| == 0 {
      NoSources(deflate, word0, cs);
      assert acc + [] == acc;
    } else {
      var compressed, size := |deflate(cs[0].values)|, |cs[0].values|;
      assert SizesFit(deflate, cs[0]);
      FirstOf(deflate, word0, cs);
      AtSplit(data, pos, DescriptorBytes(word0, compressed, size, cs[0].id), DescriptorsBytes(deflate, cs[1..], word0));
      AtTaken(data, pos, DescriptorBytes(word0, compressed, size, cs[0].id));
      DescriptorRead(word0, compressed, size, cs[0].id);
      var d := Described(deflate, word0, cs[0]);
      DescriptorsRead(data, pos + 36, deflate, cs[1..], word0, acc + [d]);
      assert acc + [d] + AllDescribed(deflate, word0, cs[1..]) == acc + AllDescribed(deflate, word0, cs);
    }
  }

  lemma {:induction false} BlocksRead(inflate: Inflater, data: seq<byte>, pos: nat, deflate: Deflater, cs: seq<Source>,
                                      word0: nat, limit: nat, maxBytes: nat, totals: Totals, acc: seq<Column>)
    requires forall c :: c in cs ==> Undone(inflate, deflate, c)
    requires At(data, pos, BlocksBytes(deflate, cs))
    requires totals.compressed + |BlocksBytes(deflate, cs)| <= limit
    requires totals.inflated + KnownBytes(cs) <= maxBytes
    ensures Columns.Blocks(inflate, data, pos, AllDescribed(deflate, word0, cs), limit, maxBytes, totals, acc) ==
            Ok(((acc + AllInflated(deflate, word0, cs),
                 Totals(totals.compressed + |BlocksBytes(deflate, cs)|, totals.inflated + KnownBytes(cs))),
                pos + |BlocksBytes(deflate, cs)|))
    decreases |cs|
  {
    hide DescriptorsBytes, BlocksBytes, KnownBytes, AllDescribed, AllInflated, Inflated, Described, At,
         Columns.Blocks, Undone;
    var ds := AllDescribed(deflate, word0, cs);
    if |cs| == 0 {
      NoSources(deflate, word0, cs);
      BlocksDone(inflate, data, pos, ds, limit, maxBytes, totals, acc);
      assert acc + [] == acc;
    } else {
      var block, done := deflate(cs[0].values), Inflated(deflate, word0, cs[0]);
      FirstOf(deflate, word0, cs);
      BlockAdvances(inflate, data, pos, deflate, cs, word0, limit, maxBytes, totals, acc);
      BlocksRead(inflate, data, pos + |block|, deflate, cs[1..], word0, limit, maxBytes,
                 Totals(totals.compressed + |block|, totals.inflated + |done.decoded|), acc + [done]);
      Regrouped(acc, [done], AllInflated(deflate, word0, cs[1..]));
    }
  }

  lemma Regrouped(a: seq<Column>, b: seq<Column>, c: seq<Column>)
    ensures a + b + c == a + (b + c)
  {
  }

  lemma BlockAdvances(inflate: Inflater, data: seq<byte>, pos: nat, deflate: Deflater, cs: seq<Source>,
                      word0: nat, limit: nat, maxBytes: nat, totals: Totals, acc: seq<Column>)
    requires |cs| > 0 && Undone(inflate, deflate, cs[0])
    requires At(data, pos, BlocksBytes(deflate, cs))
    requires totals.compressed + |BlocksBytes(deflate, cs)| <= limit
    requires totals.inflated + KnownBytes(cs) <= maxBytes
    ensures var block, done := deflate(cs[0].values), Inflated(deflate, word0, cs[0]);
      && At(data, pos + |block|, BlocksBytes(deflate, cs[1..]))
      && totals.inflated + |done.decoded| <= maxBytes
      && Columns.Blocks(inflate, data, pos, AllDescribed(deflate, word0, cs), limit, maxBytes, totals, acc) ==
         Columns.Blocks(inflate, data, pos + |block|, AllDescribed(deflate, word0, cs[1..]), limit, maxBytes,
                        Totals(totals.compressed + |block|, totals.inflated + |done.decoded|), acc + [done])
  {
    hide DescriptorsBytes, BlocksBytes, KnownBytes, AllDescribed, AllInflated, Inflated, Taken, At, BlockOf,
      Columns.Blocks, Undone;
    var c, block := cs[0], deflate(cs[0].values);
    FirstOf(deflate, word0, cs);
    AtSplit(data, pos, block, BlocksBytes(deflate, cs[1..]));
    AtTaken(data, pos, block);
    BlockRead(inflate, deflate, word0, c, maxBytes - totals.inflated);
    BlocksStep(inflate, data, pos, AllDescribed(deflate, word0, cs), limit, maxBytes, totals, acc, block,
               Inflated(deflate, word0, c));
  }

  lemma BlocksDone(inflate: Inflater, data: seq<byte>, pos: nat, ds: seq<Column>, limit: nat, maxBytes: nat,
                   totals: Totals, acc: seq<Column>)
    requires totals.inflated <= maxBytes && forall d :: d in ds ==> |d.decoded| == 0
    ensures |ds| == 0 ==> Columns.Blocks(inflate, data, pos, ds, limit, maxBytes, totals, acc) ==
                          Ok(((acc, totals), pos))
  {
  }

  lemma BlocksStep(inflate: Inflater, data: seq<byte>, pos: nat, ds: seq<Column>, limit: nat, maxBytes: nat,
                   totals: Totals, acc: seq<Column>, raw: seq<byte>, block: Column)
    requires totals.inflated <= maxBytes && |ds| > 0 && forall d :: d in ds ==> |d.decoded| == 0
    requires totals.compressed + ds[0].compressedSize <= limit
    requires Taken(data, pos, ds[0].compressedSize) == Ok((raw, pos + |raw|))
    requires BlockOf(inflate, ds[0], raw, maxBytes - totals.inflated) == Ok(block)
    ensures totals.inflated + |block.decoded| <= maxBytes
    ensures Columns.Blocks(inflate, data, pos, ds, limit, maxBytes, totals, acc) ==
            Columns.Blocks(inflate, data, pos + |raw|, ds[1..], limit, maxBytes,
                           Totals(totals.compressed + ds[0].compressedSize, totals.inflated + |block.decoded|),
                           acc + [block])
  {
    hide BlockOf;
    assert ds[0] in ds;
  }

  lemma BlockRead(inflate: Inflater, deflate: Deflater, word0: nat, c: Source, left: nat)
    requires Undone(inflate, deflate, c) && (Known(c.id) ==> |c.values| <= left)
    ensures BlockOf(inflate, Described(deflate, word0, c), deflate(c.values), left) == Ok(Inflated(deflate, word0, c))
  {
  }

  lemma {:induction false} AllProject(cs: seq<Column>, used: set<int>, rows: seq<Row>, acc: seq<Column>)
    requires forall d :: d in cs && Known(d.id) ==> 8 * |rows| <= |d.decoded|
    ensures Projected(cs, used, rows, acc).Ok?
    decreases |cs|
  {
    hide FilledTo;
    if |cs| > 0 {
      var d := cs[0];
      if d.id in used || !Known(d.id) {
        AllProject(cs[1..], used, rows, acc + [d]);
      } else {
        var done := d.(projected := true, unusedTail := d.decoded[8 * |rows|..]);
        AllProject(cs[1..], used + {d.id}, FilledTo(rows, d.id, d.decoded, |rows|), acc + [done]);
      }
    }
  }

  function FirstSource(cs: seq<Source>, id: int): Option<seq<byte>> {
    if |cs| == 0 then None else if cs[0].id == id then Some(cs[0].values) else FirstSource(cs[1..], id)
  }

  lemma {:induction false} FirstAgrees(deflate: Deflater, word0: nat, cs: seq<Source>, id: int)
    requires Known(id)
    ensures match FirstSource(cs, id)
      case None => First(AllInflated(deflate, word0, cs), id) == None
      case Some(values) => First(AllInflated(deflate, word0, cs), id).Some?
                           && First(AllInflated(deflate, word0, cs), id).value.decoded == values
  {
    if |cs| > 0 {
      assert AllInflated(deflate, word0, cs)[1..] == AllInflated(deflate, word0, cs[1..]);
      FirstAgrees(deflate, word0, cs[1..], id);
    }
  }

  /** The cell of row `i` comes from the first column with that id, or is absent. */
  predicate CellFrom(cs: seq<Source>, id: int, count: nat, row: Row, i: nat)
    requires Known(id) && i < count
  {
    match FirstSource(cs, id)
    case None => row.Get(id) == None
    case Some(values) => |values| >= 8 * count && row.Get(id) == Some(CellAt(id, values, i))
  }

  /** What a built group says reads back, wherever it stands: the declared number
      of rows, ending where the group ends, and in every cell the value the first
      column with that id gave, or nothing. */
  lemma GroupRoundTrip(inflate: Inflater, deflate: Deflater, data: seq<byte>, pos: nat, cs: seq<Source>, count: nat,
                       word0: nat, maxTicks: nat, maxBytes: nat, id: int, i: nat)
    requires At(data, pos, GroupBytes(deflate, cs, count, word0))
    requires forall c :: c in cs ==> Undone(inflate, deflate, c) && SizesFit(deflate, c)
    requires forall c :: c in cs && Known(c.id) ==> 8 * count <= |c.values|
    requires word0 < 0x1_0000_0000 && count < 0x1_0000_0000 && |BlocksBytes(deflate, cs)| < 0x1_0000_0000
    requires |cs| <= 4096 && count <= maxTicks && KnownBytes(cs) <= maxBytes
    requires Known(id) && i < count
    ensures var r := ReadGroup(inflate, data, pos, maxTicks, maxBytes);
      && r.Ok?
      && r.value.1 == pos + |GroupBytes(deflate, cs, count, word0)| && |r.value.0.rows| == count
      && CellFrom(cs, id, count, r.value.0.rows[i], i)
  {
    hide Columns.Descriptors, Columns.Blocks, Projected, HeaderBytes, DescriptorsBytes, BlocksBytes, AllDescribed,
      AllInflated, KnownBytes, FirstSource, First, CellAt, U32At, I32At;
    var blocks := BlocksBytes(deflate, cs);
    var header := HeaderBytes(|blocks|, count, |cs|);
    GroupParts(data, pos, deflate, cs, count, word0);
    HeaderRead(|blocks|, count, |cs|);
    var all, inflated := AllDescribed(deflate, word0, cs), AllInflated(deflate, word0, cs);
    assert [] + all == all && [] + inflated == inflated;
    DescriptorsRead(data, pos + 52, deflate, cs, word0, []);
    BlocksRead(inflate, data, pos + 52 + 36 * |cs|, deflate, cs, word0, |blocks|, maxBytes, Totals(0, 0), []);
    LongEnough(deflate, word0, cs, count);
    AllProject(inflated, {}, Blank(count), []);
    FirstColumnWins(inflated, {}, Blank(count), [], id, i);
    FirstAgrees(deflate, word0, cs, id);
  }

  lemma LongEnough(deflate: Deflater, word0: nat, cs: seq<Source>, count: nat)
    requires forall c :: c in cs && Known(c.id) ==> 8 * count <= |c.values|
    ensures forall d :: d in AllInflated(deflate, word0, cs) && Known(d.id) ==> 8 * count <= |d.decoded|
  {
    hide AllInflated;
    forall d | d in AllInflated(deflate, word0, cs) && Known(d.id) ensures 8 * count <= |d.decoded| {
      var j :| 0 <= j < |cs| && AllInflated(deflate, word0, cs)[j] == d;
      assert cs[j] in cs;
    }
  }

  lemma GroupParts(data: seq<byte>, pos: nat, deflate: Deflater, cs: seq<Source>, count: nat, word0: nat)
    requires At(data, pos, GroupBytes(deflate, cs, count, word0))
    ensures var blocks := BlocksBytes(deflate, cs);
      && Taken(data, pos, 52) == Ok((HeaderBytes(|blocks|, count, |cs|), pos + 52))
      && At(data, pos + 52, DescriptorsBytes(deflate, cs, word0))
      && At(data, pos + 52 + 36 * |cs|, blocks)
      && |GroupBytes(deflate, cs, count, word0)| == 52 + 36 * |cs| + |blocks|
  {
    hide HeaderBytes, DescriptorsBytes, BlocksBytes;
    var blocks := BlocksBytes(deflate, cs);
    var header, described := HeaderBytes(|blocks|, count, |cs|), DescriptorsBytes(deflate, cs, word0);
    AtSplit(data, pos, header + described, blocks);
    AtSplit(data, pos, header, described);
  }
}
