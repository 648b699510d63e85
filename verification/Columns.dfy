/** Column groups of tick history: a header, fixed-size descriptors, then one
    deflated block per column, projected onto a table of rows. */
module Columns {
  import opened Results
  import opened Bits

  /** Inflation within a byte limit; what it makes of its input is not modelled. */
  type Inflater = f: (seq<byte>, nat) -> Result<seq<byte>> | forall c, n :: f(c, n).Ok? ==> |f(c, n).value| <= n
    witness (c: seq<byte>, n: nat) => Err

  datatype Column = Column(
    word0: nat, compressedSize: nat, inflateSize: nat, id: i32,
    decoded: seq<byte>, encoded: seq<byte>, projected: bool, unusedTail: seq<byte>)

  /** A decoded value: a running time, a price as eight bytes or as integer units
      of the last digit, or a 64-bit count. */
  datatype Cell = Time(ms: int) | Price(bytes: seq<byte>) | Scaled(units: int, digits: nat) | Count(n: nat)

  datatype Row = Row(
    time: Option<Cell>, bid: Option<Cell>, ask: Option<Cell>, last: Option<Cell>,
    volume: Option<Cell>, auxiliary: Option<Cell>)
  {
    function Get(id: int): Option<Cell>
      requires Known(id)
    {
      if id == 1 then time else if id == 2 then bid else if id == 4 then ask
      else if id == 8 then last else if id == 16 then volume else auxiliary
    }

    function With(id: int, cell: Cell): (row: Row)
      requires Known(id)
      ensures row.Get(id) == Some(cell)
      ensures forall other :: Known(other) && other != id ==> row.Get(other) == Get(other)
    {
      if id == 1 then this.(time := Some(cell)) else if id == 2 then this.(bid := Some(cell))
      else if id == 4 then this.(ask := Some(cell)) else if id == 8 then this.(last := Some(cell))
      else if id == 16 then this.(volume := Some(cell)) else this.(auxiliary := Some(cell))
    }
  }

  const EMPTY: Row := Row(None, None, None, None, None, None)

  datatype Group = Group(rows: seq<Row>, columns: seq<Column>, compressedBytes: nat, compressedLimit: nat)

  predicate Known(id: int) {
    id == 1 || id == 2 || id == 4 || id == 8 || id == 16 || id == 64
  }

  // ---- bytes --------------------------------------------------------------

  function Taken(data: seq<byte>, pos: nat, size: nat): (r: Result<(seq<byte>, nat)>)
    ensures r.Ok? ==> r.value.1 == pos + size <= |data| && |r.value.0| == size
  {
    if pos + size > |data| then Err else Ok((data[pos..pos + size], pos + size))
  }

  function U32At(b: seq<byte>, o: nat): nat
    requires o + 4 <= |b|
  {
    FromLE(b[o..o + 4])
  }

  function I32At(b: seq<byte>, o: nat): i32
    requires o + 4 <= |b|
  {
    FromLE32(b[o..o + 4])
  }

  // ---- the stages ---------------------------------------------------------

  function DescriptorOf(raw: seq<byte>): Column
    requires |raw| == 36
  {
    Column(U32At(raw, 0), U32At(raw, 4), U32At(raw, 8), I32At(raw, 12), [], [], false, [])
  }

  function Descriptors(data: seq<byte>, pos: nat, n: nat, acc: seq<Column>): (r: Result<(seq<Column>, nat)>)
    ensures r.Ok? ==> r.value.1 == pos + 36 * n && |r.value.0| == |acc| + n
    ensures r.Ok? && pos <= |data| ==> r.value.1 <= |data|
    decreases n
  {
    if n == 0 then Ok((acc, pos)) else
    var (raw, next) :- Taken(data, pos, 36);
    Descriptors(data, next, n - 1, acc + [DescriptorOf(raw)])
  }

  /** Totals so far while reading the blocks. */
  datatype Totals = Totals(compressed: nat, inflated: nat)

  /** One column's block: unknown columns keep their bytes, known ones inflate
      within what is left of the byte limit. */
  function BlockOf(inflate: Inflater, d: Column, raw: seq<byte>, left: nat): (r: Result<Column>)
    ensures r.Ok? ==> |r.value.decoded| <= left + |d.decoded| && r.value.compressedSize == d.compressedSize
  {
    if !Known(d.id) then Ok(d.(encoded := raw)) else
    var decoded :- inflate(raw, left);
    Ok(d.(decoded := decoded))
  }

  function Blocks(inflate: Inflater, data: seq<byte>, pos: nat, cs: seq<Column>, limit: nat, maxBytes: nat,
                  totals: Totals, acc: seq<Column>): (r: Result<((seq<Column>, Totals), nat)>)
    requires totals.inflated <= maxBytes
    requires forall d :: d in cs ==> |d.decoded| == 0
    ensures r.Ok? ==> r.value.0.1.inflated <= maxBytes && |r.value.0.0| == |acc| + |cs|
    ensures r.Ok? ==> r.value.1 - pos == r.value.0.1.compressed - totals.compressed >= 0
    ensures r.Ok? && pos <= |data| ==> r.value.1 <= |data|
    decreases |cs|
  {
    if |cs| == 0 then Ok(((acc, totals), pos)) else
    var d := cs[0];
    if totals.compressed + d.compressedSize > limit then Err else
    var (raw, next) :- Taken(data, pos, d.compressedSize);
    var block :- BlockOf(inflate, d, raw, maxBytes - totals.inflated);
    Blocks(inflate, data, next, cs[1..], limit, maxBytes,
           Totals(totals.compressed + d.compressedSize, totals.inflated + |block.decoded|), acc + [block])
  }

  lemma BlocksEnd(inflate: Inflater, data: seq<byte>, pos: nat, limit: nat, maxBytes: nat, totals: Totals,
                  acc: seq<Column>)
    requires totals.inflated <= maxBytes
    ensures Blocks(inflate, data, pos, [], limit, maxBytes, totals, acc) == Ok(((acc, totals), pos))
  {
  }

  lemma BlocksUnfold(inflate: Inflater, data: seq<byte>, pos: nat, cs: seq<Column>, limit: nat, maxBytes: nat,
                     totals: Totals, acc: seq<Column>)
    requires totals.inflated <= maxBytes && |cs| > 0 && forall d :: d in cs ==> |d.decoded| == 0
    ensures Blocks(inflate, data, pos, cs, limit, maxBytes, totals, acc) ==
      if totals.compressed + cs[0].compressedSize > limit || Taken(data, pos, cs[0].compressedSize).Err? then Err else
      var (raw, next) := Taken(data, pos, cs[0].compressedSize).value;
      var block := BlockOf(inflate, cs[0], raw, maxBytes - totals.inflated);
      if block.Err? then Err else
      Blocks(inflate, data, next, cs[1..], limit, maxBytes,
             Totals(totals.compressed + cs[0].compressedSize, totals.inflated + |block.value.decoded|),
             acc + [block.value])
  {
    hide BlockOf, Taken;
  }

  /** Times accumulate with 64-bit wrap-around. */
  function Cumulative(decoded: seq<byte>, n: nat): int
    requires 8 * n <= |decoded|
  {
    if n == 0 then 0
    else WrapI64(Cumulative(decoded, n - 1) + Signed64(decoded[8 * (n - 1)..8 * n]))
  }

  function Signed64(b: seq<byte>): int
    requires |b| == 8
  {
    var v := FromLE(b);
    if v >= 0x8000_0000_0000_0000 then v - 0x1_0000_0000_0000_0000 else v
  }

  function CellAt(id: int, decoded: seq<byte>, i: nat): Cell
    requires 8 * (i + 1) <= |decoded|
  {
    if id == 1 then Time(Cumulative(decoded, i + 1))
    else if id == 2 || id == 4 || id == 8 then Price(decoded[8 * i..8 * (i + 1)])
    else Count(FromLE(decoded[8 * i..8 * (i + 1)]))
  }

  /** The rows with the first `n` cells of a column filled in. */
  function FilledTo(rows: seq<Row>, id: int, decoded: seq<byte>, n: nat): (r: seq<Row>)
    requires Known(id) && n <= |rows| && 8 * |rows| <= |decoded|
    ensures |r| == |rows|
    ensures forall i :: 0 <= i < |rows| ==> r[i] == if i < n then rows[i].With(id, CellAt(id, decoded, i)) else rows[i]
  {
    seq(|rows|, i requires 0 <= i < |rows| => if i < n then rows[i].With(id, CellAt(id, decoded, i)) else rows[i])
  }

  /** Project the columns in order; only the first with a known id counts. */
  function Projected(cs: seq<Column>, used: set<int>, rows: seq<Row>, acc: seq<Column>):
    (r: Result<(seq<Row>, seq<Column>)>)
    ensures r.Ok? ==> |r.value.0| == |rows| && |r.value.1| == |acc| + |cs|
    decreases |cs|
  {
    if |cs| == 0 then Ok((rows, acc)) else
    var d := cs[0];
    if d.id in used || !Known(d.id) then Projected(cs[1..], used, rows, acc + [d])
    else if |d.decoded| < 8 * |rows| then Err
    else
      Projected(cs[1..], used + {d.id}, FilledTo(rows, d.id, d.decoded, |rows|),
                acc + [d.(projected := true, unusedTail := d.decoded[8 * |rows|..])])
  }

  function Blank(n: nat): (rows: seq<Row>)
    ensures |rows| == n && forall i :: 0 <= i < n ==> rows[i] == EMPTY
  {
    seq(n, _ => EMPTY)
  }

  /** A group from `pos`: 52 header bytes, 36 per column, then the blocks. */
  function ReadGroup(inflate: Inflater, data: seq<byte>, pos: nat, maxTicks: nat, maxBytes: nat): (r: Result<(Group,
                     nat)>)
    ensures r.Ok? ==>
      var (group, next) := r.value;
      && |group.rows| <= maxTicks
      && next == pos + 52 + 36 * |group.columns| + group.compressedBytes
      && (pos <= |data| ==> next <= |data|)
  {
    var (header, at) :- Taken(data, pos, 52);
    var count, n := U32At(header, 8), I32At(header, 48);
    if count > maxTicks || n < 0 || n > 4096 then Err else
    var (described, begin) :- Descriptors(data, at, n, []);
    FreshColumns(data, at, n, []);
    var ((filled, totals), next) :- Blocks(inflate, data, begin, described, U32At(header, 4), maxBytes,
                                               Totals(0, 0), []);
    var (rows, columns) :- Projected(filled, {}, Blank(count), []);
    Ok((Group(rows, columns, totals.compressed, U32At(header, 4)), next))
  }

  lemma {:induction false} FreshColumns(data: seq<byte>, pos: nat, n: nat, acc: seq<Column>)
    requires forall d :: d in acc ==> |d.decoded| == 0
    ensures match Descriptors(data, pos, n, acc)
      case Ok((cs, _)) => forall d :: d in cs ==> |d.decoded| == 0
      case Err => true
    decreases n
  {
    hide FromLE, FromLE32;
    if n > 0 && Taken(data, pos, 36).Ok? {
      var (raw, next) := Taken(data, pos, 36).value;
      FreshColumns(data, next, n - 1, acc + [DescriptorOf(raw)]);
    }
  }

  // ---- what a group holds -------------------------------------------------

  function InflatedBytes(cs: seq<Column>): nat {
    if |cs| == 0 then 0 else InflatedBytes(cs[..|cs| - 1]) + |cs[|cs| - 1].decoded|
  }

  lemma InflatedAppend(acc: seq<Column>, d: Column)
    ensures InflatedBytes(acc + [d]) == InflatedBytes(acc) + |d.decoded|
  {
    assert (acc + [d])[..|acc|] == acc;
  }

  lemma {:induction false} InflatedConcat(a: seq<Column>, b: seq<Column>)
    ensures InflatedBytes(a + b) == InflatedBytes(a) + InflatedBytes(b)
    decreases |b|
  {
    if |b| == 0 {
      assert a + b == a;
    } else {
      assert (a + b)[..|a + b| - 1] == a + b[..|b| - 1];
      InflatedConcat(a, b[..|b| - 1]);
    }
  }

  lemma {:induction false} BlocksInflate(inflate: Inflater, data: seq<byte>, pos: nat, cs: seq<Column>, limit: nat,
                                         maxBytes: nat, totals: Totals, acc: seq<Column>)
    requires totals.inflated <= maxBytes && forall d :: d in cs ==> |d.decoded| == 0
    ensures match Blocks(inflate, data, pos, cs, limit, maxBytes, totals, acc)
      case Err => true
      case Ok(((columns, end), _)) => InflatedBytes(columns) == InflatedBytes(acc) + (end.inflated - totals.inflated)
    decreases |cs|
  {
    hide InflatedBytes;
    if |cs| > 0 && totals.compressed + cs[0].compressedSize <= limit && Taken(data, pos, cs[0].compressedSize).Ok? {
      var (raw, next) := Taken(data, pos, cs[0].compressedSize).value;
      var block := BlockOf(inflate, cs[0], raw, maxBytes - totals.inflated);
      if block.Ok? {
        InflatedAppend(acc, block.value);
        BlocksInflate(inflate, data, next, cs[1..], limit, maxBytes,
                      Totals(totals.compressed + cs[0].compressedSize, totals.inflated + |block.value.decoded|),
                      acc + [block.value]);
      }
    }
  }

  lemma {:induction false} ProjectedInflate(cs: seq<Column>, used: set<int>, rows: seq<Row>, acc: seq<Column>)
    ensures match Projected(cs, used, rows, acc)
      case Err => true
      case Ok((_, columns)) => InflatedBytes(columns) == InflatedBytes(acc) + InflatedBytes(cs)
    decreases |cs|
  {
    hide InflatedBytes, FilledTo;
    if |cs| == 0 {
      NothingInflated(cs);
    } else {
      var d := cs[0];
      assert [d] + cs[1..] == cs;
      InflatedConcat([d], cs[1..]);
      InflatedAppend([], d);
      NothingInflated([]);
      assert [] + [d] == [d];
      if d.id in used || !Known(d.id) {
        InflatedAppend(acc, d);
        ProjectedInflate(cs[1..], used, rows, acc + [d]);
      } else if |d.decoded| >= 8 * |rows| {
        var done := d.(projected := true, unusedTail := d.decoded[8 * |rows|..]);
        InflatedAppend(acc, done);
        ProjectedInflate(cs[1..], used + {d.id}, FilledTo(rows, d.id, d.decoded, |rows|), acc + [done]);
      }
    }
  }

  lemma NothingInflated(cs: seq<Column>)
    requires |cs| == 0
    ensures InflatedBytes(cs) == 0
  {
  }

  /** A group keeps to the byte limit it was given. */
  lemma GroupInflates(inflate: Inflater, data: seq<byte>, pos: nat, maxTicks: nat, maxBytes: nat)
    ensures match ReadGroup(inflate, data, pos, maxTicks, maxBytes)
      case Err => true
      case Ok((group, _)) => InflatedBytes(group.columns) <= maxBytes
  {
    hide Descriptors, Blocks, Projected, InflatedBytes, FromLE, FromLE32;
    if ReadGroup(inflate, data, pos, maxTicks, maxBytes).Ok? {
      var (header, at) := Taken(data, pos, 52).value;
      var (described, begin) := Descriptors(data, at, I32At(header, 48), []).value;
      FreshColumns(data, at, I32At(header, 48), []);
      BlocksInflate(inflate, data, begin, described, U32At(header, 4), maxBytes, Totals(0, 0), []);
      var ((filled, totals), next) :=
        Blocks(inflate, data, begin, described, U32At(header, 4), maxBytes, Totals(0, 0), []).value;
      ProjectedInflate(filled, {}, Blank(U32At(header, 8)), []);
      NothingInflated([]);
    }
  }

  function First(cs: seq<Column>, id: int): Option<Column> {
    if |cs| == 0 then None else if cs[0].id == id then Some(cs[0]) else First(cs[1..], id)
  }

  /** A cell comes from the first column with its id, which is long enough; later
      columns with that id, and unknown ids, leave the table alone. */
  lemma {:induction false} FirstColumnWins(cs: seq<Column>, used: set<int>, rows: seq<Row>, acc: seq<Column>,
                                           id: int, i: nat)
    requires Known(id) && i < |rows| && Projected(cs, used, rows, acc).Ok?
    ensures var row := Projected(cs, used, rows, acc).value.0[i];
      match First(cs, id)
      case None => row.Get(id) == rows[i].Get(id)
      case Some(d) =>
        if id in used then row.Get(id) == rows[i].Get(id)
        else 8 * |rows| <= |d.decoded| && row.Get(id) == Some(CellAt(id, d.decoded, i))
    decreases |cs|
  {
    hide CellAt;
    if |cs| > 0 {
      var d := cs[0];
      if d.id in used || !Known(d.id) {
        FirstColumnWins(cs[1..], used, rows, acc + [d], id, i);
      } else {
        var done := d.(projected := true, unusedTail := d.decoded[8 * |rows|..]);
        var filled := FilledTo(rows, d.id, d.decoded, |rows|);
        FirstColumnWins(cs[1..], used + {d.id}, filled, acc + [done], id, i);
      }
    }
  }

  /** Price `i` of the first column with this id, as eight bytes. */
  predicate PriceFrom(cs: seq<Column>, id: int, i: nat, cell: Option<Cell>) {
    match First(cs, id)
    case None => cell.None?
    case Some(d) => 8 * i + 8 <= |d.decoded| && cell == Some(Price(d.decoded[8 * i..8 * i + 8]))
  }

  /** Number `i` of the first column with this id, unsigned. */
  predicate CountFrom(cs: seq<Column>, id: int, i: nat, cell: Option<Cell>) {
    match First(cs, id)
    case None => cell.None?
    case Some(d) => 8 * i + 8 <= |d.decoded| && cell == Some(Count(FromLE(d.decoded[8 * i..8 * i + 8])))
  }

  /** A row's time is the time before it plus a difference of eight bytes, modulo 2^64. */
  predicate TimeAfter(row: Row, before: int, difference: seq<byte>) {
    row.time.Some? && row.time.value.Time? &&
    var t := row.time.value.ms;
    && -0x8000_0000_0000_0000 <= t < 0x8000_0000_0000_0000
    && (t - before - FromLE(difference)) % 0x1_0000_0000_0000_0000 == 0
  }

  /** The times of a table: each a difference after the one before it, from zero on. */
  predicate TimesFrom(decoded: seq<byte>, rows: seq<Row>) {
    forall i :: 0 <= i < |rows| ==>
      8 * i + 8 <= |decoded| && TimeAfter(rows[i], TimeBefore(rows, i), decoded[8 * i..8 * i + 8])
  }

  /** The time of the row before row `i`, and zero before the first. */
  function TimeBefore(rows: seq<Row>, i: nat): int
    requires i < |rows|
  {
    if i == 0 then 0 else
    match rows[i - 1].time
    case Some(Time(ms)) => ms
    case _ => 0
  }

  /** What a table of rows says of its columns, cell by cell: bid, ask and last are the
      columns 2, 4 and 8, volume and auxiliary 16 and 64, and the time sums up column 1.
      Of columns with one id the first counts. */
  predicate Tabulates(cs: seq<Column>, rows: seq<Row>) {
    && (forall i :: 0 <= i < |rows| ==>
          && PriceFrom(cs, 2, i, rows[i].bid) && PriceFrom(cs, 4, i, rows[i].ask) && PriceFrom(cs, 8, i, rows[i].last)
          && CountFrom(cs, 16, i, rows[i].volume) && CountFrom(cs, 64, i, rows[i].auxiliary))
    && match First(cs, 1)
       case None => forall i :: 0 <= i < |rows| ==> rows[i].time.None?
       case Some(d) => TimesFrom(d.decoded, rows)
  }

  lemma TimeStep(decoded: seq<byte>, i: nat, row: Row)
    requires 8 * i + 8 <= |decoded| && row.time == Some(Time(Cumulative(decoded, i + 1)))
    ensures TimeAfter(row, Cumulative(decoded, i), decoded[8 * i..8 * i + 8])
  {
    hide FromLE;
    var before, difference := Cumulative(decoded, i), decoded[8 * i..8 * i + 8];
    var t := WrapI64(before + Signed64(difference));
    assert Cumulative(decoded, i + 1) == t;
    FromLEBound(difference);
    assert Pow256(8) == 0x1_0000_0000_0000_0000;
    var v: int, modulus: int := FromLE(difference), 0x1_0000_0000_0000_0000;
    assert Signed64(difference) == v || Signed64(difference) == v - modulus;
    SameResidue(t - before - v, before + Signed64(difference) - t, modulus);
  }

  lemma SameResidue(x: int, y: int, m: nat)
    requires m > 0 && y % m == 0 && (x == -y || x == -y - m)
    ensures x % m == 0
  {
    if x == -y {
      NegatedMultiple(y, m);
    } else {
      NextMultiple(y, m);
      NegatedMultiple(y + m, m);
      assert x == -(y + m);
    }
  }

  lemma NextMultiple(y: int, m: nat)
    requires m > 0 && y % m == 0
    ensures (y + m) % m == 0
  {
    var k := y / m;
    assert y == k * m;
    assert y + m == (k + 1) * m + 0;
    DivUnique(y + m, m, k + 1, 0);
  }

  /** Projection makes a table of the columns. */
  lemma ProjectedTabulates(cs: seq<Column>, count: nat)
    requires Projected(cs, {}, Blank(count), []).Ok?
    ensures Tabulates(cs, Projected(cs, {}, Blank(count), []).value.0)
  {
    hide Projected, First, Cumulative, FromLE, TimeAfter;
    var rows := Projected(cs, {}, Blank(count), []).value.0;
    forall i | 0 <= i < |rows|
      ensures PriceFrom(cs, 2, i, rows[i].bid) && PriceFrom(cs, 4, i, rows[i].ask) && PriceFrom(cs, 8, i, rows[i].last)
      ensures CountFrom(cs, 16, i, rows[i].volume) && CountFrom(cs, 64, i, rows[i].auxiliary)
    {
      CellsOf(cs, count, i);
    }
    forall i | 0 <= i < |rows|
      ensures match First(cs, 1)
        case None => rows[i].time.None?
        case Some(d) => 8 * i + 8 <= |d.decoded| && rows[i].time == Some(Time(Cumulative(d.decoded, i + 1)))
    {
      CellsOf(cs, count, i);
    }
    if First(cs, 1).Some? {
      var decoded := First(cs, 1).value.decoded;
      NoTime(decoded);
      forall i | 0 <= i < |rows|
        ensures 8 * i + 8 <= |decoded| && TimeAfter(rows[i], TimeBefore(rows, i), decoded[8 * i..8 * i + 8])
      {
        assert i > 0 ==> rows[i - 1].time == Some(Time(Cumulative(decoded, i)));
        TimeStep(decoded, i, rows[i]);
      }
    }
  }

  lemma NoTime(decoded: seq<byte>)
    ensures Cumulative(decoded, 0) == 0
  {
  }

  lemma CellsOf(cs: seq<Column>, count: nat, i: nat)
    requires Projected(cs, {}, Blank(count), []).Ok? && i < count
    ensures var row := Projected(cs, {}, Blank(count), []).value.0[i];
      && PriceFrom(cs, 2, i, row.bid) && PriceFrom(cs, 4, i, row.ask) && PriceFrom(cs, 8, i, row.last)
      && CountFrom(cs, 16, i, row.volume) && CountFrom(cs, 64, i, row.auxiliary)
      && match First(cs, 1)
         case None => row.time.None?
         case Some(d) => 8 * i + 8 <= |d.decoded| && row.time == Some(Time(Cumulative(d.decoded, i + 1)))
  {
    hide Projected, First, Cumulative, FromLE;
    FirstColumnWins(cs, {}, Blank(count), [], 1, i);
    FirstColumnWins(cs, {}, Blank(count), [], 2, i);
    FirstColumnWins(cs, {}, Blank(count), [], 4, i);
    FirstColumnWins(cs, {}, Blank(count), [], 8, i);
    FirstColumnWins(cs, {}, Blank(count), [], 16, i);
    FirstColumnWins(cs, {}, Blank(count), [], 64, i);
  }

  /** Projection leaves each column its id and its bytes. */
  predicate SameData(a: seq<Column>, b: seq<Column>) {
    |a| == |b| && forall i :: 0 <= i < |a| ==> a[i].id == b[i].id && a[i].decoded == b[i].decoded
  }

  lemma {:induction false} ProjectedKeeps(cs: seq<Column>, used: set<int>, rows: seq<Row>, acc: seq<Column>,
                                          before: seq<Column>)
    requires SameData(before, acc)
    ensures match Projected(cs, used, rows, acc)
      case Ok((_, columns)) => SameData(before + cs, columns)
      case Err => true
    decreases |cs|
  {
    hide FilledTo;
    if |cs| == 0 {
      assert before + cs == before;
    } else {
      var d := cs[0];
      assert before + cs == before + [d] + cs[1..];
      if d.id in used || !Known(d.id) {
        ProjectedKeeps(cs[1..], used, rows, acc + [d], before + [d]);
      } else if |d.decoded| >= 8 * |rows| {
        ProjectedKeeps(cs[1..], used + {d.id}, FilledTo(rows, d.id, d.decoded, |rows|),
                       acc + [d.(projected := true, unusedTail := d.decoded[8 * |rows|..])], before + [d]);
      }
    }
  }

  lemma {:induction false} SameFirst(a: seq<Column>, b: seq<Column>, id: int)
    requires SameData(a, b)
    ensures First(a, id).Some? <==> First(b, id).Some?
    ensures First(a, id).Some? ==> First(a, id).value.decoded == First(b, id).value.decoded
    decreases |a|
  {
    if |a| > 0 {
      assert forall i :: 0 <= i < |a| - 1 ==> a[1..][i] == a[i + 1] && b[1..][i] == b[i + 1];
      SameFirst(a[1..], b[1..], id);
    }
  }

  lemma SameTable(a: seq<Column>, b: seq<Column>, rows: seq<Row>)
    requires SameData(a, b) && Tabulates(a, rows)
    ensures Tabulates(b, rows)
  {
    hide First, SameData, FromLE, TimesFrom;
    SameFirst(a, b, 1);
    SameFirst(a, b, 2);
    SameFirst(a, b, 4);
    SameFirst(a, b, 8);
    SameFirst(a, b, 16);
    SameFirst(a, b, 64);
  }

  /** Every group that is read is the table of its columns. */
  lemma GroupTabulates(inflate: Inflater, data: seq<byte>, pos: nat, maxTicks: nat, maxBytes: nat)
    ensures match ReadGroup(inflate, data, pos, maxTicks, maxBytes)
      case Ok((group, _)) => Tabulates(group.columns, group.rows)
      case Err => true
  {
    hide Descriptors, Blocks, Projected, FromLE, FromLE32, SameData, Tabulates;
    if ReadGroup(inflate, data, pos, maxTicks, maxBytes).Ok? {
      var (header, at) := Taken(data, pos, 52).value;
      var n, count := I32At(header, 48), U32At(header, 8);
      var (described, begin) := Descriptors(data, at, n, []).value;
      FreshColumns(data, at, n, []);
      var ((filled, totals), next) :=
        Blocks(inflate, data, begin, described, U32At(header, 4), maxBytes, Totals(0, 0), []).value;
      ProjectedTabulates(filled, count);
      NoData();
      ProjectedKeeps(filled, {}, Blank(count), [], []);
      assert [] + filled == filled;
      var group := ReadGroup(inflate, data, pos, maxTicks, maxBytes).value.0;
      SameTable(filled, group.columns, group.rows);
    }
  }

  lemma NoData()
    ensures SameData([], [])
  {
  }

  // ---- the reader ---------------------------------------------------------

  class ByteReader {
    const data: seq<byte>
    var position: nat

    constructor (data: seq<byte>)
      ensures this.data == data && position == 0
    {
      this.data, position := data, 0;
    }

    method Take(size: nat) returns (r: Result<seq<byte>>)
      modifies `position
      ensures match Taken(data, old(position), size)
              case Ok((bytes, next)) => r == Ok(bytes) && position == next
              case Err => r.Err? && position == old(position)
    {
      var end := position + size;
      if end > |data| {
        return Err;
      }
      r := Ok(data[position..end]);
      position := end;
    }
  }

  method ReadColumnGroupLimited(reader: ByteReader, inflate: Inflater, maxTicks: nat, maxBytes: nat)
    returns (r: Result<Group>)
    modifies reader`position
    ensures match ReadGroup(inflate, reader.data, old(reader.position), maxTicks, maxBytes)
            case Ok((group, next)) => r == Ok(group) && reader.position == next
            case Err => r.Err?
  {
    hide Descriptors, Blocks, Projected, FromLE, FromLE32;
    var header :- reader.Take(52);
    var compressedLimit, count, n := U32At(header, 4), U32At(header, 8), I32At(header, 48);
    if count > maxTicks || n < 0 || n > 4096 {
      return Err;
    }
    ghost var at := reader.position;
    FreshColumns(reader.data, at, n, []);
    var described :- DescribeColumns(reader, n);
    var filled :- InflateColumns(reader, inflate, described, compressedLimit, maxBytes);
    var (columns, totals) := filled;
    var table :- ProjectColumns(columns, count);
    return Ok(Group(table.0, table.1, totals.compressed, compressedLimit));
  }

  method DescribeColumns(reader: ByteReader, n: nat) returns (r: Result<seq<Column>>)
    modifies reader`position
    ensures match Descriptors(reader.data, old(reader.position), n, [])
            case Ok((cs, next)) => r == Ok(cs) && reader.position == next
            case Err => r.Err?
  {
    hide DescriptorOf;
    var columns := [];
    for i := 0 to n
      invariant Descriptors(reader.data, old(reader.position), n, []) ==
                Descriptors(reader.data, reader.position, n - i, columns)
    {
      var raw :- reader.Take(36);
      columns := columns + [DescriptorOf(raw)];
    }
    return Ok(columns);
  }

  method InflateColumns(reader: ByteReader, inflate: Inflater, described: seq<Column>, limit: nat, maxBytes: nat)
    returns (r: Result<(seq<Column>, Totals)>)
    requires forall d :: d in described ==> |d.decoded| == 0
    modifies reader`position
    ensures match Blocks(inflate, reader.data, old(reader.position), described, limit, maxBytes, Totals(0, 0), [])
            case Ok((filled, next)) => r == Ok(filled) && reader.position == next
            case Err => r.Err?
  {
    hide BlockOf, Blocks;
    var columns, totals := described, Totals(0, 0);
    assert described[0..] == described && columns[..0] == [];
    for i := 0 to |described|
      invariant |columns| == |described| && columns[i..] == described[i..] && totals.inflated <= maxBytes
      invariant Blocks(inflate, reader.data, old(reader.position), described, limit, maxBytes, Totals(0, 0), []) ==
                Blocks(inflate, reader.data, reader.position, described[i..], limit, maxBytes, totals, columns[..i])
    {
      BlocksUnfold(inflate, reader.data, reader.position, described[i..], limit, maxBytes, totals, columns[..i]);
      var d := columns[i];
      assert d == described[i..][0] && described[i..][1..] == described[i + 1..];
      var compressed := totals.compressed + d.compressedSize;
      if compressed > limit {
        return Err;
      }
      var raw :- reader.Take(d.compressedSize);
      var block :- InflateColumn(inflate, d, raw, maxBytes - totals.inflated);
      totals := Totals(compressed, totals.inflated + |block.decoded|);
      ghost var before := columns[..i];
      columns := columns[i := block];
      assert columns[..i + 1] == before + [block];
    }
    assert columns[..|described|] == columns && described[|described|..] == [];
    BlocksEnd(inflate, reader.data, reader.position, limit, maxBytes, totals, columns);
    return Ok((columns, totals));
  }

  method InflateColumn(inflate: Inflater, d: Column, raw: seq<byte>, left: nat) returns (r: Result<Column>)
    ensures r == BlockOf(inflate, d, raw, left)
  {
    if !Known(d.id) {
      return Ok(d.(encoded := raw));
    }
    var decoded :- inflate(raw, left);
    return Ok(d.(decoded := decoded));
  }

  method ProjectColumns(filled: seq<Column>, count: nat) returns (r: Result<(seq<Row>, seq<Column>)>)
    ensures r == Projected(filled, {}, Blank(count), [])
  {
    hide CellAt;
    var columns, rows, used := filled, Blank(count), {};
    assert filled[0..] == filled && columns[..0] == [];
    for i := 0 to |filled|
      invariant |columns| == |filled| && columns[i..] == filled[i..] && |rows| == count
      invariant Projected(filled, {}, Blank(count), []) == Projected(filled[i..], used, rows, columns[..i])
    {
      var d := columns[i];
      assert d == filled[i..][0] && filled[i..][1..] == filled[i + 1..];
      ghost var before := columns[..i];
      if d.id in used || !Known(d.id) {
        assert columns[..i + 1] == before + [d];
        continue;
      }
      used := used + {d.id};
      if |d.decoded| < count * 8 {
        return Err;
      }
      rows := FillColumn(rows, d.id, d.decoded);
      columns := columns[i := d.(projected := true, unusedTail := d.decoded[8 * count..])];
      assert columns[..i + 1] == before + [columns[i]];
    }
    assert columns[..|filled|] == columns;
    return Ok((rows, columns));
  }

  method FillColumn(start: seq<Row>, id: int, decoded: seq<byte>) returns (rows: seq<Row>)
    requires Known(id) && 8 * |start| <= |decoded|
    ensures rows == FilledTo(start, id, decoded, |start|)
  {
    hide FromLE;
    rows := start;
    var previous := 0;
    for i := 0 to |start|
      invariant rows == FilledTo(start, id, decoded, i)
      invariant id == 1 ==> previous == Cumulative(decoded, i)
    {
      var chunk := decoded[8 * i..8 * (i + 1)];
      var cell := Count(0);
      if id == 1 {
        previous := WrapI64(previous + Signed64(chunk));
        cell := Time(previous);
      } else if id == 2 || id == 4 || id == 8 {
        cell := Price(chunk);
      } else {
        cell := Count(FromLE(chunk));
      }
      rows := rows[i := rows[i].With(id, cell)];
    }
  }
}
