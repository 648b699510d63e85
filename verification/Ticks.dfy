/** Tick-history replies: counted containers and up to two trailing ones, under
    one budget of ticks and inflated bytes. */
module Ticks {
  import opened Results
  import opened Bits
  import opened PackedCode
  import opened BitPack
  import opened Columns

  const MAX_TICKS: nat := 1_000_000
  const MAX_EXPANSION: nat := 64 * 1024 * 1024
  const HEADER: nat := 115
  const HOURS: nat := 24
  const INDEX: nat := 384

  datatype Cache = Cache(date: nat, time: i32, size: i32, flags: nat, crc: nat)

  datatype Extension = Extension(hour: Option<nat>, column: Column)

  /** A container with its declared tick count and what its columns inflated to. */
  datatype Container = Container(
    cache: Cache, declared: nat, ticks: seq<Row>, extensions: seq<Extension>, inflated: nat)
  {
    predicate Hourly() {
      Bit(cache.flags, 1)
    }

    /** The bytes a container takes on the wire, by its own header. */
    function Bytes(): int {
      HEADER + cache.size + if Hourly() then INDEX else 0
    }
  }

  datatype History = History(symbol: string, more: bool, containers: seq<Container>, trailing: seq<Container>)

  /** What is left of the shared budget. */
  datatype Left = Left(ticks: nat, bytes: nat)

  /** The text of a UTF-16 field. */
  type Text = seq<byte> -> string

  // ---- column groups ------------------------------------------------------

  function Kept(hour: Option<nat>, columns: seq<Column>): seq<Extension> {
    if |columns| == 0 then [] else
    var d := columns[0];
    (if !d.projected || |d.unusedTail| > 0 then [Extension(hour, d)] else []) + Kept(hour, columns[1..])
  }

  /** What decoding has gathered for one container so far. */
  datatype Gathered = Gathered(ticks: seq<Row>, extensions: seq<Extension>, inflated: nat, left: Left)

  function GroupOf(inflate: Inflater, data: seq<byte>, pos: nat, hour: Option<nat>,
                   so: Gathered): (r: Result<(Gathered, nat)>)
    ensures r.Ok? ==> Spent(so, r.value.0) && r.value.1 >= pos && (pos <= |data| ==> r.value.1 <= |data|)
  {
    var (group, next) :- ReadGroup(inflate, data, pos, so.left.ticks, so.left.bytes);
    GroupInflates(inflate, data, pos, so.left.ticks, so.left.bytes);
    var inflated := InflatedBytes(group.columns);
    Ok((Gathered(so.ticks + group.rows, so.extensions + Kept(hour, group.columns), so.inflated + inflated,
                 Left(so.left.ticks - |group.rows|, so.left.bytes - inflated)), next))
  }

  /** From `a` to `b`, ticks and inflated bytes are exactly what left the budget. */
  predicate Spent(a: Gathered, b: Gathered) {
    && |b.ticks| + b.left.ticks == |a.ticks| + a.left.ticks && |a.ticks| <= |b.ticks|
    && b.inflated + b.left.bytes == a.inflated + a.left.bytes && a.inflated <= b.inflated
  }

  predicate Present(indices: seq<byte>, hour: nat)
    requires |indices| == INDEX && hour < HOURS
  {
    U32At(indices, 16 * hour + 4) != 0
  }

  function Hours(inflate: Inflater, data: seq<byte>, pos: nat, indices: seq<byte>, hour: nat, so: Gathered):
    (r: Result<(Gathered, nat)>)
    requires |indices| == INDEX
    ensures r.Ok? ==> Spent(so, r.value.0) && r.value.1 >= pos && (pos <= |data| ==> r.value.1 <= |data|)
    decreases HOURS - hour
  {
    if hour >= HOURS then Ok((so, pos))
    else if !Present(indices, hour) then Hours(inflate, data, pos, indices, hour + 1, so)
    else
      var (more, next) :- GroupOf(inflate, data, pos, Some(hour), so);
      Hours(inflate, data, next, indices, hour + 1, more)
  }

  // ---- packed ticks -------------------------------------------------------

  const TICK: seq<Field> :=
    [Packed(64, true), Packed(64, true), SignedMagnitude(64), SignedMagnitude(64), SignedMagnitude(64),
     Packed(64, false), Packed(64, false), Packed(32, false), SignedMagnitude(8), Packed(64, false)]

  /** Whole lots and the fraction, joined with 64-bit wrap-around. */
  function Volume(whole: nat, fraction: nat): nat {
    (whole * 100_000_000 + fraction) % 0x1_0000_0000_0000_0000
  }

  function TickRow(vs: seq<int>, digits: nat): Row
    requires AllReadable(TICK, vs)
  {
    Row(Some(Time(vs[1])), Some(Scaled(vs[2], digits)), Some(Scaled(vs[3], digits)), Some(Scaled(vs[4], digits)),
        Some(Count(Volume(vs[5], vs[9]))), Some(Count(vs[6])))
  }

  function ReadTicks(s: seq<bool>, pos: nat, k: nat, digits: nat, n: nat, acc: seq<Row>): (r: Result<seq<Row>>)
    requires pos <= |s|
    ensures r.Ok? ==> |r.value| == |acc| + n
    decreases n
  {
    if n == 0 then Ok(acc) else
    var (vs, next) :- ReadLayout(s, pos, k, TICK);
    LayoutReadable(s, pos, k, TICK);
    if vs[0] != 5 then Err else ReadTicks(s, next, k, digits, n - 1, acc + [TickRow(vs, digits)])
  }

  /** A packed tick as the broker writes it; two numbers are read and ignored. */
  datatype PackedTick = PackedTick(
    time: int, bid: int, ask: int, last: int, whole: nat, auxiliary: nat, ignored: nat, ignoredSign: int, fraction: nat)

  function TickValues(t: PackedTick): seq<int> {
    [5, t.time, t.bid, t.ask, t.last, t.whole, t.auxiliary, t.ignored, t.ignoredSign, t.fraction]
  }

  function TicksBits(k: nat, ts: seq<PackedTick>): seq<bool>
    requires k >= 1
  {
    if |ts| == 0 then [] else LayoutBits(k, TICK, TickValues(ts[0])) + TicksBits(k, ts[1..])
  }

  /** The row a packed tick stands for. */
  function RowOf(t: PackedTick, digits: nat): Row {
    Row(Some(Time(t.time)), Some(Scaled(t.bid, digits)), Some(Scaled(t.ask, digits)), Some(Scaled(t.last, digits)),
        Some(Count(Volume(t.whole, t.fraction))), Some(Count(t.auxiliary)))
  }

  function RowsOf(ts: seq<PackedTick>, digits: nat): (rows: seq<Row>)
    ensures |rows| == |ts| && forall i :: 0 <= i < |ts| ==> rows[i] == RowOf(ts[i], digits)
  {
    seq(|ts|, i requires 0 <= i < |ts| => RowOf(ts[i], digits))
  }

  /** Written packed ticks read back field by field, whatever follows them. */
  lemma {:induction false} TicksRead(s: seq<bool>, pos: nat, k: nat, digits: nat, ts: seq<PackedTick>, acc: seq<Row>)
    requires 1 <= k <= 8 && At(s, pos, TicksBits(k, ts))
    requires forall t :: t in ts ==> AllReadable(TICK, TickValues(t))
    ensures pos <= |s| && ReadTicks(s, pos, k, digits, |ts|, acc) == Ok(acc + RowsOf(ts, digits))
    decreases |ts|
  {
    hide At, LayoutBits, ReadLayout, AllReadable;
    AtEnd(s, pos, TicksBits(k, ts));
    if |ts| == 0 {
      assert acc + RowsOf(ts, digits) == acc;
    } else {
      var bits := LayoutBits(k, TICK, TickValues(ts[0]));
      AtSplit(s, pos, bits, TicksBits(k, ts[1..]));
      LayoutReadExact(s, pos, k, TICK, TickValues(ts[0]));
      TicksRead(s, pos + |bits|, k, digits, ts[1..], acc + [RowOf(ts[0], digits)]);
      assert acc + [RowOf(ts[0], digits)] + RowsOf(ts[1..], digits) == acc + RowsOf(ts, digits);
    }
  }

  // ---- containers ---------------------------------------------------------

  /** The fields of the 115-byte header. */
  datatype Header = Header(headerSize: nat, symbol: string, cache: Cache, count: i32, bits: i32, k: byte, digits: nat)

  function U16At(b: seq<byte>, o: nat): nat
    requires o + 2 <= |b|
  {
    FromLE(b[o..o + 2])
  }

  function HeaderOf(text: Text, b: seq<byte>): Header
    requires |b| == HEADER
  {
    Header(U16At(b, 0), text(b[2..66]), Cache(U16At(b, 66), I32At(b, 87), I32At(b, 70), U16At(b, 93), U32At(b, 103)),
           I32At(b, 82), I32At(b, 78), b[86], U16At(b, 91))
  }

  predicate HeaderFits(h: Header, symbol: string, left: Left) {
    && h.symbol == symbol && (h.headerSize == 115 || h.headerSize == 499)
    && 0 <= h.count <= left.ticks && h.cache.size >= 0
  }

  /** The three kinds of body: hours of groups, one group, or packed ticks. */
  function BodyOf(inflate: Inflater, data: seq<byte>, pos: nat, h: Header, left: Left): (r: Result<(Gathered, nat)>)
    requires 0 <= h.count <= left.ticks && h.cache.size >= 0
    ensures r.Ok? ==> Spent(Gathered([], [], 0, left), r.value.0) && r.value.1 >= pos
                      && (Bit(h.cache.flags, 1) ==> r.value.1 >= pos + INDEX) && (pos <= |data| ==> r.value.1 <= |data|)
  {
    var none := Gathered([], [], 0, left);
    if Bit(h.cache.flags, 1) then
      var (indices, at) :- Taken(data, pos, INDEX);
      Hours(inflate, data, at, indices, 0, none)
    else if Bit(h.cache.flags, 2) then GroupOf(inflate, data, pos, None, none)
    else if Bit(h.cache.flags, 0) || h.digits > 12 then Err
    else
      var (body, next) :- Taken(data, pos, h.cache.size);
      if h.bits < 0 || h.bits > 8 * |body| || !(1 <= h.k <= 8) then Err else
      var ticks :- ReadTicks(Unpack(body)[..h.bits], 0, h.k, h.digits, h.count, []);
      Ok((Gathered(ticks, [], 0, Left(left.ticks - |ticks|, left.bytes)), next))
  }

  function ContainerOf(inflate: Inflater, text: Text, data: seq<byte>, pos: nat, symbol: string, left: Left):
    (r: Result<((Container, Left), nat)>)
    ensures r.Ok? ==> Accounted(r.value.0.0, pos, r.value.1, left, r.value.0.1)
    ensures r.Ok? && pos <= |data| ==> r.value.1 <= |data|
  {
    var (bytes, at) :- Taken(data, pos, HEADER);
    var h := HeaderOf(text, bytes);
    if !HeaderFits(h, symbol, left) then Err else
    var (body, next) :- BodyOf(inflate, data, at, h, left);
    var consumed := next - at - if Bit(h.cache.flags, 1) then INDEX else 0;
    if consumed != h.cache.size || |body.ticks| != h.count then Err
    else Ok(((Container(h.cache, h.count, body.ticks, body.extensions, body.inflated), body.left), next))
  }

  /** A container takes exactly the bytes its header says, holds the ticks it
      declares, and leaves the budget smaller by exactly what it used. */
  predicate Accounted(c: Container, pos: nat, next: nat, before: Left, after: Left) {
    && next - pos == c.Bytes() && c.cache.size >= 0
    && |c.ticks| == c.declared
    && after.ticks + |c.ticks| == before.ticks
    && after.bytes + c.inflated == before.bytes
  }

  // ---- the reply ----------------------------------------------------------

  function TotalBytes(cs: seq<Container>): int {
    if |cs| == 0 then 0 else TotalBytes(cs[..|cs| - 1]) + cs[|cs| - 1].Bytes()
  }

  function TotalTicks(cs: seq<Container>): nat {
    if |cs| == 0 then 0 else TotalTicks(cs[..|cs| - 1]) + |cs[|cs| - 1].ticks|
  }

  function TotalInflated(cs: seq<Container>): nat {
    if |cs| == 0 then 0 else TotalInflated(cs[..|cs| - 1]) + cs[|cs| - 1].inflated
  }

  /** Everything between two positions belongs to these containers, and the budget
      shrank by exactly what they hold. */
  predicate AllAccounted(cs: seq<Container>, pos: nat, next: nat, before: Left, after: Left) {
    && next - pos == TotalBytes(cs)
    && (forall c :: c in cs ==> |c.ticks| == c.declared)
    && after.ticks + TotalTicks(cs) == before.ticks
    && after.bytes + TotalInflated(cs) == before.bytes
  }

  lemma OneMore(cs: seq<Container>, c: Container, start: nat, pos: nat, next: nat, before: Left, left: Left,
                after: Left)
    requires AllAccounted(cs, start, pos, before, left) && Accounted(c, pos, next, left, after)
    ensures AllAccounted(cs + [c], start, next, before, after)
  {
    assert (cs + [c])[..|cs|] == cs;
  }

  /** Containers one after another: `n` of them, or with `trailing` as many as the
      bytes hold, up to `n`. */
  function ContainersOf(inflate: Inflater, text: Text, data: seq<byte>, pos: nat, symbol: string, left: Left, n: nat,
                        trailing: bool, acc: seq<Container>): (r: Result<((seq<Container>, Left), nat)>)
    ensures r.Ok? && pos <= |data| ==> r.value.1 <= |data|
    ensures r.Ok? ==> |r.value.0.0| <= |acc| + n && (!trailing ==> |r.value.0.0| == |acc| + n)
    decreases n
  {
    if n == 0 || (trailing && pos >= |data|) then Ok(((acc, left), pos)) else
    var ((c, after), next) :- ContainerOf(inflate, text, data, pos, symbol, left);
    ContainersOf(inflate, text, data, next, symbol, after, n - 1, trailing, acc + [c])
  }

  lemma {:induction false} ContainersAccounted(
    inflate: Inflater, text: Text, data: seq<byte>, start: nat, pos: nat, symbol: string, before: Left,
    left: Left, n: nat, trailing: bool, acc: seq<Container>)
    requires AllAccounted(acc, start, pos, before, left)
    ensures match ContainersOf(inflate, text, data, pos, symbol, left, n, trailing, acc)
      case Err => true
      case Ok(((cs, after), next)) => AllAccounted(cs, start, next, before, after)
    decreases n
  {
    hide AllAccounted, Accounted, ContainerOf;
    if n > 0 && !(trailing && pos >= |data|) {
      var one := ContainerOf(inflate, text, data, pos, symbol, left);
      if one.Ok? {
        var ((c, after), next) := one.value;
        OneMore(acc, c, start, pos, next, before, left, after);
        ContainersAccounted(inflate, text, data, start, next, symbol, before, after, n - 1, trailing, acc + [c]);
      }
    }
  }

  const PREFIX: nat := 89
  const FULL: Left := Left(MAX_TICKS, MAX_EXPANSION)

  function Decoded(inflate: Inflater, text: Text, data: seq<byte>): Result<History> {
    if |data| < PREFIX then Err else
    var status, count := I32At(data, 0), I32At(data, 85);
    if (status != 0 && status != 14) || data[4] != 14 || !(0 <= count <= 4096) then Err else
    var symbol := text(data[5..69]);
    var ((containers, left), at) :- ContainersOf(inflate, text, data, PREFIX, symbol, FULL, count, false, []);
    var ((trailing, _), end) :- ContainersOf(inflate, text, data, at, symbol, left, 2, true, []);
    if end != |data| then Err else Ok(History(symbol, status == 14, containers, trailing))
  }

  /** A decoded reply is accounted for to the last byte, tick and inflated byte. */
  lemma ReplyAccounted(inflate: Inflater, text: Text, data: seq<byte>)
    requires Decoded(inflate, text, data).Ok?
    ensures var h := Decoded(inflate, text, data).value;
      && |data| == PREFIX + TotalBytes(h.containers) + TotalBytes(h.trailing)
      && |h.containers| == I32At(data, 85) && |h.trailing| <= 2
      && (forall c :: c in h.containers + h.trailing ==> |c.ticks| == c.declared)
      && TotalTicks(h.containers) + TotalTicks(h.trailing) <= MAX_TICKS
      && TotalInflated(h.containers) + TotalInflated(h.trailing) <= MAX_EXPANSION
  {
    hide ContainersOf, FromLE32;
    var symbol, count := text(data[5..69]), I32At(data, 85);
    ContainersAccounted(inflate, text, data, PREFIX, PREFIX, symbol, FULL, FULL, count, false, []);
    var ((containers, left), at) := ContainersOf(inflate, text, data, PREFIX, symbol, FULL, count, false, []).value;
    ContainersAccounted(inflate, text, data, at, at, symbol, left, left, 2, true, []);
  }

  // ---- the decoder --------------------------------------------------------

  class Budget {
    var ticks: nat
    var bytes: nat

    ghost function View(): Left
      reads this
    {
      Left(ticks, bytes)
    }

    constructor (ticks: nat, bytes: nat)
      ensures View() == Left(ticks, bytes)
    {
      this.ticks, this.bytes := ticks, bytes;
    }
  }

  method SumInflated(columns: seq<Column>) returns (sum: nat)
    ensures sum == InflatedBytes(columns)
  {
    sum := 0;
    for i := 0 to |columns|
      invariant sum == InflatedBytes(columns[..i])
    {
      assert columns[..i + 1][..i] == columns[..i];
      sum := sum + |columns[i].decoded|;
    }
    assert columns[..|columns|] == columns;
  }

  /** Two budgets are never subtracted from below zero: both are naturals. */
  method DecodeGroup(reader: ByteReader, budget: Budget, inflate: Inflater, hour: Option<nat>, ghost so: Gathered)
    returns (r: Result<(seq<Row>, seq<Extension>, nat)>)
    requires so.left == budget.View()
    modifies reader`position, budget
    ensures match GroupOf(inflate, reader.data, old(reader.position), hour, so)
            case Ok((more, next)) =>
              && r.Ok? && more.ticks == so.ticks + r.value.0 && more.extensions == so.extensions + r.value.1
              && more.inflated == so.inflated + r.value.2 && budget.View() == more.left && reader.position == next
            case Err => r.Err?
  {
    hide ReadGroup, InflatedBytes, Kept;
    GroupInflates(inflate, reader.data, reader.position, budget.ticks, budget.bytes);
    var group :- ReadColumnGroupLimited(reader, inflate, budget.ticks, budget.bytes);
    budget.ticks := budget.ticks - |group.rows|;
    var inflated := SumInflated(group.columns);
    budget.bytes := budget.bytes - inflated;
    return Ok((group.rows, Kept(hour, group.columns), inflated));
  }

  method DecodeHours(reader: ByteReader, budget: Budget, inflate: Inflater, indices: seq<byte>)
    returns (r: Result<(seq<Row>, seq<Extension>, nat)>)
    requires |indices| == INDEX
    modifies reader`position, budget
    ensures match Hours(inflate, reader.data, old(reader.position), indices, 0, Gathered([], [], 0, old(budget.View())))
            case Ok((all, next)) =>
              r == Ok((all.ticks, all.extensions, all.inflated)) && budget.View() == all.left && reader.position == next
            case Err => r.Err?
  {
    hide GroupOf, Present;
    var ticks, extensions, inflated := [], [], 0;
    ghost var none := Gathered([], [], 0, budget.View());
    for hour := 0 to HOURS
      invariant Hours(inflate, reader.data, old(reader.position), indices, 0, none) ==
                Hours(inflate, reader.data, reader.position, indices, hour,
                      Gathered(ticks, extensions, inflated, budget.View()))
    {
      if Present(indices, hour) {
        var group :- DecodeGroup(reader, budget, inflate, Some(hour),
                                    Gathered(ticks, extensions, inflated, budget.View()));
        ticks, extensions, inflated := ticks + group.0, extensions + group.1, inflated + group.2;
      }
    }
    return Ok((ticks, extensions, inflated));
  }

  method DecodeTicks(bits: BitReader, digits: nat, count: nat) returns (r: Result<seq<Row>>)
    requires bits.Valid() && bits.position == 0
    modifies bits`position
    ensures r == ReadTicks(bits.Stream(), 0, bits.k, digits, count, [])
  {
    hide ReadLayout, AllReadable, TickRow;
    var ticks := [];
    for i := 0 to count
      invariant bits.position <= bits.limit
      invariant ReadTicks(bits.Stream(), 0, bits.k, digits, count, []) ==
                ReadTicks(bits.Stream(), bits.position, bits.k, digits, count - i, ticks)
    {
      LayoutReadableIfOk(bits.Stream(), bits.position, bits.k, TICK);
      var vs :- bits.Fields(TICK);
      if vs[0] != 5 {
        return Err;
      }
      ticks := ticks + [TickRow(vs, digits)];
    }
    return Ok(ticks);
  }

  method DecodeBody(reader: ByteReader, budget: Budget, inflate: Inflater, h: Header)
    returns (r: Result<(seq<Row>, seq<Extension>, nat)>)
    requires 0 <= h.count <= budget.ticks && h.cache.size >= 0
    modifies reader`position, budget
    ensures match BodyOf(inflate, reader.data, old(reader.position), h, old(budget.View()))
            case Ok((body, next)) =>
              r == Ok((body.ticks, body.extensions, body.inflated)) && budget.View() == body.left
              && reader.position == next
            case Err => r.Err?
  {
    hide GroupOf, Hours, ReadTicks, Unpack;
    if Bit(h.cache.flags, 1) {
      var indices :- reader.Take(INDEX);
      r := DecodeHours(reader, budget, inflate, indices);
    } else if Bit(h.cache.flags, 2) {
      r := DecodeGroup(reader, budget, inflate, None, Gathered([], [], 0, budget.View()));
      assert r.Ok? ==> [] + r.value.0 == r.value.0 && [] + r.value.1 == r.value.1;
    } else {
      if Bit(h.cache.flags, 0) || h.digits > 12 {
        return Err;
      }
      var data :- reader.Take(h.cache.size);
      if h.bits < 0 {
        return Err;
      }
      var bits :- BitReader.WithLimit(data, h.bits, h.k);
      var ticks :- DecodeTicks(bits, h.digits, h.count);
      budget.ticks := budget.ticks - |ticks|;
      return Ok((ticks, [], 0));
    }
  }

  method DecodeContainer(reader: ByteReader, budget: Budget, inflate: Inflater, text: Text, symbol: string)
    returns (r: Result<Container>)
    modifies reader`position, budget
    ensures match ContainerOf(inflate, text, reader.data, old(reader.position), symbol, old(budget.View()))
            case Ok(((c, left), next)) => r == Ok(c) && budget.View() == left && reader.position == next
            case Err => r.Err?
  {
    hide BodyOf, HeaderOf;
    var bytes :- reader.Take(HEADER);
    var h := HeaderOf(text, bytes);
    if h.symbol != symbol || !(h.headerSize == 115 || h.headerSize == 499) {
      return Err;
    }
    if h.count < 0 || h.count > budget.ticks || h.cache.size < 0 {
      return Err;
    }
    var start := reader.position;
    var body :- DecodeBody(reader, budget, inflate, h);
    var (ticks, extensions, inflated) := body;
    var consumed := reader.position - start - if Bit(h.cache.flags, 1) then INDEX else 0;
    if consumed != h.cache.size {
      return Err;
    }
    if |ticks| != h.count {
      return Err;
    }
    return Ok(Container(h.cache, h.count, ticks, extensions, inflated));
  }

  method DecodeTickHistory(data: seq<byte>, inflate: Inflater, text: Text) returns (r: Result<History>)
    ensures r == Decoded(inflate, text, data)
  {
    hide ContainerOf, FromLE32, FromLE;
    var reader := new ByteReader(data);
    var head :- reader.Take(PREFIX);
    assert head[0..4] == data[0..4] && head[85..89] == data[85..89] && head[5..69] == data[5..69] && head[4] == data[4];
    var status, count, symbol := I32At(head, 0), I32At(head, 85), text(head[5..69]);
    if (status != 0 && status != 14) || head[4] != 14 || !(0 <= count <= 4096) {
      return Err;
    }
    var budget := new Budget(MAX_TICKS, MAX_EXPANSION);
    var containers :- DecodeContainers(reader, budget, inflate, text, symbol, count, false);
    var trailing :- DecodeContainers(reader, budget, inflate, text, symbol, 2, true);
    if reader.position != |data| {
      return Err;
    }
    return Ok(History(symbol, status == 14, containers, trailing));
  }

  method DecodeContainers(reader: ByteReader, budget: Budget, inflate: Inflater, text: Text, symbol: string, n: nat,
                          trailing: bool) returns (r: Result<seq<Container>>)
    modifies reader`position, budget
    ensures match ContainersOf(inflate, text, reader.data, old(reader.position), symbol, old(budget.View()), n,
                               trailing, [])
            case Ok(((cs, left), next)) => r == Ok(cs) && budget.View() == left && reader.position == next
            case Err => r.Err?
  {
    hide ContainerOf;
    var cs := [];
    ghost var start, full := reader.position, budget.View();
    for i := 0 to n
      invariant ContainersOf(inflate, text, reader.data, start, symbol, full, n, trailing, []) ==
                ContainersOf(inflate, text, reader.data, reader.position, symbol, budget.View(), n - i, trailing, cs)
    {
      if trailing && reader.position >= |reader.data| {
        return Ok(cs);
      }
      var c :- DecodeContainer(reader, budget, inflate, text, symbol);
      cs := cs + [c];
    }
    return Ok(cs);
  }
}
