/** What a decoded tick reply holds: which groups were read where and under what budget,
    and how their rows make up the containers. */
module TickReplies {
  import opened Results
  import opened Bits
  import opened Columns
  import opened Ticks

  // ---- groups in a row ----------------------------------------------------

  /** One group: its hour, where it starts and ends, and what was left for it. */
  datatype Part = Part(hour: Option<nat>, at: nat, next: nat, left: Left, group: Group)
  {
    /** What is left after it. */
    function Spare(): Left
      requires |group.rows| <= left.ticks && InflatedBytes(group.columns) <= left.bytes
    {
      Left(left.ticks - |group.rows|, left.bytes - InflatedBytes(group.columns))
    }
  }

  /** The parts were read one after another from `pos` to `end`, each within what the
      ones before it left. */
  predicate ReadInTurn(inflate: Inflater, data: seq<byte>, pos: nat, left: Left, parts: seq<Part>, end: nat,
                       spare: Left)
    decreases |parts|
  {
    if |parts| == 0 then end == pos && spare == left else
    var p := parts[0];
    && p.at == pos && p.left == left && ReadGroup(inflate, data, pos, left.ticks, left.bytes) == Ok((p.group, p.next))
    && |p.group.rows| <= left.ticks && InflatedBytes(p.group.columns) <= left.bytes
    && ReadInTurn(inflate, data, p.next, p.Spare(), parts[1..], end, spare)
  }

  function RowsIn(parts: seq<Part>): seq<Row> {
    if |parts| == 0 then [] else parts[0].group.rows + RowsIn(parts[1..])
  }

  /** A column that the table leaves out, or does not use to its end. */
  function Leftover(hour: Option<nat>, d: Column): seq<Extension> {
    if d.projected && |d.unusedTail| == 0 then [] else [Extension(hour, d)]
  }

  /** All such columns of a group, in order. */
  function Leftovers(hour: Option<nat>, columns: seq<Column>): seq<Extension> {
    if |columns| == 0 then []
    else Leftovers(hour, columns[..|columns| - 1]) + Leftover(hour, columns[|columns| - 1])
  }

  function LeftoversIn(parts: seq<Part>): seq<Extension> {
    if |parts| == 0 then [] else Leftovers(parts[0].hour, parts[0].group.columns) + LeftoversIn(parts[1..])
  }

  function InflatedIn(parts: seq<Part>): nat {
    if |parts| == 0 then 0 else InflatedBytes(parts[0].group.columns) + InflatedIn(parts[1..])
  }

  /** `after` has gathered exactly these parts more than `so`. */
  predicate Gathers(so: Gathered, parts: seq<Part>, after: Gathered) {
    && after.ticks == so.ticks + RowsIn(parts) && after.extensions == so.extensions + LeftoversIn(parts)
    && after.inflated == so.inflated + InflatedIn(parts)
  }

  /** The hours of the parts go up, and are exactly the hours from `first` on that the
      index marks with a size that is not zero. */
  predicate HoursMarked(indices: seq<byte>, first: nat, parts: seq<Part>)
    requires |indices| == 384
  {
    && (forall i :: 0 <= i < |parts| ==> parts[i].hour.Some? && first <= parts[i].hour.value < 24)
    && (forall i, j :: 0 <= i < j < |parts| ==> parts[i].hour.value < parts[j].hour.value)
    && forall h :: first <= h < 24 ==>
         (Marked(indices, h) <==> exists i :: 0 <= i < |parts| && parts[i].hour == Some(h))
  }

  predicate Marked(indices: seq<byte>, hour: nat)
    requires |indices| == 384 && hour < 24
  {
    FromLE(indices[16 * hour + 4..16 * hour + 8]) != 0
  }

  lemma KeptFirst(hour: Option<nat>, columns: seq<Column>)
    requires |columns| > 0
    ensures Kept(hour, columns) == Leftover(hour, columns[0]) + Kept(hour, columns[1..])
  {
  }

  lemma {:induction false} KeptMore(hour: Option<nat>, columns: seq<Column>, d: Column)
    ensures Kept(hour, columns + [d]) == Kept(hour, columns) + Leftover(hour, d)
    decreases |columns|
  {
    hide Kept, Leftover;
    KeptFirst(hour, columns + [d]);
    NothingKept(hour);
    if |columns| == 0 {
      assert columns + [d] == [d] && [d][1..] == [];
      assert Leftover(hour, d) + [] == [] + Leftover(hour, d);
    } else {
      KeptFirst(hour, columns);
      assert (columns + [d])[1..] == columns[1..] + [d];
      KeptMore(hour, columns[1..], d);
      assert Leftover(hour, columns[0]) + (Kept(hour, columns[1..]) + Leftover(hour, d)) ==
             Leftover(hour, columns[0]) + Kept(hour, columns[1..]) + Leftover(hour, d);
    }
  }

  lemma {:induction false} KeptIsLeftover(hour: Option<nat>, columns: seq<Column>)
    ensures Kept(hour, columns) == Leftovers(hour, columns)
    decreases |columns|
  {
    hide Kept;
    if |columns| == 0 {
      NothingKept(hour);
    } else {
      var n := |columns| - 1;
      KeptIsLeftover(hour, columns[..n]);
      KeptMore(hour, columns[..n], columns[n]);
      assert columns[..n] + [columns[n]] == columns;
    }
  }

  lemma NothingKept(hour: Option<nat>)
    ensures Kept(hour, []) == []
  {
  }

  lemma GroupPart(inflate: Inflater, data: seq<byte>, pos: nat, hour: Option<nat>, so: Gathered) returns (p: Part)
    requires GroupOf(inflate, data, pos, hour, so).Ok?
    ensures var (more, next) := GroupOf(inflate, data, pos, hour, so).value;
      && p.hour == hour && p.at == pos && p.next == next && p.left == so.left
      && ReadGroup(inflate, data, pos, so.left.ticks, so.left.bytes) == Ok((p.group, next))
      && |p.group.rows| <= so.left.ticks && InflatedBytes(p.group.columns) <= so.left.bytes
      && more.left == p.Spare() && more.ticks == so.ticks + p.group.rows
      && more.extensions == so.extensions + Leftovers(hour, p.group.columns)
      && more.inflated == so.inflated + InflatedBytes(p.group.columns)
  {
    hide ReadGroup, InflatedBytes, Kept;
    var (group, next) := ReadGroup(inflate, data, pos, so.left.ticks, so.left.bytes).value;
    GroupInflates(inflate, data, pos, so.left.ticks, so.left.bytes);
    KeptIsLeftover(hour, group.columns);
    p := Part(hour, pos, next, so.left, group);
  }

  lemma GathersNone(so: Gathered)
    ensures Gathers(so, [], so)
  {
  }

  lemma GathersFirst(so: Gathered, p: Part, more: Gathered, parts: seq<Part>, after: Gathered)
    requires more.ticks == so.ticks + p.group.rows
    requires more.extensions == so.extensions + Leftovers(p.hour, p.group.columns)
    requires more.inflated == so.inflated + InflatedBytes(p.group.columns) && Gathers(more, parts, after)
    ensures Gathers(so, [p] + parts, after)
  {
    hide Leftovers, InflatedBytes;
    assert ([p] + parts)[1..] == parts;
  }

  lemma FirstReadInTurn(inflate: Inflater, data: seq<byte>, pos: nat, left: Left, p: Part, parts: seq<Part>, end: nat,
                        spare: Left)
    requires p.at == pos && p.left == left
    requires ReadGroup(inflate, data, pos, left.ticks, left.bytes) == Ok((p.group, p.next))
    requires |p.group.rows| <= left.ticks && InflatedBytes(p.group.columns) <= left.bytes
    requires ReadInTurn(inflate, data, p.next, p.Spare(), parts, end, spare)
    ensures ReadInTurn(inflate, data, pos, left, [p] + parts, end, spare)
  {
    hide ReadGroup, InflatedBytes;
    assert ([p] + parts)[1..] == parts;
  }

  lemma MarkedFirst(indices: seq<byte>, hour: nat, p: Part, parts: seq<Part>)
    requires |indices| == 384 && hour < 24 && HoursMarked(indices, hour + 1, parts)
    requires Marked(indices, hour) && p.hour == Some(hour)
    ensures HoursMarked(indices, hour, [p] + parts)
  {
    hide Marked;
    var all := [p] + parts;
    assert all[0] == p && forall i :: 0 < i < |all| ==> all[i] == parts[i - 1];
    forall h | hour <= h < 24
      ensures Marked(indices, h) <==> exists i :: 0 <= i < |all| && all[i].hour == Some(h)
    {
      if i :| 0 <= i < |parts| && parts[i].hour == Some(h) {
        assert all[i + 1].hour == Some(h);
      }
    }
  }

  lemma UnmarkedFirst(indices: seq<byte>, hour: nat, parts: seq<Part>)
    requires |indices| == 384 && hour < 24 && HoursMarked(indices, hour + 1, parts) && !Marked(indices, hour)
    ensures HoursMarked(indices, hour, parts)
  {
    hide Marked;
  }

  /** The hours of a container, read in turn: exactly those that the index marks, in
      order. */
  lemma {:induction false} HoursMean(inflate: Inflater, data: seq<byte>, pos: nat, indices: seq<byte>, hour: nat,
                                     so: Gathered) returns (parts: seq<Part>)
    requires |indices| == INDEX && hour <= 24 && Hours(inflate, data, pos, indices, hour, so).Ok?
    ensures var (after, end) := Hours(inflate, data, pos, indices, hour, so).value;
      && HoursMarked(indices, hour, parts) && ReadInTurn(inflate, data, pos, so.left, parts, end, after.left)
      && Gathers(so, parts, after)
    decreases 24 - hour
  {
    hide GroupOf, ReadInTurn, Gathers, HoursMarked, InflatedBytes, Leftovers, ReadGroup;
    if hour == 24 {
      GathersNone(so);
      NothingRead(inflate, data, pos, indices, so.left);
      return [];
    }
    MarkedIsPresent(indices, hour);
    if !Present(indices, hour) {
      parts := HoursMean(inflate, data, pos, indices, hour + 1, so);
      UnmarkedFirst(indices, hour, parts);
    } else {
      var p := GroupPart(inflate, data, pos, Some(hour), so);
      var (more, next) := GroupOf(inflate, data, pos, Some(hour), so).value;
      var later := HoursMean(inflate, data, next, indices, hour + 1, more);
      var (after, end) := Hours(inflate, data, pos, indices, hour, so).value;
      MarkedFirst(indices, hour, p, later);
      FirstReadInTurn(inflate, data, pos, so.left, p, later, end, after.left);
      GathersFirst(so, p, more, later, after);
      parts := [p] + later;
    }
  }

  lemma MarkedIsPresent(indices: seq<byte>, hour: nat)
    requires |indices| == INDEX && hour < HOURS
    ensures Present(indices, hour) <==> Marked(indices, hour)
  {
    hide FromLE;
  }

  lemma NothingRead(inflate: Inflater, data: seq<byte>, pos: nat, indices: seq<byte>, left: Left)
    requires |indices| == INDEX
    ensures ReadInTurn(inflate, data, pos, left, [], pos, left) && HoursMarked(indices, 24, [])
  {
  }

  // ---- containers ---------------------------------------------------------

  /** What a container decodes to, by its flags. Bit 1: an index of 24 hours and then
      the marked hours' groups; else bit 2: a single group. Its ticks are the rows of
      those groups one after another, and everything the tables leave out is kept.
      With neither bit: the declared number of packed ticks. */
  lemma ContainerMeans(inflate: Inflater, text: Text, data: seq<byte>, pos: nat, symbol: string, left: Left)
    returns (parts: seq<Part>)
    requires ContainerOf(inflate, text, data, pos, symbol, left).Ok?
    ensures var ((c, spare), next) := ContainerOf(inflate, text, data, pos, symbol, left).value;
      && (Bit(c.cache.flags, 1) ==>
            && pos + 499 <= |data| && HoursMarked(data[pos + 115..pos + 499], 0, parts)
            && ReadInTurn(inflate, data, pos + 499, left, parts, next, spare))
      && (!Bit(c.cache.flags, 1) && Bit(c.cache.flags, 2) ==>
            && |parts| == 1 && parts[0].hour.None?
            && ReadInTurn(inflate, data, pos + 115, left, parts, next, spare))
      && (Bit(c.cache.flags, 1) || Bit(c.cache.flags, 2) ==>
            c.ticks == RowsIn(parts) && c.extensions == LeftoversIn(parts) && c.inflated == InflatedIn(parts))
      && (!Bit(c.cache.flags, 1) && !Bit(c.cache.flags, 2) ==>
            && pos + 115 <= next <= |data| && c.extensions == [] && c.inflated == 0 && !Bit(c.cache.flags, 0)
            && var h := HeaderOf(text, data[pos..pos + 115]);
               && next == pos + 115 + h.cache.size && h.digits <= 12 && 0 <= h.bits <= 8 * h.cache.size
               && ReadTicks(Unpack(data[pos + 115..next])[..h.bits], 0, h.k, h.digits, c.declared, []) == Ok(c.ticks))
  {
    hide Hours, GroupOf, ReadTicks, HoursMarked, ReadInTurn, RowsIn, LeftoversIn, InflatedIn, ReadGroup, HeaderOf,
         Unpack, InflatedBytes, Leftovers, Bit;
    var (bytes, at) := Taken(data, pos, HEADER).value;
    var h := HeaderOf(text, bytes);
    var none := Gathered([], [], 0, left);
    parts := [];
    if Bit(h.cache.flags, 1) {
      parts := HoursMean(inflate, data, at + INDEX, data[at..at + INDEX], 0, none);
    } else if Bit(h.cache.flags, 2) {
      var p := GroupPart(inflate, data, at, None, none);
      var (more, next) := GroupOf(inflate, data, at, None, none).value;
      ReadNothing(inflate, data, next, p.Spare());
      FirstReadInTurn(inflate, data, at, left, p, [], next, p.Spare());
      GathersNone(more);
      GathersFirst(none, p, more, [], more);
      parts := [p];
      assert [p] + [] == parts;
    }
    assert forall s: seq<Row> :: [] + s == s;
    assert forall s: seq<Extension> :: [] + s == s;
  }

  lemma ReadNothing(inflate: Inflater, data: seq<byte>, pos: nat, left: Left)
    ensures ReadInTurn(inflate, data, pos, left, [], pos, left)
  {
  }

  // ---- the reply ----------------------------------------------------------

  /** Each container was decoded where the one before it ended, within what it left. */
  predicate DecodedInTurn(inflate: Inflater, text: Text, data: seq<byte>, symbol: string, pos: nat, left: Left,
                          cs: seq<Container>, end: nat, spare: Left)
    decreases |cs|
  {
    if |cs| == 0 then end == pos && spare == left else
    match ContainerOf(inflate, text, data, pos, symbol, left)
    case Ok(((c, after), next)) =>
      c == cs[0] && DecodedInTurn(inflate, text, data, symbol, next, after, cs[1..], end, spare)
    case Err => false
  }

  lemma {:induction false} ContainersMean(inflate: Inflater, text: Text, data: seq<byte>, pos: nat, symbol: string,
                                          left: Left, n: nat, trailing: bool, acc: seq<Container>)
    returns (cs: seq<Container>)
    requires ContainersOf(inflate, text, data, pos, symbol, left, n, trailing, acc).Ok?
    ensures var ((all, spare), end) := ContainersOf(inflate, text, data, pos, symbol, left, n, trailing, acc).value;
      && all == acc + cs && DecodedInTurn(inflate, text, data, symbol, pos, left, cs, end, spare)
      && |cs| <= n && (|cs| < n ==> trailing && end >= |data|)
    decreases n
  {
    hide ContainerOf;
    if n == 0 || (trailing && pos >= |data|) {
      assert acc + [] == acc;
      return [];
    }
    var ((c, after), next) := ContainerOf(inflate, text, data, pos, symbol, left).value;
    var later := ContainersMean(inflate, text, data, next, symbol, after, n - 1, trailing, acc + [c]);
    cs := [c] + later;
    assert acc + [c] + later == acc + cs && cs[1..] == later;
  }

  /** A decoded reply: its symbol and whether more follows are read from its prefix, and
      its containers, as many as declared and up to two more, stand one after another
      to the end, all under one budget of a million ticks and 64 MiB. */
  lemma ReplyMeans(inflate: Inflater, text: Text, data: seq<byte>) returns (middle: nat, left: Left, spare: Left)
    requires Decoded(inflate, text, data).Ok?
    ensures var h := Decoded(inflate, text, data).value;
      && |data| >= 89 && h.symbol == text(data[5..69]) && data[4] == 14
      && (FromLE32(data[0..4]) == 0 || FromLE32(data[0..4]) == 14) && (h.more <==> FromLE32(data[0..4]) == 14)
      && |h.containers| == FromLE32(data[85..89]) && |h.trailing| <= 2
      && DecodedInTurn(inflate, text, data, h.symbol, 89, Left(1_000_000, 0x400_0000), h.containers, middle, left)
      && DecodedInTurn(inflate, text, data, h.symbol, middle, left, h.trailing, |data|, spare)
  {
    hide ContainersOf, FromLE32, DecodedInTurn;
    var symbol, count := text(data[5..69]), I32At(data, 85);
    var ((containers, rest), at) := ContainersOf(inflate, text, data, PREFIX, symbol, FULL, count, false, []).value;
    var ((trailing, last), end) := ContainersOf(inflate, text, data, at, symbol, rest, 2, true, []).value;
    var first := ContainersMean(inflate, text, data, PREFIX, symbol, FULL, count, false, []);
    var more := ContainersMean(inflate, text, data, at, symbol, rest, 2, true, []);
    assert [] + first == first && [] + more == more;
    middle, left, spare := at, rest, last;
  }

  // ---- the container header -----------------------------------------------

  /** The 115 header bytes, field by field in the order in which they stand. */
  datatype Fields = Fields(
    headerSize: seq<byte>, symbol: seq<byte>, date: seq<byte>, pad: seq<byte>, dataSize: seq<byte>,
    inflateSize: seq<byte>, bitSize: seq<byte>, tickCount: seq<byte>, prefixBits: byte, time: seq<byte>,
    digits: seq<byte>, flags: seq<byte>, limit: seq<byte>, opaque1: seq<byte>, crc: seq<byte>, rest: seq<byte>)
  {
    predicate Sized() {
      && |headerSize| == 2 && |symbol| == 64 && |date| == 2 && |pad| == 2 && |dataSize| == 4 && |inflateSize| == 4
      && |bitSize| == 4 && |tickCount| == 4 && |time| == 4 && |digits| == 2 && |flags| == 2 && |limit| == 4
      && |opaque1| == 4 && |crc| == 4 && |rest| == 8
    }

    function Bytes(): seq<byte> {
      headerSize + symbol + date + pad + dataSize + inflateSize + bitSize + tickCount + [prefixBits] + time
      + digits + flags + limit + opaque1 + crc + rest
    }
  }

  /** Every header field is read from where it stands. */
  lemma HeaderRead(text: Text, f: Fields)
    requires f.Sized()
    ensures |f.Bytes()| == HEADER
    ensures HeaderOf(text, f.Bytes()) ==
            Header(FromLE(f.headerSize), text(f.symbol),
                   Cache(FromLE(f.date), FromLE32(f.time), FromLE32(f.dataSize), FromLE(f.flags), FromLE(f.crc)),
                   FromLE32(f.tickCount), FromLE32(f.bitSize), f.prefixBits, FromLE(f.digits))
  {
    hide FromLE, FromLE32;
    var b := f.Bytes();
    assert b[0..2] == f.headerSize && b[2..66] == f.symbol && b[66..68] == f.date && b[70..74] == f.dataSize;
    assert b[78..82] == f.bitSize && b[82..86] == f.tickCount && b[86] == f.prefixBits && b[87..91] == f.time;
    assert b[91..93] == f.digits && b[93..95] == f.flags && b[103..107] == f.crc;
  }
}
