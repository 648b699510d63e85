/** One-minute bar containers: anchors, runs of bars and gaps in one bit stream. */
module Bars {
  import opened Results
  import opened Bits
  import opened PackedCode
  import opened BitPack

  /** Prices are integers, in units of the container's last digit. */
  datatype Bar = Bar(
    time: i64, open: int, high: int, low: int, close: int, tickVolume: nat, realVolume: nat, spread: i32)

  /** The header fields of a container that matter here. */
  datatype BarHeader = BarHeader(size: i32, bits: i32, k: byte, count: i32, digits: int, flags: u16, limit: u32)

  const MAX_BARS: nat := 1_000_000

  /** What the decoder carries from bar to bar: the last time, open and close
      offset, and the flags of the last anchor. */
  datatype Running = Running(
    time: int, open: int, close: int, anchored: bool, flags: nat, spreadOn: bool, realOn: bool)

  const FRESH: Running := Running(0, 0, 0, false, 0, false, false)

  /** A truncating cast to 32 bits. */
  function Wrap32(v: int): (r: i32)
    ensures -0x8000_0000 <= v < 0x8000_0000 ==> r == v
  {
    (v + 0x8000_0000) % 0x1_0000_0000 - 0x8000_0000
  }

  // ---- the fields of one bar ----------------------------------------------

  predicate HasSpread(st: Running, anchor: bool) {
    if anchor then Bit(st.flags, 0) else st.spreadOn
  }

  predicate HasReal(st: Running, anchor: bool) {
    if anchor then Bit(st.flags, 1) else st.realOn
  }

  /** Flag bits 3 to 63 each announce one more number, which is ignored. */
  function ExtraCount(flags: nat, from: nat): nat
    decreases 64 - from
  {
    if from >= 64 then 0 else (if Bit(flags, from) then 1 else 0) + ExtraCount(flags, from + 1)
  }

  function Extras(n: nat): (fs: seq<Field>)
    ensures |fs| == n
  {
    seq(n, _ => Packed(64, false))
  }

  function BarFields(st: Running, anchor: bool): seq<Field> {
    (if anchor then [] else [SignedMagnitude(64)])
    + [Packed(32, true), Packed(32, true), SignedMagnitude(if anchor then 32 else 64), Packed(64, false)]
    + (if HasSpread(st, anchor) then [SignedMagnitude(32)] else [])
    + (if HasReal(st, anchor) then [Packed(64, false)] else [])
    + Extras(ExtraCount(st.flags, 3))
  }

  datatype Raw = Raw(step: int, high: int, low: int, close: int, ticks: int, spread: int, traded: int, extras: seq<int>)

  function RawOf(st: Running, anchor: bool, vs: seq<int>): Raw
    requires |vs| == |BarFields(st, anchor)|
  {
    var a := if anchor then 0 else 1;
    var b := a + 4 + if HasSpread(st, anchor) then 1 else 0;
    var c := b + if HasReal(st, anchor) then 1 else 0;
    Raw(if anchor then 0 else vs[0], vs[a], vs[a + 1], vs[a + 2], vs[a + 3],
        if HasSpread(st, anchor) then vs[a + 4] else 0, if HasReal(st, anchor) then vs[b] else 0, vs[c..])
  }

  function ValuesOf(st: Running, anchor: bool, raw: Raw): seq<int> {
    (if anchor then [] else [raw.step])
    + [raw.high, raw.low, raw.close, raw.ticks]
    + (if HasSpread(st, anchor) then [raw.spread] else [])
    + (if HasReal(st, anchor) then [raw.traded] else [])
    + raw.extras
  }

  /** One bar from its raw fields; `None` when its time leaves 64 bits. */
  function Applied(st: Running, anchor: bool, limit: u32, raw: Raw): Option<(Bar, Running)>
    requires raw.ticks >= 0 && raw.traded >= 0
  {
    var multiplier := if anchor then 1 else limit;
    var time := if anchor then st.time else st.time + 60;
    var open := if anchor then st.open else st.open + limit * raw.step + st.close;
    var high, low := Wrap32(multiplier * raw.high), Wrap32(multiplier * raw.low);
    var close := Wrap32(multiplier * raw.close);
    if !(-0x8000_0000_0000_0000 <= time < 0x8000_0000_0000_0000) then None
    else Some((Bar(time, open, open + high, open - low, open + close, raw.ticks, raw.traded, Wrap32(raw.spread)),
               st.(time := time, open := open, close := close)))
  }

  // ---- reading ------------------------------------------------------------

  lemma RawReadable(st: Running, anchor: bool, vs: seq<int>)
    requires AllReadable(BarFields(st, anchor), vs)
    ensures RawOf(st, anchor, vs).ticks >= 0 && RawOf(st, anchor, vs).traded >= 0
  {
    hide ExtraCount, Pow2, Bit;
  }

  function ReadBar(s: seq<bool>, pos: nat, k: nat, limit: u32, st: Running, anchor: bool):
    (r: Result<((Bar, Running), nat)>)
    requires pos <= |s|
    ensures r.Ok? ==> pos < r.value.1 <= |s|
  {
    var (vs, next) :- ReadLayout(s, pos, k, BarFields(st, anchor));
    LayoutReadable(s, pos, k, BarFields(st, anchor));
    RawReadable(st, anchor, vs);
    match Applied(st, anchor, limit, RawOf(st, anchor, vs))
    case None => Err
    case Some(made) => Ok((made, next))
  }

  function ReadRun(s: seq<bool>, pos: nat, k: nat, limit: u32, n: nat, st: Running, anchor: bool, acc: seq<Bar>):
    (r: Result<((seq<Bar>, Running), nat)>)
    requires pos <= |s|
    ensures r.Ok? ==> pos <= r.value.1 <= |s| && |r.value.0.0| == |acc| + n
    decreases n
  {
    if n == 0 then Ok(((acc, st), pos)) else
    var (made, next) :- ReadBar(s, pos, k, limit, st, anchor);
    ReadRun(s, next, k, limit, n - 1, made.1, anchor, acc + [made.0])
  }

  const TAG: seq<Field> := [Packed(64, true)]
  const FLAGS: seq<Field> := [Packed(64, false)]
  const START: seq<Field> := [Packed(64, true), SignedMagnitude(64)]

  function Anchored(st: Running, flags: nat, time: int, open: int): Running {
    Running(time, Wrap32(open), st.close, true, flags, st.spreadOn || Bit(flags, 0), st.realOn || Bit(flags, 1))
  }

  function ReadAnchor(s: seq<bool>, pos: nat, k: nat, st: Running): (r: Result<(Running, nat)>)
    requires pos <= |s|
    ensures r.Ok? ==> pos < r.value.1 <= |s|
  {
    var (flags, at) :- ReadLayout(s, pos, k, FLAGS);
    LayoutReadable(s, pos, k, FLAGS);
    if Bit(flags[0], 2) then Err else
    var (start, next) :- ReadLayout(s, at, k, START);
    Ok((Anchored(st, flags[0], start[0], start[1]), next))
  }

  /** Bars until the declared count is reached. Gaps and empty runs consume bits
      and add no bar. */
  function ReadBars(s: seq<bool>, pos: nat, k: nat, limit: u32, count: nat, st: Running, acc: seq<Bar>):
    (r: Result<seq<Bar>>)
    requires pos <= |s| && |acc| <= count
    ensures r.Ok? ==> |r.value| == count
    decreases |s| - pos
  {
    if |acc| == count then Ok(acc) else
    var (tag, at) :- ReadLayout(s, pos, k, TAG);
    if tag[0] == 2 then
      if !st.anchored then Err else
      var (gap, next) :- ReadLayout(s, at, k, TAG);
      ReadBars(s, next, k, limit, count, st.(time := st.time + 60 * gap[0]), acc)
    else if tag[0] == 0 then
      var (anchored, next) :- ReadAnchor(s, at, k, st);
      var (made, end) :- ReadRun(s, next, k, limit, 1, anchored, true, acc);
      ReadBars(s, end, k, limit, count, made.1, made.0)
    else if tag[0] == 1 && st.anchored then
      var (run, next) :- ReadLayout(s, at, k, TAG);
      if run[0] == 0 then ReadBars(s, next, k, limit, count, st, acc)
      else if run[0] < 0 || run[0] > count - |acc| then Err
      else
        var (made, end) :- ReadRun(s, next, k, limit, run[0], st, false, acc);
        ReadBars(s, end, k, limit, count, made.1, made.0)
    else Err
  }

  predicate HeaderAccepted(h: BarHeader) {
    h.size >= 0 && h.bits >= 0 && 0 <= h.count <= MAX_BARS && 0 <= h.digits <= 12 && h.flags == 0
    && h.bits <= 8 * h.size && 1 <= h.k <= 8
  }

  function Container(h: BarHeader, data: seq<byte>): (r: Result<seq<Bar>>)
    ensures r.Ok? ==> |r.value| == h.count
  {
    if !HeaderAccepted(h) || |data| != h.size then Err
    else ReadBars(Unpack(data)[..h.bits], 0, h.k, h.limit, h.count, FRESH, [])
  }

  method DecodeBar(r: BitReader, limit: u32, st: Running, anchor: bool) returns (made: Result<(Bar, Running)>)
    requires r.Valid() && r.position <= r.limit
    modifies r`position
    ensures Reads(made, r.position, ReadBar(r.Stream(), old(r.position), r.k, limit, st, anchor))
  {
    hide ReadLayout, ExtraCount, Extras, AllReadable, RawOf, Applied;
    LayoutReadableIfOk(r.Stream(), r.position, r.k, BarFields(st, anchor));
    var vs :- r.Fields(BarFields(st, anchor));
    RawReadable(st, anchor, vs);
    match Applied(st, anchor, limit, RawOf(st, anchor, vs)) {
      case None => return Err;
      case Some(next) => return Ok(next);
    }
  }

  method DecodeRun(r: BitReader, limit: u32, n: nat, st: Running, anchor: bool, acc: seq<Bar>)
    returns (made: Result<(seq<Bar>, Running)>)
    requires r.Valid() && r.position <= r.limit
    modifies r`position
    ensures Reads(made, r.position, ReadRun(r.Stream(), old(r.position), r.k, limit, n, st, anchor, acc))
  {
    hide ReadBar, Unpack;
    var bars, now := acc, st;
    ghost var start := r.position;
    for i := 0 to n
      invariant r.position <= r.limit
      invariant ReadRun(r.Stream(), start, r.k, limit, n, st, anchor, acc) ==
                ReadRun(r.Stream(), r.position, r.k, limit, n - i, now, anchor, bars)
    {
      var one :- DecodeBar(r, limit, now, anchor);
      bars, now := bars + [one.0], one.1;
    }
    return Ok((bars, now));
  }

  method DecodeAnchor(r: BitReader, st: Running) returns (anchored: Result<Running>)
    requires r.Valid() && r.position <= r.limit
    modifies r`position
    ensures Reads(anchored, r.position, ReadAnchor(r.Stream(), old(r.position), r.k, st))
  {
    hide ReadLayout, Pow2, Bit;
    LayoutReadableIfOk(r.Stream(), r.position, r.k, FLAGS);
    var flags :- r.Fields(FLAGS);
    if Bit(flags[0], 2) {
      return Err;
    }
    var start :- r.Fields(START);
    return Ok(Anchored(st, flags[0], start[0], start[1]));
  }

  method DecodeContainer(h: BarHeader, data: seq<byte>) returns (r: Result<seq<Bar>>)
    ensures r == Container(h, data)
  {
    hide ReadLayout, ReadAnchor, ReadRun, Unpack;
    if h.size < 0 || h.bits < 0 || h.count < 0 || h.count > MAX_BARS || !(0 <= h.digits <= 12) {
      return Err;
    }
    if h.flags != 0 {
      return Err;
    }
    if |data| != h.size {
      return Err;
    }
    var b :- BitReader.WithLimit(data, h.bits, h.k);
    var bars, st := [], FRESH;
    while |bars| < h.count
      invariant b.position <= b.limit && |bars| <= h.count
      invariant Container(h, data) == ReadBars(b.Stream(), b.position, h.k, h.limit, h.count, st, bars)
      decreases b.limit - b.position
    {
      var tag :- b.Fields(TAG);
      if tag[0] == 2 {
        if !st.anchored {
          return Err;
        }
        var gap :- b.Fields(TAG);
        st := st.(time := st.time + 60 * gap[0]);
        continue;
      }
      var run := 1;
      if tag[0] == 0 {
        st :- DecodeAnchor(b, st);
      } else if tag[0] == 1 && st.anchored {
        var length :- b.Fields(TAG);
        run := length[0];
      } else {
        return Err;
      }
      if run == 0 && tag[0] == 1 {
        continue;
      }
      if run <= 0 || run > h.count - |bars| {
        return Err;
      }
      var made :- DecodeRun(b, h.limit, run, st, tag[0] == 0, bars);
      bars, st := made.0, made.1;
    }
    return Ok(bars);
  }

  // ---- a reference encoding -----------------------------------------------

  /** A bar with the numbers its anchor's extra flags announce. */
  datatype Coded = Coded(bar: Bar, extras: seq<int>)

  datatype Item = Anchor(flags: nat, first: Coded) | Gap(minutes: int) | Span(bars: seq<Coded>)

  function Ratio(x: int, unit: nat): int {
    if unit == 0 then 0 else x / unit
  }

  predicate Multiple(x: int, unit: nat) {
    x == unit * Ratio(x, unit)
  }

  predicate Int32(x: int) {
    -0x8000_0000 <= x < 0x8000_0000
  }

  function Scale(anchor: bool, limit: u32): nat {
    if anchor then 1 else limit
  }

  function RawFor(st: Running, anchor: bool, limit: u32, c: Coded): Raw {
    var m, b := Scale(anchor, limit), c.bar;
    Raw(if anchor then 0 else Ratio(b.open - st.open - st.close, limit),
        Ratio(b.high - b.open, m), Ratio(b.open - b.low, m), Ratio(b.close - b.open, m),
        b.tickVolume, b.spread, b.realVolume, c.extras)
  }

  /** A bar that can follow: an anchored one stands where the anchor says; any
      other comes a minute after the last, and its open is the last open plus the
      last close offset plus a multiple of the limit. */
  predicate Follows(st: Running, anchor: bool, limit: u32, b: Bar) {
    var m := Scale(anchor, limit);
    && Int32(b.high - b.open) && Multiple(b.high - b.open, m)
    && Int32(b.open - b.low) && Multiple(b.open - b.low, m)
    && Int32(b.close - b.open) && Multiple(b.close - b.open, m)
    && (HasSpread(st, anchor) || b.spread == 0) && (HasReal(st, anchor) || b.realVolume == 0)
    && if anchor then b.time == st.time && b.open == st.open
       else b.time == st.time + 60 && Multiple(b.open - st.open - st.close, limit)
  }

  predicate Expressible(st: Running, anchor: bool, limit: u32, c: Coded) {
    && |c.extras| == ExtraCount(st.flags, 3)
    && Follows(st, anchor, limit, c.bar)
    && AllReadable(BarFields(st, anchor), ValuesOf(st, anchor, RawFor(st, anchor, limit, c)))
  }

  function StateAfter(st: Running, b: Bar): Running {
    st.(time := b.time, open := b.open, close := b.close - b.open)
  }

  function BarBits(k: nat, st: Running, anchor: bool, limit: u32, c: Coded): seq<bool>
    requires k >= 1 && Expressible(st, anchor, limit, c)
  {
    LayoutBits(k, BarFields(st, anchor), ValuesOf(st, anchor, RawFor(st, anchor, limit, c)))
  }

  function AfterAll(st: Running, cs: seq<Coded>): Running
    decreases |cs|
  {
    if |cs| == 0 then st else AfterAll(StateAfter(st, cs[0].bar), cs[1..])
  }

  predicate AllExpressible(st: Running, limit: u32, cs: seq<Coded>)
    decreases |cs|
  {
    |cs| > 0 ==> Expressible(st, false, limit, cs[0]) && AllExpressible(StateAfter(st, cs[0].bar), limit, cs[1..])
  }

  function SpanBits(k: nat, st: Running, limit: u32, cs: seq<Coded>): seq<bool>
    requires k >= 1 && AllExpressible(st, limit, cs)
    decreases |cs|
  {
    if |cs| == 0 then []
    else BarBits(k, st, false, limit, cs[0]) + SpanBits(k, StateAfter(st, cs[0].bar), limit, cs[1..])
  }

  function BarsOf(cs: seq<Coded>): (bars: seq<Bar>)
    ensures |bars| == |cs|
  {
    if |cs| == 0 then [] else [cs[0].bar] + BarsOf(cs[1..])
  }

  predicate ItemFits(st: Running, limit: u32, item: Item) {
    match item
    case Anchor(flags, c) =>
      && AllReadable(FLAGS, [flags]) && !Bit(flags, 2) && Int32(c.bar.open)
      && AllReadable(START, [c.bar.time, c.bar.open])
      && Expressible(Anchored(st, flags, c.bar.time, c.bar.open), true, limit, c)
    case Gap(minutes) => st.anchored && AllReadable(TAG, [minutes])
    case Span(cs) => st.anchored && AllReadable(TAG, [|cs|]) && AllExpressible(st, limit, cs)
  }

  function AfterItem(st: Running, item: Item): Running {
    match item
    case Anchor(flags, c) => StateAfter(Anchored(st, flags, c.bar.time, c.bar.open), c.bar)
    case Gap(minutes) => st.(time := st.time + 60 * minutes)
    case Span(cs) => AfterAll(st, cs)
  }

  function ItemBars(item: Item): seq<Bar> {
    match item
    case Anchor(_, c) => [c.bar]
    case Gap(_) => []
    case Span(cs) => BarsOf(cs)
  }

  function ItemBits(k: nat, st: Running, limit: u32, item: Item): seq<bool>
    requires k >= 1 && ItemFits(st, limit, item)
  {
    match item
    case Anchor(flags, c) =>
      LayoutBits(k, TAG, [0]) + (LayoutBits(k, FLAGS, [flags]) + (LayoutBits(k, START, [c.bar.time, c.bar.open])
      + BarBits(k, Anchored(st, flags, c.bar.time, c.bar.open), true, limit, c)))
    case Gap(minutes) => LayoutBits(k, TAG, [2]) + LayoutBits(k, TAG, [minutes])
    case Span(cs) => LayoutBits(k, TAG, [1]) + (LayoutBits(k, TAG, [|cs|]) + SpanBits(k, st, limit, cs))
  }

  predicate AllFit(st: Running, limit: u32, items: seq<Item>)
    decreases |items|
  {
    |items| > 0 ==> ItemFits(st, limit, items[0]) && AllFit(AfterItem(st, items[0]), limit, items[1..])
  }

  function AllBits(k: nat, st: Running, limit: u32, items: seq<Item>): seq<bool>
    requires k >= 1 && AllFit(st, limit, items)
    decreases |items|
  {
    if |items| == 0 then []
    else ItemBits(k, st, limit, items[0]) + AllBits(k, AfterItem(st, items[0]), limit, items[1..])
  }

  function AllBars(items: seq<Item>): seq<Bar> {
    if |items| == 0 then [] else ItemBars(items[0]) + AllBars(items[1..])
  }

  lemma NoFlags()
    ensures ExtraCount(0, 3) == 0 && !Bit(0, 0) && !Bit(0, 1) && !Bit(0, 2)
  {
    NoFlagsFrom(3);
    assert forall b: nat :: b <= 2 ==> !Bit(0, b);
  }

  lemma {:induction false} NoFlagsFrom(from: nat)
    requires from <= 64
    ensures ExtraCount(0, from) == 0
    decreases 64 - from
  {
    if from < 64 {
      NoBit(from);
      NoFlagsFrom(from + 1);
    }
  }

  lemma {:induction false} NoBit(b: nat)
    ensures !Bit(0, b)
  {
    if b > 0 {
      NoBit(b - 1);
    }
  }

  /** Without optional fields, an anchor expresses every bar whose open and offsets
      fit 32 bits. */
  lemma PlainAnchorFits(st: Running, limit: u32, b: Bar)
    requires Int32(b.open) && Int32(b.high - b.open) && Int32(b.open - b.low) && Int32(b.close - b.open)
    requires b.tickVolume < 0x1_0000_0000_0000_0000 && b.realVolume == 0 && b.spread == 0
    ensures ItemFits(st, limit, Anchor(0, Coded(b, [])))
  {
    hide Pow2, Bit, ExtraCount;
    NoFlags();
    WordSizes();
  }

  /** Without optional fields, a run expresses every bar that comes a minute after
      the last one and lies on the limit's grid, within the field widths. */
  lemma PlainBarFits(st: Running, limit: u32, b: Bar)
    requires st.flags == 0 && !st.spreadOn && !st.realOn && Follows(st, false, limit, b)
    requires Magnitude(Ratio(b.open - st.open - st.close, limit)) < 0x1_0000_0000_0000_0000
    requires b.tickVolume < 0x1_0000_0000_0000_0000
    ensures Expressible(st, false, limit, Coded(b, []))
  {
    hide Pow2, Bit, ExtraCount, Ratio;
    NoFlags();
    WordSizes();
    Smaller(b.high - b.open, limit);
    Smaller(b.open - b.low, limit);
    Smaller(b.close - b.open, limit);
  }

  lemma Smaller(x: int, limit: u32)
    requires Int32(x) && Multiple(x, limit)
    ensures Int32(Ratio(x, limit))
  {
  }

  // ---- decoding undoes the encoding ---------------------------------------

  lemma RawRecovered(st: Running, anchor: bool, raw: Raw)
    requires |raw.extras| == ExtraCount(st.flags, 3)
    requires (anchor ==> raw.step == 0) && (HasSpread(st, anchor) || raw.spread == 0)
             && (HasReal(st, anchor) || raw.traded == 0)
    ensures |ValuesOf(st, anchor, raw)| ==
            |BarFields(st, anchor)| && RawOf(st, anchor, ValuesOf(st, anchor, raw)) == raw
  {
    hide ExtraCount, Bit, HasSpread, HasReal;
  }

  lemma BarApplied(st: Running, anchor: bool, limit: u32, c: Coded)
    requires Follows(st, anchor, limit, c.bar)
    ensures Applied(st, anchor, limit, RawFor(st, anchor, limit, c)) == Some((c.bar, StateAfter(st, c.bar)))
  {
    hide Ratio, HasSpread, HasReal;
  }

  lemma BarRead(s: seq<bool>, pos: nat, k: nat, st: Running, anchor: bool, limit: u32, c: Coded)
    requires 1 <= k <= 8 && Expressible(st, anchor, limit, c) && At(s, pos, BarBits(k, st, anchor, limit, c))
    ensures ReadBar(s, pos, k, limit, st, anchor) ==
            Ok(((c.bar, StateAfter(st, c.bar)), pos + |BarBits(k, st, anchor, limit, c)|))
  {
    hide ReadLayout, LayoutBits, At, AllReadable, ExtraCount, Applied, RawOf, ValuesOf, BarFields, RawFor;
    RawShape(st, anchor, limit, c);
    RawRecovered(st, anchor, RawFor(st, anchor, limit, c));
    BarApplied(st, anchor, limit, c);
    LayoutReadExact(s, pos, k, BarFields(st, anchor), ValuesOf(st, anchor, RawFor(st, anchor, limit, c)));
  }

  lemma RawShape(st: Running, anchor: bool, limit: u32, c: Coded)
    ensures var raw := RawFor(st, anchor, limit, c);
      && raw.extras == c.extras && raw.spread == c.bar.spread && raw.traded == c.bar.realVolume
      && raw.ticks == c.bar.tickVolume && (anchor ==> raw.step == 0)
  {
  }

  lemma {:induction false} SpanRead(s: seq<bool>, pos: nat, k: nat, st: Running, limit: u32, cs: seq<Coded>,
                                    acc: seq<Bar>)
    requires 1 <= k <= 8 && AllExpressible(st, limit, cs) && At(s, pos, SpanBits(k, st, limit, cs))
    ensures pos <= |s|
    ensures ReadRun(s, pos, k, limit, |cs|, st, false, acc) ==
            Ok(((acc + BarsOf(cs), AfterAll(st, cs)), pos + |SpanBits(k, st, limit, cs)|))
    decreases |cs|
  {
    hide At, BarBits, ReadBar, Expressible;
    AtEnd(s, pos, SpanBits(k, st, limit, cs));
    if |cs| == 0 {
      assert acc + BarsOf(cs) == acc;
    } else {
      var bits := BarBits(k, st, false, limit, cs[0]);
      AtSplit(s, pos, bits, SpanBits(k, StateAfter(st, cs[0].bar), limit, cs[1..]));
      BarRead(s, pos, k, st, false, limit, cs[0]);
      SpanRead(s, pos + |bits|, k, StateAfter(st, cs[0].bar), limit, cs[1..], acc + [cs[0].bar]);
      assert acc + [cs[0].bar] + BarsOf(cs[1..]) == acc + BarsOf(cs);
    }
  }

  lemma AnchorRead(s: seq<bool>, pos: nat, k: nat, st: Running, limit: u32, flags: nat, c: Coded, acc: seq<Bar>)
    requires 1 <= k <= 8 && ItemFits(st, limit, Anchor(flags, c))
    requires At(s, pos, LayoutBits(k, FLAGS, [flags]))
    requires var p := pos + |LayoutBits(k, FLAGS, [flags])|;
      && At(s, p, LayoutBits(k, START, [c.bar.time, c.bar.open]))
      && At(s, p + |LayoutBits(k, START, [c.bar.time, c.bar.open])|,
            BarBits(k, Anchored(st, flags, c.bar.time, c.bar.open), true, limit, c))
    ensures var anchored := Anchored(st, flags, c.bar.time, c.bar.open);
      var p := pos + |LayoutBits(k, FLAGS, [flags])| + |LayoutBits(k, START, [c.bar.time, c.bar.open])|;
      && pos <= p <= |s|
      && ReadAnchor(s, pos, k, st) == Ok((anchored, p))
      && ReadRun(s, p, k, limit, 1, anchored, true, acc) ==
         Ok(((acc + [c.bar], AfterItem(st, Anchor(flags, c))), p + |BarBits(k, anchored, true, limit, c)|))
  {
    hide At, LayoutBits, ReadLayout, BarBits, ReadBar, Expressible, AllReadable, Bit;
    var anchored := Anchored(st, flags, c.bar.time, c.bar.open);
    var p := pos + |LayoutBits(k, FLAGS, [flags])|;
    var q := p + |LayoutBits(k, START, [c.bar.time, c.bar.open])|;
    AtEnd(s, pos, LayoutBits(k, FLAGS, [flags]));
    LayoutReadExact(s, pos, k, FLAGS, [flags]);
    AtEnd(s, p, LayoutBits(k, START, [c.bar.time, c.bar.open]));
    LayoutReadExact(s, p, k, START, [c.bar.time, c.bar.open]);
    BarRead(s, q, k, anchored, true, limit, c);
    OneBar(s, q, k, limit, anchored, acc);
  }

  lemma OneBar(s: seq<bool>, pos: nat, k: nat, limit: u32, st: Running, acc: seq<Bar>)
    requires pos <= |s| && ReadBar(s, pos, k, limit, st, true).Ok?
    ensures var (made, next) := ReadBar(s, pos, k, limit, st, true).value;
      ReadRun(s, pos, k, limit, 1, st, true, acc) == Ok(((acc + [made.0], made.1), next))
  {
    hide ReadBar;
  }

  lemma TagReadable(n: nat)
    requires n <= 2
    ensures AllReadable(TAG, [n])
  {
    hide Pow2;
    WordSizes();
  }

  lemma ItemRead(s: seq<bool>, pos: nat, k: nat, st: Running, limit: u32, item: Item, count: nat, acc: seq<Bar>)
    requires 1 <= k <= 8 && ItemFits(st, limit, item) && At(s, pos, ItemBits(k, st, limit, item))
    requires |acc| + |ItemBars(item)| <= count && |acc| < count
    ensures pos + |ItemBits(k, st, limit, item)| <= |s|
    ensures ReadBars(s, pos, k, limit, count, st, acc) ==
            ReadBars(s, pos + |ItemBits(k, st, limit, item)|, k, limit, count, AfterItem(st, item),
                     acc + ItemBars(item))
  {
    hide At, LayoutBits, ReadLayout, ReadBars, ReadAnchor, AllReadable, SpanBits, BarBits;
    match item
    case Gap(minutes) => GapRead(s, pos, k, st, limit, minutes, count, acc);
    case Anchor(flags, c) => AnchorItemRead(s, pos, k, st, limit, flags, c, count, acc);
    case Span(cs) => SpanItemRead(s, pos, k, st, limit, cs, count, acc);
  }

  lemma GapRead(s: seq<bool>, pos: nat, k: nat, st: Running, limit: u32, minutes: int, count: nat, acc: seq<Bar>)
    requires 1 <= k <= 8 && ItemFits(st, limit, Gap(minutes)) && At(s, pos, ItemBits(k, st, limit, Gap(minutes)))
    requires |acc| < count
    ensures pos + |ItemBits(k, st, limit, Gap(minutes))| <= |s|
    ensures ReadBars(s, pos, k, limit, count, st, acc) ==
            ReadBars(s, pos + |ItemBits(k, st, limit, Gap(minutes))|, k, limit, count, AfterItem(st, Gap(minutes)),
                     acc + [])
  {
    hide At, LayoutBits, ReadLayout, ReadAnchor, ReadRun, AllReadable;
    AtEnd(s, pos, ItemBits(k, st, limit, Gap(minutes)));
    TagThen(s, pos, k, 2, LayoutBits(k, TAG, [minutes]));
    LayoutReadExact(s, pos + |LayoutBits(k, TAG, [2])|, k, TAG, [minutes]);
    assert acc + [] == acc;
  }

  lemma AnchorItemRead(s: seq<bool>, pos: nat, k: nat, st: Running, limit: u32, flags: nat, c: Coded,
                       count: nat, acc: seq<Bar>)
    requires 1 <= k <= 8 && ItemFits(st, limit, Anchor(flags, c))
    requires At(s, pos, ItemBits(k, st, limit, Anchor(flags, c))) && |acc| < count
    ensures var item := Anchor(flags, c);
      && pos + |ItemBits(k, st, limit, item)| <= |s|
      && ReadBars(s, pos, k, limit, count, st, acc) ==
         ReadBars(s, pos + |ItemBits(k, st, limit, item)|, k, limit, count, AfterItem(st, item), acc + [c.bar])
  {
    hide At, LayoutBits, ReadLayout, BarBits, ReadAnchor, ReadRun, Expressible, AllReadable, Bit;
    AtEnd(s, pos, ItemBits(k, st, limit, Anchor(flags, c)));
    var anchored := Anchored(st, flags, c.bar.time, c.bar.open);
    var a, b := LayoutBits(k, FLAGS, [flags]), LayoutBits(k, START, [c.bar.time, c.bar.open]);
    var rest := BarBits(k, anchored, true, limit, c);
    var at := pos + |LayoutBits(k, TAG, [0])|;
    TagThen(s, pos, k, 0, a + (b + rest));
    AtSplit(s, at, a, b + rest);
    AtSplit(s, at + |a|, b, rest);
    AnchorRead(s, at, k, st, limit, flags, c, acc);
  }

  lemma SpanItemRead(s: seq<bool>, pos: nat, k: nat, st: Running, limit: u32, cs: seq<Coded>, count: nat, acc: seq<Bar>)
    requires 1 <= k <= 8 && ItemFits(st, limit, Span(cs)) && At(s, pos, ItemBits(k, st, limit, Span(cs)))
    requires |acc| + |cs| <= count && |acc| < count
    ensures pos + |ItemBits(k, st, limit, Span(cs))| <= |s|
    ensures ReadBars(s, pos, k, limit, count, st, acc) ==
            ReadBars(s, pos + |ItemBits(k, st, limit, Span(cs))|, k, limit, count, AfterAll(st, cs), acc + BarsOf(cs))
  {
    hide At, LayoutBits, ReadLayout, SpanBits, ReadAnchor, ReadRun, AllExpressible, AllReadable, BarsOf, AfterAll;
    AtEnd(s, pos, ItemBits(k, st, limit, Span(cs)));
    var at := pos + |LayoutBits(k, TAG, [1])|;
    TagThen(s, pos, k, 1, LayoutBits(k, TAG, [|cs|]) + SpanBits(k, st, limit, cs));
    AtSplit(s, at, LayoutBits(k, TAG, [|cs|]), SpanBits(k, st, limit, cs));
    LayoutReadExact(s, at, k, TAG, [|cs|]);
    SpanRead(s, at + |LayoutBits(k, TAG, [|cs|])|, k, st, limit, cs, acc);
    if |cs| == 0 {
      EmptySpan(k, st, limit, cs, acc);
    }
  }

  lemma TagThen(s: seq<bool>, pos: nat, k: nat, tag: nat, rest: seq<bool>)
    requires 1 <= k <= 8 && tag <= 2 && At(s, pos, LayoutBits(k, TAG, [tag]) + rest)
    ensures var at := pos + |LayoutBits(k, TAG, [tag])|;
      && pos <= at <= |s| && ReadLayout(s, pos, k, TAG) == Ok(([tag], at)) && At(s, at, rest)
  {
    hide At, LayoutBits, ReadLayout, AllReadable;
    TagReadable(tag);
    AtSplit(s, pos, LayoutBits(k, TAG, [tag]), rest);
    AtEnd(s, pos, LayoutBits(k, TAG, [tag]));
    LayoutReadExact(s, pos, k, TAG, [tag]);
  }

  lemma EmptySpan(k: nat, st: Running, limit: u32, cs: seq<Coded>, acc: seq<Bar>)
    requires |cs| == 0 && k >= 1
    ensures AllExpressible(st, limit, cs) && SpanBits(k, st, limit, cs) == [] && AfterAll(st, cs) == st
    ensures acc + BarsOf(cs) == acc
  {
  }

  lemma {:induction false} ItemsRead(s: seq<bool>, pos: nat, k: nat, st: Running, limit: u32, items: seq<Item>,
                                     count: nat, acc: seq<Bar>)
    requires 1 <= k <= 8 && AllFit(st, limit, items) && At(s, pos, AllBits(k, st, limit, items))
    requires |acc| + |AllBars(items)| == count
    ensures pos <= |s| && ReadBars(s, pos, k, limit, count, st, acc) == Ok(acc + AllBars(items))
    decreases |items|
  {
    hide At, ItemBits, ItemFits, ItemBars, ReadLayout, ReadAnchor, ReadRun;
    AtEnd(s, pos, AllBits(k, st, limit, items));
    if |acc| == count {
      assert acc + AllBars(items) == acc;
    } else {
      var bits := ItemBits(k, st, limit, items[0]);
      AtSplit(s, pos, bits, AllBits(k, AfterItem(st, items[0]), limit, items[1..]));
      ItemRead(s, pos, k, st, limit, items[0], count, acc);
      ItemsRead(s, pos + |bits|, k, AfterItem(st, items[0]), limit, items[1..], count, acc + ItemBars(items[0]));
      assert acc + ItemBars(items[0]) + AllBars(items[1..]) == acc + AllBars(items);
    }
  }

  /** A container that holds encoded anchors, gaps and spans decodes to exactly
      their bars, whatever bits follow. */
  lemma ContainerRoundTrip(h: BarHeader, data: seq<byte>, items: seq<Item>)
    requires HeaderAccepted(h) && |data| == h.size && AllFit(FRESH, h.limit, items)
    requires h.bits >= |AllBits(h.k, FRESH, h.limit, items)| && h.count == |AllBars(items)|
    requires At(Unpack(data), 0, AllBits(h.k, FRESH, h.limit, items))
    ensures Container(h, data) == Ok(AllBars(items))
  {
    hide AllBits, ReadBars, AllBars, AllFit;
    var bits := AllBits(h.k, FRESH, h.limit, items);
    var s := Unpack(data)[..h.bits];
    assert s[0..|bits|] == Unpack(data)[0..|bits|];
    ItemsRead(s, 0, h.k, FRESH, h.limit, items, h.count, []);
    assert [] + AllBars(items) == AllBars(items);
  }

  // ---- the merged history -------------------------------------------------

  /** The bars of all containers in the order received, or the first error. */
  function Received(containers: seq<(BarHeader, seq<byte>)>): Result<seq<Bar>> {
    if |containers| == 0 then Ok([]) else
    var before :- Received(containers[..|containers| - 1]);
    var last := containers[|containers| - 1];
    var bars :- Container(last.0, last.1);
    Ok(before + bars)
  }

  function ByTime(bars: seq<Bar>): map<int, Bar> {
    if |bars| == 0 then map[] else ByTime(bars[..|bars| - 1])[bars[|bars| - 1].time := bars[|bars| - 1]]
  }

  lemma EmptyOrNot(times: set<int>)
    ensures |times| == 0 <==> forall t :: t !in times
  {
    if forall t :: t !in times {
      assert times == {};
    }
  }

  lemma {:induction false} Smallest(times: set<int>)
    requires |times| > 0
    ensures exists t :: t in times && forall u :: u in times ==> t <= u
    decreases |times|
  {
    EmptyOrNot(times);
    var t :| t in times;
    EmptyOrNot(times - {t});
    if |times - {t}| > 0 {
      Smallest(times - {t});
      var s :| s in times - {t} && forall u :: u in times - {t} ==> s <= u;
      var least := if s < t then s else t;
      assert forall u :: u in times ==> u == t || u in times - {t};
      assert least in times && forall u :: u in times ==> least <= u;
    }
  }

  /** The values of an ordered map, in key order. */
  function InOrder(m: map<int, Bar>): seq<Bar>
    decreases |m|
  {
    if |m| == 0 then [] else
    assert |m.Keys| == |m|;
    Smallest(m.Keys);
    var t :| t in m.Keys && forall u :: u in m.Keys ==> t <= u;
    assert (m - {t}).Keys == m.Keys - {t};
    [m[t]] + InOrder(m - {t})
  }

  method DecodeHistory(containers: seq<(BarHeader, seq<byte>)>) returns (r: Result<seq<Bar>>)
    ensures r == match Received(containers) case Ok(bars) => Ok(InOrder(ByTime(bars))) case Err => Err
  {
    hide Container, InOrder;
    var bars: map<int, Bar> := map[];
    ghost var received: seq<Bar> := [];
    for i := 0 to |containers|
      invariant Received(containers[..i]) == Ok(received) && bars == ByTime(received)
    {
      assert containers[..i + 1][..i] == containers[..i];
      var decoded := DecodeContainer(containers[i].0, containers[i].1);
      if decoded.Err? {
        ReceivedFails(containers, i + 1);
        return Err;
      }
      var more := decoded.value;
      assert received + more[..0] == received;
      for j := 0 to |more|
        invariant bars == ByTime(received + more[..j])
      {
        assert (received + more[..j + 1])[..|received| + j] == received + more[..j];
        bars := bars[more[j].time := more[j]];
      }
      assert more[..|more|] == more;
      received := received + more;
    }
    assert containers[..|containers|] == containers;
    return Ok(InOrder(bars));
  }

  lemma {:induction false} ReceivedFails(containers: seq<(BarHeader, seq<byte>)>, i: nat)
    requires i <= |containers| && Received(containers[..i]).Err?
    ensures Received(containers).Err?
    decreases |containers| - i
  {
    hide Container;
    if i == |containers| {
      assert containers[..i] == containers;
    } else {
      assert containers[..i + 1][..i] == containers[..i];
      ReceivedFails(containers, i + 1);
    }
  }

  predicate Increasing(bars: seq<Bar>) {
    forall i, j :: 0 <= i < j < |bars| ==> bars[i].time < bars[j].time
  }

  /** The last bar received for a time. */
  function Latest(bars: seq<Bar>, time: int): Option<Bar> {
    if |bars| == 0 then None
    else if bars[|bars| - 1].time == time then Some(bars[|bars| - 1])
    else Latest(bars[..|bars| - 1], time)
  }

  lemma {:induction false} MapHoldsLatest(bars: seq<Bar>, time: int)
    ensures match Latest(bars, time)
      case None => time !in ByTime(bars)
      case Some(b) => b.time == time && time in ByTime(bars) && ByTime(bars)[time] == b
  {
    if |bars| > 0 {
      MapHoldsLatest(bars[..|bars| - 1], time);
    }
  }

  lemma {:induction false} OrderedValues(m: map<int, Bar>)
    requires forall t :: t in m ==> m[t].time == t
    ensures Increasing(InOrder(m)) && forall b :: b in InOrder(m) <==> b.time in m && m[b.time] == b
    decreases |m|
  {
    hide InOrder;
    if |m| == 0 {
      NoneInOrder(m);
    } else {
      assert |m.Keys| == |m|;
      Smallest(m.Keys);
      var t :| t in m.Keys && forall u :: u in m.Keys ==> t <= u;
      var rest := m - {t};
      assert rest.Keys == m.Keys - {t};
      OrderedValues(rest);
      FirstInOrder(m, t);
      forall b | b in InOrder(rest) ensures t < b.time {
        assert b.time in rest.Keys;
      }
      StillIncreasing(m[t], InOrder(rest));
    }
  }

  lemma NoneInOrder(m: map<int, Bar>)
    requires |m| == 0
    ensures InOrder(m) == [] && m == map[]
  {
  }

  lemma StillIncreasing(first: Bar, rest: seq<Bar>)
    requires Increasing(rest) && forall b :: b in rest ==> first.time < b.time
    ensures Increasing([first] + rest)
    ensures forall b :: b in [first] + rest <==> b == first || b in rest
  {
    var all := [first] + rest;
    forall i, j | 0 <= i < j < |all| ensures all[i].time < all[j].time {
      assert all[j] == rest[j - 1] && rest[j - 1] in rest;
    }
  }

  lemma FirstInOrder(m: map<int, Bar>, t: int)
    requires t in m.Keys && forall u :: u in m.Keys ==> t <= u
    ensures InOrder(m) == [m[t]] + InOrder(m - {t})
  {
    assert |m.Keys| > 0;
  }

  /** The history has strictly increasing times, and holds exactly the last bar
      received for each time: later containers win. */
  lemma HistoryIsLatest(bars: seq<Bar>)
    ensures Increasing(InOrder(ByTime(bars)))
    ensures forall b :: b in InOrder(ByTime(bars)) <==> Latest(bars, b.time) == Some(b)
  {
    hide InOrder, ByTime, Latest;
    forall t ensures match Latest(bars, t)
      case None => t !in ByTime(bars)
      case Some(b) => b.time == t && t in ByTime(bars) && ByTime(bars)[t] == b
    {
      MapHoldsLatest(bars, t);
    }
    OrderedValues(ByTime(bars));
  }
}
