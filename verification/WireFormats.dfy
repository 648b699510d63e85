/** The wire formats written out field by field, next to the layouts that the codecs
    work with. */
module WireFormats {
  import opened Results
  import opened Bits
  import opened PackedCode
  import opened Bars
  import F = Framing
  import D = Depth
  import Q = Quotes
  import T = Ticks
  import C = Cipher
  import S = Session

  function Joined(pieces: seq<seq<bool>>): seq<bool> {
    if |pieces| == 0 then [] else pieces[0] + Joined(pieces[1..])
  }

  lemma {:induction false} JoinedConcat(a: seq<seq<bool>>, b: seq<seq<bool>>)
    ensures Joined(a + b) == Joined(a) + Joined(b)
    decreases |a|
  {
    if |a| == 0 {
      assert a + b == b;
    } else {
      assert (a + b)[1..] == a[1..] + b;
      JoinedConcat(a[1..], b);
    }
  }

  // ---- the packed code ----------------------------------------------------

  /** `n` digits of all ones. */
  function Sentinels(k: nat, n: nat): seq<bool> {
    seq(n * k, _ => true)
  }

  lemma {:induction false} AllOnes(k: nat)
    ensures ToBits(Pow2(k) - 1, k) == seq(k, _ => true)
  {
    if k > 0 {
      AllOnes(k - 1);
      assert (Pow2(k) - 1) % 2 == 1 && (Pow2(k) - 1) / 2 == Pow2(k - 1) - 1;
    }
  }

  lemma {:induction false} PrefixShape(k: nat, units: nat) returns (full: nat, last: nat)
    requires k >= 1
    ensures units == full * (Pow2(k) - 1) + last && last < Pow2(k) - 1
    ensures PrefixBits(k, units) == Sentinels(k, full) + ToBits(last, k)
    decreases units
  {
    hide ToBits, Pow2;
    if units < Sentinel(k) {
      assert Sentinels(k, 0) == [];
      full, last := 0, units;
    } else {
      var before, rest := PrefixShape(k, units - Sentinel(k));
      AllOnes(k);
      assert Sentinels(k, 1 + before) == seq(k, _ => true) + Sentinels(k, before) by {
        assert (1 + before) * k == k + before * k;
      }
      full, last := 1 + before, rest;
      assert full * (Pow2(k) - 1) == before * (Pow2(k) - 1) + (Pow2(k) - 1);
    }
  }

  /** A packed integer: its two's complement bits, least significant first, in as few
      groups of two as hold them; before them the number of groups, as digits of `k`
      bits that are all ones until the last one, which is less. */
  lemma PackedShape(k: nat, v: int, width: nat) returns (full: nat, last: nat, groups: nat)
    requires k >= 1
    ensures var m := v % Pow2(width);
      && PackedBits(k, v, width) == Sentinels(k, full) + ToBits(last, k) + ToBits(m, 2 * groups)
      && groups == full * (Pow2(k) - 1) + last && last < Pow2(k) - 1
      && m < Pow2(2 * groups) && (groups > 0 ==> m >= Pow2(2 * groups - 2))
  {
    hide ToBits, Pow2, BitLength;
    var m := Masked(v, width);
    groups := Units(m);
    full, last := PrefixShape(k, groups);
    GroupsHold(m);
  }

  /** Sign and magnitude: the same groups for the magnitude, with the sign bit between
      the count and the groups. */
  lemma SignedMagnitudeShape(k: nat, v: int) returns (full: nat, last: nat, groups: nat)
    requires k >= 1
    ensures var m := if v < 0 then -v else v;
      && SignedMagnitudeBits(k, v) == Sentinels(k, full) + ToBits(last, k) + [v < 0] + ToBits(m, 2 * groups)
      && groups == full * (Pow2(k) - 1) + last && last < Pow2(k) - 1
      && m < Pow2(2 * groups) && (groups > 0 ==> m >= Pow2(2 * groups - 2))
  {
    hide ToBits, Pow2, BitLength;
    var m := Magnitude(v);
    groups := Units(m);
    full, last := PrefixShape(k, groups);
    GroupsHold(m);
  }

  lemma GroupsHold(m: nat)
    ensures m < Pow2(2 * Units(m)) && (Units(m) > 0 ==> m >= Pow2(2 * Units(m) - 2))
  {
    hide Pow2;
    var n := BitLength(m);
    LengthHolds(m);
    Pow2Grows(n, 2 * Units(m));
    if n > 0 {
      Pow2Grows(2 * Units(m) - 2, n - 1);
    }
  }

  lemma {:induction false} LengthHolds(m: nat)
    ensures m < Pow2(BitLength(m)) && (BitLength(m) > 0 ==> m >= Pow2(BitLength(m) - 1))
  {
    if m > 0 {
      LengthHolds(m / 2);
    }
  }

  // ---- frames -------------------------------------------------------------

  lemma TwoBytes(v: nat)
    ensures LE(v, 2) == [v % 256, v / 256 % 256]
  {
    assert LE(v, 2) == [v % 256] + LE(v / 256, 1);
    OneByte(v / 256);
  }

  lemma OneByte(v: nat)
    ensures LE(v, 1) == [v % 256]
  {
    assert LE(v, 1) == [v % 256] + LE(v / 256, 0);
  }

  lemma FourBytes(v: nat)
    requires v < 0x1_0000_0000
    ensures LE32(v) == [v % 256, v / 0x100 % 256, v / 0x1_0000 % 256, v / 0x100_0000]
  {
    hide LE;
    var b := v / 256 / 256;
    FourByTwo(v);
    TwoBytes(v);
    TwoBytes(b);
    assert b == v / 0x1_0000 && b / 256 == v / 0x100_0000 && v / 0x100_0000 < 256;
    assert LE(v, 2) + LE(b, 2) == [v % 256, v / 256 % 256, b % 256, b / 256 % 256];
  }

  lemma FourByTwo(v: nat)
    ensures LE(v, 4) == LE(v, 2) + LE(v / 256 / 256, 2)
  {
    assert LE(v, 4) == [v % 256] + LE(v / 256, 3) && LE(v / 256, 3) == [v / 256 % 256] + LE(v / 256 / 256, 2);
    TwoBytes(v);
  }

  /** A frame: command, payload length in four bytes, sequence and flags in two each, all
      least significant byte first, and the payload. */
  lemma FrameBytes(f: F.Frame)
    requires |f.payload| < 0x8000_0000
    ensures var n := |f.payload|;
      f.Pack() == [f.command, n % 256, n / 0x100 % 256, n / 0x1_0000 % 256, n / 0x100_0000,
                   f.sequence % 256, f.sequence / 256, f.flags % 256, f.flags / 256] + f.payload
  {
    hide LE, LE32;
    FourBytes(|f.payload|);
    TwoBytes(f.sequence);
    TwoBytes(f.flags);
  }

  // ---- layouts ------------------------------------------------------------

  function Pieces(k: nat, fs: seq<Field>, vs: seq<int>): (pieces: seq<seq<bool>>)
    requires k >= 1 && |fs| == |vs|
    ensures |pieces| == |fs| && forall i :: 0 <= i < |fs| ==> pieces[i] == FieldBits(k, fs[i], vs[i])
  {
    seq(|fs|, i requires 0 <= i < |fs| => FieldBits(k, fs[i], vs[i]))
  }

  lemma {:induction false} LayoutJoined(k: nat, fs: seq<Field>, vs: seq<int>)
    requires k >= 1 && |fs| == |vs|
    ensures LayoutBits(k, fs, vs) == Joined(Pieces(k, fs, vs))
  {
    hide FieldBits;
    if |fs| > 0 {
      LayoutJoined(k, fs[1..], vs[1..]);
      assert Pieces(k, fs, vs)[1..] == Pieces(k, fs[1..], vs[1..]);
    }
  }

  /** A depth record: symbol, two header numbers and the entry count; and each entry's
      mask, type, price, volume change and auxiliary number. */
  lemma DepthWritten(r: D.DepthRecord, e: D.DepthEntry)
    ensures D.HeaderBits(r) ==
            Joined([PackedBits(2, r.symbolId, 32), PackedBits(2, r.headerA, 64), PackedBits(2, r.headerB, 64),
                    PackedBits(2, |r.entries|, 64)])
    ensures D.EntryBits(e) ==
            Joined([PackedBits(2, e.mask, 64), PackedBits(2, e.entryType, 8), PackedBits(2, e.priceInteger, 64),
                    SignedMagnitudeBits(2, e.volumeDelta), PackedBits(2, e.auxiliary, 64)])
  {
    hide PackedBits, SignedMagnitudeBits, Joined, LayoutBits;
    LayoutJoined(2, D.HEADER, D.HeaderValues(r));
    LayoutJoined(2, D.ENTRY, D.EntryValues(e));
    assert Pieces(2, D.HEADER, D.HeaderValues(r)) ==
           [PackedBits(2, r.symbolId, 32), PackedBits(2, r.headerA, 64), PackedBits(2, r.headerB, 64),
            PackedBits(2, |r.entries|, 64)];
    assert Pieces(2, D.ENTRY, D.EntryValues(e)) ==
           [PackedBits(2, e.mask, 64), PackedBits(2, e.entryType, 8), PackedBits(2, e.priceInteger, 64),
            SignedMagnitudeBits(2, e.volumeDelta), PackedBits(2, e.auxiliary, 64)];
  }

  /** A packed tick: the tag 5, time, three prices, whole and auxiliary numbers, two
      numbers that are ignored, and the fraction of the volume. */
  lemma TickWritten(k: nat, t: T.PackedTick)
    requires k >= 1
    ensures LayoutBits(k, T.TICK, T.TickValues(t)) ==
            Joined([PackedBits(k, 5, 64), PackedBits(k, t.time, 64), SignedMagnitudeBits(k, t.bid),
                    SignedMagnitudeBits(k, t.ask), SignedMagnitudeBits(k, t.last), PackedBits(k, t.whole, 64),
                    PackedBits(k, t.auxiliary, 64), PackedBits(k, t.ignored, 32),
                    SignedMagnitudeBits(k, t.ignoredSign), PackedBits(k, t.fraction, 64)])
  {
    hide PackedBits, SignedMagnitudeBits, Joined, LayoutBits;
    LayoutJoined(k, T.TICK, T.TickValues(t));
    assert Pieces(k, T.TICK, T.TickValues(t)) ==
           [PackedBits(k, 5, 64), PackedBits(k, t.time, 64), SignedMagnitudeBits(k, t.bid),
            SignedMagnitudeBits(k, t.ask), SignedMagnitudeBits(k, t.last), PackedBits(k, t.whole, 64),
            PackedBits(k, t.auxiliary, 64), PackedBits(k, t.ignored, 32),
            SignedMagnitudeBits(k, t.ignoredSign), PackedBits(k, t.fraction, 64)];
  }

  // ---- quotes -------------------------------------------------------------

  /** The present values among these bits, in this order, in 64 bits each, or 16 for the
      bit that is named narrow. */
  function Present(mask: u64, values: map<nat, int>, order: seq<nat>, narrow: Option<nat>): seq<bool> {
    if |order| == 0 then [] else
    var b := order[0];
    (if Bit(mask, b) then PackedBits(2, Q.ValueAt(values, b), if narrow == Some(b) then 16 else 64) else [])
    + Present(mask, values, order[1..], narrow)
  }

  function UpTo(first: nat, end: nat): (order: seq<nat>)
    requires first <= end
    ensures |order| == end - first && forall i :: 0 <= i < end - first ==> order[i] == first + i
  {
    seq(end - first, i requires 0 <= i < end - first => first + i)
  }

  predicate Ordered(table: seq<Q.Slot>, order: seq<nat>, narrow: Option<nat>) {
    |table| == |order| && forall i :: 0 <= i < |table| ==>
      table[i].bit == order[i] && table[i].field.Packed?
      && table[i].field.width == if narrow == Some(order[i]) then 16 else 64
  }

  lemma {:induction false} TableWritten(mask: u64, table: seq<Q.Slot>, values: map<nat, int>, order: seq<nat>,
                                        narrow: Option<nat>)
    requires Ordered(table, order, narrow)
    ensures Q.PresentBits(mask, table, values) == Present(mask, values, order, narrow)
    decreases |table|
  {
    hide PackedBits, Bit, Q.ValueAt;
    if |table| > 0 {
      assert forall i :: 0 <= i < |table| - 1 ==> table[1..][i] == table[i + 1] && order[1..][i] == order[i + 1];
      TableWritten(mask, table[1..], values, order[1..], narrow);
      assert forall s: seq<bool> :: [] + s == s;
    }
  }

  /** A live tick: symbol, seconds and mask, then the values of bits 0 to 8 that the mask
      marks, number 5 in 16 bits and the others in 64, and those of bits 9 to 63. */
  lemma LiveWritten(rec: Q.QuoteInput)
    ensures Q.BodyBits(rec, 50) ==
            Joined([PackedBits(2, rec.symbolId, 32), PackedBits(2, rec.seconds, 64), PackedBits(2, rec.mask, 64)])
            + Present(rec.mask, rec.values, UpTo(0, 9), Some(5)) + Present(rec.mask, rec.values, UpTo(9, 64), None)
  {
    hide PackedBits, Joined, LayoutBits, Present, Q.PresentBits;
    var head := Q.HeadValues(rec, 50);
    LayoutJoined(2, Q.LIVE_HEAD, head);
    assert Pieces(2, Q.LIVE_HEAD, head) ==
           [PackedBits(2, rec.symbolId, 32), PackedBits(2, rec.seconds, 64), PackedBits(2, rec.mask, 64)];
    TableWritten(rec.mask, Q.LIVE_FIELDS, rec.values, UpTo(0, 9), Some(5));
    TableWritten(rec.mask, Q.ExtensionFields(9), rec.values, UpTo(9, 64), None);
    NonePresent(rec.mask, rec.additionalMasks);
    assert forall s: seq<bool> :: s + [] == s;
  }

  lemma NonePresent(mask: u64, values: map<nat, int>)
    ensures Q.PresentBits(mask, [], values) == []
  {
  }

  /** A market-watch record: symbol, mask and seconds; bits 0 to 25, then 27, 26, and 28 to
      40; bits 41 to 63; and bits 62 and 63 again from the additional masks. All values
      have 64 bits. */
  lemma SnapshotWritten(rec: Q.QuoteInput)
    ensures Q.BodyBits(rec, 51) ==
            Joined([PackedBits(2, rec.symbolId, 32), PackedBits(2, rec.mask, 64), PackedBits(2, rec.seconds, 64)])
            + Present(rec.mask, rec.values, UpTo(0, 26) + [27, 26] + UpTo(28, 41), None)
            + Present(rec.mask, rec.values, UpTo(41, 64), None)
            + Present(rec.mask, rec.additionalMasks, [62, 63], None)
  {
    hide PackedBits, Joined, LayoutBits, Present, Q.PresentBits;
    var head := Q.HeadValues(rec, 51);
    LayoutJoined(2, Q.SNAPSHOT_HEAD, head);
    assert Pieces(2, Q.SNAPSHOT_HEAD, head) ==
           [PackedBits(2, rec.symbolId, 32), PackedBits(2, rec.mask, 64), PackedBits(2, rec.seconds, 64)];
    TableWritten(rec.mask, Q.SnapshotFields(), rec.values, UpTo(0, 26) + [27, 26] + UpTo(28, 41), None);
    TableWritten(rec.mask, Q.ExtensionFields(41), rec.values, UpTo(41, 64), None);
    TableWritten(rec.mask, Q.ADDITIONAL_FIELDS, rec.additionalMasks, [62, 63], None);
  }

  // ---- bars ---------------------------------------------------------------

  /** The fields of one bar: in a run the step first; then high, low and close offsets and
      the tick volume; spread and traded volume where they are switched on; and the
      numbers that the anchor's further flags announce. */
  function WrittenBar(k: nat, anchor: bool, raw: Raw, spread: bool, traded: bool): seq<bool>
    requires k >= 1
  {
    Joined((if anchor then [] else [SignedMagnitudeBits(k, raw.step)])
           + [PackedBits(k, raw.high, 32), PackedBits(k, raw.low, 32), SignedMagnitudeBits(k, raw.close),
              PackedBits(k, raw.ticks, 64)]
           + (if spread then [SignedMagnitudeBits(k, raw.spread)] else [])
           + (if traded then [PackedBits(k, raw.traded, 64)] else [])
           + seq(|raw.extras|, i requires 0 <= i < |raw.extras| => PackedBits(k, raw.extras[i], 64)))
  }

  lemma PiecesConcat(k: nat, f: seq<Field>, g: seq<Field>, v: seq<int>, w: seq<int>)
    requires k >= 1 && |f| == |v| && |g| == |w|
    ensures Pieces(k, f + g, v + w) == Pieces(k, f, v) + Pieces(k, g, w)
  {
    hide FieldBits;
  }

  lemma BarWritten(k: nat, st: Running, anchor: bool, raw: Raw)
    requires k >= 1 && |raw.extras| == ExtraCount(st.flags, 3)
    ensures |ValuesOf(st, anchor, raw)| == |BarFields(st, anchor)|
    ensures LayoutBits(k, BarFields(st, anchor), ValuesOf(st, anchor, raw)) ==
            WrittenBar(k, anchor, raw, HasSpread(st, anchor), HasReal(st, anchor))
  {
    hide PackedBits, SignedMagnitudeBits, Joined, LayoutBits, ExtraCount, Bit, Pieces, HasSpread, HasReal;
    LayoutJoined(k, BarFields(st, anchor), ValuesOf(st, anchor, raw));
    var f1, v1 := if anchor then [] else [SignedMagnitude(64)], if anchor then [] else [raw.step];
    var f2 := [Packed(32, true), Packed(32, true), SignedMagnitude(if anchor then 32 else 64), Packed(64, false)];
    var v2 := [raw.high, raw.low, raw.close, raw.ticks];
    var f3: seq<Field> := if HasSpread(st, anchor) then [SignedMagnitude(32)] else [];
    var v3: seq<int> := if HasSpread(st, anchor) then [raw.spread] else [];
    var f4: seq<Field> := if HasReal(st, anchor) then [Packed(64, false)] else [];
    var v4: seq<int> := if HasReal(st, anchor) then [raw.traded] else [];
    var f5, v5 := Extras(ExtraCount(st.flags, 3)), raw.extras;
    PiecesConcat(k, f1, f2, v1, v2);
    PiecesConcat(k, f1 + f2, f3, v1 + v2, v3);
    PiecesConcat(k, f1 + f2 + f3, f4, v1 + v2 + v3, v4);
    PiecesConcat(k, f1 + f2 + f3 + f4, f5, v1 + v2 + v3 + v4, v5);
    PiecesOfBar(k, anchor, raw, HasSpread(st, anchor), HasReal(st, anchor));
  }

  lemma PiecesOfBar(k: nat, anchor: bool, raw: Raw, spread: bool, traded: bool)
    requires k >= 1
    ensures Pieces(k, if anchor then [] else [SignedMagnitude(64)], if anchor then [] else [raw.step]) ==
            if anchor then [] else [SignedMagnitudeBits(k, raw.step)]
    ensures Pieces(k, [Packed(32, true), Packed(32, true), SignedMagnitude(if anchor then 32 else 64),
                       Packed(64, false)], [raw.high, raw.low, raw.close, raw.ticks]) ==
            [PackedBits(k, raw.high, 32), PackedBits(k, raw.low, 32), SignedMagnitudeBits(k, raw.close),
             PackedBits(k, raw.ticks, 64)]
    ensures Pieces(k, if spread then [SignedMagnitude(32)] else [], if spread then [raw.spread] else []) ==
            if spread then [SignedMagnitudeBits(k, raw.spread)] else []
    ensures Pieces(k, if traded then [Packed(64, false)] else [], if traded then [raw.traded] else []) ==
            if traded then [PackedBits(k, raw.traded, 64)] else []
    ensures Pieces(k, Extras(|raw.extras|), raw.extras) ==
            seq(|raw.extras|, i requires 0 <= i < |raw.extras| => PackedBits(k, raw.extras[i], 64))
  {
    hide PackedBits, SignedMagnitudeBits;
  }

  function SetBits(flags: nat, from: nat): set<nat> {
    set b: nat | from <= b < 64 && Bit(flags, b)
  }

  /** Each of the flag bits from 3 to 63 that is set announces one number. */
  lemma {:induction false} ExtrasAnnounced(flags: nat, from: nat)
    requires from <= 64
    ensures ExtraCount(flags, from) == |SetBits(flags, from)|
    decreases 64 - from
  {
    hide Bit;
    if from < 64 {
      ExtrasAnnounced(flags, from + 1);
      var rest := SetBits(flags, from + 1);
      assert SetBits(flags, from) == if Bit(flags, from) then rest + {from} else rest;
    } else {
      assert SetBits(flags, from) == {};
    }
  }

  /** The flags of the last anchor. */
  function LastFlags(items: seq<Item>): nat {
    if |items| == 0 then 0 else
    match items[|items| - 1]
    case Anchor(flags, _) => flags
    case _ => LastFlags(items[..|items| - 1])
  }

  /** Some anchor has the flag. */
  predicate Ever(items: seq<Item>, flag: nat) {
    exists i :: 0 <= i < |items| && items[i].Anchor? && Bit(items[i].flags, flag)
  }

  /** The close of the last bar, zero before any. */
  function LastClose(items: seq<Item>): int {
    if |items| == 0 then 0 else
    match items[|items| - 1]
    case Anchor(_, c) => c.bar.close
    case Gap(_) => LastClose(items[..|items| - 1])
    case Span(cs) => if |cs| == 0 then LastClose(items[..|items| - 1]) else cs[|cs| - 1].bar.close
  }

  function AnchorRaw(c: Coded): Raw {
    var b := c.bar;
    Raw(0, b.high - b.open, b.open - b.low, b.close - b.open, b.tickVolume, b.spread, b.realVolume, c.extras)
  }

  /** In a run every offset counts limits, and the step is from the last close. */
  function RunRaw(limit: u32, close: int, c: Coded): Raw {
    var b := c.bar;
    Raw(Ratio(b.open - close, limit), Ratio(b.high - b.open, limit), Ratio(b.open - b.low, limit),
        Ratio(b.close - b.open, limit), b.tickVolume, b.spread, b.realVolume, c.extras)
  }

  function WrittenSpan(k: nat, limit: u32, close: int, cs: seq<Coded>, spread: bool, traded: bool): seq<bool>
    requires k >= 1
    decreases |cs|
  {
    if |cs| == 0 then [] else
    WrittenBar(k, false, RunRaw(limit, close, cs[0]), spread, traded)
    + WrittenSpan(k, limit, cs[0].bar.close, cs[1..], spread, traded)
  }

  /** One item after others: a tag, 0 for an anchor, 1 for a run and 2 for a gap, and then
      an anchor's flags, time and open and its bar, a run's length and its bars, or a
      gap's minutes. Spread and traded volume are in an anchor's bar when its own flags
      say so, and in every run after an anchor that said so. */
  function WrittenItem(k: nat, limit: u32, before: seq<Item>, item: Item): seq<bool>
    requires k >= 1
  {
    match item
    case Anchor(flags, c) =>
      Joined([PackedBits(k, 0, 64), PackedBits(k, flags, 64), PackedBits(k, c.bar.time, 64),
              SignedMagnitudeBits(k, c.bar.open)])
      + WrittenBar(k, true, AnchorRaw(c), Bit(flags, 0), Bit(flags, 1))
    case Gap(minutes) => Joined([PackedBits(k, 2, 64), PackedBits(k, minutes, 64)])
    case Span(cs) =>
      Joined([PackedBits(k, 1, 64), PackedBits(k, |cs|, 64)])
      + WrittenSpan(k, limit, LastClose(before), cs, Ever(before, 0), Ever(before, 1))
  }

  function WrittenItems(k: nat, limit: u32, items: seq<Item>): seq<bool>
    requires k >= 1
  {
    if |items| == 0 then [] else
    var before := items[..|items| - 1];
    WrittenItems(k, limit, before) + WrittenItem(k, limit, before, items[|items| - 1])
  }

  /** The decoder's running state is what the items before say. */
  predicate Runs(st: Running, before: seq<Item>) {
    && st.flags == LastFlags(before) && (st.spreadOn <==> Ever(before, 0)) && (st.realOn <==> Ever(before, 1))
    && st.open + st.close == LastClose(before)
  }

  lemma EverMore(before: seq<Item>, item: Item, flag: nat)
    ensures Ever(before + [item], flag) <==> Ever(before, flag) || (item.Anchor? && Bit(item.flags, flag))
  {
    hide Bit;
    var all := before + [item];
    assert all[|before|] == item && forall i :: 0 <= i < |before| ==> all[i] == before[i];
    if Ever(before, flag) {
      var i :| 0 <= i < |before| && before[i].Anchor? && Bit(before[i].flags, flag);
      assert all[i] == before[i];
    }
  }

  lemma {:induction false} SpanWrites(k: nat, st: Running, limit: u32, cs: seq<Coded>, spread: bool, traded: bool)
    requires k >= 1 && AllExpressible(st, limit, cs) && st.spreadOn == spread && st.realOn == traded
    ensures SpanBits(k, st, limit, cs) == WrittenSpan(k, limit, st.open + st.close, cs, spread, traded)
    ensures var after := AfterAll(st, cs);
      && after.flags == st.flags && after.spreadOn == spread && after.realOn == traded
      && after.open + after.close == if |cs| == 0 then st.open + st.close else cs[|cs| - 1].bar.close
    decreases |cs|
  {
    hide WrittenBar, Bit, ExtraCount, LayoutBits, AllReadable;
    if |cs| > 0 {
      var next := StateAfter(st, cs[0].bar);
      OneWrites(k, st, limit, cs[0]);
      SpanWrites(k, next, limit, cs[1..], spread, traded);
    }
  }

  lemma OneWrites(k: nat, st: Running, limit: u32, c: Coded)
    requires k >= 1 && Expressible(st, false, limit, c)
    ensures BarBits(k, st, false, limit, c) ==
            WrittenBar(k, false, RunRaw(limit, st.open + st.close, c), st.spreadOn, st.realOn)
  {
    hide WrittenBar, Bit, ExtraCount, LayoutBits, AllReadable, Ratio;
    BarWritten(k, st, false, RawFor(st, false, limit, c));
    assert c.bar.open - st.open - st.close == c.bar.open - (st.open + st.close);
  }

  lemma TagWrites(k: nat, v: int)
    requires k >= 1
    ensures LayoutBits(k, TAG, [v]) == PackedBits(k, v, 64) && LayoutBits(k, FLAGS, [v]) == PackedBits(k, v, 64)
  {
    hide PackedBits;
    var bits := PackedBits(k, v, 64);
    assert bits + [] == bits;
    assert LayoutBits(k, TAG[1..], [v][1..]) == [] && LayoutBits(k, FLAGS[1..], [v][1..]) == [];
  }

  lemma StartWrites(k: nat, time: int, open: int)
    requires k >= 1
    ensures LayoutBits(k, Bars.START, [time, open]) == PackedBits(k, time, 64) + SignedMagnitudeBits(k, open)
  {
    hide PackedBits, SignedMagnitudeBits, LayoutBits, Joined;
    LayoutJoined(k, Bars.START, [time, open]);
    assert Pieces(k, Bars.START, [time, open]) == [PackedBits(k, time, 64), SignedMagnitudeBits(k, open)];
    JoinedFew(PackedBits(k, time, 64), SignedMagnitudeBits(k, open), [], []);
  }

  lemma JoinedFew(a: seq<bool>, b: seq<bool>, c: seq<bool>, d: seq<bool>)
    ensures Joined([a, b]) == a + b && Joined([a, b, c, d]) == a + (b + (c + d))
  {
    assert [a, b][1..] == [b] && [b][1..] == [];
    assert [a, b, c, d][1..] == [b, c, d] && [b, c, d][1..] == [c, d] && [c, d][1..] == [d] && [d][1..] == [];
    assert Joined([d]) == d + [] == d && Joined([b]) == b + [] == b;
    assert Joined([c, d]) == c + d && Joined([b, c, d]) == b + (c + d);
  }

  lemma Regroup(a: seq<bool>, b: seq<bool>, c: seq<bool>, d: seq<bool>)
    ensures a + (b + (c + d)) == a + (b + c) + d
  {
  }

  lemma AnchorWrites(k: nat, st: Running, limit: u32, before: seq<Item>, flags: nat, c: Coded)
    requires k >= 1 && ItemFits(st, limit, Anchor(flags, c))
    ensures ItemBits(k, st, limit, Anchor(flags, c)) == WrittenItem(k, limit, before, Anchor(flags, c))
  {
    hide WrittenBar, Bit, ExtraCount, PackedBits, SignedMagnitudeBits, AllReadable, Joined, LayoutBits, Ever;
    var at, b := Anchored(st, flags, c.bar.time, c.bar.open), c.bar;
    BarWritten(k, at, true, RawFor(at, true, limit, c));
    assert RawFor(at, true, limit, c) == AnchorRaw(c);
    TagWrites(k, 0);
    TagWrites(k, flags);
    StartWrites(k, b.time, b.open);
    JoinedFew(PackedBits(k, 0, 64), PackedBits(k, flags, 64), PackedBits(k, b.time, 64),
              SignedMagnitudeBits(k, b.open));
    Regroup(PackedBits(k, 0, 64), PackedBits(k, flags, 64), PackedBits(k, b.time, 64) + SignedMagnitudeBits(k, b.open),
            BarBits(k, at, true, limit, c));
  }

  lemma ItemWrites(k: nat, st: Running, limit: u32, before: seq<Item>, item: Item)
    requires k >= 1 && Runs(st, before) && ItemFits(st, limit, item)
    ensures ItemBits(k, st, limit, item) == WrittenItem(k, limit, before, item)
  {
    hide WrittenBar, Bit, ExtraCount, PackedBits, SignedMagnitudeBits, AllReadable, Joined, LayoutBits, SpanBits,
         WrittenSpan, BarBits, Ever, LastFlags, LastClose;
    match item
    case Anchor(flags, c) => AnchorWrites(k, st, limit, before, flags, c);
    case Gap(minutes) =>
      TagWrites(k, 2);
      TagWrites(k, minutes);
      JoinedFew(PackedBits(k, 2, 64), PackedBits(k, minutes, 64), [], []);
    case Span(cs) =>
      TagWrites(k, 1);
      TagWrites(k, |cs|);
      JoinedFew(PackedBits(k, 1, 64), PackedBits(k, |cs|, 64), [], []);
      SpanWrites(k, st, limit, cs, st.spreadOn, st.realOn);
      Regroup([], PackedBits(k, 1, 64), PackedBits(k, |cs|, 64), SpanBits(k, st, limit, cs));
      assert forall s: seq<bool> :: [] + s == s;
  }

  lemma ItemRuns(st: Running, limit: u32, before: seq<Item>, item: Item)
    requires Runs(st, before) && ItemFits(st, limit, item)
    ensures Runs(AfterItem(st, item), before + [item])
  {
    hide Bit, ExtraCount, AllReadable, Ever, AfterAll;
    assert (before + [item])[..|before|] == before;
    EverMore(before, item, 0);
    EverMore(before, item, 1);
    match item
    case Span(cs) => SpanWrites(1, st, limit, cs, st.spreadOn, st.realOn);
    case _ =>
  }

  lemma {:induction false} ItemsWrite(k: nat, st: Running, limit: u32, before: seq<Item>, rest: seq<Item>)
    requires k >= 1 && Runs(st, before) && AllFit(st, limit, rest)
    ensures WrittenItems(k, limit, before) + AllBits(k, st, limit, rest) == WrittenItems(k, limit, before + rest)
    decreases |rest|
  {
    hide Runs, ItemFits, WrittenItem, ItemBits, AfterItem;
    if |rest| == 0 {
      assert before + rest == before;
    } else {
      var item, more := rest[0], before + [rest[0]];
      ItemWrites(k, st, limit, before, item);
      ItemRuns(st, limit, before, item);
      assert more[..|before|] == before && more + rest[1..] == before + rest;
      ItemsWrite(k, AfterItem(st, item), limit, more, rest[1..]);
    }
  }

  lemma NothingRuns()
    ensures Runs(FRESH, []) && forall k: nat, limit: u32 :: k >= 1 ==> WrittenItems(k, limit, []) == []
  {
  }

  /** The bits of a container are its items written one after another. */
  lemma ContainerWritten(k: nat, limit: u32, items: seq<Item>)
    requires k >= 1 && AllFit(FRESH, limit, items)
    ensures AllBits(k, FRESH, limit, items) == WrittenItems(k, limit, items)
  {
    hide AllFit, AllBits, WrittenItems, Runs;
    NothingRuns();
    ItemsWrite(k, FRESH, limit, [], items);
    assert [] + items == items && [] + AllBits(k, FRESH, limit, items) == AllBits(k, FRESH, limit, items);
  }

  /** A header outside these bounds is refused, whatever follows it. */
  lemma HeadersRefused(h: BarHeader, data: seq<byte>)
    requires Container(h, data).Ok?
    ensures h.size >= 0 && |data| == h.size && 0 <= h.bits <= 8 * h.size && 0 <= h.count <= 1_000_000
    ensures 0 <= h.digits <= 12 && h.flags == 0 && 1 <= h.k <= 8
  {
    hide ReadBars;
  }

  // ---- known answers ------------------------------------------------------

  function One(b: bool): nat {
    if b then 1 else 0
  }

  function Four(b3: bool, b2: bool, b1: bool, b0: bool): (n: nat)
    ensures n < 16
  {
    One(b0) + 2 * One(b1) + 4 * One(b2) + 8 * One(b3)
  }

  function ByteOf(b7: bool, b6: bool, b5: bool, b4: bool, b3: bool, b2: bool, b1: bool, b0: bool): byte {
    Four(b3, b2, b1, b0) + 16 * Four(b7, b6, b5, b4)
  }

  lemma XorHalves(a: nat, b: nat, x: bool, y: bool, n: nat)
    ensures C.XorBits(One(x) + 2 * a, One(y) + 2 * b, n + 1) == One(x != y) + 2 * C.XorBits(a, b, n)
  {
    var p, q := One(x) + 2 * a, One(y) + 2 * b;
    assert p / 2 == a && q / 2 == b && p % 2 == One(x) && q % 2 == One(y);
  }

  lemma NoBits(a: nat, b: nat)
    ensures C.XorBits(a, b, 0) == 0
  {
  }

  lemma XorTwo(a: nat, b: nat, a1: bool, a0: bool, b1: bool, b0: bool, n: nat)
    ensures C.XorBits(One(a0) + 2 * One(a1) + 4 * a, One(b0) + 2 * One(b1) + 4 * b, n + 2) ==
            One(a0 != b0) + 2 * One(a1 != b1) + 4 * C.XorBits(a, b, n)
  {
    hide C.XorBits, One;
    XorHalves(a, b, a1, b1, n);
    XorHalves(One(a1) + 2 * a, One(b1) + 2 * b, a0, b0, n + 1);
  }

  lemma XorFour(a: nat, b: nat, a3: bool, a2: bool, a1: bool, a0: bool, b3: bool, b2: bool, b1: bool, b0: bool, n: nat)
    ensures C.XorBits(Four(a3, a2, a1, a0) + 16 * a, Four(b3, b2, b1, b0) + 16 * b, n + 4) ==
            Four(a3 != b3, a2 != b2, a1 != b1, a0 != b0) + 16 * C.XorBits(a, b, n)
  {
    hide C.XorBits, One;
    XorTwo(a, b, a3, a2, b3, b2, n);
    XorTwo(One(a2) + 2 * One(a3) + 4 * a, One(b2) + 2 * One(b3) + 4 * b, a1, a0, b1, b0, n + 2);
  }

  lemma XorOfBits(a7: bool, a6: bool, a5: bool, a4: bool, a3: bool, a2: bool, a1: bool, a0: bool,
                  b7: bool, b6: bool, b5: bool, b4: bool, b3: bool, b2: bool, b1: bool, b0: bool)
    ensures C.Xor(ByteOf(a7, a6, a5, a4, a3, a2, a1, a0), ByteOf(b7, b6, b5, b4, b3, b2, b1, b0)) ==
            ByteOf(a7 != b7, a6 != b6, a5 != b5, a4 != b4, a3 != b3, a2 != b2, a1 != b1, a0 != b0)
  {
    hide C.XorBits, Four;
    NoBits(0, 0);
    XorFour(0, 0, a7, a6, a5, a4, b7, b6, b5, b4, 0);
    XorFour(Four(a7, a6, a5, a4), Four(b7, b6, b5, b4), a3, a2, a1, a0, b3, b2, b1, b0, 4);
  }

  lemma SessionMasks()
    ensures C.Xor(0x68, 0x41) == 0x29 && C.Xor(0x65, 0x1e) == 0x7b && C.Xor(0x6c, 0xe4) == 0x88
    ensures C.Xor(0x6c, 0xc4) == 0xa8 && C.Xor(0x6f, 0xa4) == 0xcb
  {
    hide C.Xor;
    XorOfBits(false, true, true, false, true, false, false, false,
              false, true, false, false, false, false, false, true);
    XorOfBits(false, true, true, false, false, true, false, true,
              false, false, false, true, true, true, true, false);
    XorOfBits(false, true, true, false, true, true, false, false,
              true, true, true, false, false, true, false, false);
    XorOfBits(false, true, true, false, true, true, false, false,
              true, true, false, false, false, true, false, false);
    XorOfBits(false, true, true, false, true, true, true, true,
              true, false, true, false, false, true, false, false);
  }

  lemma StartupMasks()
    ensures C.Xor(0x65, 0xdf) == 0xba && C.Xor(0x6c, 0x39) == 0x55
    ensures C.Xor(0x6c, 0xad) == 0xc1 && C.Xor(0x6f, 0xf9) == 0x96
  {
    hide C.Xor;
    XorOfBits(false, true, true, false, false, true, false, true,
              true, true, false, true, true, true, true, true);
    XorOfBits(false, true, true, false, true, true, false, false,
              false, false, true, true, true, false, false, true);
    XorOfBits(false, true, true, false, true, true, false, false,
              true, false, true, false, true, true, false, true);
    XorOfBits(false, true, true, false, true, true, true, true,
              true, true, true, true, true, false, false, true);
  }

  lemma KeyStart()
    ensures |S.STARTUP_KEY| == 16
    ensures S.STARTUP_KEY[0] == 0x41 && S.STARTUP_KEY[1] == 0xb6 && S.STARTUP_KEY[2] == 0x7f
    ensures S.STARTUP_KEY[3] == 0x58 && S.STARTUP_KEY[4] == 0x38
  {
  }

  lemma FedIs(key: seq<byte>, previous: byte, n: nat, k: byte)
    requires n < |key| && key[n] == k
    ensures C.Fed(key, previous, n) == (previous + k) % 256
  {
    assert n % |key| == n by {
      DivUnique(n, |key|, 0, n);
    }
  }

  predicate StartsLikeStartup(key: seq<byte>) {
    |key| == 16 && key[0] == 0x41 && key[1] == 0xb6 && key[2] == 0x7f && key[3] == 0x58 && key[4] == 0x38
  }

  lemma SessionHello(key: seq<byte>, p: seq<byte>)
    requires StartsLikeStartup(key) && |p| == 5
    requires p[0] == 0x68 && p[1] == 0x65 && p[2] == 0x6c && p[3] == 0x6c && p[4] == 0x6f
    ensures var c := C.Encrypted(key, C.START, p);
      |c| == 5 && c[0] == 0x29 && c[1] == 0x7b && c[2] == 0x88 && c[3] == 0xa8 && c[4] == 0xcb
  {
    hide C.Xor, C.Encrypted, C.Fed, C.FeedsPlain;
    FedIs(key, 0, 0, 0x41);
    FedIs(key, 0x68, 1, 0xb6);
    FedIs(key, 0x65, 2, 0x7f);
    FedIs(key, 0x6c, 3, 0x58);
    FedIs(key, 0x6c, 4, 0x38);
    SessionMasks();
    C.EncryptedFeedsPlain(key, C.START, p);
    PlainFed(key, p, C.Encrypted(key, C.START, p), 0);
    PlainFed(key, p, C.Encrypted(key, C.START, p), 1);
    PlainFed(key, p, C.Encrypted(key, C.START, p), 2);
    PlainFed(key, p, C.Encrypted(key, C.START, p), 3);
    PlainFed(key, p, C.Encrypted(key, C.START, p), 4);
  }

  lemma PlainFed(key: seq<byte>, p: seq<byte>, c: seq<byte>, i: nat)
    requires |key| > 0 && C.FeedsPlain(key, C.START, p, c) && i < |p|
    ensures |c| == |p| && c[i] == C.Xor(p[i], C.Fed(key, if i == 0 then 0 else p[i - 1], i))
  {
    hide C.Xor, C.Fed;
    assert c[i] == C.Xor(p[i], C.Fed(key, C.Before(C.START.previousPlain, p, i), C.START.position + i));
  }

  lemma StartupHello(key: seq<byte>, p: seq<byte>)
    requires StartsLikeStartup(key) && |p| == 5
    requires p[0] == 0x68 && p[1] == 0x65 && p[2] == 0x6c && p[3] == 0x6c && p[4] == 0x6f
    ensures var c := C.StartupEncrypted(key, 0, 0, p);
      |c| == 5 && c[0] == 0x29 && c[1] == 0xba && c[2] == 0x55 && c[3] == 0xc1 && c[4] == 0x96
  {
    hide C.Xor, C.StartupEncrypted, C.Fed, C.FeedsCipher;
    FedIs(key, 0, 0, 0x41);
    FedIs(key, 0x29, 1, 0xb6);
    FedIs(key, 0xba, 2, 0x7f);
    FedIs(key, 0x55, 3, 0x58);
    FedIs(key, 0xc1, 4, 0x38);
    SessionMasks();
    StartupMasks();
    var c := C.StartupEncrypted(key, 0, 0, p);
    C.StartupFeedsCipher(key, 0, 0, p);
    CipherFed(key, p, c, 0);
    CipherFed(key, p, c, 1);
    CipherFed(key, p, c, 2);
    CipherFed(key, p, c, 3);
    CipherFed(key, p, c, 4);
  }

  lemma CipherFed(key: seq<byte>, p: seq<byte>, c: seq<byte>, i: nat)
    requires |key| > 0 && C.FeedsCipher(key, 0, 0, p, c) && i < |p|
    ensures |c| == |p| && c[i] == C.Xor(p[i], C.Fed(key, if i == 0 then 0 else c[i - 1], i))
  {
    hide C.Xor, C.Fed;
    assert c[i] == C.Xor(p[i], C.Fed(key, C.Before(0, c, i), 0 + i));
  }

  /** The session and the startup cipher on "hello", under the key of the startup
      exchange. */
  lemma HelloEnciphered()
    ensures var hello := [0x68, 0x65, 0x6c, 0x6c, 0x6f];
      && C.Encrypted(S.STARTUP_KEY, C.START, hello) == [0x29, 0x7b, 0x88, 0xa8, 0xcb]
      && C.StartupEncrypted(S.STARTUP_KEY, 0, 0, hello) == [0x29, 0xba, 0x55, 0xc1, 0x96]
  {
    hide C.Encrypted, C.StartupEncrypted;
    KeyStart();
    SessionHello(S.STARTUP_KEY, [0x68, 0x65, 0x6c, 0x6c, 0x6f]);
    StartupHello(S.STARTUP_KEY, [0x68, 0x65, 0x6c, 0x6c, 0x6f]);
  }
}
