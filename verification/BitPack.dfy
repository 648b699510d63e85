/** `BitReader` and `BitWriter`: the packed code over a byte buffer with a cursor. */
module BitPack {
  import opened Results
  import opened Bits
  import opened PackedCode

  /** A read that the specification describes: same value, and on success the
      cursor stands where the specification says. */
  ghost predicate Reads<T(!new)>(got: Result<T>, position: nat, spec: Result<(T, nat)>) {
    match spec
    case Ok((value, next)) => got == Ok(value) && position == next
    case Err => got.Err?
  }

  /** `data` is `bits` padded with zero bits to whole bytes. */
  ghost predicate Holds(data: seq<byte>, bits: seq<bool>) {
    && |data| == (|bits| + 7) / 8
    && Unpack(data)[..|bits|] == bits
    && forall p :: |bits| <= p < 8 * |data| ==> !Unpack(data)[p]
  }

  // A layout read is the values read so far and the read of the other fields.
  ghost predicate Continues(whole: Result<(seq<int>, nat)>, vs: seq<int>,
                            s: seq<bool>, pos: nat, k: nat, fs: seq<Field>)
  {
    pos <= |s| &&
    match ReadLayout(s, pos, k, fs)
    case Ok((more, end)) => whole == Ok((vs + more, end))
    case Err => whole.Err?
  }

  lemma Continue(whole: Result<(seq<int>, nat)>, vs: seq<int>, s: seq<bool>, pos: nat, k: nat, fs: seq<Field>)
    requires pos <= |s|
    ensures vs == [] && whole == ReadLayout(s, pos, k, fs) ==> Continues(whole, vs, s, pos, k, fs)
    ensures Continues(whole, vs, s, pos, k, fs) && |fs| == 0 ==> whole == Ok((vs, pos))
    ensures Continues(whole, vs, s, pos, k, fs) && |fs| > 0 ==>
            match ReadField(s, pos, k, fs[0])
            case Ok((v, next)) => Continues(whole, vs + [v], s, next, k, fs[1..])
            case Err => whole.Err?
  {
    hide ReadField;
    if |fs| == 0 {
      assert vs + [] == vs;
    } else if ReadField(s, pos, k, fs[0]).Ok? {
      var (v, next) := ReadField(s, pos, k, fs[0]).value;
      var rest := ReadLayout(s, next, k, fs[1..]);
      if rest.Ok? {
        assert vs + ([v] + rest.value.0) == vs + [v] + rest.value.0;
      }
    }
    var all := ReadLayout(s, pos, k, fs);
    if all.Ok? {
      assert [] + all.value.0 == all.value.0;
    }
  }

  class BitReader {
    const data: seq<byte>
    const limit: nat
    const k: nat
    var position: nat

    ghost predicate Valid() {
      limit <= 8 * |data|
    }

    /** The bits that may be read. */
    ghost function Stream(): (s: seq<bool>)
      requires Valid()
      ensures |s| == limit
    {
      Unpack(data)[..limit]
    }

    constructor (data: seq<byte>)
      ensures Valid() && this.data == data && k == 2 && position == 0
      ensures Stream() == Unpack(data)
    {
      this.data, limit, k, position := data, 8 * |data|, 2, 0;
    }

    constructor WithPosition(data: seq<byte>, position: nat)
      ensures Valid() && this.data == data && k == 2 && this.position == position
      ensures Stream() == Unpack(data)
    {
      this.data, limit, k, this.position := data, 8 * |data|, 2, position;
    }

    constructor Bounded(data: seq<byte>, limit: nat, k: nat)
      requires limit <= 8 * |data|
      ensures Valid() && this.data == data && this.k == k && position == 0
      ensures Stream() == Unpack(data)[..limit]
    {
      this.data, this.limit, this.k, position := data, limit, k, 0;
    }

    static method WithLimit(data: seq<byte>, limit: nat, k: nat) returns (r: Result<BitReader>)
      ensures r.Ok? <==> limit <= 8 * |data| && 1 <= k <= 8
      ensures r.Ok? ==> fresh(r.value) && r.value.Valid() && r.value.position == 0 && r.value.k == k
      ensures r.Ok? ==> r.value.Stream() == Unpack(data)[..limit]
    {
      if limit > 8 * |data| || !(1 <= k <= 8) {
        return Err;
      }
      var reader := new BitReader.Bounded(data, limit, k);
      return Ok(reader);
    }

    method Bits(count: nat) returns (r: Result<nat>)
      requires Valid()
      modifies `position
      ensures Reads(r, position, ReadBits(Stream(), old(position), count))
      ensures r.Err? ==> position == old(position)
    {
      hide ToNat, Pow2;
      if count > 64 || position + count > limit {
        return Err;
      }
      var value: nat := 0;
      assert ToNat(Stream()[position..position]) == 0 by { EmptyValue(); }
      for i := 0 to count
        invariant position == old(position)
        invariant value == ToNat(Stream()[position..position + i])
      {
        var p := position + i;
        NextBit(Stream(), position, i);
        value := value + if Bit(data[p / 8], p % 8) then Pow2(i) else 0;
      }
      position := position + count;
      return Ok(value);
    }

    method Prefix(width: nat) returns (r: Result<nat>)
      requires Valid()
      modifies `position
      ensures Reads(r, position, ReadPrefix(Stream(), old(position), k, width))
    {
      if !(1 <= k <= 8) || !StorageWidth(width) {
        return Err;
      }
      var sentinel := Pow2(k) - 1;
      var units: nat := 0;
      while true
        invariant ReadUnits(Stream(), old(position), k, width, 0) == ReadUnits(Stream(), position, k, width, units)
        decreases limit - position
      {
        var digit :- Bits(k);
        units := units + digit;
        if 2 * units > width {
          return Err;
        }
        if digit != sentinel {
          break;
        }
      }
      return Ok(2 * units);
    }

    method Packed(width: nat, signed: bool) returns (r: Result<int>)
      requires Valid()
      modifies `position
      ensures Reads(r, position, ReadPacked(Stream(), old(position), k, width, signed))
    {
      hide ReadPrefix, ReadBits, Pow2, Bit;
      var length :- Prefix(width);
      var value :- Bits(length);
      if signed && Bit(value, width - 1) {
        return Ok(value - Pow2(width));
      }
      return Ok(value);
    }

    method SignedMagnitude(width: nat) returns (r: Result<int>)
      requires Valid()
      modifies `position
      ensures Reads(r, position, ReadSignedMagnitude(Stream(), old(position), k, width))
    {
      var length :- Prefix(width);
      var negative :- Bits(1);
      var value: int :- Bits(length);
      return Ok(if negative != 0 then -value else value);
    }

    method Fields(fs: seq<Field>) returns (r: Result<seq<int>>)
      requires Valid() && position <= limit
      modifies `position
      ensures Reads(r, position, ReadLayout(Stream(), old(position), k, fs))
    {
      hide ReadField, ReadLayout, Stream, Continues;
      var vs := [];
      ghost var whole := ReadLayout(Stream(), position, k, fs);
      Continue(whole, [], Stream(), position, k, fs[0..]);
      for i := 0 to |fs|
        invariant position <= limit && |vs| == i
        invariant Continues(whole, vs, Stream(), position, k, fs[i..])
      {
        Continue(whole, vs, Stream(), position, k, fs[i..]);
        var v :- OneField(fs[i]);
        assert fs[i..][1..] == fs[i + 1..];
        vs := vs + [v];
      }
      Continue(whole, vs, Stream(), position, k, fs[|fs|..]);
      return Ok(vs);
    }

    method OneField(f: Field) returns (r: Result<int>)
      requires Valid()
      modifies `position
      ensures Reads(r, position, ReadField(Stream(), old(position), k, f))
    {
      match f
      case Packed(width, signed) => r := Packed(width, signed);
      case SignedMagnitude(width) => r := SignedMagnitude(width);
    }

    /** Skip to the next byte boundary; a cursor already on one skips a whole byte. */
    method StrictBoundary() returns (r: Result<(nat, nat)>)
      requires Valid()
      modifies `position
      ensures Reads(r, position, ReadBoundary(Stream(), old(position)))
    {
      var end := 8 * (position / 8 + 1);
      var count := end - position;
      var padding :- Bits(count);
      return Ok((count, padding));
    }
  }

  class BitWriter {
    var data: seq<byte>
    var position: nat
    const k: nat

    /** As few bytes as hold `position` bits, and zeros past them. */
    ghost predicate Valid()
      reads this
    {
      && |data| == (position + 7) / 8
      && forall p :: position <= p < 8 * |data| ==> !Unpack(data)[p]
    }

    /** The bits written so far. */
    ghost function Contents(): (s: seq<bool>)
      requires Valid()
      reads this
      ensures |s| == position && Holds(data, s)
    {
      Unpack(data)[..position]
    }

    constructor ()
      ensures Valid() && k == 2 && Contents() == []
    {
      data, position, k := [], 0, 2;
    }

    constructor WithDigits(k: nat)
      ensures Valid() && this.k == k && Contents() == []
    {
      data, position, this.k := [], 0, k;
    }

    method Bits(value: nat, count: nat) returns (r: Result<()>)
      requires Valid()
      modifies this
      ensures Valid()
      ensures r.Ok? <==> value < Pow2(count)
      ensures Contents() == old(Contents()) + if r.Ok? then ToBits(value, count) else []
    {
      BitLengthBounds(value, count);
      if BitLength(value) > count {
        return Err;
      }
      Grow(count);
      OrBits(value, count);
      position := position + count;
      return Ok(());
    }

    // OR the low bits of `value` into the buffer at the cursor.
    method OrBits(value: nat, count: nat)
      requires position + count <= 8 * |data|
      requires forall p :: position <= p < position + count ==> !Unpack(data)[p]
      modifies `data
      ensures Unpack(data) == Overwritten(old(Unpack(data)), position, ToBits(value, count))
    {
      hide *;
      ghost var start := Unpack(data);
      OrNothing(start, data, position, value, count);
      for i := 0 to count
        invariant OrProgress(start, data, position, value, count, i)
      {
        var p := position + i;
        OrStep(start, data, position, value, count, i);
        data := data[p / 8 := OrBit(data[p / 8], p % 8, Bit(value, i))];
      }
      OrDone(start, data, position, value, count);
    }

    // Append zero bytes until `count` more bits fit.
    method Grow(count: nat)
      requires Valid()
      modifies `data
      ensures |data| == (position + count + 7) / 8
      ensures Unpack(data)[..position] == old(Contents())
      ensures forall p :: position <= p < 8 * |data| ==> !Unpack(data)[p]
    {
      hide Unpack;
      ghost var before := data;
      while 8 * |data| < position + count
        invariant |data| == |before| || 8 * (|data| - 1) < position + count
        invariant |before| <= |data| && Unpack(data)[..8 * |before|] == Unpack(before)
        invariant forall p :: 8 * |before| <= p < 8 * |data| ==> !Unpack(data)[p]
      {
        UnpackConcat(data, [0]);
        ZeroByte();
        data := data + [0];
      }
      assert Unpack(data)[..position] == Unpack(before)[..position];
      assert forall p :: position <= p < 8 * |before| ==> Unpack(data)[p] == Unpack(before)[p];
    }

    method Prefix(units: nat)
      requires Valid() && k >= 1
      modifies this
      ensures Valid() && Contents() == old(Contents()) + PrefixBits(k, units)
    {
      hide ToBits, Unpack;
      var sentinel := Pow2(k) - 1;
      var rest: nat := units;
      while rest >= sentinel
        invariant Valid()
        invariant Contents() + PrefixBits(k, rest) == old(Contents()) + PrefixBits(k, units)
      {
        ghost var c := Contents();
        assert PrefixBits(k, rest) == ToBits(sentinel, k) + PrefixBits(k, rest - sentinel);
        var _ := Bits(sentinel, k);
        assert Contents() + PrefixBits(k, rest - sentinel) == c + PrefixBits(k, rest);
        rest := rest - sentinel;
      }
      var _ := Bits(rest, k);
    }

    method Packed(value: int, width: nat) returns (r: Result<()>)
      requires Valid() && 1 <= k < 64 && 1 <= width <= 126
      modifies this
      ensures Valid()
      ensures r.Ok? <==> Packable(value, width)
      ensures Contents() == old(Contents()) + if r.Ok? then PackedBits(k, value, width) else []
    {
      hide Contents, Valid, ToBits, PrefixBits, BitLength, Pow2;
      if !Packable(value, width) {
        return Err;
      }
      var masked := value % Pow2(width);
      var units := (BitLength(masked) + 1) / 2;
      ghost var c := Contents();
      Prefix(units);
      assert (c + PrefixBits(k, units)) + ToBits(masked, 2 * units) == c + PackedBits(k, value, width);
      BitLengthBounds(masked, 2 * units);
      r := Bits(masked, 2 * units);
    }

    method SignedMagnitude(value: int, width: nat) returns (r: Result<()>)
      requires Valid()
      modifies this
      ensures Valid()
      ensures r.Ok? <==> StorageWidth(width) && Magnitude(value) < Pow2(width) && 1 <= k <= 8
      ensures Contents() == old(Contents()) + if r.Ok? then SignedMagnitudeBits(k, value) else []
    {
      hide *;
      SignedMagnitudeParts(Contents(), k, value);
      var magnitude := Magnitude(value);
      if !StorageWidth(width) || magnitude >= Pow2(width) || !(1 <= k <= 8) {
        return Err;
      }
      var units := Units(magnitude);
      Prefix(units);
      var _ := Bits(if value < 0 then 1 else 0, 1);
      r := Bits(magnitude, 2 * units);
    }

    /** Write fields in a row; stops at the first value the field cannot hold. */
    method Fields(fs: seq<Field>, vs: seq<int>) returns (r: Result<()>)
      requires Valid() && 1 <= k <= 8 && |fs| == |vs|
      requires forall f :: f in fs ==> WellFormed(f)
      modifies this
      ensures Valid()
      ensures r.Ok? <==> forall i :: 0 <= i < |fs| ==> Writable(fs[i], vs[i])
      ensures r.Ok? ==> Contents() == old(Contents()) + LayoutBits(k, fs, vs)
    {
      hide FieldBits, LayoutBits, Writable, Contents, Valid;
      ghost var goal := Contents() + LayoutBits(k, fs, vs);
      assert fs[0..] == fs && vs[0..] == vs;
      for i := 0 to |fs|
        invariant Valid()
        invariant forall j :: 0 <= j < i ==> Writable(fs[j], vs[j])
        invariant Contents() + LayoutBits(k, fs[i..], vs[i..]) == goal
      {
        LayoutBitsFrom(Contents(), k, fs, vs, i);
        var _ :- OneField(fs[i], vs[i]);
      }
      LayoutBitsFrom(Contents(), k, fs, vs, |fs|);
      return Ok(());
    }

    method OneField(f: Field, v: int) returns (r: Result<()>)
      requires Valid() && 1 <= k <= 8 && WellFormed(f)
      modifies this
      ensures Valid()
      ensures r.Ok? <==> Writable(f, v)
      ensures r.Ok? ==> Contents() == old(Contents()) + FieldBits(k, f, v)
    {
      match f
      case Packed(width, _) => r := Packed(v, width);
      case SignedMagnitude(width) => r := SignedMagnitude(v, width);
    }

    method StrictBoundary() returns (r: Result<()>)
      requires Valid()
      modifies this
      ensures Valid() && r.Ok? && Contents() == old(Contents()) + Padding(old(position))
    {
      var count := 8 * (position / 8 + 1) - position;
      r := Bits(0, count);
    }
  }

  lemma EmptyValue()
    ensures forall s: seq<bool> :: |s| == 0 ==> ToNat(s) == 0
  {
  }

  lemma NextBit(s: seq<bool>, pos: nat, i: nat)
    requires pos + i < |s|
    ensures ToNat(s[pos..pos + i + 1]) == ToNat(s[pos..pos + i]) + if s[pos + i] then Pow2(i) else 0
  {
    assert s[pos..pos + i + 1] == s[pos..pos + i] + [s[pos + i]];
    ToNatSnoc(s[pos..pos + i], s[pos + i]);
  }

  lemma SignedMagnitudeParts(c: seq<bool>, k: nat, v: int)
    ensures var m := Magnitude(v);
      var sign := if v < 0 then 1 else 0;
      && sign < Pow2(1) && m < Pow2(2 * Units(m))
      && (k >= 1 ==> c + PrefixBits(k, Units(m)) + ToBits(sign, 1) + ToBits(m, 2 * Units(m))
                     == c + SignedMagnitudeBits(k, v))
  {
    hide PrefixBits, BitLength;
    var m := Magnitude(v);
    BitLengthBounds(m, 2 * Units(m));
    assert ToBits(1, 1) == [true] && ToBits(0, 1) == [false];
    if k >= 1 {
      Associate(c, PrefixBits(k, Units(m)), [v < 0], ToBits(m, 2 * Units(m)));
    }
  }

  lemma LayoutBitsFrom(c: seq<bool>, k: nat, fs: seq<Field>, vs: seq<int>, i: nat)
    requires k >= 1 && |fs| == |vs| && i <= |fs|
    ensures c + LayoutBits(k, fs[i..], vs[i..]) ==
            if i == |fs| then c else c + FieldBits(k, fs[i], vs[i]) + LayoutBits(k, fs[i + 1..], vs[i + 1..])
  {
    hide FieldBits;
    if i < |fs| {
      assert fs[i..][1..] == fs[i + 1..] && vs[i..][1..] == vs[i + 1..];
      Associate(c, FieldBits(k, fs[i], vs[i]), LayoutBits(k, fs[i + 1..], vs[i + 1..]), []);
    } else {
      assert c + [] == c;
    }
  }

  lemma Associate<T>(c: seq<T>, x: seq<T>, y: seq<T>, z: seq<T>)
    ensures c + x + y + z == c + (x + y + z)
    ensures c + x + y == c + (x + y)
  {
  }

  ghost function Overwritten(s: seq<bool>, pos: nat, t: seq<bool>): seq<bool>
    requires pos + |t| <= |s|
  {
    s[..pos] + t + s[pos + |t|..]
  }

  lemma OverwriteNext(s: seq<bool>, pos: nat, t: seq<bool>, i: nat)
    requires i < |t| && pos + |t| <= |s|
    ensures var mid := Overwritten(s, pos, t[..i]);
      && |mid| == |s| && mid[pos + i] == s[pos + i]
      && mid[pos + i := t[i]] == Overwritten(s, pos, t[..i + 1])
  {
    assert t[..i + 1] == t[..i] + [t[i]];
  }

  // The first `i` of `count` bits have been ORed into a buffer that held `start`.
  ghost predicate OrProgress(start: seq<bool>, data: seq<byte>, pos: nat, value: nat, count: nat, i: nat) {
    && i <= count && pos + count <= |start| == 8 * |data|
    && (forall p :: pos <= p < pos + count ==> !start[p])
    && Unpack(data) == Overwritten(start, pos, ToBits(value, count)[..i])
  }

  lemma OrNothing(start: seq<bool>, data: seq<byte>, pos: nat, value: nat, count: nat)
    requires start == Unpack(data) && pos + count <= |start|
    requires forall p :: pos <= p < pos + count ==> !start[p]
    ensures OrProgress(start, data, pos, value, count, 0)
  {
    assert ToBits(value, count)[..0] == [];
  }

  lemma OrStep(start: seq<bool>, data: seq<byte>, pos: nat, value: nat, count: nat, i: nat)
    requires i < count && OrProgress(start, data, pos, value, count, i)
    ensures (pos + i) / 8 < |data|
    ensures var p := pos + i;
      OrProgress(start, data[p / 8 := OrBit(data[p / 8], p % 8, Bit(value, i))], pos, value, count, i + 1)
  {
    var p := pos + i;
    OverwriteNext(start, pos, ToBits(value, count), i);
    PutBit(data, p, Bit(value, i));
    ToBitsAt(value, count, i);
  }

  lemma OrDone(start: seq<bool>, data: seq<byte>, pos: nat, value: nat, count: nat)
    requires OrProgress(start, data, pos, value, count, count)
    ensures Unpack(data) == Overwritten(start, pos, ToBits(value, count))
  {
    assert ToBits(value, count)[..count] == ToBits(value, count);
  }

  lemma PutBit(data: seq<byte>, p: nat, bit: bool)
    requires p < 8 * |data| && !Unpack(data)[p]
    ensures Unpack(data[p / 8 := OrBit(data[p / 8], p % 8, bit)]) == Unpack(data)[p := bit]
  {
  }

  lemma ZeroByte()
    ensures forall p :: 0 <= p < 8 ==> !Unpack([0])[p]
  {
    forall p | 0 <= p < 8 ensures !Bit(0, p) {
      ZeroBit(p);
    }
  }

  lemma {:induction false} ZeroBit(j: nat)
    ensures !Bit(0, j)
  {
    if j != 0 {
      ZeroBit(j - 1);
    }
  }
}
