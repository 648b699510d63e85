/** The packed-integer code as a code on bit strings: what the writer appends and
    what the reader takes, with no buffers or cursors. */
module PackedCode {
  import opened Results
  import opened Bits

  // ---- what is written ----------------------------------------------------

  /** The digit that announces another prefix digit. */
  function Sentinel(k: nat): (n: nat)
    ensures k >= 1 ==> n >= 1
  {
    Pow2(k) - 1
  }

  /** Number of two-bit groups needed for `v`. */
  function Units(v: nat): nat {
    (BitLength(v) + 1) / 2
  }

  /** `units` as digits of `k` bits that sum to it and end at the first digit
      below the sentinel. */
  function PrefixBits(k: nat, units: nat): (s: seq<bool>)
    requires k >= 1
    ensures |s| >= k
  {
    if units >= Sentinel(k) then ToBits(Sentinel(k), k) + PrefixBits(k, units - Sentinel(k))
    else ToBits(units, k)
  }

  /** `v` kept to `width` bits of two's complement. */
  function Masked(v: int, width: nat): nat {
    v % Pow2(width)
  }

  predicate Packable(v: int, width: nat)
    requires width >= 1
  {
    var half: int := Pow2(width - 1);
    -half <= v < Pow2(width)
  }

  function PackedBits(k: nat, v: int, width: nat): (s: seq<bool>)
    requires k >= 1
    ensures |s| >= k
  {
    var m := Masked(v, width);
    PrefixBits(k, Units(m)) + ToBits(m, 2 * Units(m))
  }

  function Magnitude(v: int): nat {
    if v < 0 then -v else v
  }

  function SignedMagnitudeBits(k: nat, v: int): seq<bool>
    requires k >= 1
  {
    var m := Magnitude(v);
    PrefixBits(k, Units(m)) + [v < 0] + ToBits(m, 2 * Units(m))
  }

  // ---- what is read -------------------------------------------------------

  predicate StorageWidth(width: nat) {
    width == 8 || width == 16 || width == 32 || width == 64
  }

  function ReadBits(s: seq<bool>, pos: nat, n: nat): (r: Result<(nat, nat)>)
    ensures r.Ok? ==> r.value.1 == pos + n <= |s|
  {
    if n > 64 || pos + n > |s| then Err else Ok((ToNat(s[pos..pos + n]), pos + n))
  }

  /** Sum digits until one is not the sentinel. */
  function ReadUnits(s: seq<bool>, pos: nat, k: nat, width: nat, units: nat): (r: Result<(nat, nat)>)
    requires k >= 1
    ensures r.Ok? ==> pos + k <= r.value.1 <= |s| && 2 * r.value.0 <= width
    decreases |s| - pos
  {
    var (digit, next) :- ReadBits(s, pos, k);
    if 2 * (units + digit) > width then Err
    else if digit != Sentinel(k) then Ok((units + digit, next))
    else ReadUnits(s, next, k, width, units + digit)
  }

  /** The bit length announced by a prefix. */
  function ReadPrefix(s: seq<bool>, pos: nat, k: nat, width: nat): (r: Result<(nat, nat)>)
    ensures r.Ok? ==> pos + k <= r.value.1 <= |s| && 1 <= k && StorageWidth(width) && r.value.0 <= width
  {
    if !(1 <= k <= 8) || !StorageWidth(width) then Err else
    var (units, next) :- ReadUnits(s, pos, k, width, 0);
    Ok((2 * units, next))
  }

  predicate InRange(v: int, width: nat, signed: bool)
    requires width >= 1
  {
    var half: int := Pow2(width - 1);
    if signed then -half <= v < half else 0 <= v < Pow2(width)
  }

  lemma BitsInRange(t: seq<bool>, width: nat)
    requires |t| <= width && width >= 1
    ensures ToNat(t) < Pow2(width) && (Bit(ToNat(t), width - 1) <==> ToNat(t) >= Pow2(width - 1))
  {
    ToNatBound(t);
    Pow2Grows(|t|, width);
    TopBit(ToNat(t), width);
  }

  function ReadPacked(s: seq<bool>, pos: nat, k: nat, width: nat, signed: bool): (r: Result<(int, nat)>)
    ensures r.Ok? ==> pos + k <= r.value.1 <= |s| && 1 <= k && StorageWidth(width)
    ensures r.Ok? ==> InRange(r.value.0, width, signed)
  {
    var (length, next) :- ReadPrefix(s, pos, k, width);
    var (v, end) :- ReadBits(s, next, length);
    BitsInRange(s[next..next + length], width);
    Ok((if signed && Bit(v, width - 1) then v - Pow2(width) else v, end))
  }

  function ReadSignedMagnitude(s: seq<bool>, pos: nat, k: nat, width: nat): (r: Result<(int, nat)>)
    ensures r.Ok? ==> pos + k < r.value.1 <= |s| && 1 <= k && StorageWidth(width)
    ensures r.Ok? ==> Magnitude(r.value.0) < Pow2(width)
  {
    var (length, next) :- ReadPrefix(s, pos, k, width);
    var (sign, at) :- ReadBits(s, next, 1);
    var (v, end) :- ReadBits(s, at, length);
    BitsInRange(s[at..at + length], width);
    var magnitude: int := v;
    Ok((if sign != 0 then -magnitude else magnitude, end))
  }

  /** Bits from `pos` to the next byte boundary: 8 when `pos` is on one. */
  function PaddingCount(pos: nat): (n: nat)
    ensures 1 <= n <= 8 && (pos + n) % 8 == 0
  {
    8 * (pos / 8 + 1) - pos
  }

  function Padding(pos: nat): seq<bool> {
    ToBits(0, PaddingCount(pos))
  }

  /** The padding's length and value, and the boundary. */
  function ReadBoundary(s: seq<bool>, pos: nat): (r: Result<((nat, nat), nat)>)
    ensures r.Ok? ==> pos < r.value.1 <= |s|
  {
    var (padding, end) :- ReadBits(s, pos, PaddingCount(pos));
    Ok(((PaddingCount(pos), padding), end))
  }

  // ---- the code is self-delimiting ----------------------------------------

  lemma ReadBitsAt(s: seq<bool>, pos: nat, v: nat, n: nat)
    requires n <= 64 && v < Pow2(n) && At(s, pos, ToBits(v, n))
    ensures ReadBits(s, pos, n) == Ok((v, pos + n))
  {
    BitsRoundTrip(v, n);
  }

  lemma {:induction false} PrefixRead(s: seq<bool>, pos: nat, k: nat, width: nat, units: nat, done: nat)
    requires 1 <= k <= 8 && At(s, pos, PrefixBits(k, units)) && 2 * (done + units) <= width
    ensures ReadUnits(s, pos, k, width, done) == Ok((done + units, pos + |PrefixBits(k, units)|))
    decreases units
  {
    hide *;
    var sentinel := Sentinel(k);
    PrefixSplit(s, pos, k, units);
    if units >= sentinel {
      DigitRead(s, pos, k, width, sentinel, done);
      PrefixRead(s, pos + k, k, width, units - sentinel, done + sentinel);
    } else {
      DigitRead(s, pos, k, width, units, done);
    }
  }

  lemma PrefixSplit(s: seq<bool>, pos: nat, k: nat, units: nat)
    requires k >= 1 && At(s, pos, PrefixBits(k, units))
    ensures var sentinel := Sentinel(k);
      && sentinel >= 1
      && if units >= sentinel then
           && At(s, pos, ToBits(sentinel, k))
           && At(s, pos + k, PrefixBits(k, units - sentinel))
           && |PrefixBits(k, units)| == k + |PrefixBits(k, units - sentinel)|
         else At(s, pos, ToBits(units, k)) && |PrefixBits(k, units)| == k
  {
    hide ToBits, Sentinel, At;
    if units >= Sentinel(k) {
      AtSplit(s, pos, ToBits(Sentinel(k), k), PrefixBits(k, units - Sentinel(k)));
    }
  }

  lemma DigitRead(s: seq<bool>, pos: nat, k: nat, width: nat, digit: nat, done: nat)
    requires 1 <= k <= 8 && digit <= Sentinel(k) && At(s, pos, ToBits(digit, k)) && 2 * (done + digit) <= width
    ensures pos + k <= |s|
    ensures ReadUnits(s, pos, k, width, done) ==
            if digit == Sentinel(k) then ReadUnits(s, pos + k, k, width, done + digit)
            else Ok((done + digit, pos + k))
  {
    hide ToBits;
    ReadBitsAt(s, pos, digit, k);
  }

  lemma UnitsFit(v: nat, width: nat)
    requires StorageWidth(width) && v < Pow2(width)
    ensures 2 * Units(v) <= width && v < Pow2(2 * Units(v))
  {
    hide BitLength, Pow2;
    BitLengthBounds(v, width);
    BitLengthBounds(v, 2 * Units(v));
  }

  // A prefix and, `gap` bits after it, the digits it announces.
  lemma DigitsRead(s: seq<bool>, pos: nat, k: nat, m: nat, width: nat, gap: nat)
    requires 1 <= k <= 8 && StorageWidth(width) && m < Pow2(width)
    requires At(s, pos, PrefixBits(k, Units(m)))
    requires At(s, pos + |PrefixBits(k, Units(m))| + gap, ToBits(m, 2 * Units(m)))
    ensures var next := pos + |PrefixBits(k, Units(m))|;
      && ReadPrefix(s, pos, k, width) == Ok((2 * Units(m), next))
      && ReadBits(s, next + gap, 2 * Units(m)) == Ok((m, next + gap + 2 * Units(m)))
  {
    hide ReadUnits, ToBits, PrefixBits, Units, Pow2, ToNat, At;
    var units := Units(m);
    assert 2 * units <= width && m < Pow2(2 * units) by { UnitsFit(m, width); }
    PrefixRead(s, pos, k, width, units, 0);
    ReadBitsAt(s, pos + |PrefixBits(k, units)| + gap, m, 2 * units);
  }

  /** What a reader makes of a value `v` that was written into `width` bits. */
  function Viewed(v: int, width: nat, signed: bool): int
    requires width >= 1
  {
    if signed then Signed(Masked(v, width), width) else Masked(v, width)
  }

  /** Every written integer is read back, wherever it stands and whatever
      follows, and the reader stops where the writer stopped. */
  lemma PackedRead(s: seq<bool>, pos: nat, k: nat, v: int, width: nat, signed: bool)
    requires 1 <= k <= 8 && StorageWidth(width) && At(s, pos, PackedBits(k, v, width))
    ensures ReadPacked(s, pos, k, width, signed) ==
            Ok((Viewed(v, width, signed), pos + |PackedBits(k, v, width)|))
  {
    hide ReadPrefix, ReadBits, ToBits, PrefixBits, Units, At, Pow2, Bit;
    var m := Masked(v, width);
    AtSplit(s, pos, PrefixBits(k, Units(m)), ToBits(m, 2 * Units(m)));
    DigitsRead(s, pos, k, m, width, 0);
    TopBit(m, width);
  }

  /** The reader's view is the written value exactly when the value lies in the
      reader's range. */
  lemma ViewedIsIdentity(v: int, width: nat, signed: bool)
    requires width >= 1 && Packable(v, width)
    ensures Viewed(v, width, signed) == v <==> InRange(v, width, signed)
    ensures InRange(Viewed(v, width, signed), width, signed)
  {
    var p := Pow2(width);
    if v < 0 {
      DivUnique(v, p, -1, v + p);
    } else {
      DivUnique(v, p, 0, v);
    }
  }

  lemma SignedMagnitudeRead(s: seq<bool>, pos: nat, k: nat, v: int, width: nat)
    requires 1 <= k <= 8 && StorageWidth(width) && Magnitude(v) < Pow2(width)
    requires At(s, pos, SignedMagnitudeBits(k, v))
    ensures ReadSignedMagnitude(s, pos, k, width) == Ok((v, pos + |SignedMagnitudeBits(k, v)|))
  {
    hide ReadPrefix, ToBits, PrefixBits, Units, Pow2;
    var m := Magnitude(v);
    var prefix := PrefixBits(k, Units(m));
    AtSplit(s, pos, prefix + [v < 0], ToBits(m, 2 * Units(m)));
    AtSplit(s, pos, prefix, [v < 0]);
    DigitsRead(s, pos, k, m, width, 1);
    var at := pos + |prefix|;
    assert s[at..at + 1] == [v < 0];
    assert ToNat([true]) == 1 && ToNat([false]) == 0;
  }

  // ---- layouts: several fields in a row -----------------------------------

  datatype Field = Packed(width: nat, signed: bool) | SignedMagnitude(width: nat)

  predicate WellFormed(f: Field) {
    StorageWidth(f.width)
  }

  /** The writer accepts `v` in field `f`. */
  predicate Writable(f: Field, v: int)
    requires WellFormed(f)
  {
    if f.Packed? then Packable(v, f.width) else Magnitude(v) < Pow2(f.width)
  }

  /** `v` lies in the range the reader of `f` can return. */
  predicate Readable(f: Field, v: int)
    requires WellFormed(f)
  {
    if f.Packed? then InRange(v, f.width, f.signed) else Magnitude(v) < Pow2(f.width)
  }

  /** What the reader of `f` makes of a written `v`. */
  function FieldView(f: Field, v: int): int
    requires WellFormed(f)
  {
    if f.Packed? then Viewed(v, f.width, f.signed) else v
  }

  predicate AllWritable(fs: seq<Field>, vs: seq<int>) {
    && |fs| == |vs|
    && forall i :: 0 <= i < |fs| ==> WellFormed(fs[i]) && Writable(fs[i], vs[i])
  }

  predicate AllReadable(fs: seq<Field>, vs: seq<int>) {
    && |fs| == |vs|
    && forall i :: 0 <= i < |fs| ==> WellFormed(fs[i]) && Readable(fs[i], vs[i])
  }

  function Views(fs: seq<Field>, vs: seq<int>): (r: seq<int>)
    requires AllWritable(fs, vs)
    ensures |r| == |fs| && forall i :: 0 <= i < |fs| ==> r[i] == FieldView(fs[i], vs[i])
  {
    seq(|fs|, i requires 0 <= i < |fs| => FieldView(fs[i], vs[i]))
  }

  function FieldBits(k: nat, f: Field, v: int): (s: seq<bool>)
    requires k >= 1
    ensures |s| >= k
  {
    if f.Packed? then PackedBits(k, v, f.width) else SignedMagnitudeBits(k, v)
  }

  function ReadField(s: seq<bool>, pos: nat, k: nat, f: Field): (r: Result<(int, nat)>)
    ensures r.Ok? ==> pos < r.value.1 <= |s|
    ensures r.Ok? ==> WellFormed(f)
    ensures r.Ok? ==> Readable(f, r.value.0)
  {
    match f
    case Packed(width, signed) => ReadPacked(s, pos, k, width, signed)
    case SignedMagnitude(width) => ReadSignedMagnitude(s, pos, k, width)
  }

  function LayoutBits(k: nat, fs: seq<Field>, vs: seq<int>): (s: seq<bool>)
    requires k >= 1 && |fs| == |vs|
    ensures k >= 2 ==> |s| >= 2 * |fs|
  {
    if |fs| == 0 then [] else FieldBits(k, fs[0], vs[0]) + LayoutBits(k, fs[1..], vs[1..])
  }

  function ReadLayout(s: seq<bool>, pos: nat, k: nat, fs: seq<Field>): (r: Result<(seq<int>, nat)>)
    requires pos <= |s|
    ensures r.Ok? ==> pos + |fs| <= r.value.1 <= |s| && |r.value.0| == |fs|
    decreases |fs|
  {
    if |fs| == 0 then Ok(([], pos)) else
    var (v, next) :- ReadField(s, pos, k, fs[0]);
    var (vs, end) :- ReadLayout(s, next, k, fs[1..]);
    Ok(([v] + vs, end))
  }

  lemma {:induction false} LayoutReadable(s: seq<bool>, pos: nat, k: nat, fs: seq<Field>)
    requires pos <= |s| && ReadLayout(s, pos, k, fs).Ok?
    ensures AllReadable(fs, ReadLayout(s, pos, k, fs).value.0)
    decreases |fs|
  {
    hide ReadField, Readable, StorageWidth;
    if |fs| > 0 {
      LayoutReadable(s, ReadField(s, pos, k, fs[0]).value.1, k, fs[1..]);
    }
  }

  lemma LayoutReadableIfOk(s: seq<bool>, pos: nat, k: nat, fs: seq<Field>)
    requires pos <= |s|
    ensures ReadLayout(s, pos, k, fs).Ok? ==> AllReadable(fs, ReadLayout(s, pos, k, fs).value.0)
  {
    if ReadLayout(s, pos, k, fs).Ok? {
      LayoutReadable(s, pos, k, fs);
    }
  }

  lemma FieldRead(s: seq<bool>, pos: nat, k: nat, f: Field, v: int)
    requires 1 <= k <= 8 && WellFormed(f) && Writable(f, v) && At(s, pos, FieldBits(k, f, v))
    ensures ReadField(s, pos, k, f) == Ok((FieldView(f, v), pos + |FieldBits(k, f, v)|))
  {
    hide ReadPacked, ReadSignedMagnitude, PackedBits, SignedMagnitudeBits;
    if f.Packed? {
      PackedRead(s, pos, k, v, f.width, f.signed);
    } else {
      SignedMagnitudeRead(s, pos, k, v, f.width);
    }
  }

  /** Whatever stands before and after them, fields written in a row are read
      back as the reader's views of their values. */
  lemma {:induction false} LayoutRead(s: seq<bool>, pos: nat, k: nat, fs: seq<Field>, vs: seq<int>)
    requires 1 <= k <= 8 && AllWritable(fs, vs) && At(s, pos, LayoutBits(k, fs, vs))
    ensures ReadLayout(s, pos, k, fs) == Ok((Views(fs, vs), pos + |LayoutBits(k, fs, vs)|))
    decreases |fs|
  {
    hide *;
    if |fs| == 0 {
      NoFields(s, pos, k, fs, vs);
    } else {
      FirstView(fs, vs);
      LayoutSplit(s, pos, k, fs, vs);
      FieldRead(s, pos, k, fs[0], vs[0]);
      LayoutRead(s, pos + |FieldBits(k, fs[0], vs[0])|, k, fs[1..], vs[1..]);
      ReadFirst(s, pos, k, fs);
    }
  }

  lemma NoFields(s: seq<bool>, pos: nat, k: nat, fs: seq<Field>, vs: seq<int>)
    requires 1 <= k && AllWritable(fs, vs) && |fs| == 0 && At(s, pos, LayoutBits(k, fs, vs))
    ensures |LayoutBits(k, fs, vs)| == 0 && pos <= |s| && ReadLayout(s, pos, k, fs) == Ok((Views(fs, vs), pos))
  {
    assert Views(fs, vs) == [];
  }

  lemma ReadFirst(s: seq<bool>, pos: nat, k: nat, fs: seq<Field>)
    requires pos <= |s| && |fs| > 0 && ReadField(s, pos, k, fs[0]).Ok?
    ensures var (v, next) := ReadField(s, pos, k, fs[0]).value;
      next <= |s| && ReadLayout(s, pos, k, fs) ==
        match ReadLayout(s, next, k, fs[1..])
        case Ok((vs, end)) => Ok(([v] + vs, end))
        case Err => Err
  {
    hide ReadField;
  }

  lemma FirstView(fs: seq<Field>, vs: seq<int>)
    requires |fs| > 0 && AllWritable(fs, vs)
    ensures |fs| == |vs| && WellFormed(fs[0]) && Writable(fs[0], vs[0]) && AllWritable(fs[1..], vs[1..])
    ensures Views(fs, vs) == [FieldView(fs[0], vs[0])] + Views(fs[1..], vs[1..])
  {
    hide FieldView, Writable, StorageWidth;
  }

  lemma LayoutSplit(s: seq<bool>, pos: nat, k: nat, fs: seq<Field>, vs: seq<int>)
    requires k >= 1 && |fs| > 0 && |fs| == |vs| && At(s, pos, LayoutBits(k, fs, vs))
    ensures At(s, pos, FieldBits(k, fs[0], vs[0]))
    ensures var next := pos + |FieldBits(k, fs[0], vs[0])|;
      && At(s, next, LayoutBits(k, fs[1..], vs[1..]))
      && next + |LayoutBits(k, fs[1..], vs[1..])| == pos + |LayoutBits(k, fs, vs)|
  {
    hide FieldBits, At;
    AtSplit(s, pos, FieldBits(k, fs[0], vs[0]), LayoutBits(k, fs[1..], vs[1..]));
  }

  lemma ReadableView(f: Field, v: int)
    requires WellFormed(f) && Readable(f, v)
    ensures Writable(f, v) && FieldView(f, v) == v
  {
    Pow2Grows(f.width - 1, f.width);
    if f.Packed? {
      ViewedIsIdentity(v, f.width, f.signed);
    }
  }

  lemma ReadableWritable(fs: seq<Field>, vs: seq<int>)
    requires AllReadable(fs, vs)
    ensures AllWritable(fs, vs) && Views(fs, vs) == vs
  {
    forall i | 0 <= i < |fs| ensures Writable(fs[i], vs[i]) && FieldView(fs[i], vs[i]) == vs[i] {
      ReadableView(fs[i], vs[i]);
    }
  }

  /** Values the reader can represent come back unchanged. */
  lemma LayoutReadExact(s: seq<bool>, pos: nat, k: nat, fs: seq<Field>, vs: seq<int>)
    requires 1 <= k <= 8 && AllReadable(fs, vs) && At(s, pos, LayoutBits(k, fs, vs))
    ensures ReadLayout(s, pos, k, fs) == Ok((vs, pos + |LayoutBits(k, fs, vs)|))
  {
    hide ReadLayout, LayoutBits, At, AllWritable;
    ReadableWritable(fs, vs);
    LayoutRead(s, pos, k, fs, vs);
  }
}
