/** Which spellings of a packed integer the reader accepts and the writer makes:
    the reader also takes numbers with a zero group on top, and a negative zero. */
module Spellings {
  import opened Results
  import opened Bits
  import opened PackedCode

  // ---- bits and numbers ---------------------------------------------------

  lemma {:induction false} NatRoundTrip(t: seq<bool>)
    ensures ToBits(ToNat(t), |t|) == t
  {
    if |t| > 0 {
      NatRoundTrip(t[1..]);
      assert t == [t[0]] + t[1..];
    }
  }

  /** A number reaches its top two-bit group exactly when one of that group's bits
      is set. */
  lemma TopGroup(t: seq<bool>)
    requires |t| >= 2
    ensures ToNat(t) >= Pow2(|t| - 2) <==> t[|t| - 1] || t[|t| - 2]
  {
    hide ToNat, Pow2;
    var n := |t| - 2;
    var low := t[..n];
    assert low + [t[n]] == t[..n + 1] && t[..n + 1] + [t[n + 1]] == t;
    ToNatSnoc(low, t[n]);
    ToNatSnoc(t[..n + 1], t[n + 1]);
    ToNatBound(low);
    Pow2Grows(n, n + 1);
  }

  /** A number uses all its two-bit groups exactly when the top one is not zero. */
  lemma AllUnits(t: seq<bool>)
    requires |t| % 2 == 0
    ensures 2 * Units(ToNat(t)) == |t| <==> |t| == 0 || t[|t| - 1] || t[|t| - 2]
    ensures 2 * Units(ToNat(t)) <= |t|
  {
    hide ToNat, Pow2, BitLength;
    ToNatBound(t);
    BitLengthBounds(ToNat(t), |t|);
    if |t| >= 2 {
      TopGroup(t);
      BitLengthBounds(ToNat(t), |t| - 2);
    }
  }

  // ---- the prefix ---------------------------------------------------------

  /** There is one prefix for each count: what the reader sums is what the writer
      would have written. */
  lemma {:induction false} UnitsSpelled(s: seq<bool>, pos: nat, k: nat, width: nat, done: nat)
    requires k >= 1 && ReadUnits(s, pos, k, width, done).Ok?
    ensures var (units, next) := ReadUnits(s, pos, k, width, done).value;
      && units >= done && At(s, pos, PrefixBits(k, units - done)) && next == pos + |PrefixBits(k, units - done)|
    decreases |s| - pos
  {
    hide ToBits, ToNat, PrefixBits, Pow2, At;
    var (digit, next) := ReadBits(s, pos, k).value;
    DigitSpelled(s, pos, k);
    if digit == Sentinel(k) {
      UnitsSpelled(s, next, k, width, done + digit);
      var units := ReadUnits(s, next, k, width, done + digit).value.0;
      AtJoin(s, pos, ToBits(digit, k), PrefixBits(k, units - done - digit));
      PrefixStep(k, units - done);
    } else {
      PrefixStep(k, digit);
    }
  }

  lemma DigitSpelled(s: seq<bool>, pos: nat, k: nat)
    requires k >= 1 && ReadBits(s, pos, k).Ok?
    ensures var digit := ReadBits(s, pos, k).value.0; digit <= Sentinel(k) && At(s, pos, ToBits(digit, k))
  {
    hide ToBits, ToNat;
    ToNatBound(s[pos..pos + k]);
    NatRoundTrip(s[pos..pos + k]);
  }

  lemma PrefixStep(k: nat, units: nat)
    requires k >= 1
    ensures PrefixBits(k, units) ==
            if units >= Sentinel(k) then ToBits(Sentinel(k), k) + PrefixBits(k, units - Sentinel(k))
            else ToBits(units, k)
  {
  }

  /** The value bits after a prefix and `gap` more bits repeat the writer's exactly
      when their top group is not zero. */
  lemma ValueSpelled(s: seq<bool>, pos: nat, k: nat, width: nat, gap: nat)
    requires ReadPrefix(s, pos, k, width).Ok?
    requires var (length, next) := ReadPrefix(s, pos, k, width).value; next + gap + length <= |s|
    ensures var (length, next) := ReadPrefix(s, pos, k, width).value;
      var at, end := next + gap, next + gap + length;
      var m := ToNat(s[at..end]);
      && m < Pow2(width)
      && (length > 0 ==> length >= 2)
      && ((At(s, pos, PrefixBits(k, Units(m))) && |PrefixBits(k, Units(m))| == next - pos
           && At(s, at, ToBits(m, 2 * Units(m))) && 2 * Units(m) == length) <==>
          length == 0 || s[end - 1] || s[end - 2])
  {
    hide ToBits, ToNat, PrefixBits, Pow2, Units, ReadUnits;
    var (length, next) := ReadPrefix(s, pos, k, width).value;
    var t := s[next + gap..next + gap + length];
    UnitsSpelled(s, pos, k, width, 0);
    AllUnits(t);
    NatRoundTrip(t);
    ToNatBound(t);
    Pow2Grows(length, width);
  }

  /** The writer's spelling announces as many groups as the reader found. */
  lemma SameLength(s: seq<bool>, pos: nat, k: nat, width: nat, m: nat)
    requires ReadPrefix(s, pos, k, width).Ok? && m < Pow2(width) && At(s, pos, PrefixBits(k, Units(m)))
    ensures ReadPrefix(s, pos, k, width) == Ok((2 * Units(m), pos + |PrefixBits(k, Units(m))|))
  {
    hide ReadUnits, PrefixBits, Pow2, Units, At;
    UnitsFit(m, width);
    PrefixRead(s, pos, k, width, Units(m), 0);
  }

  // ---- packed integers ----------------------------------------------------

  /** At `pos` stands the writer's spelling of `v`, ending at `end`. */
  predicate Written(s: seq<bool>, pos: nat, code: seq<bool>, end: nat) {
    At(s, pos, code) && end == pos + |code|
  }

  /** A successful read read the writer's own spelling if and only if the value has
      no bits at all or its top two-bit group is not zero. */
  lemma PackedSpelling(s: seq<bool>, pos: nat, k: nat, width: nat, signed: bool)
    requires ReadPacked(s, pos, k, width, signed).Ok?
    ensures var (v, end) := ReadPacked(s, pos, k, width, signed).value;
      var length := ReadPrefix(s, pos, k, width).value.0;
      Written(s, pos, PackedBits(k, v, width), end) <==> length == 0 || s[end - 1] || s[end - 2]
  {
    hide ToBits, ToNat, PrefixBits, Pow2, Units, ReadPrefix, At, Bit;
    var (v, end) := ReadPacked(s, pos, k, width, signed).value;
    var (length, next) := ReadPrefix(s, pos, k, width).value;
    var m := ToNat(s[next..end]);
    ValueSpelled(s, pos, k, width, 0);
    MaskedBack(m, width);
    assert Masked(v, width) == m;
    var prefix, bits := PrefixBits(k, Units(m)), ToBits(m, 2 * Units(m));
    if At(s, pos, prefix + bits) {
      AtSplit(s, pos, prefix, bits);
      SameLength(s, pos, k, width, m);
    }
    if At(s, pos, prefix) && |prefix| == next - pos && At(s, next, bits) {
      AtJoin(s, pos, prefix, bits);
    }
  }

  lemma MaskedBack(m: nat, width: nat)
    requires width >= 1 && m < Pow2(width)
    ensures Masked(m, width) == m && Masked(m - Pow2(width), width) == m
  {
    DivUnique(m, Pow2(width), 0, m);
    DivUnique(m - Pow2(width), Pow2(width), -1, m);
  }

  /** The same for sign and magnitude, where a zero with the sign bit set is the
      other spelling the writer never makes. */
  lemma SignedMagnitudeSpelling(s: seq<bool>, pos: nat, k: nat, width: nat)
    requires ReadSignedMagnitude(s, pos, k, width).Ok?
    ensures var (v, end) := ReadSignedMagnitude(s, pos, k, width).value;
      var (length, next) := ReadPrefix(s, pos, k, width).value;
      Written(s, pos, SignedMagnitudeBits(k, v), end) <==>
      if length == 0 then !s[next] else s[end - 1] || s[end - 2]
  {
    hide ToBits, ToNat, PrefixBits, Pow2, Units, ReadPrefix, At;
    var (v, end) := ReadSignedMagnitude(s, pos, k, width).value;
    var (length, next) := ReadPrefix(s, pos, k, width).value;
    var m := ToNat(s[next + 1..end]);
    ValueSpelled(s, pos, k, width, 1);
    SignBit(s, next);
    ZeroMagnitude(s[next + 1..end]);
    var prefix, bits := PrefixBits(k, Units(m)), ToBits(m, 2 * Units(m));
    var sign := [v < 0];
    if At(s, pos, prefix + sign + bits) {
      AtSplit(s, pos, prefix + sign, bits);
      AtSplit(s, pos, prefix, sign);
      SameLength(s, pos, k, width, m);
    }
    if At(s, pos, prefix) && |prefix| == next - pos && At(s, next + 1, bits) && At(s, next, sign) {
      AtJoin(s, pos, prefix, sign);
      AtJoin(s, pos, prefix + sign, bits);
    }
  }

  lemma SignBit(s: seq<bool>, at: nat)
    requires at < |s|
    ensures ToNat(s[at..at + 1]) != 0 <==> s[at]
    ensures forall b :: At(s, at, [b]) <==> s[at] == b
  {
    assert s[at..at + 1] == [s[at]];
  }

  /** No bits are worth nothing; a set top bit is worth something. */
  lemma ZeroMagnitude(t: seq<bool>)
    ensures |t| == 0 ==> ToNat(t) == 0
    ensures |t| >= 2 && (t[|t| - 1] || t[|t| - 2]) ==> ToNat(t) > 0
  {
    hide Pow2;
    if |t| >= 2 {
      TopGroup(t);
    }
  }

  // ---- inputs -------------------------------------------------------------

  /** An input the reader takes and the writer never makes: one group, worth zero,
      where the writer spells zero with no group at all. */
  lemma NonMinimalAccepted()
    ensures ReadPacked(ToBits(1, 4), 0, 2, 8, false) == Ok((0, 4))
    ensures ReadPacked(ToBits(0, 2), 0, 2, 8, false) == Ok((0, 2))
  {
    var s, t := ToBits(1, 4), ToBits(0, 2);
    assert At(s, 0, ToBits(1, 2)) && At(s, 2, t) && At(t, 0, t) && At(t, 2, []);
    ReadBitsAt(s, 0, 1, 2);
    ReadBitsAt(s, 2, 0, 2);
    ReadBitsAt(t, 0, 0, 2);
    assert ReadUnits(s, 0, 2, 8, 0) == Ok((1, 2));
    assert ReadUnits(t, 0, 2, 8, 0) == Ok((0, 2));
    assert ReadBits(t, 2, 0) == Ok((0, 2)) by { assert ToBits(0, 0) == []; ReadBitsAt(t, 2, 0, 0); }
  }
}
