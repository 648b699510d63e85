/** Bytes, bit strings (least significant bit first) and little-endian integers. */
module Bits {

  type byte = x: int | 0 <= x < 256

  type i32 = x: int | -0x8000_0000 <= x < 0x8000_0000
  type i64 = x: int | -0x8000_0000_0000_0000 <= x < 0x8000_0000_0000_0000
  type u16 = x: int | 0 <= x < 0x1_0000
  type u32 = x: int | 0 <= x < 0x1_0000_0000
  type u64 = x: int | 0 <= x < 0x1_0000_0000_0000_0000

  function Pow2(n: nat): (p: nat)
    ensures p >= 1
  {
    if n == 0 then 1 else 2 * Pow2(n - 1)
  }

  lemma {:induction false} Pow2Adds(a: nat, b: nat)
    ensures Pow2(a + b) == Pow2(a) * Pow2(b)
  {
    if a != 0 {
      Pow2Adds(a - 1, b);
      assert Pow2(a + b) == 2 * Pow2((a - 1) + b);
    }
  }

  lemma {:induction false} Pow2Grows(a: nat, b: nat)
    requires a <= b
    ensures Pow2(a) <= Pow2(b)
  {
    if a != b {
      Pow2Grows(a, b - 1);
    }
  }

  lemma WordSizes()
    ensures Pow2(7) == 0x80 && Pow2(8) == 0x100 && Pow2(15) == 0x8000 && Pow2(16) == 0x1_0000
    ensures Pow2(31) == 0x8000_0000 && Pow2(32) == 0x1_0000_0000
    ensures Pow2(63) == 0x8000_0000_0000_0000 && Pow2(64) == 0x1_0000_0000_0000_0000
  {
    assert Pow2(15) == 0x8000;
    Pow2Adds(16, 15);
    Pow2Adds(31, 32);
  }

  /** The value of a bit string, least significant bit first. */
  function ToNat(s: seq<bool>): nat {
    if |s| == 0 then 0 else (if s[0] then 1 else 0) + 2 * ToNat(s[1..])
  }

  /** The `n` low bits of `v`. */
  function ToBits(v: nat, n: nat): (s: seq<bool>)
    ensures |s| == n
  {
    if n == 0 then [] else [v % 2 == 1] + ToBits(v / 2, n - 1)
  }

  /** Bits needed to write `v`; zero needs none. */
  function BitLength(v: nat): nat {
    if v == 0 then 0 else 1 + BitLength(v / 2)
  }

  lemma {:induction false} BitsRoundTrip(v: nat, n: nat)
    requires v < Pow2(n)
    ensures ToNat(ToBits(v, n)) == v
  {
    if n != 0 {
      BitsRoundTrip(v / 2, n - 1);
    }
  }

  lemma {:induction false} BitLengthBounds(v: nat, n: nat)
    ensures BitLength(v) <= n <==> v < Pow2(n)
  {
    if n != 0 && v != 0 {
      BitLengthBounds(v / 2, n - 1);
    }
  }

  lemma {:induction false} ToNatBound(s: seq<bool>)
    ensures ToNat(s) < Pow2(|s|)
  {
    if |s| > 0 {
      ToNatBound(s[1..]);
    }
  }

  lemma {:induction false} ToNatSnoc(s: seq<bool>, b: bool)
    ensures ToNat(s + [b]) == ToNat(s) + if b then Pow2(|s|) else 0
  {
    if |s| == 0 {
      assert s + [b] == [b];
    } else {
      ToNatSnoc(s[1..], b);
      assert (s + [b])[1..] == s[1..] + [b];
    }
  }

  /** Bit `i` of `v`: shift right `i` times and keep the lowest bit. */
  predicate Bit(v: nat, i: nat) {
    if i == 0 then v % 2 == 1 else Bit(v / 2, i - 1)
  }

  lemma {:induction false} ToBitsAt(v: nat, n: nat, i: nat)
    requires i < n
    ensures ToBits(v, n)[i] == Bit(v, i)
  {
    if i != 0 {
      ToBitsAt(v / 2, n - 1, i - 1);
    }
  }

  lemma {:induction false} TopBit(v: nat, n: nat)
    requires n >= 1 && v < Pow2(n)
    ensures Bit(v, n - 1) <==> v >= Pow2(n - 1)
  {
    if n > 1 {
      TopBit(v / 2, n - 1);
    }
  }

  // Adding 2^j to a number whose bit j is clear sets that bit and no other.
  lemma {:induction false} SetClearBit(v: nat, n: nat, j: nat, i: nat)
    requires v < Pow2(n) && j < n && !Bit(v, j)
    ensures v + Pow2(j) < Pow2(n)
    ensures Bit(v + Pow2(j), i) <==> (Bit(v, i) || i == j)
  {
    if j == 0 {
      assert v % 2 == 0 && (v + 1) / 2 == v / 2;
    } else {
      assert (v + Pow2(j)) / 2 == v / 2 + Pow2(j - 1);
      SetClearBit(v / 2, n - 1, j - 1, if i > 0 then i - 1 else 0);
    }
  }

  lemma DivUnique(v: int, d: int, q: int, r: int)
    requires 0 <= r < d && v == q * d + r
    ensures v / d == q && v % d == r
  {
    var q', r' := v / d, v % d;
    assert v == q' * d + r';
    assert (q - q') * d == r' - r;
    if q > q' {
      MulAtLeast(q - q', d);
    } else if q < q' {
      MulAtLeast(q' - q, d);
    }
  }

  lemma MulAtLeast(x: int, d: int)
    requires x >= 1 && d >= 0
    ensures x * d >= d
  {
    assert x * d == d + (x - 1) * d;
  }

  // ---- bytes as bits ------------------------------------------------------

  /** The bits of a byte string, byte after byte. */
  function Unpack(data: seq<byte>): (s: seq<bool>)
    ensures |s| == 8 * |data|
    ensures forall p :: 0 <= p < |s| ==> s[p] == Bit(data[p / 8], p % 8)
  {
    seq(8 * |data|, p requires 0 <= p < 8 * |data| => Bit(data[p / 8], p % 8))
  }

  lemma UnpackConcat(a: seq<byte>, b: seq<byte>)
    ensures Unpack(a + b) == Unpack(a) + Unpack(b)
  {
    forall p | 0 <= p < 8 * |a + b| ensures Unpack(a + b)[p] == (Unpack(a) + Unpack(b))[p] {
      if p >= 8 * |a| {
        assert p / 8 - |a| == (p - 8 * |a|) / 8 && p % 8 == (p - 8 * |a|) % 8;
      }
    }
  }

  /** `b | bit << j`. */
  function OrBit(b: byte, j: nat, bit: bool): (r: byte)
    requires j < 8
    ensures forall i :: 0 <= i < 8 ==> Bit(r, i) == (Bit(b, i) || (bit && i == j))
  {
    var r := if bit && !Bit(b, j) then b + Pow2(j) else b;
    OrBitBits(b, j);
    r
  }

  lemma OrBitBits(b: byte, j: nat)
    requires j < 8
    ensures !Bit(b, j) ==> (
      && b + Pow2(j) < 256
      && (forall i :: 0 <= i < 8 ==> Bit(b + Pow2(j), i) == (Bit(b, i) || i == j)))
  {
    assert Pow2(8) == 256;
    if !Bit(b, j) {
      forall i | 0 <= i < 8
        ensures b + Pow2(j) < 256
        ensures Bit(b + Pow2(j), i) == (Bit(b, i) || i == j)
      {
        SetClearBit(b, 8, j, i);
      }
      SetClearBit(b, 8, j, 0);
    }
  }

  /** `piece` stands in `s` at bit (or byte) position `pos`. */
  predicate At<T(==)>(s: seq<T>, pos: nat, piece: seq<T>) {
    pos + |piece| <= |s| && s[pos..pos + |piece|] == piece
  }

  lemma AtJoin<T>(s: seq<T>, pos: nat, a: seq<T>, b: seq<T>)
    requires At(s, pos, a) && At(s, pos + |a|, b)
    ensures At(s, pos, a + b)
  {
    var end := pos + |a| + |b|;
    assert s[pos..end] == s[pos..pos + |a|] + s[pos + |a|..end];
  }

  lemma AtIndex<T>(s: seq<T>, pos: nat, piece: seq<T>, i: nat)
    requires At(s, pos, piece) && i < |piece|
    ensures s[pos + i] == piece[i]
  {
    assert s[pos + i] == s[pos..pos + |piece|][i];
  }

  lemma AtEnd<T>(s: seq<T>, pos: nat, piece: seq<T>)
    requires At(s, pos, piece)
    ensures pos + |piece| <= |s|
  {
  }

  lemma AtSplit<T>(s: seq<T>, pos: nat, a: seq<T>, b: seq<T>)
    requires At(s, pos, a + b)
    ensures At(s, pos, a) && At(s, pos + |a|, b)
  {
    assert s[pos..pos + |a|] == (a + b)[..|a|];
    assert s[pos + |a|..pos + |a| + |b|] == (a + b)[|a|..];
  }

  // ---- little-endian integers ---------------------------------------------

  function LE(v: nat, n: nat): (s: seq<byte>)
    ensures |s| == n
  {
    if n == 0 then [] else [v % 256] + LE(v / 256, n - 1)
  }

  function FromLE(s: seq<byte>): nat {
    if |s| == 0 then 0 else s[0] + 256 * FromLE(s[1..])
  }

  function Pow256(n: nat): (p: nat)
    ensures p >= 1
  {
    if n == 0 then 1 else 256 * Pow256(n - 1)
  }

  lemma {:induction false} LERoundTrip(v: nat, n: nat)
    requires v < Pow256(n)
    ensures FromLE(LE(v, n)) == v
  {
    if n != 0 {
      LERoundTrip(v / 256, n - 1);
    }
  }

  lemma {:induction false} FromLEBound(s: seq<byte>)
    ensures FromLE(s) < Pow256(|s|)
  {
    if |s| > 0 {
      FromLEBound(s[1..]);
    }
  }

  lemma {:induction false} FromLEInjective(s: seq<byte>)
    ensures LE(FromLE(s), |s|) == s
  {
    if |s| > 0 {
      FromLEInjective(s[1..]);
    }
  }

  function LE32(v: nat): (s: seq<byte>)
    ensures |s| == 4
  {
    LE(v % 0x1_0000_0000, 4)
  }

  /** A signed 32-bit little-endian field. */
  function FromLE32(s: seq<byte>): (v: i32)
    requires |s| == 4
  {
    FromLEBound(s);
    var v := FromLE(s);
    if v >= 0x8000_0000 then v - 0x1_0000_0000 else v
  }

  lemma LE32RoundTrip(v: nat)
    ensures v < 0x8000_0000 <==> FromLE32(LE32(v)) == v
  {
    assert Pow256(4) == 0x1_0000_0000;
    LERoundTrip(v % 0x1_0000_0000, 4);
  }

  lemma UnsignedField(s: seq<byte>)
    requires |s| == 4 && FromLE32(s) >= 0
    ensures FromLE32(s) == FromLE(s) < 0x8000_0000
  {
    hide FromLE;
    FromLEBound(s);
    assert Pow256(4) == 0x1_0000_0000;
  }

  lemma LE32Injective(s: seq<byte>)
    requires |s| == 4 && FromLE32(s) >= 0
    ensures LE32(FromLE32(s)) == s
  {
    hide LE, FromLE, FromLE32;
    FromLEInjective(s);
    UnsignedField(s);
    assert FromLE(s) % 0x1_0000_0000 == FromLE(s);
  }

  /** Two's complement reading of an `n`-bit value. */
  function Signed(v: nat, n: nat): (r: int)
    requires n >= 1
  {
    if v >= Pow2(n - 1) then v - Pow2(n) else v
  }

  lemma NegatedMultiple(x: int, m: nat)
    requires m > 0 && x % m == 0
    ensures (-x) % m == 0
  {
    var k := x / m;
    assert -x == -k * m + 0;
    DivUnique(-x, m, -k, 0);
  }

  /** The 64-bit two's complement value congruent to `x`. */
  function WrapI64(x: int): (r: i64)
    ensures (x - r) % 0x1_0000_0000_0000_0000 == 0
  {
    (x + 0x8000_0000_0000_0000) % 0x1_0000_0000_0000_0000 - 0x8000_0000_0000_0000
  }

  function Zeros(n: nat): (s: seq<byte>)
    ensures |s| == n
  {
    seq(n, _ => 0)
  }
}
