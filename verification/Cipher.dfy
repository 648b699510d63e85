/** The two byte-feedback ciphers: the session cipher feeds back plaintext and
    keeps its key position for the life of a connection; the startup cipher feeds
    back ciphertext and starts over with every call. */
module Cipher {
  import opened Results
  import opened Bits

  /** Exclusive or of the `n` low bits, bit by bit. */
  function XorBits(a: nat, b: nat, n: nat): (r: nat)
    ensures r < Pow2(n)
  {
    if n == 0 then 0 else (if a % 2 != b % 2 then 1 else 0) + 2 * XorBits(a / 2, b / 2, n - 1)
  }

  function Xor(a: byte, b: byte): byte {
    assert Pow2(8) == 256;
    XorBits(a, b, 8)
  }

  lemma {:induction false} XorBitsTwice(a: nat, b: nat, n: nat)
    requires a < Pow2(n)
    ensures XorBits(XorBits(a, b, n), b, n) == a
  {
    if n > 0 {
      var x := XorBits(a / 2, b / 2, n - 1);
      var first := if a % 2 != b % 2 then 1 else 0;
      assert XorBits(a, b, n) == first + 2 * x && (first + 2 * x) / 2 == x && (first + 2 * x) % 2 == first;
      XorBitsTwice(a / 2, b / 2, n - 1);
    }
  }

  lemma XorTwice(a: byte, b: byte)
    ensures Xor(Xor(a, b), b) == a
  {
    hide XorBits;
    assert Pow2(8) == 256;
    XorBitsTwice(a, b, 8);
  }

  lemma {:induction false} XorBit(a: nat, b: nat, n: nat, j: nat)
    requires j < n
    ensures Bit(XorBits(a, b, n), j) <==> Bit(a, j) != Bit(b, j)
  {
    var x := XorBits(a / 2, b / 2, n - 1);
    var first := if a % 2 != b % 2 then 1 else 0;
    assert XorBits(a, b, n) == first + 2 * x && (first + 2 * x) / 2 == x && (first + 2 * x) % 2 == first;
    if j > 0 {
      XorBit(a / 2, b / 2, n - 1, j - 1);
    }
  }

  /** A bit of the exclusive or is set exactly where the operands differ. */
  lemma XorIsExclusive(a: byte, b: byte, j: nat)
    requires j < 8
    ensures Bit(Xor(a, b), j) <==> Bit(a, j) != Bit(b, j)
  {
    hide XorBits;
    XorBit(a, b, 8, j);
  }

  /** Where a cipher stands: the last plaintext byte and the key position. */
  datatype CipherState = CipherState(previousPlain: byte, position: nat)

  const START: CipherState := CipherState(0, 0)

  function Mask(key: seq<byte>, at: CipherState): (m: byte)
    requires |key| > 0
  {
    (at.previousPlain + key[at.position % |key|]) % 256
  }

  /** The state after a plaintext has gone through, in either direction. */
  function Advance(at: CipherState, plain: seq<byte>): CipherState {
    if |plain| == 0 then at
    else CipherState(plain[|plain| - 1], at.position + |plain|)
  }

  function Encrypted(key: seq<byte>, at: CipherState, plain: seq<byte>): (c: seq<byte>)
    requires |key| > 0
    ensures |c| == |plain|
    decreases |plain|
  {
    if |plain| == 0 then []
    else [Xor(plain[0], Mask(key, at))] + Encrypted(key, CipherState(plain[0], at.position + 1), plain[1..])
  }

  function Decrypted(key: seq<byte>, at: CipherState, data: seq<byte>): (p: seq<byte>)
    requires |key| > 0
    ensures |p| == |data|
    decreases |data|
  {
    if |data| == 0 then []
    else
      var plain := Xor(data[0], Mask(key, at));
      [plain] + Decrypted(key, CipherState(plain, at.position + 1), data[1..])
  }

  /** The mask that a byte fed back makes with key byte `n`, the key repeating. */
  function Fed(key: seq<byte>, previous: byte, n: nat): byte
    requires |key| > 0
  {
    (previous + key[n % |key|]) % 256
  }

  /** The byte before position `i`, and `first` at the start. */
  function Before(first: byte, s: seq<byte>, i: nat): byte
    requires i <= |s|
  {
    if i == 0 then first else s[i - 1]
  }

  /** Byte by byte: each plaintext byte is masked with the plaintext byte before it, or
      at the start with the one the cipher remembers. */
  predicate FeedsPlain(key: seq<byte>, at: CipherState, plain: seq<byte>, c: seq<byte>)
    requires |key| > 0
  {
    |c| == |plain| && forall i :: 0 <= i < |plain| ==>
      c[i] == Xor(plain[i], Fed(key, Before(at.previousPlain, plain, i), at.position + i))
  }

  lemma MaskIsFed(key: seq<byte>, at: CipherState)
    requires |key| > 0
    ensures Mask(key, at) == Fed(key, at.previousPlain, at.position)
  {
  }

  lemma {:induction false} EncryptedFeedsPlain(key: seq<byte>, at: CipherState, plain: seq<byte>)
    requires |key| > 0
    ensures FeedsPlain(key, at, plain, Encrypted(key, at, plain))
    decreases |plain|
  {
    hide Xor, Mask, Fed;
    if |plain| > 0 {
      MaskIsFed(key, at);
      var next := CipherState(plain[0], at.position + 1);
      EncryptedFeedsPlain(key, next, plain[1..]);
      var rest := Encrypted(key, next, plain[1..]);
      forall i | 0 < i < |plain|
        ensures Encrypted(key, at, plain)[i] == Xor(plain[i], Fed(key, plain[i - 1], at.position + i))
      {
        assert rest[i - 1] == Encrypted(key, at, plain)[i] && plain[1..][i - 1] == plain[i];
        var k := i - 1;
        assert rest[k] == Xor(plain[1..][k], Fed(key, Before(plain[0], plain[1..], k), next.position + k));
        assert Before(plain[0], plain[1..], k) == plain[k] && next.position + k == at.position + i;
      }
    }
  }

  lemma DecryptedFeedsPlain(key: seq<byte>, at: CipherState, data: seq<byte>)
    requires |key| > 0
    ensures FeedsPlain(key, at, Decrypted(key, at, data), data)
  {
    hide FeedsPlain, Encrypted, Decrypted;
    EncryptedFeedsPlain(key, at, Decrypted(key, at, data));
    EncryptUndoesDecrypt(key, at, data);
  }

  class SessionCipher {
    const key: seq<byte>
    var previousPlain: byte
    var position: nat

    ghost predicate Valid() {
      |key| > 0
    }

    function State(): CipherState
      reads this
    {
      CipherState(previousPlain, position)
    }

    constructor (key: seq<byte>)
      requires |key| > 0
      ensures Valid() && this.key == key && State() == START
    {
      this.key, previousPlain, position := key, 0, 0;
    }

    static method Create(key: seq<byte>) returns (r: Result<SessionCipher>)
      ensures r.Ok? <==> |key| > 0
      ensures r.Ok? ==> fresh(r.value) && r.value.Valid() && r.value.key == key && r.value.State() == START
    {
      if |key| == 0 {
        return Err;
      }
      var cipher := new SessionCipher(key);
      return Ok(cipher);
    }

    method Encrypt(data: seq<byte>) returns (out: seq<byte>)
      requires Valid()
      modifies this
      ensures out == Encrypted(key, old(State()), data)
      ensures FeedsPlain(key, old(State()), data, out)
      ensures State() == Advance(old(State()), data)
    {
      hide Encrypted, Xor, Mask, FeedsPlain;
      EncryptedFeedsPlain(key, State(), data);
      out := [];
      EncryptNext(key, State(), data, 0);
      for i := 0 to |data|
        invariant State() == Advance(old(State()), data[..i])
        invariant out + Encrypted(key, State(), data[i..]) == Encrypted(key, old(State()), data)
      {
        EncryptNext(key, State(), data, i);
        out := out + [Xor(data[i], Mask(key, State()))];
        previousPlain := data[i];
        position := position + 1;
      }
      EncryptNext(key, State(), data, |data|);
      assert data[..|data|] == data;
    }

    method Decrypt(data: seq<byte>) returns (out: seq<byte>)
      requires Valid()
      modifies this
      ensures out == Decrypted(key, old(State()), data)
      ensures FeedsPlain(key, old(State()), out, data)
      ensures State() == Advance(old(State()), out)
    {
      hide Decrypted, Xor, Mask, FeedsPlain;
      DecryptedFeedsPlain(key, State(), data);
      out := [];
      DecryptNext(key, State(), data, 0);
      for i := 0 to |data|
        invariant |out| == i && State() == Advance(old(State()), out)
        invariant out + Decrypted(key, State(), data[i..]) == Decrypted(key, old(State()), data)
      {
        DecryptNext(key, State(), data, i);
        var plain := Xor(data[i], Mask(key, State()));
        out := out + [plain];
        previousPlain := plain;
        position := position + 1;
      }
      DecryptNext(key, State(), data, |data|);
    }
  }

  lemma EncryptNext(key: seq<byte>, at: CipherState, data: seq<byte>, i: nat)
    requires |key| > 0 && i <= |data|
    ensures data[0..] == data
    ensures i < |data| ==>
      Encrypted(key, at, data[i..]) ==
      [Xor(data[i], Mask(key, at))] + Encrypted(key, CipherState(data[i], at.position + 1), data[i + 1..])
    ensures Encrypted(key, at, []) == []
  {
    hide Xor, Mask;
    if i < |data| {
      assert data[i..][1..] == data[i + 1..];
    }
  }

  lemma DecryptNext(key: seq<byte>, at: CipherState, data: seq<byte>, i: nat)
    requires |key| > 0 && i <= |data|
    ensures data[0..] == data
    ensures i < |data| ==>
      var plain := Xor(data[i], Mask(key, at));
      Decrypted(key, at, data[i..]) == [plain] + Decrypted(key, CipherState(plain, at.position + 1), data[i + 1..])
    ensures Decrypted(key, at, []) == []
  {
    hide Xor, Mask;
    if i < |data| {
      assert data[i..][1..] == data[i + 1..];
    }
  }

  // ---- laws of the session cipher -----------------------------------------

  /** A receiver in the sender's state undoes the sender, and both move on to the
      same state. */
  lemma {:induction false} DecryptUndoesEncrypt(key: seq<byte>, at: CipherState, plain: seq<byte>)
    requires |key| > 0
    ensures Decrypted(key, at, Encrypted(key, at, plain)) == plain
    decreases |plain|
  {
    hide Xor, Mask;
    if |plain| > 0 {
      XorTwice(plain[0], Mask(key, at));
      DecryptUndoesEncrypt(key, CipherState(plain[0], at.position + 1), plain[1..]);
    }
  }

  lemma {:induction false} EncryptUndoesDecrypt(key: seq<byte>, at: CipherState, data: seq<byte>)
    requires |key| > 0
    ensures Encrypted(key, at, Decrypted(key, at, data)) == data
    decreases |data|
  {
    hide Xor, Mask;
    if |data| > 0 {
      XorTwice(data[0], Mask(key, at));
      EncryptUndoesDecrypt(key, CipherState(Xor(data[0], Mask(key, at)), at.position + 1), data[1..]);
    }
  }

  /** Encrypting a message in pieces gives the bytes and the state of encrypting
      it whole. */
  lemma {:induction false} EncryptInPieces(key: seq<byte>, at: CipherState, a: seq<byte>, b: seq<byte>)
    requires |key| > 0
    ensures Encrypted(key, at, a + b) == Encrypted(key, at, a) + Encrypted(key, Advance(at, a), b)
    ensures Advance(at, a + b) == Advance(Advance(at, a), b)
    decreases |a|
  {
    hide Xor, Mask;
    if |a| == 0 {
      assert a + b == b;
    } else {
      var next := CipherState(a[0], at.position + 1);
      assert (a + b)[1..] == a[1..] + b;
      EncryptInPieces(key, next, a[1..], b);
      assert Advance(next, a[1..]) == Advance(at, a);
    }
  }

  // ---- the startup cipher -------------------------------------------------

  function StartupEncrypted(key: seq<byte>, i: nat, previous: byte, plain: seq<byte>): (c: seq<byte>)
    requires |key| > 0
    ensures |c| == |plain|
    decreases |plain|
  {
    if |plain| == 0 then [] else
    var c := Xor(plain[0], (previous + key[i % |key|]) % 256);
    [c] + StartupEncrypted(key, i + 1, c, plain[1..])
  }

  function StartupDecrypted(key: seq<byte>, i: nat, previous: byte, data: seq<byte>): (p: seq<byte>)
    requires |key| > 0
    ensures |p| == |data|
    decreases |data|
  {
    if |data| == 0 then []
    else [Xor(data[0], (previous + key[i % |key|]) % 256)] + StartupDecrypted(key, i + 1, data[0], data[1..])
  }

  /** The startup cipher feeds back what it wrote, from zero and the start of the key. */
  predicate FeedsCipher(key: seq<byte>, start: nat, previous: byte, plain: seq<byte>, c: seq<byte>)
    requires |key| > 0
  {
    |c| == |plain| && forall i :: 0 <= i < |plain| ==>
      c[i] == Xor(plain[i], Fed(key, Before(previous, c, i), start + i))
  }

  lemma StartupStep(key: seq<byte>, start: nat, previous: byte, plain: seq<byte>)
    requires |key| > 0 && |plain| > 0
    ensures var c := Xor(plain[0], Fed(key, previous, start));
      StartupEncrypted(key, start, previous, plain) == [c] + StartupEncrypted(key, start + 1, c, plain[1..])
  {
    hide Xor;
  }

  lemma {:induction false} StartupFeedsCipher(key: seq<byte>, start: nat, previous: byte, plain: seq<byte>)
    requires |key| > 0
    ensures FeedsCipher(key, start, previous, plain, StartupEncrypted(key, start, previous, plain))
    decreases |plain|
  {
    hide Xor, Fed, StartupEncrypted;
    if |plain| > 0 {
      StartupStep(key, start, previous, plain);
      var all := StartupEncrypted(key, start, previous, plain);
      var rest := StartupEncrypted(key, start + 1, all[0], plain[1..]);
      StartupFeedsCipher(key, start + 1, all[0], plain[1..]);
      forall i | 0 < i < |plain| ensures all[i] == Xor(plain[i], Fed(key, all[i - 1], start + i)) {
        assert all[i] == rest[i - 1] && plain[1..][i - 1] == plain[i];
        var k := i - 1;
        assert rest[k] == Xor(plain[1..][k], Fed(key, Before(all[0], rest, k), start + 1 + k));
        assert Before(all[0], rest, k) == all[k] && start + 1 + k == start + i;
      }
    }
  }

  method StartupEncrypt(data: seq<byte>, key: seq<byte>) returns (r: Result<seq<byte>>)
    ensures r == if |key| == 0 then Err else Ok(StartupEncrypted(key, 0, 0, data))
    ensures r.Ok? ==> FeedsCipher(key, 0, 0, data, r.value)
  {
    hide StartupEncrypted, Xor, FeedsCipher;
    if |key| == 0 {
      return Err;
    }
    StartupFeedsCipher(key, 0, 0, data);
    var previous: byte, out: seq<byte> := 0, [];
    StartupNext(key, 0, 0, data, 0);
    for i := 0 to |data|
      invariant out + StartupEncrypted(key, i, previous, data[i..]) == StartupEncrypted(key, 0, 0, data)
    {
      StartupNext(key, i, previous, data, i);
      previous := Xor(data[i], (previous + key[i % |key|]) % 256);
      out := out + [previous];
    }
    StartupNext(key, |data|, previous, data, |data|);
    assert out + [] == out;
    return Ok(out);
  }

  method StartupDecrypt(data: seq<byte>, key: seq<byte>) returns (r: Result<seq<byte>>)
    ensures r == if |key| == 0 then Err else Ok(StartupDecrypted(key, 0, 0, data))
    ensures r.Ok? ==> FeedsCipher(key, 0, 0, r.value, data)
  {
    hide StartupDecrypted, StartupEncrypted, Xor, FeedsCipher;
    if |key| == 0 {
      return Err;
    }
    StartupFeedsCipher(key, 0, 0, StartupDecrypted(key, 0, 0, data));
    StartupRoundTrip(key, 0, 0, data);
    var previous: byte, out: seq<byte> := 0, [];
    StartupNext(key, 0, 0, data, 0);
    for i := 0 to |data|
      invariant out + StartupDecrypted(key, i, previous, data[i..]) == StartupDecrypted(key, 0, 0, data)
    {
      StartupNext(key, i, previous, data, i);
      out := out + [Xor(data[i], (previous + key[i % |key|]) % 256)];
      previous := data[i];
    }
    StartupNext(key, |data|, previous, data, |data|);
    assert out + [] == out;
    return Ok(out);
  }

  lemma StartupNext(key: seq<byte>, i: nat, previous: byte, data: seq<byte>, at: nat)
    requires |key| > 0 && at <= |data|
    ensures data[0..] == data && data[|data|..] == []
    ensures at < |data| ==>
      var c := Xor(data[at], (previous + key[i % |key|]) % 256);
      && StartupEncrypted(key, i, previous, data[at..]) == [c] + StartupEncrypted(key, i + 1, c, data[at + 1..])
      && StartupDecrypted(key, i, previous, data[at..]) == [c] + StartupDecrypted(key, i + 1, data[at], data[at + 1..])
    ensures StartupEncrypted(key, i, previous, []) == [] && StartupDecrypted(key, i, previous, []) == []
  {
    hide Xor;
    if at < |data| {
      assert data[at..][1..] == data[at + 1..];
    }
  }

  lemma {:induction false} StartupRoundTrip(key: seq<byte>, i: nat, previous: byte, data: seq<byte>)
    requires |key| > 0
    ensures StartupDecrypted(key, i, previous, StartupEncrypted(key, i, previous, data)) == data
    ensures StartupEncrypted(key, i, previous, StartupDecrypted(key, i, previous, data)) == data
    decreases |data|
  {
    hide Xor;
    if |data| > 0 {
      var c := Xor(data[0], (previous + key[i % |key|]) % 256);
      XorTwice(data[0], (previous + key[i % |key|]) % 256);
      StartupRoundTrip(key, i + 1, c, data[1..]);
      StartupRoundTrip(key, i + 1, data[0], data[1..]);
    }
  }
}
