/** Outer payload compression: the LZO1X decoder, the literal-only store and the
    size envelope around them. */
module Compression {
  import opened Results
  import opened Bits
  import opened Lzo

  const MAX_MESSAGE: nat := 64 * 1024 * 1024

  /** A stream: literals counted by a first byte above 17, then instructions. */
  datatype Stream = Stream(first: seq<byte>, instrs: seq<Instr>)

  function StartState(first: seq<byte>): (state: nat)
    ensures state <= 4
  {
    if |first| <= 4 then |first| else 4
  }

  predicate ValidStream(s: Stream) {
    && |s.first| <= 238
    && AllSpellable(s.instrs, StartState(s.first))
    && AllApplicable(s.instrs, |s.first|)
  }

  function FirstBytes(first: seq<byte>): seq<byte>
    requires |first| <= 238
  {
    if |first| == 0 then [] else [17 + |first|] + first
  }

  function SpellStream(s: Stream): seq<byte>
    requires ValidStream(s)
  {
    FirstBytes(s.first) + SpellAll(s.instrs, StartState(s.first))
  }

  function Meaning(s: Stream): seq<byte>
    requires ValidStream(s)
  {
    ApplyAll(s.first, s.instrs)
  }

  ghost predicate Explains(s: Stream, data: seq<byte>, out: seq<byte>) {
    ValidStream(s) && SpellStream(s) == data && Meaning(s) == out
  }

  function HasEnd(data: seq<byte>): (r: bool)
    ensures r ==> |data| >= 3
  {
    |data| >= 3 && data[|data| - 3..] == END
  }

  function DecodeStream(data: seq<byte>, expected: nat, maxOutput: nat): Result<seq<byte>> {
    if expected > maxOutput || !HasEnd(data) then Err
    else if data[0] > 17 then
      var count: nat := data[0] - 17;
      if count > |data| - 1 || count > expected then Err else
      var first := data[1..1 + count];
      Decode(data, 1 + count, if count < 4 then count else 4, first, expected, maxOutput)
    else Decode(data, 0, 0, [], expected, maxOutput)
  }

  // ---- the decoder --------------------------------------------------------

  method LengthExtension(data: seq<byte>, start: nat, v: nat, mask: nat, maxOutput: nat)
    returns (r: Result<(nat, nat)>)
    requires start <= |data|
    ensures r == ReadLength(data, start, v, mask, maxOutput)
  {
    if v != 0 {
      return Ok((v, start));
    }
    var acc: nat, pos: nat := mask, start;
    while true
      invariant ReadExtension(data, start, mask, maxOutput) == ReadExtension(data, pos, acc, maxOutput)
      decreases |data| - pos
    {
      if pos >= |data| {
        return Err;
      }
      var extra := data[pos];
      pos := pos + 1;
      if extra != 0 {
        return Ok((acc + extra, pos));
      }
      acc := acc + 255;
      if acc > maxOutput {
        return Err;
      }
    }
  }

  method DoMatch(start: seq<byte>, distance: nat, length: nat) returns (out: seq<byte>)
    requires 1 <= distance <= |start|
    ensures out == Copy(start, distance, length)
  {
    out := start;
    for i := 0 to length
      invariant |out| == |start| + i
      invariant Copy(start, distance, length) == Copy(out, distance, length - i)
    {
      out := out + [out[|out| - distance]];
    }
  }

  method Decompress(data: seq<byte>, expected: nat, maxOutput: nat) returns (r: Result<seq<byte>>)
    ensures r == DecodeStream(data, expected, maxOutput)
  {
    hide Copy, ReadExtension, ReadLength, Decode, HasEnd;
    ghost var spec := DecodeStream(data, expected, maxOutput);
    if expected > maxOutput {
      return Err;
    }
    if !HasEnd(data) {
      return Err;
    }
    var pos: nat, state: nat, out: seq<byte> := 0, 0, [];
    if data[0] > 17 {
      var count := data[0] - 17;
      if count > |data| - 1 || count > expected {
        return Err;
      }
      pos, out := 1 + count, data[1..1 + count];
      state := if count < 4 then count else 4;
    }
    assert spec == Decode(data, pos, state, out, expected, maxOutput);
    r := Instructions(data, pos, state, out, expected, maxOutput);
  }

  method NextHead(data: seq<byte>, start: nat, state: nat, maxOutput: nat) returns (r: Result<(Head, nat)>)
    requires start <= |data|
    ensures r == ReadHead(data, start, state, maxOutput)
  {
    hide ReadExtension, ReadLength;
    if start >= |data| {
      return Err;
    }
    var token: nat := data[start];
    var pos := start + 1;
    if token < 16 {
      if state == 0 {
        var extended :- LengthExtension(data, pos, token, 15, maxOutput);
        return Ok((Literals(extended.0 + 3), extended.1));
      }
      if pos >= |data| {
        return Err;
      }
      var b: nat := data[pos];
      return Ok((if state == 4 then Reference(AfterRun, token / 4 + b * 4 + 2049, 3, token % 4)
                 else Reference(AfterLiterals, token / 4 + b * 4 + 1, 2, token % 4), pos + 1));
    } else if token < 32 {
      var extended :- LengthExtension(data, pos, token % 8, 7, maxOutput);
      var operand :- NextWord(data, extended.1);
      var distance := 16384 + token / 8 % 2 * 16384 + operand.0 / 4;
      if distance == 16384 {
        return Ok((Finish(token == 17 && operand.0 == 0), operand.1));
      }
      return Ok((Reference(Far, distance, extended.0 + 2, operand.0 % 4), operand.1));
    } else if token < 64 {
      var extended :- LengthExtension(data, pos, token % 32, 31, maxOutput);
      var operand :- NextWord(data, extended.1);
      return Ok((Reference(Medium, operand.0 / 4 + 1, extended.0 + 2, operand.0 % 4), operand.1));
    } else {
      if pos >= |data| {
        return Err;
      }
      var b: nat := data[pos];
      return Ok((Reference(Short, token / 4 % 8 + b * 8 + 1, token / 32 + 1, token % 4), pos + 1));
    }
  }

  method NextWord(data: seq<byte>, pos: nat) returns (r: Result<(nat, nat)>)
    ensures r == ReadWord(data, pos)
  {
    if pos + 2 > |data| {
      return Err;
    }
    var hi: nat := data[pos + 1];
    return Ok((data[pos] + 256 * hi, pos + 2));
  }

  method Instructions(data: seq<byte>, start: nat, startState: nat, startOut: seq<byte>, expected: nat, maxOutput: nat)
    returns (r: Result<seq<byte>>)
    requires start <= |data| && |startOut| <= expected
    ensures r == Decode(data, start, startState, startOut, expected, maxOutput)
  {
    hide Copy, ReadHead;
    var pos, state, out := start, startState, startOut;
    while true
      invariant pos <= |data| && |out| <= expected
      invariant Decode(data, start, startState, startOut, expected, maxOutput) ==
                Decode(data, pos, state, out, expected, maxOutput)
      decreases |data| - pos
    {
      var next :- NextHead(data, pos, state, maxOutput);
      pos := next.1;
      match next.0
      case Finish(proper) =>
        if !proper || pos != |data| || |out| != expected {
          return Err;
        }
        return Ok(out);
      case Literals(count) =>
        if count > |data| - pos || |out| + count > expected {
          return Err;
        }
        out, pos, state := out + data[pos..pos + count], pos + count, 4;
      case Reference(_, distance, length, following) =>
        if distance < 1 || distance > |out| || |out| + length > expected {
          return Err;
        }
        out := DoMatch(out, distance, length);
        if following > |data| - pos || |out| + following > expected {
          return Err;
        }
        out, pos, state := out + data[pos..pos + following], pos + following, following;
    }
  }

  // ---- the decoder accepts exactly the spelled streams --------------------

  lemma {:induction false} SpellAllEnds(instrs: seq<Instr>, state: nat)
    requires AllSpellable(instrs, state)
    ensures HasEnd(SpellAll(instrs, state))
    decreases |instrs|
  {
    hide Spell, Spellable;
    if |instrs| > 0 {
      SpellAllEnds(instrs[1..], StateAfter(instrs[0]));
      EndsLikeTail(Spell(instrs[0], state), SpellAll(instrs[1..], StateAfter(instrs[0])));
    }
  }

  lemma EndsLikeTail(a: seq<byte>, b: seq<byte>)
    requires HasEnd(b)
    ensures HasEnd(a + b)
  {
    assert (a + b)[|a + b| - 3..] == b[|b| - 3..];
  }

  // With nothing before it, a stream can only start with a run or the end.
  lemma FirstToken(instrs: seq<Instr>)
    requires AllSpellable(instrs, 0) && AllApplicable(instrs, 0)
    ensures SpellAll(instrs, 0)[0] <= 17
  {
    hide Extension;
  }

  lemma StreamDecodes(s: Stream, maxOutput: nat)
    requires ValidStream(s) && |Meaning(s)| <= maxOutput
    ensures DecodeStream(SpellStream(s), |Meaning(s)|, maxOutput) == Ok(Meaning(s))
  {
    hide AllSpellable, AllApplicable, ApplyAll, SpellAll, Decode;
    var state, data := StartState(s.first), SpellStream(s);
    SpellAllEnds(s.instrs, state);
    EndsLikeTail(FirstBytes(s.first), SpellAll(s.instrs, state));
    StreamRead(data, |FirstBytes(s.first)|, state, s.instrs, s.first, |Meaning(s)|, maxOutput);
    if |s.first| == 0 {
      FirstToken(s.instrs);
      assert s.first == [];
    } else {
      assert data[1..1 + |s.first|] == s.first;
    }
  }

  lemma FirstSplit(data: seq<byte>, count: nat)
    requires 0 < count <= 238 && 1 + count <= |data| && data[0] == 17 + count
    ensures FirstBytes(data[1..1 + count]) + data[1 + count..] == data
  {
  }

  lemma StreamFound(data: seq<byte>, expected: nat, maxOutput: nat) returns (s: Stream)
    requires DecodeStream(data, expected, maxOutput).Ok?
    ensures Explains(s, data, DecodeStream(data, expected, maxOutput).value)
    ensures |Meaning(s)| == expected <= maxOutput
  {
    hide AllSpellable, AllApplicable, ApplyAll, SpellAll, Decode;
    var count := if data[0] > 17 then data[0] - 17 else 0;
    var start := if data[0] > 17 then 1 + count else 0;
    var first: seq<byte> := if data[0] > 17 then data[1..1 + count] else [];
    var instrs := StreamSpelled(data, start, StartState(first), first, expected, maxOutput);
    s := Stream(first, instrs);
    assert data[start..] == SpellAll(instrs, StartState(first));
    if data[0] > 17 {
      FirstSplit(data, count);
    }
    assert data == FirstBytes(first) + data[start..];
  }

  /** The decoder succeeds exactly on the spellings of streams whose meaning has
      the declared length, and returns that meaning. */
  lemma DecodesExactly(data: seq<byte>, expected: nat, maxOutput: nat, out: seq<byte>)
    ensures DecodeStream(data, expected, maxOutput) == Ok(out) <==>
            |out| == expected <= maxOutput && exists s :: Explains(s, data, out)
  {
    hide DecodeStream, ValidStream, SpellStream, Meaning;
    if DecodeStream(data, expected, maxOutput) == Ok(out) {
      var s := StreamFound(data, expected, maxOutput);
    }
    if |out| == expected <= maxOutput && exists s :: Explains(s, data, out) {
      var s :| Explains(s, data, out);
      StreamDecodes(s, maxOutput);
    }
  }

  // ---- the store ----------------------------------------------------------

  /** The stream that spells `data` with literals only. */
  function Stored(data: seq<byte>): (s: Stream)
    ensures ValidStream(s) && Meaning(s) == data
  {
    if |data| <= 238 then Stream(data, [])
    else
      assert [Run(data)][1..] == [] && [] + data == data;
      assert ApplyAll([], [Run(data)]) == data;
      Stream([], [Run(data)])
  }

  method Store(data: seq<byte>) returns (out: seq<byte>)
    ensures out == SpellStream(Stored(data))
  {
    var size := |data|;
    if size == 0 {
      return [0x11, 0, 0];
    }
    out := [];
    if size <= 238 {
      out := out + [size + 17];
    } else {
      var remaining := size - 18;
      var zeros := (remaining - 1) / 255;
      var last := (remaining - 1) % 255;
      out := out + [0];
      assert out == [0] + Zeros(0);
      for i := 0 to zeros
        invariant out == [0] + Zeros(i)
      {
        out := out + [0];
      }
      out := out + [last + 1];
      ExtensionClosed(remaining);
      assert out == [0] + Extension(remaining);
    }
    StoredBytes(data);
    out := out + data;
    out := out + [0x11, 0, 0];
  }

  lemma {:induction false} ExtensionClosed(w: nat)
    requires w >= 1
    ensures Extension(w) == Zeros((w - 1) / 255) + [(w - 1) % 255 + 1]
  {
    if w > 255 {
      ExtensionClosed(w - 255);
      assert Zeros((w - 1) / 255) == [0] + Zeros((w - 256) / 255);
    }
  }

  lemma StoredBytes(data: seq<byte>)
    ensures SpellStream(Stored(data)) ==
      if |data| == 0 then END
      else if |data| <= 238 then [|data| + 17] + data + END
      else [0] + Extension(|data| - 18) + data + END
  {
    hide SpellAll, SpellStream, Extension, ValidStream, Meaning;
    assert ValidStream(Stored(data));
    if |data| <= 238 {
      ShortStored(data);
    } else {
      LongStored(data);
    }
  }

  lemma ShortStored(data: seq<byte>)
    requires |data| <= 238
    ensures SpellStream(Stream(data, [])) == FirstBytes(data) + END
  {
    hide SpellAll, AllSpellable, AllApplicable, FirstBytes;
    NothingSpelled(StartState(data));
  }

  lemma LongStored(data: seq<byte>)
    requires |data| > 238 && ValidStream(Stream([], [Run(data)]))
    ensures SpellStream(Stream([], [Run(data)])) == [0] + Extension(|data| - 18) + data + END
  {
    hide SpellAll, Extension, AllSpellable, AllApplicable, Spell;
    RunSpelling(data);
    var rest := SpellAll([Run(data)], 0);
    assert FirstBytes([]) + rest == rest;
  }

  lemma NothingSpelled(state: nat)
    ensures AllSpellable([], state) && SpellAll([], state) == END
  {
  }

  lemma RunSpelling(data: seq<byte>)
    requires |data| > 238
    ensures AllSpellable([Run(data)], 0)
    ensures SpellAll([Run(data)], 0) == [0] + Extension(|data| - 18) + data + END
  {
    hide Extension;
    assert [Run(data)][1..] == [];
    assert Spell(Run(data), 0) == [0] + Extension(|data| - 18) + data;
  }

  // ---- the envelope -------------------------------------------------------

  function UnwrapPayload(payload: seq<byte>, maxOutput: nat): Result<seq<byte>> {
    if |payload| < 8 then Err else
    var expected, compressed := FromLE32(payload[..4]), FromLE32(payload[4..8]);
    if compressed != |payload| - 8 || expected < 0 then Err
    else DecodeStream(payload[8..], expected, maxOutput)
  }

  function WrapPayload(plain: seq<byte>): seq<byte> {
    var encoded := SpellStream(Stored(plain));
    LE32(|plain|) + LE32(|encoded|) + encoded
  }

  method DecompressPayload(payload: seq<byte>, maxOutput: nat) returns (r: Result<seq<byte>>)
    ensures r == UnwrapPayload(payload, maxOutput)
  {
    if |payload| < 8 {
      return Err;
    }
    var expected := FromLE32(payload[..4]);
    var compressed := FromLE32(payload[4..8]);
    if compressed < 0 || compressed != |payload| - 8 {
      return Err;
    }
    if expected < 0 {
      return Err;
    }
    r := Decompress(payload[8..], expected, maxOutput);
  }

  method MakeCompressedPayload(plain: seq<byte>) returns (r: Result<seq<byte>>)
    ensures r == if |plain| > MAX_MESSAGE then Err else Ok(WrapPayload(plain))
  {
    if |plain| > MAX_MESSAGE {
      return Err;
    }
    var encoded := Store(plain);
    var out: seq<byte> := [];
    out := out + LE32(|plain|);
    out := out + LE32(|encoded|);
    out := out + encoded;
    assert out == WrapPayload(plain);
    return Ok(out);
  }

  lemma StoredLength(plain: seq<byte>)
    requires |plain| <= MAX_MESSAGE
    ensures |SpellStream(Stored(plain))| <= |plain| + |plain| / 255 + 5
  {
    hide Extension, SpellStream, Stored;
    StoredBytes(plain);
    if |plain| > 238 {
      ExtensionClosed(|plain| - 18);
    }
  }

  /** A stored payload unwraps to itself, whenever it is within the sender's and
      the receiver's limits; a receiver with a smaller limit refuses it. */
  lemma PayloadRoundTrip(plain: seq<byte>, maxOutput: nat)
    requires |plain| <= MAX_MESSAGE
    ensures UnwrapPayload(WrapPayload(plain), maxOutput) == if |plain| <= maxOutput then Ok(plain) else Err
  {
    hide SpellStream, Stored, FromLE32, LE32;
    var encoded := SpellStream(Stored(plain));
    var payload := WrapPayload(plain);
    StoredLength(plain);
    LE32RoundTrip(|plain|);
    LE32RoundTrip(|encoded|);
    assert payload[..4] == LE32(|plain|) && payload[4..8] == LE32(|encoded|) && payload[8..] == encoded;
    StoredDecodes(plain, maxOutput);
  }

  lemma StoredDecodes(plain: seq<byte>, maxOutput: nat)
    ensures DecodeStream(SpellStream(Stored(plain)), |plain|, maxOutput) ==
            if |plain| <= maxOutput then Ok(plain) else Err
  {
    hide SpellStream, ValidStream, Meaning;
    if |plain| <= maxOutput {
      StreamDecodes(Stored(plain), maxOutput);
    }
  }

  /** An envelope opens exactly when its two size fields name the output's length and the
      length of what follows, the output is within the limit, and what follows spells a
      stream that means it. */
  lemma UnwrapsExactly(payload: seq<byte>, maxOutput: nat, out: seq<byte>)
    ensures UnwrapPayload(payload, maxOutput) == Ok(out) <==>
            && |payload| >= 8 && FromLE32(payload[..4]) == |out| <= maxOutput
            && FromLE32(payload[4..8]) == |payload| - 8 && exists s :: Explains(s, payload[8..], out)
  {
    hide DecodeStream, Explains, FromLE32;
    if |payload| >= 8 && FromLE32(payload[..4]) >= 0 {
      DecodesExactly(payload[8..], FromLE32(payload[..4]), maxOutput, out);
    }
  }
}
