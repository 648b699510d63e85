/** The LZO1X token format and its meaning as literal runs and back-references. */
module Lzo {
  import opened Results
  import opened Bits

  /** How a back-reference is spelled: two bytes after one to three literals,
      two bytes after a literal run, or with 3, 5 or 4 leading token bits. */
  datatype Form = AfterLiterals | AfterRun | Short | Medium | Far

  /** One instruction: a literal run, or a back-reference and up to three
      literals after it. */
  datatype Instr =
    | Run(literals: seq<byte>)
    | Match(form: Form, distance: nat, length: nat, tail: seq<byte>)

  const END: seq<byte> := [0x11, 0, 0]

  // ---- meaning ------------------------------------------------------------

  /** Repeat the byte `distance` before the end, `length` times. */
  function Copy(out: seq<byte>, distance: nat, length: nat): (r: seq<byte>)
    requires 1 <= distance <= |out|
    ensures |r| == |out| + length
    decreases length
  {
    if length == 0 then out else Copy(out + [out[|out| - distance]], distance, length - 1)
  }

  predicate Applicable(i: Instr, size: nat) {
    i.Match? ==> 1 <= i.distance <= size
  }

  function Produced(i: Instr): nat {
    match i
    case Run(literals) => |literals|
    case Match(_, _, length, tail) => length + |tail|
  }

  function Apply(out: seq<byte>, i: Instr): (r: seq<byte>)
    requires Applicable(i, |out|)
    ensures |r| == |out| + Produced(i)
  {
    match i
    case Run(literals) => out + literals
    case Match(_, distance, length, tail) => Copy(out, distance, length) + tail
  }

  predicate AllApplicable(instrs: seq<Instr>, size: nat) {
    |instrs| > 0 ==>
      && Applicable(instrs[0], size)
      && AllApplicable(instrs[1..], size + Produced(instrs[0]))
  }

  function ApplyAll(out: seq<byte>, instrs: seq<Instr>): (r: seq<byte>)
    requires AllApplicable(instrs, |out|)
    ensures |r| >= |out|
    decreases |instrs|
  {
    if |instrs| == 0 then out else ApplyAll(Apply(out, instrs[0]), instrs[1..])
  }

  /** A back-reference keeps what was there and repeats the last `distance` bytes
      with that period, also where it overlaps its own output. */
  lemma {:induction false} CopyIsPeriodic(out: seq<byte>, distance: nat, length: nat)
    requires 1 <= distance <= |out|
    ensures Copy(out, distance, length)[..|out|] == out
    ensures forall i :: 0 <= i < length ==>
      Copy(out, distance, length)[|out| + i] == out[|out| - distance + i % distance]
    decreases length
  {
    hide Copy;
    CopyStep(out, distance, length);
    if length > 0 {
      var next, whole := out + [out[|out| - distance]], Copy(out, distance, length);
      CopyIsPeriodic(next, distance, length - 1);
      assert whole[..|out|] == whole[..|next|][..|out|];
      assert whole[|out|] == whole[..|next|][|out|];
      assert 0 % distance == 0;
      forall i | 1 <= i < length ensures whole[|out| + i] == out[|out| - distance + i % distance] {
        PeriodStep(out, whole, distance, length, i);
      }
    }
  }

  lemma CopyStep(out: seq<byte>, distance: nat, length: nat)
    requires 1 <= distance <= |out|
    ensures Copy(out, distance, length) ==
            if length == 0 then out else Copy(out + [out[|out| - distance]], distance, length - 1)
  {
  }

  lemma PeriodStep(out: seq<byte>, whole: seq<byte>, distance: nat, length: nat, i: nat)
    requires 1 <= distance <= |out| && 1 <= i < length && |whole| == |out| + length
    requires var next := out + [out[|out| - distance]];
      forall j :: 0 <= j < length - 1 ==> whole[|next| + j] == next[|next| - distance + j % distance]
    ensures whole[|out| + i] == out[|out| - distance + i % distance]
  {
    var next := out + [out[|out| - distance]];
    assert whole[|next| + (i - 1)] == next[|next| - distance + (i - 1) % distance];
    NextInPeriod(i, distance);
  }

  lemma NextInPeriod(i: nat, d: nat)
    requires i >= 1 && d >= 1
    ensures (i - 1) % d < d - 1 ==> i % d == (i - 1) % d + 1
    ensures (i - 1) % d == d - 1 ==> i % d == 0
  {
    var q, r := (i - 1) / d, (i - 1) % d;
    assert i - 1 == q * d + r;
    if r < d - 1 {
      DivUnique(i, d, q, r + 1);
    } else {
      assert i == (q + 1) * d + 0;
      DivUnique(i, d, q + 1, 0);
    }
  }

  /** What an instruction adds: a run its literals; a back-reference its copied bytes, each
      equal to the byte `distance` before it, and then its own literals. */
  lemma InstructionMeans(out: seq<byte>, i: Instr)
    requires Applicable(i, |out|)
    ensures var r := Apply(out, i);
      match i
      case Run(literals) => r == out + literals
      case Match(_, distance, length, tail) =>
        && |r| == |out| + length + |tail| && r[..|out|] == out && r[|out| + length..] == tail
        && forall k :: |out| <= k < |out| + length ==> r[k] == r[k - distance]
  {
    if i.Match? {
      var copied := Copy(out, i.distance, i.length);
      CopyIsPeriodic(out, i.distance, i.length);
      CopyRepeats(out, i.distance, i.length);
      assert Apply(out, i)[..|copied|] == copied;
      assert Apply(out, i)[..|out|] == copied[..|out|];
      assert forall k :: 0 <= k < |copied| ==> Apply(out, i)[k] == copied[k];
    }
  }

  lemma {:induction false} CopyRepeats(out: seq<byte>, distance: nat, length: nat)
    requires 1 <= distance <= |out|
    ensures forall k :: |out| <= k < |out| + length ==>
      Copy(out, distance, length)[k] == Copy(out, distance, length)[k - distance]
    decreases length
  {
    hide Copy;
    CopyStep(out, distance, length);
    if length > 0 {
      var next, whole := out + [out[|out| - distance]], Copy(out, distance, length);
      CopyRepeats(next, distance, length - 1);
      CopyIsPeriodic(next, distance, length - 1);
      assert whole[|out|] == whole[..|next|][|out|] && whole[|out| - distance] == whole[..|next|][|out| - distance];
    }
  }

  // ---- spelling -----------------------------------------------------------

  /** What the decoder remembers of the last instruction: how many literals it
      ended with, or 4 after a literal run. */
  function StateAfter(i: Instr): nat {
    match i
    case Run(_) => 4
    case Match(_, _, _, tail) => |tail|
  }

  /** Each form reaches its own distances and lengths, and two of them depend on
      what came before. */
  predicate Spellable(i: Instr, state: nat) {
    match i
    case Run(literals) => state == 0 && |literals| >= 4
    case Match(form, distance, length, tail) =>
      && |tail| <= 3
      && match form
         case AfterLiterals => 1 <= state <= 3 && 1 <= distance <= 1024 && length == 2
         case AfterRun => state == 4 && 2049 <= distance <= 3072 && length == 3
         case Short => 1 <= distance <= 2048 && 3 <= length <= 8
         case Medium => 1 <= distance <= 16384 && 3 <= length
         case Far => 16385 <= distance <= 49151 && 3 <= length
  }

  predicate AllSpellable(instrs: seq<Instr>, state: nat) {
    |instrs| > 0 ==> Spellable(instrs[0], state) && AllSpellable(instrs[1..], StateAfter(instrs[0]))
  }

  /** A length above the token's own field: a zero byte for every whole 255. */
  function Extension(w: nat): seq<byte>
    requires w >= 1
  {
    if w <= 255 then [w] else [0] + Extension(w - 255)
  }

  /** The bits of the length kept in the token; zero announces an extension. */
  function LengthField(v: nat, mask: nat): nat {
    if v <= mask then v else 0
  }

  function LengthBytes(v: nat, mask: nat): seq<byte> {
    if v <= mask then [] else Extension(v - mask)
  }

  function Word(v: nat): seq<byte>
    requires v < 0x1_0000
  {
    [v % 256, v / 256]
  }

  function Spell(i: Instr, state: nat): seq<byte>
    requires Spellable(i, state)
  {
    match i
    case Run(literals) =>
      [LengthField(|literals| - 3, 15)] + LengthBytes(|literals| - 3, 15) + literals
    case Match(form, distance, length, tail) =>
      (match form
       case AfterLiterals => [(distance - 1) % 4 * 4 + |tail|, (distance - 1) / 4]
       case AfterRun => [(distance - 2049) % 4 * 4 + |tail|, (distance - 2049) / 4]
       case Short => [(length - 1) * 32 + (distance - 1) % 8 * 4 + |tail|, (distance - 1) / 8]
       case Medium =>
         [32 + LengthField(length - 2, 31)] + LengthBytes(length - 2, 31) + Word((distance - 1) * 4 + |tail|)
       case Far =>
         var e := distance - 16384;
         [16 + e / 16384 * 8 + LengthField(length - 2, 7)] + LengthBytes(length - 2, 7)
         + Word(e % 16384 * 4 + |tail|))
      + tail
  }

  function SpellAll(instrs: seq<Instr>, state: nat): seq<byte>
    requires AllSpellable(instrs, state)
    decreases |instrs|
  {
    if |instrs| == 0 then END else Spell(instrs[0], state) + SpellAll(instrs[1..], StateAfter(instrs[0]))
  }

  // ---- reading ------------------------------------------------------------

  datatype Op = Do(instr: Instr) | Stop(proper: bool)

  function ReadByte(data: seq<byte>, pos: nat): (r: Result<(byte, nat)>)
    ensures r.Ok? ==> r.value.1 == pos + 1 <= |data|
  {
    if pos >= |data| then Err else Ok((data[pos], pos + 1))
  }

  function ReadWord(data: seq<byte>, pos: nat): (r: Result<(nat, nat)>)
    ensures r.Ok? ==> r.value.1 == pos + 2 <= |data| && r.value.0 < 0x1_0000
  {
    var (lo, p) :- ReadByte(data, pos);
    var (hi, p) :- ReadByte(data, p);
    Ok((lo + 256 * hi, p))
  }

  /** Zero bytes count 255 each; the first other byte ends the extension. */
  function ReadExtension(data: seq<byte>, pos: nat, acc: nat, maxOutput: nat): (r: Result<(nat, nat)>)
    ensures r.Ok? ==> pos < r.value.1 <= |data| && r.value.0 > acc
    decreases |data| - pos
  {
    var (extra, next) :- ReadByte(data, pos);
    if extra != 0 then Ok((acc + extra, next))
    else if acc + 255 > maxOutput then Err
    else ReadExtension(data, next, acc + 255, maxOutput)
  }

  function ReadLength(data: seq<byte>, pos: nat, v: nat, mask: nat, maxOutput: nat): (r: Result<(nat, nat)>)
    requires pos <= |data|
    ensures r.Ok? ==> pos <= r.value.1 <= |data| && r.value.0 >= 1
  {
    if v != 0 then Ok((v, pos)) else ReadExtension(data, pos, mask, maxOutput)
  }

  function ReadLiterals(data: seq<byte>, pos: nat, n: nat): (r: Result<(seq<byte>, nat)>)
    requires pos <= |data|
    ensures r.Ok? ==> r.value.1 == pos + n <= |data| && |r.value.0| == n
  {
    if n > |data| - pos then Err else Ok((data[pos..pos + n], pos + n))
  }

  /** What a token and its operands announce. */
  datatype Head =
    | Literals(count: nat)
    | Reference(form: Form, distance: nat, length: nat, following: nat)
    | Finish(proper: bool)

  function ReadHead(data: seq<byte>, pos: nat, state: nat, maxOutput: nat): (r: Result<(Head, nat)>)
    ensures r.Ok? ==> pos < r.value.1 <= |data|
  {
    var (token, p) :- ReadByte(data, pos);
    if token < 16 && state == 0 then
      var (n, p) :- ReadLength(data, p, token, 15, maxOutput);
      Ok((Literals(n + 3), p))
    else if token < 16 then
      var (b, p) :- ReadByte(data, p);
      if state == 4 then Ok((Reference(AfterRun, token / 4 + b * 4 + 2049, 3, token % 4), p))
      else Ok((Reference(AfterLiterals, token / 4 + b * 4 + 1, 2, token % 4), p))
    else if token < 32 then
      var (n, p) :- ReadLength(data, p, token % 8, 7, maxOutput);
      var (operand, p) :- ReadWord(data, p);
      var distance := 16384 + token / 8 % 2 * 16384 + operand / 4;
      if distance == 16384 then Ok((Finish(token == 17 && operand == 0), p))
      else Ok((Reference(Far, distance, n + 2, operand % 4), p))
    else if token < 64 then
      var (n, p) :- ReadLength(data, p, token % 32, 31, maxOutput);
      var (operand, p) :- ReadWord(data, p);
      Ok((Reference(Medium, operand / 4 + 1, n + 2, operand % 4), p))
    else
      var (b, p) :- ReadByte(data, p);
      Ok((Reference(Short, token / 4 % 8 + b * 8 + 1, token / 32 + 1, token % 4), p))
  }

  function ReadOp(data: seq<byte>, pos: nat, state: nat, maxOutput: nat): (r: Result<(Op, nat)>)
    ensures r.Ok? ==> pos < r.value.1 <= |data|
  {
    var (head, p) :- ReadHead(data, pos, state, maxOutput);
    match head
    case Finish(proper) => Ok((Stop(proper), p))
    case Literals(count) =>
      var (literals, next) :- ReadLiterals(data, p, count);
      Ok((Do(Run(literals)), next))
    case Reference(form, distance, length, following) =>
      var (tail, next) :- ReadLiterals(data, p, following);
      Ok((Do(Match(form, distance, length, tail)), next))
  }

  function Decode(data: seq<byte>, pos: nat, state: nat, out: seq<byte>, expected: nat, maxOutput: nat):
    (r: Result<seq<byte>>)
    decreases |data| - pos
  {
    var (op, next) :- ReadOp(data, pos, state, maxOutput);
    match op
    case Stop(proper) => if proper && next == |data| && |out| == expected then Ok(out) else Err
    case Do(i) =>
      if !Applicable(i, |out|) || |out| + Produced(i) > expected then Err
      else Decode(data, next, if i.Run? then 4 else |i.tail|, Apply(out, i), expected, maxOutput)
  }

  // ---- every spelled instruction is read back -----------------------------

  lemma {:induction false} ExtensionRead(data: seq<byte>, pos: nat, w: nat, acc: nat, maxOutput: nat)
    requires w >= 1 && At(data, pos, Extension(w)) && acc + w <= maxOutput
    ensures ReadExtension(data, pos, acc, maxOutput) == Ok((acc + w, pos + |Extension(w)|))
    decreases w
  {
    if w > 255 {
      AtSplit(data, pos, [0], Extension(w - 255));
      assert data[pos] == data[pos..pos + 1][0];
      ExtensionRead(data, pos + 1, w - 255, acc + 255, maxOutput);
    } else {
      assert data[pos] == data[pos..pos + 1][0];
    }
  }

  lemma LengthRead(data: seq<byte>, pos: nat, v: nat, mask: nat, maxOutput: nat)
    requires v >= 1 && v <= maxOutput && pos <= |data| && At(data, pos, LengthBytes(v, mask))
    ensures ReadLength(data, pos, LengthField(v, mask), mask, maxOutput) == Ok((v, pos + |LengthBytes(v, mask)|))
  {
    hide Extension;
    if v > mask {
      ExtensionRead(data, pos, v - mask, mask, maxOutput);
    }
  }

  lemma TwoBytesRead(data: seq<byte>, pos: nat, a: byte, b: byte, tail: seq<byte>)
    requires At(data, pos, [a, b] + tail)
    ensures ReadByte(data, pos) == Ok((a, pos + 1)) && ReadByte(data, pos + 1) == Ok((b, pos + 2))
    ensures ReadLiterals(data, pos + 2, |tail|) == Ok((tail, pos + 2 + |tail|))
  {
    AtSplit(data, pos, [a, b], tail);
    AtIndex(data, pos, [a, b], 0);
    AtIndex(data, pos, [a, b], 1);
  }

  lemma LongRead(data: seq<byte>, pos: nat, token: byte, v: nat, mask: nat, operand: nat, tail: seq<byte>,
                 maxOutput: nat)
    requires 1 <= v <= maxOutput && operand < 0x1_0000
    requires At(data, pos, [token] + LengthBytes(v, mask) + Word(operand) + tail)
    ensures var p := pos + 1 + |LengthBytes(v, mask)|;
      && ReadByte(data, pos) == Ok((token, pos + 1)) && p + 2 + |tail| <= |data|
      && ReadLength(data, pos + 1, LengthField(v, mask), mask, maxOutput) == Ok((v, p))
      && ReadWord(data, p) == Ok((operand, p + 2))
      && ReadLiterals(data, p + 2, |tail|) == Ok((tail, p + 2 + |tail|))
  {
    hide LengthBytes, ReadLength, LengthField;
    var p := pos + 1 + |LengthBytes(v, mask)|;
    AtSplit(data, pos, [token] + LengthBytes(v, mask) + Word(operand), tail);
    AtSplit(data, pos, [token] + LengthBytes(v, mask), Word(operand));
    AtSplit(data, pos, [token], LengthBytes(v, mask));
    AtIndex(data, pos, [token], 0);
    AtIndex(data, p, Word(operand), 0);
    AtIndex(data, p, Word(operand), 1);
    LengthRead(data, pos + 1, v, mask, maxOutput);
  }

  lemma NearRead(data: seq<byte>, pos: nat, i: Instr, state: nat, maxOutput: nat)
    requires Spellable(i, state) && At(data, pos, Spell(i, state))
    requires i.Match? && (i.form.AfterLiterals? || i.form.AfterRun?)
    ensures ReadOp(data, pos, state, maxOutput) == Ok((Do(i), pos + |Spell(i, state)|))
  {
    hide ReadLength, ReadByte, ReadWord, ReadLiterals, At;
    var base := if i.form.AfterRun? then 2049 else 1;
    var token, b := (i.distance - base) % 4 * 4 + |i.tail|, (i.distance - base) / 4;
    assert token / 4 == (i.distance - base) % 4 && token % 4 == |i.tail|;
    TwoBytesRead(data, pos, token, b, i.tail);
  }

  lemma ShortRead(data: seq<byte>, pos: nat, i: Instr, state: nat, maxOutput: nat)
    requires Spellable(i, state) && At(data, pos, Spell(i, state))
    requires i.Match? && i.form.Short?
    ensures ReadOp(data, pos, state, maxOutput) == Ok((Do(i), pos + |Spell(i, state)|))
  {
    hide ReadLength, ReadByte, ReadWord, ReadLiterals, At;
    var token, b := (i.length - 1) * 32 + (i.distance - 1) % 8 * 4 + |i.tail|, (i.distance - 1) / 8;
    assert token / 32 == i.length - 1 && token / 4 % 8 == (i.distance - 1) % 8 && token % 4 == |i.tail|;
    TwoBytesRead(data, pos, token, b, i.tail);
  }

  lemma MediumRead(data: seq<byte>, pos: nat, i: Instr, state: nat, maxOutput: nat)
    requires Spellable(i, state) && At(data, pos, Spell(i, state)) && Produced(i) <= maxOutput
    requires i.Match? && i.form.Medium?
    ensures ReadOp(data, pos, state, maxOutput) == Ok((Do(i), pos + |Spell(i, state)|))
  {
    hide ReadLength, ReadByte, ReadWord, ReadLiterals, LengthBytes, At;
    var v, operand := i.length - 2, (i.distance - 1) * 4 + |i.tail|;
    assert operand / 4 == i.distance - 1 && operand % 4 == |i.tail|;
    LongRead(data, pos, 32 + LengthField(v, 31), v, 31, operand, i.tail, maxOutput);
  }

  lemma FarRead(data: seq<byte>, pos: nat, i: Instr, state: nat, maxOutput: nat)
    requires Spellable(i, state) && At(data, pos, Spell(i, state)) && Produced(i) <= maxOutput
    requires i.Match? && i.form.Far?
    ensures ReadOp(data, pos, state, maxOutput) == Ok((Do(i), pos + |Spell(i, state)|))
  {
    hide ReadLength, ReadByte, ReadWord, ReadLiterals, LengthBytes, At;
    var e, v := i.distance - 16384, i.length - 2;
    var operand, token := e % 16384 * 4 + |i.tail|, 16 + e / 16384 * 8 + LengthField(v, 7);
    assert operand / 4 == e % 16384 && operand % 4 == |i.tail|;
    assert token / 8 % 2 == e / 16384 && token % 8 == LengthField(v, 7);
    LongRead(data, pos, token, v, 7, operand, i.tail, maxOutput);
  }

  /** Every instruction is read back from its spelling, wherever it stands. */
  lemma InstrRead(data: seq<byte>, pos: nat, i: Instr, state: nat, maxOutput: nat)
    requires Spellable(i, state) && At(data, pos, Spell(i, state)) && Produced(i) <= maxOutput
    ensures ReadOp(data, pos, state, maxOutput) == Ok((Do(i), pos + |Spell(i, state)|))
  {
    hide *;
    match i
    case Run(literals) => RunInstrRead(data, pos, i, state, maxOutput);
    case Match(form, _, _, _) =>
      match form
      case AfterLiterals | AfterRun => NearRead(data, pos, i, state, maxOutput);
      case Short => ShortRead(data, pos, i, state, maxOutput);
      case Medium => MediumRead(data, pos, i, state, maxOutput);
      case Far => FarRead(data, pos, i, state, maxOutput);
  }

  lemma RunInstrRead(data: seq<byte>, pos: nat, i: Instr, state: nat, maxOutput: nat)
    requires Spellable(i, state) && At(data, pos, Spell(i, state)) && Produced(i) <= maxOutput && i.Run?
    ensures ReadOp(data, pos, state, maxOutput) == Ok((Do(i), pos + |Spell(i, state)|))
  {
    hide ReadLength, ReadByte, ReadWord, ReadLiterals, LengthBytes, At;
    RunRead(data, pos, i.literals, maxOutput);
  }

  lemma RunRead(data: seq<byte>, pos: nat, literals: seq<byte>, maxOutput: nat)
    requires 4 <= |literals| <= maxOutput
    requires At<byte>(data, pos, [LengthField(|literals| - 3, 15)] + LengthBytes(|literals| - 3, 15) + literals)
    ensures var p := pos + 1 + |LengthBytes(|literals| - 3, 15)|;
      && ReadByte(data, pos) == Ok((LengthField(|literals| - 3, 15), pos + 1)) && p <= |data|
      && ReadLength(data, pos + 1, LengthField(|literals| - 3, 15), 15, maxOutput) == Ok((|literals| - 3, p))
      && ReadLiterals(data, p, |literals|) == Ok((literals, p + |literals|))
  {
    hide LengthBytes, ReadLength, LengthField;
    var v := |literals| - 3;
    AtSplit(data, pos, [LengthField(v, 15)] + LengthBytes(v, 15), literals);
    AtSplit(data, pos, [LengthField(v, 15)], LengthBytes(v, 15));
    AtIndex(data, pos, [LengthField(v, 15)], 0);
    LengthRead(data, pos + 1, v, 15, maxOutput);
  }

  lemma EndRead(data: seq<byte>, pos: nat, state: nat, maxOutput: nat)
    requires At(data, pos, END)
    ensures ReadOp(data, pos, state, maxOutput) == Ok((Stop(true), pos + 3))
  {
    AtIndex(data, pos, END, 0);
    AtIndex(data, pos, END, 1);
    AtIndex(data, pos, END, 2);
  }

  /** A spelled stream decodes to its meaning. */
  lemma {:induction false} StreamRead(data: seq<byte>, pos: nat, state: nat, instrs: seq<Instr>, out: seq<byte>,
                                      expected: nat, maxOutput: nat)
    requires AllSpellable(instrs, state) && AllApplicable(instrs, |out|)
    requires At(data, pos, SpellAll(instrs, state)) && pos + |SpellAll(instrs, state)| == |data|
    requires |ApplyAll(out, instrs)| == expected <= maxOutput
    ensures Decode(data, pos, state, out, expected, maxOutput) == Ok(ApplyAll(out, instrs))
    decreases |instrs|
  {
    hide Spell, ReadOp, Apply, Spellable, At;
    if |instrs| == 0 {
      EndRead(data, pos, state, maxOutput);
    } else {
      var i := instrs[0];
      AtSplit(data, pos, Spell(i, state), SpellAll(instrs[1..], StateAfter(i)));
      InstrRead(data, pos, i, state, maxOutput);
      StreamRead(data, pos + |Spell(i, state)|, StateAfter(i), instrs[1..], Apply(out, i), expected, maxOutput);
    }
  }

  // ---- everything that is read was spelled --------------------------------

  lemma {:induction false} ExtensionSpelled(data: seq<byte>, pos: nat, acc: nat, maxOutput: nat)
    requires ReadExtension(data, pos, acc, maxOutput).Ok?
    ensures var (v, next) := ReadExtension(data, pos, acc, maxOutput).value;
      v > acc && At(data, pos, Extension(v - acc)) && next == pos + |Extension(v - acc)|
    decreases |data| - pos
  {
    assert data[pos..pos + 1] == [data[pos]];
    if data[pos] == 0 {
      ExtensionSpelled(data, pos + 1, acc + 255, maxOutput);
      var (v, next) := ReadExtension(data, pos, acc, maxOutput).value;
      AtJoin(data, pos, [0], Extension(v - acc - 255));
    }
  }

  lemma LengthSpelled(data: seq<byte>, pos: nat, field: nat, mask: nat, maxOutput: nat)
    requires field <= mask && pos <= |data| && ReadLength(data, pos, field, mask, maxOutput).Ok?
    ensures var (v, next) := ReadLength(data, pos, field, mask, maxOutput).value;
      && At(data, pos, LengthBytes(v, mask)) && next == pos + |LengthBytes(v, mask)|
      && LengthField(v, mask) == field
  {
    hide Extension;
    if field == 0 {
      ExtensionSpelled(data, pos, mask, maxOutput);
    }
  }

  lemma ByteSpelled(data: seq<byte>, pos: nat)
    requires pos < |data|
    ensures At(data, pos, [data[pos]])
  {
    assert data[pos..pos + 1] == [data[pos]];
  }

  lemma TwoBytesSpelled(data: seq<byte>, pos: nat, n: nat)
    requires pos + 2 + n <= |data|
    ensures At(data, pos, [data[pos], data[pos + 1]] + data[pos + 2..pos + 2 + n])
  {
    assert data[pos..pos + 2 + n] == [data[pos], data[pos + 1]] + data[pos + 2..pos + 2 + n];
  }

  lemma LongSpelled(data: seq<byte>, pos: nat, field: nat, mask: nat, n: nat, maxOutput: nat)
    requires pos < |data| && field <= mask && ReadLength(data, pos + 1, field, mask, maxOutput).Ok?
    requires var p := ReadLength(data, pos + 1, field, mask, maxOutput).value.1;
      ReadWord(data, p).Ok? && p + 2 + n <= |data|
    ensures var (v, p) := ReadLength(data, pos + 1, field, mask, maxOutput).value;
      var operand := ReadWord(data, p).value.0;
      var bytes := [data[pos]] + LengthBytes(v, mask) + Word(operand) + data[p + 2..p + 2 + n];
      && LengthField(v, mask) == field
      && At<byte>(data, pos, bytes) && p + 2 + n == pos + |bytes|
  {
    hide ReadLength, LengthBytes, LengthField;
    var (v, p) := ReadLength(data, pos + 1, field, mask, maxOutput).value;
    var operand := ReadWord(data, p).value.0;
    LengthSpelled(data, pos + 1, field, mask, maxOutput);
    ByteSpelled(data, pos);
    AtJoin(data, pos, [data[pos]], LengthBytes(v, mask));
    assert data[p..p + 2] == Word(operand);
    AtJoin(data, pos, [data[pos]] + LengthBytes(v, mask), Word(operand));
    AtJoin(data, pos, [data[pos]] + LengthBytes(v, mask) + Word(operand), data[p + 2..p + 2 + n]);
  }

  predicate Spelled(data: seq<byte>, pos: nat, state: nat, maxOutput: nat) {
    match ReadOp(data, pos, state, maxOutput)
    case Ok((Do(i), next)) =>
      Spellable(i, state) && At(data, pos, Spell(i, state)) && next == pos + |Spell(i, state)|
    case Ok((Stop(true), next)) => At(data, pos, END) && next == pos + 3
    case _ => true
  }

  lemma RunSpelled(data: seq<byte>, pos: nat, maxOutput: nat)
    requires pos < |data| && data[pos] < 16
    ensures Spelled(data, pos, 0, maxOutput)
  {
    hide ReadLength, LengthBytes, LengthField;
    if ReadOp(data, pos, 0, maxOutput).Ok? {
      LengthSpelled(data, pos + 1, data[pos], 15, maxOutput);
      var (n, p) := ReadLength(data, pos + 1, data[pos], 15, maxOutput).value;
      var literals := data[p..p + n + 3];
      ByteSpelled(data, pos);
      AtJoin(data, pos, [data[pos]], LengthBytes(n, 15));
      AtJoin(data, pos, [data[pos]] + LengthBytes(n, 15), literals);
    }
  }

  lemma NearSpelled(data: seq<byte>, pos: nat, state: nat, maxOutput: nat)
    requires pos < |data| && data[pos] < 16 && 1 <= state <= 4
    ensures Spelled(data, pos, state, maxOutput)
  {
    hide ReadLength, LengthBytes, LengthField, At;
    if ReadOp(data, pos, state, maxOutput).Ok? {
      var token: nat, b: nat := data[pos], data[pos + 1];
      assert (token / 4 + b * 4) % 4 == token / 4 && (token / 4 + b * 4) / 4 == b;
      assert token / 4 * 4 + token % 4 == token;
      TwoBytesSpelled(data, pos, token % 4);
    }
  }

  lemma ShortSpelled(data: seq<byte>, pos: nat, state: nat, maxOutput: nat)
    requires pos < |data| && data[pos] >= 64
    ensures Spelled(data, pos, state, maxOutput)
  {
    hide ReadLength, LengthBytes, LengthField, At;
    if ReadOp(data, pos, state, maxOutput).Ok? {
      var token: nat, b: nat := data[pos], data[pos + 1];
      assert (token / 4 % 8 + b * 8) % 8 == token / 4 % 8 && (token / 4 % 8 + b * 8) / 8 == b;
      assert token / 32 * 32 + token / 4 % 8 * 4 + token % 4 == token;
      TwoBytesSpelled(data, pos, token % 4);
    }
  }

  lemma MediumSpelled(data: seq<byte>, pos: nat, state: nat, maxOutput: nat)
    requires pos < |data| && 32 <= data[pos] < 64
    ensures Spelled(data, pos, state, maxOutput)
  {
    hide ReadLength, LengthBytes, LengthField, At;
    if ReadOp(data, pos, state, maxOutput).Ok? {
      var token: nat := data[pos];
      var (v, p) := ReadLength(data, pos + 1, token % 32, 31, maxOutput).value;
      var operand := ReadWord(data, p).value.0;
      assert operand / 4 * 4 + operand % 4 == operand;
      LongSpelled(data, pos, token % 32, 31, operand % 4, maxOutput);
    }
  }

  lemma FarSpelled(data: seq<byte>, pos: nat, state: nat, maxOutput: nat)
    requires pos < |data| && 16 <= data[pos] < 32
    ensures Spelled(data, pos, state, maxOutput)
  {
    hide ReadLength, LengthBytes, LengthField, At;
    if ReadOp(data, pos, state, maxOutput).Ok? {
      var token: nat := data[pos];
      var (v, p) := ReadLength(data, pos + 1, token % 8, 7, maxOutput).value;
      var operand := ReadWord(data, p).value.0;
      var e := token / 8 % 2 * 16384 + operand / 4;
      assert operand / 4 * 4 + operand % 4 == operand;
      assert e / 16384 == token / 8 % 2 && e % 16384 == operand / 4;
      assert 16 + token / 8 % 2 * 8 + token % 8 == token;
      if e == 0 {
        EndSpelled(data, pos, maxOutput);
      } else {
        LongSpelled(data, pos, token % 8, 7, operand % 4, maxOutput);
      }
    }
  }

  lemma EndSpelled(data: seq<byte>, pos: nat, maxOutput: nat)
    ensures pos < |data| && data[pos] == 17 && ReadWord(data, pos + 1) == Ok((0, pos + 3)) ==> At(data, pos, END)
    ensures pos < |data| && data[pos] == 17 ==>
            ReadLength(data, pos + 1, data[pos] % 8, 7, maxOutput) == Ok((1, pos + 1))
  {
    if pos < |data| && data[pos] == 17 && ReadWord(data, pos + 1) == Ok((0, pos + 3)) {
      assert data[pos..pos + 3] == [data[pos], data[pos + 1], data[pos + 2]];
    }
  }

  lemma OpSpelled(data: seq<byte>, pos: nat, state: nat, maxOutput: nat)
    requires state <= 4
    ensures Spelled(data, pos, state, maxOutput)
  {
    hide Spell, Spellable, At, ReadLength, ReadWord, ReadLiterals, ReadHead;
    if pos < |data| {
      if data[pos] < 16 && state == 0 {
        RunSpelled(data, pos, maxOutput);
      } else if data[pos] < 16 {
        NearSpelled(data, pos, state, maxOutput);
      } else if data[pos] < 32 {
        FarSpelled(data, pos, state, maxOutput);
      } else if data[pos] < 64 {
        MediumSpelled(data, pos, state, maxOutput);
      } else {
        ShortSpelled(data, pos, state, maxOutput);
      }
    }
  }

  /** Whatever decodes is the spelling of an instruction stream, and decodes to
      what that stream means. */
  lemma {:induction false} StreamSpelled(data: seq<byte>, pos: nat, state: nat, out: seq<byte>, expected: nat,
                                         maxOutput: nat) returns (instrs: seq<Instr>)
    requires state <= 4 && Decode(data, pos, state, out, expected, maxOutput).Ok?
    ensures AllSpellable(instrs, state) && AllApplicable(instrs, |out|)
    ensures At(data, pos, SpellAll(instrs, state)) && pos + |SpellAll(instrs, state)| == |data|
    ensures Decode(data, pos, state, out, expected, maxOutput) == Ok(ApplyAll(out, instrs))
    ensures |ApplyAll(out, instrs)| == expected
    decreases |data| - pos
  {
    hide Spell, ReadOp, Apply, Spellable, At;
    OpSpelled(data, pos, state, maxOutput);
    var (op, next) := ReadOp(data, pos, state, maxOutput).value;
    match op
    case Stop(_) => instrs := [];
    case Do(i) =>
      StateSmall(i, state);
      var rest := StreamSpelled(data, next, StateAfter(i), Apply(out, i), expected, maxOutput);
      instrs := [i] + rest;
      assert instrs[1..] == rest;
      AtJoin(data, pos, Spell(i, state), SpellAll(rest, StateAfter(i)));
  }

  lemma StateSmall(i: Instr, state: nat)
    requires Spellable(i, state)
    ensures StateAfter(i) <= 4
  {
  }
}
