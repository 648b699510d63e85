/** Frames and the incremental parser that cuts a byte stream into them. */
module Framing {
  import opened Results
  import opened Bits

  const HEADER_LEN: nat := 9
  const MAX_PAYLOAD: nat := 16 * 1024 * 1024

  datatype Frame = Frame(command: byte, sequence: u16, flags: u16, payload: seq<byte>) {

    predicate IsFinal() {
      flags / 2 % 2 == 1
    }

    predicate IsCompressed() {
      flags % 2 == 1
    }

    /** The header, whose size field is signed and 32 bits wide, and the payload. */
    function Pack(): (s: seq<byte>)
      ensures |s| == HEADER_LEN + |payload|
    {
      [command] + LE32(|payload|) + LE(sequence, 2) + LE(flags, 2) + payload
    }
  }

  function PackAll(frames: seq<Frame>): seq<byte> {
    if |frames| == 0 then [] else frames[0].Pack() + PackAll(frames[1..])
  }

  function SizeField(buffer: seq<byte>): i32
    requires |buffer| >= HEADER_LEN
  {
    FromLE32(buffer[1..5])
  }

  predicate BadHeader(buffer: seq<byte>, maxPayload: nat) {
    |buffer| >= HEADER_LEN && (SizeField(buffer) < 0 || SizeField(buffer) > maxPayload)
  }

  /** The start of a frame, and no more. */
  predicate Incomplete(buffer: seq<byte>, maxPayload: nat) {
    |buffer| < HEADER_LEN ||
    (!BadHeader(buffer, maxPayload) && |buffer| < HEADER_LEN + SizeField(buffer))
  }

  function FirstFrame(buffer: seq<byte>, maxPayload: nat): (f: Frame)
    requires !BadHeader(buffer, maxPayload) && !Incomplete(buffer, maxPayload)
    ensures |f.payload| == SizeField(buffer) <= maxPayload
  {
    FromLEBound(buffer[5..7]);
    FromLEBound(buffer[7..9]);
    assert Pow256(2) == 0x1_0000;
    Frame(buffer[0], FromLE(buffer[5..7]), FromLE(buffer[7..9]), buffer[HEADER_LEN..HEADER_LEN + SizeField(buffer)])
  }

  /** Take frames off the front until the buffer holds no whole frame. */
  function Parse(buffer: seq<byte>, maxPayload: nat, acc: seq<Frame>): Result<(seq<Frame>, seq<byte>)>
    decreases |buffer|
  {
    if BadHeader(buffer, maxPayload) then Err
    else if Incomplete(buffer, maxPayload) then Ok((acc, buffer))
    else Parse(buffer[HEADER_LEN + SizeField(buffer)..], maxPayload, acc + [FirstFrame(buffer, maxPayload)])
  }

  class FrameParser {
    const maxPayload: nat
    var buffer: seq<byte>

    constructor (maxPayload: nat)
      ensures this.maxPayload == maxPayload && buffer == []
    {
      this.maxPayload, buffer := maxPayload, [];
    }

    /** Every frame now complete. A bad header fails the call, drops the frames
        found before it in the same call, and leaves the buffer as it was fed. */
    method Feed(data: seq<byte>) returns (r: Result<seq<Frame>>)
      modifies `buffer
      ensures match Parse(old(buffer) + data, maxPayload, [])
              case Ok((frames, rest)) => r == Ok(frames) && buffer == rest
              case Err => r.Err? && buffer == old(buffer) + data
    {
      buffer := buffer + data;
      var frames := [];
      var consumed := 0;
      while |buffer| - consumed >= HEADER_LEN
        invariant consumed <= |buffer| && buffer == old(buffer) + data
        invariant Parse(buffer, maxPayload, []) == Parse(buffer[consumed..], maxPayload, frames)
        decreases |buffer| - consumed
      {
        var size := FromLE32(buffer[consumed + 1..consumed + 5]);
        assert buffer[consumed..][1..5] == buffer[consumed + 1..consumed + 5];
        if size < 0 || size > maxPayload {
          return Err;
        }
        var end := consumed + HEADER_LEN + size;
        if |buffer| < end {
          break;
        }
        var frame := FirstFrame(buffer[consumed..], maxPayload);
        frames := frames + [frame];
        assert buffer[consumed..][HEADER_LEN + size..] == buffer[end..];
        consumed := end;
      }
      buffer := buffer[consumed..];
      return Ok(frames);
    }

    method Finish() returns (r: Result<()>)
      ensures r.Ok? <==> buffer == []
    {
      return if |buffer| > 0 then Err else Ok(());
    }
  }

  // ---- frames and bytes ---------------------------------------------------

  /** The frame's payload is within the parser's limit and its signed size field. */
  predicate Fits(f: Frame, maxPayload: nat) {
    |f.payload| <= maxPayload && |f.payload| < 0x8000_0000
  }

  /** A packed frame is the first frame of any stream it starts. */
  lemma PackParses(f: Frame, more: seq<byte>, maxPayload: nat)
    requires Fits(f, maxPayload)
    ensures var b := f.Pack() + more;
      && !BadHeader(b, maxPayload) && !Incomplete(b, maxPayload)
      && FirstFrame(b, maxPayload) == f && b[HEADER_LEN + SizeField(b)..] == more
  {
    hide LE, FromLE, FromLE32, LE32;
    var b := f.Pack() + more;
    assert b[1..5] == LE32(|f.payload|) && b[5..7] == LE(f.sequence, 2) && b[7..9] == LE(f.flags, 2);
    LE32RoundTrip(|f.payload|);
    WordRoundTrip(f.sequence);
    WordRoundTrip(f.flags);
  }

  lemma WordRoundTrip(v: u16)
    ensures FromLE(LE(v, 2)) == v
  {
    assert Pow256(2) == 0x1_0000;
    LERoundTrip(v, 2);
  }

  /** A buffer that holds a whole frame starts with that frame's packing. */
  lemma ParsePacks(buffer: seq<byte>, maxPayload: nat)
    requires !BadHeader(buffer, maxPayload) && !Incomplete(buffer, maxPayload)
    ensures var f := FirstFrame(buffer, maxPayload);
      Fits(f, maxPayload) && buffer == f.Pack() + buffer[HEADER_LEN + SizeField(buffer)..]
  {
    hide LE, FromLE, FromLE32, LE32;
    LE32Injective(buffer[1..5]);
    FromLEInjective(buffer[5..7]);
    FromLEInjective(buffer[7..9]);
  }

  lemma {:induction false} ParsePacked(frames: seq<Frame>, rest: seq<byte>, maxPayload: nat, acc: seq<Frame>)
    requires forall f :: f in frames ==> Fits(f, maxPayload)
    ensures Parse(PackAll(frames) + rest, maxPayload, acc) == Parse(rest, maxPayload, acc + frames)
    decreases |frames|
  {
    hide BadHeader, Incomplete;
    if |frames| == 0 {
      assert PackAll(frames) + rest == rest && acc + frames == acc;
    } else {
      assert PackAll(frames) + rest == frames[0].Pack() + (PackAll(frames[1..]) + rest);
      PackParses(frames[0], PackAll(frames[1..]) + rest, maxPayload);
      ParsePacked(frames[1..], rest, maxPayload, acc + [frames[0]]);
      assert acc + [frames[0]] + frames[1..] == acc + frames;
    }
  }

  lemma {:induction false} ParseFinds(buffer: seq<byte>, maxPayload: nat, acc: seq<Frame>)
    returns (frames: seq<Frame>, rest: seq<byte>)
    ensures buffer == PackAll(frames) + rest && forall f :: f in frames ==> Fits(f, maxPayload)
    ensures BadHeader(rest, maxPayload) || Incomplete(rest, maxPayload)
    ensures Parse(buffer, maxPayload, acc) == if BadHeader(rest, maxPayload) then Err else Ok((acc + frames, rest))
    decreases |buffer|
  {
    hide BadHeader, Incomplete, FirstFrame;
    if BadHeader(buffer, maxPayload) || Incomplete(buffer, maxPayload) {
      frames, rest := [], buffer;
      assert acc + frames == acc && PackAll(frames) + rest == rest;
    } else {
      ParsePacks(buffer, maxPayload);
      var f := FirstFrame(buffer, maxPayload);
      var more := buffer[HEADER_LEN + SizeField(buffer)..];
      var fs, r := ParseFinds(more, maxPayload, acc + [f]);
      frames, rest := [f] + fs, r;
      assert acc + [f] + fs == acc + frames && f.Pack() + (PackAll(fs) + r) == PackAll(frames) + rest;
    }
  }

  /** A stream parses to `frames` and a leftover exactly when it is their packing
      followed by an incomplete frame: parsing loses nothing, invents nothing and
      leaves no whole frame behind. */
  lemma ParsesExactly(buffer: seq<byte>, maxPayload: nat, frames: seq<Frame>, rest: seq<byte>)
    ensures Parse(buffer, maxPayload, []) == Ok((frames, rest)) <==>
            buffer == PackAll(frames) + rest && Incomplete(rest, maxPayload)
            && forall f :: f in frames ==> Fits(f, maxPayload)
  {
    hide BadHeader, Incomplete, FirstFrame, PackAll;
    if Parse(buffer, maxPayload, []) == Ok((frames, rest)) {
      var fs, r := ParseFinds(buffer, maxPayload, []);
      assert [] + fs == fs;
    }
    if buffer == PackAll(frames) + rest && Incomplete(rest, maxPayload)
       && forall f :: f in frames ==> Fits(f, maxPayload) {
      ParsePacked(frames, rest, maxPayload, []);
      IncompleteIsNotBad(rest, maxPayload);
      assert [] + frames == frames;
    }
  }

  lemma IncompleteIsNotBad(buffer: seq<byte>, maxPayload: nat)
    requires Incomplete(buffer, maxPayload)
    ensures !BadHeader(buffer, maxPayload)
  {
  }

  // ---- chunking -----------------------------------------------------------

  function Flat(chunks: seq<seq<byte>>): seq<byte> {
    if |chunks| == 0 then [] else chunks[0] + Flat(chunks[1..])
  }

  /** Feeding chunk after chunk, until one call fails. */
  function FeedAll(buffer: seq<byte>, chunks: seq<seq<byte>>, maxPayload: nat, acc: seq<Frame>):
    Result<(seq<Frame>, seq<byte>)>
    decreases |chunks|
  {
    if |chunks| == 0 then Ok((acc, buffer)) else
    var (frames, rest) :- Parse(buffer + chunks[0], maxPayload, []);
    FeedAll(rest, chunks[1..], maxPayload, acc + frames)
  }

  lemma {:induction false} ParseAccumulates(buffer: seq<byte>, maxPayload: nat, acc: seq<Frame>)
    ensures Parse(buffer, maxPayload, acc) ==
            match Parse(buffer, maxPayload, [])
            case Ok((frames, rest)) => Ok((acc + frames, rest))
            case Err => Err
  {
    hide BadHeader, Incomplete, FirstFrame, PackAll, Parse;
    var fs, r := ParseFinds(buffer, maxPayload, acc);
    ParsePacked(fs, r, maxPayload, []);
    ParseStops(r, maxPayload, [] + fs);
    assert [] + fs == fs;
  }

  lemma ParseStops(buffer: seq<byte>, maxPayload: nat, acc: seq<Frame>)
    ensures BadHeader(buffer, maxPayload) ==> Parse(buffer, maxPayload, acc).Err?
    ensures Incomplete(buffer, maxPayload) ==> Parse(buffer, maxPayload, acc) == Ok((acc, buffer))
  {
  }

  /** More bytes never change what was found before them. */
  lemma ParseExtends(a: seq<byte>, b: seq<byte>, maxPayload: nat, acc: seq<Frame>)
    ensures Parse(a + b, maxPayload, acc) ==
            match Parse(a, maxPayload, acc)
            case Ok((frames, rest)) => Parse(rest + b, maxPayload, frames)
            case Err => Err
  {
    hide BadHeader, Incomplete, FirstFrame, PackAll, Parse;
    var fs, r := ParseFinds(a, maxPayload, acc);
    assert a + b == PackAll(fs) + (r + b);
    ParsePacked(fs, r + b, maxPayload, acc);
    if BadHeader(r, maxPayload) {
      BadStaysBad(r, b, maxPayload);
    }
    ParseStops(r + b, maxPayload, acc + fs);
  }

  lemma BadStaysBad(a: seq<byte>, b: seq<byte>, maxPayload: nat)
    requires BadHeader(a, maxPayload)
    ensures BadHeader(a + b, maxPayload)
  {
    assert (a + b)[1..5] == a[1..5];
  }

  /** Parsing does not depend on how the stream is cut: feeding any chunks is
      parsing their concatenation, in failure, in frames and in the leftover. */
  lemma {:induction false} ChunkingIrrelevant(buffer: seq<byte>, chunks: seq<seq<byte>>, maxPayload: nat,
                                              acc: seq<Frame>)
    requires Incomplete(buffer, maxPayload)
    ensures FeedAll(buffer, chunks, maxPayload, acc) == Parse(buffer + Flat(chunks), maxPayload, acc)
    decreases |chunks|
  {
    hide BadHeader, Incomplete, FirstFrame, PackAll, Parse;
    if |chunks| == 0 {
      assert buffer + Flat(chunks) == buffer;
      ParseStops(buffer, maxPayload, acc);
    } else {
      var fed := buffer + chunks[0];
      assert buffer + Flat(chunks) == fed + Flat(chunks[1..]);
      ParseExtends(fed, Flat(chunks[1..]), maxPayload, acc);
      ParseAccumulates(fed, maxPayload, acc);
      if Parse(fed, maxPayload, []).Ok? {
        var (frames, rest) := Parse(fed, maxPayload, []).value;
        ParsesExactly(fed, maxPayload, frames, rest);
        ChunkingIrrelevant(rest, chunks[1..], maxPayload, acc + frames);
      }
    }
  }

  // ---- what a failing call loses ------------------------------------------

  /** The stream is whole frames up to a bad header. */
  predicate Breaks(buffer: seq<byte>, maxPayload: nat, frames: seq<Frame>, rest: seq<byte>) {
    buffer == PackAll(frames) + rest && BadHeader(rest, maxPayload) && forall f :: f in frames ==> Fits(f, maxPayload)
  }

  /** Parsing fails if and only if the stream is whole frames up to a bad header. */
  lemma FailsExactly(buffer: seq<byte>, maxPayload: nat)
    ensures Parse(buffer, maxPayload, []).Err? <==> exists frames, rest :: Breaks(buffer, maxPayload, frames, rest)
  {
    hide BadHeader, Incomplete, FirstFrame, PackAll, Parse;
    if Parse(buffer, maxPayload, []).Err? {
      var frames, rest := ParseFinds(buffer, maxPayload, []);
      assert Breaks(buffer, maxPayload, frames, rest);
    }
    if exists frames, rest :: Breaks(buffer, maxPayload, frames, rest) {
      var frames, rest :| Breaks(buffer, maxPayload, frames, rest);
      ParsePacked(frames, rest, maxPayload, []);
      ParseStops(rest, maxPayload, [] + frames);
    }
  }

  /** The whole frames of a stream, up to a partial one or a bad header. */
  function WholeFrames(buffer: seq<byte>, maxPayload: nat): seq<Frame>
    decreases |buffer|
  {
    if BadHeader(buffer, maxPayload) || Incomplete(buffer, maxPayload) then []
    else [FirstFrame(buffer, maxPayload)] + WholeFrames(buffer[HEADER_LEN + SizeField(buffer)..], maxPayload)
  }

  lemma {:induction false} WholePacked(frames: seq<Frame>, rest: seq<byte>, maxPayload: nat)
    requires forall f :: f in frames ==> Fits(f, maxPayload)
    ensures WholeFrames(PackAll(frames) + rest, maxPayload) == frames + WholeFrames(rest, maxPayload)
    decreases |frames|
  {
    hide BadHeader, Incomplete, FirstFrame, WholeFrames, Frame.Pack;
    if |frames| == 0 {
      assert PackAll(frames) + rest == rest && frames + WholeFrames(rest, maxPayload) == WholeFrames(rest, maxPayload);
    } else {
      var more := PackAll(frames[1..]) + rest;
      assert PackAll(frames) + rest == frames[0].Pack() + more;
      FirstWhole(frames[0], more, maxPayload);
      WholePacked(frames[1..], rest, maxPayload);
      assert [frames[0]] + (frames[1..] + WholeFrames(rest, maxPayload)) == frames + WholeFrames(rest, maxPayload);
    }
  }

  lemma FirstWhole(f: Frame, more: seq<byte>, maxPayload: nat)
    requires Fits(f, maxPayload)
    ensures WholeFrames(f.Pack() + more, maxPayload) == [f] + WholeFrames(more, maxPayload)
  {
    hide BadHeader, Incomplete, FirstFrame, Frame.Pack;
    PackParses(f, more, maxPayload);
  }

  /** The frames a caller gets from feeding chunk after chunk until one call fails. */
  function FramesFrom(buffer: seq<byte>, chunks: seq<seq<byte>>, maxPayload: nat, acc: seq<Frame>): seq<Frame>
    decreases |chunks|
  {
    if |chunks| == 0 then acc else
    match Parse(buffer + chunks[0], maxPayload, [])
    case Err => acc
    case Ok((frames, rest)) => FramesFrom(rest, chunks[1..], maxPayload, acc + frames)
  }

  /** However the stream is cut, what is delivered is a beginning of its whole
      frames: none is invented, reordered or changed. */
  lemma {:induction false} CutFramesArePrefix(buffer: seq<byte>, chunks: seq<seq<byte>>, maxPayload: nat,
                                              acc: seq<Frame>)
    requires Incomplete(buffer, maxPayload)
    ensures FramesFrom(buffer, chunks, maxPayload, acc) <= acc + WholeFrames(buffer + Flat(chunks), maxPayload)
    decreases |chunks|
  {
    hide BadHeader, Incomplete, FirstFrame, PackAll, Parse, WholeFrames;
    if |chunks| > 0 {
      var fed, later := buffer + chunks[0], Flat(chunks[1..]);
      assert buffer + Flat(chunks) == fed + later;
      if Parse(fed, maxPayload, []).Ok? {
        var (frames, rest) := Parse(fed, maxPayload, []).value;
        ParsesExactly(fed, maxPayload, frames, rest);
        CutFramesArePrefix(rest, chunks[1..], maxPayload, acc + frames);
        assert fed + later == PackAll(frames) + (rest + later);
        WholePacked(frames, rest + later, maxPayload);
        assert acc + frames + WholeFrames(rest + later, maxPayload) ==
               acc + (frames + WholeFrames(rest + later, maxPayload));
      }
    }
  }

  /** A call that fails delivers nothing. Cut elsewhere, the same bytes deliver every
      whole frame before the bad header. So the failing call loses frames if and
      only if what it parses does not start with the bad header. */
  lemma FailedCallLoses(buffer: seq<byte>, data: seq<byte>, maxPayload: nat) returns (cut: nat)
    requires Incomplete(buffer, maxPayload) && Parse(buffer + data, maxPayload, []).Err?
    ensures cut <= |data| && FramesFrom(buffer, [data], maxPayload, []) == []
    ensures FramesFrom(buffer, [data[..cut], data[cut..]], maxPayload, []) == WholeFrames(buffer + data, maxPayload)
    ensures (exists chunks :: Flat(chunks) == data && FramesFrom(buffer, chunks, maxPayload, []) != []) <==>
            !BadHeader(buffer + data, maxPayload)
  {
    hide BadHeader, Incomplete, FirstFrame, PackAll, Parse, WholeFrames;
    var frames, rest := ParseFinds(buffer + data, maxPayload, []);
    WholePacked(frames, rest, maxPayload);
    ParseStops(rest, maxPayload, []);
    NoWholeFrames(rest, maxPayload);
    assert frames + [] == frames;
    SomeWholeFrames(buffer + data, maxPayload);
    cut := CutBefore(buffer, data, maxPayload, frames, rest);
    var two := [data[..cut], data[cut..]];
    assert two[1..] == [data[cut..]];
    FlatTwo(data[..cut], data[cut..]);
    assert data[..cut] + data[cut..] == data;
    TwoCalls(buffer, data, maxPayload, frames, cut, rest);
    forall chunks | Flat(chunks) == data
      ensures FramesFrom(buffer, chunks, maxPayload, []) <= WholeFrames(buffer + data, maxPayload)
    {
      CutFramesArePrefix(buffer, chunks, maxPayload, []);
      assert [] + WholeFrames(buffer + data, maxPayload) == WholeFrames(buffer + data, maxPayload);
    }
  }

  lemma FlatTwo(a: seq<byte>, b: seq<byte>)
    ensures Flat([a, b]) == a + b
  {
    assert [a, b][1..] == [b] && [b][1..] == [];
    assert Flat([b]) == b + [] == b;
  }

  lemma NoWholeFrames(rest: seq<byte>, maxPayload: nat)
    requires BadHeader(rest, maxPayload) || Incomplete(rest, maxPayload)
    ensures WholeFrames(rest, maxPayload) == []
  {
  }

  lemma SomeWholeFrames(buffer: seq<byte>, maxPayload: nat)
    requires Parse(buffer, maxPayload, []).Err?
    ensures WholeFrames(buffer, maxPayload) != [] <==> !BadHeader(buffer, maxPayload)
  {
  }

  // The whole frames end after the bytes that were already waiting.
  lemma CutBefore(buffer: seq<byte>, data: seq<byte>, maxPayload: nat, frames: seq<Frame>, rest: seq<byte>)
    returns (cut: nat)
    requires Incomplete(buffer, maxPayload) && buffer + data == PackAll(frames) + rest
    requires forall f :: f in frames ==> Fits(f, maxPayload)
    ensures cut <= |data|
    ensures frames != [] ==> buffer + data[..cut] == PackAll(frames) && data[cut..] == rest
    ensures frames == [] ==> cut == 0
  {
    hide BadHeader, Incomplete, FirstFrame;
    var whole := PackAll(frames);
    if |frames| == 0 {
      cut := 0;
    } else {
      if |buffer| > |whole| {
        var more := buffer[|frames[0].Pack()|..];
        assert buffer == (buffer + data)[..|buffer|] && frames[0].Pack() == (buffer + data)[..|frames[0].Pack()|];
        assert buffer == frames[0].Pack() + more;
        PackParses(frames[0], more, maxPayload);
        assert false;
      }
      cut := |whole| - |buffer|;
      assert (buffer + data)[..|whole|] == buffer + data[..cut];
      assert (buffer + data)[|whole|..] == data[cut..];
    }
  }

  lemma TwoCalls(buffer: seq<byte>, data: seq<byte>, maxPayload: nat, frames: seq<Frame>, cut: nat, rest: seq<byte>)
    requires cut <= |data| && Incomplete(buffer, maxPayload) && Parse(buffer + data, maxPayload, []).Err?
    requires forall f :: f in frames ==> Fits(f, maxPayload)
    requires frames != [] ==> buffer + data[..cut] == PackAll(frames) && data[cut..] == rest
    requires frames == [] ==> cut == 0
    requires Parse(rest, maxPayload, []).Err?
    ensures FramesFrom(buffer, [data[..cut], data[cut..]], maxPayload, []) == frames
    ensures FramesFrom(buffer, [data], maxPayload, []) == []
  {
    hide BadHeader, Incomplete, FirstFrame, PackAll, Parse;
    var two := [data[..cut], data[cut..]];
    assert two[1..] == [data[cut..]];
    EmptyIncomplete(maxPayload);
    assert [] + frames == frames && [] + rest == rest;
    if frames != [] {
      assert PackAll(frames) == PackAll(frames) + [];
      ParsesExactly(buffer + data[..cut], maxPayload, frames, []);
    } else {
      assert buffer + data[..0] == buffer && data[0..] == data;
      ParseStops(buffer, maxPayload, []);
    }
  }

  lemma EmptyIncomplete(maxPayload: nat)
    ensures Incomplete([], maxPayload)
  {
  }

  /** An input: a whole frame and then a header with size -1. In one call the frame
      is lost; in two calls it is delivered. */
  lemma CuttingMatters()
    ensures var f := Frame(0, 1, 2, []);
      var bad := [0, 0xFF, 0xFF, 0xFF, 0xFF, 0, 0, 0, 0];
      && FramesFrom([], [f.Pack() + bad], MAX_PAYLOAD, []) == []
      && FramesFrom([], [f.Pack(), bad], MAX_PAYLOAD, []) == [f]
  {
    hide FirstFrame, LE, LE32;
    var f: Frame := Frame(0, 1, 2, []);
    var bad: seq<byte> := [0, 0xFF, 0xFF, 0xFF, 0xFF, 0, 0, 0, 0];
    MinusOne();
    assert bad[1..5] == [0xFF, 0xFF, 0xFF, 0xFF];
    assert BadHeader(bad, MAX_PAYLOAD);
    OneFrame(f, bad, MAX_PAYLOAD);
  }

  lemma MinusOne()
    ensures FromLE32([0xFF, 0xFF, 0xFF, 0xFF]) == -1
  {
    var s: seq<byte> := [0xFF, 0xFF, 0xFF, 0xFF];
    assert s[1..] == [0xFF, 0xFF, 0xFF] && s[1..][1..] == [0xFF, 0xFF] && s[1..][1..][1..] == [0xFF];
    assert FromLE([0xFF]) == 0xFF && FromLE([0xFF, 0xFF]) == 0xFFFF && FromLE([0xFF, 0xFF, 0xFF]) == 0xFF_FFFF;
  }

  lemma OneFrame(f: Frame, bad: seq<byte>, maxPayload: nat)
    requires Fits(f, maxPayload) && BadHeader(bad, maxPayload)
    ensures FramesFrom([], [f.Pack() + bad], maxPayload, []) == []
    ensures FramesFrom([], [f.Pack(), bad], maxPayload, []) == [f]
  {
    hide BadHeader, Incomplete, FirstFrame, Parse, Frame.Pack;
    var data := f.Pack() + bad;
    assert PackAll([f]) == f.Pack() + [] == f.Pack() by { assert [f][1..] == []; }
    assert [] + data == PackAll([f]) + bad && [] + data[..|f.Pack()|] == PackAll([f]);
    ParsePacked([f], bad, maxPayload, []);
    ParseStops(bad, maxPayload, [] + [f]);
    ParseStops(bad, maxPayload, []);
    EmptyIncomplete(maxPayload);
    TwoCalls([], data, maxPayload, [f], |f.Pack()|, bad);
    assert data[..|f.Pack()|] == f.Pack() && data[|f.Pack()|..] == bad;
  }
}
