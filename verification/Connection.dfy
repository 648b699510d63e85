/** The framed connection: a parser over the socket, a queue of parsed frames and
    the sequence counter. */
module Connection {
  import opened Results
  import opened Bits
  import opened Framing
  import opened Delivery

  /** What has gone out, the next sequence number, and which of the coming writes
      succeed (all of them, once the list is used up). */
  datatype Outward = Outward(sequence: u16, sent: seq<Frame>, writes: seq<bool>)

  /** Sequence numbers run up to 65535 and then restart at 1. */
  function Following(sequence: u16): (next: u16)
    ensures next >= 1
  {
    if sequence == 0xFFFF then 1 else sequence + 1
  }

  function Take(out: Outward): Outward {
    out.(sequence := Following(out.sequence))
  }

  /** A write that fails may have sent part of the frame: none of it counts as sent. */
  function Written(out: Outward, frame: Frame): (bool, Outward) {
    if |out.writes| == 0 then (true, out.(sent := out.sent + [frame]))
    else (out.writes[0], Outward(out.sequence, if out.writes[0] then out.sent + [frame] else out.sent, out.writes[1..]))
  }

  class Link {
    const parser: FrameParser
    var pending: seq<Frame>
    var sequence: u16
    // The socket: what it will deliver, what it will do with writes, what it took.
    var incoming: seq<Read>
    var writes: seq<bool>
    var sent: seq<Frame>

    ghost predicate Valid() {
      parser.maxPayload == WIRE_LIMIT
    }

    ghost function NetView(): Net
      reads this, parser
    {
      Net(parser.buffer, pending, incoming)
    }

    ghost function OutView(): Outward
      reads this
    {
      Outward(sequence, sent, writes)
    }

    constructor (incoming: seq<Read>, writes: seq<bool>)
      ensures Valid() && fresh(parser)
      ensures NetView() == Net([], [], incoming) && OutView() == Outward(1, [], writes)
    {
      parser := new FrameParser(WIRE_LIMIT);
      pending, sequence := [], 1;
      this.incoming, this.writes, sent := incoming, writes, [];
    }

    method NextSequence() returns (current: u16)
      modifies `sequence
      ensures current == old(sequence) && OutView() == Take(old(OutView()))
    {
      current := sequence;
      var next := (current + 1) % 0x1_0000;
      sequence := if next < 1 then 1 else next;
    }

    method Send(frame: Frame) returns (r: Result<()>)
      modifies `writes, `sent
      ensures (r.Ok?, OutView()) == Written(old(OutView()), frame)
    {
      if |writes| > 0 {
        var ok := writes[0];
        writes := writes[1..];
        if !ok {
          return Err;
        }
      }
      sent := sent + [frame];
      return Ok(());
    }

    /** `None` when the deadline passes; bytes and frames already received stay. */
    method PollFrame() returns (r: Result<Option<Frame>>)
      requires Valid()
      modifies `pending, `incoming, parser`buffer
      ensures match NextFrame(old(NetView()))
              case Ok((frame, after)) => r == Ok(frame) && NetView() == after
              case Err => r.Err?
    {
      hide Parse;
      while true
        invariant NextFrame(old(NetView())) == NextFrame(NetView())
        decreases |incoming|
      {
        if |pending| > 0 {
          var frame := pending[0];
          pending := pending[1..];
          return Ok(Some(frame));
        }
        if |incoming| == 0 {
          return Ok(None);
        }
        var read := incoming[0];
        incoming := incoming[1..];
        match read
        case Broken => return Err;
        case Quiet => return Ok(None);
        case Data(bytes) =>
          if |bytes| == 0 {
            return Err;
          }
          var frames :- parser.Feed(bytes);
          pending := pending + frames;
          assert [] + frames == frames;
      }
    }
  }

  // ---- sequence numbers ---------------------------------------------------

  function SequenceAfter(start: u16, n: nat): u16 {
    if n == 0 then start else Following(SequenceAfter(start, n - 1))
  }

  /** From the first sequence number on, the `n`-th request gets `n` modulo
      65535, never 0, so a number comes back only after 65535 requests. */
  lemma {:induction false} SequencesCount(n: nat)
    ensures SequenceAfter(1, n) == n % 0xFFFF + 1
  {
    if n > 0 {
      SequencesCount(n - 1);
      assert (n - 1) % 0xFFFF == 0xFFFE ==> n % 0xFFFF == 0;
      assert (n - 1) % 0xFFFF < 0xFFFE ==> n % 0xFFFF == (n - 1) % 0xFFFF + 1;
    }
  }
}
