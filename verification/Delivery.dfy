/** What a ready session does to the bytes it receives, as functions on values:
    frames are cut, deciphered, decompressed, joined into messages, and account
    updates are checked and applied. */
module Delivery {
  import opened Results
  import opened Bits
  import opened Framing
  import opened Cipher
  import opened Compression
  import opened Account
  import R = Reassembly

  /** The receiving half of a ready session. */
  datatype RxState = RxState(cipher: CipherState, account: AccountState, readOnly: bool, pending: R.Pending)

  predicate IsAccountUpdate(m: R.Message) {
    m.command == 55 && |m.payload| > 0 && m.payload[0] == 19
  }

  /** Read-only is sticky: an update can set it, none can clear it. */
  function ApplyUpdates(account: AccountState, readOnly: bool, updates: seq<AccountState>): (AccountState, bool)
    decreases |updates|
  {
    if |updates| == 0 then (account, readOnly)
    else ApplyUpdates(updates[0], readOnly || updates[0].IsReadOnly(), updates[1..])
  }

  /** Updates of one login keep that login, and never lift the restriction. */
  lemma {:induction false} UpdatesKeep(account: AccountState, readOnly: bool, updates: seq<AccountState>)
    requires forall u :: u in updates ==> u.login == account.login
    ensures var (latest, restricted) := ApplyUpdates(account, readOnly, updates);
      latest.login == account.login && (readOnly ==> restricted)
    decreases |updates|
  {
    if |updates| > 0 {
      UpdatesKeep(updates[0], readOnly || updates[0].IsReadOnly(), updates[1..]);
    }
  }

  /** The account is the last update, or unchanged when there is none; the session is
      restricted exactly when it was, or some update has trade flag bit 3 set. */
  lemma {:induction false} UpdatesMean(account: AccountState, readOnly: bool, updates: seq<AccountState>)
    ensures var (latest, restricted) := ApplyUpdates(account, readOnly, updates);
      && latest == (if |updates| == 0 then account else updates[|updates| - 1])
      && (restricted <==> readOnly || exists u :: u in updates && u.tradeFlags % 16 >= 8)
    decreases |updates|
  {
    if |updates| > 0 {
      UpdatesMean(updates[0], readOnly || updates[0].IsReadOnly(), updates[1..]);
      assert updates[0] in updates && forall u :: u in updates[1..] ==> u in updates;
      assert forall u :: u in updates ==> u == updates[0] || u in updates[1..];
    }
  }

  /** A message takes effect on the account only when every record in it carries
      the account's own login. */
  function Observe(st: RxState, m: R.Message): Result<RxState> {
    if !IsAccountUpdate(m) then Ok(st) else
    var updates :- AccountUpdates(m.payload);
    if exists u :: u in updates && u.login != st.account.login then Err else
    var (account, readOnly) := ApplyUpdates(st.account, st.readOnly, updates);
    Ok(st.(account := account, readOnly := readOnly))
  }

  /** A deciphered and decompressed fragment reaches the reassembler. */
  function Accept(st: RxState, f: R.Fragment): Result<(Option<R.Message>, RxState)> {
    var (message, pending) :- R.PushResult(st.pending, f, R.MAX_MESSAGE, R.MAX_PENDING);
    var held := st.(pending := pending);
    match message
    case None => Ok((None, held))
    case Some(m) =>
      var seen :- Observe(held, m);
      Ok((Some(m), seen))
  }

  function Plain(frame: Frame, deciphered: seq<byte>): Result<seq<byte>> {
    if frame.IsCompressed() then UnwrapPayload(deciphered, MAX_MESSAGE) else Ok(deciphered)
  }

  function Receive(key: seq<byte>, st: RxState, frame: Frame): Result<(Option<R.Message>, RxState)>
    requires |key| > 0
  {
    var deciphered := Decrypted(key, st.cipher, frame.payload);
    var plain :- Plain(frame, deciphered);
    Accept(st.(cipher := Advance(st.cipher, deciphered)),
           R.Fragment(frame.command, frame.sequence, frame.IsFinal(), plain))
  }

  function Delivered(acc: seq<R.Message>, message: Option<R.Message>): seq<R.Message> {
    if message.Some? then acc + [message.value] else acc
  }

  function ReceiveAll(key: seq<byte>, st: RxState, frames: seq<Frame>, acc: seq<R.Message>):
    Result<(seq<R.Message>, RxState)>
    requires |key| > 0
    decreases |frames|
  {
    if |frames| == 0 then Ok((acc, st)) else
    var (message, next) :- Receive(key, st, frames[0]);
    ReceiveAll(key, next, frames[1..], Delivered(acc, message))
  }

  // ---- what received messages do to the account ---------------------------

  /** The account records in a message: those of an account update, in order. */
  function RecordsOf(m: R.Message): seq<AccountState> {
    if m.command == 55 && |m.payload| > 0 && m.payload[0] == 19
    then (match AccountUpdates(m.payload) case Ok(updates) => updates case Err => [])
    else []
  }

  function RecordsIn(messages: seq<R.Message>): seq<AccountState> {
    if |messages| == 0 then [] else RecordsIn(messages[..|messages| - 1]) + RecordsOf(messages[|messages| - 1])
  }

  /** From `a` to `b` exactly these records have taken effect: all are of the session's
      own login, the account is the last of them, and the session is restricted
      exactly when it was before or one of them is restricted. */
  predicate Reflects(a: RxState, b: RxState, records: seq<AccountState>) {
    && (forall u :: u in records ==> u.login == a.account.login)
    && b.account == (if |records| == 0 then a.account else records[|records| - 1])
    && (b.readOnly <==> a.readOnly || exists u :: u in records && u.tradeFlags % 16 >= 8)
  }

  lemma ReflectsOn(a: RxState, b: RxState, c: RxState, first: seq<AccountState>, later: seq<AccountState>)
    requires Reflects(a, b, first) && Reflects(b, c, later)
    ensures Reflects(a, c, first + later)
  {
    assert |first| > 0 ==> first[|first| - 1] in first;
    assert forall u :: u in first + later <==> u in first || u in later;
  }

  lemma ReflectsNone(a: RxState)
    ensures Reflects(a, a, [])
  {
  }

  lemma RecordsMore(messages: seq<R.Message>, message: Option<R.Message>)
    ensures RecordsIn(Delivered(messages, message)) ==
            RecordsIn(messages) + if message.Some? then RecordsOf(message.value) else []
  {
    hide RecordsOf;
    if message.Some? {
      assert (messages + [message.value])[..|messages|] == messages;
    } else {
      assert RecordsIn(messages) + [] == RecordsIn(messages);
    }
  }

  lemma ReceiveReflects(key: seq<byte>, st: RxState, frame: Frame)
    requires |key| > 0
    ensures match Receive(key, st, frame)
      case Ok((message, next)) =>
        Reflects(st, next, if message.Some? then RecordsOf(message.value) else [])
      case Err => true
  {
    hide Decrypted, Advance, Plain, R.PushResult, AccountUpdates, ApplyUpdates;
    var received := Receive(key, st, frame);
    if received.Ok? && received.value.0.Some? && IsAccountUpdate(received.value.0.value) {
      UpdatesMean(st.account, st.readOnly, AccountUpdates(received.value.0.value.payload).value);
    }
  }

  lemma {:induction false} ReceiveAllReflects(key: seq<byte>, start: RxState, st: RxState, frames: seq<Frame>,
                                              acc: seq<R.Message>)
    requires |key| > 0 && Reflects(start, st, RecordsIn(acc))
    ensures match ReceiveAll(key, st, frames, acc)
      case Ok((messages, end)) => Reflects(start, end, RecordsIn(messages))
      case Err => true
    decreases |frames|
  {
    hide Receive, Reflects, RecordsOf, RecordsIn;
    if |frames| > 0 && Receive(key, st, frames[0]).Ok? {
      var (message, next) := Receive(key, st, frames[0]).value;
      var records := if message.Some? then RecordsOf(message.value) else [];
      ReceiveReflects(key, st, frames[0]);
      ReflectsOn(start, st, next, RecordsIn(acc), records);
      RecordsMore(acc, message);
      ReceiveAllReflects(key, start, next, frames[1..], Delivered(acc, message));
    }
  }

  /** Whatever a stream of frames holds, if it is received then the account records of
      the delivered messages, and nothing else, have taken effect. */
  lemma StreamReflects(key: seq<byte>, st: RxState, frames: seq<Frame>)
    requires |key| > 0
    ensures match ReceiveAll(key, st, frames, [])
      case Ok((messages, end)) => Reflects(st, end, RecordsIn(messages))
      case Err => true
  {
    hide Reflects, ReceiveAll;
    ReflectsNone(st);
    ReceiveAllReflects(key, st, st, frames, []);
  }

  // ---- the connection -----------------------------------------------------

  const WIRE_LIMIT: nat := 4 * 1024 * 1024

  /** One read of the socket: some bytes, a deadline that passes with none, or
      the end of the connection. */
  datatype Read = Data(bytes: seq<byte>) | Quiet | Broken

  /** The parser's leftover bytes, parsed frames not yet taken, and the reads
      still to come. */
  datatype Net = Net(buffer: seq<byte>, queue: seq<Frame>, incoming: seq<Read>)

  /** Take the next frame, reading as needed; `None` when the deadline passes. A
      network with no more reads stays quiet. */
  function NextFrame(net: Net): (r: Result<(Option<Frame>, Net)>)
    ensures r.Ok? ==>
      var (frame, after) := r.value;
      if frame.Some? then |after.incoming| < |net.incoming|
                           || (after.incoming == net.incoming && |after.queue| < |net.queue|)
      else |net.queue| == 0 && |after.queue| == 0 && (|net.incoming| > 0 ==> |after.incoming| < |net.incoming|)
           && (|net.incoming| == 0 ==> after == net)
    decreases |net.incoming|
  {
    if |net.queue| > 0 then Ok((Some(net.queue[0]), net.(queue := net.queue[1..])))
    else if |net.incoming| == 0 then Ok((None, net))
    else
      var later := net.incoming[1..];
      match net.incoming[0]
      case Broken => Err
      case Quiet => Ok((None, net.(incoming := later)))
      case Data(bytes) =>
        if |bytes| == 0 then Err else
        var (frames, rest) :- Parse(net.buffer + bytes, WIRE_LIMIT, []);
        NextFrame(Net(rest, frames, later))
  }

  /** Read frames until one completes a message or the deadline passes. */
  function Poll(key: seq<byte>, net: Net, st: RxState): (r: Result<(Option<R.Message>, Net, RxState)>)
    requires |key| > 0
    ensures r.Ok? ==>
      var (message, after, _) := r.value;
      |after.incoming| <= |net.incoming| &&
      if message.Some? then |after.incoming| < |net.incoming|
                           || (after.incoming == net.incoming && |after.queue| < |net.queue|)
      else |after.queue| == 0 && (|after.incoming| < |net.incoming| || |net.incoming| == 0)
    decreases |net.incoming|, |net.queue|
  {
    var (frame, after) :- NextFrame(net);
    match frame
    case None => Ok((None, after, st))
    case Some(f) =>
      var (message, next) :- Receive(key, st, f);
      if message.Some? then Ok((message, after, next)) else Poll(key, after, next)
  }

  lemma {:induction false} PollReflects(key: seq<byte>, net: Net, st: RxState)
    requires |key| > 0
    ensures match Poll(key, net, st)
      case Ok((message, _, next)) => Reflects(st, next, if message.Some? then RecordsOf(message.value) else [])
      case Err => true
    decreases |net.incoming|, |net.queue|
  {
    hide NextFrame, Receive, Reflects, RecordsOf;
    ReflectsNone(st);
    if NextFrame(net).Ok? && NextFrame(net).value.0.Some? {
      var (frame, after) := NextFrame(net).value;
      ReceiveReflects(key, st, frame.value);
      var received := Receive(key, st, frame.value);
      if received.Ok? && received.value.0.None? {
        PollReflects(key, after, received.value.1);
        if Poll(key, after, received.value.1).Ok? {
          var (message, _, next) := Poll(key, after, received.value.1).value;
          var records := if message.Some? then RecordsOf(message.value) else [];
          ReflectsOn(st, received.value.1, next, [], records);
          assert [] + records == records;
        }
      }
    }
  }

  /** Poll until the network has nothing left to give, ignoring idle polls. */
  function PollAll(key: seq<byte>, net: Net, st: RxState, acc: seq<R.Message>):
    Result<(seq<R.Message>, seq<byte>, RxState)>
    requires |key| > 0
    decreases |net.incoming|, |net.queue|
  {
    if |net.incoming| == 0 && |net.queue| == 0 then Ok((acc, net.buffer, st)) else
    var (message, after, next) :- Poll(key, net, st);
    if message.None? && |after.incoming| == 0 then Ok((acc, after.buffer, next))
    else PollAll(key, after, next, Delivered(acc, message))
  }

  // ---- polling is parsing and receiving -----------------------------------

  /** The bytes still to come. */
  function Bytes(incoming: seq<Read>): seq<byte> {
    if |incoming| == 0 then []
    else (if incoming[0].Data? then incoming[0].bytes else []) + Bytes(incoming[1..])
  }

  /** Reads of an open connection: never empty, never broken. */
  predicate Open(incoming: seq<Read>) {
    forall read :: read in incoming ==> !read.Broken? && (read.Data? ==> |read.bytes| > 0)
  }

  /** The frames a network still holds, parsed or not, and the bytes left over. */
  function Total(net: Net): Result<(seq<Frame>, seq<byte>)> {
    var (frames, rest) :- Parse(net.buffer + Bytes(net.incoming), WIRE_LIMIT, []);
    Ok((net.queue + frames, rest))
  }

  /** What the whole stream means, however it is cut and however often polled. */
  function StreamMeaning(key: seq<byte>, net: Net, st: RxState, acc: seq<R.Message>):
    Result<(seq<R.Message>, seq<byte>, RxState)>
    requires |key| > 0
  {
    var (frames, rest) :- Total(net);
    var (messages, end) :- ReceiveAll(key, st, frames, acc);
    Ok((messages, rest, end))
  }

  predicate Sound(net: Net) {
    Incomplete(net.buffer, WIRE_LIMIT) && Open(net.incoming)
  }

  lemma {:induction false} ReceiveInOrder(key: seq<byte>, st: RxState, a: seq<Frame>, b: seq<Frame>,
                                          acc: seq<R.Message>)
    requires |key| > 0
    ensures ReceiveAll(key, st, a + b, acc) ==
            match ReceiveAll(key, st, a, acc)
            case Ok((messages, next)) => ReceiveAll(key, next, b, messages)
            case Err => Err
    decreases |a|
  {
    hide Receive;
    if |a| == 0 {
      assert a + b == b;
    } else {
      assert (a + b)[1..] == a[1..] + b;
      if Receive(key, st, a[0]).Ok? {
        var (message, next) := Receive(key, st, a[0]).value;
        ReceiveInOrder(key, next, a[1..], b, Delivered(acc, message));
      }
    }
  }

  lemma TotalAfterRead(net: Net)
    requires Sound(net) && |net.queue| == 0 && |net.incoming| > 0
    ensures net.incoming[0].Quiet? ==>
      Sound(net.(incoming := net.incoming[1..])) && Total(net.(incoming := net.incoming[1..])) == Total(net)
    ensures net.incoming[0].Data? ==>
      match Parse(net.buffer + net.incoming[0].bytes, WIRE_LIMIT, [])
      case Ok((frames, rest)) =>
        var after := Net(rest, frames, net.incoming[1..]);
        Sound(after) && Total(after) == Total(net)
      case Err => Total(net).Err?
  {
    hide Parse, Incomplete;
    var later := Bytes(net.incoming[1..]);
    if net.incoming[0].Data? {
      var fed := net.buffer + net.incoming[0].bytes;
      assert net.buffer + Bytes(net.incoming) == fed + later;
      ParseExtends(fed, later, WIRE_LIMIT, []);
      if Parse(fed, WIRE_LIMIT, []).Ok? {
        var (frames, rest) := Parse(fed, WIRE_LIMIT, []).value;
        ParsesExactly(fed, WIRE_LIMIT, frames, rest);
        ParseAccumulates(rest + later, WIRE_LIMIT, frames);
        if Parse(rest + later, WIRE_LIMIT, []).Ok? {
          var (more, end) := Parse(rest + later, WIRE_LIMIT, []).value;
          assert net.queue + (frames + more) == frames + more;
        }
      }
    } else if net.incoming[0].Quiet? {
      assert Bytes(net.incoming) == [] + later;
      assert [] + later == later;
    }
  }

  lemma {:induction false} NextFrameKeepsTotal(net: Net)
    requires Sound(net)
    ensures match NextFrame(net)
      case Err => Total(net).Err?
      case Ok((None, after)) => Sound(after) && Total(after) == Total(net)
      case Ok((Some(f), after)) =>
        && Sound(after)
        && Total(net) == match Total(after) case Ok((frames, rest)) => Ok(([f] + frames, rest)) case Err => Err
    decreases |net.incoming|
  {
    hide Parse, Incomplete;
    if |net.queue| > 0 {
      var t := Parse(net.buffer + Bytes(net.incoming), WIRE_LIMIT, []);
      if t.Ok? {
        assert net.queue + t.value.0 == [net.queue[0]] + (net.queue[1..] + t.value.0);
      }
    } else if |net.incoming| > 0 {
      TotalAfterRead(net);
      assert net.incoming[0] in net.incoming;
      match net.incoming[0]
      case Data(bytes) =>
        if Parse(net.buffer + bytes, WIRE_LIMIT, []).Ok? {
          var (frames, rest) := Parse(net.buffer + bytes, WIRE_LIMIT, []).value;
          NextFrameKeepsTotal(Net(rest, frames, net.incoming[1..]));
        }
      case Quiet =>
      case Broken => assert false;
    }
  }

  lemma {:induction false} PollKeepsMeaning(key: seq<byte>, net: Net, st: RxState, acc: seq<R.Message>)
    requires |key| > 0 && Sound(net)
    ensures match Poll(key, net, st)
      case Err => StreamMeaning(key, net, st, acc).Err?
      case Ok((message, after, next)) =>
        Sound(after) && StreamMeaning(key, net, st, acc) == StreamMeaning(key, after, next, Delivered(acc, message))
    decreases |net.incoming|, |net.queue|
  {
    hide Total, NextFrame, Receive, Sound;
    NextFrameKeepsTotal(net);
    if NextFrame(net).Ok? {
      var (frame, after) := NextFrame(net).value;
      if frame.Some? {
        var f := frame.value;
        var received := Receive(key, st, f);
        if Total(after).Ok? {
          assert ([f] + Total(after).value.0)[1..] == Total(after).value.0;
        }
        if received.Ok? && received.value.0.None? {
          PollKeepsMeaning(key, after, received.value.1, acc);
        }
      }
    }
  }

  /** Over an open connection, whatever the cuts and the idle polls between them,
      polling to the end delivers what the whole byte stream means, or fails when
      that does. */
  lemma {:induction false} PollingIsStreaming(key: seq<byte>, net: Net, st: RxState, acc: seq<R.Message>)
    requires |key| > 0 && Sound(net)
    ensures PollAll(key, net, st, acc) == StreamMeaning(key, net, st, acc)
    decreases |net.incoming|, |net.queue|
  {
    hide Total, Poll, Sound;
    if |net.incoming| == 0 && |net.queue| == 0 {
      NothingLeft(net);
    } else {
      PollKeepsMeaning(key, net, st, acc);
      if Poll(key, net, st).Ok? {
        var (message, after, next) := Poll(key, net, st).value;
        if message.None? && |after.incoming| == 0 {
          NothingLeft(after);
        } else {
          PollingIsStreaming(key, after, next, Delivered(acc, message));
        }
      }
    }
  }

  lemma NothingLeft(net: Net)
    requires Sound(net) && |net.incoming| == 0 && |net.queue| == 0
    ensures Total(net) == Ok(([], net.buffer))
  {
    hide Incomplete;
    assert net.buffer + Bytes(net.incoming) == net.buffer;
    assert net.queue == [] && net.queue + [] == [];
    ParseStops(net.buffer, WIRE_LIMIT, []);
  }
}
