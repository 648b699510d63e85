/** The broker's side of the wire, and the delivery theorem: whatever messages are
    cut into fragments, interleaved, wrapped, enciphered, framed and cut into
    reads, the session delivers exactly those messages. */
module EndToEnd {
  import opened Results
  import opened Bits
  import opened Framing
  import opened Cipher
  import opened Compression
  import opened Delivery
  import Account
  import R = Reassembly

  // ---- the sender ---------------------------------------------------------

  /** A message on its way out: what it is, how it was cut, and how many of its
      pieces have been sent. */
  datatype Letter = Letter(command: byte, pieces: seq<seq<byte>>, sent: nat)

  type Outbox = map<u16, Letter>

  /** Open a message on a free sequence, or send the next piece of an open one, as it
      is or as any compressed payload that opens to it. */
  datatype Action =
    | Begin(sequence: u16, command: byte, pieces: seq<seq<byte>>)
    | Send(sequence: u16, wrap: Option<seq<byte>>)

  function Piece(l: Letter): seq<byte>
    requires l.sent < |l.pieces|
  {
    l.pieces[l.sent]
  }

  predicate IsLast(l: Letter) {
    l.sent + 1 == |l.pieces|
  }

  function Whole(sequence: u16, l: Letter): R.Message {
    R.Message(l.command, sequence, Flat(l.pieces), |l.pieces|)
  }

  /** The letters of which something has been sent. */
  function Started(outbox: Outbox): Outbox {
    map s | s in outbox && outbox[s].sent > 0 :: outbox[s]
  }

  predicate WellFormed(outbox: Outbox) {
    forall s :: s in outbox ==>
      outbox[s].sent < |outbox[s].pieces| && |Flat(outbox[s].pieces)| <= R.MAX_MESSAGE
  }

  function Wire(piece: seq<byte>, wrap: Option<seq<byte>>): seq<byte> {
    if wrap.Some? then wrap.value else piece
  }

  /** The sender keeps to the protocol's limits: whole messages within the
      message limit, payloads within the frame limit, and no more than the
      pending limit of unfinished messages started at a time. */
  predicate Legal(outbox: Outbox, a: Action) {
    match a
    case Begin(s, _, pieces) =>
      s !in outbox && |pieces| > 0 && |Flat(pieces)| <= R.MAX_MESSAGE
    case Send(s, wrap) =>
      && s in outbox && outbox[s].sent < |outbox[s].pieces|
      && (wrap.Some? ==> UnwrapPayload(wrap.value, MAX_MESSAGE) == Ok(Piece(outbox[s])))
      && |Wire(Piece(outbox[s]), wrap)| <= WIRE_LIMIT
      && (outbox[s].sent > 0 || IsLast(outbox[s]) || |Started(outbox)| < R.MAX_PENDING)
  }

  function Next(outbox: Outbox, a: Action): Outbox
    requires Legal(outbox, a)
  {
    match a
    case Begin(s, command, pieces) => outbox[s := Letter(command, pieces, 0)]
    case Send(s, _) =>
      if IsLast(outbox[s]) then outbox - {s}
      else outbox[s := outbox[s].(sent := outbox[s].sent + 1)]
  }

  predicate AllLegal(outbox: Outbox, actions: seq<Action>)
    decreases |actions|
  {
    |actions| > 0 ==> Legal(outbox, actions[0]) && AllLegal(Next(outbox, actions[0]), actions[1..])
  }

  function Done(outbox: Outbox, a: Action): seq<R.Message>
    requires Legal(outbox, a)
  {
    if a.Send? && IsLast(outbox[a.sequence]) then [Whole(a.sequence, outbox[a.sequence])] else []
  }

  /** The messages whose last piece is sent, in that order. */
  function Finished(outbox: Outbox, actions: seq<Action>): seq<R.Message>
    requires AllLegal(outbox, actions)
    decreases |actions|
  {
    if |actions| == 0 then [] else
    var a := actions[0];
    Done(outbox, a) + Finished(Next(outbox, a), actions[1..])
  }

  /** The letters still open after the actions. */
  function Final(outbox: Outbox, actions: seq<Action>): Outbox
    requires AllLegal(outbox, actions)
    decreases |actions|
  {
    if |actions| == 0 then outbox else Final(Next(outbox, actions[0]), actions[1..])
  }

  /** The enciphered frames, in the order of the actions, from one cipher. */
  function Frames(key: seq<byte>, at: CipherState, outbox: Outbox, actions: seq<Action>): seq<Frame>
    requires |key| > 0 && AllLegal(outbox, actions)
    decreases |actions|
  {
    if |actions| == 0 then [] else
    var a := actions[0];
    match a
    case Begin(_, _, _) => Frames(key, at, Next(outbox, a), actions[1..])
    case Send(s, wrap) =>
      var wire := Wire(Piece(outbox[s]), wrap);
      [FrameOf(s, outbox[s], wrap, Encrypted(key, at, wire))]
      + Frames(key, Advance(at, wire), Next(outbox, a), actions[1..])
  }

  function FrameOf(s: u16, l: Letter, wrap: Option<seq<byte>>, payload: seq<byte>): Frame {
    Frame(l.command, s, (if IsLast(l) then 2 else 0) + (if wrap.Some? then 1 else 0), payload)
  }

  /** Where the sender's cipher stands after the actions. */
  function CipherAfter(at: CipherState, outbox: Outbox, actions: seq<Action>): CipherState
    requires AllLegal(outbox, actions)
    decreases |actions|
  {
    if |actions| == 0 then at else
    var a := actions[0];
    var next := if a.Send? then Advance(at, Wire(Piece(outbox[a.sequence]), a.wrap)) else at;
    CipherAfter(next, Next(outbox, a), actions[1..])
  }

  // ---- the receiver mirrors the sender ------------------------------------

  function DraftOf(l: Letter): R.Draft
    requires l.sent <= |l.pieces|
  {
    R.Draft(l.command, Flat(l.pieces[..l.sent]), l.sent)
  }

  /** The receiver holds, of every started letter, exactly what was sent. */
  ghost predicate Mirrors(pending: R.Pending, outbox: Outbox)
    requires WellFormed(outbox)
  {
    && (forall s :: s in pending <==> s in Started(outbox))
    && (forall s :: s in pending ==> pending[s] == DraftOf(outbox[s]))
  }

  /** Every account update among the messages parses and carries the login. */
  predicate UpdatesMatch(messages: seq<R.Message>, login: nat) {
    forall m :: m in messages && IsAccountUpdate(m) ==>
      var u := Account.AccountUpdates(m.payload);
      u.Ok? && forall x :: x in u.value ==> x.login == login
  }

  lemma {:induction false} FlatSnoc(pieces: seq<seq<byte>>, n: nat)
    requires n < |pieces|
    ensures Flat(pieces[..n + 1]) == Flat(pieces[..n]) + pieces[n]
  {
    if n == 0 {
      assert pieces[..1][1..] == [];
      assert pieces[..0] == [];
      assert Flat(pieces[..1]) == pieces[0] + [];
    } else {
      assert pieces[..n + 1][1..] == pieces[1..][..n] && pieces[..n][1..] == pieces[1..][..n - 1];
      FlatSnoc(pieces[1..], n - 1);
      assert Flat(pieces[..n + 1]) == pieces[0] + Flat(pieces[1..][..n]);
      assert Flat(pieces[..n]) == pieces[0] + Flat(pieces[1..][..n - 1]);
    }
  }

  lemma {:induction false} FlatPrefix(pieces: seq<seq<byte>>, n: nat)
    requires n <= |pieces|
    ensures |Flat(pieces[..n])| <= |Flat(pieces)|
    ensures pieces[..|pieces|] == pieces
    decreases |pieces| - n
  {
    assert pieces[..|pieces|] == pieces;
    if n < |pieces| {
      FlatSnoc(pieces, n);
      FlatPrefix(pieces, n + 1);
    }
  }

  lemma SameSize(pending: R.Pending, outbox: Outbox)
    requires WellFormed(outbox) && Mirrors(pending, outbox)
    ensures |pending| == |Started(outbox)|
  {
    assert pending.Keys == Started(outbox).Keys;
  }

  // The receiver extends its draft by the piece, as the sender does.
  lemma PieceExtends(pending: R.Pending, outbox: Outbox, s: u16)
    requires WellFormed(outbox) && Mirrors(pending, outbox) && s in outbox
    ensures var l := outbox[s];
      var f := R.Fragment(l.command, s, IsLast(l), Piece(l));
      && R.Extended(pending, f) == DraftOf(l.(sent := l.sent + 1))
      && |R.Extended(pending, f).payload| <= R.MAX_MESSAGE
      && (s in pending <==> l.sent > 0)
      && (s in pending ==> pending[s].command == l.command)
      && (IsLast(l) ==> R.Completed(pending, f) == Option<R.Message>.Some(Whole(s, l)))
  {
    hide Flat;
    var l := outbox[s];
    FlatSnoc(l.pieces, l.sent);
    FlatPrefix(l.pieces, l.sent + 1);
    if l.sent == 0 {
      NothingFlat();
      assert l.pieces[..0] == [];
      assert [] + Piece(l) == Piece(l);
    }
  }

  lemma NothingFlat()
    ensures Flat([]) == []
  {
  }

  lemma PieceAccepted(pending: R.Pending, outbox: Outbox, s: u16, wrap: Option<seq<byte>>)
    requires WellFormed(outbox) && Mirrors(pending, outbox) && Legal(outbox, Send(s, wrap))
    ensures var l := outbox[s];
      R.Acceptable(pending, R.Fragment(l.command, s, IsLast(l), Piece(l)), R.MAX_MESSAGE, R.MAX_PENDING)
  {
    hide Flat, DraftOf, WellFormed, Mirrors;
    PieceExtends(pending, outbox, s);
    SameSize(pending, outbox);
  }

  lemma LastMirrors(pending: R.Pending, outbox: Outbox, s: u16)
    requires WellFormed(outbox) && Mirrors(pending, outbox)
    ensures WellFormed(outbox - {s}) && Mirrors(pending - {s}, outbox - {s})
  {
    hide Flat, DraftOf;
  }

  lemma MoreMirrors(pending: R.Pending, outbox: Outbox, s: u16, l: Letter)
    requires WellFormed(outbox) && Mirrors(pending, outbox)
    requires 0 < l.sent < |l.pieces| && |Flat(l.pieces)| <= R.MAX_MESSAGE
    ensures WellFormed(outbox[s := l]) && Mirrors(pending[s := DraftOf(l)], outbox[s := l])
  {
    hide Flat, DraftOf;
  }

  lemma MirrorsAfter(pending: R.Pending, outbox: Outbox, s: u16, wrap: Option<seq<byte>>)
    requires WellFormed(outbox) && Mirrors(pending, outbox) && Legal(outbox, Send(s, wrap))
    ensures var l := outbox[s];
      var f := R.Fragment(l.command, s, IsLast(l), Piece(l));
      var next := Next(outbox, Send(s, wrap));
      WellFormed(next) && Mirrors(R.After(pending, f), next)
  {
    hide Flat, DraftOf, R.Extended, R.Completed, Wire, UnwrapPayload, Mirrors;
    PieceExtends(pending, outbox, s);
    if IsLast(outbox[s]) {
      LastMirrors(pending, outbox, s);
    } else {
      MoreMirrors(pending, outbox, s, outbox[s].(sent := outbox[s].sent + 1));
    }
  }

  lemma BeginMirrors(pending: R.Pending, outbox: Outbox, a: Action)
    requires WellFormed(outbox) && Mirrors(pending, outbox) && Legal(outbox, a) && a.Begin?
    ensures WellFormed(Next(outbox, a)) && Mirrors(pending, Next(outbox, a))
  {
    hide Flat, DraftOf;
  }

  lemma ObservedKeepsLogin(st: RxState, m: R.Message)
    requires UpdatesMatch([m], st.account.login)
    ensures var seen := Observe(st, m);
      && seen.Ok? && seen.value.account.login == st.account.login && (st.readOnly ==> seen.value.readOnly)
      && seen.value.cipher == st.cipher && seen.value.pending == st.pending
  {
    hide Account.AccountUpdates;
    assert m in [m];
    if IsAccountUpdate(m) {
      UpdatesKeep(st.account, st.readOnly, Account.AccountUpdates(m.payload).value);
    }
  }

  ghost predicate Follows(st: RxState, before: RxState, at: CipherState, outbox: Outbox) {
    && WellFormed(outbox) && Mirrors(st.pending, outbox) && st.cipher == at
    && st.account.login == before.account.login && (before.readOnly ==> st.readOnly)
  }

  lemma PlainRead(l: Letter, s: u16, wrap: Option<seq<byte>>, payload: seq<byte>)
    requires l.sent < |l.pieces| && (wrap.Some? ==> UnwrapPayload(wrap.value, MAX_MESSAGE) == Ok(Piece(l)))
    ensures var frame := FrameOf(s, l, wrap, payload);
      && (frame.IsFinal() <==> IsLast(l))
      && Plain(frame, Wire(Piece(l), wrap)) == Ok(Piece(l))
  {
    hide UnwrapPayload;
  }

  /** One frame: the receiver deciphers, unwraps and files the piece, and when it
      is the last one hands out the whole message. */
  lemma SendReceived(key: seq<byte>, st: RxState, outbox: Outbox, s: u16, wrap: Option<seq<byte>>)
    requires |key| > 0 && WellFormed(outbox) && Mirrors(st.pending, outbox) && Legal(outbox, Send(s, wrap))
    requires IsLast(outbox[s]) ==> UpdatesMatch([Whole(s, outbox[s])], st.account.login)
    ensures var l := outbox[s];
      var wire := Wire(Piece(l), wrap);
      var r := Receive(key, st, FrameOf(s, l, wrap, Encrypted(key, st.cipher, wire)));
      && r.Ok?
      && r.value.0 == (if IsLast(l) then Some(Whole(s, l)) else None)
      && Follows(r.value.1, st, Advance(st.cipher, wire), Next(outbox, Send(s, wrap)))
  {
    hide Encrypted, Decrypted, Wire, Plain, UnwrapPayload, Observe, Mirrors, WellFormed, R.Acceptable, R.After,
         DraftOf, Flat, UpdatesMatch, Whole, Advance, Next, Legal;
    LegalLetter(outbox, s, wrap);
    var l := outbox[s];
    var wire := Wire(Piece(l), wrap);
    DecryptUndoesEncrypt(key, st.cipher, wire);
    PlainRead(l, s, wrap, Encrypted(key, st.cipher, wire));
    PieceExtends(st.pending, outbox, s);
    PieceAccepted(st.pending, outbox, s, wrap);
    MirrorsAfter(st.pending, outbox, s, wrap);
    var f := R.Fragment(l.command, s, IsLast(l), Piece(l));
    var held := st.(cipher := Advance(st.cipher, wire)).(pending := R.After(st.pending, f));
    if IsLast(l) {
      ObservedKeepsLogin(held, Whole(s, l));
    }
  }

  lemma LegalLetter(outbox: Outbox, s: u16, wrap: Option<seq<byte>>)
    requires WellFormed(outbox) && Legal(outbox, Send(s, wrap))
    ensures s in outbox && outbox[s].sent < |outbox[s].pieces| && |Piece(outbox[s])| <= MAX_MESSAGE
    ensures wrap.Some? ==> UnwrapPayload(wrap.value, MAX_MESSAGE) == Ok(Piece(outbox[s]))
  {
    hide Flat, UnwrapPayload;
    FlatSnoc(outbox[s].pieces, outbox[s].sent);
    FlatPrefix(outbox[s].pieces, outbox[s].sent + 1);
  }

  lemma UpdatesMatchSplit(a: seq<R.Message>, b: seq<R.Message>, login: nat)
    ensures UpdatesMatch(a + b, login) <==> UpdatesMatch(a, login) && UpdatesMatch(b, login)
  {
    hide Account.AccountUpdates, IsAccountUpdate;
    if UpdatesMatch(a + b, login) {
      assert forall m :: m in a ==> m in a + b;
      assert forall m :: m in b ==> m in a + b;
    }
  }

  // The sender's first action and what the rest of them still do.
  lemma Unfolds(key: seq<byte>, at: CipherState, outbox: Outbox, actions: seq<Action>)
    requires |key| > 0 && |actions| > 0 && AllLegal(outbox, actions)
    ensures var a, rest := actions[0], actions[1..];
      && Legal(outbox, a) && AllLegal(Next(outbox, a), rest)
      && Finished(outbox, actions) == Done(outbox, a) + Finished(Next(outbox, a), rest)
      && Final(outbox, actions) == Final(Next(outbox, a), rest)
      && (a.Begin? ==>
            && Frames(key, at, outbox, actions) == Frames(key, at, Next(outbox, a), rest)
            && CipherAfter(at, outbox, actions) == CipherAfter(at, Next(outbox, a), rest))
      && (a.Send? ==>
            var l := outbox[a.sequence];
            var wire := Wire(Piece(l), a.wrap);
            && Frames(key, at, outbox, actions) ==
                 [FrameOf(a.sequence, l, a.wrap, Encrypted(key, at, wire))]
                 + Frames(key, Advance(at, wire), Next(outbox, a), rest)
            && CipherAfter(at, outbox, actions) == CipherAfter(Advance(at, wire), Next(outbox, a), rest))
  {
    hide Encrypted, Wire, Next, Advance, FrameOf, Whole;
  }

  lemma ReceivesFirst(key: seq<byte>, st: RxState, f: Frame, more: seq<Frame>, acc: seq<R.Message>)
    requires |key| > 0 && Receive(key, st, f).Ok?
    ensures var (message, after) := Receive(key, st, f).value;
      ReceiveAll(key, st, [f] + more, acc) == ReceiveAll(key, after, more, Delivered(acc, message))
  {
    hide Receive;
    assert ([f] + more)[1..] == more;
  }

  /** Frame by frame, the receiver follows the sender. */
  lemma {:induction false} FramesReceived(key: seq<byte>, st: RxState, outbox: Outbox, actions: seq<Action>,
                                          acc: seq<R.Message>)
    returns (end: RxState)
    requires |key| > 0 && WellFormed(outbox) && Mirrors(st.pending, outbox) && AllLegal(outbox, actions)
    requires UpdatesMatch(Finished(outbox, actions), st.account.login)
    ensures ReceiveAll(key, st, Frames(key, st.cipher, outbox, actions), acc) ==
            Ok((acc + Finished(outbox, actions), end))
    ensures end.cipher == CipherAfter(st.cipher, outbox, actions)
    ensures end.account.login == st.account.login && (st.readOnly ==> end.readOnly)
    ensures WellFormed(Final(outbox, actions)) && Mirrors(end.pending, Final(outbox, actions))
    decreases |actions|
  {
    hide Receive, ReceiveAll, Frames, Finished, Final, CipherAfter, AllLegal, Mirrors, WellFormed, Legal, Next,
         UpdatesMatch, Whole, Wire, FrameOf, Encrypted, Advance;
    if |actions| == 0 {
      end := NothingSent(key, st, outbox, actions, acc);
    } else {
      Unfolds(key, st.cipher, outbox, actions);
      var a := actions[0];
      var next := Next(outbox, a);
      var done, more := Done(outbox, a), Finished(next, actions[1..]);
      UpdatesMatchSplit(done, more, st.account.login);
      if a.Begin? {
        BeginMirrors(st.pending, outbox, a);
        assert [] + more == more;
        end := FramesReceived(key, st, next, actions[1..], acc);
      } else {
        LegalLetter(outbox, a.sequence, a.wrap);
        SendReceived(key, st, outbox, a.sequence, a.wrap);
        var wire := Wire(Piece(outbox[a.sequence]), a.wrap);
        var f := FrameOf(a.sequence, outbox[a.sequence], a.wrap, Encrypted(key, st.cipher, wire));
        var (message, after) := Receive(key, st, f).value;
        ReceivesFirst(key, st, f, Frames(key, Advance(st.cipher, wire), next, actions[1..]), acc);
        end := FramesReceived(key, after, next, actions[1..], Delivered(acc, message));
        assert Delivered(acc, message) == acc + done;
        assert acc + done + more == acc + (done + more);
      }
    }
  }

  lemma NothingSent(key: seq<byte>, st: RxState, outbox: Outbox, actions: seq<Action>, acc: seq<R.Message>)
    returns (end: RxState)
    requires |key| > 0 && |actions| == 0
    ensures AllLegal(outbox, actions) && end == st && Final(outbox, actions) == outbox
    ensures ReceiveAll(key, st, Frames(key, st.cipher, outbox, actions), acc) ==
            Ok((acc + Finished(outbox, actions), end))
    ensures end.cipher == CipherAfter(st.cipher, outbox, actions)
  {
    end := st;
    assert acc + [] == acc;
  }

  lemma {:induction false} FramesFit(key: seq<byte>, at: CipherState, outbox: Outbox, actions: seq<Action>)
    requires |key| > 0 && AllLegal(outbox, actions)
    ensures forall f :: f in Frames(key, at, outbox, actions) ==> Fits(f, WIRE_LIMIT)
    decreases |actions|
  {
    hide Encrypted, Wire, Next, Advance;
    if |actions| > 0 {
      var a := actions[0];
      match a
      case Begin(_, _, _) => FramesFit(key, at, Next(outbox, a), actions[1..]);
      case Send(s, wrap) =>
        FramesFit(key, Advance(at, Wire(Piece(outbox[s]), wrap)), Next(outbox, a), actions[1..]);
    }
  }

  lemma NothingMirrored()
    ensures WellFormed(map[]) && Mirrors(map[], map[])
  {
  }

  /** End-to-end delivery. Take any legal sending: messages cut into pieces, pieces
      of different messages interleaved, each piece as it is or compressed in any
      way that opens to it, all enciphered in order by one cipher and packed into
      frames. Cut that byte stream into any reads, with idle polls anywhere between
      them. Polling then delivers exactly the finished messages in the order of
      their last pieces, leaves no bytes over, holds exactly the sent pieces of the
      unfinished messages, ends with the two ciphers in the same state, and has put
      exactly the delivered account records into effect. */
  lemma MessagesDelivered(key: seq<byte>, start: RxState, actions: seq<Action>, incoming: seq<Read>)
    requires |key| > 0 && start.pending == map[] && AllLegal(map[], actions)
    requires UpdatesMatch(Finished(map[], actions), start.account.login)
    requires Open(incoming) && Bytes(incoming) == PackAll(Frames(key, start.cipher, map[], actions))
    ensures var r := PollAll(key, Net([], [], incoming), start, []);
      && r.Ok? && r.value.0 == Finished(map[], actions) && r.value.1 == []
      && r.value.2.cipher == CipherAfter(start.cipher, map[], actions)
      && r.value.2.account.login == start.account.login
      && (start.readOnly ==> r.value.2.readOnly)
      && WellFormed(Final(map[], actions)) && Mirrors(r.value.2.pending, Final(map[], actions))
      && Reflects(start, r.value.2, RecordsIn(Finished(map[], actions)))
  {
    hide Reflects, RecordsIn, PollAll, ReceiveAll, Frames, Finished, Final, CipherAfter, Mirrors, AllLegal,
         UpdatesMatch, PackAll, Bytes, Parse;
    var net := Net([], [], incoming);
    var frames := Frames(key, start.cipher, map[], actions);
    PollingIsStreaming(key, net, start, []);
    FramesFit(key, start.cipher, map[], actions);
    assert [] + Bytes(incoming) == PackAll(frames) + [];
    ParsesExactly([] + Bytes(incoming), WIRE_LIMIT, frames, []);
    assert [] + frames == frames;
    NothingMirrored();
    var end := FramesReceived(key, start, map[], actions, []);
    assert [] + Finished(map[], actions) == Finished(map[], actions);
    StreamReflects(key, start, frames);
  }

  // ---- nothing is lost or invented ----------------------------------------

  function Begun(outbox: Outbox, actions: seq<Action>): seq<R.Message>
    requires AllLegal(outbox, actions)
    decreases |actions|
  {
    if |actions| == 0 then [] else
    var a := actions[0];
    (match a
     case Begin(s, command, pieces) => [Whole(s, Letter(command, pieces, 0))]
     case Send(_, _) => [])
    + Begun(Next(outbox, a), actions[1..])
  }

  function Unfinished(outbox: Outbox): set<R.Message> {
    set s | s in outbox :: Whole(s, outbox[s])
  }

  lemma BeginUnfinished(outbox: Outbox, a: Action)
    requires Legal(outbox, a) && a.Begin?
    ensures var m := Whole(a.sequence, Letter(a.command, a.pieces, 0));
      m !in Unfinished(outbox) && Unfinished(Next(outbox, a)) == Unfinished(outbox) + {m}
  {
    hide Flat;
    var m := Whole(a.sequence, Letter(a.command, a.pieces, 0));
    var next := Next(outbox, a);
    assert forall x :: x in Unfinished(outbox) ==> x.sequence in outbox;
    forall x ensures x in Unfinished(next) <==> x in Unfinished(outbox) + {m} {
      if x in Unfinished(outbox) {
        var s :| s in outbox && x == Whole(s, outbox[s]);
        assert s in next && next[s] == outbox[s];
      }
      if x in Unfinished(next) && x != m {
        var s :| s in next && x == Whole(s, next[s]);
        assert s in outbox && outbox[s] == next[s];
      }
      assert a.sequence in next && Whole(a.sequence, next[a.sequence]) == m;
    }
  }

  lemma SendUnfinished(outbox: Outbox, a: Action)
    requires Legal(outbox, a) && a.Send?
    ensures var m := Whole(a.sequence, outbox[a.sequence]);
      && m in Unfinished(outbox)
      && Unfinished(Next(outbox, a)) ==
         if IsLast(outbox[a.sequence]) then Unfinished(outbox) - {m} else Unfinished(outbox)
  {
    hide Flat;
    var m := Whole(a.sequence, outbox[a.sequence]);
    var next := Next(outbox, a);
    var last := IsLast(outbox[a.sequence]);
    forall x ensures x in Unfinished(next) <==> x in Unfinished(outbox) && !(last && x == m) {
      if x in Unfinished(outbox) {
        var s :| s in outbox && x == Whole(s, outbox[s]);
        if s != a.sequence || !last {
          assert s in next && Whole(s, next[s]) == x;
        }
      }
      if x in Unfinished(next) {
        var s :| s in next && x == Whole(s, next[s]);
        assert s in outbox && Whole(s, outbox[s]) == x;
      }
    }
  }

  lemma BalanceBegin<T>(open: set<T>, m: T, begun: seq<T>, right: multiset<T>)
    requires m !in open && multiset(open + {m}) + multiset(begun) == right
    ensures multiset(open) + multiset([m] + begun) == right
  {
    assert multiset(open + {m}) == multiset(open) + multiset{m};
    assert multiset([m] + begun) == multiset{m} + multiset(begun);
  }

  lemma BalanceLast<T>(open: set<T>, m: T, begun: multiset<T>, finished: seq<T>, end: multiset<T>)
    requires m in open && multiset(open - {m}) + begun == multiset(finished) + end
    ensures multiset(open) + begun == multiset([m] + finished) + end
  {
    assert open == (open - {m}) + {m};
    assert multiset((open - {m}) + {m}) == multiset(open - {m}) + multiset{m};
    assert multiset([m] + finished) == multiset{m} + multiset(finished);
    AddBoth(multiset(open - {m}), begun, multiset(finished), end, m);
  }

  lemma AddBoth<T>(a: multiset<T>, b: multiset<T>, f: multiset<T>, e: multiset<T>, m: T)
    requires a + b == f + e
    ensures (a + multiset{m}) + b == (multiset{m} + f) + e
  {
    forall x ensures ((a + multiset{m}) + b)[x] == ((multiset{m} + f) + e)[x] {
      assert (a + b)[x] == (f + e)[x];
    }
  }

  lemma UnfoldsBegun(outbox: Outbox, actions: seq<Action>)
    requires |actions| > 0 && AllLegal(outbox, actions)
    ensures var a, rest := actions[0], actions[1..];
      var next := Next(outbox, a);
      && Legal(outbox, a) && AllLegal(next, rest) && Final(outbox, actions) == Final(next, rest)
      && Begun(outbox, actions) ==
         (if a.Begin? then [Whole(a.sequence, Letter(a.command, a.pieces, 0))] else []) + Begun(next, rest)
      && Finished(outbox, actions) == Done(outbox, a) + Finished(next, rest)
  {
    hide Next, Whole, Done;
  }

  /** Every message that was begun is either finished, once, or still unfinished at
      the end; and nothing else is finished. */
  lemma {:induction false} SendingConserves(outbox: Outbox, actions: seq<Action>)
    requires AllLegal(outbox, actions)
    ensures multiset(Unfinished(outbox)) + multiset(Begun(outbox, actions)) ==
            multiset(Finished(outbox, actions)) + multiset(Unfinished(Final(outbox, actions)))
    decreases |actions|
  {
    hide Next, Unfinished, Whole, Flat, Begun, Finished, Final, AllLegal;
    if |actions| == 0 {
      NothingBegun(outbox, actions);
    } else {
      var a, rest := actions[0], actions[1..];
      UnfoldsBegun(outbox, actions);
      var next := Next(outbox, a);
      SendingConserves(next, rest);
      assert [] + Begun(next, rest) == Begun(next, rest) && [] + Finished(next, rest) == Finished(next, rest);
      if a.Begin? {
        var m := Whole(a.sequence, Letter(a.command, a.pieces, 0));
        BeginUnfinished(outbox, a);
        BalanceBegin(Unfinished(outbox), m, Begun(next, rest),
                     multiset(Finished(next, rest)) + multiset(Unfinished(Final(next, rest))));
      } else {
        SendUnfinished(outbox, a);
        if IsLast(outbox[a.sequence]) {
          BalanceLast(Unfinished(outbox), Whole(a.sequence, outbox[a.sequence]), multiset(Begun(next, rest)),
                      Finished(next, rest), multiset(Unfinished(Final(next, rest))));
        }
      }
    }
  }

  lemma NothingBegun(outbox: Outbox, actions: seq<Action>)
    requires |actions| == 0
    ensures AllLegal(outbox, actions) && Begun(outbox, actions) == [] && Finished(outbox, actions) == []
    ensures Final(outbox, actions) == outbox
  {
  }

  /** What polling returns, for any legal sending in any reads, is exactly what was
      begun less what is still unfinished: no message is lost, doubled or invented. */
  lemma DeliveryConserves(key: seq<byte>, start: RxState, actions: seq<Action>, incoming: seq<Read>)
    requires |key| > 0 && start.pending == map[] && AllLegal(map[], actions)
    requires UpdatesMatch(Finished(map[], actions), start.account.login)
    requires Open(incoming) && Bytes(incoming) == PackAll(Frames(key, start.cipher, map[], actions))
    ensures var r := PollAll(key, Net([], [], incoming), start, []);
      r.Ok? && multiset(Begun(map[], actions)) == multiset(r.value.0) + multiset(Unfinished(Final(map[], actions)))
  {
    hide PollAll, Frames, Finished, Final, Begun, Unfinished, AllLegal, UpdatesMatch, PackAll, Bytes, Mirrors, Open;
    MessagesDelivered(key, start, actions, incoming);
    SendingConserves(map[], actions);
    NothingUnfinished();
    assert multiset{} + multiset(Begun(map[], actions)) == multiset(Begun(map[], actions));
  }

  lemma NothingUnfinished()
    ensures multiset(Unfinished(map[])) == multiset{}
  {
    assert Unfinished(map[]) == {};
  }
}
