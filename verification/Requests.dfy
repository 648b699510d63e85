/** What a session writes and what it takes in over whole runs: the frames sent are
    exactly the accepted requests, and the account is what the received records say. */
module Requests {
  import opened Results
  import opened Bits
  import opened Framing
  import opened Cipher
  import opened Compression
  import opened Account
  import opened Delivery
  import opened Connection
  import opened Session
  import opened SessionSafety
  import R = Reassembly

  /** A request as its receiver reads it. */
  datatype Request = Request(command: byte, flags: u16, payload: seq<byte>)

  predicate WriteWorks(out: Outward) {
    |out.writes| > 0 ==> out.writes[0]
  }

  // ---- one request --------------------------------------------------------

  /** Exactly one frame has been added, and a receiver with that key and in that cipher
      state reads it as the request. */
  predicate Adds(key: seq<byte>, at: CipherState, before: Outward, after: Outward, r: Request)
    requires |key| > 0
  {
    |after.sent| == |before.sent| + 1 && after.sent[..|before.sent|] == before.sent &&
    var f := after.sent[|before.sent|];
    && f.command == r.command && f.flags == r.flags && f.sequence == before.sequence
    && Decrypted(key, at, f.payload) == r.payload
  }

  /** A request goes out exactly when the session is ready, the payload is within 16 MiB
      and a restricted session may send the command; otherwise nothing changes. A
      write that fails adds nothing and fails the session. */
  lemma RequestMeans(w: World, command: byte, payload: seq<byte>, flags: u16)
    requires w.view.Ready? && |w.view.key| > 0
    ensures var after := RequestStep(w, command, payload, flags);
      if |payload| > 0x100_0000 || (w.view.rx.readOnly && command !in {10, 101, 102, 105, 106}) then after == w
      else if !WriteWorks(w.out) then after.view.Failed? && after.out.sent == w.out.sent
      else
        && Adds(w.view.key, w.view.tx, w.out, after.out, Request(command, flags, payload))
        && after.view == w.view.(tx := Advance(w.view.tx, payload))
  {
    hide Encrypted, Decrypted, Advance, Following;
    DecryptUndoesEncrypt(w.view.key, w.view.tx, payload);
  }

  /** A trade goes out exactly when the session is ready and unrestricted, holds a trade
      key, and the signed body and what it is wrapped in fit; then as command 108,
      final and compressed, with a payload that opens to the signed body. */
  lemma TradeMeans(w: World, record: seq<byte>, sign: (seq<byte>, seq<byte>) -> Result<seq<byte>>)
    requires w.view.Ready? && |w.view.key| > 0
    ensures var after := TradeStep(w, record, sign);
      if w.view.rx.readOnly || w.view.tradeKey.None? then after == w else
      var body := sign(record, w.view.tradeKey.value);
      if body.Err? || |body.value| > 0x400_0000 || |WrapPayload(body.value)| > 0x100_0000 then after == w
      else if !WriteWorks(w.out) then after.view.Failed? && after.out.sent == w.out.sent
      else
        && Adds(w.view.key, w.view.tx, w.out, after.out, Request(108, 3, WrapPayload(body.value)))
        && UnwrapPayload(WrapPayload(body.value), MAX_MESSAGE) == Ok(body.value)
        && after.view == w.view.(tx := Advance(w.view.tx, WrapPayload(body.value)))
  {
    hide RequestStep, Adds, WrapPayload, UnwrapPayload, Advance;
    if !w.view.rx.readOnly && w.view.tradeKey.Some? {
      var body := sign(record, w.view.tradeKey.value);
      if body.Ok? && |body.value| <= MAX_MESSAGE {
        RequestMeans(w, TRADE_REQUEST, WrapPayload(body.value), FINAL + 1);
        PayloadRoundTrip(body.value, MAX_MESSAGE);
      }
    }
  }

  /** The synchronization request goes out as command 12, final, with the body of the
      plan; a session that becomes ready is restricted exactly when its account or its
      profile is. */
  lemma SynchronizeMeans(w: World, plan: SyncPlan)
    requires w.view.Authenticated? && Synchronizable(w.view.handshake)
    ensures var (h, after) := (w.view.handshake, SynchronizeStep(w, plan));
      if !plan.profileMatches then after == w
      else if !WriteWorks(w.out) then after.view.Failed? && after.out.sent == w.out.sent
      else
        && Adds(h.sessionKey.value, h.cipher.value, w.out, after.out, Request(12, 2, plan.body))
        && (after.view.Ready? ==>
              && after.view.key == h.sessionKey.value && after.view.tradeKey == h.tradeKey
              && after.view.tx == Advance(h.cipher.value, plan.body)
              && after.view.rx.account.login == w.view.login && after.view.rx.pending == map[]
              && (after.view.rx.readOnly <==>
                    after.view.rx.account.tradeFlags % 16 >= 8 || plan.profileReadOnly == Ok(true)))
        && (after.view.Ready? || after.view.Failed?)
  {
    hide Encrypted, Decrypted, Advance, Following, CollectSync;
    DecryptUndoesEncrypt(w.view.handshake.sessionKey.value, w.view.handshake.cipher.value, plan.body);
  }

  // ---- whole runs ---------------------------------------------------------

  function After(w: World, ops: seq<Op>): World {
    if |ops| == 0 then w else Apply(After(w, ops[..|ops| - 1]), ops[|ops| - 1])
  }

  /** The key and the cipher state that the next enciphered frame will use. */
  function Stands(w: World): Option<(seq<byte>, CipherState)> {
    match w.view
    case Authenticated(_, h) => if Synchronizable(h) then Some((h.sessionKey.value, h.cipher.value)) else None
    case Ready(key, _, tx, _) => if |key| > 0 then Some((key, tx)) else None
    case _ => None
  }

  /** The request an operation makes, if it is accepted and its write works. */
  function Accepted(w: World, op: Op): Option<Request> {
    if !WriteWorks(w.out) then None else
    match op
    case DoSynchronize(plan) =>
      if w.view.Authenticated? && Synchronizable(w.view.handshake) && plan.profileMatches
      then Some(Request(12, 2, plan.body)) else None
    case DoRequest(command, payload, flags) =>
      if w.view.Ready? && |w.view.key| > 0 && |payload| <= 0x100_0000
         && (w.view.rx.readOnly ==> command in {10, 101, 102, 105, 106})
      then Some(Request(command, flags, payload)) else None
    case DoTrade(record, sign) =>
      if w.view.Ready? && |w.view.key| > 0 && !w.view.rx.readOnly && w.view.tradeKey.Some? then
        (match sign(record, w.view.tradeKey.value)
         case Ok(body) =>
           if |body| <= 0x400_0000 && |WrapPayload(body)| <= 0x100_0000
           then Some(Request(108, 3, WrapPayload(body))) else None
         case Err => None)
      else None
    case _ => None
  }

  function RunAccepted(w: World, ops: seq<Op>): seq<Request> {
    if |ops| == 0 then [] else
    var before, r := ops[..|ops| - 1], Accepted(After(w, ops[..|ops| - 1]), ops[|ops| - 1]);
    RunAccepted(w, before) + if r.Some? then [r.value] else []
  }

  /** What a receiver reads that deciphers frames one after another, and where its
      cipher then stands. */
  function Opened(key: seq<byte>, at: CipherState, frames: seq<Frame>): (seq<Request>, CipherState)
    requires |key| > 0
  {
    if |frames| == 0 then ([], at) else
    var (requests, here) := Opened(key, at, frames[..|frames| - 1]);
    var f := frames[|frames| - 1];
    var plain := Decrypted(key, here, f.payload);
    (requests + [Request(f.command, f.flags, plain)], Advance(here, plain))
  }

  lemma OpenedMore(key: seq<byte>, at: CipherState, sent: seq<Frame>, n: nat, f: Frame)
    requires |key| > 0 && n <= |sent|
    ensures var (requests, here) := Opened(key, at, sent[n..]);
      var plain := Decrypted(key, here, f.payload);
      Opened(key, at, (sent + [f])[n..]) == (requests + [Request(f.command, f.flags, plain)], Advance(here, plain))
  {
    hide Decrypted, Advance;
    var more := (sent + [f])[n..];
    assert more[..|more| - 1] == sent[n..] && more[|more| - 1] == f;
  }

  /** The step adds the accepted request, if any, and no other frame, and leaves the
      session able to encipher from there, or failed. */
  predicate Sends(w: World, after: World, r: Option<Request>)
    requires Stands(w).Some? && |Stands(w).value.0| > 0
  {
    var (key, at) := Stands(w).value;
    && (r.None? ==> after.out.sent == w.out.sent)
    && (r.Some? ==> Adds(key, at, w.out, after.out, r.value))
    && (after.view.Failed? || Stands(after) == Some((key, if r.Some? then Advance(at, r.value.payload) else at)))
  }

  lemma RequestSends(w: World, command: byte, payload: seq<byte>, flags: u16)
    requires Stands(w).Some? && |Stands(w).value.0| > 0
    ensures Sends(w, RequestStep(w, command, payload, flags), Accepted(w, DoRequest(command, payload, flags)))
  {
    hide RequestStep, Adds, Advance, Synchronizable;
    if w.view.Ready? {
      RequestMeans(w, command, payload, flags);
    } else {
      NotReady(w);
    }
  }

  lemma TradeSends(w: World, record: seq<byte>, sign: (seq<byte>, seq<byte>) -> Result<seq<byte>>)
    requires Stands(w).Some? && |Stands(w).value.0| > 0
    ensures Sends(w, TradeStep(w, record, sign), Accepted(w, DoTrade(record, sign)))
  {
    hide TradeStep, Adds, Advance, Synchronizable, WrapPayload;
    if w.view.Ready? {
      TradeMeans(w, record, sign);
    } else {
      NotReady(w);
    }
  }

  lemma SynchronizeSends(w: World, plan: SyncPlan)
    requires Stands(w).Some? && |Stands(w).value.0| > 0
    ensures Sends(w, SynchronizeStep(w, plan), Accepted(w, DoSynchronize(plan)))
  {
    hide SynchronizeStep, Adds, Advance, Synchronizable;
    if w.view.Authenticated? {
      SynchronizeMeans(w, plan);
      KeyKept(w);
    } else {
      NotAuthenticated(w);
    }
  }

  /** One operation of a session that can encipher. */
  lemma StepSends(w: World, op: Op)
    requires Stands(w).Some? && |Stands(w).value.0| > 0
    ensures Sends(w, Apply(w, op), Accepted(w, op))
  {
    hide Sends, Accepted, RequestStep, TradeStep, SynchronizeStep;
    match op
    case DoRequest(command, payload, flags) => RequestSends(w, command, payload, flags);
    case DoTrade(record, sign) => TradeSends(w, record, sign);
    case DoSynchronize(plan) => SynchronizeSends(w, plan);
    case DoAuthenticate(plan) => OtherSends(w, op);
    case DoPoll => OtherSends(w, op);
  }

  lemma OtherSends(w: World, op: Op)
    requires Stands(w).Some? && |Stands(w).value.0| > 0 && (op.DoAuthenticate? || op.DoPoll?)
    ensures Sends(w, Apply(w, op), Accepted(w, op))
  {
    hide Poll, Adds, Advance, Synchronizable, AuthenticateFrom;
  }

  lemma NotReady(w: World)
    requires !w.view.Ready?
    ensures forall command, payload, flags :: RequestStep(w, command, payload, flags) == w
    ensures forall record, sign :: TradeStep(w, record, sign) == w
  {
  }

  lemma NotAuthenticated(w: World)
    requires !w.view.Authenticated?
    ensures forall plan :: SynchronizeStep(w, plan) == w
  {
  }

  lemma KeyKept(w: World)
    requires w.view.Authenticated? && Synchronizable(w.view.handshake)
    ensures |w.view.handshake.sessionKey.value| > 0
  {
  }

  lemma FailedStays(w: World, op: Op)
    requires w.view.Failed?
    ensures Apply(w, op) == w && Accepted(w, op).None?
  {
  }

  /** From the moment a session is authenticated, whatever is done in whatever order,
      and also when it fails in between: a receiver that deciphers its frames in
      order reads exactly the accepted requests, in order. */
  lemma {:induction false} SentIsAccepted(w: World, ops: seq<Op>)
    requires Stands(w).Some?
    ensures var (key, at) := Stands(w).value;
      var after := After(w, ops);
      && |w.out.sent| <= |after.out.sent| && after.out.sent[..|w.out.sent|] == w.out.sent
      && Opened(key, at, after.out.sent[|w.out.sent|..]).0 == RunAccepted(w, ops)
      && (after.view.Failed? || Stands(after) == Some((key, Opened(key, at, after.out.sent[|w.out.sent|..]).1)))
  {
    hide Apply, Accepted, Stands, Decrypted, Advance;
    var n := |w.out.sent|;
    var (key, at) := Stands(w).value;
    if |ops| == 0 {
      StandsKey(w);
      assert w.out.sent[n..] == [];
    } else {
      var before, op := After(w, ops[..|ops| - 1]), ops[|ops| - 1];
      SentIsAccepted(w, ops[..|ops| - 1]);
      StandsKey(w);
      if before.view.Failed? {
        FailedStays(before, op);
      } else {
        StandsKey(before);
        StepSends(before, op);
        assert Sends(before, Apply(before, op), Accepted(before, op));
        if Accepted(before, op).Some? {
          var after := Apply(before, op);
          var f := after.out.sent[|before.out.sent|];
          assert after.out.sent == before.out.sent + [f];
          OpenedMore(key, at, before.out.sent, n, f);
        }
      }
    }
  }

  lemma StandsKey(w: World)
    ensures Stands(w).Some? ==> |Stands(w).value.0| > 0
  {
  }

  // ---- what is received ---------------------------------------------------

  /** The message that a poll returns. */
  function Returned(w: World, op: Op): Option<R.Message> {
    if op.DoPoll? && w.view.Ready? && |w.view.key| > 0 && Poll(w.view.key, w.net, w.view.rx).Ok?
    then Poll(w.view.key, w.net, w.view.rx).value.0 else None
  }

  function RunReturned(w: World, ops: seq<Op>): seq<R.Message> {
    if |ops| == 0 then [] else
    Delivered(RunReturned(w, ops[..|ops| - 1]), Returned(After(w, ops[..|ops| - 1]), ops[|ops| - 1]))
  }

  lemma StepReflects(w: World, op: Op)
    requires w.view.Ready? && |w.view.key| > 0
    ensures var (after, m) := (Apply(w, op), Returned(w, op));
      after.view.Failed? ||
      (after.view.Ready? && after.view.key == w.view.key
       && Reflects(w.view.rx, after.view.rx, if m.Some? then RecordsOf(m.value) else []))
  {
    hide Poll, Reflects, RecordsOf, WrapPayload, Encrypted, Advance, Synchronized, AuthenticateFrom;
    ReflectsNone(w.view.rx);
    PollReflects(w.view.key, w.net, w.view.rx);
  }

  /** Over every run of a ready session that has not failed: its account is the last
      account record in the messages that polls returned, all of them of its own login,
      and it is restricted exactly when it was at the start or one of them is. */
  lemma {:induction false} RunReflects(w: World, ops: seq<Op>)
    requires w.view.Ready? && |w.view.key| > 0
    ensures var after := After(w, ops);
      after.view.Failed? ||
      (after.view.Ready? && after.view.key == w.view.key
       && Reflects(w.view.rx, after.view.rx, RecordsIn(RunReturned(w, ops))))
  {
    hide Apply, Returned, Reflects, RecordsOf, RecordsIn;
    if |ops| == 0 {
      ReflectsNone(w.view.rx);
      NothingReturned();
    } else {
      var before, op := After(w, ops[..|ops| - 1]), ops[|ops| - 1];
      RunReflects(w, ops[..|ops| - 1]);
      if before.view.Failed? {
        FailedStays(before, op);
      } else {
        StepReflects(before, op);
        var m, after := Returned(before, op), Apply(before, op);
        if after.view.Ready? {
          ReflectsOn(w.view.rx, before.view.rx, after.view.rx, RecordsIn(RunReturned(w, ops[..|ops| - 1])),
                     if m.Some? then RecordsOf(m.value) else []);
          RecordsMore(RunReturned(w, ops[..|ops| - 1]), m);
        }
      }
    }
  }

  lemma NothingReturned()
    ensures RecordsIn([]) == []
  {
  }
}
