/** Safety of a session over every run: any operations in any order, over any
    network and any write failures. */
module SessionSafety {
  import opened Results
  import opened Bits
  import opened Framing
  import opened Cipher
  import opened Compression
  import opened Account
  import opened Delivery
  import opened Connection
  import opened Session
  import H = Handshake
  import R = Reassembly

  datatype Op =
    | DoAuthenticate(login: AuthPlan)
    | DoSynchronize(sync: SyncPlan)
    | DoRequest(command: byte, payload: seq<byte>, flags: u16)
    | DoTrade(record: seq<byte>, sign: (seq<byte>, seq<byte>) -> Result<seq<byte>>)
    | DoPoll

  function Apply(w: World, op: Op): World {
    match op
    case DoAuthenticate(plan) => AuthenticateStep(w, plan)
    case DoSynchronize(plan) => SynchronizeStep(w, plan)
    case DoRequest(command, payload, flags) => RequestStep(w, command, payload, flags)
    case DoTrade(record, sign) => TradeStep(w, record, sign)
    case DoPoll => PollStep(w)
  }

  /** A run so far: the world, the login that authenticated, and the plaintext of
      every enciphered frame that was sent. */
  datatype History = History(world: World, login: Option<nat>, plain: seq<byte>)

  /** The plaintext an operation enciphers when it sends a frame. */
  function Body(w: World, op: Op): seq<byte> {
    match op
    case DoSynchronize(plan) => plan.body
    case DoRequest(_, payload, _) => payload
    case DoTrade(record, sign) =>
      if !w.view.Ready? || w.view.tradeKey.None? then [] else
      (match sign(record, w.view.tradeKey.value) case Ok(body) => WrapPayload(body) case Err => [])
    case _ => []
  }

  function Next(h: History, op: Op): History {
    var after := Apply(h.world, op);
    History(after,
            if op.DoAuthenticate? && h.world.view.Connected? then Some(op.login.login) else h.login,
            h.plain + if |after.out.sent| > |h.world.out.sent| then Body(h.world, op) else [])
  }

  function Start(net: Net, writes: seq<bool>): History {
    History(World(Connected, Outward(1, [], writes), net), None, [])
  }

  function RunFrom(h: History, ops: seq<Op>): History
    decreases |ops|
  {
    if |ops| == 0 then h else Next(RunFrom(h, ops[..|ops| - 1]), ops[|ops| - 1])
  }

  function Wire(frames: seq<Frame>): seq<byte> {
    if |frames| == 0 then [] else Wire(frames[..|frames| - 1]) + frames[|frames| - 1].payload
  }

  predicate Numbered(frames: seq<Frame>) {
    forall i :: 0 <= i < |frames| ==> frames[i].sequence == i % 0xFFFF + 1
  }

  /** What every run keeps. */
  predicate Safe(h: History) {
    var w := h.world;
    && Numbered(w.out.sent)
    && w.out.sequence >= 1
    && (w.view.Failed? || w.out.sequence == |w.out.sent| % 0xFFFF + 1)
    && match w.view
       case Connected => h.login == None && w.out.sent == [] && h.plain == []
       case Authenticated(login, handshake) =>
         h.login == Some(login) && |w.out.sent| == 2 && h.plain == [] && Synchronizable(handshake)
         && handshake.cipher.value == START
       case Ready(key, rx, tx, _) =>
         && h.login == Some(rx.account.login)
         && |w.out.sent| >= 3 && |key| > 0
         && Wire(w.out.sent[2..]) == Encrypted(key, START, h.plain)
         && tx == Advance(START, h.plain)
       case Failed => true
  }

  // ---- receiving keeps the login and the restriction ----------------------

  predicate Keeps(a: RxState, b: RxState) {
    b.account.login == a.account.login && (a.readOnly ==> b.readOnly)
  }

  lemma ReceiveKeeps(key: seq<byte>, st: RxState, frame: Frame)
    requires |key| > 0
    ensures match Receive(key, st, frame) case Ok((_, next)) => Keeps(st, next) case Err => true
  {
    hide Decrypted, Advance, UnwrapPayload, R.PushResult, AccountUpdates, ApplyUpdates;
    var received := Receive(key, st, frame);
    if received.Ok? && received.value.0.Some? && IsAccountUpdate(received.value.0.value) {
      var updates := AccountUpdates(received.value.0.value.payload);
      UpdatesKeep(st.account, st.readOnly, updates.value);
    }
  }

  lemma {:induction false} PollKeeps(key: seq<byte>, net: Net, st: RxState)
    requires |key| > 0
    ensures match Poll(key, net, st) case Ok((_, _, next)) => Keeps(st, next) case Err => true
    decreases |net.incoming|, |net.queue|
  {
    hide NextFrame, Receive;
    if NextFrame(net).Ok? {
      var (frame, after) := NextFrame(net).value;
      if frame.Some? {
        ReceiveKeeps(key, st, frame.value);
        var received := Receive(key, st, frame.value);
        if received.Ok? && received.value.0.None? {
          PollKeeps(key, after, received.value.1);
        }
      }
    }
  }

  // ---- one step -----------------------------------------------------------

  lemma NumberedExtends(frames: seq<Frame>, f: Frame)
    requires Numbered(frames) && f.sequence == |frames| % 0xFFFF + 1
    ensures Numbered(frames + [f])
    ensures Following(f.sequence) == |frames + [f]| % 0xFFFF + 1
  {
    SequencesCount(|frames|);
    SequencesCount(|frames| + 1);
  }

  /** What one enciphered frame does to a safe history. */
  lemma WireExtends(frames: seq<Frame>, f: Frame, key: seq<byte>, plain: seq<byte>, body: seq<byte>)
    requires |frames| >= 2 && |key| > 0
    requires Wire(frames[2..]) == Encrypted(key, START, plain)
    requires f.payload == Encrypted(key, Advance(START, plain), body)
    ensures Wire((frames + [f])[2..]) == Encrypted(key, START, plain + body)
    ensures Advance(Advance(START, plain), body) == Advance(START, plain + body)
  {
    hide Encrypted, Advance;
    var before, now := frames[2..], (frames + [f])[2..];
    assert now[..|now| - 1] == before && now[|now| - 1] == f;
    EncryptInPieces(key, START, plain, body);
  }

  lemma RequestSafe(h: History, command: byte, payload: seq<byte>, flags: u16)
    requires Safe(h)
    ensures Safe(Next(h, DoRequest(command, payload, flags)))
  {
    hide Encrypted, Advance, Wire, Numbered, Following;
    var w := h.world;
    if !Refused(w.view, command, payload) {
      var f := Frame(command, w.out.sequence, flags, Encrypted(w.view.key, w.view.tx, payload));
      NumberedExtends(w.out.sent, f);
      WireExtends(w.out.sent, f, w.view.key, h.plain, payload);
    } else {
      assert h.plain + [] == h.plain;
    }
  }

  lemma TradeSafe(h: History, record: seq<byte>, sign: (seq<byte>, seq<byte>) -> Result<seq<byte>>)
    requires Safe(h)
    ensures Safe(Next(h, DoTrade(record, sign)))
  {
    hide RequestStep, Safe, WrapPayload;
    var w := h.world;
    RequestUnlessRefused(w);
    if w.view.Ready? && !w.view.rx.readOnly && w.view.tradeKey.Some? {
      var body := sign(record, w.view.tradeKey.value);
      if body.Ok? && |body.value| <= MAX_MESSAGE {
        RequestSafe(h, TRADE_REQUEST, WrapPayload(body.value), FINAL + 1);
        assert Next(h, DoTrade(record, sign)) == Next(h, DoRequest(TRADE_REQUEST, WrapPayload(body.value), FINAL + 1));
      }
    }
    assert h.plain + [] == h.plain;
  }

  lemma RequestUnlessRefused(w: World)
    ensures forall command, payload, flags :: Refused(w.view, command, payload) ==>
              RequestStep(w, command, payload, flags) == w
  {
  }

  lemma PollSafe(h: History)
    requires Safe(h)
    ensures Safe(Next(h, DoPoll))
  {
    hide Poll, Encrypted, Advance, Wire, Numbered;
    var w := h.world;
    assert h.plain + [] == h.plain;
    if w.view.Ready? {
      PollKeeps(w.view.key, w.net, w.view.rx);
    }
  }

  lemma ExchangeSends(out: Outward, net: Net, command: byte, body: seq<byte>)
    requires Numbered(out.sent) && out.sequence == |out.sent| % 0xFFFF + 1
    ensures var (after, reply) := Exchanged(out, net, command, body);
      && Numbered(after.sent) && after.sequence >= 1
      && (reply.Ok? ==> |after.sent| == |out.sent| + 1 && after.sequence == |after.sent| % 0xFFFF + 1)
  {
    hide StartupReply, Numbered, Following;
    NumberedExtends(out.sent, Frame(command, out.sequence, FINAL, body));
  }

  lemma AuthenticateSafe(h: History, plan: AuthPlan)
    requires Safe(h)
    ensures Safe(Next(h, DoAuthenticate(plan)))
  {
    hide Exchanged, AfterAuth, Encrypted, Advance, Wire, Numbered;
    var w := h.world;
    assert h.plain + [] == h.plain;
    if w.view.Connected? {
      ExchangeSends(w.out, w.net, HELLO, plan.hello);
      var (out1, reply1) := Exchanged(w.out, w.net, HELLO, plan.hello);
      if reply1.Ok? {
        var challenge := plan.parseChallenge(reply1.value.0);
        if challenge.Ok? {
          ExchangeSends(out1, reply1.value.1, AUTH, plan.auth(challenge.value.challenge));
          var (out2, reply2) := Exchanged(out1, reply1.value.1, AUTH, plan.auth(challenge.value.challenge));
          assert challenge.value.status == 0 ==> Apply(w, DoAuthenticate(plan)).out == out2;
          assert reply2.Ok? ==> |out2.sent| == 2;
        }
      }
    }
  }

  lemma SynchronizeSafe(h: History, plan: SyncPlan)
    requires Safe(h)
    ensures Safe(Next(h, DoSynchronize(plan)))
  {
    hide CollectSync, Encrypted, Advance, Wire, Numbered, Following;
    var w := h.world;
    assert h.plain + [] == h.plain;
    if w.view.Authenticated? && plan.profileMatches && Synchronizable(w.view.handshake) {
      var key := w.view.handshake.sessionKey.value;
      var f := Frame(ACCOUNT_STATE, w.out.sequence, FINAL, Encrypted(key, START, plan.body));
      NumberedExtends(w.out.sent, f);
      NothingSent(w.out.sent, key);
      WireExtends(w.out.sent, f, key, [], plan.body);
    }
  }

  lemma NothingSent(frames: seq<Frame>, key: seq<byte>)
    requires |frames| == 2 && |key| > 0
    ensures Wire(frames[2..]) == Encrypted(key, START, []) && Advance(START, []) == START
  {
  }

  lemma StepSafe(h: History, op: Op)
    requires Safe(h)
    ensures Safe(Next(h, op))
  {
    hide *;
    match op
    case DoAuthenticate(plan) => AuthenticateSafe(h, plan);
    case DoSynchronize(plan) => SynchronizeSafe(h, plan);
    case DoRequest(command, payload, flags) => RequestSafe(h, command, payload, flags);
    case DoTrade(record, sign) => TradeSafe(h, record, sign);
    case DoPoll => PollSafe(h);
  }

  /** After any operations over any network: while ready, the account is the one
      that authenticated; the frames sent are numbered 1, 2, ... with 65535
      followed by 1; and everything after the two startup frames is one cipher
      stream from position 0, so refused or unsent requests left no trace in it. */
  lemma {:induction false} EveryRunSafe(net: Net, writes: seq<bool>, ops: seq<Op>)
    ensures Safe(RunFrom(Start(net, writes), ops))
  {
    hide Safe, Next;
    if |ops| == 0 {
      StartSafe(net, writes);
    } else {
      EveryRunSafe(net, writes, ops[..|ops| - 1]);
      StepSafe(RunFrom(Start(net, writes), ops[..|ops| - 1]), ops[|ops| - 1]);
    }
  }

  lemma StartSafe(net: Net, writes: seq<bool>)
    ensures Safe(Start(net, writes))
  {
  }

  // ---- restrictions that last ---------------------------------------------

  /** `b` is a possible future of `a`: it has sent at least as much, a restricted
      session stays restricted for the same account and has sent only what it may,
      and a failed one is unchanged. */
  predicate Follows(a: World, b: World) {
    && |a.out.sent| <= |b.out.sent| && b.out.sent[..|a.out.sent|] == a.out.sent
    && (a.view.Failed? ==> b == a)
    && (a.view.Ready? ==> b.view.Failed? || (b.view.Ready? && b.view.key == a.view.key && Keeps(a.view.rx, b.view.rx)))
    && (a.view.Ready? && a.view.rx.readOnly ==>
        forall i :: |a.out.sent| <= i < |b.out.sent| ==> AllowedReadOnly(b.out.sent[i].command))
  }

  lemma StepFollows(w: World, op: Op)
    ensures Follows(w, Apply(w, op))
  {
    hide Poll, Encrypted, Advance, WrapPayload, StartupReply, CollectSync, H.Installed;
    if op.DoPoll? && w.view.Ready? && |w.view.key| > 0 {
      PollKeeps(w.view.key, w.net, w.view.rx);
    }
  }

  lemma FollowsOn(a: World, b: World, c: World)
    requires Follows(a, b) && Follows(b, c)
    ensures Follows(a, c)
  {
    assert c.out.sent[..|a.out.sent|] == c.out.sent[..|b.out.sent|][..|a.out.sent|];
    forall i | |a.out.sent| <= i < |b.out.sent| ensures c.out.sent[i] == b.out.sent[i] {
      assert c.out.sent[i] == c.out.sent[..|b.out.sent|][i];
    }
  }

  /** Once read-only, a session stays read-only and sends nothing but pings,
      history, quote and depth requests; once failed, it never changes again. */
  lemma {:induction false} EveryRunFollows(h: History, ops: seq<Op>)
    ensures Follows(h.world, RunFrom(h, ops).world)
    decreases |ops|
  {
    hide Follows, Apply;
    if |ops| == 0 {
      FollowsSelf(h.world);
    } else {
      var before := RunFrom(h, ops[..|ops| - 1]);
      EveryRunFollows(h, ops[..|ops| - 1]);
      StepFollows(before.world, ops[|ops| - 1]);
      FollowsOn(h.world, before.world, Apply(before.world, ops[|ops| - 1]));
    }
  }

  lemma FollowsSelf(w: World)
    ensures Follows(w, w)
  {
  }
}
