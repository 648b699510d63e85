/** The session state machine: authenticate, synchronize, then exchange messages.
    Any failure on the wire consumes the session. */
module Session {
  import opened Results
  import opened Bits
  import opened Framing
  import opened Cipher
  import opened Compression
  import opened Account
  import opened Delivery
  import opened Connection
  import H = Handshake
  import R = Reassembly

  const HELLO: byte := 0
  const AUTH: byte := 1
  const PING: byte := 10
  const ACCOUNT_STATE: byte := 12
  const TRADE_REQUEST: byte := 108
  const FINAL: u16 := 2

  /** Commands a read-only session may send: ping, trade history, quote history,
      quote and depth subscriptions. */
  predicate AllowedReadOnly(command: byte) {
    command == PING || command == 101 || command == 102 || command == 105 || command == 106
  }

  // ---- the session as a value ---------------------------------------------

  datatype View =
    | Connected
    | Authenticated(login: nat, handshake: H.State)
    | Ready(key: seq<byte>, rx: RxState, tx: CipherState, tradeKey: Option<seq<byte>>)
    | Failed

  /** The session, what it wrote, and what it still has to read. */
  datatype World = World(view: View, out: Outward, net: Net)

  /** What the caller brings to an authentication: the startup-enciphered request
      bodies and the reply parsers, which this model does not look into. */
  datatype AuthPlan = AuthPlan(
    login: nat, hello: seq<byte>, auth: seq<byte> -> seq<byte>,
    parseChallenge: seq<byte> -> Result<H.Challenge>, parseAuth: seq<byte> -> Result<H.AuthResult>,
    derivation: H.Derivation)

  /** What the caller brings to a synchronization: whether the enrolled profile
      answers for this login, the request body, and the reply parser. */
  datatype SyncPlan = SyncPlan(
    profileMatches: bool, body: seq<byte>, parse: seq<byte> -> Result<AccountState>, profileReadOnly: Result<bool>)

  const STARTUP_KEY: seq<byte> :=
    [0x41, 0xb6, 0x7f, 0x58, 0x38, 0x0c, 0xf0, 0x2d, 0x7b, 0x39, 0x08, 0xfe, 0x21, 0xbb, 0x41, 0x58]

  function StartupReply(net: Net, command: byte, sequence: u16): Result<(seq<byte>, Net)> {
    var (frame, after) :- NextFrame(net);
    match frame
    case None => Err
    case Some(f) =>
      if f.command != command || f.sequence != sequence || !f.IsFinal() || f.IsCompressed() then Err
      else Ok((StartupDecrypted(STARTUP_KEY, 0, 0, f.payload), after))
  }

  /** Send one startup request and wait for its reply. */
  function Exchanged(out: Outward, net: Net, command: byte, body: seq<byte>): (Outward, Result<(seq<byte>, Net)>) {
    var (ok, after) := Written(Take(out), Frame(command, out.sequence, FINAL, body));
    (after, if ok then StartupReply(net, command, out.sequence) else Err)
  }

  function AuthenticateFrom(plan: AuthPlan, out: Outward, net: Net): World {
    var (out1, reply1) := Exchanged(out, net, HELLO, plan.hello);
    if reply1.Err? then World(Failed, out1, net) else
    var challenge := plan.parseChallenge(reply1.value.0);
    if challenge.Err? || challenge.value.status != 0 then World(Failed, out1, net) else
    var (out2, reply2) := Exchanged(out1, reply1.value.1, AUTH, plan.auth(challenge.value.challenge));
    if reply2.Err? then World(Failed, out2, net) else
    var installed := AfterAuth(plan, challenge.value.challenge, reply2.value.0);
    if !installed.phase.SessionKeysReady? then World(Failed, out2, net)
    else World(Authenticated(plan.login, installed), out2, reply2.value.1)
  }

  /** The handshake after the reply to `Auth`. */
  function AfterAuth(plan: AuthPlan, challenge: seq<byte>, reply: seq<byte>): (h: H.State)
    ensures h.phase.SessionKeysReady? ==> Synchronizable(h) && h.cipher == Some(START)
  {
    var sent := H.FRESH.(phase := H.AuthSent, challenge := Some(challenge));
    H.Step(plan.derivation, sent, H.OnAuthResult(plan.parseAuth(reply))).1
  }

  function AuthenticateStep(w: World, plan: AuthPlan): World {
    if !w.view.Connected? then w else AuthenticateFrom(plan, w.out, w.net)
  }

  /** Collect the account state: pings are skipped, every other frame must belong
      to the request, and the whole stays within the message limit. */
  function CollectSync(key: seq<byte>, net: Net, at: CipherState, sequence: u16, payload: seq<byte>):
    Result<(seq<byte>, Net, CipherState)>
    requires |key| > 0 && |payload| <= MAX_MESSAGE
    decreases |net.incoming|, |net.queue|
  {
    var (frame, after) :- NextFrame(net);
    match frame
    case None => Err
    case Some(f) =>
      if f.command == PING && |f.payload| == 0 then CollectSync(key, after, at, sequence, payload)
      else if f.command != ACCOUNT_STATE || f.sequence != sequence then Err
      else
        var deciphered := Decrypted(key, at, f.payload);
        var bytes :- if f.IsCompressed() then UnwrapPayload(deciphered, MAX_MESSAGE - |payload|) else Ok(deciphered);
        if |bytes| > MAX_MESSAGE - |payload| then Err
        else if f.IsFinal() then Ok((payload + bytes, after, Advance(at, deciphered)))
        else CollectSync(key, after, Advance(at, deciphered), sequence, payload + bytes)
  }

  function SynchronizeStep(w: World, plan: SyncPlan): World {
    if !w.view.Authenticated? || !plan.profileMatches || !Synchronizable(w.view.handshake) then w
    else Synchronized(plan, w.view.login, w.view.handshake, w.out, w.net)
  }

  function Synchronized(plan: SyncPlan, login: nat, h: H.State, before: Outward, net: Net): World
    requires Synchronizable(h)
  {
    var key := h.sessionKey.value;
    var sequence := before.sequence;
    var frame := Frame(ACCOUNT_STATE, sequence, FINAL, Encrypted(key, h.cipher.value, plan.body));
    var (ok, out) := Written(Take(before), frame);
    var dead := World(Failed, out, net);
    if !ok then dead else
    match CollectSync(key, net, START, sequence, [])
    case Err => dead
    case Ok((payload, after, at)) =>
      var account := plan.parse(payload);
      if account.Err? || account.value.login != login then dead
      else if !account.value.IsReadOnly() && plan.profileReadOnly.Err? then dead
      else
        var readOnly := account.value.IsReadOnly() || plan.profileReadOnly.value;
        World(Ready(key, RxState(at, account.value, readOnly, map[]), Advance(h.cipher.value, plan.body), h.tradeKey),
              out, after)
  }

  predicate Synchronizable(h: H.State) {
    h.phase.SessionKeysReady? && h.cipher.Some? && h.sessionKey.Some? && |h.sessionKey.value| > 0
  }

  /** Why a request is refused: nothing has happened yet when it is. */
  predicate Refused(view: View, command: byte, payload: seq<byte>) {
    |payload| > MAX_PAYLOAD || !view.Ready? || |view.key| == 0 || (view.rx.readOnly && !AllowedReadOnly(command))
  }

  function RequestStep(w: World, command: byte, payload: seq<byte>, flags: u16): World {
    if Refused(w.view, command, payload) then w else
    var frame := Frame(command, w.out.sequence, flags, Encrypted(w.view.key, w.view.tx, payload));
    var (ok, out) := Written(Take(w.out), frame);
    World(if ok then w.view.(tx := Advance(w.view.tx, payload)) else Failed, out, w.net)
  }

  /** Sign, wrap and send a trade; `sign` is the record signing. */
  function TradeStep(w: World, record: seq<byte>, sign: (seq<byte>, seq<byte>) -> Result<seq<byte>>): World {
    if !w.view.Ready? || w.view.rx.readOnly || w.view.tradeKey.None? then w else
    var body := sign(record, w.view.tradeKey.value);
    if body.Err? || |body.value| > MAX_MESSAGE then w
    else RequestStep(w, TRADE_REQUEST, WrapPayload(body.value), FINAL + 1)
  }

  function PollStep(w: World): World {
    if !w.view.Ready? || |w.view.key| == 0 then w else
    match Poll(w.view.key, w.net, w.view.rx)
    case Ok((_, net, rx)) => World(w.view.(rx := rx), w.out, net)
    case Err => World(Failed, w.out, w.net)
  }

  // ---- the session as an object -------------------------------------------

  datatype State =
    | SConnected
    | SAuthenticated(handshake: H.HandshakeDriver, login: nat)
    | SReady(rx: SessionCipher, tx: SessionCipher, tradeKey: Option<seq<byte>>, account: AccountState, readOnly: bool,
             messages: R.Reassembler)
    | SFailed

  /** The world after a step, up to what a failed session leaves unread. */
  ghost predicate Becomes(w: World, spec: World) {
    w.view == spec.view && w.out == spec.out && (w.view.Failed? || w.net == spec.net)
  }

  class Session {
    const link: Link
    var state: State

    ghost function Repr(): set<object>
      reads this, if state.SAuthenticated? then {state.handshake} else {}
    {
      {this, link, link.parser} +
      match state
      case SAuthenticated(h, _) => {h} + if h.cipher == null then {} else {h.cipher}
      case SReady(rx, tx, _, _, _, messages) => {rx, tx, messages}
      case _ => {}
    }

    ghost predicate Valid()
      reads this, link, link.parser, if state.SAuthenticated? then {state.handshake} else {}, Repr()
    {
      && link.Valid()
      && match state
         case SAuthenticated(h, _) => h.Valid() && h.cipher != null && Synchronizable(h.View())
         case SReady(rx, tx, _, _, _, messages) =>
           && rx.Valid() && tx.Valid() && rx != tx && rx.key == tx.key
           && messages.maxMessage == R.MAX_MESSAGE && messages.maxPending == R.MAX_PENDING
         case _ => true
    }

    ghost function TheView(): View
      reads this, if state.SAuthenticated? then {state.handshake} else {}, Repr()
      requires Valid()
    {
      match state
      case SConnected => Connected
      case SAuthenticated(h, login) => Authenticated(login, h.View())
      case SReady(rx, tx, tradeKey, account, readOnly, messages) =>
        Ready(rx.key, RxState(rx.State(), account, readOnly, messages.pending), tx.State(), tradeKey)
      case SFailed => Failed
    }

    ghost function TheWorld(): World
      reads this, link, link.parser, if state.SAuthenticated? then {state.handshake} else {}, Repr()
      requires Valid()
    {
      World(TheView(), link.OutView(), link.NetView())
    }

    constructor (link: Link)
      requires link.Valid()
      ensures Valid() && this.link == link && TheView() == Connected
    {
      this.link, state := link, SConnected;
    }

    method SendEncoded(command: byte, payload: seq<byte>, flags: u16) returns (r: Result<u16>)
      requires Valid()
      modifies Repr()
      ensures Valid() && fresh(Repr() - old(Repr()))
      ensures Becomes(TheWorld(), RequestStep(old(TheWorld()), command, payload, flags))
      ensures r.Ok? <==> !Refused(old(TheView()), command, payload) && !TheView().Failed?
      ensures r.Ok? ==> r.value == old(link.sequence)
    {
      hide Encrypted, Advance;
      if |payload| > MAX_PAYLOAD {
        return Err;
      }
      match state {
        case SReady(rx, tx, tradeKey, account, readOnly, messages) =>
          if readOnly && !AllowedReadOnly(command) {
            return Err;
          }
          var sequence := link.NextSequence();
          var ciphertext := tx.Encrypt(payload);
          var frame := Frame(command, sequence, flags, ciphertext);
          var sent := link.Send(frame);
          if sent.Err? {
            state := SFailed;
            return Err;
          }
          return Ok(sequence);
        case _ =>
          return Err;
      }
    }

    method Authenticate(plan: AuthPlan) returns (r: Result<()>)
      requires Valid()
      modifies Repr()
      ensures Valid() && fresh(Repr() - old(Repr()))
      ensures Becomes(TheWorld(), AuthenticateStep(old(TheWorld()), plan))
      ensures r.Ok? <==> old(TheView()).Connected? && TheView().Authenticated?
    {
      hide AuthenticateFrom;
      if !state.SConnected? {
        return Err;
      }
      state := SFailed;
      ghost var spec := AuthenticateFrom(plan, link.OutView(), link.NetView());
      var handshake :- LogIn(plan);
      state := SAuthenticated(handshake, plan.login);
      return Ok(());
    }

    method LogIn(plan: AuthPlan) returns (r: Result<H.HandshakeDriver>)
      requires link.Valid()
      modifies link, link.parser
      ensures var spec := AuthenticateFrom(plan, old(link.OutView()), old(link.NetView()));
              && link.OutView() == spec.out
              && match r
                 case Err => spec.view == Failed
                 case Ok(h) =>
                   && fresh(h) && h.cipher != null && fresh(h.cipher) && h.Valid() && Synchronizable(h.View())
                   && spec.view == Authenticated(plan.login, h.View()) && link.NetView() == spec.net
    {
      hide Exchanged, H.Installed;
      var handshake := new H.HandshakeDriver(plan.derivation);
      var _ := handshake.Hello();
      var reply :- Exchange(HELLO, plan.hello);
      var challenge := plan.parseChallenge(reply);
      var _ :- handshake.OnChallenge(challenge);
      var _ := handshake.Auth();
      reply :- Exchange(AUTH, plan.auth(challenge.value.challenge));
      assert handshake.View() == H.FRESH.(phase := H.AuthSent, challenge := Some(challenge.value.challenge));
      ghost var installed := AfterAuth(plan, challenge.value.challenge, reply);
      var _ :- handshake.OnAuthResult(plan.parseAuth(reply));
      assert handshake.View() == installed;
      if !handshake.phase.SessionKeysReady? {
        return Err;
      }
      return Ok(handshake);
    }

    method Exchange(command: byte, body: seq<byte>) returns (r: Result<seq<byte>>)
      requires link.Valid()
      modifies link, link.parser
      ensures link.OutView() == Exchanged(old(link.OutView()), old(link.NetView()), command, body).0
      ensures match Exchanged(old(link.OutView()), old(link.NetView()), command, body).1
              case Ok((bytes, net)) => r == Ok(bytes) && link.NetView() == net
              case Err => r.Err?
    {
      hide StartupReply;
      var sequence := link.NextSequence();
      var _ :- link.Send(Frame(command, sequence, FINAL, body));
      r := Reply(command, sequence);
    }

    // The next frame, which must be the awaited startup reply.
    method Reply(command: byte, sequence: u16) returns (r: Result<seq<byte>>)
      requires link.Valid()
      modifies link`pending, link`incoming, link.parser`buffer
      ensures match StartupReply(old(link.NetView()), command, sequence)
              case Ok((bytes, net)) => r == Ok(bytes) && link.NetView() == net
              case Err => r.Err?
    {
      hide NextFrame, StartupDecrypted;
      var polled :- link.PollFrame();
      if polled.None? {
        return Err;
      }
      var frame := polled.value;
      if frame.command != command || frame.sequence != sequence || !frame.IsFinal() || frame.IsCompressed() {
        return Err;
      }
      r := StartupDecrypt(frame.payload, STARTUP_KEY);
    }

    method Synchronize(plan: SyncPlan) returns (r: Result<AccountState>)
      requires Valid()
      modifies Repr()
      ensures Valid() && fresh(Repr() - old(Repr()))
      ensures Becomes(TheWorld(), SynchronizeStep(old(TheWorld()), plan))
      ensures r.Ok? <==> old(TheView()).Authenticated? && TheView().Ready?
      ensures r.Ok? ==> r.value == TheView().rx.account
    {
      hide Synchronized;
      if !state.SAuthenticated? || !plan.profileMatches {
        return Err;
      }
      var handshake, login := state.handshake, state.login;
      ghost var spec := Synchronized(plan, login, handshake.View(), link.OutView(), link.NetView());
      state := SFailed;
      state :- Resynchronize(handshake, login, plan);
      return Ok(state.account);
    }

    method Resynchronize(handshake: H.HandshakeDriver, login: nat, plan: SyncPlan) returns (r: Result<State>)
      requires link.Valid() && handshake.Valid() && handshake.cipher != null && Synchronizable(handshake.View())
      modifies link, link.parser, handshake, handshake.cipher
      ensures var spec := Synchronized(plan, login, old(handshake.View()), old(link.OutView()), old(link.NetView()));
              && link.OutView() == spec.out
              && match r
                 case Err => spec.view == Failed
                 case Ok(st) =>
                   && st.SReady? && st.rx.Valid() && st.tx.Valid() && st.rx.key == st.tx.key
                   && fresh(st.rx) && st.tx == old(handshake.cipher) && fresh(st.messages)
                   && st.messages.maxMessage == R.MAX_MESSAGE && st.messages.maxPending == R.MAX_PENDING
                   && spec.view == Ready(st.rx.key,
                                         RxState(st.rx.State(), st.account, st.readOnly, st.messages.pending),
                                         st.tx.State(), st.tradeKey)
                   && link.NetView() == spec.net
    {
      hide NextFrame, Encrypted, Decrypted, Advance, CollectSync;
      var sequence := link.NextSequence();
      var ciphertext := handshake.Sync(plan.body);
      var _ :- link.Send(Frame(ACCOUNT_STATE, sequence, FINAL, ciphertext.value));
      var rx := new SessionCipher(handshake.sessionKey.value);
      var payload :- Collect(rx, sequence);
      var account :- plan.parse(payload);
      if account.login != login {
        return Err;
      }
      var tx := handshake.TakeSendCipher();
      var readOnly := account.IsReadOnly();
      if !readOnly {
        readOnly :- plan.profileReadOnly;
      }
      var messages := new R.Reassembler(R.MAX_MESSAGE, R.MAX_PENDING);
      return Ok(SReady(rx, tx.value, handshake.tradeKey, account, readOnly, messages));
    }

    method Collect(rx: SessionCipher, sequence: u16) returns (r: Result<seq<byte>>)
      requires link.Valid() && rx.Valid()
      modifies link`pending, link`incoming, link.parser`buffer, rx
      ensures match CollectSync(rx.key, old(link.NetView()), old(rx.State()), sequence, [])
              case Ok((payload, net, at)) => r == Ok(payload) && link.NetView() == net && rx.State() == at
              case Err => r.Err?
    {
      hide NextFrame, Decrypted, Advance, UnwrapPayload;
      var payload := [];
      while true
        invariant |payload| <= MAX_MESSAGE
        invariant CollectSync(rx.key, old(link.NetView()), old(rx.State()), sequence, []) ==
                  CollectSync(rx.key, link.NetView(), rx.State(), sequence, payload)
        decreases |link.incoming|, |link.pending|
      {
        var polled :- link.PollFrame();
        if polled.None? {
          return Err;
        }
        var frame := polled.value;
        if frame.command == PING && |frame.payload| == 0 {
          continue;
        }
        if frame.command != ACCOUNT_STATE || frame.sequence != sequence {
          return Err;
        }
        var bytes := rx.Decrypt(frame.payload);
        if frame.IsCompressed() {
          bytes :- DecompressPayload(bytes, MAX_MESSAGE - |payload|);
        }
        if |bytes| > MAX_MESSAGE - |payload| {
          return Err;
        }
        payload := payload + bytes;
        if frame.IsFinal() {
          return Ok(payload);
        }
      }
    }

    method SendTrade(record: seq<byte>, sign: (seq<byte>, seq<byte>) -> Result<seq<byte>>) returns (r: Result<u16>)
      requires Valid()
      modifies Repr()
      ensures Valid() && fresh(Repr() - old(Repr()))
      ensures Becomes(TheWorld(), TradeStep(old(TheWorld()), record, sign))
      ensures r.Ok? ==> r.value == old(link.sequence)
    {
      hide Encrypted, Advance, WrapPayload;
      if !state.SReady? || state.readOnly {
        return Err;
      }
      if state.tradeKey.None? {
        return Err;
      }
      var body := sign(record, state.tradeKey.value);
      if body.Err? {
        return Err;
      }
      var payload := MakeCompressedPayload(body.value);
      if payload.Err? {
        return Err;
      }
      r := SendEncoded(TRADE_REQUEST, payload.value, FINAL + 1);
    }

    /** Receive until a message is complete or the deadline passes. An idle poll
        keeps ciphers, partial frames and partial messages; anything malformed
        fails the session. */
    method PollMessage() returns (r: Result<Option<R.Message>>)
      requires Valid()
      modifies Repr()
      ensures Valid() && fresh(Repr() - old(Repr()))
      ensures Becomes(TheWorld(), PollStep(old(TheWorld())))
      ensures match old(TheView())
              case Ready(key, rx, _, _) =>
                (match Poll(key, old(link.NetView()), rx)
                 case Ok((message, _, _)) => r == Ok(message)
                 case Err => r.Err?)
              case _ => r.Err?
    {
      hide Receive, NextFrame;
      if !state.SReady? {
        return Err;
      }
      var ready := state;
      var rx, messages := ready.rx, ready.messages;
      var account, readOnly := ready.account, ready.readOnly;
      ghost var start := old(TheView()).rx;
      state := SFailed;
      while true
        invariant link.Valid() && rx.Valid() && messages.maxMessage == R.MAX_MESSAGE
          && messages.maxPending == R.MAX_PENDING
        invariant state == SFailed
        invariant link.OutView() == old(link.OutView()) && ready.tx.State() == old(TheView()).tx
        invariant Poll(rx.key, old(link.NetView()), start) ==
                  Poll(rx.key, link.NetView(), RxState(rx.State(), account, readOnly, messages.pending))
        decreases |link.incoming|, |link.pending|
      {
        var polled :- link.PollFrame();
        if polled.None? {
          state := ready.(account := account, readOnly := readOnly);
          return Ok(None);
        }
        var received :- Admit(rx, messages, account, readOnly, polled.value);
        account, readOnly := received.1, received.2;
        if received.0.Some? {
          state := ready.(account := account, readOnly := readOnly);
          return Ok(received.0);
        }
      }
    }
  }

  // One frame through the cipher, the decompressor and the reassembler, and its
  // effect on the account.
  method Admit(rx: SessionCipher, messages: R.Reassembler, account: AccountState, readOnly: bool, frame: Frame)
    returns (r: Result<(Option<R.Message>, AccountState, bool)>)
    requires rx.Valid() && messages.maxMessage == R.MAX_MESSAGE && messages.maxPending == R.MAX_PENDING
    modifies rx, messages
    ensures match Receive(rx.key, RxState(old(rx.State()), account, readOnly, old(messages.pending)), frame)
            case Ok((message, st)) =>
              r == Ok((message, st.account, st.readOnly)) && rx.State() == st.cipher && messages.pending == st.pending
            case Err => r.Err?
  {
    hide Decrypted, Advance, UnwrapPayload, R.Acceptable, R.After, R.Completed, AccountUpdates, ApplyUpdates;
    var bytes := rx.Decrypt(frame.payload);
    if frame.IsCompressed() {
      bytes :- DecompressPayload(bytes, MAX_MESSAGE);
    }
    var message :- messages.Push(R.Fragment(frame.command, frame.sequence, frame.IsFinal(), bytes));
    if message.Some? && IsAccountUpdate(message.value) {
      var updates :- ParseAccountUpdate19(message.value.payload);
      if exists u :: u in updates && u.login != account.login {
        return Err;
      }
      var latest, restricted := Applied(account, readOnly, updates);
      return Ok((message, latest, restricted));
    }
    return Ok((message, account, readOnly));
  }

  method Applied(start: AccountState, startReadOnly: bool, updates: seq<AccountState>)
    returns (account: AccountState, readOnly: bool)
    ensures (account, readOnly) == ApplyUpdates(start, startReadOnly, updates)
    ensures account == if |updates| == 0 then start else updates[|updates| - 1]
    ensures readOnly <==> startReadOnly || exists u :: u in updates && u.tradeFlags % 16 >= 8
  {
    UpdatesMean(start, startReadOnly, updates);
    account, readOnly := start, startReadOnly;
    assert updates[0..] == updates;
    for i := 0 to |updates|
      invariant ApplyUpdates(account, readOnly, updates[i..]) == ApplyUpdates(start, startReadOnly, updates)
    {
      assert updates[i..][1..] == updates[i + 1..];
      readOnly := readOnly || updates[i].IsReadOnly();
      account := updates[i];
    }
  }
}
