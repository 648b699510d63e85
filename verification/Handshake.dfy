/** The authentication handshake: phases, key installation and the transmit cipher. */
module Handshake {
  import opened Results
  import opened Bits
  import opened Cipher

  datatype Phase =
    | Init | HelloSent | ChallengeReceived | AuthSent | CertificateRequired | SessionKeysReady | SyncSent | Failed

  datatype Challenge = Challenge(status: i32, challenge: seq<byte>)

  datatype AuthResult = AuthResult(status: i32, serverBuild: int, tlvs: seq<(byte, seq<byte>)>)

  /** The key derivations for one login and password. */
  datatype Derivation = Derivation(session: seq<byte> -> seq<byte>, trade: seq<byte> -> seq<byte>)

  /** Everything a handshake holds. */
  datatype State = State(
    phase: Phase, challenge: Option<seq<byte>>, serverBuild: Option<int>,
    sessionKey: Option<seq<byte>>, tradeKey: Option<seq<byte>>,
    cipher: Option<CipherState>, result: Option<AuthResult>)

  const FRESH: State := State(Init, None, None, None, None, None, None)
  const WIPED: State := State(Failed, None, None, None, None, None, None)

  // ---- keys from the reply ------------------------------------------------

  function LastValue(tlvs: seq<(byte, seq<byte>)>, tag: byte): Option<seq<byte>> {
    if |tlvs| == 0 then None
    else if tlvs[|tlvs| - 1].0 == tag then Some(tlvs[|tlvs| - 1].1)
    else LastValue(tlvs[..|tlvs| - 1], tag)
  }

  predicate AnyEmpty(tlvs: seq<(byte, seq<byte>)>, tag: byte) {
    exists t :: t in tlvs && t.0 == tag && |t.1| == 0
  }

  /** The session key: from the last TLV 7, provided no TLV 7 is empty and the
      key comes out nonempty. */
  function SessionKeyFrom(d: Derivation, tlvs: seq<(byte, seq<byte>)>): Result<seq<byte>> {
    if AnyEmpty(tlvs, 7) then Err else
    match LastValue(tlvs, 7)
    case None => Err
    case Some(v) => if |d.session(v)| == 0 then Err else Ok(d.session(v))
  }

  function TradeKeyFrom(d: Derivation, tlvs: seq<(byte, seq<byte>)>): Option<seq<byte>> {
    match LastValue(tlvs, 27)
    case None => None
    case Some(v) => Some(d.trade(v))
  }

  method DeriveKeys(d: Derivation, tlvs: seq<(byte, seq<byte>)>)
    returns (r: Result<(Option<seq<byte>>, Option<seq<byte>>)>)
    ensures r.Err? <==> AnyEmpty(tlvs, 7)
    ensures r.Ok? ==> r.value.0 == (match LastValue(tlvs, 7) case None => None case Some(v) => Some(d.session(v)))
    ensures r.Ok? ==> r.value.1 == TradeKeyFrom(d, tlvs)
  {
    var sessionKey, tradeKey := None, None;
    for i := 0 to |tlvs|
      invariant !AnyEmpty(tlvs[..i], 7)
      invariant sessionKey == match LastValue(tlvs[..i], 7) case None => None case Some(v) => Some(d.session(v))
      invariant tradeKey == TradeKeyFrom(d, tlvs[..i])
    {
      assert tlvs[..i + 1][..i] == tlvs[..i];
      var (tag, value) := tlvs[i];
      if tag == 7 {
        if |value| == 0 {
          assert tlvs[i] in tlvs;
          return Err;
        }
        sessionKey := Some(d.session(value));
      } else if tag == 27 {
        tradeKey := Some(d.trade(value));
      }
    }
    assert tlvs[..|tlvs|] == tlvs;
    return Ok((sessionKey, tradeKey));
  }

  // ---- the machine --------------------------------------------------------

  datatype Call =
    | Hello
    | OnChallenge(challengeReply: Result<Challenge>)
    | Auth
    | OnAuthResult(authReply: Result<AuthResult>)
    | Certificate(certificateBody: Result<seq<byte>>)
    | Sync(syncBody: seq<byte>)
    | TakeCipher

  /** What a call returns besides success: the ciphertext of a frame, or the
      cipher that is handed over. */
  datatype Output = Nothing | Sent(ciphertext: seq<byte>) | Handed(cipher: CipherState)

  function Accepts(h: State, call: Call): bool {
    match call
    case Hello => h.phase.Init?
    case OnChallenge(_) => h.phase.HelloSent?
    case Auth => h.phase.ChallengeReceived?
    case OnAuthResult(_) => h.phase.AuthSent?
    case Certificate(_) => h.phase.CertificateRequired?
    case Sync(_) => h.phase.SessionKeysReady?
    case TakeCipher => h.phase.SyncSent?
  }

  function Installed(d: Derivation, h: State, reply: AuthResult): Result<State> {
    if (reply.status != 0 && reply.status != 1003) || reply.serverBuild <= 0 then Err else
    var key :- SessionKeyFrom(d, reply.tlvs);
    Ok(h.(sessionKey := Some(key), tradeKey := TradeKeyFrom(d, reply.tlvs), cipher := Some(START),
          serverBuild := Some(reply.serverBuild), result := Some(reply),
          phase := if reply.status == 1003 then CertificateRequired else SessionKeysReady))
  }

  /** One call on a handshake in a given state: its outcome and the state after.
      A call out of order changes nothing; a bad reply wipes everything. */
  function Step(d: Derivation, h: State, call: Call): (Result<Output>, State) {
    if !Accepts(h, call) then (Err, h) else
    match call
    case Hello => (Ok(Nothing), h.(phase := HelloSent))
    case OnChallenge(reply) =>
      if reply.Ok? && reply.value.status == 0
      then (Ok(Nothing), h.(challenge := Some(reply.value.challenge), phase := ChallengeReceived))
      else (Err, WIPED)
    case Auth =>
      if h.challenge.None? then (Err, h) else (Ok(Nothing), h.(phase := AuthSent))
    case OnAuthResult(reply) =>
      if reply.Err? then (Err, WIPED) else
      (match Installed(d, h, reply.value)
       case Ok(next) => (Ok(Nothing), next)
       case Err => (Err, WIPED))
    case Certificate(body) =>
      if body.Err? || h.cipher.None? || !Usable(h) then (Err, h)
      else (Ok(Sent(Encrypted(h.sessionKey.value, h.cipher.value, body.value))),
            h.(phase := SessionKeysReady, cipher := Some(Advance(h.cipher.value, body.value))))
    case Sync(body) =>
      if h.cipher.None? || !Usable(h) then (Err, h)
      else (Ok(Sent(Encrypted(h.sessionKey.value, h.cipher.value, body))),
            h.(phase := SyncSent, cipher := Some(Advance(h.cipher.value, body))))
    case TakeCipher =>
      if h.cipher.None? then (Err, h) else (Ok(Handed(h.cipher.value)), h.(cipher := None))
  }

  predicate Usable(h: State) {
    h.sessionKey.Some? && |h.sessionKey.value| > 0
  }

  class HandshakeDriver {
    const derivation: Derivation
    var phase: Phase
    var challenge: Option<seq<byte>>
    var serverBuild: Option<int>
    var sessionKey: Option<seq<byte>>
    var tradeKey: Option<seq<byte>>
    var cipher: SessionCipher?
    var result: Option<AuthResult>

    ghost predicate Valid()
      reads this, cipher
    {
      cipher != null ==> cipher.Valid() && sessionKey == Some(cipher.key)
    }

    ghost function View(): State
      reads this, cipher
    {
      State(phase, challenge, serverBuild, sessionKey, tradeKey,
            if cipher == null then None else Some(cipher.State()), result)
    }

    constructor (derivation: Derivation)
      ensures Valid() && this.derivation == derivation && View() == FRESH && cipher == null
    {
      this.derivation, phase := derivation, Init;
      challenge, serverBuild, sessionKey, tradeKey, cipher, result := None, None, None, None, null, None;
    }

    method Fail()
      modifies this
      ensures Valid() && View() == WIPED && cipher == null
    {
      phase := Failed;
      challenge, serverBuild, sessionKey, tradeKey, cipher, result := None, None, None, None, null, None;
    }

    method Hello() returns (r: Result<()>)
      requires Valid()
      modifies this
      ensures Valid() && cipher == old(cipher)
      ensures View() == Step(derivation, old(View()), Call.Hello).1
      ensures r.Ok? <==> Step(derivation, old(View()), Call.Hello).0.Ok?
    {
      if !phase.Init? {
        return Err;
      }
      phase := HelloSent;
      return Ok(());
    }

    method OnChallenge(reply: Result<Challenge>) returns (r: Result<()>)
      requires Valid()
      modifies this
      ensures Valid()
      ensures View() == Step(derivation, old(View()), Call.OnChallenge(reply)).1
      ensures r.Ok? <==> Step(derivation, old(View()), Call.OnChallenge(reply)).0.Ok?
      ensures cipher == old(cipher) || cipher == null
    {
      if !phase.HelloSent? {
        return Err;
      }
      if reply.Err? {
        Fail();
        return Err;
      }
      if reply.value.status != 0 {
        Fail();
        return Err;
      }
      challenge := Some(reply.value.challenge);
      phase := ChallengeReceived;
      return Ok(());
    }

    method Auth() returns (r: Result<()>)
      requires Valid()
      modifies this
      ensures Valid() && cipher == old(cipher)
      ensures View() == Step(derivation, old(View()), Call.Auth).1
      ensures r.Ok? <==> Step(derivation, old(View()), Call.Auth).0.Ok?
    {
      if !phase.ChallengeReceived? {
        return Err;
      }
      if challenge.None? {
        return Err;
      }
      phase := AuthSent;
      return Ok(());
    }

    method OnAuthResult(reply: Result<AuthResult>) returns (r: Result<()>)
      requires Valid()
      modifies this
      ensures Valid()
      ensures View() == Step(derivation, old(View()), Call.OnAuthResult(reply)).1
      ensures r.Ok? <==> Step(derivation, old(View()), Call.OnAuthResult(reply)).0.Ok?
      ensures cipher == old(cipher) || cipher == null || fresh(cipher)
    {
      hide LastValue, AnyEmpty;
      if !phase.AuthSent? {
        return Err;
      }
      if reply.Err? {
        Fail();
        return Err;
      }
      var auth := reply.value;
      if auth.status != 0 && auth.status != 1003 {
        Fail();
        return Err;
      }
      if auth.serverBuild <= 0 {
        Fail();
        return Err;
      }
      var keys := DeriveKeys(derivation, auth.tlvs);
      if keys.Err? {
        Fail();
        return Err;
      }
      var (session, trade) := keys.value;
      if session.None? {
        Fail();
        return Err;
      }
      var created := SessionCipher.Create(session.value);
      if created.Err? {
        Fail();
        return Err;
      }
      cipher := created.value;
      sessionKey := session;
      tradeKey := trade;
      serverBuild := Some(auth.serverBuild);
      phase := if auth.status == 1003 then CertificateRequired else SessionKeysReady;
      result := Some(auth);
      return Ok(());
    }

    method CertificateContinuation(body: Result<seq<byte>>) returns (r: Result<seq<byte>>)
      requires Valid()
      modifies this, cipher
      ensures Valid() && cipher == old(cipher)
      ensures View() == Step(derivation, old(View()), Certificate(body)).1
      ensures Step(derivation, old(View()), Certificate(body)).0 == if r.Ok? then Ok(Sent(r.value)) else Err
    {
      hide Encrypted, Advance;
      if !phase.CertificateRequired? || body.Err? {
        return Err;
      }
      if cipher == null {
        return Err;
      }
      var ciphertext := cipher.Encrypt(body.value);
      phase := SessionKeysReady;
      return Ok(ciphertext);
    }

    method Sync(body: seq<byte>) returns (r: Result<seq<byte>>)
      requires Valid()
      modifies this, cipher
      ensures Valid() && cipher == old(cipher)
      ensures View() == Step(derivation, old(View()), Call.Sync(body)).1
      ensures Step(derivation, old(View()), Call.Sync(body)).0 == if r.Ok? then Ok(Sent(r.value)) else Err
    {
      hide Encrypted, Advance;
      if !phase.SessionKeysReady? {
        return Err;
      }
      if cipher == null {
        return Err;
      }
      var ciphertext := cipher.Encrypt(body);
      phase := SyncSent;
      return Ok(ciphertext);
    }

    method TakeSendCipher() returns (r: Result<SessionCipher>)
      requires Valid()
      modifies this
      ensures Valid()
      ensures View() == Step(derivation, old(View()), TakeCipher).1
      ensures r.Ok? <==> Step(derivation, old(View()), TakeCipher).0.Ok?
      ensures r.Ok? ==> r.value == old(cipher) && cipher == null && r.value.Valid()
      ensures r.Ok? ==> old(View()).cipher == Some(r.value.State()) && old(sessionKey) == Some(r.value.key)
    {
      if !phase.SyncSent? {
        return Err;
      }
      if cipher == null {
        return Err;
      }
      r := Ok(cipher);
      cipher := null;
    }
  }

  // ---- what an authentication reply installs ------------------------------

  /** The last TLV with the tag is at `i`. */
  predicate LastTagged(tlvs: seq<(byte, seq<byte>)>, tag: byte, i: nat) {
    i < |tlvs| && tlvs[i].0 == tag && forall j :: i < j < |tlvs| ==> tlvs[j].0 != tag
  }

  lemma {:induction false} LastValueMeans(tlvs: seq<(byte, seq<byte>)>, tag: byte)
    ensures match LastValue(tlvs, tag)
      case Some(v) => exists i :: 0 <= i < |tlvs| && LastTagged(tlvs, tag, i) && v == tlvs[i].1
      case None => forall i :: 0 <= i < |tlvs| ==> tlvs[i].0 != tag
  {
    if |tlvs| > 0 {
      var n := |tlvs| - 1;
      LastValueMeans(tlvs[..n], tag);
      assert forall i :: 0 <= i < n ==> tlvs[..n][i] == tlvs[i];
      if tlvs[n].0 == tag {
        assert LastTagged(tlvs, tag, n);
      } else if LastValue(tlvs[..n], tag).Some? {
        var i :| 0 <= i < n && LastTagged(tlvs[..n], tag, i) && LastValue(tlvs[..n], tag).value == tlvs[..n][i].1;
        assert LastTagged(tlvs, tag, i);
      }
    }
  }

  /** A reply that can be used: status 0 or 1003, a positive build, no empty TLV 7, and a
      last TLV 7 whose session key is not empty. */
  predicate UsableReply(d: Derivation, reply: Result<AuthResult>) {
    reply.Ok? &&
    var (status, tlvs) := (reply.value.status, reply.value.tlvs);
    && (status == 0 || status == 1003) && reply.value.serverBuild > 0
    && (forall i :: 0 <= i < |tlvs| ==> !(tlvs[i].0 == 7 && tlvs[i].1 == []))
    && exists i :: 0 <= i < |tlvs| && LastTagged(tlvs, 7, i) && d.session(tlvs[i].1) != []
  }

  /** What a usable reply leaves: the session key from the last TLV 7, the trade key from
      the last TLV 27 if there is one, a fresh cipher, and a certificate still required
      exactly when the status is 1003. */
  ghost predicate InstalledFrom(d: Derivation, before: State, reply: AuthResult, after: State) {
    && after.phase == (if reply.status == 1003 then CertificateRequired else SessionKeysReady)
    && (exists i :: 0 <= i < |reply.tlvs| && LastTagged(reply.tlvs, 7, i)
                    && after.sessionKey == Some(d.session(reply.tlvs[i].1)))
    && (match after.tradeKey
        case Some(key) =>
          exists i :: 0 <= i < |reply.tlvs| && LastTagged(reply.tlvs, 27, i) && key == d.trade(reply.tlvs[i].1)
        case None => forall i :: 0 <= i < |reply.tlvs| ==> reply.tlvs[i].0 != 27)
    && after.cipher == Some(CipherState(0, 0)) && after.serverBuild == Some(reply.serverBuild)
    && after.result == Some(reply) && after.challenge == before.challenge
  }

  /** An awaited authentication reply: if it can be used, its keys are installed; any
      other fails the handshake and wipes what it held. */
  lemma ReplyInstalls(d: Derivation, h: State, reply: Result<AuthResult>)
    requires h.phase.AuthSent?
    ensures var (outcome, after) := Step(d, h, Call.OnAuthResult(reply));
      if UsableReply(d, reply) then outcome.Ok? && InstalledFrom(d, h, reply.value, after)
      else outcome.Err? && after == State(Failed, None, None, None, None, None, None)
  {
    hide LastValue;
    if reply.Ok? {
      var tlvs := reply.value.tlvs;
      LastValueMeans(tlvs, 7);
      LastValueMeans(tlvs, 27);
      assert AnyEmpty(tlvs, 7) <==> exists i :: 0 <= i < |tlvs| && tlvs[i].0 == 7 && tlvs[i].1 == [];
      forall i, j | 0 <= i < |tlvs| && 0 <= j < |tlvs| && LastTagged(tlvs, 7, i) && LastTagged(tlvs, 7, j)
        ensures i == j
      {
      }
    }
  }

  // ---- every order of calls -----------------------------------------------

  predicate HoldsKeys(phase: Phase) {
    phase.CertificateRequired? || phase.SessionKeysReady? || phase.SyncSent?
  }

  /** A run so far: the state, and what went through the transmit cipher. */
  datatype Run = Run(h: State, plain: seq<byte>, ciphertext: seq<byte>, handed: Option<CipherState>)

  function RunStep(d: Derivation, run: Run, call: Call): Run {
    var (outcome, next) := Step(d, run.h, call);
    match outcome
    case Ok(Sent(c)) =>
      var body := if call.Sync? then call.syncBody
                  else if call.Certificate? && call.certificateBody.Ok? then call.certificateBody.value
                  else [];
      Run(next, run.plain + body, run.ciphertext + c, run.handed)
    case Ok(Handed(at)) => Run(next, run.plain, run.ciphertext, Some(at))
    case _ => Run(next, run.plain, run.ciphertext, run.handed)
  }

  function RunOf(d: Derivation, calls: seq<Call>): Run {
    if |calls| == 0 then Run(FRESH, [], [], None)
    else RunStep(d, RunOf(d, calls[..|calls| - 1]), calls[|calls| - 1])
  }

  /** What every run keeps. */
  predicate Sane(run: Run) {
    var h := run.h;
    && (h.sessionKey.Some? <==> HoldsKeys(h.phase))
    && (h.tradeKey.Some? || h.cipher.Some? || h.serverBuild.Some? || h.result.Some? ==> h.sessionKey.Some?)
    && (h.phase.CertificateRequired? || h.phase.SessionKeysReady? ==> h.cipher.Some?)
    && (h.challenge.None? ==> h.phase.Init? || h.phase.HelloSent? || h.phase.Failed?)
    && (h.phase.Failed? ==> h == WIPED)
    && match h.sessionKey
       case None => run.plain == [] && run.ciphertext == [] && run.handed.None?
       case Some(key) =>
         && |key| > 0
         && run.ciphertext == Encrypted(key, START, run.plain)
         && (h.cipher.Some? ==> h.cipher.value == Advance(START, run.plain) && run.handed.None?)
         && (h.cipher.None? ==> run.handed == Some(Advance(START, run.plain)))
  }

  lemma StepSane(d: Derivation, run: Run, call: Call)
    requires Sane(run)
    ensures Sane(RunStep(d, run, call))
    ensures run.h.phase.Failed? ==> RunStep(d, run, call) == run
  {
    hide Encrypted, Advance, SessionKeyFrom, TradeKeyFrom;
    if run.h.sessionKey.Some? && |run.h.sessionKey.value| > 0 {
      var key := run.h.sessionKey.value;
      match call
      case Sync(body) => EncryptInPieces(key, START, run.plain, body);
      case Certificate(Ok(body)) => EncryptInPieces(key, START, run.plain, body);
      case _ =>
    }
    EmptyStream(d, call);
  }

  lemma EmptyStream(d: Derivation, call: Call)
    ensures forall key: seq<byte> :: |key| > 0 ==> Encrypted(key, START, []) == []
    ensures Advance(START, []) == START
    ensures call.OnAuthResult? && call.authReply.Ok? ==>
      var k := SessionKeyFrom(d, call.authReply.value.tlvs); k.Ok? ==> |k.value| > 0
  {
    hide LastValue, AnyEmpty;
  }

  /** After any calls in any order: session keys exist exactly in the three
      phases after a good reply; a failed handshake holds nothing a reply
      brought; and the frames sent, with the cipher handed over, are one cipher
      stream from position 0. */
  lemma {:induction false} EveryRunSane(d: Derivation, calls: seq<Call>)
    ensures Sane(RunOf(d, calls))
  {
    hide Sane;
    if |calls| == 0 {
      StartSane(d);
    } else {
      EveryRunSane(d, calls[..|calls| - 1]);
      StepSane(d, RunOf(d, calls[..|calls| - 1]), calls[|calls| - 1]);
    }
  }

  lemma StartSane(d: Derivation)
    ensures Sane(Run(FRESH, [], [], None))
  {
  }

  /** Failure is final: no further calls change anything. */
  lemma {:induction false} FailedIsFinal(d: Derivation, calls: seq<Call>, more: seq<Call>)
    requires RunOf(d, calls).h.phase.Failed?
    ensures RunOf(d, calls + more) == RunOf(d, calls)
    decreases |more|
  {
    hide Sane, RunStep;
    if |more| == 0 {
      assert calls + more == calls;
    } else {
      var n := |more| - 1;
      assert (calls + more)[..|calls + more| - 1] == calls + more[..n];
      FailedIsFinal(d, calls, more[..n]);
      EveryRunSane(d, calls + more[..n]);
      StepSane(d, RunOf(d, calls + more[..n]), more[n]);
    }
  }

  /** A bad challenge or authentication reply, taken in its own phase. */
  predicate BadReply(d: Derivation, h: State, call: Call) {
    Accepts(h, call) &&
    match call
    case OnChallenge(reply) => reply.Err? || reply.value.status != 0
    case OnAuthResult(reply) =>
      reply.Err? || (reply.value.status != 0 && reply.value.status != 1003) || reply.value.serverBuild <= 0
      || SessionKeyFrom(d, reply.value.tlvs).Err?
    case _ => false
  }

  lemma StepFails(d: Derivation, run: Run, call: Call)
    requires Sane(run)
    ensures RunStep(d, run, call).h.phase.Failed? <==> run.h.phase.Failed? || BadReply(d, run.h, call)
  {
    hide SessionKeyFrom, TradeKeyFrom, Encrypted, Advance;
  }

  /** Over every order of calls, a handshake has failed if and only if some call of
      the run brought a bad reply while it was awaited: calls out of order, failed
      certificate bodies and repeated hand-overs never fail it. */
  lemma {:induction false} FailsExactly(d: Derivation, calls: seq<Call>)
    ensures RunOf(d, calls).h.phase.Failed? <==>
            exists i :: 0 <= i < |calls| && BadReply(d, RunOf(d, calls[..i]).h, calls[i])
  {
    hide BadReply, RunStep, Sane;
    if |calls| == 0 {
      FreshRun(d, calls);
    } else {
      var n := |calls| - 1;
      FailsExactly(d, calls[..n]);
      EveryRunSane(d, calls[..n]);
      StepFails(d, RunOf(d, calls[..n]), calls[n]);
      assert forall i :: 0 <= i <= n ==> calls[..n][..i] == calls[..i];
      assert forall i :: 0 <= i < n ==> calls[..n][i] == calls[i];
      if RunOf(d, calls[..n]).h.phase.Failed? {
        var i :| 0 <= i < n && BadReply(d, RunOf(d, calls[..n][..i]).h, calls[..n][i]);
        assert BadReply(d, RunOf(d, calls[..i]).h, calls[i]);
      }
      if i :| 0 <= i < |calls| && BadReply(d, RunOf(d, calls[..i]).h, calls[i]) {
        assert i < n ==> BadReply(d, RunOf(d, calls[..n][..i]).h, calls[..n][i]);
      }
    }
  }

  lemma FreshRun(d: Derivation, calls: seq<Call>)
    requires |calls| == 0
    ensures RunOf(d, calls).h == FRESH
  {
  }
}
