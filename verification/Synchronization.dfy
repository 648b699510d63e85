/** Logging in over the wire, however the bytes are cut: two startup replies, then an
    account state sent in parts, some wrapped, with pings between them. */
module Synchronization {
  import opened Results
  import opened Bits
  import opened Framing
  import opened Cipher
  import opened Compression
  import opened Account
  import opened Delivery
  import opened Connection
  import opened Session
  import H = Handshake

  // ---- frames from a live connection --------------------------------------

  /** Reads that all bring something: logging in has no patience for silence. */
  predicate Live(incoming: seq<Read>) {
    forall read :: read in incoming ==> read.Data? && |read.bytes| > 0
  }

  /** A connection that still holds these frames, in whatever pieces. */
  ghost predicate Holds(net: Net, frames: seq<Frame>) {
    Sound(net) && Live(net.incoming) && Total(net).Ok? && Total(net).value.0 == frames
  }

  lemma {:induction false} LiveNext(net: Net)
    requires Live(net.incoming) && NextFrame(net).Ok?
    ensures var (frame, after) := NextFrame(net).value;
      Live(after.incoming) && (frame.None? ==> |after.queue| == 0 && |after.incoming| == 0)
    decreases |net.incoming|
  {
    hide Parse;
    if |net.queue| == 0 && |net.incoming| > 0 {
      assert net.incoming[0] in net.incoming;
      var bytes := net.incoming[0].bytes;
      var (frames, rest) := Parse(net.buffer + bytes, WIRE_LIMIT, []).value;
      LiveNext(Net(rest, frames, net.incoming[1..]));
    }
  }

  /** The next frame is the first one held; the rest stays held. */
  lemma FirstHeld(net: Net, frames: seq<Frame>)
    requires Holds(net, frames)
    ensures NextFrame(net).Ok?
    ensures var (frame, after) := NextFrame(net).value;
      if |frames| == 0 then frame == None else frame == Some(frames[0]) && Holds(after, frames[1..])
  {
    hide NextFrame, Sound, Live, Total;
    NextFrameKeepsTotal(net);
    LiveNext(net);
    var (frame, after) := NextFrame(net).value;
    match frame
    case None => NothingLeft(after);
    case Some(f) =>
      var later := Total(after).value.0;
      assert ([f] + later)[1..] == later;
  }

  // ---- collecting the account state ---------------------------------------

  /** Collecting from a list of frames: the payload, the frames after it and the
      receive cipher. */
  function Collected(key: seq<byte>, frames: seq<Frame>, at: CipherState, sequence: u16, payload: seq<byte>):
    Result<(seq<byte>, seq<Frame>, CipherState)>
    requires |key| > 0 && |payload| <= MAX_MESSAGE
    decreases |frames|
  {
    if |frames| == 0 then Err else
    var f := frames[0];
    if f.command == PING && |f.payload| == 0 then Collected(key, frames[1..], at, sequence, payload)
    else if f.command != ACCOUNT_STATE || f.sequence != sequence then Err
    else
      var deciphered := Decrypted(key, at, f.payload);
      var bytes :- if f.IsCompressed() then UnwrapPayload(deciphered, MAX_MESSAGE - |payload|) else Ok(deciphered);
      if |bytes| > MAX_MESSAGE - |payload| then Err
      else if f.IsFinal() then Ok((payload + bytes, frames[1..], Advance(at, deciphered)))
      else Collected(key, frames[1..], Advance(at, deciphered), sequence, payload + bytes)
  }

  /** Collecting from a connection is collecting its frames, however it is cut. */
  lemma {:induction false} CollectingIsStreaming(key: seq<byte>, net: Net, frames: seq<Frame>, at: CipherState,
                                                 sequence: u16, payload: seq<byte>)
    requires |key| > 0 && |payload| <= MAX_MESSAGE && Holds(net, frames)
    ensures match Collected(key, frames, at, sequence, payload)
      case Err => CollectSync(key, net, at, sequence, payload).Err?
      case Ok((whole, rest, end)) => CollectsTo(CollectSync(key, net, at, sequence, payload), whole, rest, end)
    decreases |frames|
  {
    hide Holds, NextFrame, Decrypted, Advance, UnwrapPayload;
    FirstHeld(net, frames);
    if |frames| > 0 {
      var f, after := frames[0], NextFrame(net).value.1;
      if f.command == PING && |f.payload| == 0 {
        CollectingIsStreaming(key, after, frames[1..], at, sequence, payload);
      } else if f.command == ACCOUNT_STATE && f.sequence == sequence {
        var deciphered := Decrypted(key, at, f.payload);
        var bytes := if f.IsCompressed() then UnwrapPayload(deciphered, MAX_MESSAGE - |payload|) else Ok(deciphered);
        if bytes.Ok? && |bytes.value| <= MAX_MESSAGE - |payload| && !f.IsFinal() {
          CollectingIsStreaming(key, after, frames[1..], Advance(at, deciphered), sequence, payload + bytes.value);
        }
      }
    }
  }

  ghost predicate CollectsTo(r: Result<(seq<byte>, Net, CipherState)>, whole: seq<byte>, rest: seq<Frame>,
                             end: CipherState) {
    r.Ok? && r.value.0 == whole && Holds(r.value.1, rest) && r.value.2 == end
  }

  // ---- a reply in parts ---------------------------------------------------

  /** An empty ping, under any number and with any flags. */
  datatype Ping = Ping(sequence: u16, flags: u16)

  /** One part of the reply: the pings that come before it, its bytes, the compressed
      payload it travels as, if any, and the flags of its frame. */
  datatype Part = Part(pings: seq<Ping>, bytes: seq<byte>, wrap: Option<seq<byte>>, flags: u16)

  function Body(p: Part): seq<byte> {
    if p.wrap.Some? then p.wrap.value else p.bytes
  }

  /** The part fits the room left, what it travels as opens to its bytes, and its flags
      say whether it is compressed (bit 0) and the last (bit 1). */
  predicate Opens(p: Part, room: nat, last: bool) {
    && |p.bytes| <= room && (p.wrap.Some? ==> UnwrapPayload(p.wrap.value, room) == Ok(p.bytes))
    && (p.flags % 2 == 1 <==> p.wrap.Some?) && (p.flags / 2 % 2 == 1 <==> last)
  }

  predicate AllOpen(parts: seq<Part>, room: nat)
    decreases |parts|
  {
    |parts| > 0 ==> Opens(parts[0], room, |parts| == 1) && AllOpen(parts[1..], room - |parts[0].bytes|)
  }

  function Joined(parts: seq<Part>): seq<byte> {
    if |parts| == 0 then [] else parts[0].bytes + Joined(parts[1..])
  }

  function Pings(pings: seq<Ping>): seq<Frame> {
    if |pings| == 0 then [] else [Frame(10, pings[0].sequence, pings[0].flags, [])] + Pings(pings[1..])
  }

  function PartFrame(key: seq<byte>, at: CipherState, sequence: u16, p: Part): Frame
    requires |key| > 0
  {
    Frame(12, sequence, p.flags, Encrypted(key, at, Body(p)))
  }

  /** The frames of the reply, enciphered one after another. */
  function ReplyFrames(key: seq<byte>, at: CipherState, sequence: u16, parts: seq<Part>): seq<Frame>
    requires |key| > 0
    decreases |parts|
  {
    if |parts| == 0 then [] else
    Pings(parts[0].pings) + [PartFrame(key, at, sequence, parts[0])]
    + ReplyFrames(key, Advance(at, Body(parts[0])), sequence, parts[1..])
  }

  function CipherAfter(at: CipherState, parts: seq<Part>): CipherState
    decreases |parts|
  {
    if |parts| == 0 then at else CipherAfter(Advance(at, Body(parts[0])), parts[1..])
  }

  lemma {:induction false} PingsSkipped(key: seq<byte>, at: CipherState, sequence: u16, payload: seq<byte>,
                                        pings: seq<Ping>, rest: seq<Frame>)
    requires |key| > 0 && |payload| <= MAX_MESSAGE
    ensures Collected(key, Pings(pings) + rest, at, sequence, payload) == Collected(key, rest, at, sequence, payload)
    decreases |pings|
  {
    hide Decrypted, Advance, UnwrapPayload;
    if |pings| == 0 {
      assert Pings(pings) + rest == rest;
    } else {
      assert (Pings(pings) + rest)[1..] == Pings(pings[1..]) + rest;
      assert (Pings(pings) + rest)[0] == Frame(10, pings[0].sequence, pings[0].flags, []);
      PingsSkipped(key, at, sequence, payload, pings[1..], rest);
    }
  }

  lemma PartCollected(key: seq<byte>, at: CipherState, sequence: u16, payload: seq<byte>, p: Part, last: bool,
                      rest: seq<Frame>)
    requires |key| > 0 && |payload| <= MAX_MESSAGE && Opens(p, MAX_MESSAGE - |payload|, last)
    ensures Collected(key, [PartFrame(key, at, sequence, p)] + rest, at, sequence, payload) ==
            if last then Ok((payload + p.bytes, rest, Advance(at, Body(p))))
            else Collected(key, rest, Advance(at, Body(p)), sequence, payload + p.bytes)
  {
    hide Encrypted, Decrypted, Advance, UnwrapPayload, Collected;
    var frames := [PartFrame(key, at, sequence, p)] + rest;
    assert frames[1..] == rest;
    DecryptUndoesEncrypt(key, at, Body(p));
    FirstCollected(key, frames, at, sequence, payload, Body(p), p.bytes);
  }

  lemma FirstCollected(key: seq<byte>, frames: seq<Frame>, at: CipherState, sequence: u16, payload: seq<byte>,
                       deciphered: seq<byte>, bytes: seq<byte>)
    requires |key| > 0 && |payload| + |bytes| <= MAX_MESSAGE && |frames| > 0
    requires frames[0].command == ACCOUNT_STATE && frames[0].sequence == sequence
    requires Decrypted(key, at, frames[0].payload) == deciphered
    requires if frames[0].IsCompressed() then UnwrapPayload(deciphered, MAX_MESSAGE - |payload|) == Ok(bytes)
             else deciphered == bytes
    ensures Collected(key, frames, at, sequence, payload) ==
            if frames[0].IsFinal() then Ok((payload + bytes, frames[1..], Advance(at, deciphered)))
            else Collected(key, frames[1..], Advance(at, deciphered), sequence, payload + bytes)
  {
    hide Decrypted, Advance, UnwrapPayload;
  }

  /** A reply in parts arrives whole, and both ends' ciphers stand at its end. */
  lemma {:induction false} SyncCollected(key: seq<byte>, at: CipherState, sequence: u16, payload: seq<byte>,
                                         parts: seq<Part>, rest: seq<Frame>)
    requires |key| > 0 && |parts| > 0 && |payload| <= MAX_MESSAGE && AllOpen(parts, MAX_MESSAGE - |payload|)
    ensures Collected(key, ReplyFrames(key, at, sequence, parts) + rest, at, sequence, payload) ==
            Ok((payload + Joined(parts), rest, CipherAfter(at, parts)))
    decreases |parts|
  {
    hide Collected, Advance, PartFrame, Pings, Body, UnwrapPayload;
    var p, last := parts[0], |parts| == 1;
    var later := ReplyFrames(key, Advance(at, Body(p)), sequence, parts[1..]) + rest;
    var frame := PartFrame(key, at, sequence, p);
    assert ReplyFrames(key, at, sequence, parts) + rest == Pings(p.pings) + ([frame] + later);
    PingsSkipped(key, at, sequence, payload, p.pings, [frame] + later);
    PartCollected(key, at, sequence, payload, p, last, later);
    if last {
      assert later == rest;
      assert Joined(parts) == p.bytes;
    } else {
      SyncCollected(key, Advance(at, Body(p)), sequence, payload + p.bytes, parts[1..], rest);
      assert payload + p.bytes + Joined(parts[1..]) == payload + Joined(parts);
    }
  }

  /** Whatever is collected came as such a reply: pings of no bytes, and parts under the
      awaited number, of which only the last was marked so. */
  lemma {:induction false} ReplyFound(key: seq<byte>, frames: seq<Frame>, at: CipherState, sequence: u16,
                                      payload: seq<byte>, pings: seq<Ping>) returns (parts: seq<Part>)
    requires |key| > 0 && |payload| <= MAX_MESSAGE && Collected(key, frames, at, sequence, payload).Ok?
    ensures var (whole, rest, end) := Collected(key, frames, at, sequence, payload).value;
      && |parts| > 0 && AllOpen(parts, MAX_MESSAGE - |payload|) && pings <= parts[0].pings
      && frames == ReplyFrames(key, at, sequence, Later(parts, |pings|)) + rest
      && whole == payload + Joined(parts) && end == CipherAfter(at, parts)
    decreases |frames|
  {
    hide Encrypted, Decrypted, Advance, UnwrapPayload, AllOpen, Opens, PartFrame, Pings, Body, ReplyFrames,
         CipherAfter;
    var f := frames[0];
    assert frames == [f] + frames[1..];
    if f.command == PING && |f.payload| == 0 {
      var more := pings + [Ping(f.sequence, f.flags)];
      parts := ReplyFound(key, frames[1..], at, sequence, payload, more);
      PingFirst(key, at, sequence, parts, |pings|, f);
    } else {
      var deciphered := Decrypted(key, at, f.payload);
      var bytes := if f.IsCompressed() then UnwrapPayload(deciphered, MAX_MESSAGE - |payload|) else Ok(deciphered);
      var p := Part(pings, bytes.value, if f.IsCompressed() then Some(deciphered) else None, f.flags);
      PartFound(key, at, sequence, f, p, MAX_MESSAGE - |payload|);
      if f.IsFinal() {
        parts := [p];
        OnePart(key, at, sequence, p, |pings|, MAX_MESSAGE - |payload|);
        assert payload + bytes.value == payload + Joined(parts);
      } else {
        var next := Advance(at, deciphered);
        var later := ReplyFound(key, frames[1..], next, sequence, payload + bytes.value, []);
        parts := [p] + later;
        MoreParts(key, at, sequence, p, later, |pings|, MAX_MESSAGE - |payload|);
        assert payload + bytes.value + Joined(later) == payload + Joined(parts);
      }
    }
  }

  /** The same parts without the first `n` pings. */
  function Later(parts: seq<Part>, n: nat): seq<Part>
    requires |parts| > 0 && n <= |parts[0].pings|
  {
    [parts[0].(pings := parts[0].pings[n..])] + parts[1..]
  }

  lemma PingFirst(key: seq<byte>, at: CipherState, sequence: u16, parts: seq<Part>, n: nat, f: Frame)
    requires |key| > 0 && |parts| > 0 && n < |parts[0].pings| && f == Frame(10, f.sequence, f.flags, [])
    requires parts[0].pings[n] == Ping(f.sequence, f.flags)
    ensures ReplyFrames(key, at, sequence, Later(parts, n)) == [f] + ReplyFrames(key, at, sequence, Later(parts, n + 1))
  {
    hide PartFrame, Advance;
    var a, b := Later(parts, n), Later(parts, n + 1);
    assert a[0].pings[1..] == b[0].pings && a[1..] == b[1..] && Body(a[0]) == Body(b[0]);
    SameFrame(key, at, sequence, a[0], b[0]);
  }

  lemma SameFrame(key: seq<byte>, at: CipherState, sequence: u16, p: Part, q: Part)
    requires |key| > 0 && p == q.(pings := p.pings)
    ensures PartFrame(key, at, sequence, p) == PartFrame(key, at, sequence, q)
  {
  }

  lemma PartFound(key: seq<byte>, at: CipherState, sequence: u16, f: Frame, p: Part, room: nat)
    requires |key| > 0 && f.command == ACCOUNT_STATE && f.sequence == sequence && |p.bytes| <= room
    requires var deciphered := Decrypted(key, at, f.payload);
      && p.flags == f.flags && p.wrap == (if f.IsCompressed() then Some(deciphered) else None)
      && if f.IsCompressed() then UnwrapPayload(deciphered, room) == Ok(p.bytes) else p.bytes == deciphered
    ensures Body(p) == Decrypted(key, at, f.payload) && PartFrame(key, at, sequence, p) == f
    ensures Opens(p, room, f.IsFinal())
  {
    hide Encrypted, Decrypted, UnwrapPayload;
    EncryptUndoesDecrypt(key, at, f.payload);
  }

  lemma NoPings()
    ensures Pings([]) == []
  {
  }

  lemma OnePart(key: seq<byte>, at: CipherState, sequence: u16, p: Part, n: nat, room: nat)
    requires |key| > 0 && n == |p.pings| && Opens(p, room, true)
    ensures AllOpen([p], room) && Joined([p]) == p.bytes && CipherAfter(at, [p]) == Advance(at, Body(p))
    ensures ReplyFrames(key, at, sequence, Later([p], n)) == [PartFrame(key, at, sequence, p)]
  {
    hide PartFrame, Advance, Pings, Opens, Body;
    var q := p.(pings := []);
    assert [p][1..] == [] && p.pings[n..] == [] && Later([p], n) == [q] && [q][1..] == [];
    SameFrame(key, at, sequence, p, q);
    NoPings();
    assert p.bytes + [] == p.bytes;
  }

  lemma MoreParts(key: seq<byte>, at: CipherState, sequence: u16, p: Part, later: seq<Part>, n: nat, room: nat)
    requires |key| > 0 && n == |p.pings| && Opens(p, room, false) && |later| > 0 && |p.bytes| <= room
    requires AllOpen(later, room - |p.bytes|)
    ensures var parts := [p] + later;
      && AllOpen(parts, room) && Joined(parts) == p.bytes + Joined(later)
      && CipherAfter(at, parts) == CipherAfter(Advance(at, Body(p)), later)
      && ReplyFrames(key, at, sequence, Later(parts, n)) ==
         [PartFrame(key, at, sequence, p)] + ReplyFrames(key, Advance(at, Body(p)), sequence, Later(later, 0))
  {
    hide PartFrame, Advance, Pings, Opens, Body;
    var parts, q := [p] + later, p.(pings := []);
    assert parts[1..] == later && p.pings[n..] == [] && Later(parts, n) == [q] + later && ([q] + later)[1..] == later;
    assert Later(later, 0) == later by {
      assert later[0].pings[0..] == later[0].pings && [later[0]] + later[1..] == later;
    }
    SameFrame(key, at, sequence, p, q);
    SameBody(p, q);
    NoPings();
  }

  lemma SameBody(p: Part, q: Part)
    requires p == q.(pings := p.pings)
    ensures Body(p) == Body(q)
  {
  }

  /** The frames begin with a reply that says `whole`, and `rest` and `end` are what it
      leaves. */
  ghost predicate BeginsWithReply(key: seq<byte>, frames: seq<Frame>, at: CipherState, sequence: u16,
                                  whole: seq<byte>, rest: seq<Frame>, end: CipherState)
    requires |key| > 0
  {
    exists parts :: IsReply(key, frames, at, sequence, whole, rest, end, parts)
  }

  predicate IsReply(key: seq<byte>, frames: seq<Frame>, at: CipherState, sequence: u16, whole: seq<byte>,
                    rest: seq<Frame>, end: CipherState, parts: seq<Part>)
    requires |key| > 0
  {
    && |parts| > 0 && AllOpen(parts, MAX_MESSAGE) && frames == ReplyFrames(key, at, sequence, parts) + rest
    && whole == Joined(parts) && end == CipherAfter(at, parts)
  }

  /** Collecting succeeds exactly on frames that begin with a reply in parts, and then
      returns what it says and what it leaves. */
  lemma CollectedExactly(key: seq<byte>, frames: seq<Frame>, at: CipherState, sequence: u16, whole: seq<byte>,
                         rest: seq<Frame>, end: CipherState)
    requires |key| > 0
    ensures Collected(key, frames, at, sequence, []) == Ok((whole, rest, end)) <==>
            BeginsWithReply(key, frames, at, sequence, whole, rest, end)
  {
    hide Collected, ReplyFrames, AllOpen, Joined, CipherAfter;
    if Collected(key, frames, at, sequence, []) == Ok((whole, rest, end)) {
      var parts := ReplyFound(key, frames, at, sequence, [], []);
      assert Later(parts, 0) == parts by {
        assert parts[0].pings[0..] == parts[0].pings && [parts[0]] + parts[1..] == parts;
      }
      assert [] + Joined(parts) == Joined(parts);
      assert IsReply(key, frames, at, sequence, whole, rest, end, parts);
    }
    if BeginsWithReply(key, frames, at, sequence, whole, rest, end) {
      var parts :| IsReply(key, frames, at, sequence, whole, rest, end, parts);
      SyncCollected(key, at, sequence, [], parts, rest);
      assert [] + Joined(parts) == Joined(parts);
    }
  }

  /** An authenticated session that sends its request and gets such a reply for its
      own login, in whatever reads, becomes ready: with that account, a receive
      cipher at the end of the reply, a transmit cipher at the end of the request,
      nothing pending, and every later frame still to come. */
  lemma {:induction false} SynchronizeSucceeds(w: World, plan: SyncPlan, parts: seq<Part>, rest: seq<Frame>)
    requires w.view.Authenticated? && plan.profileMatches && Synchronizable(w.view.handshake)
    requires |w.out.writes| == 0 && |parts| > 0 && AllOpen(parts, MAX_MESSAGE)
    requires Holds(w.net, ReplyFrames(w.view.handshake.sessionKey.value, START, w.out.sequence, parts) + rest)
    requires plan.parse(Joined(parts)).Ok? && plan.parse(Joined(parts)).value.login == w.view.login
    requires plan.parse(Joined(parts)).value.tradeFlags % 16 >= 8 || plan.profileReadOnly.Ok?
    ensures var (h, account) := (w.view.handshake, plan.parse(Joined(parts)).value);
      SynchronizeStep(w, plan).view ==
      Ready(h.sessionKey.value,
            RxState(CipherAfter(START, parts), account, account.tradeFlags % 16 >= 8 || plan.profileReadOnly.value,
                    map[]),
            Advance(h.cipher.value, plan.body), h.tradeKey)
    ensures Holds(SynchronizeStep(w, plan).net, rest)
  {
    hide CollectSync, Collected, Advance, Encrypted, ReplyFrames, AllOpen, Joined, CipherAfter, Holds;
    var key := w.view.handshake.sessionKey.value;
    var frames := ReplyFrames(key, START, w.out.sequence, parts) + rest;
    SyncCollected(key, START, w.out.sequence, [], parts, rest);
    assert [] + Joined(parts) == Joined(parts);
    CollectingIsStreaming(key, w.net, frames, START, w.out.sequence, []);
  }

  // ---- authentication -----------------------------------------------------

  function StartupFrame(command: byte, sequence: u16, plain: seq<byte>): Frame {
    Frame(command, sequence, FINAL, StartupEncrypted(STARTUP_KEY, 0, 0, plain))
  }

  lemma ReplyRead(net: Net, command: byte, sequence: u16, plain: seq<byte>, rest: seq<Frame>)
    requires Holds(net, [StartupFrame(command, sequence, plain)] + rest)
    ensures var r := StartupReply(net, command, sequence); r.Ok? && r.value.0 == plain && Holds(r.value.1, rest)
  {
    hide StartupEncrypted, StartupDecrypted, NextFrame, Holds;
    var frames := [StartupFrame(command, sequence, plain)] + rest;
    assert frames[1..] == rest;
    FirstHeld(net, frames);
    StartupRoundTrip(STARTUP_KEY, 0, 0, plain);
  }

  /** Two good replies, each under the sequence number of its request and in
      whatever reads, authenticate a fresh session: it has sent exactly its two
      requests, and every later frame is still to come. */
  lemma AuthenticateSucceeds(w: World, plan: AuthPlan, hello: seq<byte>, auth: seq<byte>, rest: seq<Frame>)
    requires w.view.Connected? && |w.out.writes| == 0
    requires var (s1, s2) := (w.out.sequence, Following(w.out.sequence));
      Holds(w.net, [StartupFrame(HELLO, s1, hello)] + ([StartupFrame(AUTH, s2, auth)] + rest))
    requires plan.parseChallenge(hello).Ok? && plan.parseChallenge(hello).value.status == 0
    requires AfterAuth(plan, plan.parseChallenge(hello).value.challenge, auth).phase.SessionKeysReady?
    ensures var challenge := plan.parseChallenge(hello).value.challenge;
      var after := AuthenticateStep(w, plan);
      && after.view == Authenticated(plan.login, AfterAuth(plan, challenge, auth))
      && after.out == Outward(Following(Following(w.out.sequence)),
                              w.out.sent + [Frame(HELLO, w.out.sequence, FINAL, plan.hello),
                                            Frame(AUTH, Following(w.out.sequence), FINAL, plan.auth(challenge))], [])
      && Holds(after.net, rest)
  {
    hide StartupFrame, StartupReply, AfterAuth, Following, Holds;
    ReplyRead(w.net, HELLO, w.out.sequence, hello, [StartupFrame(AUTH, Following(w.out.sequence), auth)] + rest);
    ReplyRead(StartupReply(w.net, HELLO, w.out.sequence).value.1, AUTH, Following(w.out.sequence), auth, rest);
  }

  /** The next frame is the final, uncompressed answer to this request. */
  predicate Answers(net: Net, command: byte, sequence: u16) {
    NextFrame(net).Ok? && NextFrame(net).value.0.Some? &&
    var f := NextFrame(net).value.0.value;
    f.command == command && f.sequence == sequence && f.flags / 2 % 2 == 1 && f.flags % 2 == 0
  }

  /** What an answer says. */
  function Said(net: Net): seq<byte>
    requires NextFrame(net).Ok? && NextFrame(net).value.0.Some?
  {
    StartupDecrypted(STARTUP_KEY, 0, 0, NextFrame(net).value.0.value.payload)
  }

  predicate WritesWork(out: Outward) {
    forall i :: 0 <= i < 2 && i < |out.writes| ==> out.writes[i]
  }

  /** A fresh session authenticates if and only if its two writes work, the next two
      frames answer its two requests, the challenge has status 0, and the
      authentication reply has status 0 and can be used; otherwise it fails. */
  lemma AuthenticatesExactly(w: World, plan: AuthPlan)
    requires w.view.Connected?
    ensures var (s1, s2) := (w.out.sequence, Following(w.out.sequence));
      var after := AuthenticateStep(w, plan).view;
      && (after.Authenticated? <==>
            && WritesWork(w.out) && Answers(w.net, 0, s1)
            && var challenge := plan.parseChallenge(Said(w.net));
               && challenge.Ok? && challenge.value.status == 0
               && var later := NextFrame(w.net).value.1;
                  && Answers(later, 1, s2)
                  && var reply := plan.parseAuth(Said(later));
                     H.UsableReply(plan.derivation, reply) && reply.value.status == 0)
      && (after.Authenticated? ==> after.login == plan.login) && (!after.Authenticated? ==> after == Failed)
  {
    hide NextFrame, StartupDecrypted, Following, H.Installed, H.UsableReply;
    AuthenticateReads(w, plan);
    if Answers(w.net, 0, w.out.sequence) {
      var challenge := plan.parseChallenge(Said(w.net));
      var later := NextFrame(w.net).value.1;
      if challenge.Ok? && Answers(later, 1, Following(w.out.sequence)) {
        AuthUsed(plan, challenge.value.challenge, Said(later));
      }
    }
  }

  lemma AuthUsed(plan: AuthPlan, challenge: seq<byte>, reply: seq<byte>)
    ensures AfterAuth(plan, challenge, reply).phase.SessionKeysReady? <==>
            H.UsableReply(plan.derivation, plan.parseAuth(reply)) && plan.parseAuth(reply).value.status == 0
  {
    hide H.Installed, H.UsableReply;
    H.ReplyInstalls(plan.derivation, H.FRESH.(phase := H.AuthSent, challenge := Some(challenge)),
                    plan.parseAuth(reply));
    UsableIsOk(plan.derivation, plan.parseAuth(reply));
  }

  lemma UsableIsOk(d: H.Derivation, reply: Result<H.AuthResult>)
    ensures H.UsableReply(d, reply) ==> reply.Ok? && (reply.value.status == 0 || reply.value.status == 1003)
  {
  }

  lemma AuthenticateReads(w: World, plan: AuthPlan)
    requires w.view.Connected?
    ensures var (s1, s2) := (w.out.sequence, Following(w.out.sequence));
      var after := AuthenticateStep(w, plan).view;
      && (after.Authenticated? <==>
            && WritesWork(w.out) && Answers(w.net, 0, s1)
            && var challenge := plan.parseChallenge(Said(w.net));
               && challenge.Ok? && challenge.value.status == 0
               && var later := NextFrame(w.net).value.1;
                  Answers(later, 1, s2)
                  && AfterAuth(plan, challenge.value.challenge, Said(later)).phase.SessionKeysReady?)
      && (after.Authenticated? ==> after.login == plan.login) && (!after.Authenticated? ==> after == Failed)
  {
    hide NextFrame, StartupDecrypted, Following, AfterAuth;
  }
}
