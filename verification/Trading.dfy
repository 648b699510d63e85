/** Sending a trade and finding its result among the broker's messages. */
module Trading {
  import opened Results
  import opened Bits

  datatype TradeResult = TradeResult(requestId: i32, status: i32, deal: nat, ticket: nat)
  {
    predicate IsFinal() {
      status >= 10004
    }
  }

  const TIMED_OUT: i32 := 10012

  datatype Outcome = Confirmed(result: TradeResult) | Uncertain

  /** What a poll brings while a trade waits: nothing yet, the end of the waiting
      time, some other message, one that makes the session read-only, trade results,
      results that do not decode, or a failure of the poll. */
  datatype Received =
    | Idle | Expired | Unrelated | Restriction | Results(results: seq<TradeResult>) | Undecodable | Failure

  /** What sending a trade comes to: it is written, the write breaks the session, or
      the session cannot sign or frame it. */
  datatype Sending = Written | Broken | Unsendable

  /** A trade record as the checks before sending see it. */
  datatype TradeRecord = TradeRecord(wellFormed: bool, requestId: i32)

  /** The trading side of a client: its health, whether the session is ready and
      read-only, the request ids written, what the coming sends come to (written,
      once the list is used up) and what the coming polls bring. */
  datatype Desk = Desk(
    healthy: bool, readOnly: Result<bool>, written: seq<i32>, sends: seq<Sending>, incoming: seq<Received>)

  // ---- matching results ---------------------------------------------------

  predicate Matches(request: i32, ticket: nat, r: TradeResult) {
    r.requestId == request || (r.requestId == 0 && ticket != 0 && ticket == r.ticket)
  }

  datatype Verdict = Waiting(ticket: nat) | Done(outcome: Outcome)

  function Scan(request: i32, ticket: nat, rs: seq<TradeResult>): Verdict
    decreases |rs|
  {
    if |rs| == 0 then Waiting(ticket) else
    var r := rs[0];
    if !Matches(request, ticket, r) then Scan(request, ticket, rs[1..])
    else if r.status == TIMED_OUT then Done(Uncertain)
    else if r.IsFinal() then Done(Confirmed(r))
    else Scan(request, if r.ticket != 0 then r.ticket else ticket, rs[1..])
  }

  /** How a wait ends: its outcome, what is left to receive, whether the client is
      still healthy, and whether the session is read-only now. */
  datatype Ending = Ending(outcome: Outcome, later: seq<Received>, healthy: bool, restricted: bool)

  function Await(request: i32, ticket: nat, incoming: seq<Received>, restricted: bool): Ending
    decreases |incoming|
  {
    if |incoming| == 0 then Ending(Uncertain, [], true, restricted) else
    var later := incoming[1..];
    match incoming[0]
    case Idle => Await(request, ticket, later, restricted)
    case Unrelated => Await(request, ticket, later, restricted)
    case Restriction => Await(request, ticket, later, true)
    case Expired => Ending(Uncertain, later, true, restricted)
    case Undecodable => Ending(Uncertain, later, true, restricted)
    case Failure => Ending(Uncertain, later, false, restricted)
    case Results(rs) =>
      match Scan(request, ticket, rs)
      case Done(outcome) => Ending(outcome, later, true, restricted)
      case Waiting(next) => Await(request, next, later, restricted)
  }

  /** The client and its session let a trade go out. */
  predicate CanTrade(d: Desk) {
    d.healthy && d.readOnly == Ok(false)
  }

  predicate Refused(d: Desk, record: TradeRecord) {
    !CanTrade(d) || !record.wellFormed || record.requestId <= 0
  }

  function NextSending(d: Desk): Sending {
    if |d.sends| == 0 then Written else d.sends[0]
  }

  function TradeStep(d: Desk, record: TradeRecord): (Result<Outcome>, Desk) {
    if Refused(d, record) then (Err, d) else
    var sends := if |d.sends| == 0 then [] else d.sends[1..];
    match NextSending(d)
    case Broken => (Ok(Uncertain), d.(sends := sends, readOnly := Err))
    case Unsendable => (Ok(Uncertain), d.(sends := sends))
    case Written =>
      var end := Await(record.requestId, 0, d.incoming, false);
      (Ok(end.outcome),
       Desk(end.healthy, Ok(end.restricted), d.written + [record.requestId], sends, end.later))
  }

  class Trader {
    var healthy: bool
    var readOnly: Result<bool>
    var written: seq<i32>
    var sends: seq<Sending>
    var incoming: seq<Received>

    function View(): Desk
      reads this
    {
      Desk(healthy, readOnly, written, sends, incoming)
    }

    constructor (readOnly: Result<bool>, sends: seq<Sending>, incoming: seq<Received>)
      ensures View() == Desk(true, readOnly, [], sends, incoming)
    {
      healthy, this.readOnly, written, this.sends, this.incoming := true, readOnly, [], sends, incoming;
    }

    // A broken write consumes the session; a trade that cannot be signed does not.
    method Send(request: i32) returns (r: Result<()>)
      modifies `written, `sends, `readOnly
      ensures sends == if |old(sends)| == 0 then [] else old(sends)[1..]
      ensures var sending := NextSending(old(View()));
        && (r.Ok? <==> sending == Written)
        && written == (if sending == Written then old(written) + [request] else old(written))
        && readOnly == (if sending == Broken then Err else old(readOnly))
    {
      var sending := Written;
      if |sends| > 0 {
        sending := sends[0];
        sends := sends[1..];
      }
      match sending {
        case Broken =>
          readOnly := Err;
          return Err;
        case Unsendable =>
          return Err;
        case Written =>
          written := written + [request];
          return Ok(());
      }
    }

    /** Once transmission starts any failure is uncertain; a trade is never retried. */
    method Trade(record: TradeRecord) returns (r: Result<Outcome>)
      modifies this
      ensures (r, View()) == TradeStep(old(View()), record)
    {
      hide Scan;
      if !healthy {
        return Err;
      }
      if !record.wellFormed {
        return Err;
      }
      var restricted :- readOnly;
      if restricted {
        return Err;
      }
      if record.requestId <= 0 {
        return Err;
      }
      var sent := Send(record.requestId);
      if sent.Err? {
        return Ok(Uncertain);
      }
      var ticket: nat := 0;
      while true
        invariant healthy && readOnly.Ok? && sends == (if |old(sends)| == 0 then [] else old(sends)[1..])
        invariant written == old(written) + [record.requestId]
        invariant Await(record.requestId, 0, old(incoming), false) ==
                  Await(record.requestId, ticket, incoming, readOnly.value)
        decreases |incoming|
      {
        if |incoming| == 0 {
          return Ok(Uncertain);
        }
        var received := incoming[0];
        incoming := incoming[1..];
        match received {
          case Idle => continue;
          case Unrelated => continue;
          case Restriction =>
            readOnly := Ok(true);
          case Expired => return Ok(Uncertain);
          case Undecodable => return Ok(Uncertain);
          case Failure =>
            healthy := false;
            return Ok(Uncertain);
          case Results(rs) =>
            var verdict := Search(record.requestId, ticket, rs);
            if verdict.Done? {
              return Ok(verdict.outcome);
            }
            ticket := verdict.ticket;
        }
      }
    }
  }

  method Search(request: i32, start: nat, rs: seq<TradeResult>) returns (v: Verdict)
    ensures v == Scan(request, start, rs)
  {
    var ticket := start;
    assert rs[0..] == rs;
    for i := 0 to |rs|
      invariant Scan(request, start, rs) == Scan(request, ticket, rs[i..])
    {
      assert rs[i..][1..] == rs[i + 1..];
      var r := rs[i];
      if r.requestId == request || (r.requestId == 0 && ticket != 0 && ticket == r.ticket) {
        if r.ticket != 0 {
          ticket := r.ticket;
        }
        if r.status == TIMED_OUT {
          return Done(Uncertain);
        }
        if r.IsFinal() {
          return Done(Confirmed(r));
        }
      }
    }
    return Waiting(ticket);
  }

  // ---- what decides a trade -----------------------------------------------

  /** The results received before the waiting time ends or a poll goes wrong. */
  function Heard(incoming: seq<Received>): seq<TradeResult>
    decreases |incoming|
  {
    if |incoming| == 0 then [] else
    match incoming[0]
    case Expired => []
    case Undecodable => []
    case Failure => []
    case Results(rs) => rs + Heard(incoming[1..])
    case _ => Heard(incoming[1..])
  }

  /** The last ticket reported under the request's own id; zero before any. */
  function LastTicket(request: i32, rs: seq<TradeResult>): nat {
    if |rs| == 0 then 0 else
    var last := rs[|rs| - 1];
    if last.requestId == request && last.ticket != 0 then last.ticket else LastTicket(request, rs[..|rs| - 1])
  }

  /** Result `i` is final and names the request, or names none but the last ticket
      reported for the request before it. */
  predicate Decides(request: i32, rs: seq<TradeResult>, i: nat) {
    i < |rs| && rs[i].status >= 10004 &&
    (rs[i].requestId == request
     || (rs[i].requestId == 0 && rs[i].ticket != 0 && rs[i].ticket == LastTicket(request, rs[..i])))
  }

  predicate Undecided(request: i32, rs: seq<TradeResult>) {
    forall i :: 0 <= i < |rs| ==> !Decides(request, rs, i)
  }

  predicate DecidesFirst(request: i32, rs: seq<TradeResult>, i: nat) {
    Decides(request, rs, i) && forall j :: 0 <= j < i ==> !Decides(request, rs, j)
  }

  function OutcomeOf(r: TradeResult): Outcome {
    if r.status == 10012 then Uncertain else Confirmed(r)
  }

  /** The outcome the results call for: that of the first one that decides, and
      uncertain when none does. */
  ghost predicate Answers(request: i32, rs: seq<TradeResult>, o: Outcome) {
    || (exists i :: 0 <= i < |rs| && DecidesFirst(request, rs, i) && o == OutcomeOf(rs[i]))
    || (o == Uncertain && Undecided(request, rs))
  }

  lemma OneAnswer(request: i32, rs: seq<TradeResult>, a: Outcome, b: Outcome)
    requires Answers(request, rs, a) && Answers(request, rs, b)
    ensures a == b
  {
    hide Decides;
    if !Undecided(request, rs) {
      var i :| 0 <= i < |rs| && DecidesFirst(request, rs, i) && a == OutcomeOf(rs[i]);
      var j :| 0 <= j < |rs| && DecidesFirst(request, rs, j) && b == OutcomeOf(rs[j]);
      assert i == j;
    }
  }

  lemma DecidesMore(request: i32, a: seq<TradeResult>, b: seq<TradeResult>, i: nat)
    requires i < |a|
    ensures Decides(request, a + b, i) <==> Decides(request, a, i)
  {
    assert (a + b)[..i] == a[..i];
  }

  lemma TicketMore(request: i32, seen: seq<TradeResult>, r: TradeResult)
    ensures LastTicket(request, seen + [r]) ==
            if r.requestId == request && r.ticket != 0 then r.ticket else LastTicket(request, seen)
  {
    assert (seen + [r])[..|seen|] == seen;
  }

  lemma OneMore(request: i32, seen: seq<TradeResult>, r: TradeResult)
    requires Undecided(request, seen)
    ensures var decisive := r.IsFinal() && Matches(request, LastTicket(request, seen), r);
      if decisive then DecidesFirst(request, seen + [r], |seen|) else Undecided(request, seen + [r])
  {
    hide LastTicket;
    var all := seen + [r];
    assert all[..|seen|] == seen;
    forall i | 0 <= i < |seen| ensures !Decides(request, all, i) {
      DecidesMore(request, seen, [r], i);
    }
  }

  /** Scanning on from what was seen finds the first result that decides. */
  lemma {:induction false} ScanFinds(request: i32, seen: seq<TradeResult>, rs: seq<TradeResult>)
    requires Undecided(request, seen)
    ensures match Scan(request, LastTicket(request, seen), rs)
      case Waiting(ticket) => ticket == LastTicket(request, seen + rs) && Undecided(request, seen + rs)
      case Done(o) =>
        exists i :: 0 <= i < |seen + rs| && DecidesFirst(request, seen + rs, i) && o == OutcomeOf((seen + rs)[i])
    decreases |rs|
  {
    hide LastTicket, DecidesFirst, Undecided;
    if |rs| == 0 {
      assert seen + rs == seen;
    } else {
      var r, next := rs[0], seen + [rs[0]];
      assert next + rs[1..] == seen + rs;
      OneMore(request, seen, r);
      TicketMore(request, seen, r);
      if r.IsFinal() && Matches(request, LastTicket(request, seen), r) {
        FirstStays(request, next, rs[1..], |seen|);
      } else {
        ScanFinds(request, next, rs[1..]);
      }
    }
  }

  lemma FirstStays(request: i32, a: seq<TradeResult>, b: seq<TradeResult>, i: nat)
    requires DecidesFirst(request, a, i)
    ensures DecidesFirst(request, a + b, i) && (a + b)[i] == a[i]
  {
    hide Matches, LastTicket;
    forall j | 0 <= j <= i ensures Decides(request, a + b, j) <==> Decides(request, a, j) {
      DecidesMore(request, a, b, j);
    }
  }

  lemma {:induction false} AwaitFinds(request: i32, seen: seq<TradeResult>, incoming: seq<Received>, restricted: bool)
    requires Undecided(request, seen)
    ensures Answers(request, seen + Heard(incoming),
                    Await(request, LastTicket(request, seen), incoming, restricted).outcome)
    decreases |incoming|
  {
    hide Scan, LastTicket, DecidesFirst, Decides;
    if |incoming| == 0 {
      assert seen + Heard(incoming) == seen;
    } else {
      match incoming[0]
      case Results(rs) =>
        ScanFinds(request, seen, rs);
        assert seen + rs + Heard(incoming[1..]) == seen + Heard(incoming);
        match Scan(request, LastTicket(request, seen), rs) {
          case Waiting(_) => AwaitFinds(request, seen + rs, incoming[1..], restricted);
          case Done(o) =>
            var i :| 0 <= i < |seen + rs| && DecidesFirst(request, seen + rs, i) && o == OutcomeOf((seen + rs)[i]);
            FirstStays(request, seen + rs, Heard(incoming[1..]), i);
        }
      case Idle => AwaitFinds(request, seen, incoming[1..], restricted);
      case Unrelated => AwaitFinds(request, seen, incoming[1..], restricted);
      case Restriction => AwaitFinds(request, seen, incoming[1..], true);
      case _ => assert seen + Heard(incoming) == seen;
    }
  }

  /** For every request and everything polls may bring: the outcome of waiting is the
      one that the results heard call for, and no other. */
  lemma FinalAnswerFound(request: i32, incoming: seq<Received>, restricted: bool, o: Outcome)
    ensures Await(request, 0, incoming, restricted).outcome == o <==> Answers(request, Heard(incoming), o)
  {
    hide Await, Heard, Answers;
    AwaitFinds(request, [], incoming, restricted);
    assert [] + Heard(incoming) == Heard(incoming);
    if Answers(request, Heard(incoming), o) {
      OneAnswer(request, Heard(incoming), o, Await(request, 0, incoming, restricted).outcome);
    }
  }

  /** A ticket carried while waiting was reported under the request's own id. */
  lemma {:induction false} TicketReported(request: i32, rs: seq<TradeResult>)
    ensures var ticket := LastTicket(request, rs);
      ticket != 0 ==> exists r :: r in rs && r.requestId == request && r.ticket == ticket
  {
    if |rs| > 0 {
      TicketReported(request, rs[..|rs| - 1]);
    }
  }

  /** An anonymous result with the reported ticket settles the trade before a later
      result that names the request. */
  lemma TicketSettlesFirst()
    ensures var a, b, c := TradeResult(5, 10001, 0, 7), TradeResult(0, 10009, 0, 7), TradeResult(5, 10009, 0, 8);
      Await(5, 0, [Results([a, b, c])], false).outcome == Confirmed(b)
  {
    var a, b, c := TradeResult(5, 10001, 0, 7), TradeResult(0, 10009, 0, 7), TradeResult(5, 10009, 0, 8);
    assert [a, b, c][1..] == [b, c];
    assert Scan(5, 7, [b, c]) == Done(Confirmed(b));
    assert [Results([a, b, c])][0].results == [a, b, c];
  }

  // ---- what waiting leaves behind -----------------------------------------

  /** What a call took from the incoming messages. */
  function Used(incoming: seq<Received>, later: seq<Received>): seq<Received> {
    if |later| <= |incoming| then incoming[..|incoming| - |later|] else []
  }

  lemma NothingUsed(incoming: seq<Received>)
    ensures Used(incoming, incoming) == [] && [] + incoming == incoming
  {
  }

  lemma UsedMore(incoming: seq<Received>, later: seq<Received>)
    requires |incoming| > 0 && Used(incoming[1..], later) + later == incoming[1..]
    ensures Used(incoming, later) + later == incoming
    ensures Used(incoming, later) == [incoming[0]] + Used(incoming[1..], later)
  {
    assert incoming == [incoming[0]] + Used(incoming[1..], later) + later;
  }

  /** Waiting takes a beginning of what comes; the client stays healthy unless a poll
      failed in it, and the session becomes restricted if a restriction came in it. */
  lemma {:induction false} AwaitEnds(request: i32, ticket: nat, incoming: seq<Received>, restricted: bool)
    ensures var e := Await(request, ticket, incoming, restricted);
      var used := Used(incoming, e.later);
      && used + e.later == incoming
      && (e.healthy <==> Failure !in used) && (e.restricted <==> restricted || Restriction in used)
    decreases |incoming|
  {
    hide Scan, Used;
    NothingUsed(incoming);
    if |incoming| > 0 {
      var e, later := Await(request, ticket, incoming, restricted), incoming[1..];
      NothingUsed(later);
      match incoming[0] {
        case Results(rs) =>
          if Scan(request, ticket, rs).Waiting? {
            AwaitEnds(request, Scan(request, ticket, rs).ticket, later, restricted);
          }
        case Idle => AwaitEnds(request, ticket, later, restricted);
        case Unrelated => AwaitEnds(request, ticket, later, restricted);
        case Restriction => AwaitEnds(request, ticket, later, true);
        case _ =>
      }
      UsedMore(incoming, e.later);
    }
  }

  /** Something happens in a call that stops all trading: a write that breaks the
      session, a failed poll, or a message that restricts the session. */
  predicate Stops(d: Desk, record: TradeRecord) {
    var used := Used(d.incoming, TradeStep(d, record).1.incoming);
    !Refused(d, record) && (NextSending(d) == Broken || Failure in used || Restriction in used)
  }

  /** What one call does. A refusal writes and changes nothing. Otherwise the request
      is written once, if its write succeeds, and the outcome is exactly the one that
      the results heard call for; it takes a beginning of what comes; and the client
      can trade on if and only if nothing in the call stops it. */
  lemma TradeMeans(d: Desk, record: TradeRecord)
    ensures var (r, after) := TradeStep(d, record);
      && (r.Err? <==> !d.healthy || d.readOnly != Ok(false) || !record.wellFormed || record.requestId <= 0)
      && (r.Err? ==> after == d)
      && after.written == (if r.Ok? && NextSending(d) == Written then d.written + [record.requestId] else d.written)
      && (r.Ok? && NextSending(d) != Written ==> r.value == Uncertain && after.incoming == d.incoming)
      && (r.Ok? && NextSending(d) == Written ==>
            forall o :: r.value == o <==> Answers(record.requestId, Heard(d.incoming), o))
      && Used(d.incoming, after.incoming) + after.incoming == d.incoming
      && (r.Ok? ==> (CanTrade(after) <==> !Stops(d, record)))
  {
    hide Answers, Heard, Await;
    if !Refused(d, record) {
      AwaitEnds(record.requestId, 0, d.incoming, false);
      forall o ensures Await(record.requestId, 0, d.incoming, false).outcome == o <==>
                       Answers(record.requestId, Heard(d.incoming), o) {
        FinalAnswerFound(record.requestId, d.incoming, false, o);
      }
    }
    assert d.incoming[..|d.incoming| - |d.incoming|] == [];
  }

  // ---- many trades --------------------------------------------------------

  function TradeAll(d: Desk, records: seq<TradeRecord>): Desk
    decreases |records|
  {
    if |records| == 0 then d else TradeAll(TradeStep(d, records[0]).1, records[1..])
  }

  function Ids(records: seq<TradeRecord>): seq<i32> {
    seq(|records|, i requires 0 <= i < |records| => records[i].requestId)
  }

  /** `a` is `b` with some elements left out. */
  predicate Subsequence(a: seq<i32>, b: seq<i32>)
    decreases |b|
  {
    || |a| == 0
    || (|b| > 0 && ((a[0] == b[0] && Subsequence(a[1..], b[1..])) || Subsequence(a, b[1..])))
  }

  /** Each call writes at most its own request, once: what a list of trades writes is
      the list of its request ids with some left out. And after a call in which a
      write breaks, a poll fails or a restriction comes, no later trade writes or
      reads anything. */
  lemma {:induction false} TradesNeverRetry(d: Desk, records: seq<TradeRecord>)
    ensures var after := TradeAll(d, records);
      && |d.written| <= |after.written| && after.written[..|d.written|] == d.written
      && Subsequence(after.written[|d.written|..], Ids(records))
    ensures forall i :: 0 <= i < |records| && Stops(TradeAll(d, records[..i]), records[i]) ==>
      TradeAll(d, records) == TradeAll(d, records[..i + 1])
    decreases |records|
  {
    hide TradeStep, TradeAll, Stops, Answers;
    TradeAllUnfold(d, records);
    if |records| > 0 {
      TradeMeans(d, records[0]);
      var next := TradeStep(d, records[0]).1;
      TradesNeverRetry(next, records[1..]);
      WrittenBefore(d.written, next.written, TradeAll(d, records).written);
      assert Ids(records)[1..] == Ids(records[1..]);
      forall i | 0 <= i < |records| && Stops(TradeAll(d, records[..i]), records[i])
        ensures TradeAll(d, records) == TradeAll(d, records[..i + 1])
      {
        StopsAll(d, records, i);
      }
    }
  }

  lemma TradeAllUnfold(d: Desk, records: seq<TradeRecord>)
    ensures TradeAll(d, records) ==
            if |records| == 0 then d else TradeAll(TradeStep(d, records[0]).1, records[1..])
  {
  }

  lemma WrittenBefore(a: seq<i32>, b: seq<i32>, c: seq<i32>)
    requires |a| <= |b| <= |c| && b[..|a|] == a && c[..|b|] == b
    ensures c[..|a|] == a
    ensures b == a ==> c[|a|..] == c[|b|..]
    ensures |b| == |a| + 1 ==> |c[|a|..]| > 0 && c[|a|..][0] == b[|a|] && c[|a|..][1..] == c[|b|..]
  {
    assert forall i :: 0 <= i < |b| ==> b[i] == c[..|b|][i] == c[i];
  }

  lemma {:induction false} StopsAll(d: Desk, records: seq<TradeRecord>, i: nat)
    requires i < |records| && Stops(TradeAll(d, records[..i]), records[i])
    ensures TradeAll(d, records) == TradeAll(d, records[..i + 1])
    decreases i
  {
    hide TradeStep, Stops, TradeAll, Answers;
    TradeAllUnfold(d, records);
    TradeAllUnfold(d, records[..i]);
    TradeAllUnfold(d, records[..i + 1]);
    var next := TradeStep(d, records[0]).1;
    if i == 0 {
      TradeMeans(d, records[0]);
      StopsRefused(d, records[0]);
      TradeAllUnfold(next, records[..1][1..]);
      NoneTraded(next, records[1..]);
    } else {
      assert records[..i][1..] == records[1..][..i - 1] && records[..i + 1][1..] == records[1..][..i];
      StopsAll(next, records[1..], i - 1);
    }
  }

  lemma StopsRefused(d: Desk, record: TradeRecord)
    ensures Stops(d, record) ==> !Refused(d, record)
  {
  }

  lemma {:induction false} NoneTraded(d: Desk, records: seq<TradeRecord>)
    requires !CanTrade(d)
    ensures TradeAll(d, records) == d
    decreases |records|
  {
    if |records| > 0 {
      RefusedOnceStopped(d, records[0]);
      NoneTraded(d, records[1..]);
    }
  }

  lemma RefusedOnceStopped(d: Desk, record: TradeRecord)
    ensures !CanTrade(d) ==> TradeStep(d, record) == (Err, d)
  {
  }
}
