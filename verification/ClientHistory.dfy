/** What a client's symbols, account and depth queue hold after any run: what the last
    updates received for them say, and every depth record once. */
module ClientHistory {
  import opened Results
  import opened Bits
  import opened Account
  import C = Conversion
  import opened ClientState
  import opened TicketHistory
  import D = Depth

  // ---- symbols ------------------------------------------------------------

  /** The symbol each id leads to. */
  function ById(symbols: seq<C.Symbol>, ids: map<int, nat>): map<int, C.Symbol>
    requires IndexOk(symbols, ids)
  {
    map id | id in ids :: symbols[ids[id]]
  }

  function SymbolEntries(updates: seq<C.Symbol>): seq<Entry<int, C.Symbol>> {
    if |updates| == 0 then [] else [Entry(updates[0].id, Some(updates[0]))] + SymbolEntries(updates[1..])
  }

  lemma OneReplaced(symbols: seq<C.Symbol>, ids: map<int, nat>, s: C.Symbol)
    requires IndexOk(symbols, ids) && s.id in ids
    ensures var replaced := Replaced(symbols, ids[s.id], s);
      IndexOk(replaced, ids) && ById(replaced, ids) == ById(symbols, ids)[s.id := s]
  {
    var i := ids[s.id];
    var replaced := Replaced(symbols, i, s);
    forall id | id in ids ensures replaced[ids[id]] == if id == s.id then s else symbols[ids[id]] {
      assert ids[id] < |symbols| && symbols[ids[id]].id == id;
    }
    assert IndexOk(replaced, ids);
  }

  lemma OneAppended(symbols: seq<C.Symbol>, ids: map<int, nat>, s: C.Symbol)
    requires IndexOk(symbols, ids) && s.id !in ids
    ensures var (more, known) := (symbols + [s], ids[s.id := |symbols|]);
      IndexOk(more, known) && ById(more, known) == ById(symbols, ids)[s.id := s]
  {
    AppendedOk(symbols, ids, s);
    var more, known := symbols + [s], ids[s.id := |symbols|];
    forall id | id in known ensures more[known[id]] == if id == s.id then s else symbols[ids[id]] {
    }
  }

  lemma OneSymbolMore(symbols: seq<C.Symbol>, ids: map<int, nat>, s: C.Symbol)
    requires IndexOk(symbols, ids)
    ensures s.id in ids ==>
      var replaced := Replaced(symbols, ids[s.id], s);
      IndexOk(replaced, ids) && ById(replaced, ids) == ById(symbols, ids)[s.id := s]
    ensures s.id !in ids ==>
      var (more, known) := (symbols + [s], ids[s.id := |symbols|]);
      IndexOk(more, known) && ById(more, known) == ById(symbols, ids)[s.id := s]
  {
    hide IndexOk, ById, Replaced;
    SlotKnown(symbols, ids, s);
    if s.id in ids {
      OneReplaced(symbols, ids, s);
    } else {
      OneAppended(symbols, ids, s);
    }
  }

  lemma {:induction false} SymbolsAreEntries(symbols: seq<C.Symbol>, ids: map<int, nat>, updates: seq<C.Symbol>)
    requires IndexOk(symbols, ids)
    ensures var (after, known) := SymbolsAfter(symbols, ids, updates);
      ById(after, known) == Entered(ById(symbols, ids), SymbolEntries(updates))
    decreases |updates|
  {
    hide IndexOk, ById, Entered, Replaced;
    if |updates| == 0 {
      EnteredNone(ById(symbols, ids));
    } else {
      var s := updates[0];
      var e: Entry<int, C.Symbol> := Entry(s.id, Some(s));
      OneSymbolMore(symbols, ids, s);
      SlotKnown(symbols, ids, s);
      OneEntered(ById(symbols, ids), e);
      EnteredInTurn(ById(symbols, ids), [e], SymbolEntries(updates[1..]));
      if s.id in ids {
        SymbolsAreEntries(Replaced(symbols, ids[s.id], s), ids, updates[1..]);
      } else {
        SymbolsAreEntries(symbols + [s], ids[s.id := |symbols|], updates[1..]);
      }
    }
  }

  function OpSymbols<O>(c: Life<O>, op: Op<O>): seq<Entry<int, C.Symbol>> {
    match Arrived(c, op)
    case Some(SymbolUpdates(updates)) => SymbolEntries(updates)
    case _ => []
  }

  /** Every symbol update received over a run. */
  function RunSymbols<O>(c: Life<O>, ops: seq<Op<O>>): seq<Entry<int, C.Symbol>>
    requires Sound(c.st)
    decreases |ops|
  {
    if |ops| == 0 then [] else
    StepKeeps(c, ops[0]);
    OpSymbols(c, ops[0]) + RunSymbols(Step(c, ops[0]), ops[1..])
  }

  lemma EventKeepsSymbols<O>(st: State<O>, e: Event<O>)
    requires IndexOk(st.symbols, st.ids) && !e.SymbolUpdates?
    ensures Applied(st, e).0.symbols == st.symbols && Applied(st, e).0.ids == st.ids
  {
    hide RowsApplied, DepthPushed, ChangesApplied, Unsubscribed, Wanted, OrdersAfter, AccountAfter, IndexOk;
    match e
    case QuoteRows(command, rows) => RowsKeepRest(st, command, rows);
    case DepthRecords(records) => DepthKeepsRest(st, records);
    case PositionUpdates(changes, sent) => ChangesKeepRest(st, changes);
    case _ =>
  }

  lemma OpIsSymbols<O>(c: Life<O>, op: Op<O>)
    requires Sound(c.st)
    ensures var after := Step(c, op).st;
      IndexOk(after.symbols, after.ids)
      && ById(after.symbols, after.ids) == Entered(ById(c.st.symbols, c.st.ids), OpSymbols(c, op))
  {
    hide Applied, ById, Entered, Subscribed, DepthSubscribed, SymbolEntries, SymbolsAfter, IndexOk;
    StepKeeps(c, op);
    SoundIndex(c.st);
    SoundIndex(Step(c, op).st);
    EnteredNone(ById(c.st.symbols, c.st.ids));
    match Arrived(c, op)
    case Some(e) =>
      if e.SymbolUpdates? {
        SymbolsAreEntries(c.st.symbols, c.st.ids, e.symbols);
        SymbolsApplied(c.st, e);
      } else {
        EventKeepsSymbols(c.st, e);
      }
    case None =>
  }

  lemma SymbolsApplied<O>(st: State<O>, e: Event<O>)
    requires IndexOk(st.symbols, st.ids) && e.SymbolUpdates?
    ensures (Applied(st, e).0.symbols, Applied(st, e).0.ids) == SymbolsAfter(st.symbols, st.ids, e.symbols)
  {
    hide IndexOk;
  }

  lemma {:induction false} RunIsSymbols<O>(c: Life<O>, ops: seq<Op<O>>)
    requires Sound(c.st)
    ensures var after := RunFrom(c, ops).st;
      IndexOk(after.symbols, after.ids)
      && ById(after.symbols, after.ids) == Entered(ById(c.st.symbols, c.st.ids), RunSymbols(c, ops))
    decreases |ops|
  {
    hide Sound, Step, OpSymbols, Entered, ById, IndexOk;
    SoundIndex(c.st);
    if |ops| == 0 {
      EnteredNone(ById(c.st.symbols, c.st.ids));
    } else {
      StepKeeps(c, ops[0]);
      OpIsSymbols(c, ops[0]);
      var next := Step(c, ops[0]);
      RunIsSymbols(next, ops[1..]);
      EnteredInTurn(ById(c.st.symbols, c.st.ids), OpSymbols(c, ops[0]), RunSymbols(next, ops[1..]));
    }
  }

  /** After any run each id leads to the symbol that the last update received for it
      says, and to the symbol it led to before when there was none. */
  lemma SymbolsAreLastUpdates<O>(c: Life<O>, ops: seq<Op<O>>, id: int)
    requires Sound(c.st)
    ensures var (before, after) := (c.st, RunFrom(c, ops).st);
      && IndexOk(before.symbols, before.ids) && IndexOk(after.symbols, after.ids)
      && LastSaid(HeldAt(ById(before.symbols, before.ids), id), RunSymbols(c, ops), id,
                  HeldAt(ById(after.symbols, after.ids), id))
  {
    hide RunFrom, RunSymbols, ById, LastSaid, Entered, IndexOk;
    SoundIndex(c.st);
    RunIsSymbols(c, ops);
    EnteredIsLastSaid(ById(c.st.symbols, c.st.ids), RunSymbols(c, ops), id);
  }

  // ---- the account --------------------------------------------------------

  /** What changes an account: a record of its own login, or the balance and credit that
      come with a position. */
  datatype Entering = Whole(record: AccountState) | Money(balance: seq<byte>, credit: seq<byte>)

  function OwnRecords(login: nat, accounts: seq<AccountState>): seq<Entering> {
    if |accounts| == 0 then []
    else (if accounts[0].login == login then [Whole(accounts[0])] else []) + OwnRecords(login, accounts[1..])
  }

  function Balances(changes: seq<PositionChange>): seq<Entering> {
    if |changes| == 0 then []
    else (match changes[0].balance case Some((balance, credit)) => [Money(balance, credit)] case None => [])
         + Balances(changes[1..])
  }

  function EventEntering<O>(st: State<O>, e: Event<O>): seq<Entering> {
    match e
    case AccountChanges(accounts) => OwnRecords(st.account.login, accounts)
    case PositionUpdates(changes, _) => Balances(changes)
    case _ => []
  }

  function RunEntering<O>(c: Life<O>, ops: seq<Op<O>>): seq<Entering>
    requires Sound(c.st)
    decreases |ops|
  {
    if |ops| == 0 then [] else
    StepKeeps(c, ops[0]);
    (match Arrived(c, ops[0]) case Some(e) => EventEntering(c.st, e) case None => [])
    + RunEntering(Step(c, ops[0]), ops[1..])
  }

  predicate LastWhole(entries: seq<Entering>, i: nat) {
    i < |entries| && entries[i].Whole? && forall j :: i < j < |entries| ==> !entries[j].Whole?
  }

  predicate SameTerms(a: AccountState, b: AccountState) {
    a.login == b.login && a.blocked == b.blocked && a.leverage == b.leverage && a.tradeFlags == b.tradeFlags
  }

  /** Balance and credit are those of the last entry of either kind, everything else is
      as in the last own record; without entries it is as before. */
  ghost predicate Says(before: AccountState, entries: seq<Entering>, after: AccountState) {
    && (if |entries| == 0 then after.balance == before.balance && after.credit == before.credit else
        match entries[|entries| - 1]
        case Whole(r) => after.balance == r.balance && after.credit == r.credit
        case Money(balance, credit) => after.balance == balance && after.credit == credit)
    && ((SameTerms(after, before) && forall i :: 0 <= i < |entries| ==> !entries[i].Whole?)
        || exists i :: 0 <= i < |entries| && LastWhole(entries, i) && SameTerms(after, entries[i].record))
    && after.login == before.login
  }

  lemma SaysOn(a: AccountState, b: AccountState, c: AccountState, first: seq<Entering>, later: seq<Entering>)
    requires Says(a, first, b) && Says(b, later, c)
    ensures Says(a, first + later, c)
  {
    var all, n := first + later, |first|;
    assert |later| == 0 ==> all == first;
    assert |later| > 0 ==> all[|all| - 1] == later[|later| - 1];
    if i :| 0 <= i < |later| && LastWhole(later, i) && SameTerms(c, later[i].record) {
      assert all[n + i] == later[i] && forall j :: n + i < j < |all| ==> all[j] == later[j - n];
      assert LastWhole(all, n + i);
    } else if i :| 0 <= i < |first| && LastWhole(first, i) && SameTerms(b, first[i].record) {
      assert all[i] == first[i];
      assert forall j :: i < j < |all| ==> all[j] == if j < n then first[j] else later[j - n];
      assert LastWhole(all, i);
    } else {
      assert forall j :: 0 <= j < |all| ==> all[j] == if j < n then first[j] else later[j - n];
    }
  }

  lemma SaysNothing(a: AccountState)
    ensures Says(a, [], a)
  {
  }

  lemma SaysRecord(a: AccountState, r: AccountState)
    requires r.login == a.login
    ensures Says(a, [Whole(r)], r)
  {
    assert LastWhole([Whole(r)], 0);
  }

  lemma SaysMoney(a: AccountState, balance: seq<byte>, credit: seq<byte>)
    ensures Says(a, [Money(balance, credit)], BalanceAfter(a, Some((balance, credit))))
  {
  }

  lemma {:induction false} RecordsSay(account: AccountState, accounts: seq<AccountState>)
    ensures Says(account, OwnRecords(account.login, accounts), AccountAfter(account, accounts))
    decreases |accounts|
  {
    hide Says;
    if |accounts| == 0 {
      SaysNothing(account);
    } else {
      var r, rest := accounts[0], OwnRecords(account.login, accounts[1..]);
      if r.login == account.login {
        SaysRecord(account, r);
        RecordsSay(r, accounts[1..]);
        SaysOn(account, r, AccountAfter(r, accounts[1..]), [Whole(r)], rest);
      } else {
        RecordsSay(account, accounts[1..]);
        assert [] + rest == rest;
      }
    }
  }

  lemma {:induction false} BalancesSay<O>(st: State<O>, changes: seq<PositionChange>)
    ensures Says(st.account, Balances(changes), ChangesApplied(st, changes).account)
    decreases |changes|
  {
    hide Says, DealsPut;
    if |changes| == 0 {
      SaysNothing(st.account);
    } else {
      var c := changes[0];
      var next := st.(positions := DealsPut(st.positions, [c.position] + c.related),
                      account := BalanceAfter(st.account, c.balance));
      BalancesSay(next, changes[1..]);
      match c.balance {
        case Some((balance, credit)) =>
          SaysMoney(st.account, balance, credit);
          SaysOn(st.account, next.account, ChangesApplied(next, changes[1..]).account, [Money(balance, credit)],
                 Balances(changes[1..]));
        case None =>
          assert [] + Balances(changes[1..]) == Balances(changes[1..]);
      }
    }
  }

  lemma EventSays<O>(st: State<O>, e: Event<O>)
    requires IndexOk(st.symbols, st.ids)
    ensures Says(st.account, EventEntering(st, e), Applied(st, e).0.account)
  {
    hide Says, RowsApplied, DepthPushed, ChangesApplied, Unsubscribed, Wanted, OrdersAfter, AccountAfter, IndexOk,
         SymbolsAfter;
    SaysNothing(st.account);
    match e
    case QuoteRows(command, rows) => RowsKeepRest(st, command, rows);
    case DepthRecords(records) => DepthKeepsRest(st, records);
    case AccountChanges(accounts) => RecordsSay(st.account, accounts);
    case PositionUpdates(changes, sent) => BalancesSay(st, changes);
    case _ =>
  }

  /** After any run: the balance and credit are those that came last, with an own record
      or with a position, and all else is as in the last own record; records of other
      logins change nothing. */
  lemma {:induction false} AccountIsLastReceived<O>(c: Life<O>, ops: seq<Op<O>>)
    requires Sound(c.st)
    ensures Says(c.st.account, RunEntering(c, ops), RunFrom(c, ops).st.account)
    decreases |ops|
  {
    hide Says, Sound, Applied, Subscribed, DepthSubscribed, EventEntering;
    if |ops| == 0 {
      SaysNothing(c.st.account);
    } else {
      StepKeeps(c, ops[0]);
      SoundIndex(c.st);
      SaysNothing(c.st.account);
      var next := Step(c, ops[0]);
      var entering: seq<Entering> :=
        match Arrived(c, ops[0]) case Some(e) => EventEntering(c.st, e) case None => [];
      if Arrived(c, ops[0]).Some? {
        EventSays(c.st, Arrived(c, ops[0]).value);
      }
      AccountIsLastReceived(next, ops[1..]);
      SaysOn(c.st.account, next.st.account, RunFrom(next, ops[1..]).st.account, entering, RunEntering(next, ops[1..]));
    }
  }

  // ---- depth --------------------------------------------------------------

  function OpOffered<O>(c: Life<O>, op: Op<O>): seq<D.DepthRecord> {
    match Arrived(c, op)
    case Some(DepthRecords(records)) => records
    case _ => []
  }

  function RunOffered<O>(c: Life<O>, ops: seq<Op<O>>): seq<D.DepthRecord>
    requires Sound(c.st)
    decreases |ops|
  {
    if |ops| == 0 then [] else
    StepKeeps(c, ops[0]);
    OpOffered(c, ops[0]) + RunOffered(Step(c, ops[0]), ops[1..])
  }

  function RunTakenDepth<O>(c: Life<O>, ops: seq<Op<O>>): seq<D.DepthRecord>
    requires Sound(c.st)
    decreases |ops|
  {
    if |ops| == 0 then [] else
    StepKeeps(c, ops[0]);
    (if ops[0].TakeDepth? then c.st.changedDepth else []) + RunTakenDepth(Step(c, ops[0]), ops[1..])
  }

  lemma {:induction false} DepthQueued<O>(st: State<O>, records: seq<D.DepthRecord>)
    ensures var (after, ok) := DepthPushed(st, records);
      && after.changedDepth <= st.changedDepth + records && (ok ==> after.changedDepth == st.changedDepth + records)
      && (ok <==> forall r :: r in records ==> r.symbolId in st.ids)
    decreases |records|
  {
    if |records| > 0 && records[0].symbolId in st.ids {
      var next := st.(changedDepth := st.changedDepth + [records[0]]);
      DepthQueued(next, records[1..]);
      assert st.changedDepth + [records[0]] + records[1..] == st.changedDepth + records;
      assert forall r :: r in records ==> r == records[0] || r in records[1..];
      assert records[0] in records && forall r :: r in records[1..] ==> r in records;
    } else if |records| > 0 {
      assert records[0] in records;
    }
  }

  /** Depth records are queued when all their symbols are known and the queue has room. */
  lemma DepthTaken<O>(st: State<O>, records: seq<D.DepthRecord>)
    ensures DepthApplied(st, records).1 <==>
            |st.changedDepth| + |records| <= 10_000 && forall r :: r in records ==> r.symbolId in st.ids
  {
    DepthQueued(st, records);
  }

  lemma EventQueues<O>(st: State<O>, e: Event<O>)
    requires IndexOk(st.symbols, st.ids)
    ensures var (after, ok) := Applied(st, e);
      var all := st.changedDepth + if e.DepthRecords? then e.records else [];
      after.changedDepth <= all && (ok ==> after.changedDepth == all)
  {
    hide RowsApplied, DepthPushed, ChangesApplied, Unsubscribed, Wanted, OrdersAfter, AccountAfter, IndexOk,
         SymbolsAfter, Listed;
    assert st.changedDepth + [] == st.changedDepth;
    match e
    case QuoteRows(command, rows) => RowsKeepRest(st, command, rows);
    case DepthRecords(records) => DepthQueued(st, records);
    case PositionUpdates(changes, sent) => ChangesKeepRest(st, changes);
    case _ =>
  }

  lemma StepQueues<O>(c: Life<O>, op: Op<O>)
    requires Sound(c.st)
    ensures var (after, taken) := (Step(c, op), if op.TakeDepth? then c.st.changedDepth else []);
      var all := c.st.changedDepth + OpOffered(c, op);
      && taken + after.st.changedDepth <= all && (after.healthy ==> taken + after.st.changedDepth == all)
      && (!c.healthy ==> OpOffered(c, op) == [])
  {
    hide Applied, Subscribed, DepthSubscribed, Sound;
    SoundIndex(c.st);
    assert c.st.changedDepth + [] == c.st.changedDepth;
    match op
    case Subscribe(names, sent, _) =>
      SubscribedKeeps(c.st, names, sent);
      assert [] + c.st.changedDepth == c.st.changedDepth;
    case SubscribeDepth(names, sent, _) =>
      SubscribedKeeps(c.st, names, sent);
      assert [] + c.st.changedDepth == c.st.changedDepth;
    case Poll(_) =>
      assert forall s: seq<D.DepthRecord> :: [] + s == s;
      match Arrived(c, op) {
        case Some(e) => EventQueues(c.st, e);
        case None =>
      }
    case _ =>
      assert forall s: seq<D.DepthRecord> :: [] + s == s;
  }

  lemma {:induction false} NoMoreOffered<O>(c: Life<O>, ops: seq<Op<O>>)
    requires Sound(c.st) && !c.healthy
    ensures RunOffered(c, ops) == []
    decreases |ops|
  {
    hide Sound, Step;
    if |ops| > 0 {
      StepKeeps(c, ops[0]);
      SoundIndex(c.st);
      NoMoreOffered(Step(c, ops[0]), ops[1..]);
    }
  }

  /** Over any run, what callers took and what is still queued are exactly the depth
      records received, each once and in order; when a message was refused, a
      beginning of them. */
  lemma {:induction false} DepthQueuedOnce<O>(c: Life<O>, ops: seq<Op<O>>)
    requires Sound(c.st)
    ensures var after := RunFrom(c, ops);
      var all := c.st.changedDepth + RunOffered(c, ops);
      && RunTakenDepth(c, ops) + after.st.changedDepth <= all
      && (after.healthy ==> RunTakenDepth(c, ops) + after.st.changedDepth == all)
    decreases |ops|
  {
    hide Sound, Step, OpOffered;
    if |ops| > 0 {
      StepKeeps(c, ops[0]);
      SoundIndex(c.st);
      StepQueues(c, ops[0]);
      var next := Step(c, ops[0]);
      DepthQueuedOnce(next, ops[1..]);
      var taken := if ops[0].TakeDepth? then c.st.changedDepth else [];
      if !next.healthy {
        EveryRunKeeps(next, ops[1..]);
        NoMoreOffered(next, ops[1..]);
      }
      Together(taken, next.st.changedDepth, RunTakenDepth(next, ops[1..]), RunFrom(next, ops[1..]).st.changedDepth,
               c.st.changedDepth, OpOffered(c, ops[0]), RunOffered(next, ops[1..]));
    }
  }
}
