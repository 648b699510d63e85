/** The client's copy of the account: symbols and their index, live quotes, depth,
    orders, positions and subscriptions, kept up to date by broker messages. */
module ClientState {
  import opened Results
  import opened Bits
  import opened Account
  import opened Conversion
  import D = Depth
  import Q = Quotes

  const MAX_QUOTES: nat := 100_000
  const MAX_DEPTH: nat := 10_000

  // Seconds.
  const KEEPALIVE: int := 10
  const RECEIVE_DEADLINE: int := 45

  datatype LiveQuote = LiveQuote(symbol: string, time: int, bid: real, ask: real)

  /** A record known by its ticket. */
  datatype Keyed<T> = Keyed(ticket: nat, value: T)

  datatype Deal = Deal(symbol: string, position: int, volume: int, rest: seq<byte>)

  datatype Change = Add | Update | Delete

  datatype PositionChange = PositionChange(
    position: Keyed<Deal>, balance: Option<(seq<byte>, seq<byte>)>, related: seq<Keyed<Deal>>)

  datatype State<O> = State(
    symbols: seq<Symbol>, ids: map<int, nat>, quotes: map<string, LiveQuote>,
    changedQuotes: seq<LiveQuote>, changedDepth: seq<D.DepthRecord>,
    orders: seq<Keyed<O>>, positions: seq<Keyed<Deal>>, account: AccountState,
    subscriptions: set<int>, requests: seq<set<int>>,
    depthSubscriptions: set<int>, depthRequests: seq<set<int>>, currency: Option<string>)

  /** A decoded message; `sent` is what the socket does with the request it may
      trigger. */
  datatype Event<O> =
    | QuoteRows(command: byte, rows: seq<Q.QuoteRow>)
    | DepthRecords(records: seq<D.DepthRecord>)
    | SymbolUpdates(symbols: seq<Symbol>)
    | AccountChanges(accounts: seq<AccountState>)
    | OrderUpdates(orders: seq<(Change, Keyed<O>)>)
    | PositionUpdates(changes: seq<PositionChange>, sent: bool)
    | Other
    | Malformed

  // ---- symbols ------------------------------------------------------------

  /** Every known id leads to a symbol with that id, and every symbol is reached
      through its id. */
  predicate IndexOk(symbols: seq<Symbol>, ids: map<int, nat>) {
    && (forall id :: id in ids ==> ids[id] < |symbols| && symbols[ids[id]].id == id)
    && (forall s :: s in symbols ==> s.id in ids)
  }

  function Indexed(symbols: seq<Symbol>): map<int, nat> {
    if |symbols| == 0 then map[] else Indexed(symbols[..|symbols| - 1])[symbols[|symbols| - 1].id := |symbols| - 1]
  }

  lemma {:induction false} IndexedOk(symbols: seq<Symbol>)
    ensures IndexOk(symbols, Indexed(symbols))
  {
    if |symbols| > 0 {
      var n := |symbols| - 1;
      IndexedOk(symbols[..n]);
      forall s | s in symbols ensures s.id in Indexed(symbols) {
        assert s == symbols[n] || s in symbols[..n];
      }
    }
  }

  function SymbolsAfter(symbols: seq<Symbol>, ids: map<int, nat>, updates: seq<Symbol>): (r: (seq<Symbol>, map<int,
                        nat>))
    requires IndexOk(symbols, ids)
    ensures IndexOk(r.0, r.1)
    ensures forall id :: id in ids ==> id in r.1 && r.1[id] == ids[id]
    ensures forall s :: s in updates ==> s.id in r.1
    ensures |symbols| <= |r.0| && forall i :: 0 <= i < |symbols| ==> r.0[i].id == symbols[i].id
    ensures forall i :: |symbols| <= i < |r.0| ==> r.0[i].id !in ids
    decreases |updates|
  {
    if |updates| == 0 then (symbols, ids) else
    var s := updates[0];
    if s.id in ids then SymbolsAfter(Replaced(symbols, ids[s.id], s), ids, updates[1..])
    else
      AppendedOk(symbols, ids, s);
      SymbolsAfter(symbols + [s], ids[s.id := |symbols|], updates[1..])
  }

  function Replaced(symbols: seq<Symbol>, i: nat, s: Symbol): (r: seq<Symbol>)
    requires i < |symbols| && symbols[i].id == s.id
    ensures forall ids :: IndexOk(symbols, ids) ==> IndexOk(r, ids)
    ensures r == symbols[i := s]
  {
    var r := symbols[i := s];
    assert forall t :: t in r ==> t == s || t in symbols;
    assert symbols[i] in symbols;
    r
  }

  lemma AppendedOk(symbols: seq<Symbol>, ids: map<int, nat>, s: Symbol)
    requires IndexOk(symbols, ids) && s.id !in ids
    ensures IndexOk(symbols + [s], ids[s.id := |symbols|])
  {
  }

  // ---- ticket-keyed lists -------------------------------------------------

  predicate Distinct<T>(items: seq<Keyed<T>>) {
    forall i, j :: 0 <= i < j < |items| ==> items[i].ticket != items[j].ticket
  }

  function Retained<T>(items: seq<Keyed<T>>, ticket: nat): seq<Keyed<T>> {
    if |items| == 0 then []
    else Retained(items[..|items| - 1], ticket) +
         if items[|items| - 1].ticket != ticket then [items[|items| - 1]] else []
  }

  /** Drop the ticket's record; then add the new one unless it is gone. */
  function Put<T>(items: seq<Keyed<T>>, item: Keyed<T>, keep: bool): seq<Keyed<T>> {
    Retained(items, item.ticket) + if keep then [item] else []
  }

  function ByTicket<T>(items: seq<Keyed<T>>): map<nat, T> {
    if |items| == 0 then map[]
    else ByTicket(items[..|items| - 1])[items[|items| - 1].ticket := items[|items| - 1].value]
  }

  lemma {:induction false} RetainedMember<T>(items: seq<Keyed<T>>, ticket: nat, i: nat) returns (j: nat)
    requires i < |Retained(items, ticket)|
    ensures j < |items| && items[j] == Retained(items, ticket)[i] && items[j].ticket != ticket
  {
    var n := |items| - 1;
    if i < |Retained(items[..n], ticket)| {
      j := RetainedMember(items[..n], ticket, i);
    } else {
      j := n;
    }
  }

  lemma {:induction false} RetainedDistinct<T>(items: seq<Keyed<T>>, ticket: nat)
    requires Distinct(items)
    ensures Distinct(Retained(items, ticket))
  {
    if |items| > 0 {
      var n := |items| - 1;
      RetainedDistinct(items[..n], ticket);
      var rest := Retained(items[..n], ticket);
      forall i | 0 <= i < |rest| ensures rest[i].ticket != items[n].ticket {
        var j := RetainedMember(items[..n], ticket, i);
        assert items[j].ticket != items[n].ticket;
      }
    }
  }

  lemma {:induction false} RetainedIsRemoval<T>(items: seq<Keyed<T>>, ticket: nat)
    ensures ByTicket(Retained(items, ticket)) == ByTicket(items) - {ticket}
  {
    if |items| > 0 {
      var n := |items| - 1;
      var rest, last := Retained(items[..n], ticket), items[n];
      RetainedIsRemoval(items[..n], ticket);
      var before := ByTicket(items[..n]);
      if last.ticket != ticket {
        Appended(rest, last);
        assert (before - {ticket})[last.ticket := last.value] == before[last.ticket := last.value] - {ticket};
      } else {
        assert rest + [] == rest;
        assert before - {ticket} == before[last.ticket := last.value] - {ticket};
      }
    }
  }

  lemma {:induction false} RetainedInOrder<T>(items: seq<Keyed<T>>, ticket: nat, i: nat, j: nat)
    returns (a: nat, b: nat)
    requires i < j < |Retained(items, ticket)|
    ensures a < b < |items| && items[a] == Retained(items, ticket)[i] && items[b] == Retained(items, ticket)[j]
  {
    var n := |items| - 1;
    if j < |Retained(items[..n], ticket)| {
      a, b := RetainedInOrder(items[..n], ticket, i, j);
    } else {
      a := RetainedMember(items[..n], ticket, i);
      b := n;
    }
  }

  /** `x` stands before `y`. */
  ghost predicate StandsBefore<T(!new)>(items: seq<Keyed<T>>, x: Keyed<T>, y: Keyed<T>) {
    exists a, b :: 0 <= a < b < |items| && items[a] == x && items[b] == y
  }

  /** A record that is put stands at the end; the others keep their order. */
  lemma PutKeepsOrder<T(!new)>(items: seq<Keyed<T>>, item: Keyed<T>, keep: bool)
    ensures var (after, others) := (Put(items, item, keep), |Retained(items, item.ticket)|);
      && |after| == others + (if keep then 1 else 0) && (keep ==> after[others] == item)
      && forall i, j :: 0 <= i < j < others ==> StandsBefore(items, after[i], after[j])
  {
    hide Retained;
    var rest, after := Retained(items, item.ticket), Put(items, item, keep);
    forall i, j | 0 <= i < j < |rest| ensures StandsBefore(items, after[i], after[j]) {
      var a, b := RetainedInOrder(items, item.ticket, i, j);
      assert items[a] == after[i] && items[b] == after[j];
    }
  }

  /** On distinct tickets the list is the map: putting a record updates exactly its
      ticket, or removes it. */
  lemma PutIsMapUpdate<T>(items: seq<Keyed<T>>, item: Keyed<T>, keep: bool)
    requires Distinct(items)
    ensures Distinct(Put(items, item, keep))
    ensures ByTicket(Put(items, item, keep)) ==
            if keep then ByTicket(items)[item.ticket := item.value] else ByTicket(items) - {item.ticket}
  {
    hide ByTicket, Retained;
    RetainedIsRemoval(items, item.ticket);
    RetainedDistinct(items, item.ticket);
    var rest := Retained(items, item.ticket);
    forall i | 0 <= i < |rest| ensures rest[i].ticket != item.ticket {
      var j := RetainedMember(items, item.ticket, i);
    }
    if keep {
      Appended(rest, item);
      var before := ByTicket(items);
      assert (before - {item.ticket})[item.ticket := item.value] == before[item.ticket := item.value];
    } else {
      assert rest + [] == rest;
    }
  }

  lemma Appended<T>(rest: seq<Keyed<T>>, item: Keyed<T>)
    ensures ByTicket(rest + [item]) == ByTicket(rest)[item.ticket := item.value]
  {
    assert (rest + [item])[..|rest|] == rest;
  }

  // ---- quotes -------------------------------------------------------------

  function Pow10(n: nat): (r: real)
    ensures r > 0.0
  {
    if n == 0 then 1.0 else 10.0 * Pow10(n - 1)
  }

  function Scale(digits: int): (r: real)
    ensures r > 0.0
  {
    if digits >= 0 then Pow10(digits) else 1.0 / Pow10(-digits)
  }

  /** Ten to the power of the digits, also of a negative number of them. */
  lemma ScaleMeans(digits: int)
    ensures Scale(0) == 1.0 && Scale(digits + 1) == 10.0 * Scale(digits)
  {
    if digits < 0 {
      var p, q := Pow10(-digits), Pow10(-digits - 1);
      assert p == 10.0 * q;
      Tenth(p, q);
    }
  }

  lemma Tenth(p: real, q: real)
    requires p == 10.0 * q && q > 0.0
    ensures 1.0 / q == 10.0 * (1.0 / p)
  {
    var a := 1.0 / p;
    assert a * p == 1.0;
    assert a * (10.0 * q) == (10.0 * a) * q;
  }

  /** A positive value fills a side; anything else leaves it. */
  function Side(before: real, value: Option<int>, scale: real): (r: real)
    requires scale > 0.0
    ensures before > 0.0 ==> r > 0.0
    ensures value.Some? && value.value > 0 ==> r > 0.0
    ensures r == before || r > 0.0
  {
    if value.Some? && value.value > 0 then Quotient(value.value as real, scale); value.value as real / scale else before
  }

  lemma Quotient(a: real, b: real)
    requires a > 0.0 && b > 0.0
    ensures a / b > 0.0
  {
  }

  /** Bid, ask and millisecond component, by message kind. */
  function RowValues(command: byte, row: Q.QuoteRow): (Option<int>, Option<int>, Option<int>) {
    if command == 50 then (Q.Lookup(row.live, 0), Q.Lookup(row.live, 1), Q.Lookup(row.live, 6))
    else (Q.Lookup(row.fields, 0), Q.Lookup(row.fields, 3), Q.Lookup(row.fields, 26))
  }

  predicate Filled(q: LiveQuote) {
    q.bid > 0.0 && q.ask > 0.0
  }

  function RowQuote(quotes: map<string, LiveQuote>, s: Symbol, time: int, bid: Option<int>, ask: Option<int>):
    LiveQuote
  {
    var before := if s.name in quotes then quotes[s.name] else LiveQuote(s.name, time, 0.0, 0.0);
    LiveQuote(before.symbol, time, Side(before.bid, bid, Scale(s.digits)), Side(before.ask, ask, Scale(s.digits)))
  }

  /** One row, and whether it was accepted. */
  function RowApplied<O>(st: State<O>, command: byte, row: Q.QuoteRow): (r: (State<O>, bool))
    requires IndexOk(st.symbols, st.ids)
    ensures r.0.symbols == st.symbols && r.0.ids == st.ids
  {
    if !(-0x8000_0000 <= row.symbolId < 0x8000_0000) || row.symbolId !in st.ids then (st, false) else
    var s := st.symbols[st.ids[row.symbolId]];
    var (bid, ask, component) := RowValues(command, row);
    var time := row.seconds * 1000 + if component.Some? then component.value else 0;
    if !(-0x8000_0000_0000_0000 <= time < 0x8000_0000_0000_0000) then (st, false) else
    var quote := RowQuote(st.quotes, s, time, bid, ask);
    var updated := st.(quotes := st.quotes[s.name := quote]);
    if !Filled(quote) then (updated, true)
    else if |st.changedQuotes| >= MAX_QUOTES then (updated, false)
    else (updated.(changedQuotes := st.changedQuotes + [quote]), true)
  }

  function RowsApplied<O>(st: State<O>, command: byte, rows: seq<Q.QuoteRow>): (r: (State<O>, bool))
    requires IndexOk(st.symbols, st.ids)
    decreases |rows|
  {
    if |rows| == 0 then (st, true) else
    var (next, ok) := RowApplied(st, command, rows[0]);
    if !ok then (next, false) else RowsApplied(next, command, rows[1..])
  }

  // ---- depth, account, orders ---------------------------------------------

  function DepthPushed<O>(st: State<O>, records: seq<D.DepthRecord>): (State<O>, bool)
    decreases |records|
  {
    if |records| == 0 then (st, true)
    else if records[0].symbolId !in st.ids then (st, false)
    else DepthPushed(st.(changedDepth := st.changedDepth + [records[0]]), records[1..])
  }

  function DepthApplied<O>(st: State<O>, records: seq<D.DepthRecord>): (State<O>, bool) {
    if |st.changedDepth| + |records| > MAX_DEPTH then (st, false) else DepthPushed(st, records)
  }

  /** Only the account's own records count. */
  function AccountAfter(account: AccountState, updates: seq<AccountState>): (r: AccountState)
    ensures r.login == account.login
    decreases |updates|
  {
    if |updates| == 0 then account
    else AccountAfter(if updates[0].login == account.login then updates[0] else account, updates[1..])
  }

  function OrdersAfter<O>(orders: seq<Keyed<O>>, updates: seq<(Change, Keyed<O>)>): seq<Keyed<O>>
    decreases |updates|
  {
    if |updates| == 0 then orders
    else OrdersAfter(Put(orders, updates[0].1, !updates[0].0.Delete?), updates[1..])
  }

  // ---- positions and the subscriptions they need --------------------------

  predicate IsOpen(d: Deal) {
    d.volume > 0 && d.position != 0
  }

  function DealsPut(positions: seq<Keyed<Deal>>, deals: seq<Keyed<Deal>>): seq<Keyed<Deal>>
    decreases |deals|
  {
    if |deals| == 0 then positions else DealsPut(Put(positions, deals[0], IsOpen(deals[0].value)), deals[1..])
  }

  function BalanceAfter(account: AccountState, balance: Option<(seq<byte>, seq<byte>)>): AccountState {
    match balance
    case None => account
    case Some((balance, credit)) => account.(balance := balance, credit := credit)
  }

  function ChangesApplied<O>(st: State<O>, changes: seq<PositionChange>): State<O>
    decreases |changes|
  {
    if |changes| == 0 then st else
    var c := changes[0];
    ChangesApplied(st.(positions := DealsPut(st.positions, [c.position] + c.related),
                       account := BalanceAfter(st.account, c.balance)), changes[1..])
  }

  predicate FirstNamed(symbols: seq<Symbol>, name: string, i: nat) {
    i < |symbols| && symbols[i].name == name && forall j :: 0 <= j < i ==> symbols[j].name != name
  }

  function SymbolNamed(symbols: seq<Symbol>, name: string): (r: Option<Symbol>)
    ensures r.Some? ==> exists i :: 0 <= i < |symbols| && symbols[i] == r.value && FirstNamed(symbols, name, i)
    ensures r.None? ==> forall s :: s in symbols ==> s.name != name
  {
    if |symbols| == 0 then None
    else if symbols[0].name == name then
      assert FirstNamed(symbols, name, 0);
      Some(symbols[0])
    else
      FirstLater(symbols, name);
      SymbolNamed(symbols[1..], name)
  }

  lemma FirstLater(symbols: seq<Symbol>, name: string)
    requires |symbols| > 0 && symbols[0].name != name
    ensures forall i :: 0 <= i < |symbols| - 1 && FirstNamed(symbols[1..], name, i) ==>
      FirstNamed(symbols, name, i + 1) && symbols[i + 1] == symbols[1..][i]
  {
    forall i | 0 <= i < |symbols| - 1 && FirstNamed(symbols[1..], name, i) ensures FirstNamed(symbols, name, i + 1) {
      assert forall j :: 0 < j < i + 1 ==> symbols[j] == symbols[1..][j - 1];
    }
  }

  predicate Listed(symbols: seq<Symbol>, names: seq<string>) {
    forall i :: 0 <= i < |names| ==> SymbolNamed(symbols, names[i]).Some?
  }

  /** The ids of the named symbols. */
  function OwnIds(symbols: seq<Symbol>, names: seq<string>): set<int> {
    if |names| == 0 then {} else
    var rest := OwnIds(symbols, names[..|names| - 1]);
    match SymbolNamed(symbols, names[|names| - 1])
    case Some(s) => rest + {s.id}
    case None => rest
  }

  /** The ids along the conversions their profit and margin currencies need. */
  function ConversionIds(symbols: seq<Symbol>, names: seq<string>, currency: string): set<int> {
    if |names| == 0 then {} else
    var rest := ConversionIds(symbols, names[..|names| - 1], currency);
    match SymbolNamed(symbols, names[|names| - 1])
    case Some(s) =>
      rest + PathIds(Found(Market(symbols, map[], false), s.profit, currency))
      + PathIds(Found(Market(symbols, map[], false), s.margin, currency))
    case None => rest
  }

  function PathIds(path: Option<seq<Conv>>): set<int> {
    match path
    case None => {}
    case Some(steps) => set c | c in steps :: c.symbol.id
  }

  /** Everything that subscribing to some names asks for. */
  function Wanted(symbols: seq<Symbol>, currency: Option<string>, names: seq<string>): set<int> {
    OwnIds(symbols, names) + if currency.Some? then ConversionIds(symbols, names, currency.value) else {}
  }

  /** Subscribing asks again for everything subscribed. The ids count as subscribed
      whether or not the request is written. */
  function Subscribed<O>(st: State<O>, names: seq<string>, sent: bool): (State<O>, bool) {
    if !Listed(st.symbols, names) then (st, false) else
    var all := st.subscriptions + Wanted(st.symbols, st.currency, names);
    (st.(subscriptions := all, requests := if sent then st.requests + [all] else st.requests), sent)
  }

  predicate DepthListed(symbols: seq<Symbol>, names: seq<string>) {
    forall i :: 0 <= i < |names| ==>
      SymbolNamed(symbols, names[i]).Some? && SymbolNamed(symbols, names[i]).value.id >= 0
  }

  /** The same for market depth, which takes no negative id and no conversions. */
  function DepthSubscribed<O>(st: State<O>, names: seq<string>, sent: bool): (State<O>, bool) {
    if !DepthListed(st.symbols, names) then (st, false) else
    var all := st.depthSubscriptions + OwnIds(st.symbols, names);
    (st.(depthSubscriptions := all, depthRequests := if sent then st.depthRequests + [all] else st.depthRequests),
     sent)
  }

  /** The names of the open positions' symbols that are not subscribed. */
  function Unsubscribed(symbols: seq<Symbol>, have: set<int>, positions: seq<Keyed<Deal>>): seq<string> {
    if |positions| == 0 then [] else
    var rest := Unsubscribed(symbols, have, positions[..|positions| - 1]);
    match SymbolNamed(symbols, positions[|positions| - 1].value.symbol)
    case Some(s) => if s.id in have then rest else rest + [s.name]
    case None => rest
  }

  function PositionsApplied<O>(st: State<O>, changes: seq<PositionChange>, sent: bool): (State<O>, bool) {
    var changed := ChangesApplied(st, changes);
    var names := Unsubscribed(st.symbols, st.subscriptions, changed.positions);
    if names == [] then (changed, true) else Subscribed(changed, names, sent)
  }

  lemma {:induction false} OwnIdsCover(symbols: seq<Symbol>, names: seq<string>)
    ensures forall name :: name in names && SymbolNamed(symbols, name).Some? ==>
      SymbolNamed(symbols, name).value.id in OwnIds(symbols, names)
  {
    hide SymbolNamed;
    if |names| > 0 {
      var n := |names| - 1;
      OwnIdsCover(symbols, names[..n]);
      assert forall name :: name in names ==> name == names[n] || name in names[..n];
    }
  }

  /** The names are of known symbols, none of them subscribed, and with them every
      position's symbol is covered. */
  lemma {:induction false} UnsubscribedMeans(symbols: seq<Symbol>, have: set<int>, positions: seq<Keyed<Deal>>)
    ensures var names := Unsubscribed(symbols, have, positions);
      && (forall name :: name in names ==>
            SymbolNamed(symbols, name).Some? && SymbolNamed(symbols, name).value.id !in have)
      && forall p :: p in positions && SymbolNamed(symbols, p.value.symbol).Some? ==>
           SymbolNamed(symbols, p.value.symbol).value.id in have || p.value.symbol in names
  {
    hide SymbolNamed;
    if |positions| > 0 {
      var n := |positions| - 1;
      UnsubscribedMeans(symbols, have, positions[..n]);
      assert forall p :: p in positions ==> p == positions[n] || p in positions[..n];
    }
  }

  /** After a position update, every open position's symbol is subscribed. */
  lemma PositionsSubscribed<O>(st: State<O>, changes: seq<PositionChange>, sent: bool)
    ensures var after := PositionsApplied(st, changes, sent).0;
      forall p :: p in after.positions ==>
        match SymbolNamed(st.symbols, p.value.symbol) case Some(s) => s.id in after.subscriptions case None => true
  {
    hide Unsubscribed, SymbolNamed, ChangesApplied, OwnIds, ConversionIds;
    var changed := ChangesApplied(st, changes);
    UnsubscribedMeans(st.symbols, st.subscriptions, changed.positions);
    OwnIdsCover(st.symbols, Unsubscribed(st.symbols, st.subscriptions, changed.positions));
    ChangesKeepRest(st, changes);
  }

  lemma {:induction false} ChangesKeepRest<O>(st: State<O>, changes: seq<PositionChange>)
    ensures var after := ChangesApplied(st, changes);
      after == st.(positions := after.positions, account := after.account) && after.account.login == st.account.login
    decreases |changes|
  {
    if |changes| > 0 {
      var c := changes[0];
      ChangesKeepRest(st.(positions := DealsPut(st.positions, [c.position] + c.related),
                          account := BalanceAfter(st.account, c.balance)), changes[1..]);
    }
  }

  // ---- one message --------------------------------------------------------

  function Applied<O>(st: State<O>, e: Event<O>): (State<O>, bool)
    requires IndexOk(st.symbols, st.ids)
  {
    match e
    case QuoteRows(command, rows) => RowsApplied(st, command, rows)
    case DepthRecords(records) => DepthApplied(st, records)
    case SymbolUpdates(updates) =>
      var (symbols, ids) := SymbolsAfter(st.symbols, st.ids, updates);
      (st.(symbols := symbols, ids := ids), true)
    case AccountChanges(accounts) => (st.(account := AccountAfter(st.account, accounts)), true)
    case OrderUpdates(updates) => (st.(orders := OrdersAfter(st.orders, updates)), true)
    case PositionUpdates(changes, sent) => PositionsApplied(st, changes, sent)
    case Other => (st, true)
    case Malformed => (st, false)
  }

  /** What every update keeps. */
  predicate Sound<O>(st: State<O>) {
    && IndexOk(st.symbols, st.ids)
    && Distinct(st.orders) && Distinct(st.positions)
    && |st.changedQuotes| <= MAX_QUOTES && (forall q :: q in st.changedQuotes ==> Filled(q))
    && |st.changedDepth| <= MAX_DEPTH && (forall r :: r in st.changedDepth ==> r.symbolId in st.ids)
    && (forall r :: r in st.requests ==> r <= st.subscriptions)
    && (forall r :: r in st.depthRequests ==> r <= st.depthSubscriptions)
  }

  /** Sides of quotes that were filled stay filled. */
  predicate SidesKept(a: map<string, LiveQuote>, b: map<string, LiveQuote>) {
    forall name :: name in a ==>
      name in b && (a[name].bid > 0.0 ==> b[name].bid > 0.0) && (a[name].ask > 0.0 ==> b[name].ask > 0.0)
  }

  /** What no update undoes: positions in the symbol list, filled quote sides, the
      account's identity, subscriptions, and requests once written. */
  predicate Extends<O>(a: State<O>, b: State<O>) {
    && (forall id :: id in a.ids ==> id in b.ids && b.ids[id] == a.ids[id])
    && SidesKept(a.quotes, b.quotes)
    && b.account.login == a.account.login
    && a.subscriptions <= b.subscriptions
    && a.depthSubscriptions <= b.depthSubscriptions
    && a.requests <= b.requests && a.depthRequests <= b.depthRequests
  }

  lemma RowKeeps<O>(st: State<O>, command: byte, row: Q.QuoteRow)
    requires Sound(st)
    ensures Sound(RowApplied(st, command, row).0) && Extends(st, RowApplied(st, command, row).0)
  {
    hide IndexOk, Distinct, Scale, RowValues;
  }

  lemma {:induction false} RowsKeep<O>(st: State<O>, command: byte, rows: seq<Q.QuoteRow>)
    requires Sound(st)
    ensures Sound(RowsApplied(st, command, rows).0) && Extends(st, RowsApplied(st, command, rows).0)
    decreases |rows|
  {
    hide IndexOk, Distinct, RowApplied;
    if |rows| > 0 {
      RowKeeps(st, command, rows[0]);
      var (next, ok) := RowApplied(st, command, rows[0]);
      if ok {
        RowsKeep(next, command, rows[1..]);
      }
    }
  }

  lemma {:induction false} DepthKeeps<O>(st: State<O>, records: seq<D.DepthRecord>)
    requires Sound(st) && |st.changedDepth| + |records| <= MAX_DEPTH
    ensures Sound(DepthPushed(st, records).0) && Extends(st, DepthPushed(st, records).0)
    decreases |records|
  {
    hide IndexOk, Distinct;
    if |records| > 0 && records[0].symbolId in st.ids {
      DepthKeeps(st.(changedDepth := st.changedDepth + [records[0]]), records[1..]);
    }
  }

  lemma {:induction false} OrdersKeep<O>(orders: seq<Keyed<O>>, updates: seq<(Change, Keyed<O>)>)
    requires Distinct(orders)
    ensures Distinct(OrdersAfter(orders, updates))
    ensures ByTicket(OrdersAfter(orders, updates)) == TicketsAfter(ByTicket(orders), updates)
    decreases |updates|
  {
    hide Put, ByTicket, Distinct;
    if |updates| > 0 {
      var (change, order) := updates[0];
      PutIsMapUpdate(orders, order, !change.Delete?);
      OrdersKeep(Put(orders, order, !change.Delete?), updates[1..]);
    }
  }

  /** The same updates on a map from tickets to orders. */
  function TicketsAfter<O>(orders: map<nat, O>, updates: seq<(Change, Keyed<O>)>): map<nat, O>
    decreases |updates|
  {
    if |updates| == 0 then orders else
    var (change, order) := updates[0];
    TicketsAfter(if change.Delete? then orders - {order.ticket} else orders[order.ticket := order.value], updates[1..])
  }

  lemma {:induction false} DealsKeep(positions: seq<Keyed<Deal>>, deals: seq<Keyed<Deal>>)
    requires Distinct(positions)
    ensures Distinct(DealsPut(positions, deals))
    ensures ByTicket(DealsPut(positions, deals)) == DealsAfter(ByTicket(positions), deals)
    decreases |deals|
  {
    hide Put, ByTicket, Distinct;
    if |deals| > 0 {
      PutIsMapUpdate(positions, deals[0], IsOpen(deals[0].value));
      DealsKeep(Put(positions, deals[0], IsOpen(deals[0].value)), deals[1..]);
    }
  }

  /** The same on a map: an open deal is stored under its ticket, a closed one
      leaves. */
  function DealsAfter(positions: map<nat, Deal>, deals: seq<Keyed<Deal>>): map<nat, Deal>
    decreases |deals|
  {
    if |deals| == 0 then positions
    else DealsAfter(if IsOpen(deals[0].value) then positions[deals[0].ticket := deals[0].value]
                    else positions - {deals[0].ticket}, deals[1..])
  }

  lemma {:induction false} ChangesKeep<O>(st: State<O>, changes: seq<PositionChange>)
    requires Distinct(st.positions)
    ensures Distinct(ChangesApplied(st, changes).positions)
    decreases |changes|
  {
    hide Distinct, DealsPut;
    if |changes| > 0 {
      var c := changes[0];
      DealsKeep(st.positions, [c.position] + c.related);
      ChangesKeep(st.(positions := DealsPut(st.positions, [c.position] + c.related),
                      account := BalanceAfter(st.account, c.balance)), changes[1..]);
    }
  }

  lemma EventKeeps<O>(st: State<O>, e: Event<O>)
    requires Sound(st)
    ensures Sound(Applied(st, e).0) && Extends(st, Applied(st, e).0)
  {
    hide Distinct, RowsApplied, DepthPushed, PositionsApplied, OrdersAfter;
    match e
    case QuoteRows(command, rows) => RowsKeep(st, command, rows);
    case DepthRecords(records) =>
      if |st.changedDepth| + |records| <= MAX_DEPTH {
        DepthKeeps(st, records);
      }
    case OrderUpdates(updates) => OrdersKeep(st.orders, updates);
    case PositionUpdates(changes, sent) => PositionsKeep(st, changes, sent);
    case _ =>
  }

  lemma PositionsKeep<O>(st: State<O>, changes: seq<PositionChange>, sent: bool)
    requires Sound(st)
    ensures Sound(PositionsApplied(st, changes, sent).0) && Extends(st, PositionsApplied(st, changes, sent).0)
  {
    hide IndexOk, Distinct, ChangesApplied, Unsubscribed, Subscribed;
    ChangesKeep(st, changes);
    ChangesKeepRest(st, changes);
    SubscribedKeeps(ChangesApplied(st, changes),
                    Unsubscribed(st.symbols, st.subscriptions, ChangesApplied(st, changes).positions), sent);
  }

  /** The index stays sound whether or not tickets are distinct. */
  lemma EventKeepsIndex<O>(st: State<O>, e: Event<O>)
    requires IndexOk(st.symbols, st.ids)
    ensures IndexOk(Applied(st, e).0.symbols, Applied(st, e).0.ids)
  {
    hide RowsApplied, DepthPushed, ChangesApplied, Unsubscribed, Wanted, OrdersAfter, AccountAfter, IndexOk;
    match e
    case QuoteRows(command, rows) => RowsKeepRest(st, command, rows);
    case DepthRecords(records) => DepthKeepsRest(st, records);
    case PositionUpdates(changes, sent) => ChangesKeepRest(st, changes);
    case _ =>
  }

  /** Rows touch the quotes and their queue alone. */
  lemma {:induction false} RowsKeepRest<O>(st: State<O>, command: byte, rows: seq<Q.QuoteRow>)
    requires IndexOk(st.symbols, st.ids)
    ensures var after := RowsApplied(st, command, rows).0;
      after == st.(quotes := after.quotes, changedQuotes := after.changedQuotes)
    decreases |rows|
  {
    hide IndexOk, Scale, RowValues, RowQuote;
    if |rows| > 0 && RowApplied(st, command, rows[0]).1 {
      RowsKeepRest(RowApplied(st, command, rows[0]).0, command, rows[1..]);
    }
  }

  lemma {:induction false} DepthKeepsRest<O>(st: State<O>, records: seq<D.DepthRecord>)
    ensures DepthPushed(st, records).0 == st.(changedDepth := DepthPushed(st, records).0.changedDepth)
    decreases |records|
  {
    if |records| > 0 && records[0].symbolId in st.ids {
      DepthKeepsRest(st.(changedDepth := st.changedDepth + [records[0]]), records[1..]);
    }
  }

  // ---- every run ----------------------------------------------------------

  /** One poll: when it starts, whether a keepalive that is due can be written, what
      the session brings (nothing, a message, or its failure), and when. */
  datatype Polled<O> = Polled(now: int, pinged: bool, received: Result<Option<Event<O>>>, later: int)

  /** What a caller may do, in any order and at any time: poll, take away the quote or
      depth changes, subscribe to names for quotes or for depth, send a request or a
      trade, or set the silence deadline. `sent` is whether the write succeeds. */
  datatype Op<O> =
    | Poll(polled: Polled<O>)
    | TakeQuotes
    | TakeDepth
    | Subscribe(names: seq<string>, sent: bool, at: int)
    | SubscribeDepth(names: seq<string>, sent: bool, at: int)
    | Request(sent: bool, at: int)
    | SetDeadline(deadline: int)

  datatype Life<O> = Life(
    st: State<O>, healthy: bool, lastSend: int, lastReceive: int, deadline: int, pings: nat, asked: nat)

  predicate Due<O>(c: Life<O>, p: Polled<O>) {
    p.now - c.lastSend >= KEEPALIVE
  }

  /** The message that reaches the state, if any. */
  function Arrived<O>(c: Life<O>, op: Op<O>): Option<Event<O>> {
    if op.Poll? && c.healthy && (Due(c, op.polled) ==> op.polled.pinged) && op.polled.received.Ok?
    then op.polled.received.value else None
  }

  function PollStep<O>(c: Life<O>, p: Polled<O>): Life<O>
    requires IndexOk(c.st.symbols, c.st.ids)
  {
    if !c.healthy then c
    else if Due(c, p) && !p.pinged then c.(healthy := false)
    else
      var sent := if Due(c, p) then c.(lastSend := p.now, pings := c.pings + 1) else c;
      match p.received
      case Err => sent.(healthy := false)
      case Ok(None) => sent.(healthy := p.later - c.lastReceive < c.deadline)
      case Ok(Some(e)) =>
        var (st, ok) := Applied(c.st, e);
        sent.(st := st, healthy := ok, lastReceive := p.later,
              lastSend := if |st.requests| > |c.st.requests| then p.later else sent.lastSend)
  }

  function Step<O>(c: Life<O>, op: Op<O>): Life<O>
    requires IndexOk(c.st.symbols, c.st.ids)
  {
    match op
    case Poll(p) => PollStep(c, p)
    case TakeQuotes => c.(st := c.st.(changedQuotes := []))
    case TakeDepth => c.(st := c.st.(changedDepth := []))
    case Subscribe(names, sent, at) =>
      var (st, ok) := Subscribed(c.st, names, sent);
      c.(st := st, lastSend := if ok then at else c.lastSend)
    case SubscribeDepth(names, sent, at) =>
      var (st, ok) := DepthSubscribed(c.st, names, sent);
      c.(st := st, lastSend := if ok then at else c.lastSend)
    case Request(sent, at) => if sent then c.(lastSend := at, asked := c.asked + 1) else c
    case SetDeadline(deadline) => c.(deadline := deadline)
  }

  lemma SubscribedKeeps<O>(st: State<O>, names: seq<string>, sent: bool)
    requires Sound(st)
    ensures Sound(Subscribed(st, names, sent).0) && Extends(st, Subscribed(st, names, sent).0)
    ensures Core(Subscribed(st, names, sent).0) == Core(st)
    ensures Subscribed(st, names, sent).0.changedQuotes == st.changedQuotes
    ensures Subscribed(st, names, sent).0.changedDepth == st.changedDepth
    ensures Sound(DepthSubscribed(st, names, sent).0) && Extends(st, DepthSubscribed(st, names, sent).0)
    ensures Core(DepthSubscribed(st, names, sent).0) == Core(st)
    ensures DepthSubscribed(st, names, sent).0.changedQuotes == st.changedQuotes
    ensures DepthSubscribed(st, names, sent).0.changedDepth == st.changedDepth
  {
    hide IndexOk, Distinct, Listed, DepthListed, Wanted, OwnIds;
  }

  lemma StepKeeps<O>(c: Life<O>, op: Op<O>)
    requires Sound(c.st)
    ensures Sound(Step(c, op).st) && Extends(c.st, Step(c, op).st)
    ensures !c.healthy ==> !Step(c, op).healthy
    ensures op.Poll? ==> Step(c, op).st == if Arrived(c, op).Some? then Applied(c.st, Arrived(c, op).value).0 else c.st
    ensures !op.Poll? ==> Core(Step(c, op).st) == Core(c.st) && Step(c, op).st.changedQuotes <= c.st.changedQuotes
                          && Step(c, op).st.changedDepth <= c.st.changedDepth
  {
    hide Applied, Distinct, Subscribed, DepthSubscribed;
    if Arrived(c, op).Some? {
      EventKeeps(c.st, Arrived(c, op).value);
    }
    match op
    case Subscribe(names, sent, _) => SubscribedKeeps(c.st, names, sent);
    case SubscribeDepth(names, sent, _) => SubscribedKeeps(c.st, names, sent);
    case _ =>
  }

  /** A poll that leaves the client healthy left nothing unsent for ten seconds, and
      heard from the broker within the deadline. */
  lemma HealthyIsAlive<O>(c: Life<O>, p: Polled<O>)
    requires Sound(c.st) && p.now <= p.later && c.deadline > 0
    ensures var after := PollStep(c, p);
      after.healthy ==>
        p.now - after.lastSend < 10 && p.later - after.lastReceive < c.deadline
  {
    hide Applied, Sound;
    SoundIndex(c.st);
    if p.received.Ok? && p.received.value.Some? {
      EventKeeps(c.st, p.received.value.value);
    }
  }

  /** What was asked of the broker last is exactly what is subscribed. */
  predicate Requested<O>(st: State<O>) {
    LastOr(st.requests, {}) == st.subscriptions
  }

  predicate DepthRequested<O>(st: State<O>) {
    LastOr(st.depthRequests, {}) == st.depthSubscriptions
  }

  function LastOr(requests: seq<set<int>>, none: set<int>): set<int> {
    if |requests| == 0 then none else requests[|requests| - 1]
  }

  function RunFrom<O>(c: Life<O>, ops: seq<Op<O>>): (r: Life<O>)
    requires Sound(c.st)
    ensures Sound(r.st)
    decreases |ops|
  {
    if |ops| == 0 then c else
    StepKeeps(c, ops[0]);
    RunFrom(Step(c, ops[0]), ops[1..])
  }

  /** The state but for the queues, which callers empty, and the subscriptions, which
      callers extend. */
  function Core<O>(st: State<O>): State<O> {
    st.(changedQuotes := [], changedDepth := [], subscriptions := {}, requests := [],
        depthSubscriptions := {}, depthRequests := [])
  }

  /** Whatever arrives and whatever callers do, in whatever order, the index, the
      tickets and the published quotes stay sound, and nothing that must last is lost.
      Once a message has been refused the client stays unhealthy and no message
      changes anything until a fresh synchronization; only callers still do. */
  lemma {:induction false} EveryRunKeeps<O>(c: Life<O>, ops: seq<Op<O>>)
    requires Sound(c.st)
    ensures Sound(RunFrom(c, ops).st) && Extends(c.st, RunFrom(c, ops).st)
    ensures !c.healthy ==>
      var after := RunFrom(c, ops);
      && !after.healthy && Core(after.st) == Core(c.st)
      && after.lastReceive == c.lastReceive && after.pings == c.pings
      && after.st.changedQuotes <= c.st.changedQuotes && after.st.changedDepth <= c.st.changedDepth
    decreases |ops|
  {
    hide Applied, Sound, SidesKept, IndexOk, Subscribed, DepthSubscribed;
    if |ops| == 0 {
      SidesSelf(c.st.quotes);
    } else {
      StepKeeps(c, ops[0]);
      SoundIndex(c.st);
      EveryRunKeeps(Step(c, ops[0]), ops[1..]);
      SidesThrough(c.st.quotes, Step(c, ops[0]).st.quotes, RunFrom(c, ops).st.quotes);
    }
  }

  lemma {:induction false} RunSplits<O>(c: Life<O>, a: seq<Op<O>>, b: seq<Op<O>>)
    requires Sound(c.st)
    ensures RunFrom(c, a + b) == RunFrom(RunFrom(c, a), b)
    decreases |a|
  {
    hide Sound, Step;
    if |a| == 0 {
      assert a + b == b;
    } else {
      StepKeeps(c, a[0]);
      SoundIndex(c.st);
      assert (a + b)[1..] == a[1..] + b;
      RunSplits(Step(c, a[0]), a[1..], b);
    }
  }

  lemma SoundIndex<O>(st: State<O>)
    requires Sound(st)
    ensures IndexOk(st.symbols, st.ids)
  {
  }

  lemma SidesSelf(a: map<string, LiveQuote>)
    ensures SidesKept(a, a)
  {
  }

  lemma SidesThrough(a: map<string, LiveQuote>, b: map<string, LiveQuote>, c: map<string, LiveQuote>)
    requires SidesKept(a, b) && SidesKept(b, c)
    ensures SidesKept(a, c)
  {
  }

  /** What comes out of a queue in two stages, when all that went in came out of the
      first or nothing more goes in. */
  lemma Together<T>(taken: seq<T>, left: seq<T>, later: seq<T>, queue: seq<T>, before: seq<T>, first: seq<T>,
                    more: seq<T>)
    requires taken + left <= before + first && later + queue <= left + more
    requires taken + left == before + first || more == []
    ensures taken + later + queue <= before + (first + more)
    ensures taken + left == before + first && later + queue == left + more ==>
      taken + later + queue == before + (first + more)
  {
    assert taken + later + queue == taken + (later + queue) <= taken + (left + more) == taken + left + more;
    assert taken + left + more <= before + first + more == before + (first + more);
  }

  // ---- the client as an object --------------------------------------------

  class Client<O> {
    var symbols: seq<Symbol>
    var symbolIds: map<int, nat>
    var quotes: map<string, LiveQuote>
    var changedQuotes: seq<LiveQuote>
    var changedDepth: seq<D.DepthRecord>
    var orders: seq<Keyed<O>>
    var positions: seq<Keyed<Deal>>
    var account: AccountState
    var subscriptions: set<int>
    var requests: seq<set<int>>
    var depthSubscriptions: set<int>
    var depthRequests: seq<set<int>>
    const currency: Option<string>
    var healthy: bool
    var lastSend: int
    var lastReceive: int
    var deadline: int
    var pings: nat
    var asked: nat

    function View(): State<O>
      reads this
    {
      State(symbols, symbolIds, quotes, changedQuotes, changedDepth, orders, positions, account, subscriptions,
            requests, depthSubscriptions, depthRequests, currency)
    }

    function TheLife(): Life<O>
      reads this
    {
      Life(View(), healthy, lastSend, lastReceive, deadline, pings, asked)
    }

    predicate Valid()
      reads this
    {
      IndexOk(symbols, symbolIds)
    }

    /** From a synchronized state. */
    constructor (symbols: seq<Symbol>, orders: seq<Keyed<O>>, positions: seq<Keyed<Deal>>, account: AccountState,
                 currency: Option<string>, now: int)
      ensures Valid()
      ensures TheLife() == Life(View(), true, now, now, 45, 0, 0)
      ensures View() ==
              State(symbols, Indexed(symbols), map[], [], [], orders, positions, account, {}, [], {}, [], currency)
      ensures Requested(View()) && DepthRequested(View())
      ensures Distinct(orders) && Distinct(positions) ==> Sound(View())
    {
      IndexedOk(symbols);
      this.symbols, symbolIds := symbols, Indexed(symbols);
      quotes, changedQuotes, changedDepth := map[], [], [];
      this.orders, this.positions, this.account, this.currency := orders, positions, account, currency;
      subscriptions, requests, depthSubscriptions, depthRequests := {}, [], {}, [];
      healthy, pings, asked := true, 0, 0;
      lastSend, lastReceive, deadline := now, now, RECEIVE_DEADLINE;
    }

    method ApplyQuotes(command: byte, rows: seq<Q.QuoteRow>) returns (ok: bool)
      requires Valid()
      modifies `quotes, `changedQuotes
      ensures (View(), ok) == RowsApplied(old(View()), command, rows)
    {
      hide RowApplied, IndexOk;
      assert rows[0..] == rows;
      for i := 0 to |rows|
        invariant Valid() && symbols == old(symbols) && symbolIds == old(symbolIds)
        invariant RowsApplied(old(View()), command, rows) == RowsApplied(View(), command, rows[i..])
      {
        assert rows[i..][1..] == rows[i + 1..];
        ok := ApplyQuote(command, rows[i]);
        if !ok {
          return;
        }
      }
      ok := true;
    }

    method ApplyQuote(command: byte, row: Q.QuoteRow) returns (ok: bool)
      requires Valid()
      modifies `quotes, `changedQuotes
      ensures (View(), ok) == RowApplied(old(View()), command, row)
    {
      hide Scale, Q.Lookup;
      if !(-0x8000_0000 <= row.symbolId < 0x8000_0000) {
        return false;
      }
      if row.symbolId !in symbolIds {
        return false;
      }
      var s := symbols[symbolIds[row.symbolId]];
      var scale := Scale(s.digits);
      var (bid, ask, component) := RowValues(command, row);
      var time := row.seconds * 1000 + if component.Some? then component.value else 0;
      if !(-0x8000_0000_0000_0000 <= time < 0x8000_0000_0000_0000) {
        return false;
      }
      var quote := if s.name in quotes then quotes[s.name] else LiveQuote(s.name, time, 0.0, 0.0);
      if bid.Some? && bid.value > 0 {
        quote := quote.(bid := bid.value as real / scale);
      }
      if ask.Some? && ask.value > 0 {
        quote := quote.(ask := ask.value as real / scale);
      }
      quote := quote.(time := time);
      quotes := quotes[s.name := quote];
      if quote.bid > 0.0 && quote.ask > 0.0 {
        if |changedQuotes| >= MAX_QUOTES {
          return false;
        }
        changedQuotes := changedQuotes + [quote];
      }
      return true;
    }

    method ApplyDepth(records: seq<D.DepthRecord>) returns (ok: bool)
      modifies `changedDepth
      ensures (View(), ok) == DepthApplied(old(View()), records)
    {
      if |changedDepth| + |records| > MAX_DEPTH {
        return false;
      }
      assert records[0..] == records;
      for i := 0 to |records|
        invariant DepthApplied(old(View()), records) == DepthPushed(View(), records[i..])
      {
        assert records[i..][1..] == records[i + 1..];
        if records[i].symbolId !in symbolIds {
          return false;
        }
        changedDepth := changedDepth + [records[i]];
      }
      return true;
    }

    method ApplySymbols(updates: seq<Symbol>)
      requires Valid()
      modifies `symbols, `symbolIds
      ensures Valid() && (symbols, symbolIds) == SymbolsAfter(old(symbols), old(symbolIds), updates)
    {
      hide IndexOk;
      assert updates[0..] == updates;
      for i := 0 to |updates|
        invariant Valid()
        invariant SymbolsAfter(old(symbols), old(symbolIds), updates) == SymbolsAfter(symbols, symbolIds, updates[i..])
      {
        assert updates[i..][1..] == updates[i + 1..];
        var s := updates[i];
        SlotKnown(symbols, symbolIds, s);
        if s.id in symbolIds {
          symbols := Replaced(symbols, symbolIds[s.id], s);
        } else {
          AppendedOk(symbols, symbolIds, s);
          symbolIds := symbolIds[s.id := |symbols|];
          symbols := symbols + [s];
        }
      }
    }

    method ApplyAccounts(updates: seq<AccountState>)
      modifies `account
      ensures account == AccountAfter(old(account), updates)
    {
      assert updates[0..] == updates;
      for i := 0 to |updates|
        invariant AccountAfter(old(account), updates) == AccountAfter(account, updates[i..])
      {
        assert updates[i..][1..] == updates[i + 1..];
        if updates[i].login == account.login {
          account := updates[i];
        }
      }
    }

    method ApplyOrders(updates: seq<(Change, Keyed<O>)>)
      modifies `orders
      ensures orders == OrdersAfter(old(orders), updates)
    {
      hide Retained;
      assert updates[0..] == updates;
      for i := 0 to |updates|
        invariant OrdersAfter(old(orders), updates) == OrdersAfter(orders, updates[i..])
      {
        assert updates[i..][1..] == updates[i + 1..];
        var (change, order) := updates[i];
        orders := Retained(orders, order.ticket);
        assert orders + [] == orders;
        if !change.Delete? {
          orders := orders + [order];
        }
      }
    }

    method ApplyDeals(deals: seq<Keyed<Deal>>)
      modifies `positions
      ensures positions == DealsPut(old(positions), deals)
    {
      hide Retained;
      assert deals[0..] == deals;
      for i := 0 to |deals|
        invariant DealsPut(old(positions), deals) == DealsPut(positions, deals[i..])
      {
        assert deals[i..][1..] == deals[i + 1..];
        var deal := deals[i];
        positions := Retained(positions, deal.ticket);
        assert positions + [] == positions;
        if deal.value.volume > 0 && deal.value.position != 0 {
          positions := positions + [deal];
        }
      }
    }

    method ApplyPositions(changes: seq<PositionChange>, sent: bool) returns (ok: bool)
      modifies `positions, `account, `subscriptions, `requests
      ensures (View(), ok) == PositionsApplied(old(View()), changes, sent)
    {
      hide DealsPut, Unsubscribed, Subscribed;
      assert changes[0..] == changes;
      for i := 0 to |changes|
        invariant ChangesApplied(old(View()), changes) == ChangesApplied(View(), changes[i..])
        invariant subscriptions == old(subscriptions) && requests == old(requests)
      {
        assert changes[i..][1..] == changes[i + 1..];
        ApplyDeals([changes[i].position] + changes[i].related);
        if changes[i].balance.Some? {
          account := account.(balance := changes[i].balance.value.0, credit := changes[i].balance.value.1);
        }
      }
      var names := Unsubscribed(symbols, subscriptions, positions);
      if names == [] {
        return true;
      }
      ok := AskFor(names, sent);
    }

    method AskFor(names: seq<string>, sent: bool) returns (ok: bool)
      modifies `subscriptions, `requests
      ensures (View(), ok) == Subscribed(old(View()), names, sent)
    {
      hide Listed, Wanted;
      var ids := WantedBy(symbols, currency, names);
      if ids.Err? {
        return false;
      }
      subscriptions := subscriptions + ids.value;
      if sent {
        requests := requests + [subscriptions];
      }
      return sent;
    }

    /** Neither this nor the two methods below look at the client's health, and a
        failed write does not change it. */
    method Subscribe(names: seq<string>, sent: bool, at: int) returns (r: Result<()>)
      requires Valid()
      modifies `subscriptions, `requests, `lastSend
      ensures Valid() && TheLife() == Step(old(TheLife()), Op.Subscribe(names, sent, at))
      ensures r.Ok? <==> sent && Listed(symbols, names)
    {
      hide Listed, Wanted, IndexOk;
      var ok := AskFor(names, sent);
      if !ok {
        return Err;
      }
      lastSend := at;
      return Ok(());
    }

    method SubscribeDepth(names: seq<string>, sent: bool, at: int) returns (r: Result<()>)
      requires Valid()
      modifies `depthSubscriptions, `depthRequests, `lastSend
      ensures Valid() && TheLife() == Step(old(TheLife()), Op.SubscribeDepth(names, sent, at))
      ensures r.Ok? <==> sent && DepthListed(symbols, names)
    {
      hide DepthListed, OwnIds, IndexOk;
      var ids := DepthWantedBy(symbols, names);
      if ids.Err? {
        return Err;
      }
      depthSubscriptions := depthSubscriptions + ids.value;
      if !sent {
        return Err;
      }
      depthRequests := depthRequests + [depthSubscriptions];
      lastSend := at;
      return Ok(());
    }

    /** Sends a request; the polls that wait for its reply are further operations. */
    method Request(sent: bool, at: int) returns (r: Result<()>)
      requires Valid()
      modifies `lastSend, `asked
      ensures Valid() && TheLife() == Step(old(TheLife()), Op.Request(sent, at)) && (r.Ok? <==> sent)
    {
      if !sent {
        return Err;
      }
      lastSend, asked := at, asked + 1;
      return Ok(());
    }

    method SetReceiveDeadline(deadline: int)
      requires Valid()
      modifies `deadline
      ensures Valid() && TheLife() == Step(old(TheLife()), Op.SetDeadline(deadline))
    {
      this.deadline := deadline;
    }

    method Apply(e: Event<O>) returns (ok: bool)
      requires Valid()
      modifies `symbols, `symbolIds, `quotes, `changedQuotes, `changedDepth, `orders, `positions, `account,
        `subscriptions, `requests
      ensures (View(), ok) == Applied(old(View()), e)
    {
      hide RowsApplied, DepthApplied, SymbolsAfter, OrdersAfter, PositionsApplied, AccountAfter, Subscribed;
      ok := true;
      match e {
        case QuoteRows(command, rows) => ok := ApplyQuotes(command, rows);
        case DepthRecords(records) => ok := ApplyDepth(records);
        case SymbolUpdates(updates) => ApplySymbols(updates);
        case AccountChanges(accounts) => ApplyAccounts(accounts);
        case OrderUpdates(updates) => ApplyOrders(updates);
        case PositionUpdates(changes, sent) => ok := ApplyPositions(changes, sent);
        case Other =>
        case Malformed => ok := false;
      }
    }

    // One message; a request it triggers counts as sending.
    method ReceiveMessage(e: Event<O>, later: int) returns (ok: bool)
      requires Valid()
      modifies this
      ensures Valid() && (View(), ok) == Applied(old(View()), e)
      ensures healthy == old(healthy) && pings == old(pings) && lastReceive == later
      ensures asked == old(asked) && deadline == old(deadline)
      ensures lastSend == if |requests| > |old(requests)| then later else old(lastSend)
    {
      hide Applied, IndexOk;
      lastReceive := later;
      var asked := |requests|;
      EventKeepsIndex(View(), e);
      ok := Apply(e);
      if |requests| > asked {
        lastSend := later;
      }
    }

    // A ping, when nothing was sent for a while.
    method KeepAlive(now: int, pinged: bool) returns (ok: bool)
      modifies `lastSend, `pings
      ensures ok == (now - old(lastSend) >= KEEPALIVE ==> pinged)
      ensures lastSend == if now - old(lastSend) >= KEEPALIVE && pinged then now else old(lastSend)
      ensures pings == old(pings) + if now - old(lastSend) >= KEEPALIVE && pinged then 1 else 0
    {
      if now - lastSend < KEEPALIVE {
        return true;
      }
      if !pinged {
        return false;
      }
      lastSend, pings := now, pings + 1;
      return true;
    }

    /** Keeps the connection alive and takes one message. Any failure leaves the client
        unhealthy, and an unhealthy client refuses. */
    method Poll(p: Polled<O>) returns (r: Result<Option<Event<O>>>)
      requires Valid()
      modifies this
      ensures Valid() && TheLife() == PollStep(old(TheLife()), p)
      ensures r == if old(healthy) && healthy then p.received else Err
    {
      hide Applied, IndexOk;
      if !healthy {
        return Err;
      }
      var alive := KeepAlive(p.now, p.pinged);
      if !alive {
        healthy := false;
        return Err;
      }
      if p.received.Err? {
        healthy := false;
        return Err;
      }
      match p.received.value {
        case Some(e) =>
          var ok := ReceiveMessage(e, p.later);
          if !ok {
            healthy := false;
            return Err;
          }
        case None =>
          if p.later - lastReceive >= deadline {
            healthy := false;
            return Err;
          }
      }
      return p.received;
    }

    method TakeQuoteChanges() returns (taken: seq<LiveQuote>)
      modifies `changedQuotes
      ensures taken == old(changedQuotes) && changedQuotes == []
    {
      taken := changedQuotes;
      changedQuotes := [];
    }
  }

  /** The ids of the names and of what converting their profits and margins needs. */
  method WantedBy(symbols: seq<Symbol>, currency: Option<string>, names: seq<string>) returns (r: Result<set<int>>)
    ensures r == if Listed(symbols, names) then Ok(Wanted(symbols, currency, names)) else Err
  {
    hide OwnIds, ConversionIds, PathIds, SymbolNamed;
    var ids := {};
    NoIds(symbols, "");
    for i := 0 to |names|
      invariant Listed(symbols, names[..i]) && ids == OwnIds(symbols, names[..i])
    {
      IdsMore(symbols, names, i, "");
      var s := SymbolNamed(symbols, names[i]);
      if s.None? {
        return Err;
      }
      ids := ids + {s.value.id};
    }
    assert names[..|names|] == names;
    if currency.Some? {
      NoIds(symbols, currency.value);
      for i := 0 to |names|
        invariant ids == OwnIds(symbols, names) + ConversionIds(symbols, names[..i], currency.value)
      {
        IdsMore(symbols, names, i, currency.value);
        var s := SymbolNamed(symbols, names[i]).value;
        ids := ids + PathIds(Found(Market(symbols, map[], false), s.profit, currency.value));
        ids := ids + PathIds(Found(Market(symbols, map[], false), s.margin, currency.value));
      }
      assert names[..|names|] == names;
    }
    assert ids == Wanted(symbols, currency, names);
    return Ok(ids);
  }

  method DepthWantedBy(symbols: seq<Symbol>, names: seq<string>) returns (r: Result<set<int>>)
    ensures r == if DepthListed(symbols, names) then Ok(OwnIds(symbols, names)) else Err
  {
    hide OwnIds, ConversionIds, SymbolNamed;
    var ids := {};
    NoIds(symbols, "");
    for i := 0 to |names|
      invariant DepthListed(symbols, names[..i]) && ids == OwnIds(symbols, names[..i])
    {
      IdsMore(symbols, names, i, "");
      var s := SymbolNamed(symbols, names[i]);
      if s.None? || s.value.id < 0 {
        return Err;
      }
      ids := ids + {s.value.id};
    }
    assert names[..|names|] == names;
    return Ok(ids);
  }

  lemma NoIds(symbols: seq<Symbol>, currency: string)
    ensures OwnIds(symbols, []) == {} && ConversionIds(symbols, [], currency) == {}
  {
  }

  lemma IdsMore(symbols: seq<Symbol>, names: seq<string>, i: nat, currency: string)
    requires i < |names|
    ensures SymbolNamed(symbols, names[i]).Some? ==>
      var s := SymbolNamed(symbols, names[i]).value;
      && OwnIds(symbols, names[..i + 1]) == OwnIds(symbols, names[..i]) + {s.id}
      && ConversionIds(symbols, names[..i + 1], currency) ==
         ConversionIds(symbols, names[..i], currency)
         + PathIds(Found(Market(symbols, map[], false), s.profit, currency))
         + PathIds(Found(Market(symbols, map[], false), s.margin, currency))
  {
    hide PathIds, SymbolNamed;
    assert names[..i + 1][..i] == names[..i];
  }

  lemma SlotKnown(symbols: seq<Symbol>, ids: map<int, nat>, s: Symbol)
    requires IndexOk(symbols, ids)
    ensures s.id in ids ==> ids[s.id] < |symbols| && symbols[ids[s.id]].id == s.id
  {
  }
}
