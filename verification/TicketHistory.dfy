/** What the order and position lists of a client hold after any run of messages: for
    each ticket, what the last update received for it says. */
module TicketHistory {
  import opened Results
  import opened ClientState

  /** An update of one key: its new record, or its end. */
  datatype Entry<K, T> = Entry(key: K, value: Option<T>)

  // ---- maps from entries --------------------------------------------------

  function Enter<K, T>(records: map<K, T>, e: Entry<K, T>): map<K, T> {
    match e.value
    case Some(v) => records[e.key := v]
    case None => records - {e.key}
  }

  function Entered<K, T>(records: map<K, T>, entries: seq<Entry<K, T>>): map<K, T> {
    if |entries| == 0 then records else Enter(Entered(records, entries[..|entries| - 1]), entries[|entries| - 1])
  }

  function HeldAt<K, T>(records: map<K, T>, key: K): Option<T> {
    if key in records then Some(records[key]) else None
  }

  predicate LastFor<K(==), T>(entries: seq<Entry<K, T>>, key: K, i: nat) {
    i < |entries| && entries[i].key == key && forall j :: i < j < |entries| ==> entries[j].key != key
  }

  /** `value` is what the last entry for the key says, or what held before when there
      is none. */
  ghost predicate LastSaid<K, T(!new)>(before: Option<T>, entries: seq<Entry<K, T>>, key: K, value: Option<T>) {
    || (value == before && forall i :: 0 <= i < |entries| ==> entries[i].key != key)
    || exists i :: 0 <= i < |entries| && LastFor(entries, key, i) && value == entries[i].value
  }

  lemma {:induction false} EnteredIsLastSaid<K, T(!new)>(records: map<K, T>, entries: seq<Entry<K, T>>, key: K)
    ensures LastSaid(HeldAt(records, key), entries, key, HeldAt(Entered(records, entries), key))
  {
    if |entries| > 0 {
      var n := |entries| - 1;
      var before, value := HeldAt(records, key), HeldAt(Entered(records, entries[..n]), key);
      EnteredIsLastSaid(records, entries[..n], key);
      assert forall i :: 0 <= i < n ==> entries[..n][i] == entries[i];
      if entries[n].key == key {
        assert LastFor(entries, key, n);
      } else if exists i :: 0 <= i < n && LastFor(entries[..n], key, i) && value == entries[..n][i].value {
        var i :| 0 <= i < n && LastFor(entries[..n], key, i) && value == entries[..n][i].value;
        assert LastFor(entries, key, i);
      }
    }
  }

  lemma {:induction false} EnteredInTurn<K, T>(records: map<K, T>, a: seq<Entry<K, T>>, b: seq<Entry<K, T>>)
    ensures Entered(records, a + b) == Entered(Entered(records, a), b)
    decreases |b|
  {
    if |b| == 0 {
      assert a + b == a;
    } else {
      assert (a + b)[..|a + b| - 1] == a + b[..|b| - 1];
      EnteredInTurn(records, a, b[..|b| - 1]);
    }
  }

  lemma OneEntered<K, T>(records: map<K, T>, e: Entry<K, T>)
    ensures Entered(records, [e]) == Enter(records, e) && Entered(records, []) == records
  {
    assert [e][..0] == [];
  }

  // ---- updates as entries -------------------------------------------------

  function OrderEntry<O>(update: (Change, Keyed<O>)): Entry<nat, O> {
    Entry(update.1.ticket, if update.0.Delete? then None else Some(update.1.value))
  }

  function OrderEntries<O>(updates: seq<(Change, Keyed<O>)>): seq<Entry<nat, O>> {
    if |updates| == 0 then [] else [OrderEntry(updates[0])] + OrderEntries(updates[1..])
  }

  /** A deal that is not open ends its position. */
  function DealEntries(deals: seq<Keyed<Deal>>): seq<Entry<nat, Deal>> {
    if |deals| == 0 then []
    else
      var d := deals[0].value;
      [Entry(deals[0].ticket, if d.volume > 0 && d.position != 0 then Some(d) else None)] + DealEntries(deals[1..])
  }

  function ChangeEntries(changes: seq<PositionChange>): seq<Entry<nat, Deal>> {
    if |changes| == 0 then []
    else DealEntries([changes[0].position] + changes[0].related) + ChangeEntries(changes[1..])
  }

  lemma {:induction false} TicketsAreEntries<O>(orders: map<nat, O>, updates: seq<(Change, Keyed<O>)>)
    ensures TicketsAfter(orders, updates) == Entered(orders, OrderEntries(updates))
    decreases |updates|
  {
    hide Entered;
    if |updates| == 0 {
      EnteredNone(orders);
    } else {
      var e := OrderEntry(updates[0]);
      OneEntered(orders, e);
      EnteredInTurn(orders, [e], OrderEntries(updates[1..]));
      TicketsAreEntries(Enter(orders, e), updates[1..]);
    }
  }

  lemma EnteredNone<K, T>(records: map<K, T>)
    ensures Entered(records, []) == records
  {
  }

  lemma {:induction false} DealsAreEntries(positions: map<nat, Deal>, deals: seq<Keyed<Deal>>)
    ensures DealsAfter(positions, deals) == Entered(positions, DealEntries(deals))
    decreases |deals|
  {
    hide Entered;
    if |deals| == 0 {
      EnteredNone(positions);
    } else {
      var e: Entry<nat, Deal> := DealEntries(deals)[0];
      OneEntered(positions, e);
      EnteredInTurn(positions, [e], DealEntries(deals[1..]));
      DealsAreEntries(Enter(positions, e), deals[1..]);
    }
  }

  lemma {:induction false} ChangesAreEntries<O>(st: State<O>, changes: seq<PositionChange>)
    requires Distinct(st.positions)
    ensures ByTicket(ChangesApplied(st, changes).positions) == Entered(ByTicket(st.positions), ChangeEntries(changes))
    decreases |changes|
  {
    hide Distinct, DealsPut, ByTicket, Entered, DealEntries, DealsAfter;
    if |changes| == 0 {
      EnteredNone(ByTicket(st.positions));
    } else {
      var c := changes[0];
      var deals := [c.position] + c.related;
      DealsKeep(st.positions, deals);
      DealsAreEntries(ByTicket(st.positions), deals);
      ChangesAreEntries(st.(positions := DealsPut(st.positions, deals), account := BalanceAfter(st.account, c.balance)),
                        changes[1..]);
      EnteredInTurn(ByTicket(st.positions), DealEntries(deals), ChangeEntries(changes[1..]));
    }
  }

  // ---- runs ---------------------------------------------------------------

  function OpOrders<O>(c: Life<O>, op: Op<O>): seq<Entry<nat, O>> {
    match Arrived(c, op)
    case Some(OrderUpdates(updates)) => OrderEntries(updates)
    case _ => []
  }

  function OpDeals<O>(c: Life<O>, op: Op<O>): seq<Entry<nat, Deal>> {
    match Arrived(c, op)
    case Some(PositionUpdates(changes, _)) => ChangeEntries(changes)
    case _ => []
  }

  /** Every order update received over a run. */
  function RunOrders<O>(c: Life<O>, ops: seq<Op<O>>): seq<Entry<nat, O>>
    requires Sound(c.st)
    decreases |ops|
  {
    if |ops| == 0 then [] else
    StepKeeps(c, ops[0]);
    OpOrders(c, ops[0]) + RunOrders(Step(c, ops[0]), ops[1..])
  }

  /** Every deal received over a run. */
  function RunDeals<O>(c: Life<O>, ops: seq<Op<O>>): seq<Entry<nat, Deal>>
    requires Sound(c.st)
    decreases |ops|
  {
    if |ops| == 0 then [] else
    StepKeeps(c, ops[0]);
    OpDeals(c, ops[0]) + RunDeals(Step(c, ops[0]), ops[1..])
  }

  lemma EventKeepsLists<O>(st: State<O>, e: Event<O>)
    requires IndexOk(st.symbols, st.ids)
    ensures !e.OrderUpdates? ==> Applied(st, e).0.orders == st.orders
    ensures !e.PositionUpdates? ==> Applied(st, e).0.positions == st.positions
    ensures e.OrderUpdates? ==> Applied(st, e).0.orders == OrdersAfter(st.orders, e.orders)
    ensures e.PositionUpdates? ==> Applied(st, e).0.positions == ChangesApplied(st, e.changes).positions
  {
    hide RowsApplied, DepthPushed, ChangesApplied, Unsubscribed, Wanted, OrdersAfter, AccountAfter, IndexOk,
         SymbolsAfter;
    match e
    case QuoteRows(command, rows) => RowsKeepRest(st, command, rows);
    case DepthRecords(records) => DepthKeepsRest(st, records);
    case PositionUpdates(changes, sent) => ChangesKeepRest(st, changes);
    case _ =>
  }

  lemma OpIsEntries<O>(c: Life<O>, op: Op<O>)
    requires Sound(c.st)
    ensures ByTicket(Step(c, op).st.orders) == Entered(ByTicket(c.st.orders), OpOrders(c, op))
    ensures ByTicket(Step(c, op).st.positions) == Entered(ByTicket(c.st.positions), OpDeals(c, op))
  {
    hide Applied, OrdersAfter, ChangesApplied, ByTicket, Entered, Subscribed, DepthSubscribed, OrderEntries,
         ChangeEntries;
    EnteredNone(ByTicket(c.st.orders));
    EnteredNone(ByTicket(c.st.positions));
    StepKeeps(c, op);
    match Arrived(c, op)
    case Some(e) =>
      EventKeepsLists(c.st, e);
      if e.OrderUpdates? {
        OrdersKeep(c.st.orders, e.orders);
        TicketsAreEntries(ByTicket(c.st.orders), e.orders);
      } else if e.PositionUpdates? {
        ChangesAreEntries(c.st, e.changes);
      }
    case None =>
  }

  lemma {:induction false} RunIsEntries<O>(c: Life<O>, ops: seq<Op<O>>)
    requires Sound(c.st)
    ensures ByTicket(RunFrom(c, ops).st.orders) == Entered(ByTicket(c.st.orders), RunOrders(c, ops))
    ensures ByTicket(RunFrom(c, ops).st.positions) == Entered(ByTicket(c.st.positions), RunDeals(c, ops))
    decreases |ops|
  {
    hide Sound, Step, OpOrders, OpDeals, Entered, ByTicket;
    if |ops| == 0 {
      EnteredNone(ByTicket(c.st.orders));
      EnteredNone(ByTicket(c.st.positions));
    } else {
      StepKeeps(c, ops[0]);
      SoundIndex(c.st);
      OpIsEntries(c, ops[0]);
      var next := Step(c, ops[0]);
      RunIsEntries(next, ops[1..]);
      EnteredInTurn(ByTicket(c.st.orders), OpOrders(c, ops[0]), RunOrders(next, ops[1..]));
      EnteredInTurn(ByTicket(c.st.positions), OpDeals(c, ops[0]), RunDeals(next, ops[1..]));
    }
  }

  /** After any run each ticket's order and position is what the last update received
      for it says, wherever in the run it came; a ticket without updates is as before. */
  lemma TicketsAreLastUpdates<O(!new)>(c: Life<O>, ops: seq<Op<O>>, ticket: nat)
    requires Sound(c.st)
    ensures var (before, after) := (c.st, RunFrom(c, ops).st);
      && Distinct(after.orders) && Distinct(after.positions)
      && LastSaid(HeldAt(ByTicket(before.orders), ticket), RunOrders(c, ops), ticket,
                  HeldAt(ByTicket(after.orders), ticket))
      && LastSaid(HeldAt(ByTicket(before.positions), ticket), RunDeals(c, ops), ticket,
                  HeldAt(ByTicket(after.positions), ticket))
  {
    hide RunFrom, RunOrders, RunDeals, ByTicket, LastSaid, Entered;
    RunIsEntries(c, ops);
    EnteredIsLastSaid(ByTicket(c.st.orders), RunOrders(c, ops), ticket);
    EnteredIsLastSaid(ByTicket(c.st.positions), RunDeals(c, ops), ticket);
  }
}
