/** What the live quotes of a client hold after any run of messages: on each side the
    last positive price received for the symbol, in the scale it had then. */
module QuoteHistory {
  import opened Results
  import opened Bits
  import opened Conversion
  import opened ClientState
  import Q = Quotes

  /** One accepted row: the symbol's name at the time, the row's time, and the price
      it sets on each side, if any. */
  datatype Tick = Tick(name: string, time: int, bid: Option<real>, ask: Option<real>)
  {
    function Price(askSide: bool): Option<real> {
      if askSide then ask else bid
    }
  }

  /** A positive integer is a price in units of the symbol's last digit. */
  function Priced(value: Option<int>, digits: int): Option<real> {
    if value.Some? && value.value > 0 then Some(value.value as real / Scale(digits)) else None
  }

  /** The tick a row stands for, unless its symbol is unknown or its time too large. */
  function TickOf<O>(st: State<O>, command: byte, row: Q.QuoteRow): Option<Tick>
    requires IndexOk(st.symbols, st.ids)
  {
    if !(-0x8000_0000 <= row.symbolId < 0x8000_0000) || row.symbolId !in st.ids then None else
    var s := st.symbols[st.ids[row.symbolId]];
    var bid := if command == 50 then Q.Lookup(row.live, 0) else Q.Lookup(row.fields, 0);
    var ask := if command == 50 then Q.Lookup(row.live, 1) else Q.Lookup(row.fields, 3);
    var component := if command == 50 then Q.Lookup(row.live, 6) else Q.Lookup(row.fields, 26);
    var time := row.seconds * 1000 + if component.Some? then component.value else 0;
    if !(-0x8000_0000_0000_0000 <= time < 0x8000_0000_0000_0000) then None
    else Some(Tick(s.name, time, Priced(bid, s.digits), Priced(ask, s.digits)))
  }

  /** The ticks of a message's rows, up to the row that is refused. */
  function RowTicks<O>(st: State<O>, command: byte, rows: seq<Q.QuoteRow>): seq<Tick>
    requires IndexOk(st.symbols, st.ids)
    decreases |rows|
  {
    if |rows| == 0 then [] else
    var (next, ok) := RowApplied(st, command, rows[0]);
    (match TickOf(st, command, rows[0]) case Some(t) => [t] case None => [])
    + if ok then RowTicks(next, command, rows[1..]) else []
  }

  function OpTicks<O>(c: Life<O>, op: Op<O>): seq<Tick>
    requires IndexOk(c.st.symbols, c.st.ids)
  {
    match Arrived(c, op)
    case Some(QuoteRows(command, rows)) => RowTicks(c.st, command, rows)
    case _ => []
  }

  /** Every tick received over a run. */
  function RunTicks<O>(c: Life<O>, ops: seq<Op<O>>): seq<Tick>
    requires Sound(c.st)
    decreases |ops|
  {
    if |ops| == 0 then [] else
    StepKeeps(c, ops[0]);
    OpTicks(c, ops[0]) + RunTicks(Step(c, ops[0]), ops[1..])
  }

  // ---- quotes from ticks --------------------------------------------------

  function Or(price: Option<real>, before: real): real {
    if price.Some? then price.value else before
  }

  function Quoted(quotes: map<string, LiveQuote>, t: Tick): LiveQuote {
    var before := if t.name in quotes then quotes[t.name] else LiveQuote(t.name, t.time, 0.0, 0.0);
    LiveQuote(before.symbol, t.time, Or(t.bid, before.bid), Or(t.ask, before.ask))
  }

  function QuotesAfter(quotes: map<string, LiveQuote>, ticks: seq<Tick>): map<string, LiveQuote> {
    if |ticks| == 0 then quotes else
    var before, t := QuotesAfter(quotes, ticks[..|ticks| - 1]), ticks[|ticks| - 1];
    before[t.name := Quoted(before, t)]
  }

  lemma {:induction false} QuotesInTurn(quotes: map<string, LiveQuote>, a: seq<Tick>, b: seq<Tick>)
    ensures QuotesAfter(quotes, a + b) == QuotesAfter(QuotesAfter(quotes, a), b)
    decreases |b|
  {
    hide Quoted;
    if |b| == 0 {
      assert a + b == a;
    } else {
      assert (a + b)[..|a + b| - 1] == a + b[..|b| - 1];
      QuotesInTurn(quotes, a, b[..|b| - 1]);
    }
  }

  lemma RowIsTick<O>(st: State<O>, command: byte, row: Q.QuoteRow)
    requires IndexOk(st.symbols, st.ids)
    ensures var t := TickOf(st, command, row);
      && RowApplied(st, command, row).0.quotes == (if t.Some? then st.quotes[t.value.name := Quoted(st.quotes, t.value)]
                                                   else st.quotes)
      && (t.None? ==> !RowApplied(st, command, row).1)
  {
    hide IndexOk, Scale, Q.Lookup;
    KnownSlot(st);
  }

  lemma KnownSlot<O>(st: State<O>)
    requires IndexOk(st.symbols, st.ids)
    ensures forall id :: id in st.ids ==> st.ids[id] < |st.symbols|
  {
  }

  lemma {:induction false} RowsAreTicks<O>(st: State<O>, command: byte, rows: seq<Q.QuoteRow>)
    requires IndexOk(st.symbols, st.ids)
    ensures RowsApplied(st, command, rows).0.quotes == QuotesAfter(st.quotes, RowTicks(st, command, rows))
    decreases |rows|
  {
    hide RowApplied, IndexOk, TickOf, Quoted;
    if |rows| > 0 {
      RowIsTick(st, command, rows[0]);
      var (next, ok) := RowApplied(st, command, rows[0]);
      var t := TickOf(st, command, rows[0]);
      var first := if t.Some? then [t.value] else [];
      assert first[..0] == [];
      if ok {
        RowsAreTicks(next, command, rows[1..]);
        QuotesInTurn(st.quotes, first, RowTicks(next, command, rows[1..]));
      } else {
        assert first + [] == first;
      }
    }
  }

  lemma OpIsTicks<O>(c: Life<O>, op: Op<O>)
    requires IndexOk(c.st.symbols, c.st.ids)
    ensures Step(c, op).st.quotes == QuotesAfter(c.st.quotes, OpTicks(c, op))
  {
    hide RowsApplied, RowTicks, IndexOk, DepthPushed, ChangesApplied, SymbolsAfter, AccountAfter, OrdersAfter,
         Unsubscribed, Listed, DepthListed, Wanted, OwnIds;
    match Arrived(c, op)
    case Some(QuoteRows(command, rows)) => RowsAreTicks(c.st, command, rows);
    case Some(DepthRecords(records)) => DepthKeepsRest(c.st, records);
    case Some(PositionUpdates(changes, sent)) => ChangesKeepRest(c.st, changes);
    case _ =>
  }

  lemma {:induction false} RunIsTicks<O>(c: Life<O>, ops: seq<Op<O>>)
    requires Sound(c.st)
    ensures RunFrom(c, ops).st.quotes == QuotesAfter(c.st.quotes, RunTicks(c, ops))
    decreases |ops|
  {
    hide Sound, Step, OpTicks, QuotesAfter;
    if |ops| == 0 {
      NoTicks(c.st.quotes);
    } else {
      StepKeeps(c, ops[0]);
      SoundIndex(c.st);
      OpIsTicks(c, ops[0]);
      RunIsTicks(Step(c, ops[0]), ops[1..]);
      QuotesInTurn(c.st.quotes, OpTicks(c, ops[0]), RunTicks(Step(c, ops[0]), ops[1..]));
    }
  }

  lemma NoTicks(quotes: map<string, LiveQuote>)
    ensures QuotesAfter(quotes, []) == quotes
  {
  }

  // ---- what a quote holds -------------------------------------------------

  predicate Sets(t: Tick, name: string, askSide: bool) {
    t.name == name && t.Price(askSide).Some?
  }

  /** Tick `i` sets this side to `value`, and no later one sets it. */
  predicate LastSetBy(ticks: seq<Tick>, name: string, askSide: bool, value: real, i: nat) {
    && i < |ticks| && Sets(ticks[i], name, askSide) && ticks[i].Price(askSide).value == value
    && forall j :: i < j < |ticks| ==> !Sets(ticks[j], name, askSide)
  }

  /** `value` is the price of the last tick that sets this side, or zero when none
      does. */
  ghost predicate LastSet(ticks: seq<Tick>, name: string, askSide: bool, value: real) {
    || (value == 0.0 && forall i :: 0 <= i < |ticks| ==> !Sets(ticks[i], name, askSide))
    || exists i :: LastSetBy(ticks, name, askSide, value, i)
  }

  lemma LastSetStep(ticks: seq<Tick>, name: string, askSide: bool, value: real)
    requires |ticks| > 0 && LastSet(ticks[..|ticks| - 1], name, askSide, value)
    ensures LastSet(ticks, name, askSide, value) || Sets(ticks[|ticks| - 1], name, askSide)
    ensures Sets(ticks[|ticks| - 1], name, askSide) ==>
      LastSet(ticks, name, askSide, ticks[|ticks| - 1].Price(askSide).value)
  {
    var n := |ticks| - 1;
    assert forall i :: 0 <= i < n ==> ticks[i] == ticks[..n][i];
    if Sets(ticks[n], name, askSide) {
      assert LastSetBy(ticks, name, askSide, ticks[n].Price(askSide).value, n);
    } else if exists i :: LastSetBy(ticks[..n], name, askSide, value, i) {
      var i :| LastSetBy(ticks[..n], name, askSide, value, i);
      assert LastSetBy(ticks, name, askSide, value, i);
    }
  }

  lemma NothingSet(name: string, askSide: bool)
    ensures LastSet([], name, askSide, 0.0)
  {
  }

  /** A name has a quote exactly when a tick came for it; the quote bears the name
      and holds on each side the price last set. */
  ghost predicate Quotes(quotes: map<string, LiveQuote>, ticks: seq<Tick>, name: string) {
    && (name in quotes <==> exists t :: t in ticks && t.name == name)
    && (name in quotes ==>
        && quotes[name].symbol == name
        && LastSet(ticks, name, false, quotes[name].bid) && LastSet(ticks, name, true, quotes[name].ask))
    && (name !in quotes ==> LastSet(ticks, name, false, 0.0) && LastSet(ticks, name, true, 0.0))
  }

  lemma {:induction false} QuotesHold(ticks: seq<Tick>, name: string)
    ensures Quotes(QuotesAfter(map[], ticks), ticks, name)
  {
    hide LastSet;
    if |ticks| == 0 {
      NothingSet(name, false);
      NothingSet(name, true);
    } else {
      var n := |ticks| - 1;
      QuotesHold(ticks[..n], name);
      assert ticks == ticks[..n] + [ticks[n]];
      var before := QuotesAfter(map[], ticks[..n]);
      var bid := if name in before then before[name].bid else 0.0;
      var ask := if name in before then before[name].ask else 0.0;
      LastSetStep(ticks, name, false, bid);
      LastSetStep(ticks, name, true, ask);
      assert ticks[n] in ticks;
    }
  }

  /** The same of rows, wherever they come from: a symbol has a live quote exactly when
      a row was accepted for it, and each side holds the last positive value received
      for it over the scale in force then, or zero when there was none. */
  lemma RowsAreLastPrices<O>(c: Life<O>, ops: seq<Op<O>>, name: string)
    requires Sound(c.st) && c.st.quotes == map[]
    ensures Quotes(RunFrom(c, ops).st.quotes, RunTicks(c, ops), name)
  {
    hide Quotes, Sound;
    RunIsTicks(c, ops);
    QuotesHold(RunTicks(c, ops), name);
  }

  // ---- from the records that were sent ------------------------------------

  /** What a record says of its symbol: a live tick gives bid, ask and milliseconds under
      bits 0, 1 and 6 of its mask, a market-watch record under bits 0, 3 and 26. */
  function SentTick<O>(st: State<O>, command: byte, rec: Q.QuoteInput): Option<Tick>
    requires IndexOk(st.symbols, st.ids)
  {
    if rec.symbolId !in st.ids then None else
    var s := st.symbols[st.ids[rec.symbolId]];
    var bid := Q.Given(rec.mask, rec.values, 0);
    var ask := Q.Given(rec.mask, rec.values, if command == 50 then 1 else 3);
    var component := Q.Given(rec.mask, rec.values, if command == 50 then 6 else 26);
    var time := rec.seconds * 1000 + if component.Some? then component.value else 0;
    if !(-0x8000_0000_0000_0000 <= time < 0x8000_0000_0000_0000) then None
    else Some(Tick(s.name, time, Priced(bid, s.digits), Priced(ask, s.digits)))
  }

  /** A decoded row says what its record said. */
  lemma RowSaysRecord<O>(st: State<O>, command: byte, rec: Q.QuoteInput)
    requires IndexOk(st.symbols, st.ids) && (command == 50 || command == 51) && Q.AllInRange(rec, command)
    ensures TickOf(st, command, Q.ExpectedRow(rec, command)) == SentTick(st, command, rec)
  {
    hide Q.ExpectedRow, Q.Lookup, Q.Given, IndexOk, Scale;
    KnownSlot(st);
    Q.RowMeans(rec, command);
    IdInRange(rec, command);
  }

  lemma IdInRange(rec: Q.QuoteInput, command: byte)
    requires Q.AllInRange(rec, command)
    ensures -0x8000_0000 <= rec.symbolId < 0x8000_0000
  {
  }

  /** The records' ticks, up to the record whose row is refused. */
  function SentTicks<O>(st: State<O>, command: byte, recs: seq<Q.QuoteInput>): seq<Tick>
    requires IndexOk(st.symbols, st.ids)
    decreases |recs|
  {
    if |recs| == 0 then [] else
    var (next, ok) := RowApplied(st, command, Q.ExpectedRow(recs[0], command));
    (match SentTick(st, command, recs[0]) case Some(t) => [t] case None => [])
    + if ok then SentTicks(next, command, recs[1..]) else []
  }

  /** The quotes an operation receives, if any, are these records, encoded and decoded. */
  predicate Carries<O>(op: Op<O>, recs: seq<Q.QuoteInput>) {
    match op
    case Poll(Polled(_, _, Ok(Some(QuoteRows(command, rows))), _)) =>
      && (command == 50 || command == 51) && rows == Q.ExpectedRows(recs, command)
      && forall i :: 0 <= i < |recs| ==> Q.AllInRange(recs[i], command)
    case _ => true
  }

  function OpSent<O>(c: Life<O>, op: Op<O>, recs: seq<Q.QuoteInput>): seq<Tick>
    requires IndexOk(c.st.symbols, c.st.ids)
  {
    match Arrived(c, op)
    case Some(QuoteRows(command, _)) => SentTicks(c.st, command, recs)
    case _ => []
  }

  /** Every tick that the records sent over a run stand for. */
  function RunSent<O>(c: Life<O>, ops: seq<Op<O>>, sent: seq<seq<Q.QuoteInput>>): seq<Tick>
    requires Sound(c.st) && |sent| == |ops|
    decreases |ops|
  {
    if |ops| == 0 then [] else
    StepKeeps(c, ops[0]);
    OpSent(c, ops[0], sent[0]) + RunSent(Step(c, ops[0]), ops[1..], sent[1..])
  }

  lemma {:induction false} TicksAreSent<O>(st: State<O>, command: byte, recs: seq<Q.QuoteInput>)
    requires IndexOk(st.symbols, st.ids) && (command == 50 || command == 51)
    requires forall i :: 0 <= i < |recs| ==> Q.AllInRange(recs[i], command)
    ensures RowTicks(st, command, Q.ExpectedRows(recs, command)) == SentTicks(st, command, recs)
    decreases |recs|
  {
    hide RowApplied, IndexOk, TickOf, SentTick, Q.AllInRange, Q.ExpectedRow;
    if |recs| > 0 {
      RowSaysRecord(st, command, recs[0]);
      RowKeepsIndex(st, command, Q.ExpectedRow(recs[0], command));
      TicksAreSent(RowApplied(st, command, Q.ExpectedRow(recs[0], command)).0, command, recs[1..]);
    }
  }

  lemma RowKeepsIndex<O>(st: State<O>, command: byte, row: Q.QuoteRow)
    requires IndexOk(st.symbols, st.ids)
    ensures IndexOk(RowApplied(st, command, row).0.symbols, RowApplied(st, command, row).0.ids)
  {
    hide IndexOk;
  }

  lemma {:induction false} RunIsSent<O>(c: Life<O>, ops: seq<Op<O>>, sent: seq<seq<Q.QuoteInput>>)
    requires Sound(c.st) && |sent| == |ops| && forall i :: 0 <= i < |ops| ==> Carries(ops[i], sent[i])
    ensures RunTicks(c, ops) == RunSent(c, ops, sent)
    decreases |ops|
  {
    hide Sound, Step, RowTicks, SentTicks, Q.ExpectedRows, Q.AllInRange, Due;
    if |ops| > 0 {
      StepKeeps(c, ops[0]);
      SoundIndex(c.st);
      assert Carries(ops[0], sent[0]);
      match Arrived(c, ops[0]) {
        case Some(QuoteRows(command, rows)) => TicksAreSent(c.st, command, sent[0]);
        case _ =>
      }
      RunIsSent(Step(c, ops[0]), ops[1..], sent[1..]);
    }
  }

  /** After any run from a synchronized state whose quotes are decoded from the records
      `sent`: a symbol has a live quote exactly when a record was accepted for it, and
      each side holds the last positive value that the records gave for it over the
      scale in force then, or zero when there was none. */
  lemma LiveQuotesAreLastPrices<O>(c: Life<O>, ops: seq<Op<O>>, sent: seq<seq<Q.QuoteInput>>, name: string)
    requires Sound(c.st) && c.st.quotes == map[]
    requires |sent| == |ops| && forall i :: 0 <= i < |ops| ==> Carries(ops[i], sent[i])
    ensures Quotes(RunFrom(c, ops).st.quotes, RunSent(c, ops, sent), name)
  {
    hide Quotes, Sound, Carries;
    RowsAreLastPrices(c, ops, name);
    RunIsSent(c, ops, sent);
  }

  // ---- what is published --------------------------------------------------

  /** The quotes with both sides filled, one for each tick that leaves them so. */
  function Published(quotes: map<string, LiveQuote>, ticks: seq<Tick>): seq<LiveQuote> {
    if |ticks| == 0 then [] else
    var q := QuotesAfter(quotes, ticks)[ticks[|ticks| - 1].name];
    Published(quotes, ticks[..|ticks| - 1]) + if q.bid > 0.0 && q.ask > 0.0 then [q] else []
  }

  lemma {:induction false} PublishedInTurn(quotes: map<string, LiveQuote>, a: seq<Tick>, b: seq<Tick>)
    ensures Published(quotes, a + b) == Published(quotes, a) + Published(QuotesAfter(quotes, a), b)
    decreases |b|
  {
    hide Quoted;
    if |b| == 0 {
      assert a + b == a;
    } else {
      assert (a + b)[..|a + b| - 1] == a + b[..|b| - 1];
      QuotesInTurn(quotes, a, b);
      PublishedInTurn(quotes, a, b[..|b| - 1]);
    }
  }

  lemma OnePublished(quotes: map<string, LiveQuote>, t: Tick)
    ensures Published(quotes, []) == [] && QuotesAfter(quotes, [t]) == quotes[t.name := Quoted(quotes, t)]
    ensures var q := Quoted(quotes, t);
      Published(quotes, [t]) == if q.bid > 0.0 && q.ask > 0.0 then [q] else []
  {
    assert [t][..0] == [];
  }

  lemma RowPublishes<O>(st: State<O>, command: byte, row: Q.QuoteRow)
    requires IndexOk(st.symbols, st.ids)
    ensures var (t, (next, ok)) := (TickOf(st, command, row), RowApplied(st, command, row));
      var ticks := if t.Some? then [t.value] else [];
      && (ok ==> next.changedQuotes == st.changedQuotes + Published(st.quotes, ticks))
      && (!ok ==> next.changedQuotes == st.changedQuotes)
      && (ok <==> t.Some? && (Published(st.quotes, ticks) == [] || |st.changedQuotes| < 100_000))
      && next.quotes == QuotesAfter(st.quotes, ticks)
  {
    hide IndexOk, Scale, Q.Lookup, Published;
    KnownSlot(st);
    RowIsTick(st, command, row);
    var t := TickOf(st, command, row);
    if t.Some? {
      OnePublished(st.quotes, t.value);
    }
    assert st.changedQuotes + [] == st.changedQuotes;
  }

  lemma RowsUnfold<O>(st: State<O>, command: byte, rows: seq<Q.QuoteRow>)
    requires IndexOk(st.symbols, st.ids)
    ensures |rows| == 0 ==> RowsApplied(st, command, rows) == (st, true) && RowTicks(st, command, rows) == []
    ensures |rows| > 0 ==>
      var (next, ok) := RowApplied(st, command, rows[0]);
      var first := match TickOf(st, command, rows[0]) case Some(t) => [t] case None => [];
      && IndexOk(next.symbols, next.ids)
      && RowsApplied(st, command, rows) == (if ok then RowsApplied(next, command, rows[1..]) else (next, false))
      && RowTicks(st, command, rows) == first + (if ok then RowTicks(next, command, rows[1..]) else [])
  {
    hide RowApplied, IndexOk, TickOf;
  }

  lemma {:induction false} RowsPublish<O>(st: State<O>, command: byte, rows: seq<Q.QuoteRow>)
    requires IndexOk(st.symbols, st.ids)
    ensures var (after, ok) := RowsApplied(st, command, rows);
      var all := st.changedQuotes + Published(st.quotes, RowTicks(st, command, rows));
      after.changedQuotes <= all && (ok ==> after.changedQuotes == all)
    decreases |rows|
  {
    hide RowApplied, IndexOk, TickOf, Quoted, Published, QuotesAfter, RowsApplied, RowTicks;
    RowsUnfold(st, command, rows);
    if |rows| == 0 {
      NonePublished(st.quotes);
    } else {
      RowPublishes(st, command, rows[0]);
      var (next, ok) := RowApplied(st, command, rows[0]);
      var t := TickOf(st, command, rows[0]);
      var first := if t.Some? then [t.value] else [];
      assert first + [] == first;
      if ok {
        RowsPublish(next, command, rows[1..]);
        PublishedInTurn(st.quotes, first, RowTicks(next, command, rows[1..]));
      }
    }
  }

  lemma NonePublished(quotes: map<string, LiveQuote>)
    ensures Published(quotes, []) == []
  {
  }

  lemma EventKeepsQueue<O>(st: State<O>, e: Event<O>)
    requires IndexOk(st.symbols, st.ids) && !e.QuoteRows?
    ensures Applied(st, e).0.changedQuotes == st.changedQuotes && Applied(st, e).0.quotes == st.quotes
  {
    hide DepthPushed, ChangesApplied, Unsubscribed, Wanted, OrdersAfter, AccountAfter, IndexOk, SymbolsAfter;
    match e
    case DepthRecords(records) => DepthKeepsRest(st, records);
    case PositionUpdates(changes, sent) => ChangesKeepRest(st, changes);
    case _ =>
  }

  /** Everything taken away so far. */
  function RunTaken<O>(c: Life<O>, ops: seq<Op<O>>): seq<LiveQuote>
    requires Sound(c.st)
    decreases |ops|
  {
    if |ops| == 0 then [] else
    StepKeeps(c, ops[0]);
    (if ops[0].TakeQuotes? then c.st.changedQuotes else []) + RunTaken(Step(c, ops[0]), ops[1..])
  }

  lemma StepPublishes<O>(c: Life<O>, op: Op<O>)
    requires Sound(c.st)
    ensures var (after, taken) := (Step(c, op), if op.TakeQuotes? then c.st.changedQuotes else []);
      var all := c.st.changedQuotes + Published(c.st.quotes, OpTicks(c, op));
      && taken + after.st.changedQuotes <= all && (after.healthy ==> taken + after.st.changedQuotes == all)
      && (!c.healthy ==> OpTicks(c, op) == [])
  {
    hide Applied, RowTicks, Published, Subscribed, DepthSubscribed, Sound;
    SoundIndex(c.st);
    NonePublished(c.st.quotes);
    assert c.st.changedQuotes + [] == c.st.changedQuotes && [] + c.st.changedQuotes == c.st.changedQuotes;
    match op
    case Subscribe(names, sent, _) => SubscribedKeeps(c.st, names, sent);
    case SubscribeDepth(names, sent, _) => SubscribedKeeps(c.st, names, sent);
    case Poll(p) =>
      match Arrived(c, op) {
        case Some(e) =>
          if e.QuoteRows? {
            RowsPublish(c.st, e.command, e.rows);
            QuotesApplied(c.st, e);
          } else {
            EventKeepsQueue(c.st, e);
          }
        case None =>
      }
    case _ =>
  }

  lemma QuotesApplied<O>(st: State<O>, e: Event<O>)
    requires IndexOk(st.symbols, st.ids) && e.QuoteRows?
    ensures Applied(st, e) == RowsApplied(st, e.command, e.rows)
  {
  }

  /** Over any run, what callers took and what is still queued are exactly the quotes
      that the ticks left with both sides filled, each once and in order; when a
      message was refused, a beginning of them. */
  lemma {:induction false} QuotesPublishedOnce<O>(c: Life<O>, ops: seq<Op<O>>)
    requires Sound(c.st)
    ensures var after := RunFrom(c, ops);
      var all := c.st.changedQuotes + Published(c.st.quotes, RunTicks(c, ops));
      && RunTaken(c, ops) + after.st.changedQuotes <= all
      && (after.healthy ==> RunTaken(c, ops) + after.st.changedQuotes == all)
    decreases |ops|
  {
    hide Sound, Step, OpTicks, Published, QuotesAfter;
    if |ops| == 0 {
      NonePublished(c.st.quotes);
    } else {
      StepKeeps(c, ops[0]);
      SoundIndex(c.st);
      StepPublishes(c, ops[0]);
      OpIsTicks(c, ops[0]);
      var next := Step(c, ops[0]);
      QuotesPublishedOnce(next, ops[1..]);
      PublishedInTurn(c.st.quotes, OpTicks(c, ops[0]), RunTicks(next, ops[1..]));
      var taken := if ops[0].TakeQuotes? then c.st.changedQuotes else [];
      var rest, queue := RunTaken(next, ops[1..]), RunFrom(next, ops[1..]).st.changedQuotes;
      var first := Published(c.st.quotes, OpTicks(c, ops[0]));
      var more := Published(next.st.quotes, RunTicks(next, ops[1..]));
      if !next.healthy {
        EveryRunKeeps(next, ops[1..]);
        NoMoreTicks(next, ops[1..]);
        NonePublished(next.st.quotes);
      }
      Together(taken, next.st.changedQuotes, rest, queue, c.st.changedQuotes, first, more);
    }
  }

  lemma {:induction false} NoMoreTicks<O>(c: Life<O>, ops: seq<Op<O>>)
    requires Sound(c.st) && !c.healthy
    ensures RunTicks(c, ops) == []
    decreases |ops|
  {
    hide Sound, Step, Published;
    if |ops| > 0 {
      StepKeeps(c, ops[0]);
      SoundIndex(c.st);
      StepPublishes(c, ops[0]);
      NoMoreTicks(Step(c, ops[0]), ops[1..]);
    }
  }
}
