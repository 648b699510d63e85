/** What has been asked of the broker after any run: when the last request written
    names everything that counts as subscribed, and when it does not. */
module Subscriptions {
  import opened Results
  import opened Account
  import opened Conversion
  import opened ClientState

  /** Ids asked for in one request, whether it was written, and whether a caller asked
      or a position update. */
  datatype Asking = Asking(ids: set<int>, sent: bool, caller: bool)

  // ---- a list of requests -------------------------------------------------

  function Have(have: set<int>, asked: seq<Asking>): set<int> {
    if |asked| == 0 then have else Have(have, asked[..|asked| - 1]) + asked[|asked| - 1].ids
  }

  /** Every request that is written names everything subscribed so far. */
  function Log(have: set<int>, requests: seq<set<int>>, asked: seq<Asking>): seq<set<int>> {
    if |asked| == 0 then requests else
    var before := Log(have, requests, asked[..|asked| - 1]);
    if asked[|asked| - 1].sent then before + [Have(have, asked)] else before
  }

  /** Request `i` asked for something new and was not written. */
  predicate Lost(have: set<int>, asked: seq<Asking>, i: nat) {
    i < |asked| && !asked[i].sent && !(asked[i].ids <= Have(have, asked[..i]))
  }

  predicate WrittenAfter(asked: seq<Asking>, i: nat) {
    exists j :: i < j < |asked| && asked[j].sent
  }

  /** Every lost request is followed by one that was written. */
  predicate Recovered(have: set<int>, asked: seq<Asking>) {
    forall i :: 0 <= i < |asked| && Lost(have, asked, i) ==> WrittenAfter(asked, i)
  }

  lemma {:induction false} LastNamesNoMore(have: set<int>, requests: seq<set<int>>, asked: seq<Asking>)
    requires LastOr(requests, {}) <= have
    ensures LastOr(Log(have, requests, asked), {}) <= Have(have, asked)
  {
    if |asked| > 0 {
      LastNamesNoMore(have, requests, asked[..|asked| - 1]);
    }
  }

  lemma PrefixLost(have: set<int>, asked: seq<Asking>, i: nat)
    requires |asked| > 0 && i < |asked| - 1
    ensures Lost(have, asked, i) <==> Lost(have, asked[..|asked| - 1], i)
    ensures WrittenAfter(asked, i) <==> WrittenAfter(asked[..|asked| - 1], i) || asked[|asked| - 1].sent
  {
    var n := |asked| - 1;
    assert asked[..n][..i] == asked[..i];
    assert forall j :: 0 <= j < n ==> asked[..n][j] == asked[j];
    if WrittenAfter(asked, i) && !asked[n].sent {
      var j :| i < j < |asked| && asked[j].sent;
      assert asked[..n][j].sent;
    }
    if WrittenAfter(asked[..n], i) {
      var j :| i < j < n && asked[..n][j].sent;
      assert asked[j].sent;
    }
  }

  /** The last request written names exactly what is subscribed if and only if every
      lost request is followed by one that was written. */
  lemma {:induction false} LastNamesAll(have: set<int>, requests: seq<set<int>>, asked: seq<Asking>)
    requires LastOr(requests, {}) == have
    ensures LastOr(Log(have, requests, asked), {}) == Have(have, asked) <==> Recovered(have, asked)
  {
    hide Lost, WrittenAfter;
    if |asked| > 0 {
      var n := |asked| - 1;
      LastNamesAll(have, requests, asked[..n]);
      LastNamesNoMore(have, requests, asked[..n]);
      forall i | 0 <= i < n
        ensures Lost(have, asked, i) <==> Lost(have, asked[..n], i)
        ensures WrittenAfter(asked, i) <==> WrittenAfter(asked[..n], i) || asked[n].sent
      {
        PrefixLost(have, asked, i);
      }
      LastOne(have, asked);
    }
  }

  lemma LastOne(have: set<int>, asked: seq<Asking>)
    requires |asked| > 0
    ensures var n := |asked| - 1;
      && (Lost(have, asked, n) <==> !asked[n].sent && !(asked[n].ids <= Have(have, asked[..n])))
      && !WrittenAfter(asked, n)
  {
  }

  lemma {:induction false} InTurn(have: set<int>, requests: seq<set<int>>, a: seq<Asking>, b: seq<Asking>)
    ensures Have(have, a + b) == Have(Have(have, a), b)
    ensures Log(have, requests, a + b) == Log(Have(have, a), Log(have, requests, a), b)
    decreases |b|
  {
    if |b| == 0 {
      assert a + b == a;
    } else {
      assert (a + b)[..|a + b| - 1] == a + b[..|b| - 1];
      InTurn(have, requests, a, b[..|b| - 1]);
    }
  }

  lemma One(have: set<int>, requests: seq<set<int>>, a: Asking)
    ensures Have(have, [a]) == have + a.ids && Have(have, []) == have
    ensures Log(have, requests, [a]) == if a.sent then requests + [have + a.ids] else requests
    ensures Log(have, requests, []) == requests
  {
    assert [a][..0] == [];
  }

  // ---- quotes -------------------------------------------------------------

  function OpAskings<O>(c: Life<O>, op: Op<O>): seq<Asking> {
    if op.Subscribe? then
      if Listed(c.st.symbols, op.names) then [Asking(Wanted(c.st.symbols, c.st.currency, op.names), op.sent, true)]
      else []
    else
      match Arrived(c, op)
      case Some(PositionUpdates(changes, sent)) =>
        var names := Unsubscribed(c.st.symbols, c.st.subscriptions, ChangesApplied(c.st, changes).positions);
        if names == [] then [] else [Asking(Wanted(c.st.symbols, c.st.currency, names), sent, false)]
      case _ => []
  }

  /** Everything asked for over a run. */
  function RunAskings<O>(c: Life<O>, ops: seq<Op<O>>): seq<Asking>
    requires Sound(c.st)
    decreases |ops|
  {
    if |ops| == 0 then [] else
    StepKeeps(c, ops[0]);
    OpAskings(c, ops[0]) + RunAskings(Step(c, ops[0]), ops[1..])
  }

  lemma PositionsAsk<O>(st: State<O>, changes: seq<PositionChange>, sent: bool)
    ensures var names := Unsubscribed(st.symbols, st.subscriptions, ChangesApplied(st, changes).positions);
      var (after, ok) := PositionsApplied(st, changes, sent);
      if names == [] then after.subscriptions == st.subscriptions && after.requests == st.requests && ok
      else
        && after.subscriptions == st.subscriptions + Wanted(st.symbols, st.currency, names)
        && after.requests == (if sent then st.requests + [after.subscriptions] else st.requests) && ok == sent
  {
    hide Unsubscribed, Wanted, ChangesApplied, SymbolNamed;
    UnsubscribedMeans(st.symbols, st.subscriptions, ChangesApplied(st, changes).positions);
    ChangesKeepRest(st, changes);
  }

  lemma EventAsks<O>(st: State<O>, e: Event<O>)
    requires IndexOk(st.symbols, st.ids)
    ensures !e.PositionUpdates? ==>
      Applied(st, e).0.subscriptions == st.subscriptions && Applied(st, e).0.requests == st.requests
    ensures Applied(st, e).0.depthSubscriptions == st.depthSubscriptions
    ensures Applied(st, e).0.depthRequests == st.depthRequests
  {
    hide RowsApplied, DepthPushed, ChangesApplied, Unsubscribed, Wanted, OrdersAfter, AccountAfter, IndexOk,
         SymbolsAfter;
    match e
    case QuoteRows(command, rows) => RowsKeepRest(st, command, rows);
    case DepthRecords(records) => DepthKeepsRest(st, records);
    case PositionUpdates(changes, sent) => ChangesKeepRest(st, changes);
    case _ =>
  }

  lemma OpAsks<O>(c: Life<O>, op: Op<O>)
    requires Sound(c.st)
    ensures Step(c, op).st.subscriptions == Have(c.st.subscriptions, OpAskings(c, op))
    ensures Step(c, op).st.requests == Log(c.st.subscriptions, c.st.requests, OpAskings(c, op))
    ensures Step(c, op).healthy ==> forall a :: a in OpAskings(c, op) ==> a.caller || a.sent
  {
    hide Applied, Unsubscribed, Wanted, ChangesApplied, Have, Log, Listed, DepthSubscribed, PositionsApplied, Sound;
    SoundIndex(c.st);
    One(c.st.subscriptions, c.st.requests, Asking({}, false, false));
    if |OpAskings(c, op)| > 0 {
      One(c.st.subscriptions, c.st.requests, OpAskings(c, op)[0]);
    }
    PollsApply(c, op);
    match op
    case SubscribeDepth(names, sent, _) => DepthAsks(c.st, names, sent);
    case _ =>
      match Arrived(c, op) {
        case Some(PositionUpdates(changes, sent)) => PositionsAsk(c.st, changes, sent);
        case Some(e) => EventAsks(c.st, e);
        case None =>
      }
  }

  lemma PollsApply<O>(c: Life<O>, op: Op<O>)
    requires IndexOk(c.st.symbols, c.st.ids)
    ensures Arrived(c, op).Some? ==>
      (Step(c, op).st, Step(c, op).healthy) == Applied(c.st, Arrived(c, op).value)
    ensures Arrived(c, op).Some? && Arrived(c, op).value.PositionUpdates? ==>
      var e := Arrived(c, op).value; Applied(c.st, e) == PositionsApplied(c.st, e.changes, e.sent)
    ensures op.Poll? && Arrived(c, op).None? ==> Step(c, op).st == c.st
  {
    hide RowsApplied, DepthApplied, PositionsApplied, IndexOk;
  }

  lemma DepthAsks<O>(st: State<O>, names: seq<string>, sent: bool)
    ensures var after := DepthSubscribed(st, names, sent).0;
      after.subscriptions == st.subscriptions && after.requests == st.requests
  {
  }

  lemma {:induction false} RunAsks<O>(c: Life<O>, ops: seq<Op<O>>)
    requires Sound(c.st)
    ensures RunFrom(c, ops).st.subscriptions == Have(c.st.subscriptions, RunAskings(c, ops))
    ensures RunFrom(c, ops).st.requests == Log(c.st.subscriptions, c.st.requests, RunAskings(c, ops))
    ensures RunFrom(c, ops).healthy ==> forall a :: a in RunAskings(c, ops) ==> a.caller || a.sent
    decreases |ops|
  {
    hide Sound, Step, OpAskings, Have, Log;
    if |ops| == 0 {
      One(c.st.subscriptions, c.st.requests, Asking({}, false, false));
    } else {
      StepKeeps(c, ops[0]);
      SoundIndex(c.st);
      OpAsks(c, ops[0]);
      var next := Step(c, ops[0]);
      RunAsks(next, ops[1..]);
      if !next.healthy {
        EveryRunKeeps(next, ops[1..]);
      }
      InTurn(c.st.subscriptions, c.st.requests, OpAskings(c, ops[0]), RunAskings(next, ops[1..]));
    }
  }

  /** Over any run, healthy or not, the last subscription request written names exactly
      what is subscribed if and only if every request that asked for something new and
      was not written is followed by one that was. While the client is healthy only
      callers' requests can have been lost. */
  lemma HealthyIsSubscribed<O>(c: Life<O>, ops: seq<Op<O>>)
    requires Sound(c.st) && Requested(c.st)
    ensures Requested(RunFrom(c, ops).st) <==> Recovered(c.st.subscriptions, RunAskings(c, ops))
    ensures RunFrom(c, ops).healthy ==> forall a :: a in RunAskings(c, ops) ==> a.caller || a.sent
  {
    hide Sound, RunAskings, Recovered, RunFrom;
    RunAsks(c, ops);
    LastNamesAll(c.st.subscriptions, c.st.requests, RunAskings(c, ops));
  }

  /** The id is on the chain that the search finds between two currencies. */
  predicate OnChain(symbols: seq<Symbol>, from: string, to: string, id: int) {
    var found := Found(Market(symbols, map[], false), from, to);
    found.Some? && exists i :: 0 <= i < |found.value| && found.value[i].symbol.id == id
  }

  /** Subscribing to the name asks for the id: it is the named symbol's own, or on the
      chain from its profit or margin currency to the account's. */
  predicate Needs(symbols: seq<Symbol>, currency: Option<string>, name: string, id: int) {
    match SymbolNamed(symbols, name)
    case Some(s) =>
      s.id == id || (currency.Some? && (OnChain(symbols, s.profit, currency.value, id)
                                        || OnChain(symbols, s.margin, currency.value, id)))
    case None => false
  }

  lemma PathIdsMean(path: Option<seq<Conv>>, id: int)
    ensures id in PathIds(path) <==>
            path.Some? && exists i :: 0 <= i < |path.value| && path.value[i].symbol.id == id
  {
    if path.Some? && id in PathIds(path) {
      var c :| c in path.value && c.symbol.id == id;
    }
  }

  /** Some name needs the id. */
  predicate SomeNeeds(symbols: seq<Symbol>, currency: Option<string>, names: seq<string>, id: int) {
    exists k :: 0 <= k < |names| && Needs(symbols, currency, names[k], id)
  }

  lemma NeedsLast(symbols: seq<Symbol>, currency: Option<string>, names: seq<string>, id: int)
    requires |names| > 0
    ensures SomeNeeds(symbols, currency, names, id) <==>
            SomeNeeds(symbols, currency, names[..|names| - 1], id) || Needs(symbols, currency, names[|names| - 1], id)
  {
    hide Needs;
    var n := |names| - 1;
    assert forall k :: 0 <= k < n ==> names[..n][k] == names[k];
  }

  lemma {:induction false} OwnIdsMean(symbols: seq<Symbol>, names: seq<string>, id: int)
    ensures id in OwnIds(symbols, names) <==> SomeNeeds(symbols, None, names, id)
  {
    hide SymbolNamed;
    if |names| > 0 {
      OwnIdsMean(symbols, names[..|names| - 1], id);
      NeedsLast(symbols, None, names, id);
    }
  }

  lemma {:induction false} IdsMean(symbols: seq<Symbol>, currency: string, names: seq<string>, id: int)
    ensures id in OwnIds(symbols, names) || id in ConversionIds(symbols, names, currency) <==>
            SomeNeeds(symbols, Some(currency), names, id)
  {
    hide SymbolNamed, Found, PathIds;
    if |names| > 0 {
      var n := |names| - 1;
      IdsMean(symbols, currency, names[..n], id);
      NeedsLast(symbols, Some(currency), names, id);
      if SymbolNamed(symbols, names[n]).Some? {
        var s := SymbolNamed(symbols, names[n]).value;
        PathIdsMean(Found(Market(symbols, map[], false), s.profit, currency), id);
        PathIdsMean(Found(Market(symbols, map[], false), s.margin, currency), id);
      }
    }
  }

  /** A request asks for exactly the ids that some name needs. */
  lemma WantedMeans(symbols: seq<Symbol>, currency: Option<string>, names: seq<string>, id: int)
    ensures id in Wanted(symbols, currency, names) <==> SomeNeeds(symbols, currency, names, id)
  {
    hide OwnIds, ConversionIds, Needs;
    match currency
    case Some(c) => IdsMean(symbols, c, names, id);
    case None => OwnIdsMean(symbols, names, id);
  }

  // ---- depth --------------------------------------------------------------

  function DepthAskings<O>(c: Life<O>, op: Op<O>): seq<Asking> {
    if op.SubscribeDepth? && DepthListed(c.st.symbols, op.names)
    then [Asking(OwnIds(c.st.symbols, op.names), op.sent, true)] else []
  }

  function RunDepthAskings<O>(c: Life<O>, ops: seq<Op<O>>): seq<Asking>
    requires Sound(c.st)
    decreases |ops|
  {
    if |ops| == 0 then [] else
    StepKeeps(c, ops[0]);
    DepthAskings(c, ops[0]) + RunDepthAskings(Step(c, ops[0]), ops[1..])
  }

  lemma OpAsksDepth<O>(c: Life<O>, op: Op<O>)
    requires Sound(c.st)
    ensures Step(c, op).st.depthSubscriptions == Have(c.st.depthSubscriptions, DepthAskings(c, op))
    ensures Step(c, op).st.depthRequests == Log(c.st.depthSubscriptions, c.st.depthRequests, DepthAskings(c, op))
  {
    hide Applied, OwnIds, Have, Log, DepthListed, Listed, Wanted, Sound;
    SoundIndex(c.st);
    One(c.st.depthSubscriptions, c.st.depthRequests, Asking({}, false, false));
    if |DepthAskings(c, op)| > 0 {
      One(c.st.depthSubscriptions, c.st.depthRequests, DepthAskings(c, op)[0]);
    }
    if Arrived(c, op).Some? {
      PollsApply(c, op);
      EventAsks(c.st, Arrived(c, op).value);
    }
  }

  lemma {:induction false} RunAsksDepth<O>(c: Life<O>, ops: seq<Op<O>>)
    requires Sound(c.st)
    ensures RunFrom(c, ops).st.depthSubscriptions == Have(c.st.depthSubscriptions, RunDepthAskings(c, ops))
    ensures RunFrom(c, ops).st.depthRequests ==
            Log(c.st.depthSubscriptions, c.st.depthRequests, RunDepthAskings(c, ops))
    decreases |ops|
  {
    hide Sound, Step, DepthAskings, Have, Log;
    if |ops| == 0 {
      One(c.st.depthSubscriptions, c.st.depthRequests, Asking({}, false, false));
    } else {
      StepKeeps(c, ops[0]);
      SoundIndex(c.st);
      OpAsksDepth(c, ops[0]);
      var next := Step(c, ops[0]);
      RunAsksDepth(next, ops[1..]);
      InTurn(c.st.depthSubscriptions, c.st.depthRequests, DepthAskings(c, ops[0]), RunDepthAskings(next, ops[1..]));
    }
  }

  /** The same for market depth, which only callers subscribe to. */
  lemma DepthIsSubscribed<O>(c: Life<O>, ops: seq<Op<O>>)
    requires Sound(c.st) && DepthRequested(c.st)
    ensures DepthRequested(RunFrom(c, ops).st) <==> Recovered(c.st.depthSubscriptions, RunDepthAskings(c, ops))
  {
    hide Sound, RunDepthAskings, Recovered, RunFrom;
    RunAsksDepth(c, ops);
    LastNamesAll(c.st.depthSubscriptions, c.st.depthRequests, RunDepthAskings(c, ops));
  }

  // ---- inputs -------------------------------------------------------------

  function OneSymbol<O>(account: AccountState): State<O> {
    var s := Symbol(1, "A", 0, "", "", "");
    State([s], map[1 := 0], map[], [], [], [], [], account, {}, [], {}, [], None)
  }

  lemma OneSymbolWanted()
    ensures var symbols := [Symbol(1, "A", 0, "", "", "")];
      Listed(symbols, ["A"]) && Wanted(symbols, None, ["A"]) == {1}
  {
    assert ["A"][..0] == [];
  }

  /** A subscription whose write fails leaves a healthy client with ids that no request
      has named. */
  lemma FailedWriteIsLost<O>(account: AccountState)
    ensures var c := Life(OneSymbol<O>(account), true, 0, 0, RECEIVE_DEADLINE, 0, 0);
      && Sound(c.st) && Requested(c.st)
      && var after := Step(c, Subscribe(["A"], false, 1)); after.healthy && !Requested(after.st)
  {
    OneSymbolWanted();
  }

  /** An unhealthy client still writes what callers ask for. */
  lemma UnhealthyStillWrites<O>(account: AccountState)
    ensures var c := Life(OneSymbol<O>(account), false, 0, 0, RECEIVE_DEADLINE, 0, 0);
      && Step(c, Subscribe(["A"], true, 1)).st.requests == [{1}]
      && Step(c, Request(true, 1)).asked == 1
  {
    OneSymbolWanted();
    var none: set<int> := {};
    assert none + {1} == {1};
  }
}
