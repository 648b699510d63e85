/** The currency conversion search: breadth first over tradeable symbols, at most
    three conversions. */
module Conversion {
  import opened Results

  datatype Symbol = Symbol(id: int, name: string, digits: int, base: string, profit: string, margin: string)

  datatype Quote = Quote(bid: real, ask: real)

  /** One conversion: forward is base to profit currency. */
  datatype Conv = Conv(symbol: Symbol, forward: bool)

  const MAX_STEPS: nat := 3

  /** The symbols and quotes searched; `quoted` admits only symbols with a
      positive price on both sides. */
  datatype Market = Market(symbols: seq<Symbol>, quotes: map<string, Quote>, quoted: bool) {
    predicate Usable(s: Symbol) {
      quoted ==> s.name in quotes && quotes[s.name].bid > 0.0 && quotes[s.name].ask > 0.0
    }

    /** Where a symbol leads from a currency, and in which direction. */
    function Edge(s: Symbol, currency: string): Option<(string, bool)> {
      if !Usable(s) then None
      else if s.base == currency then (if s.profit == "" then None else Some((s.profit, true)))
      else if s.profit == currency then (if s.base == "" then None else Some((s.base, false)))
      else None
    }

    /** The currency a chain of conversions leads to, if each one applies. */
    function Follow(path: seq<Conv>, from: string): Option<string> {
      if |path| == 0 then Some(from) else
      var last := path[|path| - 1];
      match Follow(path[..|path| - 1], from)
      case None => None
      case Some(currency) =>
        (match Edge(last.symbol, currency)
         case Some((next, forward)) =>
           if last.symbol in symbols && forward == last.forward then Some(next) else None
         case None => None)
    }
  }

  // ---- the search state ---------------------------------------------------

  type Entry = (string, seq<Conv>)
  type Levels = map<string, nat>

  /** What the first `k` symbols lead to from `currency` has been seen, at most
      one level further on. */
  ghost predicate Expanded(m: Market, levels: Levels, currency: string, k: nat)
    requires currency in levels && k <= |m.symbols|
  {
    forall i :: 0 <= i < k && m.Edge(m.symbols[i], currency).Some? ==>
      var next := m.Edge(m.symbols[i], currency).value.0;
      next in levels && levels[next] <= levels[currency] + 1
  }

  ghost predicate Queued(queue: seq<Entry>, currency: string) {
    exists i :: 0 <= i < |queue| && queue[i].0 == currency
  }

  ghost predicate EntryOk(m: Market, from: string, levels: Levels, e: Entry) {
    e.0 in levels && levels[e.0] == |e.1| <= MAX_STEPS && m.Follow(e.1, from) == Some(e.0)
  }

  /** Entries lead where they say and wait in level order. */
  ghost predicate QueueOk(m: Market, from: string, queue: seq<Entry>, levels: Levels, floor: nat) {
    && from in levels && levels[from] == 0
    && (forall c :: c in levels ==> levels[c] <= floor + 1)
    && (forall i :: 0 <= i < |queue| ==> EntryOk(m, from, levels, queue[i]) && floor <= |queue[i].1| <= floor + 1)
    && (forall i, j :: 0 <= i < j < |queue| ==> |queue[i].1| <= |queue[j].1|)
  }

  /** A currency is done with when it is `except`, waits in the queue, is at the
      last level, or has been expanded. */
  ghost predicate Settled(m: Market, queue: seq<Entry>, levels: Levels, except: Option<string>) {
    forall c :: c in levels ==>
      except == Some(c) || Queued(queue, c) || levels[c] >= MAX_STEPS || Expanded(m, levels, c, |m.symbols|)
  }

  /** Every level below `depth` has been fully expanded. */
  ghost predicate Closed(m: Market, levels: Levels, depth: nat) {
    forall c :: c in levels && levels[c] < depth ==> Expanded(m, levels, c, |m.symbols|)
  }

  /** A chain cannot outrun the levels. */
  lemma {:induction false} ChainSeen(m: Market, from: string, levels: Levels, depth: nat, path: seq<Conv>)
    requires from in levels && levels[from] == 0 && Closed(m, levels, depth) && |path| <= depth
    ensures match m.Follow(path, from) case Some(c) => c in levels && levels[c] <= |path| case None => true
    decreases |path|
  {
    if |path| > 0 && m.Follow(path, from).Some? {
      ChainSeen(m, from, levels, depth, path[..|path| - 1]);
      var currency := m.Follow(path[..|path| - 1], from).value;
      var s := path[|path| - 1].symbol;
      var i :| 0 <= i < |m.symbols| && m.symbols[i] == s;
      assert m.Edge(m.symbols[i], currency).Some?;
    }
  }

  lemma FollowExtends(m: Market, from: string, path: seq<Conv>, step: Conv)
    requires m.Follow(path, from).Some? && step.symbol in m.symbols
    requires m.Edge(step.symbol, m.Follow(path, from).value).Some?
    requires m.Edge(step.symbol, m.Follow(path, from).value).value.1 == step.forward
    ensures m.Follow(path + [step], from) == Some(m.Edge(step.symbol, m.Follow(path, from).value).value.0)
  {
    assert (path + [step])[..|path|] == path;
  }

  function Currencies(symbols: seq<Symbol>): set<string> {
    (set s | s in symbols :: s.base) + (set s | s in symbols :: s.profit)
  }

  // ---- the search ---------------------------------------------------------

  /** Try the symbols from index `i` on from one currency: each currency not seen
      before joins the queue. */
  function Tries(m: Market, currency: string, path: seq<Conv>, i: nat, queue: seq<Entry>, visited: set<string>):
    (r: (seq<Entry>, set<string>))
    ensures visited <= r.1 <= visited + Currencies(m.symbols)
    ensures r.1 == visited ==> r.0 == queue
    decreases |m.symbols| - i
  {
    if i >= |m.symbols| then (queue, visited) else
    assert m.symbols[i].base in Currencies(m.symbols) && m.symbols[i].profit in Currencies(m.symbols);
    match m.Edge(m.symbols[i], currency)
    case None => Tries(m, currency, path, i + 1, queue, visited)
    case Some((next, forward)) =>
      if next in visited then Tries(m, currency, path, i + 1, queue, visited)
      else Tries(m, currency, path, i + 1, queue + [(next, path + [Conv(m.symbols[i], forward)])], visited + {next})
  }

  function Search(m: Market, to: string, queue: seq<Entry>, visited: set<string>): Option<seq<Conv>>
    decreases |Currencies(m.symbols) - visited|, |queue|
  {
    if |queue| == 0 then None else
    var (currency, path) := queue[0];
    if currency == to then Some(path)
    else if |path| >= MAX_STEPS then Search(m, to, queue[1..], visited)
    else
      var (longer, more) := Tries(m, currency, path, 0, queue[1..], visited);
      LessLeft(Currencies(m.symbols), visited, more);
      Search(m, to, longer, more)
  }

  lemma LessLeft(all: set<string>, visited: set<string>, more: set<string>)
    requires visited <= more <= visited + all
    ensures visited == more || |all - more| < |all - visited|
  {
    if visited != more {
      assert all - more < all - visited;
      SmallerSet(all - more, all - visited);
    }
  }

  lemma SmallerSet(a: set<string>, b: set<string>)
    requires a < b
    ensures |a| < |b|
  {
    var x :| x in b && x !in a;
    assert |b - {x}| >= |a| by {
      assert a <= b - {x};
      var rest := b - {x} - a;
      assert b - {x} == a + rest && a !! rest;
    }
  }

  // ---- what a search answers ----------------------------------------------

  /** A shortest chain of at most three conversions, or the fact that there is none. */
  ghost predicate Answers(m: Market, from: string, to: string, r: Option<seq<Conv>>) {
    match r
    case Some(path) =>
      && |path| <= MAX_STEPS && m.Follow(path, from) == Some(to)
      && forall other :: m.Follow(other, from) == Some(to) ==> |path| <= |other|
    case None => forall path :: m.Follow(path, from) == Some(to) ==> |path| > MAX_STEPS
  }

  lemma Shortest(m: Market, from: string, to: string, levels: Levels, path: seq<Conv>)
    requires from in levels && levels[from] == 0 && Closed(m, levels, |path|)
    requires |path| <= MAX_STEPS && m.Follow(path, from) == Some(to) && to in levels && levels[to] == |path|
    ensures Answers(m, from, to, Some(path))
  {
    forall other | m.Follow(other, from) == Some(to) ensures |path| <= |other| {
      if |other| < |path| {
        ChainSeen(m, from, levels, |path|, other);
      }
    }
  }

  lemma Exhausted(m: Market, from: string, to: string, levels: Levels)
    requires from in levels && levels[from] == 0 && Closed(m, levels, MAX_STEPS) && to !in levels
    ensures Answers(m, from, to, None)
  {
    forall path | m.Follow(path, from) == Some(to) ensures |path| > MAX_STEPS {
      if |path| <= MAX_STEPS {
        ChainSeen(m, from, levels, MAX_STEPS, path);
      }
    }
  }

  lemma ClosedBelow(m: Market, from: string, queue: seq<Entry>, levels: Levels, head: string, depth: nat)
    requires Settled(m, queue, levels, Some(head)) && QueueOk(m, from, queue, levels, depth) && depth <= MAX_STEPS
    requires head in levels && levels[head] >= depth
    ensures Closed(m, levels, depth)
  {
    hide Expanded;
    forall c | Queued(queue, c) ensures c in levels && levels[c] >= depth {
      var i :| 0 <= i < |queue| && queue[i].0 == c;
      assert EntryOk(m, from, levels, queue[i]);
    }
  }

  lemma Popped(m: Market, from: string, to: string, queue: seq<Entry>, levels: Levels, floor: nat)
    requires |queue| > 0 && QueueOk(m, from, queue, levels, floor) && Settled(m, queue, levels, None)
    requires to in levels ==> Queued(queue, to)
    ensures QueueOk(m, from, queue[1..], levels, |queue[0].1|)
    ensures Settled(m, queue[1..], levels, Some(queue[0].0))
    ensures to in levels && queue[0].0 != to ==> Queued(queue[1..], to)
    ensures EntryOk(m, from, levels, queue[0])
  {
    hide Expanded, EntryOk;
    forall c | Queued(queue, c) && c != queue[0].0 ensures Queued(queue[1..], c) {
      var i :| 0 <= i < |queue| && queue[i].0 == c;
      assert queue[1..][i - 1].0 == c;
    }
    forall i, j | 0 <= i < j < |queue[1..]| ensures |queue[1..][i].1| <= |queue[1..][j].1| {
      assert queue[1..][i] == queue[i + 1] && queue[1..][j] == queue[j + 1];
    }
    assert forall i :: 0 <= i < |queue[1..]| ==> queue[1..][i] == queue[i + 1];
  }

  lemma ExpandedGrows(m: Market, levels: Levels, next: string, level: nat, c: string, k: nat)
    requires next !in levels && c in levels && k <= |m.symbols| && Expanded(m, levels, c, k)
    ensures Expanded(m, levels[next := level], c, k)
  {
  }

  lemma Pushed(m: Market, from: string, queue: seq<Entry>, levels: Levels, floor: nat, e: Entry, head: string)
    requires QueueOk(m, from, queue, levels, floor) && Settled(m, queue, levels, Some(head))
    requires e.0 !in levels && |e.1| == floor + 1 <= MAX_STEPS && m.Follow(e.1, from) == Some(e.0)
    ensures QueueOk(m, from, queue + [e], levels[e.0 := |e.1|], floor)
    ensures Settled(m, queue + [e], levels[e.0 := |e.1|], Some(head))
    ensures forall c :: Queued(queue, c) || c == e.0 ==> Queued(queue + [e], c)
  {
    hide Expanded;
    var longer, more := queue + [e], levels[e.0 := |e.1|];
    assert longer[|queue|] == e;
    forall c | Queued(queue, c) ensures Queued(longer, c) {
      var i :| 0 <= i < |queue| && queue[i].0 == c;
      assert longer[i].0 == c;
    }
    forall c | c in levels && Expanded(m, levels, c, |m.symbols|) ensures Expanded(m, more, c, |m.symbols|) {
      ExpandedGrows(m, levels, e.0, |e.1|, c, |m.symbols|);
    }
  }

  lemma Untried(m: Market, levels: Levels, c: string)
    requires c in levels
    ensures Expanded(m, levels, c, 0)
  {
  }

  lemma Tried(m: Market, levels: Levels, c: string, i: nat)
    requires i < |m.symbols| && c in levels && Expanded(m, levels, c, i)
    ensures (match m.Edge(m.symbols[i], c)
             case Some((next, _)) => next in levels && levels[next] <= levels[c] + 1
             case None => true) ==>
      Expanded(m, levels, c, i + 1)
  {
  }

  lemma AllTried(m: Market, queue: seq<Entry>, levels: Levels, c: string)
    requires c in levels && Expanded(m, levels, c, |m.symbols|) && Settled(m, queue, levels, Some(c))
    ensures Settled(m, queue, levels, None)
  {
    hide Expanded, Queued;
  }

  lemma NoDeeper(m: Market, from: string, queue: seq<Entry>, levels: Levels, floor: nat)
    requires QueueOk(m, from, queue, levels, floor)
    ensures from in levels && levels[from] == 0
    ensures forall c :: c in levels ==> levels[c] <= floor + 1
  {
    hide EntryOk;
  }

  lemma Known(symbols: seq<Symbol>, i: nat)
    requires i < |symbols|
    ensures symbols[i].base in Currencies(symbols) && symbols[i].profit in Currencies(symbols)
  {
  }

  lemma TriesUnfold(m: Market, currency: string, path: seq<Conv>, i: nat, queue: seq<Entry>, visited: set<string>)
    ensures Tries(m, currency, path, i, queue, visited) ==
      if i >= |m.symbols| then (queue, visited) else
      match m.Edge(m.symbols[i], currency)
      case None => Tries(m, currency, path, i + 1, queue, visited)
      case Some((next, forward)) =>
        if next in visited then Tries(m, currency, path, i + 1, queue, visited)
        else Tries(m, currency, path, i + 1, queue + [(next, path + [Conv(m.symbols[i], forward)])], visited + {next})
  {
    hide Market.Edge, Currencies;
  }

  lemma {:induction false} TriesKeep(m: Market, from: string, to: string, currency: string, path: seq<Conv>, i: nat,
                                     queue: seq<Entry>, visited: set<string>, levels: Levels)
    returns (after: Levels)
    requires i <= |m.symbols| && |path| < MAX_STEPS && visited == levels.Keys
    requires currency in levels && levels[currency] == |path| && Expanded(m, levels, currency, i)
    requires m.Follow(path, from) == Some(currency)
    requires QueueOk(m, from, queue, levels, |path|) && Settled(m, queue, levels, Some(currency))
    requires to in levels ==> Queued(queue, to)
    ensures var (longer, more) := Tries(m, currency, path, i, queue, visited);
      && more == after.Keys && QueueOk(m, from, longer, after, |path|) && Settled(m, longer, after, None)
      && (to in after ==> Queued(longer, to))
    decreases |m.symbols| - i
  {
    hide QueueOk, Settled, Expanded, Currencies, Queued, Tries, Market.Edge, Market.Follow;
    TriesUnfold(m, currency, path, i, queue, visited);
    if i == |m.symbols| {
      AllTried(m, queue, levels, currency);
      return levels;
    }
    Tried(m, levels, currency, i);
    NoDeeper(m, from, queue, levels, |path|);
    var edge := m.Edge(m.symbols[i], currency);
    if edge.Some? && edge.value.0 !in visited {
      var (next, forward) := edge.value;
      var longer := path + [Conv(m.symbols[i], forward)];
      FollowExtends(m, from, path, Conv(m.symbols[i], forward));
      Pushed(m, from, queue, levels, |path|, (next, longer), currency);
      ExpandedGrows(m, levels, next, |longer|, currency, i);
      Tried(m, levels[next := |longer|], currency, i);
      after := TriesKeep(m, from, to, currency, path, i + 1, queue + [(next, longer)], visited + {next},
                         levels[next := |longer|]);
    } else {
      after := TriesKeep(m, from, to, currency, path, i + 1, queue, visited, levels);
    }
  }

  lemma Initially(m: Market, from: string, to: string)
    ensures var queue: seq<Entry> := [(from, [])]; var levels: Levels := map[from := 0];
      && QueueOk(m, from, queue, levels, 0) && Settled(m, queue, levels, None)
      && (to in levels ==> Queued(queue, to))
  {
    var queue: seq<Entry> := [(from, [])];
    assert queue[0].0 == from;
  }

  lemma LastLevel(m: Market, queue: seq<Entry>, levels: Levels, c: string)
    requires c in levels && levels[c] >= MAX_STEPS && Settled(m, queue, levels, Some(c))
    ensures Settled(m, queue, levels, None)
  {
    hide Expanded, Queued;
  }

  lemma NothingQueued(m: Market, queue: seq<Entry>, levels: Levels)
    requires |queue| == 0 && Settled(m, queue, levels, None)
    ensures Closed(m, levels, MAX_STEPS) && forall c :: !Queued(queue, c)
  {
    hide Expanded;
  }

  lemma {:induction false} SearchAnswers(m: Market, from: string, to: string, queue: seq<Entry>, visited: set<string>,
                                         levels: Levels, floor: nat)
    requires visited == levels.Keys && floor <= MAX_STEPS
    requires QueueOk(m, from, queue, levels, floor) && Settled(m, queue, levels, None)
    requires to in levels ==> Queued(queue, to)
    ensures Answers(m, from, to, Search(m, to, queue, visited))
    decreases |Currencies(m.symbols) - visited|, |queue|
  {
    hide Answers, Expanded, QueueOk, Settled, Queued, Closed, Currencies, Tries, Market.Follow;
    NoDeeper(m, from, queue, levels, floor);
    if |queue| == 0 {
      NothingQueued(m, queue, levels);
      Exhausted(m, from, to, levels);
    } else {
      var (currency, path) := queue[0];
      Popped(m, from, to, queue, levels, floor);
      if currency == to {
        ClosedBelow(m, from, queue[1..], levels, currency, |path|);
        Shortest(m, from, to, levels, path);
      } else if |path| >= MAX_STEPS {
        LastLevel(m, queue[1..], levels, currency);
        SearchAnswers(m, from, to, queue[1..], visited, levels, |path|);
      } else {
        Untried(m, levels, currency);
        var (longer, more) := Tries(m, currency, path, 0, queue[1..], visited);
        LessLeft(Currencies(m.symbols), visited, more);
        var after := TriesKeep(m, from, to, currency, path, 0, queue[1..], visited, levels);
        SearchAnswers(m, from, to, longer, more, after, |path|);
      }
    }
  }

  function Found(m: Market, from: string, to: string): Option<seq<Conv>> {
    Search(m, to, [(from, [])], {from})
  }

  /** The search finds a shortest chain, or none exactly when no chain of at most
      three conversions exists. */
  lemma FoundAnswers(m: Market, from: string, to: string)
    ensures Answers(m, from, to, Found(m, from, to))
  {
    hide Answers, QueueOk, Settled, Queued, Search;
    Initially(m, from, to);
    SearchAnswers(m, from, to, [(from, [])], {from}, map[from := 0], 0);
  }

  /** Breadth first, level by level, each currency entered once. */
  method ConversionPath(m: Market, from: string, to: string) returns (r: Option<seq<Conv>>)
    ensures r == Found(m, from, to)
    ensures Answers(m, from, to, r)
  {
    hide Answers, Tries, Currencies;
    FoundAnswers(m, from, to);
    var queue: seq<Entry> := [(from, [])];
    var visited := {from};
    while |queue| > 0
      invariant Search(m, to, queue, visited) == Found(m, from, to)
      decreases |Currencies(m.symbols) - visited|, |queue|
    {
      var (currency, path) := queue[0];
      queue := queue[1..];
      if currency == to {
        return Some(path);
      }
      if |path| >= MAX_STEPS {
        continue;
      }
      ghost var (longer, more) := Tries(m, currency, path, 0, queue, visited);
      LessLeft(Currencies(m.symbols), visited, more);
      for i := 0 to |m.symbols|
        invariant Tries(m, currency, path, i, queue, visited) == (longer, more)
      {
        TriesUnfold(m, currency, path, i, queue, visited);
        var s := m.symbols[i];
        if m.quoted && !(s.name in m.quotes && m.quotes[s.name].bid > 0.0 && m.quotes[s.name].ask > 0.0) {
          continue;
        }
        var next, forward;
        if s.base == currency {
          next, forward := s.profit, true;
        } else if s.profit == currency {
          next, forward := s.base, false;
        } else {
          continue;
        }
        if next == "" || next in visited {
          continue;
        }
        visited := visited + {next};
        queue := queue + [(next, path + [Conv(s, forward)])];
      }
      TriesUnfold(m, currency, path, |m.symbols|, queue, visited);
    }
    return None;
  }

  // ---- the rate -----------------------------------------------------------

  /** The factor of one conversion, on the side that is worse (`loss`) or better
      for the holder. */
  function Factor(m: Market, step: Conv, loss: bool): real
    requires Priced(m, step)
  {
    var q := m.quotes[step.symbol.name];
    if step.forward then (if loss then q.ask else q.bid) else 1.0 / (if loss then q.bid else q.ask)
  }

  predicate Priced(m: Market, step: Conv) {
    step.symbol.name in m.quotes && m.quotes[step.symbol.name].bid > 0.0 && m.quotes[step.symbol.name].ask > 0.0
  }

  predicate AllPriced(m: Market, path: seq<Conv>) {
    forall i :: 0 <= i < |path| ==> Priced(m, path[i])
  }

  function Rate(m: Market, path: seq<Conv>, loss: bool): real
    requires AllPriced(m, path)
  {
    if |path| == 0 then 1.0 else Rate(m, path[..|path| - 1], loss) * Factor(m, path[|path| - 1], loss)
  }

  lemma {:induction false} FollowedIsPriced(m: Market, path: seq<Conv>, from: string)
    requires m.quoted && m.Follow(path, from).Some?
    ensures AllPriced(m, path)
    decreases |path|
  {
    if |path| > 0 {
      FollowedIsPriced(m, path[..|path| - 1], from);
      forall i | 0 <= i < |path| ensures Priced(m, path[i]) {
        assert i < |path| - 1 ==> path[i] == path[..|path| - 1][i];
      }
    }
  }

  function RateFound(symbols: seq<Symbol>, quotes: map<string, Quote>, from: string, to: string, loss: bool):
    Option<real>
  {
    var m := Market(symbols, quotes, true);
    match Found(m, from, to)
    case None => None
    case Some(path) =>
      FoundAnswers(m, from, to);
      FollowedIsPriced(m, path, from);
      Some(Rate(m, path, loss))
  }

  lemma NothingPriced(m: Market, loss: bool)
    ensures AllPriced(m, []) && Rate(m, [], loss) == 1.0
  {
  }

  lemma RateStep(m: Market, path: seq<Conv>, i: nat, loss: bool)
    requires AllPriced(m, path) && i < |path|
    ensures AllPriced(m, path[..i]) && AllPriced(m, path[..i + 1]) && Priced(m, path[i])
    ensures var q := m.quotes[path[i].symbol.name];
      Rate(m, path[..i + 1], loss) == Rate(m, path[..i], loss) *
        if path[i].forward then (if loss then q.ask else q.bid) else 1.0 / (if loss then q.bid else q.ask)
  {
    assert path[..i + 1][..i] == path[..i];
  }

  method ConversionRate(symbols: seq<Symbol>, quotes: map<string, Quote>, from: string, to: string, loss: bool)
    returns (r: Option<real>)
    ensures r == RateFound(symbols, quotes, from, to, loss)
  {
    hide Market.Follow, Found, Rate;
    var m := Market(symbols, quotes, true);
    var found := ConversionPath(m, from, to);
    if found.None? {
      return None;
    }
    var path, rate := found.value, 1.0;
    FollowedIsPriced(m, path, from);
    NothingPriced(m, loss);
    for i := 0 to |path|
      invariant AllPriced(m, path[..i]) && rate == Rate(m, path[..i], loss)
    {
      var step := path[i];
      assert Priced(m, step);
      var q := m.quotes[step.symbol.name];
      RateStep(m, path, i, loss);
      rate := rate * if step.forward then (if loss then q.ask else q.bid) else 1.0 / (if loss then q.bid else q.ask);
    }
    assert path[..|path|] == path;
    return Some(rate);
  }

  /** A rate exists exactly when at most three quoted conversions lead there, and
      when no quote crosses, the losing side never gets the lower rate. */
  lemma RatesAgree(symbols: seq<Symbol>, quotes: map<string, Quote>, from: string, to: string)
    ensures var m := Market(symbols, quotes, true);
      RateFound(symbols, quotes, from, to, false).Some? <==>
      exists path :: m.Follow(path, from) == Some(to) && |path| <= MAX_STEPS
    ensures RateFound(symbols, quotes, from, to, true).Some? <==> RateFound(symbols, quotes, from, to, false).Some?
    ensures RateFound(symbols, quotes, from, to, false).Some? &&
            (forall name :: name in quotes ==> quotes[name].ask >= quotes[name].bid) ==>
            0.0 < RateFound(symbols, quotes, from, to, false).value <= RateFound(symbols, quotes, from, to, true).value
  {
    hide Market.Follow, Found, Rate;
    var m := Market(symbols, quotes, true);
    FoundAnswers(m, from, to);
    match Found(m, from, to)
    case None =>
    case Some(path) =>
      FollowedIsPriced(m, path, from);
      if forall name :: name in quotes ==> quotes[name].ask >= quotes[name].bid {
        LossRateIsNotLower(m, path);
      }
  }

  // ---- what a chain and its rate are --------------------------------------

  /** The symbol converts `a` to `b`: it is usable and has the two as its base and
      profit currencies, in either order. */
  predicate Converts(m: Market, s: Symbol, a: string, b: string) {
    && s in m.symbols
    && (m.quoted ==> s.name in m.quotes && m.quotes[s.name].bid > 0.0 && m.quotes[s.name].ask > 0.0)
    && b != "" && ((s.base == a && s.profit == b) || (s.base != a && s.profit == a && s.base == b))
  }

  /** Each symbol converts a currency to the next one, from the first to the last. */
  predicate Chain(m: Market, steps: seq<Symbol>, currencies: seq<string>, from: string, to: string) {
    && |currencies| == |steps| + 1 && currencies[0] == from && currencies[|steps|] == to
    && forall i :: 0 <= i < |steps| ==> Converts(m, steps[i], currencies[i], currencies[i + 1])
  }

  lemma ConvertsIsEdge(m: Market, s: Symbol, a: string, b: string)
    requires s in m.symbols
    ensures Converts(m, s, a, b) <==> m.Edge(s, a) == Some((b, s.base == a))
  {
  }

  function Steps(path: seq<Conv>): (steps: seq<Symbol>)
    ensures |steps| == |path| && forall i :: 0 <= i < |path| ==> steps[i] == path[i].symbol
  {
    seq(|path|, i requires 0 <= i < |path| => path[i].symbol)
  }

  /** Every followed path is a chain, forward exactly where its currency is the base. */
  lemma {:induction false} FollowedIsChain(m: Market, path: seq<Conv>, from: string, to: string)
    returns (currencies: seq<string>)
    requires m.Follow(path, from) == Some(to)
    ensures Chain(m, Steps(path), currencies, from, to)
    ensures forall i :: 0 <= i < |path| ==> (path[i].forward <==> path[i].symbol.base == currencies[i])
    decreases |path|
  {
    hide Market.Edge, Converts;
    if |path| == 0 {
      return [from];
    }
    var n := |path| - 1;
    var last, currency := path[n], m.Follow(path[..n], from).value;
    var shorter := FollowedIsChain(m, path[..n], from, currency);
    ConvertsIsEdge(m, last.symbol, currency, to);
    EdgeDirection(m, last.symbol, currency);
    currencies := shorter + [to];
    forall i | 0 <= i < |path|
      ensures Converts(m, Steps(path)[i], currencies[i], currencies[i + 1])
      ensures path[i].forward <==> path[i].symbol.base == currencies[i]
    {
      if i < n {
        assert Converts(m, Steps(path[..n])[i], shorter[i], shorter[i + 1]);
        assert path[..n][i] == path[i];
      }
    }
  }

  lemma EdgeDirection(m: Market, s: Symbol, currency: string)
    ensures m.Edge(s, currency).Some? ==> m.Edge(s, currency).value.1 == (s.base == currency)
  {
  }

  lemma {:induction false} ChainIsFollowed(m: Market, steps: seq<Symbol>, currencies: seq<string>, from: string,
                                           to: string) returns (path: seq<Conv>)
    requires Chain(m, steps, currencies, from, to)
    ensures |path| == |steps| && m.Follow(path, from) == Some(to)
    decreases |steps|
  {
    hide Market.Edge, Converts;
    if |steps| == 0 {
      return [];
    }
    var n := |steps| - 1;
    assert Converts(m, steps[n], currencies[n], currencies[n + 1]);
    assert forall i :: 0 <= i < n ==> steps[..n][i] == steps[i];
    var shorter := ChainIsFollowed(m, steps[..n], currencies[..n + 1], from, currencies[n]);
    ConvertsListed(m, steps[n], currencies[n], to);
    ConvertsIsEdge(m, steps[n], currencies[n], to);
    FollowExtends(m, from, shorter, Conv(steps[n], steps[n].base == currencies[n]));
    path := shorter + [Conv(steps[n], steps[n].base == currencies[n])];
  }

  lemma ConvertsListed(m: Market, s: Symbol, a: string, b: string)
    ensures Converts(m, s, a, b) ==> s in m.symbols
  {
  }

  /** The search answers by chains: a shortest one of at most three conversions, or
      nothing exactly when every chain is longer. */
  lemma FoundIsShortestChain(m: Market, from: string, to: string) returns (currencies: seq<string>)
    ensures match Found(m, from, to)
      case Some(path) =>
        && |path| <= 3 && Chain(m, Steps(path), currencies, from, to)
        && (forall i :: 0 <= i < |path| ==> (path[i].forward <==> path[i].symbol.base == currencies[i]))
        && forall steps, others :: Chain(m, steps, others, from, to) ==> |path| <= |steps|
      case None => forall steps, others :: Chain(m, steps, others, from, to) ==> |steps| > 3
  {
    hide Found, Market.Follow, Chain;
    currencies := [];
    FoundAnswers(m, from, to);
    forall steps, others | Chain(m, steps, others, from, to)
      ensures exists path :: |path| == |steps| && m.Follow(path, from) == Some(to)
    {
      var path := ChainIsFollowed(m, steps, others, from, to);
    }
    if Found(m, from, to).Some? {
      currencies := FollowedIsChain(m, Found(m, from, to).value, from, to);
    }
  }

  function Product(numbers: seq<real>): real {
    if |numbers| == 0 then 1.0 else Product(numbers[..|numbers| - 1]) * numbers[|numbers| - 1]
  }

  /** What one unit of a currency is worth after one conversion: selling the base at the
      bid or, on the losing side, at the ask; and buying it back the other way round. */
  predicate Worth(q: Quote, forward: bool, loss: bool, number: real) {
    if forward then number == (if loss then q.ask else q.bid)
    else number * (if loss then q.bid else q.ask) == 1.0
  }

  lemma FactorIsWorth(m: Market, step: Conv, loss: bool)
    requires Priced(m, step)
    ensures Worth(m.quotes[step.symbol.name], step.forward, loss, Factor(m, step, loss))
  {
  }

  lemma {:induction false} RateIsProduct(m: Market, path: seq<Conv>, loss: bool) returns (numbers: seq<real>)
    requires AllPriced(m, path)
    ensures |numbers| == |path| && Rate(m, path, loss) == Product(numbers)
    ensures forall i :: 0 <= i < |path| ==>
      Worth(m.quotes[path[i].symbol.name], path[i].forward, loss, numbers[i])
    decreases |path|
  {
    hide Factor, Worth;
    if |path| == 0 {
      return [];
    }
    var n := |path| - 1;
    var shorter := RateIsProduct(m, path[..n], loss);
    var last := Factor(m, path[n], loss);
    numbers := shorter + [last];
    assert numbers[..n] == shorter;
    assert Priced(m, path[n]);
    FactorIsWorth(m, path[n], loss);
    forall i | 0 <= i < |path| ensures Worth(m.quotes[path[i].symbol.name], path[i].forward, loss, numbers[i]) {
      if i < n {
        assert path[..n][i] == path[i];
      }
    }
  }

  /** A rate exists exactly when a chain of at most three quoted conversions leads there;
      it is then the product, along a shortest such chain, of what each conversion is
      worth: of a symbol whose base is being converted its bid, or its ask on the losing
      side; of any other the number that its ask, or its bid, times makes one. */
  lemma RateMeans(symbols: seq<Symbol>, quotes: map<string, Quote>, from: string, to: string, loss: bool)
    returns (steps: seq<Symbol>, currencies: seq<string>, numbers: seq<real>)
    ensures var m := Market(symbols, quotes, true);
      match RateFound(symbols, quotes, from, to, loss)
      case None => forall steps, others :: Chain(m, steps, others, from, to) ==> |steps| > 3
      case Some(rate) =>
        && |steps| == |numbers| <= 3 && Chain(m, steps, currencies, from, to) && rate == Product(numbers)
        && (forall shorter, others :: Chain(m, shorter, others, from, to) ==> |steps| <= |shorter|)
        && forall i :: 0 <= i < |steps| ==>
             steps[i].name in quotes && Worth(quotes[steps[i].name], steps[i].base == currencies[i], loss, numbers[i])
  {
    hide Found, Market.Follow, Chain, Worth, Rate, Product;
    var m := Market(symbols, quotes, true);
    steps, numbers := [], [];
    currencies := FoundIsShortestChain(m, from, to);
    if Found(m, from, to).Some? {
      var path := Found(m, from, to).value;
      FoundAnswers(m, from, to);
      FollowedIsPriced(m, path, from);
      steps := Steps(path);
      numbers := RateIsProduct(m, path, loss);
      assert forall i :: 0 <= i < |path| ==> Priced(m, path[i]);
    }
  }

  /** With every spread nonnegative, converting on the losing side never gives
      the lower rate; both rates are positive. */
  lemma {:induction false} LossRateIsNotLower(m: Market, path: seq<Conv>)
    requires AllPriced(m, path)
    requires forall i :: 0 <= i < |path| ==> m.quotes[path[i].symbol.name].ask >= m.quotes[path[i].symbol.name].bid
    ensures 0.0 < Rate(m, path, false) <= Rate(m, path, true)
  {
    if |path| > 0 {
      var shorter, step := path[..|path| - 1], path[|path| - 1];
      LossRateIsNotLower(m, shorter);
      FactorOrder(m.quotes[step.symbol.name].bid, m.quotes[step.symbol.name].ask);
      ProductOrder(Rate(m, shorter, false), Rate(m, shorter, true), Factor(m, step, false), Factor(m, step, true));
    }
  }

  lemma FactorOrder(bid: real, ask: real)
    requires 0.0 < bid <= ask
    ensures 0.0 < 1.0 / ask <= 1.0 / bid
  {
    var a, b := 1.0 / ask, 1.0 / bid;
    assert a * ask == 1.0 && b * bid == 1.0;
    ProductOrder(a * b, a * b, bid, ask);
    Associate(a, b, bid);
    Associate(b, a, ask);
  }

  lemma Associate(a: real, b: real, c: real)
    ensures a * b * c == a * (b * c) && a * b == b * a
  {
  }

  lemma ProductOrder(a: real, b: real, c: real, d: real)
    requires 0.0 < a <= b && 0.0 < c <= d
    ensures 0.0 < a * c <= b * d
  {
    assert a * c <= b * c <= b * d;
  }

  /** The same chain walked back: every step reversed, in the opposite order. */
  function Reversed(path: seq<Conv>): seq<Conv> {
    if |path| == 0 then [] else
    var last := path[|path| - 1];
    [Conv(last.symbol, !last.forward)] + Reversed(path[..|path| - 1])
  }

  lemma RateEnds(m: Market, path: seq<Conv>, loss: bool)
    requires AllPriced(m, path) && |path| > 0
    ensures AllPriced(m, path[1..]) && AllPriced(m, path[..|path| - 1])
    ensures Priced(m, path[|path| - 1])
    ensures Rate(m, path, loss) == Rate(m, path[..|path| - 1], loss) * Factor(m, path[|path| - 1], loss)
  {
    hide Factor;
  }

  lemma NothingToConvert(m: Market, path: seq<Conv>, loss: bool)
    requires |path| == 0
    ensures Reversed(path) == path && AllPriced(m, path) && Rate(m, path, loss) * Rate(m, path, !loss) == 1.0
  {
  }

  lemma BackPriced(m: Market, back: seq<Conv>)
    requires |back| > 0 && Priced(m, back[0]) && AllPriced(m, back[1..])
    ensures AllPriced(m, back)
  {
    hide Priced;
    forall i | 0 <= i < |back| ensures Priced(m, back[i]) {
      assert i > 0 ==> back[i] == back[1..][i - 1];
    }
  }

  lemma RateOfOne(m: Market, path: seq<Conv>, loss: bool)
    requires AllPriced(m, path) && |path| == 1
    ensures Rate(m, path, loss) == Factor(m, path[0], loss) && Rate(m, path[1..], loss) == 1.0
  {
    assert path[..0] == path[1..] == [];
  }

  lemma {:induction false} RateFront(m: Market, path: seq<Conv>, loss: bool)
    requires AllPriced(m, path) && |path| > 0
    ensures AllPriced(m, path[1..])
    ensures Rate(m, path, loss) == Factor(m, path[0], loss) * Rate(m, path[1..], loss)
    decreases |path|
  {
    hide Rate, Factor;
    RateEnds(m, path, loss);
    if |path| > 1 {
      var n := |path| - 1;
      RateEnds(m, path[1..], loss);
      RateFront(m, path[..n], loss);
      assert path[..n][1..] == path[1..][..n - 1];
      Associate(Factor(m, path[0], loss), Rate(m, path[1..][..n - 1], loss), Factor(m, path[n], loss));
    } else {
      RateOfOne(m, path, loss);
    }
  }

  /** Converting there on one side and back on the other gives the amount back. */
  lemma {:induction false} BackAgain(m: Market, path: seq<Conv>, loss: bool)
    requires AllPriced(m, path)
    ensures AllPriced(m, Reversed(path))
    ensures Rate(m, path, loss) * Rate(m, Reversed(path), !loss) == 1.0
    decreases |path|
  {
    hide Rate, Factor, AllPriced;
    if |path| == 0 {
      NothingToConvert(m, path, loss);
    } else {
      var n := |path| - 1;
      var back := Reversed(path);
      RateEnds(m, path, loss);
      BackAgain(m, path[..n], loss);
      assert back[1..] == Reversed(path[..n]);
      Inverses(m, path[n], loss);
      BackPriced(m, back);
      RateFront(m, back, !loss);
      Regroup(Rate(m, path[..n], loss), Factor(m, path[n], loss), Factor(m, back[0], !loss), Rate(m, back[1..], !loss));
    }
  }

  lemma Inverses(m: Market, step: Conv, loss: bool)
    requires Priced(m, step)
    ensures Factor(m, step, loss) * Factor(m, Conv(step.symbol, !step.forward), !loss) == 1.0
  {
  }

  lemma Regroup(a: real, b: real, c: real, d: real)
    requires b * c == 1.0 && a * d == 1.0
    ensures (a * b) * (c * d) == 1.0
  {
    Associate(a * b, c, d);
    Associate(a, b, c);
  }
}
