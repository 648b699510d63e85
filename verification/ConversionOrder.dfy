/** Which of the shortest chains the conversion search finds: the one whose symbols come
    first in the list. */
module ConversionOrder {
  import opened Results
  import opened Conversion

  // ---- the order of chains ------------------------------------------------

  /** At the first place where they differ, `a` has the smaller number. */
  predicate Lex(a: seq<nat>, b: seq<nat>)
    requires |a| == |b|
  {
    |a| > 0 &&
    var n := |a| - 1;
    Lex(a[..n], b[..n]) || (a[..n] == b[..n] && a[n] < b[n])
  }

  lemma {:induction false} LexMeans(a: seq<nat>, b: seq<nat>)
    requires |a| == |b|
    ensures Lex(a, b) <==> exists p :: 0 <= p < |a| && FirstDifference(a, b, p) && a[p] < b[p]
  {
    if |a| > 0 {
      var n := |a| - 1;
      LexMeans(a[..n], b[..n]);
      forall p | 0 <= p < n ensures FirstDifference(a, b, p) <==> FirstDifference(a[..n], b[..n], p) {
        assert forall i :: 0 <= i < n ==> a[..n][i] == a[i] && b[..n][i] == b[i];
      }
      assert FirstDifference(a, b, n) <==> a[..n] == b[..n] && a[n] != b[n];
    }
  }

  predicate FirstDifference(a: seq<nat>, b: seq<nat>, p: nat)
    requires |a| == |b|
  {
    p < |a| && a[p] != b[p] && forall i :: 0 <= i < p ==> a[i] == b[i]
  }

  /** Shorter, or as long and earlier in the order of the list. */
  predicate Less(a: seq<nat>, b: seq<nat>) {
    |a| < |b| || (|a| == |b| && Lex(a, b))
  }

  lemma {:induction false} LexTrans(a: seq<nat>, b: seq<nat>, c: seq<nat>)
    requires |a| == |b| == |c| && Lex(a, b) && Lex(b, c)
    ensures Lex(a, c)
  {
    var n := |a| - 1;
    if Lex(a[..n], b[..n]) && Lex(b[..n], c[..n]) {
      LexTrans(a[..n], b[..n], c[..n]);
    }
  }

  lemma LessTrans(a: seq<nat>, b: seq<nat>, c: seq<nat>)
    requires Less(a, b) && Less(b, c)
    ensures Less(a, c)
  {
    hide Lex;
    if |a| == |b| == |c| {
      LexTrans(a, b, c);
    }
  }

  lemma LessMore(a: seq<nat>, b: seq<nat>, i: nat, j: nat)
    ensures Less(a + [i], b + [j]) <==> Less(a, b) || (a == b && i < j)
  {
    assert (a + [i])[..|a|] == a && (b + [j])[..|b|] == b;
  }

  // ---- chains as numbers --------------------------------------------------

  /** Where the symbols with these numbers lead, one after another. */
  function Reach(m: Market, from: string, chain: seq<nat>): Option<string> {
    if |chain| == 0 then Some(from) else
    var n := |chain| - 1;
    match Reach(m, from, chain[..n])
    case None => None
    case Some(currency) =>
      if chain[n] >= |m.symbols| then None else
      match m.Edge(m.symbols[chain[n]], currency)
      case Some((next, _)) => Some(next)
      case None => None
  }

  function Walk(m: Market, from: string, chain: seq<nat>): (path: seq<Conv>)
    requires Reach(m, from, chain).Some?
  {
    if |chain| == 0 then [] else
    var n := |chain| - 1;
    var s := m.symbols[chain[n]];
    Walk(m, from, chain[..n]) + [Conv(s, m.Edge(s, Reach(m, from, chain[..n]).value).value.1)]
  }

  lemma ReachMore(m: Market, from: string, chain: seq<nat>, k: nat)
    requires Reach(m, from, chain).Some? && k < |m.symbols|
    ensures var edge := m.Edge(m.symbols[k], Reach(m, from, chain).value);
      && Reach(m, from, chain + [k]) == (match edge case Some((next, _)) => Some(next) case None => None)
      && (edge.Some? ==> Walk(m, from, chain + [k]) == Walk(m, from, chain) + [Conv(m.symbols[k], edge.value.1)])
  {
    assert (chain + [k])[..|chain|] == chain;
  }

  /** The first chain to a currency: no other is shorter or earlier in the list. */
  ghost predicate Least(m: Market, from: string, to: string, chain: seq<nat>) {
    Reach(m, from, chain) == Some(to)
    && forall other :: Reach(m, from, other) == Some(to) ==> other == chain || Less(chain, other)
  }

  // ---- the search keeps first chains --------------------------------------

  type Chains = map<string, seq<nat>>

  ghost predicate Known(m: Market, from: string, chains: Chains) {
    from in chains && chains[from] == [] && forall c :: c in chains ==> Least(m, from, c, chains[c])
  }

  /** The queue holds first chains in order, none further on than a step from the head's. */
  ghost predicate Waiting(m: Market, from: string, queue: seq<Entry>, chains: Chains) {
    && (forall i :: 0 <= i < |queue| ==>
          queue[i].0 in chains && Reach(m, from, chains[queue[i].0]).Some?
          && queue[i].1 == Walk(m, from, chains[queue[i].0]) && |queue[i].1| == |chains[queue[i].0]|)
    && forall i, j :: 0 <= i < j < |queue| ==> Less(chains[queue[i].0], chains[queue[j].0])
  }

  /** Every chain in the queue is after `chain`. */
  ghost predicate AllAfter(queue: seq<Entry>, chains: Chains, chain: seq<nat>) {
    forall i :: 0 <= i < |queue| ==> queue[i].0 in chains && Less(chain, chains[queue[i].0])
  }

  /** Every chain in the queue is before `chain`. */
  ghost predicate AllBefore(queue: seq<Entry>, chains: Chains, chain: seq<nat>) {
    forall i :: 0 <= i < |queue| ==> queue[i].0 in chains && Less(chains[queue[i].0], chain)
  }

  ghost predicate Tried(m: Market, chains: Chains, c: string, k: nat)
    requires k <= |m.symbols|
  {
    forall j :: 0 <= j < k && m.Edge(m.symbols[j], c).Some? ==> m.Edge(m.symbols[j], c).value.0 in chains
  }

  /** Whatever is known is the head, waits, is at the last level, or has been tried with
      every symbol. */
  ghost predicate Handled(m: Market, queue: seq<Entry>, chains: Chains, head: Option<string>) {
    forall c :: c in chains ==>
      head == Some(c) || Queued(queue, c) || |chains[c]| >= MAX_STEPS || Tried(m, chains, c, |m.symbols|)
  }

  /** A chain to a known currency that has not been tried with everything is not before
      the head's. */
  lemma NotBefore(m: Market, from: string, queue: seq<Entry>, chains: Chains, head: string, c: string, chain: seq<nat>)
    requires Known(m, from, chains) && Handled(m, queue, chains, Some(head)) && head in chains
    requires |chains[head]| < MAX_STEPS && AllAfter(queue, chains, chains[head])
    requires c in chains && Reach(m, from, chain) == Some(c) && !Tried(m, chains, c, |m.symbols|)
    ensures Less(chains[head], chain) || (c == head && chain == chains[head])
  {
    hide Tried, Less, Reach;
    assert Least(m, from, c, chains[c]);
    if c != head {
      if Queued(queue, c) {
        var i :| 0 <= i < |queue| && queue[i].0 == c;
        assert Less(chains[head], chains[c]);
      } else {
        Longer(chains[head], chains[c]);
      }
      if chain != chains[c] {
        LessTrans(chains[head], chains[c], chain);
      }
    }
  }

  lemma Longer(a: seq<nat>, b: seq<nat>)
    ensures |a| < |b| ==> Less(a, b)
    ensures Less(a, b) ==> |a| <= |b|
  {
  }

  /** A chain to an unknown currency is longer than the head's. */
  lemma {:induction false} UnknownIsFurther(m: Market, from: string, queue: seq<Entry>, chains: Chains, head: string,
                                            chain: seq<nat>)
    requires Known(m, from, chains) && Handled(m, queue, chains, Some(head)) && head in chains
    requires |chains[head]| < MAX_STEPS && AllAfter(queue, chains, chains[head])
    requires Reach(m, from, chain).Some? && Reach(m, from, chain).value !in chains
    ensures |chain| > |chains[head]|
  {
    hide Handled, AllAfter, Less, Least;
    var n := |chain| - 1;
    var before := Reach(m, from, chain[..n]).value;
    assert m.Edge(m.symbols[chain[n]], before).Some?;
    if before in chains {
      assert !Tried(m, chains, before, |m.symbols|);
      NotBefore(m, from, queue, chains, head, before, chain[..n]);
      Longer(chains[head], chain[..n]);
    } else {
      UnknownIsFurther(m, from, queue, chains, head, chain[..n]);
    }
  }

  /** A currency that the head reaches first by symbol `k` is reached first that way. */
  lemma Discovered(m: Market, from: string, queue: seq<Entry>, chains: Chains, head: string, k: nat, next: string)
    requires Known(m, from, chains) && Handled(m, queue, chains, Some(head)) && head in chains
    requires |chains[head]| < MAX_STEPS && AllAfter(queue, chains, chains[head])
    requires k < |m.symbols| && Tried(m, chains, head, k) && next !in chains
    requires m.Edge(m.symbols[k], head).Some? && m.Edge(m.symbols[k], head).value.0 == next
    ensures Least(m, from, next, chains[head] + [k])
  {
    hide Handled, AllAfter, Less, Reach, Tried;
    var first := chains[head];
    assert Least(m, from, head, first);
    LeastReaches(m, from, head, first);
    ReachMore(m, from, first, k);
    forall other | Reach(m, from, other) == Some(next) ensures other == first + [k] || Less(first + [k], other) {
      NoneEarlier(m, from, queue, chains, head, k, next, other);
    }
  }

  lemma NoneEarlier(m: Market, from: string, queue: seq<Entry>, chains: Chains, head: string, k: nat, next: string,
                    other: seq<nat>)
    requires Known(m, from, chains) && Handled(m, queue, chains, Some(head)) && head in chains
    requires |chains[head]| < MAX_STEPS && AllAfter(queue, chains, chains[head])
    requires k < |m.symbols| && Tried(m, chains, head, k) && next !in chains && Reach(m, from, other) == Some(next)
    ensures other == chains[head] + [k] || Less(chains[head] + [k], other)
  {
    hide Handled, AllAfter, Less, Reach, Least;
    var first := chains[head];
    LastStep(m, from, other, next);
    var n := |other| - 1;
    var before := Reach(m, from, other[..n]).value;
    assert other[..n] + [other[n]] == other;
    LessMore(first, other[..n], k, other[n]);
    if before in chains {
      assert !Tried(m, chains, before, |m.symbols|);
      NotBefore(m, from, queue, chains, head, before, other[..n]);
    } else {
      UnknownIsFurther(m, from, queue, chains, head, other[..n]);
      Longer(first, other[..n]);
    }
  }

  lemma LastStep(m: Market, from: string, chain: seq<nat>, to: string)
    requires Reach(m, from, chain) == Some(to) && to != from
    ensures |chain| > 0 && Reach(m, from, chain[..|chain| - 1]).Some? && chain[|chain| - 1] < |m.symbols|
    ensures var edge := m.Edge(m.symbols[chain[|chain| - 1]], Reach(m, from, chain[..|chain| - 1]).value);
      edge.Some? && edge.value.0 == to
  {
  }

  lemma Joins(m: Market, from: string, queue: seq<Entry>, chains: Chains, head: string, k: nat, next: string, e: Entry)
    requires Known(m, from, chains) && Waiting(m, from, queue, chains) && Handled(m, queue, chains, Some(head))
    requires head in chains && AllAfter(queue, chains, chains[head]) && AllBefore(queue, chains, chains[head] + [k])
    requires k < |m.symbols| && Tried(m, chains, head, k) && next !in chains && Least(m, from, next, chains[head] + [k])
    requires e.0 == next && e.1 == Walk(m, from, chains[head] + [k]) && |e.1| == |chains[head]| + 1
    ensures var (longer, more) := (queue + [e], chains[next := chains[head] + [k]]);
      && Known(m, from, more) && Waiting(m, from, longer, more) && Handled(m, longer, more, Some(head))
      && more[head] == chains[head] && AllAfter(longer, more, more[head])
      && AllBefore(longer, more, more[head] + [k + 1])
      && Tried(m, more, head, k)
  {
    hide Less, Least, Reach, Walk;
    var first := chains[head];
    var longer, more := queue + [e], chains[next := first + [k]];
    assert longer[|queue|] == e && forall i :: 0 <= i < |queue| ==> longer[i] == queue[i];
    LessMore(first, first, k, k + 1);
    Longer(first, first + [k]);
    forall i | 0 <= i < |queue| ensures Less(chains[queue[i].0], first + [k + 1]) {
      LessTrans(chains[queue[i].0], first + [k], first + [k + 1]);
    }
    forall c | Queued(queue, c) ensures Queued(longer, c) {
      var i :| 0 <= i < |queue| && queue[i].0 == c;
      assert longer[i].0 == c;
    }
    assert Queued(longer, next);
    LeastReaches(m, from, next, first + [k]);
  }

  lemma LeastReaches(m: Market, from: string, c: string, chain: seq<nat>)
    requires Least(m, from, c, chain)
    ensures Reach(m, from, chain) == Some(c)
  {
  }

  lemma NextBound(queue: seq<Entry>, chains: Chains, chain: seq<nat>, k: nat)
    requires AllBefore(queue, chains, chain + [k])
    ensures AllBefore(queue, chains, chain + [k + 1])
  {
    hide Less;
    LessMore(chain, chain, k, k + 1);
    forall i | 0 <= i < |queue| ensures Less(chains[queue[i].0], chain + [k + 1]) {
      LessTrans(chains[queue[i].0], chain + [k], chain + [k + 1]);
    }
  }

  lemma TriedMore(m: Market, chains: Chains, c: string, k: nat)
    requires k < |m.symbols| && Tried(m, chains, c, k)
    requires m.Edge(m.symbols[k], c).Some? ==> m.Edge(m.symbols[k], c).value.0 in chains
    ensures Tried(m, chains, c, k + 1)
  {
  }

  lemma TriedGrows(m: Market, chains: Chains, c: string, next: string, chain: seq<nat>, k: nat)
    requires k <= |m.symbols| && Tried(m, chains, c, k)
    ensures Tried(m, chains[next := chain], c, k)
  {
  }

  lemma {:induction false} TriesInOrder(m: Market, from: string, head: string, path: seq<Conv>, k: nat,
                                        queue: seq<Entry>, visited: set<string>, chains: Chains) returns (after: Chains)
    requires k <= |m.symbols| && visited == chains.Keys && head in chains && |chains[head]| < MAX_STEPS
    requires Known(m, from, chains) && Waiting(m, from, queue, chains) && Handled(m, queue, chains, Some(head))
    requires AllAfter(queue, chains, chains[head]) && AllBefore(queue, chains, chains[head] + [k])
    requires Tried(m, chains, head, k)
    requires Reach(m, from, chains[head]) == Some(head) && path == Walk(m, from, chains[head])
    requires |path| == |chains[head]|
    ensures var (longer, more) := Tries(m, head, path, k, queue, visited);
      && more == after.Keys && Known(m, from, after) && Waiting(m, from, longer, after)
      && Handled(m, longer, after, None) && head in after && after[head] == chains[head]
      && AllAfter(longer, after, after[head]) && AllBefore(longer, after, after[head] + [|m.symbols|])
    decreases |m.symbols| - k
  {
    hide Known, Waiting, Handled, AllAfter, AllBefore, Tried, Tries, Market.Edge, Reach, Walk, Least;
    TriesUnfold(m, head, path, k, queue, visited);
    if k == |m.symbols| {
      HeadHandled(m, queue, chains, head);
      return chains;
    }
    NextBound(queue, chains, chains[head], k);
    var edge := m.Edge(m.symbols[k], head);
    if edge.Some? && edge.value.0 !in visited {
      var (next, forward) := edge.value;
      var e: Entry := (next, path + [Conv(m.symbols[k], forward)]);
      Discovered(m, from, queue, chains, head, k, next);
      ReachMore(m, from, chains[head], k);
      Joins(m, from, queue, chains, head, k, next, e);
      var more := chains[next := chains[head] + [k]];
      TriedMore(m, more, head, k);
      after := TriesInOrder(m, from, head, path, k + 1, queue + [e], visited + {next}, more);
    } else {
      TriedMore(m, chains, head, k);
      after := TriesInOrder(m, from, head, path, k + 1, queue, visited, chains);
    }
  }

  lemma HeadHandled(m: Market, queue: seq<Entry>, chains: Chains, head: string)
    requires Handled(m, queue, chains, Some(head)) && Tried(m, chains, head, |m.symbols|)
    ensures Handled(m, queue, chains, None)
  {
    hide Tried;
  }

  lemma LastHandled(m: Market, queue: seq<Entry>, chains: Chains, head: string)
    requires Handled(m, queue, chains, Some(head)) && head in chains && |chains[head]| >= MAX_STEPS
    ensures Handled(m, queue, chains, None)
  {
    hide Tried;
  }

  lemma Taken(m: Market, from: string, queue: seq<Entry>, chains: Chains)
    requires |queue| > 0 && Waiting(m, from, queue, chains) && Handled(m, queue, chains, None)
    requires queue[0].0 in chains && AllBefore(queue, chains, chains[queue[0].0] + [0])
    ensures Waiting(m, from, queue[1..], chains) && Handled(m, queue[1..], chains, Some(queue[0].0))
    ensures AllAfter(queue[1..], chains, chains[queue[0].0])
    ensures AllBefore(queue[1..], chains, chains[queue[0].0] + [0])
  {
    hide Less, Tried, Reach, Walk;
    assert forall i :: 0 <= i < |queue| - 1 ==> queue[1..][i] == queue[i + 1];
    forall c | Queued(queue, c) && c != queue[0].0 ensures Queued(queue[1..], c) {
      var i :| 0 <= i < |queue| && queue[i].0 == c;
      assert queue[1..][i - 1].0 == c;
    }
  }

  /** What was before a step from the old head is before a step from the new one. */
  lemma NewHead(queue: seq<Entry>, chains: Chains, passed: seq<nat>, k: nat)
    requires |queue| > 0 && AllAfter(queue, chains, passed) && AllBefore(queue, chains, passed + [k])
    ensures queue[0].0 in chains && AllBefore(queue, chains, chains[queue[0].0] + [0])
  {
    hide Less;
    var head := chains[queue[0].0];
    assert Less(passed, head);
    LessMore(passed, head, k, 0);
    forall i | 0 <= i < |queue| ensures Less(chains[queue[i].0], head + [0]) {
      LessTrans(chains[queue[i].0], passed + [k], head + [0]);
    }
  }

  lemma {:induction false} SearchInOrder(m: Market, from: string, to: string, queue: seq<Entry>, visited: set<string>,
                                         chains: Chains) returns (chain: seq<nat>)
    requires visited == chains.Keys && Known(m, from, chains) && Waiting(m, from, queue, chains)
    requires Handled(m, queue, chains, None)
    requires |queue| > 0 ==> queue[0].0 in chains && AllBefore(queue, chains, chains[queue[0].0] + [0])
    ensures match Search(m, to, queue, visited)
      case Some(path) => Least(m, from, to, chain) && Reach(m, from, chain).Some? && path == Walk(m, from, chain)
      case None => true
    decreases |Currencies(m.symbols) - visited|, |queue|
  {
    hide Known, Waiting, Handled, AllAfter, AllBefore, Currencies, Tries, Reach, Walk, Least;
    if |queue| == 0 {
      return [];
    }
    var (head, path) := queue[0];
    HeadKnown(m, from, queue, chains);
    if head == to {
      return chains[head];
    }
    Taken(m, from, queue, chains);
    if |path| >= MAX_STEPS {
      LastHandled(m, queue[1..], chains, head);
      if |queue| > 1 {
        NewHead(queue[1..], chains, chains[head], 0);
      }
      chain := SearchInOrder(m, from, to, queue[1..], visited, chains);
    } else {
      NothingTried(m, chains, head);
      var (longer, more) := Tries(m, head, path, 0, queue[1..], visited);
      LessLeft(Currencies(m.symbols), visited, more);
      var after := TriesInOrder(m, from, head, path, 0, queue[1..], visited, chains);
      if |longer| > 0 {
        NewHead(longer, after, after[head], |m.symbols|);
      }
      chain := SearchInOrder(m, from, to, longer, more, after);
    }
  }

  lemma HeadKnown(m: Market, from: string, queue: seq<Entry>, chains: Chains)
    requires |queue| > 0 && Known(m, from, chains) && Waiting(m, from, queue, chains)
    ensures var (head, path) := queue[0];
      && head in chains && Least(m, from, head, chains[head]) && Reach(m, from, chains[head]) == Some(head)
      && path == Walk(m, from, chains[head]) && |path| == |chains[head]|
  {
    hide Less;
  }

  lemma NothingTried(m: Market, chains: Chains, c: string)
    ensures Tried(m, chains, c, 0)
  {
  }

  lemma AtStart(m: Market, from: string)
    ensures var queue: seq<Entry>, chains: Chains := [(from, [])], map[from := []];
      && Known(m, from, chains) && Waiting(m, from, queue, chains) && Handled(m, queue, chains, None)
      && AllBefore(queue, chains, [] + [0])
  {
    var queue: seq<Entry> := [(from, [])];
    assert queue[0].0 == from;
    assert Queued(queue, from);
    Longer([], [0]);
    assert Reach(m, from, []) == Some(from) && Walk(m, from, []) == [];
    forall other ensures other == [] || Less([], other) {
      Longer([], other);
    }
  }

  /** Of all chains between two currencies the search finds the first: the shortest and,
      of several as short, the one that uses the earlier symbol of the list where they
      first differ. */
  lemma FirstChainFound(m: Market, from: string, to: string) returns (chain: seq<nat>)
    ensures match Found(m, from, to)
      case Some(path) =>
        && Reach(m, from, chain) == Some(to) && path == Walk(m, from, chain)
        && forall other :: Reach(m, from, other) == Some(to) ==>
             other == chain || |chain| < |other| || (|chain| == |other| && Lex(chain, other))
      case None => true
  {
    hide Known, Waiting, Handled, AllBefore, Search, Walk, Lex;
    AtStart(m, from);
    chain := SearchInOrder(m, from, to, [(from, [])], {from}, map[from := []]);
  }
}
