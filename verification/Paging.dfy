/** Paging backwards through bar history, one dated request at a time. */
module Paging {
  import opened Results
  import opened Bars
  import opened Calendar

  const MAX_PAGES: nat := 256

  /** A reply: groups of bars, each for a symbol. */
  type Page = seq<(string, seq<Bar>)>

  /** The bars with times in the half-open range, in the order received. */
  function InRange(bars: seq<Bar>, from: int, to: int): seq<Bar> {
    if |bars| == 0 then [] else
    var last := bars[|bars| - 1];
    InRange(bars[..|bars| - 1], from, to) + if from <= last.time < to then [last] else []
  }

  function History(received: seq<Bar>, from: int, to: int): seq<Bar> {
    InOrder(ByTime(InRange(received, from, to)))
  }

  lemma {:induction false} InRangeLatest(bars: seq<Bar>, from: int, to: int, time: int)
    ensures Latest(InRange(bars, from, to), time) == if from <= time < to then Latest(bars, time) else None
  {
    if |bars| > 0 {
      var n := |bars| - 1;
      var rest := InRange(bars[..n], from, to);
      InRangeLatest(bars[..n], from, to, time);
      assert (rest + [bars[n]])[..|rest|] == rest;
      assert rest + [] == rest;
    }
  }

  /** A history has strictly increasing times inside the range, and holds exactly
      the last bar received for each time in it. */
  lemma HistoryMeans(received: seq<Bar>, from: int, to: int)
    ensures Increasing(History(received, from, to))
    ensures forall b :: b in History(received, from, to) <==> from <= b.time < to && Latest(received, b.time) == Some(b)
  {
    hide InOrder, ByTime, Latest, InRange, Increasing;
    var kept := InRange(received, from, to);
    HistoryIsLatest(kept);
    forall t ensures Latest(kept, t) == if from <= t < to then Latest(received, t) else None {
      InRangeLatest(received, from, to, t);
    }
  }

  lemma Inserted(received: seq<Bar>, b: Bar, from: int, to: int)
    ensures ByTime(InRange(received + [b], from, to)) ==
            if from <= b.time < to then ByTime(InRange(received, from, to))[b.time := b]
            else ByTime(InRange(received, from, to))
  {
    var kept := InRange(received, from, to);
    assert (received + [b])[..|received|] == received;
    assert (kept + [b])[..|kept|] == kept && kept + [] == kept;
  }

  function PageBars(page: Page): seq<Bar> {
    if |page| == 0 then [] else PageBars(page[..|page| - 1]) + page[|page| - 1].1
  }

  /** The bars of the first `n` replies. */
  function Received(replies: seq<Result<Page>>, n: nat): seq<Bar>
    requires n <= |replies| && forall i :: 0 <= i < n ==> replies[i].Ok?
  {
    if n == 0 then [] else Received(replies, n - 1) + PageBars(replies[n - 1].value)
  }

  predicate OwnGroups(page: Page, symbol: string) {
    forall g :: g in page ==> g.0 == symbol
  }

  function Earliest(bars: seq<Bar>, before: int): int {
    if |bars| == 0 then before else
    var rest, time := Earliest(bars[..|bars| - 1], before), bars[|bars| - 1].time;
    if time < rest then time else rest
  }

  /** How many pages a request takes, from page `n` on, or its failure: a second
      without a date, a failed request, a foreign symbol, a page that does not
      reach further back, or too many pages. */
  function Pages(symbol: string, from: int, replies: seq<Result<Page>>, before: int, n: nat): (r: Result<nat>)
    ensures r.Ok? ==> n < r.value <= |replies| && r.value <= MAX_PAGES
    ensures r.Ok? ==> forall i :: n <= i < r.value ==> replies[i].Ok?
    decreases MAX_PAGES - n
  {
    if n >= MAX_PAGES || DateAt(before).Err? || n >= |replies| || replies[n].Err? then Err
    else if !OwnGroups(replies[n].value, symbol) then Err
    else
      var bars := PageBars(replies[n].value);
      var oldest := Earliest(bars, before);
      if bars == [] || oldest <= from then Ok(n + 1)
      else if oldest >= before then Err
      else Pages(symbol, from, replies, oldest - 1, n + 1)
  }

  /** The seconds asked about, from page `n` on: each request names the date of one
      of them, also a request that fails; after a page that reaches further back,
      the next is the second before its earliest bar. */
  function Asked(symbol: string, from: int, replies: seq<Result<Page>>, before: int, n: nat): seq<int>
    decreases MAX_PAGES - n
  {
    if n >= MAX_PAGES || DateAt(before).Err? then []
    else if n >= |replies| || replies[n].Err? || !OwnGroups(replies[n].value, symbol) then [before]
    else
      var bars := PageBars(replies[n].value);
      var oldest := Earliest(bars, before);
      if bars == [] || oldest <= from || oldest >= before then [before]
      else [before] + Asked(symbol, from, replies, oldest - 1, n + 1)
  }

  /** The earliest time on a page, or `before` when nothing on it is earlier. */
  predicate Oldest(bars: seq<Bar>, before: int, oldest: int) {
    && oldest <= before
    && (forall b :: b in bars ==> oldest <= b.time)
    && (oldest < before ==> exists b :: b in bars && b.time == oldest)
  }

  /** Everything a page brings; any other symbol's group is an error. */
  method TakePage(page: Page, symbol: string, before: int, from: int, to: int, bars0: map<int, Bar>,
                  ghost received: seq<Bar>)
    returns (r: Result<(map<int, Bar>, int, bool)>)
    requires bars0 == ByTime(InRange(received, from, to))
    ensures r.Ok? <==> OwnGroups(page, symbol)
    ensures r.Ok? ==>
      var (bars, oldest, found) := r.value;
      && bars == ByTime(InRange(received + PageBars(page), from, to))
      && oldest == Earliest(PageBars(page), before) && (found <==> PageBars(page) != [])
  {
    hide ByTime, InRange, Earliest, PageBars;
    var bars, oldest, found := bars0, before, false;
    assert received + [] == received;
    NothingYet(before);
    assert page[..0] == [];
    for g := 0 to |page|
      invariant forall h :: 0 <= h < g ==> page[h].0 == symbol
      invariant bars == ByTime(InRange(received + PageBars(page[..g]), from, to))
      invariant oldest == Earliest(PageBars(page[..g]), before) && (found <==> PageBars(page[..g]) != [])
    {
      var (name, group) := page[g];
      if name != symbol {
        assert page[g] in page;
        return Err;
      }
      ghost var start := PageBars(page[..g]);
      GroupMore(page, g);
      assert start + group[..0] == start;
      for i := 0 to |group|
        invariant bars == ByTime(InRange(received + (start + group[..i]), from, to))
        invariant oldest == Earliest(start + group[..i], before) && (found <==> start + group[..i] != [])
      {
        var bar := group[i];
        ghost var so := start + group[..i];
        assert start + group[..i + 1] == so + [bar] && received + (so + [bar]) == received + so + [bar];
        Inserted(received + so, bar, from, to);
        EarliestMore(so, bar, before);
        found := true;
        if bar.time < oldest {
          oldest := bar.time;
        }
        if from <= bar.time < to {
          bars := bars[bar.time := bar];
        }
      }
      assert group[..|group|] == group;
    }
    assert page[..|page|] == page;
    return Ok((bars, oldest, found));
  }

  lemma NothingYet(before: int)
    ensures PageBars([]) == [] && Earliest([], before) == before
  {
  }

  lemma GroupMore(page: Page, g: nat)
    requires g < |page|
    ensures PageBars(page[..g + 1]) == PageBars(page[..g]) + page[g].1
  {
    assert page[..g + 1][..g] == page[..g];
  }

  lemma EarliestMore(bars: seq<Bar>, bar: Bar, before: int)
    ensures Earliest(bars + [bar], before) ==
            if bar.time < Earliest(bars, before) then bar.time else Earliest(bars, before)
  {
    assert (bars + [bar])[..|bars|] == bars;
  }

  lemma {:induction false} EarliestIsOldest(bars: seq<Bar>, before: int)
    ensures Oldest(bars, before, Earliest(bars, before))
  {
    if |bars| > 0 {
      var n := |bars| - 1;
      EarliestIsOldest(bars[..n], before);
      assert forall b :: b in bars ==> b in bars[..n] || b == bars[n];
    }
  }

  /** An unknown symbol is refused before anything else. */
  function Answer(known: set<string>, symbol: string, from: int, to: int, replies: seq<Result<Page>>):
    Result<seq<Bar>>
  {
    if symbol !in known then Err
    else if from >= to then Ok([]) else
    var n :- Pages(symbol, from, replies, to - 1, 0);
    Ok(History(Received(replies, n), from, to))
  }

  predicate Descending(asked: seq<int>) {
    forall i, j :: 0 <= i < j < |asked| ==> asked[i] > asked[j]
  }

  /** Whatever the replies, each request asks for a strictly earlier second than the
      one before, all of them have a date, and there are at most as many requests
      as pages allowed and one more than replies. */
  lemma {:induction false} RequestsDescend(symbol: string, from: int, replies: seq<Result<Page>>, before: int, n: nat)
    requires n <= |replies|
    ensures var asked := Asked(symbol, from, replies, before, n);
      && Descending(asked) && (|asked| > 0 ==> asked[0] == before)
      && (forall a :: a in asked ==> a <= before && DateAt(a).Ok?)
      && (n <= 256 ==> n + |asked| <= 256) && n + |asked| <= |replies| + 1
    decreases MAX_PAGES - n
  {
    hide DateAt, PageBars, OwnGroups, Earliest;
    AskedUnfold(symbol, from, replies, before, n);
    if n < MAX_PAGES && n < |replies| && replies[n].Ok? {
      var oldest := Earliest(PageBars(replies[n].value), before);
      if oldest < before {
        RequestsDescend(symbol, from, replies, oldest - 1, n + 1);
        var later := Asked(symbol, from, replies, oldest - 1, n + 1);
        assert forall i :: 0 <= i < |later| ==> later[i] in later;
      }
    }
  }

  /** A page that leads on: it has bars, all after the start, and the next request is for
      the second before its earliest bar, which is earlier than what was asked for. */
  predicate LeadsOn(bars: seq<Bar>, from: int, now: int, next: int) {
    && now > from && next + 1 < now
    && (forall b :: b in bars ==> b.time > from && b.time >= next + 1) && exists b :: b in bars && b.time == next + 1
  }

  /** A page that ends the paging: it is empty, was asked for at the start or earlier, or
      has a bar there. */
  predicate EndsAt(bars: seq<Bar>, from: int, now: int) {
    bars == [] || now <= from || exists b :: b in bars && b.time <= from
  }

  predicate OwnPage(replies: seq<Result<Page>>, i: nat, symbol: string) {
    i < |replies| && replies[i].Ok? && OwnGroups(replies[i].value, symbol)
  }

  /** Request `i` of those made from page `n` on was answered by a page that led to the
      request after it. */
  predicate Led(symbol: string, from: int, replies: seq<Result<Page>>, n: nat, asked: seq<int>, i: nat) {
    i + 1 < |asked| && OwnPage(replies, n + i, symbol)
    && LeadsOn(PageBars(replies[n + i].value), from, asked[i], asked[i + 1])
  }

  /** The last request was answered by a page that ends the paging. */
  predicate Ended(symbol: string, from: int, replies: seq<Result<Page>>, n: nat, asked: seq<int>) {
    |asked| > 0 && OwnPage(replies, n + |asked| - 1, symbol)
    && EndsAt(PageBars(replies[n + |asked| - 1].value), from, asked[|asked| - 1])
  }

  lemma LedLater(symbol: string, from: int, replies: seq<Result<Page>>, n: nat, m: nat, now: int, later: seq<int>,
                 i: nat)
    requires m == n + 1
    ensures i > 0 && Led(symbol, from, replies, m, later, i - 1) ==> Led(symbol, from, replies, n, [now] + later, i)
    ensures |later| > 0 ==>
      (Ended(symbol, from, replies, n, [now] + later) <==> Ended(symbol, from, replies, m, later))
  {
    hide PageBars, OwnGroups, LeadsOn, EndsAt;
    var asked := [now] + later;
    assert 0 < i < |later| ==> asked[i] == later[i - 1] && asked[i + 1] == later[i] && n + i == m + (i - 1);
    assert |later| > 0 ==> asked[|asked| - 1] == later[|later| - 1] && n + |asked| - 1 == m + |later| - 1;
  }

  /** Every page but the last leads on, to exactly the next request; and the paging
      succeeds if and only if the last page is the symbol's own and ends it. */
  lemma {:induction false} PagesExactly(symbol: string, from: int, replies: seq<Result<Page>>, before: int, n: nat)
    ensures var asked := Asked(symbol, from, replies, before, n);
      && (forall i: nat :: i < |asked| - 1 ==> Led(symbol, from, replies, n, asked, i))
      && (Pages(symbol, from, replies, before, n).Ok? <==> Ended(symbol, from, replies, n, asked))
    decreases MAX_PAGES - n
  {
    hide DateAt, PageBars, OwnGroups, Earliest, LeadsOn, EndsAt, Pages, Asked, Led, Ended;
    AskedUnfold(symbol, from, replies, before, n);
    PagesUnfold(symbol, from, replies, before, n);
    var asked := Asked(symbol, from, replies, before, n);
    EndedMeans(symbol, from, replies, n, asked);
    if n < MAX_PAGES && DateAt(before).Ok? && OwnPage(replies, n, symbol) {
      var bars := PageBars(replies[n].value);
      var oldest := Earliest(bars, before);
      PageDecides(bars, from, before);
      if bars != [] && from < oldest < before {
        var later := Asked(symbol, from, replies, oldest - 1, n + 1);
        PagesExactly(symbol, from, replies, oldest - 1, n + 1);
        NextAsked(symbol, from, replies, oldest - 1, n + 1);
        LedLater(symbol, from, replies, n, n + 1, before, later, 0);
        FirstLed(symbol, from, replies, n, asked);
        forall i: nat | i < |asked| - 1 ensures Led(symbol, from, replies, n, asked, i) {
          LedLater(symbol, from, replies, n, n + 1, before, later, i);
        }
        EndedMeans(symbol, from, replies, n + 1, later);
      }
    }
  }

  lemma FirstLed(symbol: string, from: int, replies: seq<Result<Page>>, n: nat, asked: seq<int>)
    requires |asked| > 1 ==>
      OwnPage(replies, n, symbol) && LeadsOn(PageBars(replies[n].value), from, asked[0], asked[1])
    ensures |asked| > 1 ==> Led(symbol, from, replies, n, asked, 0)
  {
    hide PageBars, OwnGroups, LeadsOn;
  }

  lemma EndedMeans(symbol: string, from: int, replies: seq<Result<Page>>, n: nat, asked: seq<int>)
    ensures |asked| == 0 ==> !Ended(symbol, from, replies, n, asked)
    ensures |asked| == 1 ==>
      (Ended(symbol, from, replies, n, asked) <==>
       OwnPage(replies, n, symbol) && EndsAt(PageBars(replies[n].value), from, asked[0]))
  {
    hide PageBars, OwnGroups, EndsAt;
  }

  lemma PagesUnfold(symbol: string, from: int, replies: seq<Result<Page>>, before: int, n: nat)
    ensures Pages(symbol, from, replies, before, n) ==
      if n >= MAX_PAGES || DateAt(before).Err? || !OwnPage(replies, n, symbol) then Err else
      var bars := PageBars(replies[n].value);
      var oldest := Earliest(bars, before);
      if bars == [] || oldest <= from then Ok(n + 1)
      else if oldest >= before then Err
      else Pages(symbol, from, replies, oldest - 1, n + 1)
  {
    hide DateAt, PageBars, OwnGroups, Earliest;
  }

  lemma NextAsked(symbol: string, from: int, replies: seq<Result<Page>>, before: int, n: nat)
    ensures var asked := Asked(symbol, from, replies, before, n); |asked| > 0 ==> asked[0] == before
    ensures |Asked(symbol, from, replies, before, n)| == 0 ==> Pages(symbol, from, replies, before, n).Err?
  {
    hide DateAt, PageBars, OwnGroups, Earliest;
  }

  lemma PageDecides(bars: seq<Bar>, from: int, before: int)
    ensures var oldest := Earliest(bars, before);
      && (EndsAt(bars, from, before) <==> bars == [] || oldest <= from)
      && (bars != [] && from < oldest < before ==> LeadsOn(bars, from, before, oldest - 1))
  {
    hide Earliest;
    EarliestIsOldest(bars, before);
  }

  lemma AskedUnfold(symbol: string, from: int, replies: seq<Result<Page>>, before: int, n: nat)
    ensures Asked(symbol, from, replies, before, n) ==
      if n >= MAX_PAGES || DateAt(before).Err? then []
      else if n >= |replies| || replies[n].Err? || !OwnGroups(replies[n].value, symbol) then [before]
      else
        var bars := PageBars(replies[n].value);
        var oldest := Earliest(bars, before);
        if bars == [] || oldest <= from || oldest >= before then [before]
        else [before] + Asked(symbol, from, replies, oldest - 1, n + 1)
  {
    hide DateAt, PageBars, OwnGroups, Earliest;
  }

  /** Paging that succeeds made one request for each page it took, and its last
      request was for the start or earlier, or was answered by an empty page or one
      with a bar at or before the start. */
  lemma {:induction false} PagesReachStart(symbol: string, from: int, replies: seq<Result<Page>>, before: int, n: nat)
    requires Pages(symbol, from, replies, before, n).Ok?
    ensures var asked, pages := Asked(symbol, from, replies, before, n), Pages(symbol, from, replies, before, n).value;
      && 0 < |asked| == pages - n
      && var last := PageBars(replies[pages - 1].value);
         last == [] || asked[|asked| - 1] <= from || exists b :: b in last && b.time <= from
    decreases MAX_PAGES - n
  {
    hide DateAt, PageBars, OwnGroups, Earliest;
    var bars := PageBars(replies[n].value);
    var oldest := Earliest(bars, before);
    EarliestIsOldest(bars, before);
    if bars != [] && oldest > from {
      PagesReachStart(symbol, from, replies, oldest - 1, n + 1);
    }
  }

  /** The answer, and the seconds whose dates were asked for on the way to it; `known`
      are the names of the client's symbols. */
  method BarsBetween(known: set<string>, symbol: string, from: int, to: int, replies: seq<Result<Page>>)
    returns (r: Result<seq<Bar>>, ghost asked: seq<int>)
    ensures r == Answer(known, symbol, from, to, replies)
    ensures asked == if symbol !in known || from >= to then [] else Asked(symbol, from, replies, to - 1, 0)
  {
    hide DateAt, InOrder, ByTime, InRange, PageBars, OwnGroups, Earliest, Pages, Received, Asked;
    asked := [];
    NothingKept(from, to);
    PageLimits(symbol, from, replies, to);
    if symbol !in known {
      return Err, asked;
    }
    if from >= to {
      return Ok([]), asked;
    }
    var bars: map<int, Bar> := map[];
    var before := to - 1;
    for n := 0 to MAX_PAGES
      invariant n <= |replies|
      invariant asked + Asked(symbol, from, replies, before, n) == Asked(symbol, from, replies, to - 1, 0)
      invariant forall i :: 0 <= i < n ==> replies[i].Ok?
      invariant Pages(symbol, from, replies, to - 1, 0) == Pages(symbol, from, replies, before, n)
      invariant bars == ByTime(InRange(Received(replies, n), from, to))
    {
      var day := DateAt(before);
      Unfold(symbol, from, replies, before, n);
      AskedNext(asked, symbol, from, replies, before, n);
      if day.Err? {
        return Err, asked;
      }
      asked := asked + [before];
      if n >= |replies| || replies[n].Err? {
        return Err, asked;
      }
      var taken := TakePage(replies[n].value, symbol, before, from, to, bars, Received(replies, n));
      if taken.Err? {
        return Err, asked;
      }
      var oldest, found := taken.value.1, taken.value.2;
      bars := taken.value.0;
      if !found || oldest <= from {
        return Ok(InOrder(bars)), asked;
      }
      if oldest >= before {
        return Err, asked;
      }
      before := oldest - 1;
    }
    PageLimits(symbol, from, replies, before);
    assert asked + [] == asked;
    return Err, asked;
  }

  lemma AskedNext(asked: seq<int>, symbol: string, from: int, replies: seq<Result<Page>>, before: int, n: nat)
    requires n < MAX_PAGES
    ensures asked + Asked(symbol, from, replies, before, n) ==
      if DateAt(before).Err? then asked
      else if n >= |replies| || replies[n].Err? || !OwnGroups(replies[n].value, symbol) then asked + [before]
      else
        var bars := PageBars(replies[n].value);
        var oldest := Earliest(bars, before);
        if bars == [] || oldest <= from || oldest >= before then asked + [before]
        else asked + [before] + Asked(symbol, from, replies, oldest - 1, n + 1)
  {
    hide DateAt, PageBars, OwnGroups, Earliest, Asked;
    AskedUnfold(symbol, from, replies, before, n);
    assert asked + [] == asked;
  }

  lemma Unfold(symbol: string, from: int, replies: seq<Result<Page>>, before: int, n: nat)
    requires n < MAX_PAGES
    ensures Pages(symbol, from, replies, before, n) ==
      if DateAt(before).Err? || n >= |replies| || replies[n].Err? || !OwnGroups(replies[n].value, symbol) then Err else
      var bars := PageBars(replies[n].value);
      var oldest := Earliest(bars, before);
      if bars == [] || oldest <= from then Ok(n + 1)
      else if oldest >= before then Err
      else Pages(symbol, from, replies, oldest - 1, n + 1)
    ensures n < |replies| && (forall i :: 0 <= i <= n ==> replies[i].Ok?) ==>
      Received(replies, n + 1) == Received(replies, n) + PageBars(replies[n].value)
  {
    hide DateAt, PageBars, OwnGroups, Earliest;
  }

  lemma PageLimits(symbol: string, from: int, replies: seq<Result<Page>>, before: int)
    ensures Pages(symbol, from, replies, before, MAX_PAGES) == Err
    ensures Asked(symbol, from, replies, before, MAX_PAGES) == [] && Received(replies, 0) == []
  {
  }

  lemma NothingKept(from: int, to: int)
    ensures ByTime(InRange([], from, to)) == map[] && InOrder(map[]) == []
  {
  }
}
