/** How the bars of a decoded container hang together: each bar that is not an
    anchor's own follows the bar before it, across runs and gaps. */
module BarContinuity {
  import opened Results
  import opened Bits
  import opened PackedCode
  import opened Bars

  // ---- what stands in the stream ------------------------------------------

  /** What the decoder finds: an anchor's flags and its bar, a gap, or a run of bars. */
  datatype Token = AnchorBar(flags: nat) | GapOf(minutes: int) | RunOf(n: nat)

  /** The tokens a decoding of `count` bars reads, from a state on, up to an error. */
  function Tokens(s: seq<bool>, pos: nat, k: nat, limit: u32, count: nat, st: Running, acc: seq<Bar>): seq<Token>
    requires pos <= |s|
    decreases |s| - pos
  {
    if |acc| >= count then [] else
    match ReadLayout(s, pos, k, TAG)
    case Err => []
    case Ok((tag, at)) =>
      if tag[0] == 2 && st.anchored then GapTokens(s, at, k, limit, count, st, acc)
      else if tag[0] == 0 then
        (match ReadAnchor(s, at, k, st)
         case Err => []
         case Ok((anchored, next)) =>
           match ReadRun(s, next, k, limit, 1, anchored, true, acc)
           case Err => []
           case Ok((made, end)) => [AnchorBar(anchored.flags)] + Tokens(s, end, k, limit, count, made.1, made.0))
      else if tag[0] == 1 && st.anchored then RunTokens(s, at, k, limit, count, st, acc)
      else []
  }

  function GapTokens(s: seq<bool>, at: nat, k: nat, limit: u32, count: nat, st: Running, acc: seq<Bar>): seq<Token>
    requires at <= |s|
    decreases |s| - at
  {
    match ReadLayout(s, at, k, TAG)
    case Err => []
    case Ok((gap, next)) =>
      [GapOf(gap[0])] + Tokens(s, next, k, limit, count, st.(time := st.time + 60 * gap[0]), acc)
  }

  function RunTokens(s: seq<bool>, at: nat, k: nat, limit: u32, count: nat, st: Running, acc: seq<Bar>): seq<Token>
    requires at <= |s|
    decreases |s| - at
  {
    match ReadLayout(s, at, k, TAG)
    case Err => []
    case Ok((run, next)) =>
      if run[0] < 0 || run[0] > count - |acc| then []
      else
        match ReadRun(s, next, k, limit, run[0], st, false, acc)
        case Err => []
        case Ok((made, end)) => [RunOf(run[0])] + Tokens(s, end, k, limit, count, made.1, made.0)
  }

  /** Where one bar comes from: an anchor, or a run some minutes of gaps after the
      bar before it. */
  datatype Origin = FromAnchor | FromRun(skipped: int)

  /** The origins of the bars a list of tokens stands for, when `skipped` minutes of
      gaps came before it. */
  function Origins(tokens: seq<Token>, skipped: int): seq<Origin>
    decreases |tokens|
  {
    if |tokens| == 0 then [] else
    match tokens[0]
    case AnchorBar(_) => [FromAnchor] + Origins(tokens[1..], 0)
    case GapOf(minutes) => Origins(tokens[1..], skipped + minutes)
    case RunOf(n) =>
      if n == 0 then Origins(tokens[1..], skipped)
      else [FromRun(skipped)] + seq(n - 1, _ => FromRun(0)) + Origins(tokens[1..], 0)
  }

  // ---- following ----------------------------------------------------------

  /** A minute and the skipped ones later, and the open is a whole number of limits
      from the last close. */
  predicate Continues(limit: u32, time: int, close: int, skipped: int, b: Bar) {
    b.time == time + 60 * (1 + skipped) && Multiple(b.open - close, limit)
  }

  predicate FollowsOrigin(limit: u32, bars: seq<Bar>, i: nat, o: Origin)
    requires i < |bars|
  {
    o.FromRun? ==> i > 0 && Continues(limit, bars[i - 1].time, bars[i - 1].close, o.skipped, bars[i])
  }

  /** The state carries the last bar, moved on by the skipped minutes. */
  predicate Carries(st: Running, acc: seq<Bar>, skipped: int) {
    if |acc| == 0 then !st.anchored
    else st.time == acc[|acc| - 1].time + 60 * skipped && st.open + st.close == acc[|acc| - 1].close
  }

  lemma BarContinues(s: seq<bool>, pos: nat, k: nat, limit: u32, st: Running, anchor: bool)
    requires pos <= |s| && ReadBar(s, pos, k, limit, st, anchor).Ok?
    ensures var (made, _) := ReadBar(s, pos, k, limit, st, anchor).value;
      && made.1.time == made.0.time && made.1.open + made.1.close == made.0.close
      && (!anchor ==> Continues(limit, st.time, st.open + st.close, 0, made.0))
  {
    hide ReadLayout, BarFields, RawOf, AllReadable, Wrap32;
    var raw := RawOf(st, anchor, ReadLayout(s, pos, k, BarFields(st, anchor)).value.0);
    Steps(raw.step, limit);
  }

  lemma Steps(n: int, limit: u32)
    ensures Multiple(limit * n, limit)
  {
    if limit > 0 {
      DivUnique(limit * n, limit, n, 0);
    }
  }

  /** Every run that decodes continues bar by bar from the state it starts in, also
      where offsets wrap, and leaves the state at its last bar. */
  lemma {:induction false} RunsContinue(s: seq<bool>, pos: nat, k: nat, limit: u32, n: nat, st: Running, acc: seq<Bar>)
    requires pos <= |s| && ReadRun(s, pos, k, limit, n, st, false, acc).Ok?
    ensures var (bars, end) := ReadRun(s, pos, k, limit, n, st, false, acc).value.0;
      && bars[..|acc|] == acc
      && (n == 0 ==> end == st)
      && (n > 0 ==> Carries(end, bars, 0) && Continues(limit, st.time, st.open + st.close, 0, bars[|acc|]))
      && forall i :: |acc| < i < |bars| ==> Continues(limit, bars[i - 1].time, bars[i - 1].close, 0, bars[i])
    decreases n
  {
    hide Continues, ReadBar;
    if n > 0 {
      var (made, next) := ReadBar(s, pos, k, limit, st, false).value;
      RunsContinue(s, next, k, limit, n - 1, made.1, acc + [made.0]);
      BarContinues(s, pos, k, limit, st, false);
      var bars := ReadRun(s, pos, k, limit, n, st, false, acc).value.0.0;
      assert bars[..|acc|] == bars[..|acc| + 1][..|acc|];
      assert bars[|acc|] == bars[..|acc| + 1][|acc|] == made.0;
    }
  }

  // ---- a whole container --------------------------------------------------

  /** What reading on from a state gives: the bars so far, then one bar for each
      origin, each following the bar before it. */
  ghost predicate Hangs(limit: u32, bars: seq<Bar>, acc: seq<Bar>, origins: seq<Origin>) {
    && |bars| == |acc| + |origins| && bars[..|acc|] == acc
    && forall j :: 0 <= j < |origins| ==> FollowsOrigin(limit, bars, |acc| + j, origins[j])
  }

  lemma HangsOn(limit: u32, bars: seq<Bar>, acc: seq<Bar>, more: seq<Bar>, first: seq<Origin>, rest: seq<Origin>)
    requires |more| == |acc| + |first| && more[..|acc|] == acc && Hangs(limit, bars, more, rest)
    requires forall j :: 0 <= j < |first| ==> FollowsOrigin(limit, more, |acc| + j, first[j])
    ensures Hangs(limit, bars, acc, first + rest)
  {
    hide Continues;
    assert bars[..|acc|] == bars[..|more|][..|acc|];
    assert forall i :: 0 <= i < |more| ==> bars[i] == bars[..|more|][i];
    forall j | 0 <= j < |first + rest| ensures FollowsOrigin(limit, bars, |acc| + j, (first + rest)[j]) {
      if j < |first| {
        assert FollowsOrigin(limit, more, |acc| + j, first[j]);
      } else {
        assert FollowsOrigin(limit, bars, |more| + (j - |first|), rest[j - |first|]);
      }
    }
  }

  lemma AnchorMade(s: seq<bool>, pos: nat, k: nat, limit: u32, st: Running, acc: seq<Bar>)
    requires pos <= |s| && ReadRun(s, pos, k, limit, 1, st, true, acc).Ok?
    ensures var (more, end) := ReadRun(s, pos, k, limit, 1, st, true, acc).value.0;
      |more| == |acc| + 1 && more[..|acc|] == acc && Carries(end, more, 0)
  {
    hide ReadBar;
    var one := ReadBar(s, pos, k, limit, st, true);
    OneBar(s, pos, k, limit, st, acc);
    BarContinues(s, pos, k, limit, st, true);
  }

  lemma RunMade(s: seq<bool>, pos: nat, k: nat, limit: u32, n: nat, st: Running, acc: seq<Bar>, skipped: int)
    requires pos <= |s| && ReadRun(s, pos, k, limit, n, st, false, acc).Ok?
    requires n > 0 && |acc| > 0 && Carries(st, acc, skipped)
    ensures var (more, end) := ReadRun(s, pos, k, limit, n, st, false, acc).value.0;
      var first := [FromRun(skipped)] + seq(n - 1, _ => FromRun(0));
      && |more| == |acc| + |first| && more[..|acc|] == acc && Carries(end, more, 0)
      && forall j :: 0 <= j < |first| ==> FollowsOrigin(limit, more, |acc| + j, first[j])
  {
    hide ReadRun, Multiple;
    RunsContinue(s, pos, k, limit, n, st, acc);
    var more := ReadRun(s, pos, k, limit, n, st, false, acc).value.0.0;
    assert more[|acc| - 1] == more[..|acc|][|acc| - 1];
  }

  lemma {:induction false} BarsHang(s: seq<bool>, pos: nat, k: nat, limit: u32, count: nat, st: Running, acc: seq<Bar>,
                                    skipped: int)
    requires pos <= |s| && |acc| <= count && ReadBars(s, pos, k, limit, count, st, acc).Ok?
    requires Carries(st, acc, skipped)
    ensures Hangs(limit, ReadBars(s, pos, k, limit, count, st, acc).value, acc,
                  Origins(Tokens(s, pos, k, limit, count, st, acc), skipped))
    decreases |s| - pos
  {
    hide ReadLayout, ReadAnchor, ReadRun, Hangs, Multiple;
    var bars := ReadBars(s, pos, k, limit, count, st, acc).value;
    if |acc| == count {
      NothingHangs(limit, acc);
    } else {
      var (tag, at) := ReadLayout(s, pos, k, TAG).value;
      if tag[0] == 0 {
        var (anchored, next) := ReadAnchor(s, at, k, st).value;
        var (made, end) := ReadRun(s, next, k, limit, 1, anchored, true, acc).value;
        AnchorMade(s, next, k, limit, anchored, acc);
        BarsHang(s, end, k, limit, count, made.1, made.0, 0);
        var rest := Tokens(s, end, k, limit, count, made.1, made.0);
        assert ([AnchorBar(anchored.flags)] + rest)[1..] == rest;
        HangsOn(limit, bars, acc, made.0, [FromAnchor], Origins(rest, 0));
      } else if tag[0] == 2 {
        var (gap, next) := ReadLayout(s, at, k, TAG).value;
        var later := st.(time := st.time + 60 * gap[0]);
        BarsHang(s, next, k, limit, count, later, acc, skipped + gap[0]);
        var rest := Tokens(s, next, k, limit, count, later, acc);
        assert ([GapOf(gap[0])] + rest)[1..] == rest;
      } else {
        NoBars(s, ReadLayout(s, at, k, TAG).value.1, k, limit, st, acc);
        RunHangs(s, at, k, limit, count, st, acc, skipped);
      }
    }
  }

  lemma {:induction false} RunHangs(s: seq<bool>, at: nat, k: nat, limit: u32, count: nat, st: Running, acc: seq<Bar>,
                                    skipped: int)
    requires at <= |s| && 0 < |acc| < count && Carries(st, acc, skipped)
    requires var length := ReadLayout(s, at, k, TAG); length.Ok? && 0 <= length.value.0[0] <= count - |acc|
    requires var (run, next) := ReadLayout(s, at, k, TAG).value;
      var made := ReadRun(s, next, k, limit, run[0], st, false, acc);
      made.Ok? && ReadBars(s, made.value.1, k, limit, count, made.value.0.1, made.value.0.0).Ok?
    ensures var (run, next) := ReadLayout(s, at, k, TAG).value;
      var (made, end) := ReadRun(s, next, k, limit, run[0], st, false, acc).value;
      Hangs(limit, ReadBars(s, end, k, limit, count, made.1, made.0).value, acc,
            Origins(RunTokens(s, at, k, limit, count, st, acc), skipped))
    decreases |s| - at
  {
    hide ReadLayout, ReadRun, Hangs, Multiple, ReadBars, Tokens;
    var (run, next) := ReadLayout(s, at, k, TAG).value;
    var (made, end) := ReadRun(s, next, k, limit, run[0], st, false, acc).value;
    var rest := Tokens(s, end, k, limit, count, made.1, made.0);
    assert ([RunOf(run[0])] + rest)[1..] == rest;
    if run[0] == 0 {
      RunsContinue(s, next, k, limit, 0, st, acc);
      assert made.0[..|acc|] == made.0;
      BarsHang(s, end, k, limit, count, made.1, made.0, skipped);
    } else {
      RunMade(s, next, k, limit, run[0], st, acc, skipped);
      BarsHang(s, end, k, limit, count, made.1, made.0, 0);
      HangsOn(limit, ReadBars(s, end, k, limit, count, made.1, made.0).value, acc, made.0,
              [FromRun(skipped)] + seq(run[0] - 1, _ => FromRun(0)), Origins(rest, 0));
    }
  }

  lemma NoBars(s: seq<bool>, pos: nat, k: nat, limit: u32, st: Running, acc: seq<Bar>)
    requires pos <= |s|
    ensures ReadRun(s, pos, k, limit, 0, st, false, acc) == Ok(((acc, st), pos))
  {
  }

  lemma NothingHangs(limit: u32, acc: seq<Bar>)
    ensures Hangs(limit, acc, acc, [])
  {
    assert acc[..|acc|] == acc;
  }

  function TokensOf(h: BarHeader, data: seq<byte>): seq<Token>
    requires HeaderAccepted(h) && |data| == h.size
  {
    Tokens(Unpack(data)[..h.bits], 0, h.k, h.limit, h.count, FRESH, [])
  }

  /** In every container that decodes, the tokens read account for every bar, the
      first bar is an anchor's, and each bar of a run comes a minute plus the
      skipped minutes after the bar before it and opens a whole number of limits
      from that bar's close. */
  lemma ContainerHangs(h: BarHeader, data: seq<byte>)
    requires Container(h, data).Ok?
    ensures var (bars, origins) := (Container(h, data).value, Origins(TokensOf(h, data), 0));
      && |origins| == |bars| && (|bars| > 0 ==> origins[0] == FromAnchor)
      && forall i :: 0 <= i < |bars| && origins[i].FromRun? ==>
           i > 0 && Continues(h.limit, bars[i - 1].time, bars[i - 1].close, origins[i].skipped, bars[i])
  {
    hide ReadBars, Tokens, Continues, Unpack;
    BarsHang(Unpack(data)[..h.bits], 0, h.k, h.limit, h.count, FRESH, [], 0);
    var (bars, origins) := (Container(h, data).value, Origins(TokensOf(h, data), 0));
    assert forall i :: 0 <= i < |bars| ==> FollowsOrigin(h.limit, bars, 0 + i, origins[i]);
  }

  /** No anchor with flag bit 2 is read, and gaps and runs only after an anchor. */
  lemma {:induction false} TokensAllowed(s: seq<bool>, pos: nat, k: nat, limit: u32, count: nat, st: Running,
                                         acc: seq<Bar>)
    requires pos <= |s|
    ensures var tokens := Tokens(s, pos, k, limit, count, st, acc);
      && (forall t :: t in tokens && t.AnchorBar? ==> !Bit(t.flags, 2))
      && (!st.anchored && |tokens| > 0 ==> tokens[0].AnchorBar?)
    decreases |s| - pos, 1
  {
    hide ReadLayout, ReadRun, Bit, Tokens, GapTokens, RunTokens;
    TokensUnfold(s, pos, k, limit, count, st, acc);
    if |acc| < count && ReadLayout(s, pos, k, TAG).Ok? {
      var (tag, at) := ReadLayout(s, pos, k, TAG).value;
      if tag[0] == 2 && st.anchored {
        GapsAllowed(s, at, k, limit, count, st, acc);
      } else if tag[0] == 0 && ReadAnchor(s, at, k, st).Ok? {
        var (anchored, next) := ReadAnchor(s, at, k, st).value;
        if ReadRun(s, next, k, limit, 1, anchored, true, acc).Ok? {
          var (made, end) := ReadRun(s, next, k, limit, 1, anchored, true, acc).value;
          TokensAllowed(s, end, k, limit, count, made.1, made.0);
        }
      } else if tag[0] == 1 && st.anchored {
        RunsAllowed(s, at, k, limit, count, st, acc);
      }
    }
  }

  lemma {:induction false} GapsAllowed(s: seq<bool>, at: nat, k: nat, limit: u32, count: nat, st: Running,
                                       acc: seq<Bar>)
    requires at <= |s| && st.anchored
    ensures forall t :: t in GapTokens(s, at, k, limit, count, st, acc) && t.AnchorBar? ==> !Bit(t.flags, 2)
    decreases |s| - at, 0
  {
    hide ReadLayout, Bit, Tokens;
    if ReadLayout(s, at, k, TAG).Ok? {
      var (gap, next) := ReadLayout(s, at, k, TAG).value;
      TokensAllowed(s, next, k, limit, count, st.(time := st.time + 60 * gap[0]), acc);
    }
  }

  lemma {:induction false} RunsAllowed(s: seq<bool>, at: nat, k: nat, limit: u32, count: nat, st: Running,
                                       acc: seq<Bar>)
    requires at <= |s| && st.anchored
    ensures forall t :: t in RunTokens(s, at, k, limit, count, st, acc) && t.AnchorBar? ==> !Bit(t.flags, 2)
    decreases |s| - at, 0
  {
    hide ReadLayout, ReadRun, Bit, Tokens;
    if ReadLayout(s, at, k, TAG).Ok? {
      var (run, next) := ReadLayout(s, at, k, TAG).value;
      if 0 <= run[0] <= count - |acc| && ReadRun(s, next, k, limit, run[0], st, false, acc).Ok? {
        var (made, end) := ReadRun(s, next, k, limit, run[0], st, false, acc).value;
        TokensAllowed(s, end, k, limit, count, made.1, made.0);
      }
    }
  }

  lemma TokensUnfold(s: seq<bool>, pos: nat, k: nat, limit: u32, count: nat, st: Running, acc: seq<Bar>)
    requires pos <= |s|
    ensures Tokens(s, pos, k, limit, count, st, acc) ==
      if |acc| >= count || ReadLayout(s, pos, k, TAG).Err? then [] else
      var (tag, at) := ReadLayout(s, pos, k, TAG).value;
      if tag[0] == 2 && st.anchored then GapTokens(s, at, k, limit, count, st, acc)
      else if tag[0] == 0 && ReadAnchor(s, at, k, st).Ok? then
        var (anchored, next) := ReadAnchor(s, at, k, st).value;
        if ReadRun(s, next, k, limit, 1, anchored, true, acc).Err? then [] else
        var (made, end) := ReadRun(s, next, k, limit, 1, anchored, true, acc).value;
        [AnchorBar(anchored.flags)] + Tokens(s, end, k, limit, count, made.1, made.0)
      else if tag[0] == 1 && st.anchored then RunTokens(s, at, k, limit, count, st, acc)
      else []
  {
    hide ReadLayout, ReadAnchor, ReadRun, GapTokens, RunTokens;
  }
}
