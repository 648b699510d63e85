/** From sparse history rows to complete ticks: what a row omits is carried over. */
module TickPrices {
  import opened Results
  import opened Bits
  import opened Columns

  datatype HistoricalTick = HistoricalTick(time: int, bid: real, ask: real, last: real, volume: nat, flags: nat)

  /** The number a price cell stands for; `None` when it is not finite. */
  type Pricing = Cell -> Option<real>

  // The prices in column order, with the flag bit that makes a zero count.
  const BID: nat := 0
  const ASK: nat := 1
  const LAST: nat := 2

  function PriceCell(row: Row, which: nat): Option<Cell> {
    if which == BID then row.bid else if which == ASK then row.ask else row.last
  }

  function FlagsOf(row: Row): Result<nat> {
    match row.auxiliary
    case Some(Count(n)) => if n < 0x1_0000_0000_0000_0000 then Ok(n) else Err
    case _ => Err
  }

  /** The price a row sets, if any: present, and nonzero or marked as changed. */
  function Sets(price: Pricing, row: Row, which: nat): Result<Option<real>> {
    var flags :- FlagsOf(row);
    match PriceCell(row, which)
    case None => Ok(None)
    case Some(cell) =>
      (match price(cell)
       case None => Err
       case Some(value) => Ok(if value != 0.0 || Bit(flags, which + 1) then Some(value) else None))
  }

  function SetsVolume(row: Row): Result<Option<nat>> {
    var flags :- FlagsOf(row);
    match row.volume
    case None => Ok(None)
    case Some(Count(n)) =>
      if n == 0 && !Bit(flags, 4) then Ok(None)
      else if n >= 0x1_0000_0000_0000_0000 then Err
      else Ok(Some(n))
    case Some(_) => Err
  }

  function TimeOf(row: Row): Result<int> {
    match row.time
    case Some(Time(ms)) => if -0x8000_0000_0000_0000 <= ms < 0x8000_0000_0000_0000 then Ok(ms) else Err
    case _ => Err
  }

  /** Every field of the row can be used. */
  predicate Usable(price: Pricing, row: Row) {
    FlagsOf(row).Ok? && TimeOf(row).Ok? && SetsVolume(row).Ok?
    && Sets(price, row, BID).Ok? && Sets(price, row, ASK).Ok? && Sets(price, row, LAST).Ok?
  }

  /** The price in force after some rows: the last one set, or zero. */
  function PriceAfter(price: Pricing, rows: seq<Row>, which: nat): real {
    if |rows| == 0 then 0.0 else
    match Sets(price, rows[|rows| - 1], which)
    case Ok(Some(value)) => value
    case _ => PriceAfter(price, rows[..|rows| - 1], which)
  }

  function VolumeAfter(rows: seq<Row>): nat {
    if |rows| == 0 then 0 else
    match SetsVolume(rows[|rows| - 1])
    case Ok(Some(value)) => value
    case _ => VolumeAfter(rows[..|rows| - 1])
  }

  /** Tick `i` is row `i` with everything it leaves out as the rows before left it. */
  predicate TickAt(price: Pricing, rows: seq<Row>, i: nat, t: HistoricalTick)
    requires i < |rows|
  {
    && TimeOf(rows[i]) == Ok(t.time) && FlagsOf(rows[i]) == Ok(t.flags)
    && t.bid == PriceAfter(price, rows[..i + 1], BID)
    && t.ask == PriceAfter(price, rows[..i + 1], ASK)
    && t.last == PriceAfter(price, rows[..i + 1], LAST)
    && t.volume == VolumeAfter(rows[..i + 1])
  }

  /** The row gives this price, and it is nonzero or marked as changed. */
  predicate Gives(price: Pricing, row: Row, which: nat, value: real) {
    var cell := if which == 0 then row.bid else if which == 1 then row.ask else row.last;
    && cell.Some? && price(cell.value) == Some(value) && row.auxiliary.Some? && row.auxiliary.value.Count?
    && (value != 0.0
        || Bit(row.auxiliary.value.n, if which == 0 then 1 else if which == 1 then 2 else 3))
  }

  predicate GivesSome(price: Pricing, row: Row, which: nat) {
    var cell := if which == 0 then row.bid else if which == 1 then row.ask else row.last;
    cell.Some? && price(cell.value).Some? && Gives(price, row, which, price(cell.value).value)
  }

  /** `value` was given by row `j`, and by no row after it up to row `n`. */
  predicate GivenLastBy(price: Pricing, rows: seq<Row>, n: nat, which: nat, value: real, j: nat) {
    j < n <= |rows| && Gives(price, rows[j], which, value)
    && forall k :: j < k < n ==> !GivesSome(price, rows[k], which)
  }

  /** The price in force after `n` rows: the last one given, or zero before any. */
  ghost predicate InForce(price: Pricing, rows: seq<Row>, n: nat, which: nat, value: real)
    requires n <= |rows|
  {
    || (value == 0.0 && forall j :: 0 <= j < n ==> !GivesSome(price, rows[j], which))
    || exists j :: GivenLastBy(price, rows, n, which, value, j)
  }

  /** The row gives this volume, and it is nonzero or marked as changed. */
  predicate GivesVolume(row: Row, value: nat) {
    row.volume == Some(Count(value)) && row.auxiliary.Some? && row.auxiliary.value.Count?
    && (value != 0 || Bit(row.auxiliary.value.n, 4))
  }

  predicate GivesSomeVolume(row: Row) {
    row.volume.Some? && row.volume.value.Count? && GivesVolume(row, row.volume.value.n)
  }

  predicate VolumeGivenLastBy(rows: seq<Row>, n: nat, value: nat, j: nat) {
    j < n <= |rows| && GivesVolume(rows[j], value) && forall k :: j < k < n ==> !GivesSomeVolume(rows[k])
  }

  /** The volume in force after `n` rows: the last one given, or zero before any. */
  ghost predicate VolumeInForce(rows: seq<Row>, n: nat, value: nat)
    requires n <= |rows|
  {
    || (value == 0 && forall j :: 0 <= j < n ==> !GivesSomeVolume(rows[j]))
    || exists j :: VolumeGivenLastBy(rows, n, value, j)
  }

  lemma SetsIsGivingVolume(row: Row)
    requires SetsVolume(row).Ok?
    ensures var given := SetsVolume(row).value;
      if given.Some? then GivesVolume(row, given.value) else !GivesSomeVolume(row)
  {
    hide Bit;
  }

  /** The volume carried from row to row is the one in force. */
  lemma {:induction false} VolumeIsLastGiven(rows: seq<Row>, n: nat)
    requires n <= |rows| && forall i :: 0 <= i < n ==> SetsVolume(rows[i]).Ok?
    ensures VolumeInForce(rows, n, VolumeAfter(rows[..n]))
    decreases n
  {
    hide SetsVolume, GivesVolume, GivesSomeVolume;
    if n > 0 {
      var value, before := VolumeAfter(rows[..n]), n - 1;
      assert rows[..n][..n - 1] == rows[..n - 1];
      VolumeIsLastGiven(rows, n - 1);
      SetsIsGivingVolume(rows[n - 1]);
      if SetsVolume(rows[n - 1]).value.Some? {
        assert VolumeGivenLastBy(rows, n, value, n - 1);
      } else if exists j :: VolumeGivenLastBy(rows, before, value, j) {
        var j :| VolumeGivenLastBy(rows, before, value, j);
        assert VolumeGivenLastBy(rows, n, value, j);
      }
    }
  }

  lemma SetsIsGiving(price: Pricing, row: Row, which: nat)
    requires which < 3 && Sets(price, row, which).Ok?
    ensures var given := Sets(price, row, which).value;
      if given.Some? then Gives(price, row, which, given.value) else !GivesSome(price, row, which)
  {
    hide Bit;
  }

  /** The price carried from row to row is the one in force. */
  lemma {:induction false} PriceIsLastGiven(price: Pricing, rows: seq<Row>, n: nat, which: nat)
    requires which < 3 && n <= |rows| && forall i :: 0 <= i < n ==> Sets(price, rows[i], which).Ok?
    ensures InForce(price, rows, n, which, PriceAfter(price, rows[..n], which))
    decreases n
  {
    hide Sets, Gives, GivesSome;
    if n > 0 {
      var value, before := PriceAfter(price, rows[..n], which), n - 1;
      assert rows[..n][..n - 1] == rows[..n - 1];
      PriceIsLastGiven(price, rows, n - 1, which);
      SetsIsGiving(price, rows[n - 1], which);
      if Sets(price, rows[n - 1], which).value.Some? {
        assert GivenLastBy(price, rows, n, which, value, n - 1);
      } else if exists j :: GivenLastBy(price, rows, before, which, value, j) {
        var j :| GivenLastBy(price, rows, before, which, value, j);
        assert GivenLastBy(price, rows, n, which, value, j);
      }
    }
  }

  /** Succeeds exactly when every row can be used. Each tick has its row's time and
      flags, and the prices and the volume in force. */
  method MaterializeTicks(rows: seq<Row>, price: Pricing) returns (r: Result<seq<HistoricalTick>>)
    ensures r.Ok? <==> forall i :: 0 <= i < |rows| ==> Usable(price, rows[i])
    ensures r.Ok? ==> |r.value| == |rows| && forall i :: 0 <= i < |rows| ==> TickAt(price, rows, i, r.value[i])
    ensures r.Ok? ==> forall i :: 0 <= i < |rows| ==>
      && InForce(price, rows, i + 1, BID, r.value[i].bid) && InForce(price, rows, i + 1, ASK, r.value[i].ask)
      && InForce(price, rows, i + 1, LAST, r.value[i].last) && VolumeInForce(rows, i + 1, r.value[i].volume)
  {
    hide Sets, SetsVolume, InForce, VolumeInForce;
    var prices: seq<real>, volume: nat, out := [0.0, 0.0, 0.0], 0, [];
    for i := 0 to |rows|
      invariant |prices| == 3 && |out| == i
      invariant forall w :: 0 <= w < 3 ==> prices[w] == PriceAfter(price, rows[..i], w)
      invariant volume == VolumeAfter(rows[..i])
      invariant forall j :: 0 <= j < i ==> Usable(price, rows[j]) && TickAt(price, rows, j, out[j])
    {
      var row := rows[i];
      assert rows[..i + 1][..i] == rows[..i];
      var flags := FlagsOf(row);
      if flags.Err? {
        return Err;
      }
      for w := 0 to 3
        invariant |prices| == 3
        invariant forall v :: 0 <= v < w ==> Sets(price, row, v).Ok? && prices[v] == PriceAfter(price, rows[..i + 1], v)
        invariant forall v :: w <= v < 3 ==> prices[v] == PriceAfter(price, rows[..i], v)
      {
        var given := Sets(price, row, w);
        if given.Err? {
          return Err;
        }
        if given.value.Some? {
          prices := prices[w := given.value.value];
        }
      }
      var traded := SetsVolume(row);
      if traded.Err? {
        return Err;
      }
      if traded.value.Some? {
        volume := traded.value.value;
      }
      var time := TimeOf(row);
      if time.Err? {
        return Err;
      }
      out := out + [HistoricalTick(time.value, prices[0], prices[1], prices[2], volume, flags.value)];
    }
    forall i | 0 <= i < |rows|
      ensures InForce(price, rows, i + 1, BID, out[i].bid) && InForce(price, rows, i + 1, ASK, out[i].ask)
      ensures InForce(price, rows, i + 1, LAST, out[i].last) && VolumeInForce(rows, i + 1, out[i].volume)
    {
      PriceIsLastGiven(price, rows, i + 1, BID);
      PriceIsLastGiven(price, rows, i + 1, ASK);
      PriceIsLastGiven(price, rows, i + 1, LAST);
      VolumeIsLastGiven(rows, i + 1);
    }
    return Ok(out);
  }
}
