/** The civil date of a broker-clock second, and the 16-bit date token. */
module Calendar {
  import opened Results
  import B = Bits

  datatype Date = Date(year: int, month: int, day: int)

  const SECONDS_PER_DAY: nat := 86400
  const END_SECONDS: nat := 4_039_372_800

  // ---- the Gregorian calendar ---------------------------------------------

  predicate Leap(year: int) {
    (year % 4 == 0 && year % 100 != 0) || year % 400 == 0
  }

  function DaysIn(year: int, month: int): nat {
    if month == 2 then (if Leap(year) then 29 else 28)
    else if month == 4 || month == 6 || month == 9 || month == 11 then 30
    else 31
  }

  predicate Valid(d: Date) {
    1 <= d.month <= 12 && 1 <= d.day <= DaysIn(d.year, d.month)
  }

  function NextDay(d: Date): Date {
    if d.day < DaysIn(d.year, d.month) then d.(day := d.day + 1)
    else if d.month < 12 then Date(d.year, d.month + 1, 1)
    else Date(d.year + 1, 1, 1)
  }

  /** The calendar itself: `n` days after the first of January 1970. */
  function Nth(n: nat): Date {
    if n == 0 then Date(1970, 1, 1) else NextDay(Nth(n - 1))
  }

  // ---- the program's formulas ---------------------------------------------

  /** The year that begins in March, within a 400-year era. */
  function YearOfEra(doe: nat): int {
    (doe - doe / 1460 + doe / 36524 - doe / 146096) / 365
  }

  function DayOfYear(doe: nat): int {
    var yoe := YearOfEra(doe);
    doe - (365 * yoe + yoe / 4 - yoe / 100)
  }

  /** From a March-based year and its day to the civil date. */
  function Civil(year: int, doy: int): Date {
    var mp := (5 * doy + 2) / 153;
    var m := mp + if mp < 10 then 3 else -9;
    Date(year + if m <= 2 then 1 else 0, m, doy - (153 * mp + 2) / 5 + 1)
  }

  function DateOfDay(n: nat): Date {
    var z := n + 719468;
    var era := z / 146097;
    var doe := z - era * 146097;
    Civil(YearOfEra(doe) + era * 400, DayOfYear(doe))
  }

  function DateAt(seconds: int): Result<Date> {
    if 0 <= seconds < END_SECONDS then Ok(DateOfDay(seconds / SECONDS_PER_DAY)) else Err
  }

  /** Fields that do not overlap, so joining their bits is adding them. */
  function DateToken(d: Date): Result<nat> {
    if !(1970 <= d.year <= 2097) || !(1 <= d.month <= 12) || !(1 <= d.day <= 31) then Err
    else if !Valid(d) then Err
    else Ok((d.year - 1970) * 512 + d.month * 32 + d.day)
  }

  // ---- years of an era ----------------------------------------------------

  /** A day of an era as century, four-year cycle, year and day. */
  datatype Place = Place(a: nat, q: nat, r: nat, d: nat) {
    predicate Proper() {
      a <= 3 && q <= 24 && r <= 3 && d < Length()
    }

    function Length(): nat {
      if r == 3 && (q < 24 || a == 3) then 366 else 365
    }

    function Year(): nat {
      100 * a + 4 * q + r
    }

    function Day(): nat {
      36524 * a + 1461 * q + 365 * r + d
    }
  }

  /** The formulas find the place of a day. */
  lemma PlaceFound(p: Place)
    requires p.Proper()
    ensures YearOfEra(p.Day()) == p.Year() && DayOfYear(p.Day()) == p.d
  {
    CenturyTerms(p);
    var doe := p.Day();
    assert doe - doe / 1460 + doe / 36524 - doe / 146096 == 365 * p.Year() + p.d - Carry(p);
    YearTerms(p);
  }

  function Carry(p: Place): nat {
    if 24 * p.a + p.q + 365 * p.r + p.d >= 1460 then 1 else 0
  }

  lemma CenturyTerms(p: Place)
    requires p.Proper()
    ensures p.Day() / 1460 == 25 * p.a + p.q + Carry(p)
    ensures p.Day() / 36524 - p.Day() / 146096 == p.a
    ensures 0 <= p.d - Carry(p) < 365
  {
    var doe := p.Day();
    assert doe == 1460 * (25 * p.a + p.q) + (24 * p.a + p.q + 365 * p.r + p.d);
    assert 0 <= doe - 36524 * p.a <= 36524;
  }

  lemma YearTerms(p: Place)
    requires p.Proper()
    ensures p.Year() / 4 == 25 * p.a + p.q && p.Year() / 100 == p.a
  {
  }

  lemma Placed(doe: nat) returns (p: Place)
    requires doe < 146097
    ensures p.Proper() && p.Day() == doe
  {
    var a := if doe / 36524 < 3 then doe / 36524 else 3;
    var q := (doe - 36524 * a) / 1461;
    var rest := doe - 36524 * a - 1461 * q;
    var r := if rest / 365 < 3 then rest / 365 else 3;
    p := Place(a, q, r, rest - 365 * r);
  }

  lemma LeapPlace(era: nat, p: Place)
    requires p.Proper()
    ensures p.Length() == if Leap(era * 400 + p.Year() + 1) then 366 else 365
  {
    var year := era * 400 + p.Year() + 1;
    assert year == 4 * (100 * era + 25 * p.a + p.q) + (p.r + 1);
    assert year == 100 * (4 * era + p.a) + (4 * p.q + p.r + 1);
    assert year == 400 * era + (100 * p.a + 4 * p.q + p.r + 1);
  }

  // ---- months of a year ---------------------------------------------------

  /** Within a March-based year the next day is the calendar's next day, and its
      last day is followed by the first of March. */
  lemma CivilNext(year: int, doy: nat)
    requires doy < (if Leap(year + 1) then 366 else 365)
    ensures Valid(Civil(year, doy))
    ensures NextDay(Civil(year, doy)) ==
            if doy + 1 < (if Leap(year + 1) then 366 else 365) then Civil(year, doy + 1) else Civil(year + 1, 0)
  {
    hide Leap;
  }

  lemma DateOfPlace(n: nat, era: nat, p: Place)
    requires p.Proper() && n + 719468 == 146097 * era + p.Day()
    ensures DateOfDay(n) == Civil(era * 400 + p.Year(), p.d)
  {
    hide YearOfEra, DayOfYear, Civil;
    assert 0 <= p.Day() < 146097;
    B.DivUnique(n + 719468, 146097, era, p.Day());
    PlaceFound(p);
  }

  function After(p: Place): Place {
    if p.d + 1 < p.Length() then p.(d := p.d + 1)
    else if p.r < 3 then Place(p.a, p.q, p.r + 1, 0)
    else if p.q < 24 then Place(p.a, p.q + 1, 0, 0)
    else if p.a < 3 then Place(p.a + 1, 0, 0, 0)
    else Place(0, 0, 0, 0)
  }

  lemma EraEnds(p: Place)
    requires p.Proper()
    ensures p.Day() == 146096 <==> p == Place(3, 24, 3, 365)
  {
    if p.a < 3 {
      assert p.Day() <= 36524 * 2 + 1461 * 24 + 365 * 3 + 365;
    } else if p.q < 24 {
      assert p.Day() <= 36524 * 3 + 1461 * 23 + 365 * 3 + 365;
    } else if p.r < 3 {
      assert p.Day() <= 36524 * 3 + 1461 * 24 + 365 * 2 + 364;
    }
  }

  lemma AfterProper(p: Place)
    requires p.Proper()
    ensures After(p).Proper()
    ensures var wraps := if p.Day() == 146096 then 1 else 0;
      && p.Day() + 1 == 146097 * wraps + After(p).Day()
      && (if p.d + 1 < p.Length() then After(p).Year() == p.Year() && After(p).d == p.d + 1 && wraps == 0
          else After(p).Year() + 400 * wraps == p.Year() + 1 && After(p).d == 0)
  {
    hide After, Place.Proper, Place.Day, Place.Year, Place.Length;
    if p.d + 1 < p.Length() {
      NextInYear(p);
    } else {
      NextInCycle(p);
    }
  }

  lemma NextInYear(p: Place)
    requires p.Proper() && p.d + 1 < p.Length()
    ensures After(p).Proper() && After(p).Day() == p.Day() + 1 && p.Day() != 146096
    ensures After(p).Year() == p.Year() && After(p).d == p.d + 1
  {
    EraEnds(p);
  }

  lemma NextInCycle(p: Place)
    requires p.Proper() && p.d + 1 >= p.Length()
    ensures After(p).Proper() && After(p).d == 0
    ensures if p.Day() == 146096 then p.Year() == 399 && After(p).Day() == 0 && After(p).Year() == 0
            else After(p).Day() == p.Day() + 1 && After(p).Year() == p.Year() + 1
  {
    EraEnds(p);
  }

  lemma DayAfter(n: nat)
    ensures Valid(DateOfDay(n)) && DateOfDay(n + 1) == NextDay(DateOfDay(n))
  {
    hide DateOfDay, Civil, Leap, Valid, NextDay, After, Place.Proper, Place.Day, Place.Year, Place.Length;
    var era := (n + 719468) / 146097;
    var p := Placed((n + 719468) % 146097);
    var wraps := if p.Day() == 146096 then 1 else 0;
    AfterProper(p);
    DateOfPlace(n, era, p);
    DateOfPlace(n + 1, era + wraps, After(p));
    LeapPlace(era, p);
    CivilNext(era * 400 + p.Year(), p.d);
  }

  lemma FirstDay()
    ensures DateOfDay(0) == Date(1970, 1, 1)
  {
    hide DateOfDay;
    DateOfPlace(0, 4, Place(3, 17, 1, 306));
  }

  /** The formulas are the Gregorian calendar, on every day from 1970 on. */
  lemma {:induction false} DatesAreTheCalendar(n: nat)
    ensures DateOfDay(n) == Nth(n) && Valid(Nth(n))
  {
    hide DateOfDay, NextDay, Valid;
    DayAfter(n);
    if n == 0 {
      FirstDay();
    } else {
      DatesAreTheCalendar(n - 1);
      DayAfter(n - 1);
    }
  }

  // ---- the token ----------------------------------------------------------

  /** A date as a number that grows with the calendar. */
  function Rank(d: Date): int {
    (d.year - 1970) * 512 + d.month * 32 + d.day
  }

  lemma {:induction false} RankGrows(m: nat, n: nat)
    requires m < n
    ensures Rank(DateOfDay(m)) < Rank(DateOfDay(n))
    decreases n
  {
    hide DateOfDay;
    DayAfter(n - 1);
    if m < n - 1 {
      RankGrows(m, n - 1);
    }
  }

  lemma LastDay()
    ensures DateOfDay(46751) == Date(2097, 12, 31) && (END_SECONDS - 1) / SECONDS_PER_DAY == 46751
  {
    hide DateOfDay;
    DateOfPlace(46751, 5, Place(0, 24, 1, 305));
  }

  lemma YearInRange(n: nat)
    requires n <= 46751
    ensures 1970 <= DateOfDay(n).year <= 2097 && Valid(DateOfDay(n))
  {
    hide DateOfDay;
    DayAfter(n);
    FirstDay();
    LastDay();
    if n > 0 {
      RankGrows(0, n);
    }
    if n < 46751 {
      RankGrows(n, 46751);
    }
  }

  /** Every second the history requests accept has a token; the token's bit fields
      are the date's year since 1970, month and day; and a later day has a larger
      token. */
  lemma TokensNameDays(seconds: int, later: int)
    requires 0 <= seconds <= later < END_SECONDS
    ensures DateAt(seconds) == Ok(Nth(seconds / SECONDS_PER_DAY))
    ensures DateToken(Nth(seconds / SECONDS_PER_DAY)).Ok?
    ensures var (day, token) := (Nth(seconds / SECONDS_PER_DAY), DateToken(Nth(seconds / SECONDS_PER_DAY)).value);
      token < 0x1_0000 && day == Date(1970 + token / 512, token / 32 % 16, token % 32)
    ensures DateToken(Nth(later / SECONDS_PER_DAY)).Ok?
    ensures seconds / SECONDS_PER_DAY < later / SECONDS_PER_DAY ==>
      DateToken(Nth(seconds / SECONDS_PER_DAY)).value < DateToken(Nth(later / SECONDS_PER_DAY)).value
  {
    hide DateOfDay, Nth;
    var m, n := seconds / SECONDS_PER_DAY, later / SECONDS_PER_DAY;
    assert m <= n <= 46751;
    DatesAreTheCalendar(m);
    DatesAreTheCalendar(n);
    YearInRange(m);
    YearInRange(n);
    FieldsRecovered(Nth(m));
    if m < n {
      RankGrows(m, n);
    }
  }

  lemma FieldsRecovered(d: Date)
    requires 1970 <= d.year <= 2097 && Valid(d)
    ensures Rank(d) < 0x1_0000
    ensures d == Date(1970 + Rank(d) / 512, Rank(d) / 32 % 16, Rank(d) % 32)
  {
    hide Leap;
    assert d.day < 32 && d.month < 16;
    assert Rank(d) / 32 == (d.year - 1970) * 16 + d.month;
  }

  predicate Before(d: Date, e: Date) {
    d.year < e.year || (d.year == e.year && (d.month < e.month || (d.month == e.month && d.day < e.day)))
  }

  lemma RankIsOrder(d: Date, e: Date)
    requires Valid(d) && Valid(e)
    ensures Rank(d) < Rank(e) <==> Before(d, e)
  {
    hide Valid, DaysIn;
    FieldBounds(d);
    FieldBounds(e);
    var years, months := d.year - e.year, d.month - e.month;
    assert Rank(d) - Rank(e) == 512 * years + (32 * months + (d.day - e.day));
  }

  lemma NextValid(e: Date)
    requires Valid(e)
    ensures Valid(NextDay(e))
  {
    hide Leap;
  }

  lemma NoneBetween(d: Date, e: Date)
    requires Valid(d) && Valid(e) && Rank(d) < Rank(NextDay(e))
    ensures Rank(d) <= Rank(e)
  {
    hide Rank, DaysIn;
    NextValid(e);
    RankIsOrder(d, NextDay(e));
    RankIsOrder(e, d);
  }

  lemma {:induction false} Reached(d: Date, n: nat)
    requires Valid(d) && d.year >= 1970 && Rank(d) <= Rank(Nth(n))
    ensures exists k: nat :: k <= n && Nth(k) == d
  {
    hide Valid, NextDay, DaysIn;
    DatesAreTheCalendar(n);
    if n == 0 {
      RankInjective(d, Nth(0));
    } else if Rank(d) == Rank(Nth(n)) {
      RankInjective(d, Nth(n));
    } else {
      DatesAreTheCalendar(n - 1);
      NoneBetween(d, Nth(n - 1));
      Reached(d, n - 1);
    }
  }

  lemma RankInjective(d: Date, e: Date)
    requires Valid(d) && Valid(e) && d.year >= 1970
    ensures Rank(d) == Rank(e) ==> d == e
    ensures e == Date(1970, 1, 1) ==> Rank(e) <= Rank(d)
  {
    hide Rank, DaysIn;
    RankIsOrder(d, e);
    RankIsOrder(e, d);
  }

  lemma FieldBounds(d: Date)
    requires Valid(d)
    ensures 1 <= d.month <= 12 && 1 <= d.day <= 31
  {
    hide Leap;
  }

  /** Exactly the dates of the seconds that history requests accept have tokens. */
  lemma TokenExactly(d: Date)
    ensures DateToken(d).Ok? <==> exists seconds :: 0 <= seconds < END_SECONDS && DateAt(seconds) == Ok(d)
  {
    hide DateOfDay, Nth, Leap;
    if DateToken(d).Ok? {
      DatesAreTheCalendar(46751);
      LastDay();
      Reached(d, 46751);
      var k: nat :| k <= 46751 && Nth(k) == d;
      DatesAreTheCalendar(k);
      assert DateAt(k * SECONDS_PER_DAY) == Ok(d);
    }
    if exists seconds :: 0 <= seconds < END_SECONDS && DateAt(seconds) == Ok(d) {
      var seconds :| 0 <= seconds < END_SECONDS && DateAt(seconds) == Ok(d);
      TokensNameDays(seconds, seconds);
    }
  }
}
