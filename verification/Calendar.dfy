/** Civil-date arithmetic of the static file server: the closed-form era
    conversions, proved equal to a calendar that counts one day at a time. */
module Calendar {

  datatype Date = Date(year: int, month: int, day: int)

  // ----- The reference calendar: leap rule, month lengths, one day at a time -----

  predicate IsLeap(y: int) {
    y % 4 == 0 && (y % 100 != 0 || y % 400 == 0)
  }

  function DaysInMonth(y: int, m: int): int {
    if m == 2 then if IsLeap(y) then 29 else 28
    else if m == 4 || m == 6 || m == 9 || m == 11 then 30
    else 31
  }

  predicate ValidDate(v: Date) {
    1 <= v.month <= 12 && 1 <= v.day <= DaysInMonth(v.year, v.month)
  }

  function NextDay(v: Date): Date {
    if v.day < DaysInMonth(v.year, v.month) then v.(day := v.day + 1)
    else if v.month < 12 then Date(v.year, v.month + 1, 1)
    else Date(v.year + 1, 1, 1)
  }

  function PrevDay(v: Date): Date {
    if v.day > 1 then v.(day := v.day - 1)
    else if v.month > 1 then Date(v.year, v.month - 1, DaysInMonth(v.year, v.month - 1))
    else Date(v.year - 1, 12, 31)
  }

  /** The date `z` days after 1970-01-01, found by stepping one day at a time. */
  function DateOf(z: int): Date
    decreases if z < 0 then -z else z
  {
    if z == 0 then Date(1970, 1, 1)
    else if z > 0 then NextDay(DateOf(z - 1))
    else PrevDay(DateOf(z + 1))
  }

  // ----- The code's closed forms -----

  /** Division that truncates toward zero, as the source language divides. */
  function TruncDiv(a: int, b: int): int
    requires b > 0
  {
    if a >= 0 then a / b else -((-a) / b)
  }

  function EraIndex(z: int): int {
    TruncDiv(if z >= 0 then z else z - 146_096, 146_097)
  }

  function YearIndex(doe: int): int {
    TruncDiv(doe - TruncDiv(doe, 1460) + TruncDiv(doe, 36_524) - TruncDiv(doe, 146_096), 365)
  }

  function YearDays(yoe: int): int {
    365 * yoe + TruncDiv(yoe, 4) - TruncDiv(yoe, 100)
  }

  /** The date that is day `doy` of the year starting on the first of March of `y`. */
  function MarchDate(y: int, doy: int): Date {
    var mp := TruncDiv(5 * doy + 2, 153);
    var d := doy - TruncDiv(153 * mp + 2, 5) + 1;
    var m := if mp < 10 then mp + 3 else mp - 9;
    Date(if m <= 2 then y + 1 else y, m, d)
  }

  function CivilFromDays(days: int): Date {
    var z := days + 719_468;
    var era := EraIndex(z);
    var doe := z - era * 146_097;
    var yoe := YearIndex(doe);
    MarchDate(yoe + era * 400, doe - YearDays(yoe))
  }

  function DaysFromCivil(year: int, m: int, d: int): int {
    var y := if m <= 2 then year - 1 else year;
    var era := TruncDiv(if y >= 0 then y else y - 399, 400);
    var yoe := y - era * 400;
    var doy := TruncDiv(153 * (if m > 2 then m - 3 else m + 9) + 2, 5) + d - 1;
    var doe := yoe * 365 + TruncDiv(yoe, 4) - TruncDiv(yoe, 100) + doy;
    era * 146_097 + doe - 719_468
  }

  // ----- Days counted from a March-based year -----

  /** Days from 0000-03-01 to the first of March of year `y`. */
  function MarchStart(y: int): int {
    365 * y + y / 4 - y / 100 + y / 400
  }

  /** Years run March to February here, so the leap day is always the last. */
  function MarchYear(v: Date): int {
    if v.month <= 2 then v.year - 1 else v.year
  }

  function DayOfYear(v: Date): int {
    (153 * (if v.month > 2 then v.month - 3 else v.month + 9) + 2) / 5 + v.day - 1
  }

  lemma EraSplit(y: int, era: int, yoe: int)
    requires 0 <= yoe < 400 && y == 400 * era + yoe
    ensures y / 400 == era && y / 4 == 100 * era + yoe / 4 && y / 100 == 4 * era + yoe / 100
  {
  }

  lemma DaysFromCivilMarch(v: Date)
    requires 1 <= v.month <= 12 && v.day >= 1
    ensures DaysFromCivil(v.year, v.month, v.day) == MarchStart(MarchYear(v)) + DayOfYear(v) - 719_468
  {
    var y := MarchYear(v);
    var era := TruncDiv(if y >= 0 then y else y - 399, 400);
    assert era == y / 400;
    EraSplit(y, era, y - 400 * era);
  }

  lemma DayOfYearRange(v: Date)
    requires ValidDate(v)
    ensures 0 <= DayOfYear(v) < 365 + (if IsLeap(MarchYear(v) + 1) then 1 else 0)
  {
  }

  lemma YearLength(y: int)
    ensures MarchStart(y + 1) == MarchStart(y) + 365 + (if IsLeap(y + 1) then 1 else 0)
  {
    DivStep(y, 4);
    DivStep(y, 100);
    DivStep(y, 400);
  }

  lemma DivStep(y: int, k: int)
    requires k == 4 || k == 100 || k == 400
    ensures (y + 1) / k == y / k + (if (y + 1) % k == 0 then 1 else 0)
  {
  }

  lemma NextDayOfYear(v: Date)
    requires ValidDate(v)
    ensures ValidDate(NextDay(v))
    ensures MarchYear(NextDay(v)) == MarchYear(v) ==> DayOfYear(NextDay(v)) == DayOfYear(v) + 1
    ensures MarchYear(NextDay(v)) != MarchYear(v) ==>
              MarchYear(NextDay(v)) == MarchYear(v) + 1 && DayOfYear(NextDay(v)) == 0
              && DayOfYear(v) == 364 + (if IsLeap(MarchYear(v) + 1) then 1 else 0)
  {
  }

  lemma NextDayCounts(v: Date)
    requires ValidDate(v)
    ensures ValidDate(NextDay(v))
    ensures DaysFromCivil(NextDay(v).year, NextDay(v).month, NextDay(v).day)
         == DaysFromCivil(v.year, v.month, v.day) + 1
  {
    NextDayOfYear(v);
    YearLength(MarchYear(v));
    DaysFromCivilMarch(v);
    DaysFromCivilMarch(NextDay(v));
  }

  lemma PrevDayInverts(v: Date)
    requires ValidDate(v)
    ensures ValidDate(PrevDay(v)) && NextDay(PrevDay(v)) == v
  {
  }

  // ----- The closed form inverts the day count -----

  /** The 1460/36524/146096 corrections find the year of the era. */
  lemma YearOfEra(c: int, q: int, r: int, doy: int)
    requires 0 <= c < 4 && 0 <= q < 25 && 0 <= r < 4
    requires 0 <= doy <= 365
    requires doy == 365 ==> r == 3 && (q != 24 || c == 3)
    ensures var doe := 36_524 * c + 1461 * q + 365 * r + doy;
            0 <= doe < 146_097 && YearIndex(doe) == 100 * c + 4 * q + r
  {
    var doe := 36_524 * c + 1461 * q + 365 * r + doy;
    var e := if 24 * c + q + 365 * r + doy >= 1460 then 1 else 0;
    assert doe == 1460 * (25 * c + q) + (24 * c + q + 365 * r + doy);
    assert doe / 1460 == 25 * c + q + e;
    if doe == 146_096 {
      assert doe / 36_524 == 4 && doe / 146_096 == 1;
    } else {
      assert doe / 36_524 == c;
      assert doe / 146_096 == 0;
    }
    assert doe - doe / 1460 + doe / 36_524 - doe / 146_096 == 365 * (100 * c + 4 * q + r) + (doy - e);
  }

  lemma EraAndYear(y: int, doy: int) returns (era: int, doe: int, yoe: int)
    requires 0 <= doy < 365 + (if IsLeap(y + 1) then 1 else 0)
    ensures era == EraIndex(MarchStart(y) + doy) && MarchStart(y) + doy == era * 146_097 + doe
    ensures yoe == YearIndex(doe) && y == yoe + era * 400
    ensures doe == YearDays(yoe) + doy
  {
    era := y / 400;
    yoe := y - 400 * era;
    EraSplit(y, era, yoe);
    var c, q, r := yoe / 100, yoe % 100 / 4, yoe % 4;
    assert yoe == 100 * c + 4 * q + r && yoe / 4 == 25 * c + q;
    if doy == 365 { LastOfEra(y, era, c, q, r); }
    YearOfEra(c, q, r, doy);
    doe := 36_524 * c + 1461 * q + 365 * r + doy;
    EraOf(MarchStart(y) + doy, era, doe);
  }

  lemma LastOfEra(y: int, era: int, c: int, q: int, r: int)
    requires 0 <= c < 4 && 0 <= q < 25 && 0 <= r < 4 && y == 400 * era + 100 * c + 4 * q + r
    requires IsLeap(y + 1)
    ensures r == 3 && (q != 24 || c == 3)
  {
    assert y + 1 == 4 * (100 * era + 25 * c + q) + (r + 1);
    assert r == 3;
    if q == 24 {
      assert y + 1 == 400 * era + 100 * (c + 1);
    }
  }

  lemma EraOf(z: int, era: int, doe: int)
    requires z == 146_097 * era + doe && 0 <= doe < 146_097
    ensures EraIndex(z) == era
  {
  }

  lemma MarchDateInverts(v: Date)
    requires ValidDate(v)
    ensures MarchDate(MarchYear(v), DayOfYear(v)) == v
  {
  }

  lemma CivilFromParts(z: int, doy: int, era: int, doe: int, yoe: int)
    requires era == EraIndex(z + 719_468) && z + 719_468 == era * 146_097 + doe
    requires yoe == YearIndex(doe) && doe == YearDays(yoe) + doy
    ensures CivilFromDays(z) == MarchDate(yoe + era * 400, doy)
  {
    assert z + 719_468 - era * 146_097 == doe;
    assert doe - YearDays(yoe) == doy;
  }

  lemma CivilInvertsCount(v: Date)
    requires ValidDate(v)
    ensures CivilFromDays(DaysFromCivil(v.year, v.month, v.day)) == v
  {
    DaysFromCivilMarch(v);
    DayOfYearRange(v);
    var era, doe, yoe := EraAndYear(MarchYear(v), DayOfYear(v));
    CivilFromParts(DaysFromCivil(v.year, v.month, v.day), DayOfYear(v), era, doe, yoe);
    MarchDateInverts(v);
  }

  // ----- Main results -----

  lemma {:induction false} DateOfCounts(z: int)
    ensures ValidDate(DateOf(z))
    ensures DaysFromCivil(DateOf(z).year, DateOf(z).month, DateOf(z).day) == z
    decreases if z < 0 then -z else z
  {
    if z > 0 {
      DateOfCounts(z - 1);
      NextDayCounts(DateOf(z - 1));
    } else if z < 0 {
      DateOfCounts(z + 1);
      PrevDayInverts(DateOf(z + 1));
      NextDayCounts(DateOf(z));
    }
  }

  /** `civil_from_days` is the Gregorian calendar, before and after 1970. */
  lemma CivilIsCalendar(z: int)
    ensures CivilFromDays(z) == DateOf(z) && ValidDate(DateOf(z))
  {
    DateOfCounts(z);
    CivilInvertsCount(DateOf(z));
  }

  /** Day 0 is 1970-01-01, and consecutive day numbers are consecutive valid dates. */
  lemma CivilSteps(z: int)
    ensures CivilFromDays(0) == Date(1970, 1, 1) && ValidDate(CivilFromDays(z))
    ensures CivilFromDays(z + 1) == NextDay(CivilFromDays(z))
  {
    CivilIsCalendar(0);
    CivilIsCalendar(z);
    CivilIsCalendar(z + 1);
    if z < 0 { PrevDayInverts(DateOf(z + 1)); }
  }

  /** The two conversions are inverse to each other, on all day numbers and all valid dates. */
  lemma CivilRoundTrip(z: int, v: Date)
    requires ValidDate(v)
    ensures DaysFromCivil(CivilFromDays(z).year, CivilFromDays(z).month, CivilFromDays(z).day) == z
    ensures CivilFromDays(DaysFromCivil(v.year, v.month, v.day)) == v
  {
    CivilIsCalendar(z);
    DateOfCounts(z);
    CivilInvertsCount(v);
  }

  /** Dates on or after 1970 have a non-negative day number, and conversely. */
  lemma EpochOrder(z: int)
    ensures z >= 0 <==> CivilFromDays(z).year >= 1970
  {
    CivilRoundTrip(z, Date(1970, 1, 1));
    CivilIsCalendar(z);
    DaysFromCivilMarch(CivilFromDays(z));
    DayOfYearRange(CivilFromDays(z));
  }
}
