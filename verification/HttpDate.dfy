/** The HTTP date printer and parser of the static file server (the preferred
    format of section 5.6.7 of RFC 9110), and the conditional-request decision. */
module HttpDate {
  import opened Wrappers
  import opened Text
  import opened Calendar

  const U64_LIMIT: nat := 0x1_0000_0000_0000_0000
  const I64_LIMIT: nat := 0x8000_0000_0000_0000

  const DAYS: seq<string> := ["Sun", "Mon", "Tue", "Wed", "Thu", "Fri", "Sat"]
  const MONTHS: seq<string> :=
    ["Jan", "Feb", "Mar", "Apr", "May", "Jun", "Jul", "Aug", "Sep", "Oct", "Nov", "Dec"]

  // ----- Printing -----

  function Padded(n: nat, width: nat): string {
    ZeroPad(Numeral(n, 10), width)
  }

  function ClockOf(hh: nat, mm: nat, ss: nat): string {
    Padded(hh, 2) + ":" + Padded(mm, 2) + ":" + Padded(ss, 2)
  }

  function ClockText(rem: nat): string {
    ClockOf(rem / 3600, rem % 3600 / 60, rem % 60)
  }

  function MonthName(m: int): string
    requires 1 <= m <= 12
  {
    MONTHS[m - 1]
  }

  function DateTokens(civil: Date, rem: nat): seq<string>
    requires 1 <= civil.month <= 12 && civil.day >= 0 && civil.year >= 0
  {
    [Padded(civil.day, 2), MonthName(civil.month), Padded(civil.year, 4), ClockText(rem), "GMT"]
  }

  /** Day 0 was a Thursday. */
  function Weekday(days: nat): (name: string)
    ensures |name| == 3 && NoSpace(name) && ',' !in name
  {
    DAYS[(days + 4) % 7]
  }

  function FormatHttpDate(secs: nat): string {
    var days, rem := secs / 86_400, secs % 86_400;
    var civil := CivilFromDays(days);
    CivilIsCalendar(days);
    EpochOrder(days);
    Weekday(days) + ", " + Join(DateTokens(civil, rem), ' ')
  }

  // ----- Parsing -----

  function MonthIndex(name: string): Option<int> {
    MonthIndexFrom(name, 0)
  }

  function MonthIndexFrom(name: string, i: nat): Option<int>
    requires i <= 12
    decreases 12 - i
  {
    if i == 12 then None
    else if Lower(MONTHS[i]) == Lower(name) then Some(i + 1)
    else MonthIndexFrom(name, i + 1)
  }

  /** What follows the first space or comma, trimmed; all of `s` without one. */
  function AfterWeekday(s: string): string {
    AfterWeekdayFrom(s, 0)
  }

  function AfterWeekdayFrom(s: string, i: nat): string
    requires i <= |s|
    decreases |s| - i
  {
    if i == |s| then s
    else if s[i] == ' ' || s[i] == ',' then Trim(s[i + 1..])
    else AfterWeekdayFrom(s, i + 1)
  }

  function ParseClock(time: string): Option<nat> {
    var hms := Split(time, ':');
    if |hms| < 2 then None
    else
      match (ParseUnsigned(hms[0], 10, U64_LIMIT), ParseUnsigned(hms[1], 10, U64_LIMIT),
             ParseUnsigned(if |hms| > 2 then hms[2] else "0", 10, U64_LIMIT))
      case (Some(hh), Some(mm), Some(ss)) => Some(hh * 3600 + mm * 60 + ss)
      case _ => None
  }

  datatype DateFields = DateFields(year: int, month: int, day: int, time: string)

  /** Two digits stand for a year from 1970 to 2069. */
  function FullYear(year: int): int {
    if year < 100 then if year >= 70 then year + 1900 else year + 2000 else year
  }

  /** The day comes first in one accepted shape, the month in the other. */
  function FieldsOf(toks: seq<string>): Option<DateFields> {
    if |toks| < 4 then None
    else if ParseSigned(toks[0], I64_LIMIT).Some? then
      match (MonthIndex(toks[1]), ParseSigned(toks[2], I64_LIMIT))
      case (Some(month), Some(year)) =>
        Some(DateFields(FullYear(year), month, ParseSigned(toks[0], I64_LIMIT).value, toks[3]))
      case _ => None
    else
      match (MonthIndex(toks[0]), ParseSigned(toks[1], I64_LIMIT), ParseSigned(toks[3], I64_LIMIT))
      case (Some(month), Some(day), Some(year)) => Some(DateFields(year, month, day, toks[2]))
      case _ => None
  }

  function ParseFields(text: string): Option<DateFields> {
    FieldsOf(Words(AfterWeekday(Trim(text))))
  }

  function SecondsOf(f: DateFields): Option<nat> {
    match ParseClock(f.time)
    case None => None
    case Some(clock) =>
      var days := DaysFromCivil(f.year, f.month, f.day);
      if days < 0 then None else Some(days * 86_400 + clock)
  }

  function ParseHttpDate(text: string): Option<nat> {
    match ParseFields(text)
    case None => None
    case Some(f) => SecondsOf(f)
  }

  // ----- The printed tokens -----

  lemma MonthIndexOfName(m: int)
    requires 1 <= m <= 12
    ensures MonthIndex(MonthName(m)) == Some(m)
    ensures |MonthName(m)| == 3 && NoSpace(MonthName(m)) && MonthName(m)[0] >= 'A'
  {
    forall i | 0 <= i < 12 && Lower(MONTHS[i]) == Lower(MonthName(m)) ensures i == m - 1 {
      MonthsDiffer(i, m - 1);
    }
    FirstMonth(MonthName(m), m - 1, 0);
  }

  /** The second and third letters tell the months apart. */
  lemma MonthsDiffer(i: nat, j: nat)
    requires i < 12 && j < 12 && Lower(MONTHS[i]) == Lower(MONTHS[j])
    ensures i == j
  {
    LowerLetters(MONTHS[i], MONTHS[j]);
    assert |MONTHS[i]| == 3 && |MONTHS[j]| == 3 && 'a' <= MONTHS[i][1] <= 'z' && 'a' <= MONTHS[i][2] <= 'z'
        && 'a' <= MONTHS[j][1] <= 'z' && 'a' <= MONTHS[j][2] <= 'z';
    assert MONTHS[i][1] == MONTHS[j][1] && MONTHS[i][2] == MONTHS[j][2];
  }

  lemma LowerLetters(a: string, b: string)
    requires Lower(a) == Lower(b)
    ensures |a| == |b| && forall k | 0 <= k < |a| :: LowerChar(a[k]) == LowerChar(b[k])
  {
    assert forall k | 0 <= k < |a| :: Lower(a)[k] == Lower(b)[k];
  }

  lemma {:induction false} FirstMonth(name: string, hit: nat, i: nat)
    requires i <= hit < 12 && Lower(MONTHS[hit]) == Lower(name)
    requires forall k | 0 <= k < 12 && Lower(MONTHS[k]) == Lower(name) :: k == hit
    ensures MonthIndexFrom(name, i) == Some(hit + 1)
    decreases hit - i
  {
    if i < hit { FirstMonth(name, hit, i + 1); }
  }

  lemma ThreeParts(a: string, b: string, c: string)
    requires ':' !in a && ':' !in b && ':' !in c
    ensures Split(a + ":" + b + ":" + c, ':') == [a, b, c]
  {
    SplitWhole(a, ':');
    SplitWhole(b, ':');
    SplitWhole(c, ':');
    SplitAt(a, b, ':');
    SplitAt(a + ":" + b, c, ':');
  }

  lemma PaddedToken(n: nat, width: nat)
    requires n < I64_LIMIT
    ensures var s := Padded(n, width);
            s != [] && NoSpace(s) && ':' !in s
            && ParseSigned(s, I64_LIMIT) == Some(n) && ParseUnsigned(s, 10, U64_LIMIT) == Some(n)
  {
    ParsePadded(n, width, I64_LIMIT);
    ParsePadded(n, width, U64_LIMIT);
    DigitsAreNotSpace(Padded(n, width), 10);
  }

  lemma ParseClockParts(a: string, b: string, c: string, hh: nat, mm: nat, ss: nat)
    requires ':' !in a && ':' !in b && ':' !in c
    requires ParseUnsigned(a, 10, U64_LIMIT) == Some(hh) && ParseUnsigned(b, 10, U64_LIMIT) == Some(mm)
    requires ParseUnsigned(c, 10, U64_LIMIT) == Some(ss)
    ensures ParseClock(a + ":" + b + ":" + c) == Some(hh * 3600 + mm * 60 + ss)
  {
    ThreeParts(a, b, c);
  }

  lemma ClockWord(a: string, b: string, c: string)
    requires NoSpace(a) && NoSpace(b) && NoSpace(c)
    ensures NoSpace(a + ":" + b + ":" + c) && a + ":" + b + ":" + c != []
  {
  }

  lemma ClockFields(hh: nat, mm: nat, ss: nat)
    requires hh < I64_LIMIT && mm < I64_LIMIT && ss < I64_LIMIT
    ensures ParseClock(ClockOf(hh, mm, ss)) == Some(hh * 3600 + mm * 60 + ss)
    ensures ClockOf(hh, mm, ss) != [] && NoSpace(ClockOf(hh, mm, ss))
  {
    PaddedToken(hh, 2);
    PaddedToken(mm, 2);
    PaddedToken(ss, 2);
    ParseClockParts(Padded(hh, 2), Padded(mm, 2), Padded(ss, 2), hh, mm, ss);
    ClockWord(Padded(hh, 2), Padded(mm, 2), Padded(ss, 2));
  }

  lemma ClockRoundTrip(rem: nat)
    requires rem < 86_400
    ensures ParseClock(ClockText(rem)) == Some(rem)
    ensures ClockText(rem) != [] && NoSpace(ClockText(rem))
  {
    ClockParts(rem);
    ClockFields(rem / 3600, rem % 3600 / 60, rem % 60);
  }

  lemma ClockParts(rem: nat)
    ensures rem / 3600 * 3600 + rem % 3600 / 60 * 60 + rem % 60 == rem
  {
    var h, r := rem / 3600, rem % 3600;
    var m, s := r / 60, r % 60;
    DivModIs(rem, 3600);
    DivModIs(r, 60);
    assert rem == 60 * (60 * h + m) + s;
    LastDigit(rem, 60 * h + m, s);
  }

  lemma DivModIs(n: nat, d: nat)
    requires d == 60 || d == 3600
    ensures n == n / d * d + n % d
  {
  }

  lemma LastDigit(n: nat, q: nat, s: nat)
    requires n == 60 * q + s && s < 60
    ensures n % 60 == s
  {
  }

  lemma WordThen(a: string, rest: string)
    requires a != [] && NoSpace(a)
    ensures Words(a + [' '] + rest) == [a] + Words(rest)
  {
    WordFirst(a, [' '] + rest);
    assert a + [' '] + rest == a + ([' '] + rest);
    assert ([' '] + rest)[1..] == rest;
  }

  lemma {:induction false} WordsJoin(list: seq<string>)
    requires |list| >= 1 && forall i | 0 <= i < |list| :: list[i] != [] && NoSpace(list[i])
    ensures Words(Join(list, ' ')) == list
  {
    if |list| == 1 {
      WordFirst(list[0], []);
      assert list[0] + [] == list[0];
    } else {
      WordsJoin(list[1..]);
      WordThen(list[0], Join(list[1..], ' '));
    }
  }

  lemma {:induction false} JoinEnds(list: seq<string>)
    requires |list| >= 1 && forall i | 0 <= i < |list| :: list[i] != []
    ensures var s := Join(list, ' ');
            var last := list[|list| - 1];
            s != [] && s[0] == list[0][0] && s[|s| - 1] == last[|last| - 1]
  {
    if |list| > 1 { JoinEnds(list[1..]); }
  }

  /** A weekday of any length and a comma are dropped from a date that starts and ends tightly. */
  lemma WeekdayDropped(day: string, rest: string)
    requires day != [] && NoSpace(day) && ',' !in day
    requires rest != [] && !IsSpace(rest[0]) && !IsSpace(rest[|rest| - 1])
    ensures AfterWeekday(Trim(day + ", " + rest)) == rest
  {
    var s := day + ", " + rest;
    assert s[0] == day[0] && s[|s| - 1] == rest[|rest| - 1];
    TrimTight(s);
    assert forall k | 0 <= k < |day| :: s[k] == day[k];
    SkipWeekday(s, |day|, 0);
    assert s[|day| + 1..] == " " + rest && (" " + rest)[1..] == rest;
    assert TrimStart(" " + rest) == TrimStart(rest) == rest;
    TrimTight(rest);
  }

  lemma {:induction false} SkipWeekday(s: string, n: nat, i: nat)
    requires i <= n < |s| && (s[n] == ',' || s[n] == ' ') && forall k | 0 <= k < n :: s[k] != ' ' && s[k] != ','
    ensures AfterWeekdayFrom(s, i) == Trim(s[n + 1..])
    decreases n - i
  {
    if i < n { SkipWeekday(s, n, i + 1); }
  }

  /** The year of a 64-bit second count fits the parser's integer. */
  lemma YearFits(days: nat)
    requires days < U64_LIMIT
    ensures 1970 <= CivilFromDays(days).year < I64_LIMIT
  {
    EpochOrder(days);
    CivilIsCalendar(days);
    CivilRoundTrip(days, Date(1970, 1, 1));
    var v := CivilFromDays(days);
    DaysFromCivilMarch(v);
    DayOfYearRange(v);
    assert MarchStart(MarchYear(v)) <= days + 719_468;
    assert MarchStart(MarchYear(v)) >= 365 * MarchYear(v);
  }

  lemma TokensAreWords(v: Date, rem: nat)
    requires ValidDate(v) && 1970 <= v.year < I64_LIMIT && rem < 86_400
    ensures forall i | 0 <= i < 5 :: DateTokens(v, rem)[i] != [] && NoSpace(DateTokens(v, rem)[i])
  {
    forall i | 0 <= i < 5 ensures DateTokens(v, rem)[i] != [] && NoSpace(DateTokens(v, rem)[i]) {
      if i == 0 { PaddedToken(v.day, 2); }
      else if i == 1 { MonthIndexOfName(v.month); }
      else if i == 2 { PaddedToken(v.year, 4); }
      else if i == 3 { ClockRoundTrip(rem); }
    }
  }

  lemma TokensParse(v: Date, rem: nat)
    requires ValidDate(v) && 1970 <= v.year < I64_LIMIT && rem < 86_400
    ensures ParseSigned(DateTokens(v, rem)[0], I64_LIMIT) == Some(v.day)
    ensures MonthIndex(DateTokens(v, rem)[1]) == Some(v.month)
    ensures ParseSigned(DateTokens(v, rem)[2], I64_LIMIT) == Some(v.year)
  {
    MonthIndexOfName(v.month);
    PaddedToken(v.day, 2);
    PaddedToken(v.year, 4);
  }

  lemma LineParses(weekday: string, tokens: seq<string>, day: int, month: int, year: int)
    requires |weekday| == 3 && NoSpace(weekday) && ',' !in weekday
    requires |tokens| >= 4 && forall i | 0 <= i < |tokens| :: tokens[i] != [] && NoSpace(tokens[i])
    requires ParseSigned(tokens[0], I64_LIMIT) == Some(day) && MonthIndex(tokens[1]) == Some(month)
    requires ParseSigned(tokens[2], I64_LIMIT) == Some(year)
    ensures ParseFields(weekday + ", " + Join(tokens, ' ')) == Some(DateFields(FullYear(year), month, day, tokens[3]))
  {
    LineWords(weekday, tokens);
  }

  lemma LineWords(weekday: string, tokens: seq<string>)
    requires weekday != [] && NoSpace(weekday) && ',' !in weekday
    requires |tokens| >= 1 && forall i | 0 <= i < |tokens| :: tokens[i] != [] && NoSpace(tokens[i])
    ensures Words(AfterWeekday(Trim(weekday + ", " + Join(tokens, ' ')))) == tokens
  {
    WordsJoin(tokens);
    JoinEnds(tokens);
    WeekdayDropped(weekday, Join(tokens, ' '));
  }

  lemma DateParses(v: Date, rem: nat, weekday: string)
    requires ValidDate(v) && 1970 <= v.year < I64_LIMIT && rem < 86_400
    requires |weekday| == 3 && NoSpace(weekday) && ',' !in weekday
    ensures ParseFields(weekday + ", " + Join(DateTokens(v, rem), ' '))
         == Some(DateFields(v.year, v.month, v.day, ClockText(rem)))
  {
    TokensAreWords(v, rem);
    TokensParse(v, rem);
    LineParses(weekday, DateTokens(v, rem), v.day, v.month, v.year);
  }

  lemma SecondsOfClock(f: DateFields, days: nat, rem: nat, secs: nat)
    requires ParseClock(f.time) == Some(rem) && secs == days * 86_400 + rem
    requires DaysFromCivil(f.year, f.month, f.day) == days
    ensures SecondsOf(f) == Some(secs)
  {
  }

  lemma DateParsesTo(text: string, v: Date, rem: nat, weekday: string, secs: nat)
    requires ValidDate(v) && 1970 <= v.year < I64_LIMIT && rem < 86_400
    requires DaysFromCivil(v.year, v.month, v.day) >= 0
    requires secs == DaysFromCivil(v.year, v.month, v.day) * 86_400 + rem
    requires |weekday| == 3 && NoSpace(weekday) && ',' !in weekday
    requires text == weekday + ", " + Join(DateTokens(v, rem), ' ')
    ensures ParseHttpDate(text) == Some(secs)
  {
    DateParses(v, rem, weekday);
    ClockRoundTrip(rem);
    SecondsOfClock(DateFields(v.year, v.month, v.day, ClockText(rem)), DaysFromCivil(v.year, v.month, v.day), rem, secs);
  }

  /** What the printer writes, in terms of the date it names. */
  lemma PrintedDate(secs: nat) returns (v: Date, rem: nat, weekday: string)
    requires secs < U64_LIMIT
    ensures ValidDate(v) && 1970 <= v.year < I64_LIMIT && rem < 86_400
    ensures DaysFromCivil(v.year, v.month, v.day) >= 0
    ensures secs == DaysFromCivil(v.year, v.month, v.day) * 86_400 + rem
    ensures |weekday| == 3 && NoSpace(weekday) && ',' !in weekday
    ensures FormatHttpDate(secs) == weekday + ", " + Join(DateTokens(v, rem), ' ')
  {
    v := DateOfDay(secs / 86_400);
    rem, weekday := secs % 86_400, Weekday(secs / 86_400);
  }

  lemma DateOfDay(days: nat) returns (v: Date)
    requires days < U64_LIMIT
    ensures v == CivilFromDays(days) && ValidDate(v) && 1970 <= v.year < I64_LIMIT
    ensures DaysFromCivil(v.year, v.month, v.day) == days
  {
    v := CivilFromDays(days);
    CivilIsCalendar(days);
    YearFits(days);
    CivilRoundTrip(days, v);
  }

  // ----- Main results on dates -----

  /** Parsing a printed date gives back the second count, for every u64. */
  lemma DateRoundTrip(secs: nat)
    requires secs < U64_LIMIT
    ensures ParseHttpDate(FormatHttpDate(secs)) == Some(secs)
  {
    var v, rem, weekday := PrintedDate(secs);
    DateParsesTo(FormatHttpDate(secs), v, rem, weekday, secs);
  }

  /** Distinct second counts never print the same date. */
  lemma DatesDistinct(a: nat, b: nat)
    requires a < U64_LIMIT && b < U64_LIMIT && FormatHttpDate(a) == FormatHttpDate(b)
    ensures a == b
  {
    DateRoundTrip(a);
    DateRoundTrip(b);
  }

  function ShortYearTokens(v: Date, rem: nat): seq<string>
    requires 1 <= v.month <= 12 && v.day >= 0
  {
    [Padded(v.day, 2), MonthName(v.month), Padded(v.year % 100, 2), ClockText(rem), "GMT"]
  }

  predicate IsWord(t: string) {
    t != [] && NoSpace(t)
  }

  lemma FiveWords(weekday: string, day: string, month: string, year: string, clock: string, zone: string, d: int, m: int, y: int)
    requires |weekday| == 3 && NoSpace(weekday) && ',' !in weekday
    requires IsWord(day) && IsWord(month) && IsWord(year) && IsWord(clock) && IsWord(zone)
    requires ParseSigned(day, I64_LIMIT) == Some(d) && MonthIndex(month) == Some(m) && ParseSigned(year, I64_LIMIT) == Some(y)
    ensures ParseFields(weekday + ", " + Join([day, month, year, clock, zone], ' ')) == Some(DateFields(FullYear(y), m, d, clock))
  {
    LineParses(weekday, [day, month, year, clock, zone], d, m, y);
  }

  lemma ShortYearParses(v: Date, rem: nat, weekday: string)
    requires ValidDate(v) && 1970 <= v.year < 2070 && rem < 86_400
    requires |weekday| == 3 && NoSpace(weekday) && ',' !in weekday
    ensures ParseFields(weekday + ", " + Join(ShortYearTokens(v, rem), ' '))
         == Some(DateFields(v.year, v.month, v.day, ClockText(rem)))
  {
    NumberWord(v.day, 2);
    MonthWord(v.month);
    NumberWord(v.year % 100, 2);
    ClockIsWord(rem);
    ShortYearIs(v.year);
    FiveWords(weekday, Padded(v.day, 2), MonthName(v.month), Padded(v.year % 100, 2), ClockText(rem), "GMT",
              v.day, v.month, v.year % 100);
  }

  lemma NumberWord(n: nat, width: nat)
    requires n < I64_LIMIT
    ensures IsWord(Padded(n, width)) && ParseSigned(Padded(n, width), I64_LIMIT) == Some(n)
  {
    PaddedToken(n, width);
  }

  lemma MonthWord(m: int)
    requires 1 <= m <= 12
    ensures IsWord(MonthName(m)) && MonthIndex(MonthName(m)) == Some(m)
  {
    MonthIndexOfName(m);
  }

  lemma ClockIsWord(rem: nat)
    requires rem < 86_400
    ensures IsWord(ClockText(rem))
  {
    ClockRoundTrip(rem);
  }

  lemma ShortYearIs(year: int)
    requires 1970 <= year < 2070
    ensures FullYear(year % 100) == year
  {
  }

  /** Two-digit years are those from 1970 to 2069: within them the line with a short year parses
      to the same second as the full one. */
  lemma ShortYearRoundTrip(secs: nat) returns (v: Date)
    requires secs < U64_LIMIT && CivilFromDays(secs / 86_400).year < 2070
    ensures v == CivilFromDays(secs / 86_400) && 1 <= v.month <= 12 && v.day >= 0
    ensures ParseHttpDate(Weekday(secs / 86_400) + ", " + Join(ShortYearTokens(v, secs % 86_400), ' ')) == Some(secs)
  {
    v := DateOfDay(secs / 86_400);
    ShortYearParses(v, secs % 86_400, Weekday(secs / 86_400));
    ClockRoundTrip(secs % 86_400);
    SecondsOfClock(DateFields(v.year, v.month, v.day, ClockText(secs % 86_400)), secs / 86_400, secs % 86_400, secs);
  }

  // ----- The asctime shape -----

  /** `Sun Nov  6 08:49:37 1994`: the day takes two places, the first of them perhaps a space. */
  function AsctimeDate(secs: nat): string {
    var days, rem := secs / 86_400, secs % 86_400;
    var v := CivilFromDays(days);
    CivilIsCalendar(days);
    EpochOrder(days);
    Weekday(days) + " " + (MonthName(v.month) + [' ']
      + ((if v.day < 10 then " " else "") + Join([Padded(v.day, 1), ClockText(rem), Padded(v.year, 4)], ' ')))
  }

  lemma MonthIsNoNumber(m: int)
    requires 1 <= m <= 12
    ensures ParseSigned(MonthName(m), I64_LIMIT) == None
  {
    var n := MonthName(m);
    assert 'A' <= n[0] <= 'Z';
    assert DigitValue(n[0], 10) == None;
  }

  lemma SpacedWeekdayDropped(day: string, rest: string)
    requires day != [] && NoSpace(day) && ',' !in day
    requires rest != [] && !IsSpace(rest[0]) && !IsSpace(rest[|rest| - 1])
    ensures AfterWeekday(Trim(day + " " + rest)) == rest
  {
    var s := day + " " + rest;
    assert s[0] == day[0] && s[|s| - 1] == rest[|rest| - 1];
    TrimTight(s);
    assert forall k | 0 <= k < |day| :: s[k] == day[k];
    SkipWeekday(s, |day|, 0);
    assert s[|day| + 1..] == rest;
    TrimTight(rest);
  }

  lemma AsctimeWords(weekday: string, month: string, pad: string, tokens: seq<string>)
    requires weekday != [] && NoSpace(weekday) && ',' !in weekday && month != [] && NoSpace(month)
    requires |tokens| >= 1 && (forall i | 0 <= i < |tokens| :: tokens[i] != [] && NoSpace(tokens[i]))
    requires pad == "" || pad == " "
    ensures Words(AfterWeekday(Trim(weekday + " " + (month + [' '] + (pad + Join(tokens, ' ')))))) == [month] + tokens
  {
    var tail := Join(tokens, ' ');
    JoinEnds(tokens);
    WordsJoin(tokens);
    SpacedEnds(month, pad, tail);
    SpacedWeekdayDropped(weekday, month + [' '] + (pad + tail));
    WordThen(month, pad + tail);
    PadIsNoWord(pad, tail);
  }

  lemma SpacedEnds(month: string, pad: string, tail: string)
    requires month != [] && tail != []
    ensures var rest := month + [' '] + (pad + tail);
            rest != [] && rest[0] == month[0] && rest[|rest| - 1] == tail[|tail| - 1]
  {
  }

  lemma PadIsNoWord(pad: string, tail: string)
    requires pad == "" || pad == " "
    ensures Words(pad + tail) == Words(tail)
  {
    if pad == " " { assert (pad + tail)[1..] == tail; } else { assert pad + tail == tail; }
  }

  lemma AsctimeFields(weekday: string, month: int, pad: string, tokens: seq<string>, day: int, year: int)
    requires weekday != [] && NoSpace(weekday) && ',' !in weekday && 1 <= month <= 12 && (pad == "" || pad == " ")
    requires |tokens| == 3 && forall i | 0 <= i < 3 :: tokens[i] != [] && NoSpace(tokens[i])
    requires ParseSigned(tokens[0], I64_LIMIT) == Some(day) && ParseSigned(tokens[2], I64_LIMIT) == Some(year)
    ensures ParseFields(weekday + " " + (MonthName(month) + [' '] + (pad + Join(tokens, ' '))))
         == Some(DateFields(year, month, day, tokens[1]))
  {
    MonthIndexOfName(month);
    MonthIsNoNumber(month);
    AsctimeWords(weekday, MonthName(month), pad, tokens);
  }

  lemma AsctimeParses(v: Date, rem: nat, weekday: string, pad: string)
    requires ValidDate(v) && 1970 <= v.year < I64_LIMIT && rem < 86_400
    requires weekday != [] && NoSpace(weekday) && ',' !in weekday && (pad == "" || pad == " ")
    ensures ParseFields(weekday + " " + (MonthName(v.month) + [' ']
              + (pad + Join([Padded(v.day, 1), ClockText(rem), Padded(v.year, 4)], ' '))))
         == Some(DateFields(v.year, v.month, v.day, ClockText(rem)))
  {
    NumberWord(v.day, 1);
    NumberWord(v.year, 4);
    ClockIsWord(rem);
    AsctimeTokens(weekday, v.month, pad, Padded(v.day, 1), ClockText(rem), Padded(v.year, 4), v.day, v.year);
  }

  lemma AsctimeTokens(weekday: string, month: int, pad: string, day: string, clock: string, year: string, d: int, y: int)
    requires weekday != [] && NoSpace(weekday) && ',' !in weekday && 1 <= month <= 12 && (pad == "" || pad == " ")
    requires IsWord(day) && IsWord(clock) && IsWord(year)
    requires ParseSigned(day, I64_LIMIT) == Some(d) && ParseSigned(year, I64_LIMIT) == Some(y)
    ensures ParseFields(weekday + " " + (MonthName(month) + [' '] + (pad + Join([day, clock, year], ' '))))
         == Some(DateFields(y, month, d, clock))
  {
    AsctimeFields(weekday, month, pad, [day, clock, year], d, y);
  }

  /** Main result: a date in the asctime shape parses back as well. */
  lemma AsctimeRoundTrip(secs: nat)
    requires secs < U64_LIMIT
    ensures ParseHttpDate(AsctimeDate(secs)) == Some(secs)
  {
    var v := DateOfDay(secs / 86_400);
    var rem, pad := secs % 86_400, if v.day < 10 then " " else "";
    AsctimeParses(v, rem, Weekday(secs / 86_400), pad);
    AsctimeSeconds(AsctimeDate(secs), v, rem, secs);
  }

  lemma AsctimeSeconds(text: string, v: Date, rem: nat, secs: nat)
    requires ParseFields(text) == Some(DateFields(v.year, v.month, v.day, ClockText(rem))) && rem < 86_400
    requires DaysFromCivil(v.year, v.month, v.day) >= 0 && secs == DaysFromCivil(v.year, v.month, v.day) * 86_400 + rem
    ensures ParseHttpDate(text) == Some(secs)
  {
    ClockRoundTrip(rem);
    SecondsOfClock(DateFields(v.year, v.month, v.day, ClockText(rem)), DaysFromCivil(v.year, v.month, v.day), rem, secs);
  }

  /** A time without seconds stands for the full minute. */
  lemma ClockWithoutSeconds(a: string, b: string, hh: nat, mm: nat)
    requires ':' !in a && ':' !in b
    requires ParseUnsigned(a, 10, U64_LIMIT) == Some(hh) && ParseUnsigned(b, 10, U64_LIMIT) == Some(mm)
    ensures ParseClock(a + ":" + b) == Some(hh * 3600 + mm * 60)
  {
    TwoParts(a, b);
    ZeroParses();
  }

  lemma TwoParts(a: string, b: string)
    requires ':' !in a && ':' !in b
    ensures Split(a + ":" + b, ':') == [a, b]
  {
    SplitWhole(a, ':');
    SplitWhole(b, ':');
    SplitAt(a, b, ':');
  }

  lemma ZeroParses()
    ensures ParseUnsigned("0", 10, U64_LIMIT) == Some(0)
  {
    assert "0"[..0] == [] && NumeralValue([], 10) == 0;
  }

  /** The obsolete `Sunday, 06-Nov-94 08:49:37 GMT` shape is refused, whatever its weekday
      and date, although the parser's comment lists it: its date is a single word. */
  lemma HyphenatedDateRefused(day: string, date: string, time: string, zone: string)
    requires day != [] && NoSpace(day) && ',' !in day
    requires date != [] && time != [] && zone != [] && NoSpace(date) && NoSpace(time) && NoSpace(zone)
    ensures ParseHttpDate(day + ", " + Join([date, time, zone], ' ')) == None
  {
    LineWords(day, [date, time, zone]);
  }

  function NextWeekday(name: string): string {
    match name
    case "Sun" => "Mon" case "Mon" => "Tue" case "Tue" => "Wed" case "Wed" => "Thu"
    case "Thu" => "Fri" case "Fri" => "Sat" case _ => "Sun"
  }

  /** The weekday counted one day at a time from Thursday 1970-01-01. */
  function WeekdayOf(days: nat): string {
    if days == 0 then "Thu" else NextWeekday(WeekdayOf(days - 1))
  }

  lemma WeekdaySteps(days: nat)
    ensures Weekday(days + 1) == NextWeekday(Weekday(days))
  {
    var i := (days + 4) % 7;
    assert (days + 5) % 7 == (i + 1) % 7;
    assert i == 0 || i == 1 || i == 2 || i == 3 || i == 4 || i == 5 || i == 6;
  }

  lemma {:induction false} WeekdayIsCounted(days: nat)
    ensures Weekday(days) == WeekdayOf(days)
  {
    if days > 0 {
      WeekdayIsCounted(days - 1);
      WeekdaySteps(days - 1);
    }
  }

  /** The English month names. */
  function MonthCalled(m: int): string {
    match m
    case 1 => "Jan" case 2 => "Feb" case 3 => "Mar" case 4 => "Apr" case 5 => "May" case 6 => "Jun"
    case 7 => "Jul" case 8 => "Aug" case 9 => "Sep" case 10 => "Oct" case 11 => "Nov" case _ => "Dec"
  }

  lemma MonthNames(m: int)
    requires 1 <= m <= 12
    ensures MonthName(m) == MonthCalled(m) && MonthIndex(MonthCalled(m)) == Some(m)
  {
    MonthIndexOfName(m);
  }

  /** Main result: the printed line names the weekday and the date of the day-by-day calendar, and the
      hour, minute and second, each in its fixed place. */
  lemma PrintsTheCalendar(secs: nat)
    ensures var days, rem, v := secs / 86_400, secs % 86_400, DateOf(secs / 86_400);
            ValidDate(v) && v.year >= 0
            && FormatHttpDate(secs)
               == WeekdayOf(days) + ", "
                  + Join([Padded(v.day, 2), MonthCalled(v.month), Padded(v.year, 4),
                          Padded(rem / 3600, 2) + ":" + Padded(rem % 3600 / 60, 2) + ":" + Padded(rem % 60, 2), "GMT"], ' ')
  {
    WeekdayIsCounted(secs / 86_400);
    CivilIsCalendar(secs / 86_400);
    EpochOrder(secs / 86_400);
    MonthNames(DateOf(secs / 86_400).month);
  }

  /** A number below 100 is printed with two digits, of the decimal value. */
  lemma TwoDigits(n: nat)
    requires n < 100
    ensures Padded(n, 2) == [('0' as int + n / 10) as char, ('0' as int + n % 10) as char]
  {
    if n < 10 {
      assert Numeral(n, 10) == [DigitChar(n)];
      assert ZeroPad([DigitChar(n)], 2) == ZeroPad("0" + [DigitChar(n)], 2) == "0" + [DigitChar(n)];
    } else {
      assert Numeral(n / 10, 10) == [DigitChar(n / 10)];
    }
  }

  // ----- Conditional requests -----

  /** Whole seconds since the epoch of a time in nanoseconds, none before it. */
  function EpochSecs(t: int): Option<nat> {
    if t < 0 then None else Some(t / 1_000_000_000)
  }

  function EtagFrom(mtime: int, len: nat): Option<string> {
    match EpochSecs(mtime)
    case None => None
    case Some(secs) => Some("\"" + Numeral(secs, 16) + "-" + Numeral(len, 16) + "\"")
  }

  predicate TagMatches(offered: string, tag: string) {
    var t := Trim(offered);
    var bare := if "W/" <= t then t[2..] else t;
    bare == "*" || bare == tag
  }

  /** Headers are absent or text; `mtime` is absent when the file has none. */
  predicate NotModified(ifNoneMatch: Option<string>, ifModifiedSince: Option<string>,
                        etag: Option<string>, mtime: Option<int>) {
    if ifNoneMatch.Some? && etag.Some? then
      exists t | t in Split(ifNoneMatch.value, ',') :: TagMatches(t, etag.value)
    else if ifModifiedSince.Some? && mtime.Some? then
      match (ParseHttpDate(ifModifiedSince.value), EpochSecs(mtime.value))
      case (Some(since), Some(modified)) => modified <= since
      case _ => false
    else false
  }

  lemma EtagShape(mtime: int, len: nat)
    requires mtime >= 0
    ensures var tag := EtagFrom(mtime, len).value;
            NoSpace(tag) && ',' !in tag && |tag| >= 2 && tag[0] == '"' && tag[|tag| - 1] == '"'
  {
    var secs := mtime / 1_000_000_000;
    NumeralRoundTrip(secs, 16);
    NumeralRoundTrip(len, 16);
    DigitsAreNotSpace(Numeral(secs, 16), 16);
    DigitsAreNotSpace(Numeral(len, 16), 16);
  }

  /** Two entity tags are equal only for the same second and the same length. */
  lemma EtagInjective(mtime: int, len: nat, mtime2: int, len2: nat)
    requires mtime >= 0 && mtime2 >= 0 && EtagFrom(mtime, len) == EtagFrom(mtime2, len2)
    ensures EpochSecs(mtime) == EpochSecs(mtime2) && len == len2
  {
    var a, b := mtime / 1_000_000_000, mtime2 / 1_000_000_000;
    TagBody(a, len);
    TagBody(b, len2);
    NumeralRoundTrip(a, 16);
    NumeralRoundTrip(b, 16);
    NumeralRoundTrip(len, 16);
    NumeralRoundTrip(len2, 16);
  }

  lemma TagBody(secs: nat, len: nat)
    ensures var tag := "\"" + Numeral(secs, 16) + "-" + Numeral(len, 16) + "\"";
            Split(tag[1..|tag| - 1], '-') == [Numeral(secs, 16), Numeral(len, 16)]
  {
    var tag := "\"" + Numeral(secs, 16) + "-" + Numeral(len, 16) + "\"";
    assert tag[1..|tag| - 1] == Numeral(secs, 16) + "-" + Numeral(len, 16);
    NumeralRoundTrip(secs, 16);
    NumeralRoundTrip(len, 16);
    DigitsAreNotSpace(Numeral(secs, 16), 16);
    DigitsAreNotSpace(Numeral(len, 16), 16);
    SplitWhole(Numeral(secs, 16), '-');
    SplitWhole(Numeral(len, 16), '-');
    SplitAt(Numeral(secs, 16), Numeral(len, 16), '-');
  }

  /** A client that sends back one of our tags, anywhere in a list of any tags, with or without
      a weak prefix and with any white space around it, is told "not modified" exactly when the
      file still has that second and length or another offered tag matches. */
  lemma TagEchoDecides(before: seq<string>, left: string, right: string, after: seq<string>, weak: bool,
                       mtime: int, len: nat, now: int, nowLen: nat, since: Option<string>)
    requires mtime >= 0 && now >= 0
    requires forall t | t in before + after :: ',' !in t
    requires forall c | c in left + right :: IsSpace(c)
    ensures var offered := (if weak then "W/" else "") + EtagFrom(mtime, len).value;
            var tag := EtagFrom(now, nowLen);
            NotModified(Some(Join(before + [left + offered + right] + after, ',')), since, tag, Some(now))
            <==> (EpochSecs(mtime) == EpochSecs(now) && len == nowLen)
                 || (exists t | t in before + after :: TagMatches(t, tag.value))
  {
    var raw := EtagFrom(mtime, len).value;
    EtagShape(mtime, len);
    OfferedShape(raw, weak);
    PaddedTag(left, (if weak then "W/" else "") + raw, right);
    PaddedEcho(before, left + ((if weak then "W/" else "") + raw) + right, after, raw, weak, EtagFrom(now, nowLen).value);
    if raw == EtagFrom(now, nowLen).value { EtagInjective(mtime, len, now, nowLen); }
  }

  lemma OfferedShape(raw: string, weak: bool)
    requires raw != [] && NoSpace(raw) && ',' !in raw
    ensures var offered := (if weak then "W/" else "") + raw;
            offered != [] && NoSpace(offered) && ',' !in offered
  {
  }

  lemma PaddedEcho(before: seq<string>, padded: string, after: seq<string>, raw: string, weak: bool, tag: string)
    requires |raw| >= 2 && raw[0] == '"' && Trim(padded) == (if weak then "W/" else "") + raw
    requires ',' !in padded && forall t | t in before + after :: ',' !in t
    ensures (exists t | t in Split(Join(before + [padded] + after, ','), ',') :: TagMatches(t, tag))
            <==> raw == tag || exists t | t in before + after :: TagMatches(t, tag)
  {
    OfferedMatches(padded, raw, weak, tag);
    SplitJoin(before + [padded] + after, ',');
    MiddlePiece(before, padded, after, tag);
  }

  /** A star anywhere in the list is "not modified", whatever the file's tag. */
  lemma StarAlwaysMatches(before: seq<string>, left: string, right: string, after: seq<string>, tag: string,
                          since: Option<string>, mtime: Option<int>)
    requires forall t | t in before + after :: ',' !in t
    requires forall c | c in left + right :: IsSpace(c)
    ensures NotModified(Some(Join(before + [left + "*" + right] + after, ',')), since, Some(tag), mtime)
  {
    var padded := left + "*" + right;
    PaddedTag(left, "*", right);
    SplitJoin(before + [padded] + after, ',');
    assert TagMatches(padded, tag) && padded in before + [padded] + after;
  }

  /** White space on either side of a tag is trimmed away. */
  lemma PaddedTag(left: string, tag: string, right: string)
    requires tag != [] && NoSpace(tag) && ',' !in tag
    requires forall c | c in left + right :: IsSpace(c)
    ensures Trim(left + tag + right) == tag && ',' !in left + tag + right
  {
    assert left + tag + right == left + (tag + right);
    SpaceBefore(left, tag + right);
    SpaceAfter(tag, right);
    assert forall c | c in left :: c in left + right;
    assert forall c | c in right :: c in left + right;
  }

  lemma {:induction false} SpaceBefore(left: string, s: string)
    requires (forall c | c in left :: IsSpace(c)) && s != [] && !IsSpace(s[0])
    ensures TrimStart(left + s) == s
  {
    if left == [] {
      assert left + s == s;
    } else {
      SpaceBefore(left[1..], s);
      assert (left + s)[1..] == left[1..] + s && (left + s)[0] == left[0];
    }
  }

  lemma {:induction false} SpaceAfter(s: string, right: string)
    requires (forall c | c in right :: IsSpace(c)) && s != [] && !IsSpace(s[|s| - 1])
    ensures TrimEnd(s + right) == s
  {
    if right == [] {
      assert s + right == s;
    } else {
      var n := |right| - 1;
      SpaceAfter(s, right[..n]);
      assert (s + right)[..|s + right| - 1] == s + right[..n] && (s + right)[|s + right| - 1] == right[n];
    }
  }

  lemma OfferedMatches(padded: string, raw: string, weak: bool, tag: string)
    requires |raw| >= 2 && raw[0] == '"' && Trim(padded) == (if weak then "W/" else "") + raw
    ensures TagMatches(padded, tag) <==> raw == tag
  {
    var offered := Trim(padded);
    if weak { assert offered == "W/" + raw && offered[2..] == raw; } else { assert offered == raw; }
    assert raw != "*";
  }

  lemma MiddlePiece(a: seq<string>, mid: string, b: seq<string>, tag: string)
    ensures (exists t | t in a + [mid] + b :: TagMatches(t, tag))
            <==> TagMatches(mid, tag) || exists t | t in a + b :: TagMatches(t, tag)
  {
    assert forall t :: t in a + [mid] + b <==> t == mid || t in a + b;
    assert mid in a + [mid] + b;
  }

  /** Echoing just our own tag is "not modified" iff second and length are unchanged. */
  lemma OwnTagDecides(mtime: int, len: nat, now: int, nowLen: nat, since: Option<string>)
    requires mtime >= 0 && now >= 0
    ensures NotModified(EtagFrom(mtime, len), since, EtagFrom(now, nowLen), Some(now))
            <==> EpochSecs(mtime) == EpochSecs(now) && len == nowLen
  {
    var raw, tag := EtagFrom(mtime, len).value, EtagFrom(now, nowLen).value;
    EtagShape(mtime, len);
    TrimTight(raw);
    SplitWhole(raw, ',');
    assert !("W/" <= raw);
    assert raw in Split(raw, ',');
    if raw == tag { EtagInjective(mtime, len, now, nowLen); }
  }

  /** Without a tag, a client that sends back a date we printed is told "not modified"
      exactly when the file's second is at or before the printed one. */
  lemma DateEchoDecides(printed: nat, mtime: int, etag: Option<string>)
    requires printed < U64_LIMIT && mtime >= 0
    ensures NotModified(None, Some(FormatHttpDate(printed)), etag, Some(mtime))
            <==> mtime / 1_000_000_000 <= printed
  {
    DateRoundTrip(printed);
  }
}
