/** The `Date` header: the Gregorian date of a Unix time (section 3.3 of RFC 5322). */
module Calendar {
  import opened Prelude
  import opened Arithmetic
  import opened Text

  const DAY_SECS: nat := 86_400
  const U64_END: nat := 0x1_0000_0000_0000_0000
  const I64_END: nat := 0x8000_0000_0000_0000

  datatype Date = Date(year: nat, month: nat, day: nat)

  // ----- the calendar -----

  predicate IsLeap(year: nat) {
    year % 4 == 0 && (year % 100 != 0 || year % 400 == 0)
  }

  function DaysInMonth(year: nat, month: nat): nat
    requires 1 <= month <= 12
  {
    if month == 2 then (if IsLeap(year) then 29 else 28)
    else if month in {4, 6, 9, 11} then 30 else 31
  }

  predicate IsDate(d: Date) {
    1 <= d.month <= 12 && 1 <= d.day <= DaysInMonth(d.year, d.month)
  }

  function Tomorrow(d: Date): (r: Date)
    requires IsDate(d)
    ensures IsDate(r)
  {
    if d.day < DaysInMonth(d.year, d.month) then d.(day := d.day + 1)
    else if d.month < 12 then Date(d.year, d.month + 1, 1)
    else Date(d.year + 1, 1, 1)
  }

  /** The date `n` days after 1 January 1970, counted one day at a time. */
  function DateAfter(n: nat): (d: Date)
    ensures IsDate(d)
  {
    if n == 0 then Date(1970, 1, 1) else Tomorrow(DateAfter(n - 1))
  }

  // ----- days to civil, by division alone -----

  function YearOfEra(doe: nat): int {
    (doe - doe / 1_460 + doe / 36_524 - doe / 146_096) / 365
  }

  /** The days of an era before the March that starts its year `yoe`. */
  function EraStart(yoe: int): int {
    365 * yoe + yoe / 4 - yoe / 100
  }

  function MonthFromMarch(doy: int): int {
    (5 * doy + 2) / 153
  }

  function MonthStart(mp: int): int {
    (153 * mp + 2) / 5
  }

  /** A day of a year that starts in March. */
  function OfMarchYear(year: nat, doy: nat): Date
    requires doy <= 365
  {
    var mp := MonthFromMarch(doy);
    var month := if mp < 10 then mp + 3 else mp - 9;
    var day := doy - MonthStart(mp) + 1;
    assert 0 <= mp < 12 && MonthStart(mp) <= doy;
    Date(year + if month <= 2 then 1 else 0, month, day)
  }

  function Civil(days: nat): Date {
    var z := days + 719_468;
    var era := z / 146_097;
    var doe := z % 146_097;
    var yoe := YearOfEra(doe);
    YearInRange(doe);
    OfMarchYear(yoe + era * 400, doe - EraStart(yoe))
  }

  // ----- the year of an era -----

  predicate IsMarchYear(yoe: int, doy: int) {
    && 0 <= yoe < 400
    && 0 <= doy < if (yoe + 1) % 4 == 0 && ((yoe + 1) % 100 != 0 || (yoe + 1) % 400 == 0) then 366 else 365
  }

  lemma Centuries(c: int, k: int, j: int)
    requires 0 <= c < 4 && 0 <= k < 25 && 0 <= j < 4
    ensures EraStart(100 * c + 4 * k + j) == 36_524 * c + 1_461 * k + 365 * j
    ensures (100 * c + 4 * k + j + 1) % 4 == 0 <==> j == 3
    ensures (100 * c + 4 * k + j + 1) % 100 == 0 <==> j == 3 && k == 24
    ensures (100 * c + 4 * k + j + 1) % 400 == 0 <==> j == 3 && k == 24 && c == 3
  {
    var y := 100 * c + 4 * k + j;
    assert y / 100 == c && y / 4 == 25 * c + k;
  }

  /** The four divisions of a day, by its century, its four years, its year and its day of that year. */
  lemma EraDivisions(c: int, k: int, j: int, doy: int)
    requires 0 <= c < 4 && 0 <= k < 25 && 0 <= j < 4 && 0 <= doy <= 365
    requires doy == 365 ==> j == 3 && (k < 24 || c == 3)
    ensures var doe := 36_524 * c + 1_461 * k + 365 * j + doy;
      0 <= doe < 146_097 && YearOfEra(doe) == 100 * c + 4 * k + j
  {
    var days := 1_461 * k + 365 * j + doy;
    var doe := 36_524 * c + days;
    var rest := 24 * c + k + 365 * j + doy;
    var e := if rest >= 1_460 then 1 else 0;
    ModIs(1_460, 25 * c + k + e, rest - 1_460 * e);
    var d := if days == 36_524 then 1 else 0;
    ModIs(36_524, c + d, days - 36_524 * d);
    ModIs(146_096, d, doe - 146_096 * d);
    ModIs(365, 100 * c + 4 * k + j, doy - e);
    hide YearOfEra;
    YearSum(doe, 25 * c + k + e, c + d, d);
  }

  lemma YearSum(doe: nat, fours: int, hundreds: int, eras: int)
    requires doe / 1_460 == fours && doe / 36_524 == hundreds && doe / 146_096 == eras
    ensures YearOfEra(doe) == (doe - fours + hundreds - eras) / 365
  {
  }

  lemma YearOfDay(yoe: int, doy: int)
    requires IsMarchYear(yoe, doy)
    ensures 0 <= EraStart(yoe) + doy < 146_097 && YearOfEra(EraStart(yoe) + doy) == yoe
  {
    var c, k, j := yoe / 100, yoe % 100 / 4, yoe % 100 % 4;
    assert yoe == 100 * c + 4 * k + j;
    Centuries(c, k, j);
    EraDivisions(c, k, j, doy);
    hide YearOfEra, EraStart;
  }

  lemma DayOfYear(doe: int) returns (yoe: int, doy: int)
    requires 0 <= doe < 146_097
    ensures IsMarchYear(yoe, doy) && doe == EraStart(yoe) + doy
  {
    var c := if doe == 146_096 then 3 else doe / 36_524;
    var d1 := doe - 36_524 * c;
    var k := d1 / 1_461;
    var d2 := d1 - 1_461 * k;
    var j := if d2 == 1_460 then 3 else d2 / 365;
    yoe, doy := 100 * c + 4 * k + j, d2 - 365 * j;
    Centuries(c, k, j);
  }

  lemma YearInRange(doe: int)
    requires 0 <= doe < 146_097
    ensures IsMarchYear(YearOfEra(doe), doe - EraStart(YearOfEra(doe)))
  {
    var yoe, doy := DayOfYear(doe);
    YearOfDay(yoe, doy);
  }

  // ----- counting back -----

  function DaysBeforeYear(year: nat): nat
    requires year >= 1
  {
    365 * (year - 1) + (year - 1) / 4 - (year - 1) / 100 + (year - 1) / 400
  }

  function DaysBeforeMonth(year: nat, month: nat): nat
    requires 1 <= month <= 12
  {
    if month == 1 then 0 else DaysBeforeMonth(year, month - 1) + DaysInMonth(year, month - 1)
  }

  /** The day's number, 1 January 1970 being 0. */
  function DayNumber(d: Date): int
    requires IsDate(d) && d.year >= 1
  {
    DaysBeforeYear(d.year) + DaysBeforeMonth(d.year, d.month) + d.day - 1 - 719_162
  }

  lemma Leaps(year: nat)
    ensures year % 400 == 0 ==> year % 100 == 0
    ensures year % 100 == 0 ==> year % 4 == 0
  {
    if year % 400 == 0 {
      ModIs(100, 4 * (year / 400), 0);
    }
    if year % 100 == 0 {
      ModIs(4, 25 * (year / 100), 0);
    }
  }

  lemma YearLength(year: nat)
    requires year >= 1
    ensures DaysBeforeYear(year + 1) == DaysBeforeYear(year) + if IsLeap(year) then 366 else 365
  {
    DivNext(year, 4);
    DivNext(year, 100);
    DivNext(year, 400);
    Leaps(year);
  }

  lemma MonthTable(year: nat)
    ensures var l := if IsLeap(year) then 1 else 0;
      && DaysBeforeMonth(year, 1) == 0 && DaysBeforeMonth(year, 2) == 31
      && DaysBeforeMonth(year, 3) == 59 + l && DaysBeforeMonth(year, 4) == 90 + l
      && DaysBeforeMonth(year, 5) == 120 + l && DaysBeforeMonth(year, 6) == 151 + l
      && DaysBeforeMonth(year, 7) == 181 + l && DaysBeforeMonth(year, 8) == 212 + l
      && DaysBeforeMonth(year, 9) == 243 + l && DaysBeforeMonth(year, 10) == 273 + l
      && DaysBeforeMonth(year, 11) == 304 + l && DaysBeforeMonth(year, 12) == 334 + l
  {
    hide IsLeap;
    assert DaysBeforeMonth(year, 1) == 0;
    assert DaysBeforeMonth(year, 2) == 31;
    assert DaysBeforeMonth(year, 4) == DaysBeforeMonth(year, 3) + 31;
    assert DaysBeforeMonth(year, 6) == DaysBeforeMonth(year, 4) + 61;
    assert DaysBeforeMonth(year, 8) == DaysBeforeMonth(year, 6) + 61;
    assert DaysBeforeMonth(year, 10) == DaysBeforeMonth(year, 8) + 61;
    assert DaysBeforeMonth(year, 12) == DaysBeforeMonth(year, 10) + 61;
  }

  /** Counting from tomorrow is counting one more. */
  lemma {:induction false} TomorrowNumber(d: Date)
    requires IsDate(d) && d.year >= 1
    ensures DayNumber(Tomorrow(d)) == DayNumber(d) + 1
  {
    if d.day == DaysInMonth(d.year, d.month) && d.month == 12 {
      MonthTable(d.year);
      YearLength(d.year);
      hide DaysBeforeYear;
      assert DaysBeforeMonth(d.year + 1, 1) == 0;
    }
  }

  /** The days from 1 March to each month's start. */
  const MARCH_STARTS: seq<nat> := [306, 337, 0, 31, 61, 92, 122, 153, 184, 214, 245, 275]

  /** The most days each month has. */
  const LONGEST: seq<nat> := [31, 29, 31, 30, 31, 30, 31, 31, 30, 31, 30, 31]

  /** The day of a March year is a date, and its number counts the years before. */
  lemma {:induction false} MarchDate(era: nat, yoe: int, doy: int)
    requires IsMarchYear(yoe, doy) && 400 * era + yoe >= 1
    ensures var d := OfMarchYear(400 * era + yoe, doy);
      && IsDate(d) && DayNumber(d) == 146_097 * era + EraStart(yoe) + doy - 719_468
  {
    var y := 400 * era + yoe;
    EraYears(era, yoe);
    LeapInEra(era, yoe);
    YearLength(y);
    MarchMonths(y, doy);
    hide DaysBeforeYear, EraStart, OfMarchYear, DayNumber;
    MarchInYear(y, doy, OfMarchYear(y, doy));
  }

  /** A March year starts in one year of the calendar, after its 28 or 29 February, and ends in the next. */
  lemma MarchInYear(y: nat, doy: nat, d: Date)
    requires y >= 1 && doy < if IsLeap(y + 1) then 366 else 365
    requires 1 <= d.month <= 12 && d.day >= 1 && d.year == y + (if d.month <= 2 then 1 else 0)
    requires doy == d.day - 1 + MARCH_STARTS[d.month - 1] && d.day <= LONGEST[d.month - 1]
    ensures IsDate(d) && DayNumber(d) == DaysBeforeYear(y + 1) + doy - 719_468
  {
    MonthTable(d.year);
    YearLength(y);
    hide IsLeap, DaysBeforeYear, DaysBeforeMonth;
    var m := d.month;
    assert m == 1 || m == 2 || m == 3 || m == 4 || m == 5 || m == 6
        || m == 7 || m == 8 || m == 9 || m == 10 || m == 11 || m == 12;
  }

  lemma LeapInEra(era: nat, yoe: int)
    requires 0 <= yoe < 400
    ensures IsLeap(400 * era + yoe + 1) <==>
      (yoe + 1) % 4 == 0 && ((yoe + 1) % 100 != 0 || (yoe + 1) % 400 == 0)
  {
    var y := yoe + 1;
    ModAdd(4, 100 * era, y);
    ModAdd(100, 4 * era, y);
    ModAdd(400, era, y);
  }

  lemma EraYears(era: nat, yoe: int)
    requires 0 <= yoe < 400
    ensures DaysBeforeYear(400 * era + yoe + 1) == 146_097 * era + EraStart(yoe)
  {
    ModAdd(4, 100 * era, yoe);
    ModAdd(100, 4 * era, yoe);
    ModAdd(400, era, yoe);
  }

  /** Where the twelve months from March start. */
  lemma MarchMonths(year: nat, doy: nat)
    requires doy <= 365
    ensures var d := OfMarchYear(year, doy);
      && (d.month >= 3 <==> d.year == year) && (d.month <= 2 <==> d.year == year + 1) && 1 <= d.month <= 12
      && d.day >= 1
      && doy == d.day - 1 + MARCH_STARTS[d.month - 1] && d.day <= LONGEST[d.month - 1]
  {
    var mp := MonthFromMarch(doy);
    assert 0 <= mp < 12;
    assert mp == 0 || mp == 1 || mp == 2 || mp == 3 || mp == 4 || mp == 5
        || mp == 6 || mp == 7 || mp == 8 || mp == 9 || mp == 10 || mp == 11;
  }

  /** Every date is a day of some March year. */
  lemma {:induction false} MarchBack(d: Date) returns (era: nat, yoe: int, doy: int)
    requires IsDate(d) && d.year >= 2
    ensures IsMarchYear(yoe, doy) && 400 * era + yoe >= 1 && OfMarchYear(400 * era + yoe, doy) == d
  {
    var year := d.year - if d.month <= 2 then 1 else 0;
    doy := MARCH_STARTS[d.month - 1] + d.day - 1;
    era, yoe := year / 400, year % 400;
    LeapInEra(era, yoe);
    MonthOfDay(d);
  }

  lemma MonthOfDay(d: Date)
    requires IsDate(d)
    ensures var doy := MARCH_STARTS[d.month - 1] + d.day - 1;
      && doy <= 365 && MonthFromMarch(doy) == (d.month + 9) % 12 && MonthStart((d.month + 9) % 12) == MARCH_STARTS[d.month - 1]
  {
    var m := d.month;
    assert m == 1 || m == 2 || m == 3 || m == 4 || m == 5 || m == 6
        || m == 7 || m == 8 || m == 9 || m == 10 || m == 11 || m == 12;
  }

  /** The division undoes the count, for every date from 1970 on. */
  lemma {:induction false} CivilCounts(d: Date)
    requires IsDate(d) && d.year >= 1970
    ensures DayNumber(d) >= 0 && Civil(DayNumber(d)) == d
  {
    FromEpoch(d);
    var era, yoe, doy := MarchBack(d);
    MarchDate(era, yoe, doy);
    YearOfDay(yoe, doy);
    hide IsMarchYear, IsDate, EraStart, YearOfEra, OfMarchYear, DayNumber, Civil;
    CivilOf(DayNumber(d), era, EraStart(yoe) + doy);
  }

  lemma CivilOf(days: nat, era: nat, doe: nat)
    requires days + 719_468 == 146_097 * era + doe && doe < 146_097
    ensures IsMarchYear(YearOfEra(doe), doe - EraStart(YearOfEra(doe)))
    ensures Civil(days) == OfMarchYear(400 * era + YearOfEra(doe), doe - EraStart(YearOfEra(doe)))
  {
    YearInRange(doe);
    hide EraStart, YearOfEra, OfMarchYear;
    ModIs(146_097, era, doe);
  }

  lemma FromEpoch(d: Date)
    requires IsDate(d) && d.year >= 1970
    ensures DayNumber(d) >= 0
  {
  }

  lemma {:induction false} DateAfterNumber(n: nat)
    ensures DateAfter(n).year >= 1970 && DayNumber(DateAfter(n)) == n
  {
    if n == 0 {
      MonthTable(1970);
    } else {
      DateAfterNumber(n - 1);
      TomorrowNumber(DateAfter(n - 1));
    }
  }

  /** The division gives the Gregorian date: day after day from 1 January 1970. */
  lemma {:induction false} CivilIsGregorian(n: nat)
    ensures Civil(n) == DateAfter(n) && IsDate(Civil(n))
    ensures Civil(n + 1) == Tomorrow(Civil(n))
    ensures Civil(n).year >= 1970 && DayNumber(Civil(n)) == n
  {
    hide Civil, DayNumber;
    DateAfterNumber(n);
    CivilCounts(DateAfter(n));
    DateAfterNumber(n + 1);
    CivilCounts(DateAfter(n + 1));
  }

  // ----- the weekday -----

  datatype Weekday = Mon | Tue | Wed | Thu | Fri | Sat | Sun

  function NextWeekday(w: Weekday): Weekday {
    match w
    case Mon => Tue case Tue => Wed case Wed => Thu case Thu => Fri case Fri => Sat case Sat => Sun case Sun => Mon
  }

  function Name(w: Weekday): (s: string)
    ensures |s| == 3
  {
    match w
    case Mon => "Mon" case Tue => "Tue" case Wed => "Wed" case Thu => "Thu" case Fri => "Fri" case Sat => "Sat" case Sun => "Sun"
  }

  /** The weekday `n` days after Thursday, 1 January 1970. */
  function WeekdayAfter(n: nat): Weekday {
    if n == 0 then Thu else NextWeekday(WeekdayAfter(n - 1))
  }

  const DAYS: seq<string> := ["Thu", "Fri", "Sat", "Sun", "Mon", "Tue", "Wed"]

  const MONTHS: seq<string> :=
    ["Jan", "Feb", "Mar", "Apr", "May", "Jun", "Jul", "Aug", "Sep", "Oct", "Nov", "Dec"]

  lemma {:induction false} WeekdayCycles(n: nat)
    ensures DAYS[n % 7] == Name(WeekdayAfter(n))
    ensures DAYS[n % 7] == Name([Thu, Fri, Sat, Sun, Mon, Tue, Wed][n % 7])
    ensures WeekdayAfter(n) == [Thu, Fri, Sat, Sun, Mon, Tue, Wed][n % 7]
  {
    if n > 0 {
      WeekdayCycles(n - 1);
    }
  }

  // ----- the header's text -----

  /** The `Date` header's value. */
  function Rfc5322Date(secs: nat): (s: string)
    requires secs < U64_END
  {
    var days := secs / DAY_SECS;
    var time := secs % DAY_SECS;
    var d := Civil(days);
    CivilIsGregorian(days);
    DAYS[days % 7] + ", " + TwoDigits(d.day) + " " + MONTHS[d.month - 1] + " " + Decimal(d.year)
    + " " + TwoDigits(time / 3600) + ":" + TwoDigits(time / 60 % 60) + ":" + TwoDigits(time % 60) + " +0000"
  }

  /** The month three letters name (section 3.3 of RFC 5322). */
  function MonthNamed(a: char, b: char, c: char): (r: Option<nat>)
    ensures r.Some? ==> 1 <= r.value <= 12
  {
    if a == 'J' && b == 'a' && c == 'n' then Some(1)
    else if a == 'F' && b == 'e' && c == 'b' then Some(2)
    else if a == 'M' && b == 'a' && c == 'r' then Some(3)
    else if a == 'A' && b == 'p' && c == 'r' then Some(4)
    else if a == 'M' && b == 'a' && c == 'y' then Some(5)
    else if a == 'J' && b == 'u' && c == 'n' then Some(6)
    else if a == 'J' && b == 'u' && c == 'l' then Some(7)
    else if a == 'A' && b == 'u' && c == 'g' then Some(8)
    else if a == 'S' && b == 'e' && c == 'p' then Some(9)
    else if a == 'O' && b == 'c' && c == 't' then Some(10)
    else if a == 'N' && b == 'o' && c == 'v' then Some(11)
    else if a == 'D' && b == 'e' && c == 'c' then Some(12)
    else None
  }

  /** How far ahead of Coordinated Universal Time a zone is, in seconds. */
  function ZoneNamed(s: string): Option<int>
    requires |s| == 5
  {
    match (DecimalValue(s[1..3]), DecimalValue(s[3..5]))
    case (Some(h), Some(m)) =>
      var ahead: int := h * 3600 + m * 60;
      if s[0] == '+' then Some(ahead) else if s[0] == '-' then Some(0 - ahead) else None
    case _ => None
  }

  /** The marks between a date-time's fields, the year ending at `at`. */
  predicate Marked(s: string, at: nat)
    requires 12 <= at && |s| == at + 15
  {
    && s[3] == ',' && s[4] == ' ' && s[7] == ' ' && s[11] == ' '
    && s[at] == ' ' && s[at + 3] == ':' && s[at + 6] == ':' && s[at + 9] == ' '
  }

  /** The second a date-time names, read by its fields' places. */
  function SecondNamed(s: string): Option<int> {
    if |s| < 28 || !Marked(s, |s| - 15) then None else
      var at := |s| - 15;
      match (DecimalValue(s[5..7]), MonthNamed(s[8], s[9], s[10]), DecimalValue(s[12..at]), ZoneNamed(s[at + 10..]))
      case (Some(day), Some(month), Some(year), Some(zone)) =>
        if year < 1 || !IsDate(Date(year, month, day)) then None else
          (match (DecimalValue(s[at + 1..at + 3]), DecimalValue(s[at + 4..at + 6]), DecimalValue(s[at + 7..at + 9]))
           case (Some(h), Some(m), Some(sec)) =>
             Some(DayNumber(Date(year, month, day)) * DAY_SECS + h * 3600 + m * 60 + sec - zone)
           case _ => None)
      case _ => None
  }

  lemma Fields(day: string, date: string, month: string, year: string, h: string, m: string, sec: string)
    requires |day| == |month| == 3 && |date| == |h| == |m| == |sec| == 2 && year != []
    ensures
      var s := day + ", " + date + " " + month + " " + year + " " + h + ":" + m + ":" + sec + " +0000";
      var at := |s| - 15;
      && |s| >= 28 && s[..3] == day && s[5..7] == date && s[8..11] == month && s[12..at] == year
      && s[at + 1..at + 3] == h && s[at + 4..at + 6] == m && s[at + 7..at + 9] == sec
      && s[at + 10..] == "+0000" && Marked(s, at) && s[8] == month[0] && s[9] == month[1] && s[10] == month[2]
  {
    var s := day + ", " + date + " " + month + " " + year + " " + h + ":" + m + ":" + sec + " +0000";
    assert s == (day + ", " + date + " " + month + " ") + year + (" " + h + ":" + m + ":" + sec + " +0000");
  }

  lemma MonthsNamed(month: nat)
    requires 1 <= month <= 12
    ensures var s := MONTHS[month - 1]; |s| == 3 && MonthNamed(s[0], s[1], s[2]) == Some(month)
  {
    assert month == 1 || month == 2 || month == 3 || month == 4 || month == 5 || month == 6
        || month == 7 || month == 8 || month == 9 || month == 10 || month == 11 || month == 12;
  }

  lemma NoZone()
    ensures ZoneNamed("+0000") == Some(0)
  {
    var s := "+0000";
    assert s[1..3] == ['0', '0'] && s[3..5] == ['0', '0'];
    assert ['0', '0'][..1] == ['0'] && ['0'][..0] == [];
    assert DecimalValue(['0']) == Some(0);
    assert DecimalValue(['0', '0']) == Some(0);
  }

  /** Every second's header names that second and its weekday: no two read alike. */
  lemma {:induction false} DateReadsBack(secs: nat)
    requires secs < U64_END
    ensures SecondNamed(Rfc5322Date(secs)) == Some(secs)
    ensures |Rfc5322Date(secs)| >= 28 && Rfc5322Date(secs)[..3] == Name(WeekdayAfter(secs / DAY_SECS))
  {
    hide Civil, Tomorrow, DateAfter, DayNumber, IsDate, Decimal, DecimalValue, TwoDigits, MonthNamed, ZoneNamed, WeekdayAfter, Name;
    var days, time := secs / DAY_SECS, secs % DAY_SECS;
    var d := Civil(days);
    CivilIsGregorian(days);
    WeekdayCycles(days);
    DecimalReads(d.year);
    DayFits(d);
    TwoDigitsRead(d.day);
    TwoDigitsRead(time / 3600);
    TwoDigitsRead(time / 60 % 60);
    TwoDigitsRead(time % 60);
    MonthsNamed(d.month);
    NoZone();
    Fields(DAYS[days % 7], TwoDigits(d.day), MONTHS[d.month - 1], Decimal(d.year),
           TwoDigits(time / 3600), TwoDigits(time / 60 % 60), TwoDigits(time % 60));
  }

  lemma DayFits(d: Date)
    requires IsDate(d)
    ensures d.day < 100 && 1 <= d.month <= 12
  {
  }

  /** Nothing the division computes for a 64-bit time leaves the signed 64-bit range. */
  lemma NoOverflow(secs: nat)
    requires secs < U64_END
    ensures var z := secs / DAY_SECS + 719_468;
      var yoe := YearOfEra(z % 146_097);
      && z < I64_END && 0 <= yoe < 400 && 0 <= z % 146_097 - EraStart(yoe) <= 365
      && yoe + z / 146_097 * 400 + 1 < I64_END && Civil(secs / DAY_SECS).year < I64_END
  {
    YearInRange((secs / DAY_SECS + 719_468) % 146_097);
  }
}
