/** Seconds since the Epoch and broken-down UTC time, as defined by section 4.16 of the Base
    Definitions of IEEE Std 1003.1-2017, and the mysql time buffer built on them
    (src/mysql/binding.cpp:128-153, 213-220, 333-363; src/sql_time.cpp:58-60). */
module Calendar {

  /** The fields of `struct tm` that the library reads or writes; `year` counts from 1900. */
  datatype Tm = Tm(sec: int, min: int, hour: int, mday: int, mon: int, year: int)

  predicate IsLeap(y: int) {
    y % 4 == 0 && (y % 100 != 0 || y % 400 == 0)
  }

  function YearLength(y: int): int {
    if IsLeap(y) then 366 else 365
  }

  /** Days from 1970-01-01 to the first of January of year y, year by year. */
  function DaysBeforeYear(y: int): int
    decreases if y > 1970 then y - 1970 else 1970 - y
  {
    if y == 1970 then 0
    else if y > 1970 then DaysBeforeYear(y - 1) + YearLength(y - 1)
    else DaysBeforeYear(y + 1) - YearLength(y)
  }

  /** The year terms of the standard's formula, with `tm_year` = y - 1900. */
  function FormulaDays(y: int): int {
    var tmYear := y - 1900;
    (tmYear - 70) * 365 + (tmYear - 69) / 4 - (tmYear - 1) / 100 + (tmYear + 299) / 400
  }

  lemma FourthYear(y: int)
    ensures (y - 1968) / 4 == (y - 1969) / 4 + if y % 4 == 0 then 1 else 0
  {
  }

  lemma HundredthYear(y: int)
    ensures (y - 1900) / 100 == (y - 1901) / 100 + if y % 100 == 0 then 1 else 0
  {
  }

  lemma FourHundredthYear(y: int)
    ensures (y - 1600) / 400 == (y - 1601) / 400 + if y % 400 == 0 then 1 else 0
  {
  }

  lemma LeapYears(y: int)
    ensures YearLength(y) == 365 + (if y % 4 == 0 then 1 else 0) - (if y % 100 == 0 then 1 else 0)
                             + if y % 400 == 0 then 1 else 0
  {
    var c := y / 400;
    assert y % 400 == 0 ==> y == 100 * (4 * c);
    var h := y / 100;
    assert y % 100 == 0 ==> y == 4 * (25 * h);
  }

  lemma FormulaStep(y: int)
    ensures FormulaDays(y + 1) == FormulaDays(y) + YearLength(y)
  {
    FourthYear(y);
    HundredthYear(y);
    FourHundredthYear(y);
    LeapYears(y);
  }

  /** Counting years one by one agrees with the standard's formula. */
  lemma {:induction false} FormulaAgrees(y: int)
    ensures DaysBeforeYear(y) == FormulaDays(y)
    decreases if y > 1970 then y - 1970 else 1970 - y
  {
    if y > 1970 {
      FormulaAgrees(y - 1);
      FormulaStep(y - 1);
    } else if y < 1970 {
      FormulaAgrees(y + 1);
      FormulaStep(y);
    }
  }

  lemma YearStep(y: int)
    ensures DaysBeforeYear(y + 1) == DaysBeforeYear(y) + YearLength(y)
  {
  }

  function MonthLength(leap: bool, m: int): int {
    if m == 1 then (if leap then 29 else 28)
    else if m == 3 || m == 5 || m == 8 || m == 10 then 30
    else 31
  }

  /** Days of the year before month m, counted from 0; month 12 gives the length of the year. */
  function DaysBeforeMonth(leap: bool, m: int): int
    requires 0 <= m <= 12
  {
    if m == 0 then 0 else DaysBeforeMonth(leap, m - 1) + MonthLength(leap, m - 1)
  }

  lemma YearIsMonths(leap: bool)
    ensures DaysBeforeMonth(leap, 12) == if leap then 366 else 365
  {
    assert DaysBeforeMonth(leap, 1) == 31;
    assert DaysBeforeMonth(leap, 2) == if leap then 60 else 59;
    assert DaysBeforeMonth(leap, 4) == DaysBeforeMonth(leap, 2) + 61;
    assert DaysBeforeMonth(leap, 6) == DaysBeforeMonth(leap, 4) + 61;
    assert DaysBeforeMonth(leap, 8) == DaysBeforeMonth(leap, 6) + 62;
    assert DaysBeforeMonth(leap, 10) == DaysBeforeMonth(leap, 8) + 61;
    assert DaysBeforeMonth(leap, 12) == DaysBeforeMonth(leap, 10) + 61;
  }

  lemma {:induction false} MonthsIncrease(leap: bool, m: int, n: int)
    requires 0 <= m < n <= 12
    ensures 0 <= DaysBeforeMonth(leap, m) && DaysBeforeMonth(leap, m) + MonthLength(leap, m) <= DaysBeforeMonth(leap, n)
    decreases n
  {
    if m > 0 {
      MonthsIncrease(leap, m - 1, m);
    }
    if m + 1 < n {
      MonthsIncrease(leap, m, n - 1);
    }
  }

  /** The day of the year on which month m starts, in closed form and without a table of lengths. */
  function MonthStart(leap: bool, m: int): int {
    if m == 0 then 0 else if m == 1 then 31 else 59 + (if leap then 1 else 0) + (153 * (m - 2) + 2) / 5
  }

  /** Counting months by their lengths agrees with the closed form. */
  lemma {:induction false} MonthsAgree(leap: bool, m: int)
    requires 0 <= m <= 12
    ensures DaysBeforeMonth(leap, m) == MonthStart(leap, m)
    decreases m
  {
    if m > 0 {
      MonthsAgree(leap, m - 1);
    }
  }

  /** `timegm`: the formula, with the day of the year taken from month and day. */
  function TimeGm(t: Tm): int
    requires 0 <= t.mon < 12
  {
    var yday := DaysBeforeMonth(IsLeap(t.year + 1900), t.mon) + t.mday - 1;
    t.sec + t.min * 60 + t.hour * 3600 + (yday + FormulaDays(t.year + 1900)) * 86400
  }

  // ----- finding year and month -----

  function Distance(days: int, y: int): nat {
    YearStep(y);
    if days < DaysBeforeYear(y) then DaysBeforeYear(y) - days
    else if days >= DaysBeforeYear(y + 1) then days - DaysBeforeYear(y + 1) + 1
    else 0
  }

  /** The year a day falls in, searched from year y. */
  function YearFrom(days: int, y: int): (r: int)
    ensures DaysBeforeYear(r) <= days < DaysBeforeYear(r + 1)
    decreases Distance(days, y)
  {
    YearStep(y - 1);
    YearStep(y);
    YearStep(y + 1);
    if days < DaysBeforeYear(y) then YearFrom(days, y - 1)
    else if days >= DaysBeforeYear(y + 1) then YearFrom(days, y + 1)
    else y
  }

  function YearOf(days: int): (r: int)
    ensures DaysBeforeYear(r) <= days < DaysBeforeYear(r + 1)
  {
    YearFrom(days, 1970 + days / 366)
  }

  lemma {:induction false} YearsIncrease(y: int, z: int)
    requires y < z
    ensures DaysBeforeYear(y + 1) <= DaysBeforeYear(z)
    decreases z - y
  {
    if y + 1 < z {
      YearsIncrease(y, z - 1);
      YearStep(z - 1);
    }
  }

  lemma YearUnique(days: int, y: int, z: int)
    requires DaysBeforeYear(y) <= days < DaysBeforeYear(y + 1)
    requires DaysBeforeYear(z) <= days < DaysBeforeYear(z + 1)
    ensures y == z
  {
    if y < z {
      YearsIncrease(y, z);
    } else if z < y {
      YearsIncrease(z, y);
    }
  }

  function MonthFrom(leap: bool, yday: int, m: int): (r: int)
    requires 0 <= m < 12 && DaysBeforeMonth(leap, m) <= yday < DaysBeforeMonth(leap, 12)
    ensures 0 <= r < 12 && DaysBeforeMonth(leap, r) <= yday < DaysBeforeMonth(leap, r + 1)
    decreases 12 - m
  {
    if yday < DaysBeforeMonth(leap, m + 1) then m else MonthFrom(leap, yday, m + 1)
  }

  lemma MonthUnique(leap: bool, yday: int, m: int, n: int)
    requires 0 <= m < 12 && DaysBeforeMonth(leap, m) <= yday < DaysBeforeMonth(leap, m + 1)
    requires 0 <= n < 12 && DaysBeforeMonth(leap, n) <= yday < DaysBeforeMonth(leap, n + 1)
    ensures m == n
  {
    if m < n {
      MonthsIncrease(leap, m, n);
    } else if n < m {
      MonthsIncrease(leap, n, m);
    }
  }

  /** Year, month from 0 and day from 1 of a day number. */
  function DateOf(days: int): (r: (int, int, int))
    ensures 0 <= r.1 < 12 && 1 <= r.2 <= MonthLength(IsLeap(r.0), r.1)
    ensures DaysBeforeYear(r.0) + DaysBeforeMonth(IsLeap(r.0), r.1) + r.2 - 1 == days
  {
    var y := YearOf(days);
    YearStep(y);
    YearIsMonths(IsLeap(y));
    var yday := days - DaysBeforeYear(y);
    var m := MonthFrom(IsLeap(y), yday, 0);
    (y, m, yday - DaysBeforeMonth(IsLeap(y), m) + 1)
  }

  /** The day number of a date. */
  function DayNumber(y: int, m: int, d: int): int
    requires 0 <= m < 12
  {
    DaysBeforeYear(y) + DaysBeforeMonth(IsLeap(y), m) + d - 1
  }

  lemma DateWithinYear(y: int, m: int, d: int)
    requires 0 <= m < 12 && 1 <= d <= MonthLength(IsLeap(y), m)
    ensures DaysBeforeYear(y) <= DayNumber(y, m, d) < DaysBeforeYear(y + 1)
  {
    MonthsIncrease(IsLeap(y), m, 12);
    YearIsMonths(IsLeap(y));
    YearStep(y);
  }

  lemma DateUnique(y: int, m: int, d: int, y': int, m': int, d': int)
    requires 0 <= m < 12 && 1 <= d <= MonthLength(IsLeap(y), m)
    requires 0 <= m' < 12 && 1 <= d' <= MonthLength(IsLeap(y'), m')
    requires DayNumber(y, m, d) == DayNumber(y', m', d')
    ensures y == y' && m == m' && d == d'
  {
    DateWithinYear(y, m, d);
    DateWithinYear(y', m', d');
    YearUnique(DayNumber(y, m, d), y, y');
    MonthUnique(IsLeap(y), DaysBeforeMonth(IsLeap(y), m) + d - 1, m, m');
  }

  lemma DateOfDays(y: int, m: int, d: int)
    requires 0 <= m < 12 && 1 <= d <= MonthLength(IsLeap(y), m)
    ensures DateOf(DayNumber(y, m, d)) == (y, m, d)
  {
    var r := DateOf(DayNumber(y, m, d));
    DateUnique(y, m, d, r.0, r.1, r.2);
  }

  /** `gmtime`. */
  function GmTime(seconds: int): (t: Tm)
    ensures ValidTm(t)
  {
    var (y, m, d) := DateOf(seconds / 86400);
    var clock := seconds % 86400;
    Tm(clock % 60, clock / 60 % 60, clock / 3600, d, m, y - 1900)
  }

  /** A date and time of day that exists. */
  predicate ValidTm(t: Tm) {
    && 0 <= t.sec < 60 && 0 <= t.min < 60 && 0 <= t.hour < 24 && 0 <= t.mon < 12
    && 1 <= t.mday <= MonthLength(IsLeap(t.year + 1900), t.mon)
  }

  lemma TimeGmByDays(t: Tm)
    requires 0 <= t.mon < 12
    ensures TimeGm(t) == t.sec + t.min * 60 + t.hour * 3600 + DayNumber(t.year + 1900, t.mon, t.mday) * 86400
  {
    FormulaAgrees(t.year + 1900);
  }

  lemma ClockJoins(clock: int)
    ensures clock % 60 + clock / 60 % 60 * 60 + clock / 3600 * 3600 == clock
  {
    assert clock / 3600 == clock / 60 / 60;
  }

  /** The seconds of a date and time by closed formulas alone: the standard's for the year, the closed
      form for the month. */
  lemma TimeGmFormula(t: Tm)
    requires 0 <= t.mon < 12
    ensures TimeGm(t) == t.sec + t.min * 60 + t.hour * 3600
                         + (FormulaDays(t.year + 1900) + MonthStart(IsLeap(t.year + 1900), t.mon) + t.mday - 1) * 86400
  {
    MonthsAgree(IsLeap(t.year + 1900), t.mon);
  }

  /** A month has as many days as lie between its start and the next. */
  lemma MonthLengthFormula(leap: bool, m: int)
    requires 0 <= m < 12
    ensures MonthLength(leap, m) == MonthStart(leap, m + 1) - MonthStart(leap, m)
  {
    MonthsAgree(leap, m);
    MonthsAgree(leap, m + 1);
  }

  lemma FirstOfMay1970(seconds: int)
    requires seconds == 10368000
    ensures GmTime(seconds) == Tm(0, 0, 0, 1, 4, 70)
  {
    Instant(Tm(0, 0, 0, 1, 4, 70), 0, false, 120, seconds);
  }

  lemma LeapDay2000(seconds: int)
    requires seconds == 951782400
    ensures GmTime(seconds) == Tm(0, 0, 0, 29, 1, 100)
  {
    Instant(Tm(0, 0, 0, 29, 1, 100), 10957, true, 31, seconds);
  }

  lemma Instant(t: Tm, days: int, leap: bool, start: int, seconds: int)
    requires 0 <= t.mon < 12 && 1 <= t.mday <= 29 && t.sec == t.min == t.hour == 0 && (t.mon == 1 ==> leap)
    requires days == FormulaDays(t.year + 1900) && leap == IsLeap(t.year + 1900) && start == MonthStart(leap, t.mon)
    requires seconds == (days + start + t.mday - 1) * 86400
    ensures GmTime(seconds) == t
  {
    EarlyDayExists(leap, t.mon, t.mday);
    InstantSeconds(t, days, leap, start, seconds);
    GmTimeOfTimeGm(t);
  }

  lemma InstantSeconds(t: Tm, days: int, leap: bool, start: int, seconds: int)
    requires 0 <= t.mon < 12 && t.sec == t.min == t.hour == 0
    requires days == FormulaDays(t.year + 1900) && leap == IsLeap(t.year + 1900) && start == MonthStart(leap, t.mon)
    requires seconds == (days + start + t.mday - 1) * 86400
    ensures TimeGm(t) == seconds
  {
    TimeGmFormula(t);
  }

  lemma EarlyDayExists(leap: bool, m: int, d: int)
    requires d <= 28 || (d == 29 && (m == 1 ==> leap))
    ensures d <= MonthLength(leap, m)
  {
  }

  /** Breaking any number of seconds down and putting it together again is the identity. */
  lemma TimeGmOfGmTime(seconds: int)
    ensures TimeGm(GmTime(seconds)) == seconds
  {
    var t := GmTime(seconds);
    TimeGmByDays(t);
    ClockJoins(seconds % 86400);
    assert DayNumber(t.year + 1900, t.mon, t.mday) == seconds / 86400;
  }

  /** And so is the other order, for every date and time of day that exists. */
  lemma GmTimeOfTimeGm(t: Tm)
    requires ValidTm(t)
    ensures GmTime(TimeGm(t)) == t
  {
    TimeGmByDays(t);
    GmTimeAt(TimeGm(t), t);
  }

  lemma GmTimeAt(s: int, t: Tm)
    requires ValidTm(t)
    requires s == t.sec + t.min * 60 + t.hour * 3600 + DayNumber(t.year + 1900, t.mon, t.mday) * 86400
    ensures GmTime(s) == t
  {
    var clock, days := t.sec + t.min * 60 + t.hour * 3600, DayNumber(t.year + 1900, t.mon, t.mday);
    ClockSplits(t.hour, t.min, t.sec);
    DaySplits(days, clock);
    assert s / 86400 == days && s % 86400 == clock;
    DateOfDays(t.year + 1900, t.mon, t.mday);
  }

  lemma ClockSplits(hour: int, min: int, sec: int)
    requires 0 <= hour < 24 && 0 <= min < 60 && 0 <= sec < 60
    ensures var clock := sec + min * 60 + hour * 3600;
            0 <= clock < 86400 && clock / 3600 == hour && clock / 60 % 60 == min && clock % 60 == sec
  {
    var clock := sec + min * 60 + hour * 3600;
    assert clock / 60 == min + hour * 60;
  }

  lemma DaySplits(days: int, clock: int)
    requires 0 <= clock < 86400
    ensures (clock + days * 86400) / 86400 == days && (clock + days * 86400) % 86400 == clock
  {
  }

  // ----- the mysql time buffer -----

  datatype Format = DATE | TIME | DATETIME | TIMESTAMP

  /** `sql_time`: seconds and format. */
  datatype SqlTime = SqlTime(value: int, format: Format)

  datatype BufferType = TypeDate | TypeTime | TypeDatetime | TypeTimestamp

  /** `MYSQL_TIME` with its unsigned fields, and the type of the binding that holds it. */
  datatype TimeBuffer = TimeBuffer(kind: BufferType, year: nat, month: nat, day: nat, hour: nat, minute: nat, second: nat)

  const UINT: int := 0x1_0000_0000

  function ToUnsigned(n: int): (r: nat)
    ensures r < UINT
  {
    n % UINT
  }

  function ToInt(n: nat): int
    requires n < UINT
  {
    if n < UINT / 2 then n else n - UINT
  }

  /** `data_mapper::set_time`. */
  function SetTime(v: SqlTime): TimeBuffer {
    var kind := match v.format
      case DATE => TypeDate
      case TIME => TypeTime
      case DATETIME => TypeDatetime
      case TIMESTAMP => TypeTimestamp;
    TmBuffer(kind, GmTime(v.value))
  }

  function TmBuffer(kind: BufferType, t: Tm): TimeBuffer {
    TimeBuffer(kind, ToUnsigned(t.year + 1900), ToUnsigned(t.mon + 1), ToUnsigned(t.mday),
               ToUnsigned(t.hour), ToUnsigned(t.min), ToUnsigned(t.sec))
  }

  /** The fields that `parse_time` hands to `timegm`. */
  function BufferTm(b: TimeBuffer): Tm {
    Tm(ToInt(ToUnsigned(b.second)), ToInt(ToUnsigned(b.minute)), ToInt(ToUnsigned(b.hour)), ToInt(ToUnsigned(b.day)),
       ToInt(ToUnsigned(b.month - 1)), ToInt(ToUnsigned(b.year - 1900)))
  }

  /** `to_value` and `parse_time`. */
  function ParseTime(b: TimeBuffer): SqlTime
    requires 0 <= BufferTm(b).mon < 12
  {
    var format := match b.kind
      case TypeTime => TIME
      case TypeDate => DATE
      case TypeTimestamp => TIMESTAMP
      case TypeDatetime => DATETIME;
    SqlTime(TimeGm(BufferTm(b)), format)
  }

  /** Storing any time into the mysql buffer and reading it back returns the same seconds and the
      same format, for every year that `tm_year + 1900` can hold in an int, negative ones included. */
  lemma StoredTimeReadsBack(v: SqlTime)
    requires -0x8000_0000 <= GmTime(v.value).year && GmTime(v.value).year + 1900 < 0x8000_0000
    ensures 0 <= BufferTm(SetTime(v)).mon < 12
    ensures ParseTime(SetTime(v)) == v
  {
    BufferHolds(SetTime(v).kind, GmTime(v.value));
    TimeGmOfGmTime(v.value);
  }

  /** The fields of the buffer: month from 1, everything in its range. */
  lemma BufferFields(kind: BufferType, t: Tm)
    requires ValidTm(t) && 0 <= t.year + 1900 < UINT
    ensures TmBuffer(kind, t) == TimeBuffer(kind, t.year + 1900, t.mon + 1, t.mday, t.hour, t.min, t.sec)
  {
    SmallSurvives(t.sec);
    SmallSurvives(t.min);
    SmallSurvives(t.hour);
    SmallSurvives(t.mday);
    SmallSurvives(t.mon + 1);
  }

  /** The seconds that a buffer with fields in range stands for. */
  function BufferSeconds(b: TimeBuffer): int {
    b.second + b.minute * 60 + b.hour * 3600
    + (FormulaDays(b.year) + MonthStart(IsLeap(b.year), b.month - 1) + b.day - 1) * 86400
  }

  /** What the buffer says: a date that exists and a time of day, by closed formulas exactly the seconds
      stored, in a buffer of the type named like the format. */
  lemma StoredTimeMeans(v: SqlTime)
    requires 0 <= GmTime(v.value).year + 1900 < UINT
    ensures var b := SetTime(v);
            && 1 <= b.month <= 12 && 1 <= b.day <= MonthStart(IsLeap(b.year), b.month) - MonthStart(IsLeap(b.year), b.month - 1)
            && b.hour < 24 && b.minute < 60 && b.second < 60 && BufferSeconds(b) == v.value
            && (b.kind == TypeDate <==> v.format == DATE) && (b.kind == TypeTime <==> v.format == TIME)
            && (b.kind == TypeDatetime <==> v.format == DATETIME)
  {
    TimeGmOfGmTime(v.value);
    BufferMeans(SetTime(v).kind, GmTime(v.value));
  }

  lemma BufferMeans(kind: BufferType, t: Tm)
    requires ValidTm(t) && 0 <= t.year + 1900 < UINT
    ensures var b := TmBuffer(kind, t);
            && 1 <= b.month <= 12 && 1 <= b.day <= MonthStart(IsLeap(b.year), b.month) - MonthStart(IsLeap(b.year), b.month - 1)
            && b.hour < 24 && b.minute < 60 && b.second < 60 && BufferSeconds(b) == TimeGm(t) && b.kind == kind
  {
    BufferFields(kind, t);
    MonthLengthFormula(IsLeap(t.year + 1900), t.mon);
    TimeGmFormula(t);
  }

  lemma BufferHolds(kind: BufferType, t: Tm)
    requires ValidTm(t) && -0x8000_0000 <= t.year && t.year + 1900 < 0x8000_0000
    ensures BufferTm(TmBuffer(kind, t)) == t
  {
    YearSurvives(t.year);
    SmallSurvives(t.sec);
    SmallSurvives(t.min);
    SmallSurvives(t.hour);
    SmallSurvives(t.mday);
    assert ToUnsigned(t.mon + 1) == t.mon + 1;
    SmallSurvives(t.mon);
  }

  lemma SmallSurvives(n: int)
    requires 0 <= n < 1000
    ensures ToUnsigned(n) == n && ToInt(ToUnsigned(ToUnsigned(n))) == n
  {
  }

  lemma YearSurvives(y: int)
    requires -0x8000_0000 <= y && y + 1900 < 0x8000_0000
    ensures ToInt(ToUnsigned(ToUnsigned(y + 1900) - 1900)) == y
  {
    var u := ToUnsigned(y + 1900);
    if y + 1900 >= 0 {
      assert u == y + 1900;
    } else {
      assert u == y + 1900 + UINT;
    }
  }
}
