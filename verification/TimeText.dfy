/** Times as text: the printing of `sql_time::to_string` and the cascade of patterns tried by
    `sql_time::parse` (src/sql_time.cpp:7-45, 70-83).

    The scanner follows `strptime` of the C library: a number field skips blanks, takes at most its
    width in digits and stops before exceeding its range; trailing text is ignored; and a pattern
    that fails leaves behind the fields it had already scanned, which the next pattern starts from. */
module TimeText {
  import opened SqlText
  import opened Calendar
  import D = Decimal

  // ----- printing -----

  function TwoDigits(n: int): string
    requires 0 <= n < 100
  {
    [D.DigitChar(n / 10), D.DigitChar(n % 10)]
  }

  function FourDigits(n: int): string
    requires 0 <= n < 10000
  {
    TwoDigits(n / 100) + TwoDigits(n % 100)
  }

  /** The years that `%Y` prints with exactly four digits. */
  predicate FourDigitYear(t: Tm) {
    1000 <= t.year + 1900 <= 9999
  }

  /** `%Y-%m-%d` */
  function DateText(t: Tm): string
    requires ValidTm(t) && FourDigitYear(t)
  {
    FourDigits(t.year + 1900) + "-" + TwoDigits(t.mon + 1) + "-" + TwoDigits(t.mday)
  }

  /** `%H:%M:%S` */
  function ClockText(t: Tm): string
    requires ValidTm(t)
  {
    TwoDigits(t.hour) + ":" + TwoDigits(t.min) + ":" + TwoDigits(t.sec)
  }

  /** `sql_time::to_string`. */
  function ToText(v: SqlTime): string
    requires FourDigitYear(GmTime(v.value))
  {
    TmText(GmTime(v.value), v.format)
  }

  function TmText(t: Tm, format: Format): string
    requires ValidTm(t) && FourDigitYear(t)
  {
    match format
    case DATE => DateText(t)
    case TIME => ClockText(t)
    case _ => DateText(t) + " " + ClockText(t)
  }

  lemma ReadTwoDigits(n: int)
    requires 0 <= n < 100
    ensures D.AllDigits(TwoDigits(n)) && D.ReadDigits(TwoDigits(n), 0) == n
  {
    var s := TwoDigits(n);
    assert s[1..] == [D.DigitChar(n % 10)] && s[1..][1..] == [];
    assert D.ReadDigits(s[1..], n / 10) == n;
  }

  lemma ReadFourDigits(n: int)
    requires 0 <= n < 10000
    ensures D.AllDigits(FourDigits(n)) && D.ReadDigits(FourDigits(n), 0) == n
  {
    var s := FourDigits(n);
    var a, b := n / 100, n % 100;
    assert s[1..] == [D.DigitChar(a % 10), D.DigitChar(b / 10), D.DigitChar(b % 10)];
    assert s[1..][1..] == [D.DigitChar(b / 10), D.DigitChar(b % 10)];
    assert s[1..][1..][1..] == [D.DigitChar(b % 10)] && s[1..][1..][1..][1..] == [];
    assert D.ReadDigits(s[1..][1..][1..], a * 10 + b / 10) == a * 100 + b;
    assert D.ReadDigits(s[1..][1..], a) == a * 100 + b;
    assert D.ReadDigits(s[1..], a / 10) == a * 100 + b;
  }

  /** What the text of a date says: year, month from 1 and day, as decimal numbers in this order. */
  lemma DateTextSays(t: Tm)
    requires ValidTm(t) && FourDigitYear(t)
    ensures var s := DateText(t);
            && |s| == 10 && s[4] == s[7] == '-'
            && D.AllDigits(s[..4]) && D.AllDigits(s[5..7]) && D.AllDigits(s[8..])
            && D.ReadDigits(s[..4], 0) == t.year + 1900 && D.ReadDigits(s[5..7], 0) == t.mon + 1
            && D.ReadDigits(s[8..], 0) == t.mday
  {
    var s := DateText(t);
    ReadFourDigits(t.year + 1900);
    ReadTwoDigits(t.mon + 1);
    ReadTwoDigits(t.mday);
    assert s[..4] == FourDigits(t.year + 1900) && s[5..7] == TwoDigits(t.mon + 1) && s[8..] == TwoDigits(t.mday);
  }

  /** And the text of a clock: hour, minute and second. */
  lemma ClockTextSays(t: Tm)
    requires ValidTm(t)
    ensures var s := ClockText(t);
            && |s| == 8 && s[2] == s[5] == ':'
            && D.AllDigits(s[..2]) && D.AllDigits(s[3..5]) && D.AllDigits(s[6..])
            && D.ReadDigits(s[..2], 0) == t.hour && D.ReadDigits(s[3..5], 0) == t.min
            && D.ReadDigits(s[6..], 0) == t.sec
  {
    var s := ClockText(t);
    ReadTwoDigits(t.hour);
    ReadTwoDigits(t.min);
    ReadTwoDigits(t.sec);
    assert s[..2] == TwoDigits(t.hour) && s[3..5] == TwoDigits(t.min) && s[6..] == TwoDigits(t.sec);
  }

  // ----- scanning -----

  function SkipBlanks(s: string): string {
    if s != [] && s[0] == ' ' then SkipBlanks(s[1..]) else s
  }

  function SkipWhite(s: string): string {
    if s != [] && D.IsSpace(s[0]) then SkipWhite(s[1..]) else s
  }

  /** The digit loop of a number field: value so far, digits still allowed, upper bound. */
  function TakeDigits(s: string, value: int, left: nat, hi: int): (int, string)
    decreases left
  {
    if left > 0 && value * 10 <= hi && s != [] && D.IsDigit(s[0]) then
      TakeDigits(s[1..], value * 10 + D.DigitValue(s[0]), left - 1, hi)
    else (value, s)
  }

  function Field(s: string, lo: int, hi: int, width: nat): Option<(int, string)>
    requires width > 0
  {
    var t := SkipBlanks(s);
    if t == [] || !D.IsDigit(t[0]) then None
    else
      var (n, rest) := TakeDigits(t[1..], D.DigitValue(t[0]), width - 1, hi);
      if lo <= n <= hi then Some((n, rest)) else None
  }

  function Expect(s: string, c: char): Option<string> {
    if s != [] && s[0] == c then Some(s[1..]) else None
  }

  /** The rest of the text if the pattern matched, and the fields as scanned so far. */
  datatype Scan = Scan(rest: Option<string>, tm: Tm)

  function ScanDate(s: string, tm: Tm): Scan {
    match Field(s, 0, 9999, 4)
    case None => Scan(None, tm)
    case Some((y, r1)) =>
      var tm1 := tm.(year := y - 1900);
      match Expect(r1, '-')
      case None => Scan(None, tm1)
      case Some(r2) =>
        match Field(r2, 1, 12, 2)
        case None => Scan(None, tm1)
        case Some((m, r3)) =>
          var tm2 := tm1.(mon := m - 1);
          match Expect(r3, '-')
          case None => Scan(None, tm2)
          case Some(r4) =>
            match Field(r4, 1, 31, 2)
            case None => Scan(None, tm2)
            case Some((d, r5)) => Scan(Some(r5), tm2.(mday := d))
  }

  function ScanClock(s: string, tm: Tm): Scan {
    match Field(s, 0, 23, 2)
    case None => Scan(None, tm)
    case Some((h, r1)) =>
      var tm1 := tm.(hour := h);
      match Expect(r1, ':')
      case None => Scan(None, tm1)
      case Some(r2) =>
        match Field(r2, 0, 59, 2)
        case None => Scan(None, tm1)
        case Some((m, r3)) =>
          var tm2 := tm1.(min := m);
          match Expect(r3, ':')
          case None => Scan(None, tm2)
          case Some(r4) =>
            match Field(r4, 0, 61, 2)
            case None => Scan(None, tm2)
            case Some((x, r5)) => Scan(Some(r5), tm2.(sec := x))
  }

  function ScanDateTime(s: string, tm: Tm): Scan {
    var date := ScanDate(s, tm);
    if date.rest.None? then date else ScanClock(SkipWhite(date.rest.value), date.tm)
  }

  const BLANK := Tm(0, 0, 0, 0, 0, 0)

  lemma ScansKeepMonth(s: string, tm: Tm)
    requires 0 <= tm.mon < 12
    ensures 0 <= ScanDate(s, tm).tm.mon < 12 && 0 <= ScanClock(s, tm).tm.mon < 12
    ensures 0 <= ScanDateTime(s, tm).tm.mon < 12
  {
  }

  /** An unsigned number of seconds stored in a signed 64-bit `time_t`. */
  function ToTimeT(n: int): int {
    if n > D.LONG_MAX then n - D.ULONG_MAX - 1 else n
  }

  /** `sql_time::parse`. */
  function ParseText(s: string): Option<SqlTime> {
    if s == [] then None else Try(s, BLANK, 0)
  }

  /** The cascade from pattern number k on, with the fields left by the patterns before. */
  function Try(s: string, tm: Tm, k: nat): Option<SqlTime>
    requires k <= 3 && 0 <= tm.mon < 12
    decreases 3 - k
  {
    ScansKeepMonth(s, tm);
    if k == 0 then
      var r := ScanDateTime(s, tm);
      if r.rest.Some? then Some(SqlTime(TimeGm(r.tm), DATETIME)) else Try(s, r.tm, 1)
    else if k == 1 then
      var r := ScanDate(s, tm);
      if r.rest.Some? then Some(SqlTime(TimeGm(r.tm), DATE)) else Try(s, r.tm, 2)
    else if k == 2 then
      var r := ScanClock(s, tm);
      if r.rest.Some? then Some(SqlTime(TimeGm(r.tm.(year := 70, mon := 0, mday := 1)), TIME))
      else Try(s, r.tm, 3)
    else
      match D.Unsigned(s)
      case Some(n) => Some(SqlTime(ToTimeT(n), TIMESTAMP))
      case None => None
  }

  // ----- reading what was printed -----

  lemma TwoDigitField(n: int, rest: string, lo: int, hi: int)
    requires 0 <= lo <= n <= hi < 100
    ensures Field(TwoDigits(n) + rest, lo, hi, 2) == Some((n, rest))
  {
    var t := TwoDigits(n) + rest;
    var r := t[1..];
    assert r[0] == D.DigitChar(n % 10) && r[1..] == rest;
    assert TakeDigits(r[1..], n, 0, hi) == (n, rest);
    assert TakeDigits(r, n / 10, 1, hi) == (n, rest);
  }

  lemma TakeOne(d: nat, rest: string, value: int, left: nat, hi: int)
    requires d < 10 && left > 0 && value * 10 <= hi
    ensures TakeDigits([D.DigitChar(d)] + rest, value, left, hi) == TakeDigits(rest, value * 10 + d, left - 1, hi)
  {
    assert ([D.DigitChar(d)] + rest)[1..] == rest;
  }

  lemma FourDigitsRead(a: nat, b: nat, c: nat, d: nat, rest: string)
    requires a < 10 && b < 10 && c < 10 && d < 10
    ensures Field([D.DigitChar(a)] + ([D.DigitChar(b)] + ([D.DigitChar(c)] + ([D.DigitChar(d)] + rest))), 0, 9999, 4)
         == Some((a * 1000 + b * 100 + c * 10 + d, rest))
  {
    var r3 := [D.DigitChar(d)] + rest;
    var r2 := [D.DigitChar(c)] + r3;
    var r1 := [D.DigitChar(b)] + r2;
    var t := [D.DigitChar(a)] + r1;
    assert t[1..] == r1 && SkipBlanks(t) == t;
    TakeOne(b, r2, a, 3, 9999);
    TakeOne(c, r3, a * 10 + b, 2, 9999);
    TakeOne(d, rest, a * 100 + b * 10 + c, 1, 9999);
    assert TakeDigits(rest, a * 1000 + b * 100 + c * 10 + d, 0, 9999) == (a * 1000 + b * 100 + c * 10 + d, rest);
  }

  lemma FourDigitField(n: int, rest: string)
    requires 0 <= n < 10000
    ensures Field(FourDigits(n) + rest, 0, 9999, 4) == Some((n, rest))
  {
    var a, b, c, d := n / 100 / 10, n / 100 % 10, n % 100 / 10, n % 100 % 10;
    FourDigitsRead(a, b, c, d, rest);
    assert FourDigits(n) + rest
        == [D.DigitChar(a)] + ([D.DigitChar(b)] + ([D.DigitChar(c)] + ([D.DigitChar(d)] + rest)));
  }

  lemma ExpectHead(c: char, rest: string)
    ensures Expect([c] + rest, c) == Some(rest)
  {
    assert ([c] + rest)[1..] == rest;
  }

  lemma RegroupDelimited(a: string, d: string, b: string, c: string, rest: string)
    ensures a + d + b + d + c + rest == a + (d + (b + (d + (c + rest))))
  {
  }

  lemma ScanPrintedDate(t: Tm, rest: string, tm: Tm)
    requires ValidTm(t) && FourDigitYear(t)
    ensures ScanDate(DateText(t) + rest, tm) == Scan(Some(rest), tm.(year := t.year, mon := t.mon, mday := t.mday))
  {
    var r5 := rest;
    var r4 := TwoDigits(t.mday) + r5;
    var r3 := ['-'] + r4;
    var r2 := TwoDigits(t.mon + 1) + r3;
    var r1 := ['-'] + r2;
    RegroupDelimited(FourDigits(t.year + 1900), ['-'], TwoDigits(t.mon + 1), TwoDigits(t.mday), rest);
    FourDigitField(t.year + 1900, r1);
    ExpectHead('-', r2);
    TwoDigitField(t.mon + 1, r3, 1, 12);
    ExpectHead('-', r4);
    TwoDigitField(t.mday, r5, 1, 31);
  }

  lemma ScanPrintedClock(t: Tm, rest: string, tm: Tm)
    requires ValidTm(t)
    ensures ScanClock(ClockText(t) + rest, tm) == Scan(Some(rest), tm.(hour := t.hour, min := t.min, sec := t.sec))
  {
    var r5 := rest;
    var r4 := TwoDigits(t.sec) + r5;
    var r3 := [':'] + r4;
    var r2 := TwoDigits(t.min) + r3;
    var r1 := [':'] + r2;
    RegroupDelimited(TwoDigits(t.hour), [':'], TwoDigits(t.min), TwoDigits(t.sec), rest);
    TwoDigitField(t.hour, r1, 0, 23);
    ExpectHead(':', r2);
    TwoDigitField(t.min, r3, 0, 59);
    ExpectHead(':', r4);
    TwoDigitField(t.sec, r5, 0, 61);
  }

  lemma SkipOneBlank(s: string)
    requires s != [] && D.IsDigit(s[0])
    ensures SkipWhite([' '] + s) == s
  {
    assert ([' '] + s)[1..] == s;
    assert SkipWhite(s) == s;
  }

  lemma DateTimeReadsBack(t: Tm)
    requires ValidTm(t) && FourDigitYear(t)
    ensures ParseText(DateText(t) + " " + ClockText(t)) == Some(SqlTime(TimeGm(t), DATETIME))
  {
    var clock := ClockText(t);
    var rest := [' '] + clock;
    assert DateText(t) + " " + clock == DateText(t) + rest;
    ScanPrintedDate(t, rest, BLANK);
    SkipOneBlank(clock);
    assert clock + [] == clock;
    ScanPrintedClock(t, [], BLANK.(year := t.year, mon := t.mon, mday := t.mday));
  }

  lemma DateReadsBack(t: Tm)
    requires ValidTm(t) && FourDigitYear(t)
    ensures ParseText(DateText(t)) == Some(SqlTime(TimeGm(t.(hour := 0, min := 0, sec := 0)), DATE))
  {
    var s := DateText(t);
    assert s + [] == s;
    ScanPrintedDate(t, [], BLANK);
    var date := BLANK.(year := t.year, mon := t.mon, mday := t.mday);
    assert ScanClock(SkipWhite([]), date) == Scan(None, date);
    ScanPrintedDate(t, [], date);
  }

  /** The date pattern takes the hours of a clock text for a year and stops at the colon. */
  lemma ClockIsNotDate(t: Tm, tm: Tm)
    requires ValidTm(t)
    ensures ScanDate(ClockText(t), tm) == Scan(None, tm.(year := t.hour - 1900))
  {
    var s := ClockText(t);
    var r := s[2..];
    assert s == TwoDigits(t.hour) + r && r[0] == ':';
    assert s[1..][0] == D.DigitChar(t.hour % 10) && s[1..][1..] == r;
    assert TakeDigits(r, t.hour, 2, 9999) == (t.hour, r);
    assert TakeDigits(s[1..], t.hour / 10, 3, 9999) == (t.hour, r);
    assert Field(s, 0, 9999, 4) == Some((t.hour, r));
  }

  lemma ClockFallsThrough(t: Tm)
    requires ValidTm(t)
    ensures ParseText(ClockText(t)) == Try(ClockText(t), BLANK.(year := t.hour - 1900), 2)
  {
    ClockIsNotDate(t, BLANK);
    ClockIsNotDate(t, BLANK.(year := t.hour - 1900));
  }

  /** The clock pattern reads a clock text, whatever the date patterns left behind. */
  lemma ClockTried(s: string, tm: Tm, read: Tm)
    requires 0 <= tm.mon < 12 && ScanClock(s, tm) == Scan(Some([]), read)
    ensures Try(s, tm, 2) == Some(SqlTime(TimeGm(Tm(read.sec, read.min, read.hour, 1, 0, 70)), TIME))
  {
  }

  lemma ClockReadsBack(t: Tm)
    requires ValidTm(t)
    ensures ParseText(ClockText(t)) == Some(SqlTime(t.hour * 3600 + t.min * 60 + t.sec, TIME))
  {
    var s := ClockText(t);
    var tm := BLANK.(year := t.hour - 1900);
    ClockFallsThrough(t);
    assert s + [] == s;
    ScanPrintedClock(t, [], tm);
    ClockTried(s, tm, tm.(hour := t.hour, min := t.min, sec := t.sec));
    SecondsOfEpochDay(t.hour, t.min, t.sec);
  }

  lemma SecondsOfEpochDay(hour: int, min: int, sec: int)
    ensures TimeGm(Tm(sec, min, hour, 1, 0, 70)) == hour * 3600 + min * 60 + sec
  {
    assert FormulaDays(1970) == 0 && DaysBeforeMonth(IsLeap(1970), 0) == 0;
  }

  /** What a printed time is read as: the whole instant, its day, or its clock. */
  function ReadAs(format: Format, whole: int, day: int, clock: int): SqlTime {
    match format
    case DATE => SqlTime(day, DATE)
    case TIME => SqlTime(clock, TIME)
    case _ => SqlTime(whole, DATETIME)
  }

  lemma TmTextReadsBack(t: Tm, format: Format, text: string)
    requires ValidTm(t) && FourDigitYear(t) && text == TmText(t, format)
    ensures ParseText(text) ==
            Some(ReadAs(format, TimeGm(t), TimeGm(t.(hour := 0, min := 0, sec := 0)), t.hour * 3600 + t.min * 60 + t.sec))
  {
    match format
    case DATE => DateReadsBack(t);
    case TIME => ClockReadsBack(t);
    case _ => DateTimeReadsBack(t);
  }

  lemma ReadAsParts(t: Tm, v: SqlTime)
    requires t == GmTime(v.value)
    ensures ReadAs(v.format, TimeGm(t), TimeGm(t.(hour := 0, min := 0, sec := 0)), t.hour * 3600 + t.min * 60 + t.sec)
         == ReadAs(v.format, v.value, v.value - v.value % 86400, v.value % 86400)
  {
    TimeGmOfGmTime(v.value);
    ClockJoins(v.value % 86400);
    TimeGmByDays(t);
    TimeGmByDays(t.(hour := 0, min := 0, sec := 0));
  }

  lemma GmTextReadsBack(v: SqlTime, t: Tm)
    requires t == GmTime(v.value) && FourDigitYear(t)
    ensures ParseText(TmText(t, v.format)) == Some(ReadAs(v.format, v.value, v.value - v.value % 86400, v.value % 86400))
  {
    ReadAsParts(t, v);
    TmTextReadsBack(t, v.format, TmText(t, v.format));
  }

  /** Text round trip for the years 1000 to 9999: a DATETIME comes back exactly, a TIMESTAMP comes
      back as the same instant in DATETIME format, a DATE floored to its day, a TIME modulo one day. */
  lemma PrintedTimeReadsBack(v: SqlTime)
    requires FourDigitYear(GmTime(v.value))
    ensures ParseText(ToText(v)) == Some(ReadAs(v.format, v.value, v.value - v.value % 86400, v.value % 86400))
  {
    GmTextReadsBack(v, GmTime(v.value));
  }

  // ----- plain numbers, and what a failed pattern leaves behind -----

  lemma {:induction false} TakeDigitsRest(s: string, value: int, left: nat, hi: int)
    requires D.AllDigits(s)
    ensures var rest := TakeDigits(s, value, left, hi).1; rest == [] || D.IsDigit(rest[0])
    decreases left
  {
    if left > 0 && value * 10 <= hi && s != [] {
      TakeDigitsRest(s[1..], value * 10 + D.DigitValue(s[0]), left - 1, hi);
    }
  }

  /** The text of a plain number of seconds is taken by none of the three patterns. */
  lemma NumberReadsAsTimestamp(n: nat)
    requires n <= D.ULONG_MAX
    ensures ParseText(D.NatText(n)) == Some(SqlTime(ToTimeT(n), TIMESTAMP))
  {
    var s := D.NatText(n);
    assert D.IsDigit(s[0]) && D.AllDigits(s[1..]);
    TakeDigitsRest(s[1..], D.DigitValue(s[0]), 3, 9999);
    TakeDigitsRest(s[1..], D.DigitValue(s[0]), 1, 23);
    assert forall tm :: ScanDate(s, tm).rest.None?;
    assert forall tm :: ScanClock(s, tm).rest.None?;
    D.ScanIntText(n);
    assert D.IntText(n) == s;
  }

  /** A date followed by an hour alone is read as a DATE, but keeps the hour that the failed first
      pattern had scanned. */
  lemma FailedPatternLeavesHour(t: Tm)
    requires ValidTm(t) && FourDigitYear(t)
    ensures ParseText(DateText(t) + " " + TwoDigits(t.hour)) == Some(SqlTime(TimeGm(t.(min := 0, sec := 0)), DATE))
  {
    var hour := TwoDigits(t.hour);
    var rest := [' '] + hour;
    var s := DateText(t) + rest;
    assert s == DateText(t) + " " + hour;
    ScanPrintedDate(t, rest, BLANK);
    SkipOneBlank(hour);
    assert hour + [] == hour;
    TwoDigitField(t.hour, [], 0, 23);
    var tm := BLANK.(year := t.year, mon := t.mon, mday := t.mday, hour := t.hour);
    ScanPrintedDate(t, rest, tm);
  }

  /** A failed clock scan has set hour and minute at most, whatever the date fields are. */
  lemma ClockScanLocal(s: string, tm: Tm)
    requires tm.hour == 0 && tm.min == 0 && tm.sec == 0 && ScanClock(s, BLANK).rest.None?
    ensures var c := ScanClock(s, BLANK).tm;
            && ScanClock(s, tm) == Scan(None, tm.(hour := c.hour, min := c.min))
            && 0 <= c.hour <= 23 && 0 <= c.min <= 59
  {
  }

  /** The DATE read from a date and such a text carries the hour and minute left behind. */
  lemma DateKeepsClock(t: Tm, rest: string)
    requires ValidTm(t) && FourDigitYear(t) && ScanClock(SkipWhite(rest), BLANK).rest.None?
    ensures var c := ScanClock(SkipWhite(rest), BLANK).tm;
            ParseText(DateText(t) + rest) == Some(SqlTime(TimeGm(t.(hour := c.hour, min := c.min, sec := 0)), DATE))
  {
    var c := ScanClock(SkipWhite(rest), BLANK).tm;
    var date := BLANK.(year := t.year, mon := t.mon, mday := t.mday);
    var left := date.(hour := c.hour, min := c.min);
    ScanPrintedDate(t, rest, BLANK);
    ClockScanLocal(SkipWhite(rest), date);
    ScanPrintedDate(t, rest, left);
  }

  lemma ClockAdds(t: Tm, hour: int, min: int)
    requires 0 <= t.mon < 12
    ensures TimeGm(t.(hour := hour, min := min, sec := 0)) == TimeGm(t.(hour := 0, min := 0, sec := 0)) + hour * 3600 + min * 60
  {
  }

  /** A printed date followed by any text that is not a time of day is read as a DATE; it is the day
      itself exactly when that text does not start with a non-zero hour or minute. */
  lemma DateIsFlooredIff(t: Tm, rest: string)
    requires ValidTm(t) && FourDigitYear(t) && ScanClock(SkipWhite(rest), BLANK).rest.None?
    ensures var c := ScanClock(SkipWhite(rest), BLANK).tm;
            ParseText(DateText(t) + rest) == Some(SqlTime(TimeGm(t.(hour := 0, min := 0, sec := 0)), DATE))
            <==> c.hour == 0 && c.min == 0
  {
    var c := ScanClock(SkipWhite(rest), BLANK).tm;
    DateKeepsClock(t, rest);
    ClockScanLocal(SkipWhite(rest), BLANK);
    ClockAdds(t, c.hour, c.min);
  }
}
