/** The canonical `DD Mon YY  HH:MM:SS` of a legacy message and the seconds it stands for. */
module DateTime {
  import opened Wrappers
  import opened Calendar

  datatype DateTimeError = TimestampOutOfRange | MalformedDateTime

  /** A broken-down local date and time. */
  datatype CivilTime = CivilTime(date: Date, hour: int, minute: int, second: int)

  const MONTHS: seq<string> :=
    ["Jan", "Feb", "Mar", "Apr", "May", "Jun", "Jul", "Aug", "Sep", "Oct", "Nov", "Dec"]

  /** `div_euclid` and `rem_euclid` are Dafny's own division. */
  function CivilFromLocal(seconds: int): CivilTime {
    var within := seconds % 86400;
    CivilTime(CivilFromDays(seconds / 86400), within / 3600, within / 60 % 60, within % 60)
  }

  function Digit(n: int): char
    requires 0 <= n < 10
  {
    ('0' as int + n) as char
  }

  function TwoDigits(n: int): string
    requires 0 <= n < 100
  {
    [Digit(n / 10), Digit(n % 10)]
  }

  predicate Printable(month: int, parts: (int, int, int, int, int)) {
    && 1 <= month <= 12 && 0 <= parts.0 < 100 && 0 <= parts.1 < 100
    && 0 <= parts.2 < 100 && 0 <= parts.3 < 100 && 0 <= parts.4 < 100
  }

  /** Day, month, two-digit year, hour, minute and second, laid out. */
  function Layout(month: int, parts: (int, int, int, int, int)): string
    requires Printable(month, parts)
  {
    TwoDigits(parts.0) + " " + MONTHS[month - 1] + " " + TwoDigits(parts.1) + "  "
    + TwoDigits(parts.2) + ":" + TwoDigits(parts.3) + ":" + TwoDigits(parts.4)
  }

  function FormatDateTime(seconds: int): Result<string, DateTimeError> {
    var fields := FieldsOf(seconds);
    if fields.None? then Err(TimestampOutOfRange) else Ok(Layout(fields.value.0, fields.value.1))
  }

  /** What is printed for an instant: month, then day, two-digit year and clock. */
  function FieldsOf(seconds: int): (r: Option<(int, (int, int, int, int, int))>)
    ensures r.Some? ==> Printable(r.value.0, r.value.1)
  {
    var time := CivilFromLocal(seconds);
    CivilFits(seconds);
    if 1970 <= time.date.year <= 2069 then Some((time.date.month, PartsOf(time))) else None
  }

  function PartsOf(time: CivilTime): (int, int, int, int, int) {
    (time.date.day, time.date.year % 100, time.hour, time.minute, time.second)
  }

  /** Calendar components always fit the fields they are printed in. */
  lemma CivilFits(seconds: int)
    ensures var time := CivilFromLocal(seconds);
      && Printable(time.date.month, PartsOf(time)) && 1 <= time.date.day <= 31
      && time.hour < 24 && time.minute < 60 && time.second < 60
      && seconds == (seconds / 86400) * 86400 + time.hour * 3600 + time.minute * 60 + time.second
  {
    assert 1 <= CivilFromDays(seconds / 86400).month <= 12 && 1 <= CivilFromDays(seconds / 86400).day <= 31 by {
      var d := CivilMeans(seconds / 86400);
    }
    Clock(seconds % 86400);
  }

  lemma Clock(within: int)
    requires 0 <= within < 86400
    ensures 0 <= within / 3600 < 24 && 0 <= within / 60 % 60 < 60 && 0 <= within % 60 < 60
    ensures within == within / 3600 * 3600 + within / 60 % 60 * 60 + within % 60
  {
    assert within / 60 == within / 3600 * 60 + within / 60 % 60;
  }

  /** The inverse of `Clock`. */
  lemma ClockBack(days: int, hour: int, minute: int, second: int)
    requires 0 <= hour < 24 && 0 <= minute < 60 && 0 <= second < 60
    ensures var t := days * 86400 + hour * 3600 + minute * 60 + second;
      && t / 86400 == days && t % 86400 / 3600 == hour && t % 86400 / 60 % 60 == minute && t % 86400 % 60 == second
  {
    var t := days * 86400 + hour * 3600 + minute * 60 + second;
    assert t / 86400 == days;
    var within := hour * 3600 + minute * 60 + second;
    assert t % 86400 == within;
    assert within / 60 == hour * 60 + minute;
  }

  /** Digits only. */
  function ReadNumber(s: string): Option<int>
    requires |s| == 2
  {
    if '0' <= s[0] <= '9' && '0' <= s[1] <= '9' then
      Some((s[0] as int - '0' as int) * 10 + (s[1] as int - '0' as int))
    else None
  }

  function FindMonth(name: string, from: nat): (r: Option<nat>)
    requires from <= 12
    decreases 12 - from
  {
    if from == 12 then None else if MONTHS[from] == name then Some(from) else FindMonth(name, from + 1)
  }

  predicate Separators(s: string) {
    && |s| == 19 && s[2] == ' ' && s[6] == ' ' && s[9..11] == "  " && s[13] == ':' && s[16] == ':'
  }

  /** The six fields of a laid-out text. */
  function ScanDateTime(s: string): Option<(int, (int, int, int, int, int))> {
    if !Separators(s) then None
    else
      var day, month, year := ReadNumber(s[0..2]), FindMonth(s[3..6], 0), ReadNumber(s[7..9]);
      var hour, minute, second := ReadNumber(s[11..13]), ReadNumber(s[14..16]), ReadNumber(s[17..19]);
      if day.None? || month.None? || year.None? || hour.None? || minute.None? || second.None? then None
      else Some((month.value + 1, (day.value, year.value, hour.value, minute.value, second.value)))
  }

  function FullYear(twoDigit: int): int {
    if twoDigit >= 70 then 1900 + twoDigit else 2000 + twoDigit
  }

  function ParseDateTime(s: string): Result<int, DateTimeError> {
    var scanned := ScanDateTime(s);
    if scanned.None? then Err(MalformedDateTime)
    else
      var seconds := SecondsOf(scanned.value.0, scanned.value.1);
      if seconds.None? then Err(MalformedDateTime) else Ok(seconds.value)
  }

  /** The instant six fields name, unless a component is out of range or the day does not exist. */
  function SecondsOf(month: int, parts: (int, int, int, int, int)): Option<int> {
    var (day, twoDigit, hour, minute, second) := parts;
    if day == 0 || hour > 23 || minute > 59 || second > 59 then None
    else
      var date := Date(FullYear(twoDigit), month, day);
      var days := DaysFromCivil(date.year, date.month, date.day);
      if CivilFromDays(days) != date then None
      else Some(days * 86400 + hour * 3600 + minute * 60 + second)
  }

  // Layout and scan.

  lemma NumberBack(n: int)
    requires 0 <= n < 100
    ensures ReadNumber(TwoDigits(n)) == Some(n)
  {
  }

  lemma NumberOnly(s: string)
    requires |s| == 2 && ReadNumber(s).Some?
    ensures 0 <= ReadNumber(s).value < 100 && s == TwoDigits(ReadNumber(s).value)
  {
    var n := ReadNumber(s).value;
    assert n / 10 == s[0] as int - '0' as int && n % 10 == s[1] as int - '0' as int;
  }

  lemma MonthBack(i: nat)
    requires i < 12
    ensures FindMonth(MONTHS[i], 0) == Some(i)
  {
    assert forall j, k :: 0 <= j < k < 12 ==> MONTHS[j] != MONTHS[k] by {
      forall j, k | 0 <= j < k < 12 ensures MONTHS[j] != MONTHS[k] { MonthsDiffer(j, k); }
    }
    FindFrom(i, 0);
  }

  lemma MonthsDiffer(j: nat, k: nat)
    requires j < k < 12
    ensures MONTHS[j][0] != MONTHS[k][0] || MONTHS[j][1] != MONTHS[k][1] || MONTHS[j][2] != MONTHS[k][2]
  {
  }

  lemma {:induction false} FindFrom(i: nat, from: nat)
    requires from <= i < 12 && forall j, k :: 0 <= j < k < 12 ==> MONTHS[j] != MONTHS[k]
    ensures FindMonth(MONTHS[i], from) == Some(i)
    decreases i - from
  {
    if from < i { FindFrom(i, from + 1); }
  }

  lemma {:induction false} MonthOnly(name: string, from: nat)
    requires from <= 12
    ensures FindMonth(name, from).Some? ==>
      FindMonth(name, from).value < 12 && MONTHS[FindMonth(name, from).value] == name
    decreases 12 - from
  {
    if from < 12 { MonthOnly(name, from + 1); }
  }

  lemma LayoutParts(month: int, parts: (int, int, int, int, int))
    requires Printable(month, parts)
    ensures var s := Layout(month, parts);
      && Separators(s) && s[0..2] == TwoDigits(parts.0) && s[3..6] == MONTHS[month - 1] && s[7..9] == TwoDigits(parts.1)
      && s[11..13] == TwoDigits(parts.2) && s[14..16] == TwoDigits(parts.3) && s[17..19] == TwoDigits(parts.4)
  {
    assert |MONTHS[month - 1]| == 3;
  }

  lemma SeparatedParts(s: string)
    requires Separators(s)
    ensures s == s[0..2] + " " + s[3..6] + " " + s[7..9] + "  " + s[11..13] + ":" + s[14..16] + ":" + s[17..19]
  {
  }

  /** Scanning inverts layout, both ways. */
  lemma ScanInvertsLayout(s: string, month: int, parts: (int, int, int, int, int))
    ensures ScanDateTime(s) == Some((month, parts)) <==> Printable(month, parts) && s == Layout(month, parts)
  {
    if ScanDateTime(s) == Some((month, parts)) {
      MonthOnly(s[3..6], 0);
      NumberOnly(s[0..2]);
      NumberOnly(s[7..9]);
      NumberOnly(s[11..13]);
      NumberOnly(s[14..16]);
      NumberOnly(s[17..19]);
      SeparatedParts(s);
    } else if Printable(month, parts) && s == Layout(month, parts) {
      ScanOfLayout(month, parts);
    }
  }

  lemma ScanOfLayout(month: int, parts: (int, int, int, int, int))
    requires Printable(month, parts)
    ensures ScanDateTime(Layout(month, parts)) == Some((month, parts))
  {
    LayoutParts(month, parts);
    MonthBack(month - 1);
    NumberBack(parts.0);
    NumberBack(parts.1);
    NumberBack(parts.2);
    NumberBack(parts.3);
    NumberBack(parts.4);
  }

  predicate Visible(s: string) {
    forall i :: 0 <= i < |s| ==> ' ' <= s[i] <= '~'
  }

  lemma NumberVisible(s: string)
    requires |s| == 2 && ReadNumber(s).Some?
    ensures Visible(s)
  {
  }

  lemma MonthVisible(k: nat)
    requires k < 12
    ensures |MONTHS[k]| == 3 && Visible(MONTHS[k])
  {
  }

  /** A scanned text holds printable ASCII only. */
  lemma ScannedIsVisible(s: string)
    requires ScanDateTime(s).Some?
    ensures |s| == 19 && Visible(s)
  {
    MonthOnly(s[3..6], 0);
    MonthVisible(FindMonth(s[3..6], 0).value);
    NumberVisible(s[0..2]);
    NumberVisible(s[7..9]);
    NumberVisible(s[11..13]);
    NumberVisible(s[14..16]);
    NumberVisible(s[17..19]);
    assert Visible(" ") && Visible("  ") && Visible(":");
    SeparatedParts(s);
    VisibleConcat(s[0..2], " ", s[3..6], " ", s[7..9], "  ");
    VisibleConcat(s[11..13], ":", s[14..16], ":", s[17..19], "");
    assert s == (s[0..2] + " " + s[3..6] + " " + s[7..9] + "  ") + (s[11..13] + ":" + s[14..16] + ":" + s[17..19] + "");
  }

  lemma VisibleConcat(a: string, b: string, c: string, d: string, e: string, f: string)
    requires Visible(a) && Visible(b) && Visible(c) && Visible(d) && Visible(e) && Visible(f)
    ensures Visible(a + b + c + d + e + f)
  {
  }

  // The theorems.

  /** Exactly the seconds of 1970 through 2069 have a DateTime. */
  lemma FormatAccepts(seconds: int)
    ensures FormatDateTime(seconds).Ok? <==> 0 <= seconds < 3155760000
  {
    hide CivilFromDays, Number;
    var d := CivilMeans(seconds / 86400);
    CenturyOf(d);
  }

  lemma CenturyOf(d: Date)
    requires Exists(d)
    ensures 1970 <= d.year <= 2069 <==> 0 <= Number(d) < 36525
  {
    assert Number(Date(1970, 1, 1)) == 0 && Number(Date(2069, 12, 31)) == 36524;
    assert 1970 <= d.year <==> 0 <= Number(d) by { YearOrder(d, Date(1970, 1, 1)); }
    assert d.year <= 2069 <==> Number(d) <= 36524 by { YearOrder(d, Date(2069, 12, 31)); }
  }

  /** A day number's date, in the years that can be printed. */
  lemma DateOfDay(days: int, d: Date)
    requires 1970 <= d.year <= 2069 && 1 <= d.month <= 12
    ensures CivilFromDays(days) == d <==> Exists(d) && DaysFromCivil(d.year, d.month, d.day) == days
  {
    DaysMean(d);
    var actual := CivilMeans(days);
    if Exists(d) && Number(d) == days { NumbersDiffer(d, actual); }
  }

  lemma YearBack(twoDigit: int)
    requires 0 <= twoDigit < 100
    ensures FullYear(twoDigit) % 100 == twoDigit && 1970 <= FullYear(twoDigit) <= 2069
  {
  }

  lemma SecondsOfDay(days: int, d: Date, hour: int, minute: int, second: int)
    requires CivilFromDays(days) == d && 1970 <= d.year <= 2069 && 1 <= d.month <= 12 && 1 <= d.day
    requires hour < 24 && minute < 60 && second < 60
    ensures SecondsOf(d.month, (d.day, d.year % 100, hour, minute, second))
      == Some(days * 86400 + hour * 3600 + minute * 60 + second)
  {
    hide CivilFromDays, DaysFromCivil, FullYear;
    FullYearBack(d.year);
    var date := Date(FullYear(d.year % 100), d.month, d.day);
    assert date == d;
    assert DaysFromCivil(date.year, date.month, date.day) == days by { DateOfDay(days, d); }
  }

  lemma FullYearBack(year: int)
    requires 1970 <= year <= 2069
    ensures FullYear(year % 100) == year && 0 <= year % 100 < 100
  {
  }

  /** Printed fields name the instant they were taken from. */
  lemma SecondsOfFields(seconds: int)
    requires FieldsOf(seconds).Some?
    ensures SecondsOf(FieldsOf(seconds).value.0, FieldsOf(seconds).value.1) == Some(seconds)
  {
    hide CivilFromDays, SecondsOf, Printable;
    var time := CivilFromLocal(seconds);
    CivilFits(seconds);
    SecondsOfDay(seconds / 86400, time.date, time.hour, time.minute, time.second);
  }

  /** Accepted fields name a day that exists, and are what is printed for their instant. */
  lemma FieldsOfSeconds(month: int, parts: (int, int, int, int, int))
    requires Printable(month, parts) && SecondsOf(month, parts).Some?
    ensures Exists(Date(FullYear(parts.1), month, parts.0))
    ensures FieldsOf(SecondsOf(month, parts).value) == Some((month, parts))
  {
    hide CivilFromDays, DaysFromCivil;
    var d := Date(FullYear(parts.1), month, parts.0);
    var days := DaysFromCivil(d.year, d.month, d.day);
    YearBack(parts.1);
    assert CivilFromDays(days) == d;
    assert Exists(d) by { DateOfDay(days, d); }
    FieldsAt(days, parts.2, parts.3, parts.4);
  }

  lemma FieldsAt(days: int, hour: int, minute: int, second: int)
    requires 0 <= hour < 24 && 0 <= minute < 60 && 0 <= second < 60
    ensures var d := CivilFromDays(days);
      FieldsOf(days * 86400 + hour * 3600 + minute * 60 + second)
      == if 1970 <= d.year <= 2069 then Some((d.month, (d.day, d.year % 100, hour, minute, second))) else None
  {
    hide CivilFromDays;
    ClockBack(days, hour, minute, second);
  }

  /** Reading and writing are inverse to each other on all texts and all instants. */
  lemma DateTimeRoundTrip(s: string, seconds: int)
    ensures ParseDateTime(s) == Ok(seconds) <==> FormatDateTime(seconds) == Ok(s)
  {
    hide ScanDateTime, SecondsOf, FieldsOf;
    if ParseDateTime(s) == Ok(seconds) {
      var (month, parts) := ScanDateTime(s).value;
      ScanInvertsLayout(s, month, parts);
      FieldsOfSeconds(month, parts);
    }
    if FormatDateTime(seconds) == Ok(s) {
      var (month, parts) := FieldsOf(seconds).value;
      ScanInvertsLayout(s, month, parts);
      SecondsOfFields(seconds);
    }
  }

  /** Only days that exist are read. */
  lemma ParseAcceptsExisting(s: string)
    requires ParseDateTime(s).Ok?
    ensures Exists(CivilFromLocal(ParseDateTime(s).value).date)
    ensures 0 <= ParseDateTime(s).value < 3155760000
  {
    hide ParseDateTime, CivilFromDays, Number, Exists, Layout, Printable;
    var seconds := ParseDateTime(s).value;
    DateTimeRoundTrip(s, seconds);
    FormatAccepts(seconds);
    var d := CivilMeans(seconds / 86400);
  }
}
