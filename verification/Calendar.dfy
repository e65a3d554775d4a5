/**
 Timestamps as text. The exporter writes a sign before years below zero; RFC 3339 has no such form,
 so an instant is readable exactly from the year 0 on.
 */
module Calendar {
  import opened Foundation
  import opened Events
  import opened Manifests

  // ---------------------------------------------------------------- the proleptic Gregorian calendar

  const SECONDS_PER_DAY := 86400
  const NANOS_PER_MILLI := 1_000_000

  predicate IsLeap(year: int) {
    year % 4 == 0 && (year % 100 != 0 || year % 400 == 0)
  }

  /** Days from 1 January 1970 to 1 January of `year`. */
  function DaysBefore(year: int): int {
    365 * (year - 1) + (year - 1) / 4 - (year - 1) / 100 + (year - 1) / 400 - 719162
  }

  function YearLength(year: int): nat {
    if IsLeap(year) then 366 else 365
  }

  lemma Quotients(y: int, k: int)
    requires k == 4 || k == 100 || k == 400
    ensures y / k == (y - 1) / k + (if y % k == 0 then 1 else 0)
  {
  }

  lemma HundredsAreFours(y: int)
    requires y % 100 == 0
    ensures y % 4 == 0
  {
    assert y == 4 * (25 * (y / 100));
  }

  lemma FourHundredsAreHundreds(y: int)
    requires y % 400 == 0
    ensures y % 100 == 0
  {
    assert y == 100 * (4 * (y / 400));
  }

  lemma LeapDays(year: int, by4: bool, by100: bool, by400: bool)
    requires by4 == (year % 4 == 0) && by100 == (year % 100 == 0) && by400 == (year % 400 == 0)
    ensures (by400 ==> by100) && (by100 ==> by4)
    ensures YearLength(year) == 365 + (if by4 then 1 else 0) - (if by100 then 1 else 0) + (if by400 then 1 else 0)
  {
    if by100 {
      HundredsAreFours(year);
    }
    if by400 {
      FourHundredsAreHundreds(year);
    }
  }

  lemma YearAdvances(year: int)
    ensures DaysBefore(year + 1) == DaysBefore(year) + YearLength(year)
  {
    hide YearLength;
    Quotients(year, 4);
    Quotients(year, 100);
    Quotients(year, 400);
    LeapDays(year, year % 4 == 0, year % 100 == 0, year % 400 == 0);
  }

  lemma {:induction false} YearsAdvance(x: int, y: int)
    requires x < y
    ensures DaysBefore(x) + 365 <= DaysBefore(y)
    decreases y - x
  {
    YearAdvances(y - 1);
    if x < y - 1 {
      YearsAdvance(x, y - 1);
    }
  }

  function MonthLength(year: int, month: int): (n: nat)
    requires 1 <= month <= 12
    ensures 28 <= n <= 31
  {
    if month == 2 then (if IsLeap(year) then 29 else 28)
    else if month == 4 || month == 6 || month == 9 || month == 11 then 30
    else 31
  }

  function DaysBeforeMonth(year: int, month: int): nat
    requires 1 <= month <= 13
  {
    if month == 1 then 0 else DaysBeforeMonth(year, month - 1) + MonthLength(year, month - 1)
  }

  lemma MonthsFillYear(year: int)
    ensures DaysBeforeMonth(year, 13) == YearLength(year)
  {
    assert DaysBeforeMonth(year, 2) == 31;
    assert DaysBeforeMonth(year, 3) == 31 + MonthLength(year, 2);
    assert DaysBeforeMonth(year, 5) == DaysBeforeMonth(year, 3) + 61;
    assert DaysBeforeMonth(year, 7) == DaysBeforeMonth(year, 5) + 61;
    assert DaysBeforeMonth(year, 9) == DaysBeforeMonth(year, 7) + 62;
    assert DaysBeforeMonth(year, 11) == DaysBeforeMonth(year, 9) + 61;
    assert DaysBeforeMonth(year, 13) == DaysBeforeMonth(year, 11) + 61;
  }

  /** The year of a day, searched upwards. */
  function YearFrom(days: int, year: int): (r: int)
    requires DaysBefore(year) <= days
    ensures DaysBefore(r) <= days < DaysBefore(r + 1) && r >= year
    decreases days - DaysBefore(year)
  {
    YearAdvances(year);
    if days < DaysBefore(year + 1) then year else YearFrom(days, year + 1)
  }

  /** The month of a day of the year, searched upwards. */
  function MonthFrom(year: int, dayOfYear: nat, month: nat): (r: nat)
    requires 1 <= month <= 12 && DaysBeforeMonth(year, month) <= dayOfYear < YearLength(year)
    ensures 1 <= r <= 12 && DaysBeforeMonth(year, r) <= dayOfYear < DaysBeforeMonth(year, r + 1)
    decreases 12 - month
  {
    MonthsFillYear(year);
    if month == 12 || dayOfYear < DaysBeforeMonth(year, month + 1) then month else MonthFrom(year, dayOfYear, month + 1)
  }

  // ---------------------------------------------------------------- fields

  datatype Fields = Fields(year: int, month: nat, day: nat, hour: nat, minute: nat, second: nat, milli: nat)

  predicate ValidFields(f: Fields) {
    && -9999 <= f.year <= 9999 && 1 <= f.month <= 12 && 1 <= f.day <= MonthLength(f.year, f.month)
    && f.hour < 24 && f.minute < 60 && f.second < 60 && f.milli < 1000
  }

  /** Milliseconds since the epoch that the fields stand for. */
  function Millis(f: Fields): int
    requires ValidFields(f)
  {
    (((DaysBefore(f.year) + DaysBeforeMonth(f.year, f.month) + f.day - 1) * 24 + f.hour) * 60 + f.minute) * 60_000
    + f.second * 1000 + f.milli
  }

  lemma InstantRange(t: Instant)
    ensures DaysBefore(-9999) <= UnixTimestamp(t) / SECONDS_PER_DAY < DaysBefore(10000)
  {
    assert DaysBefore(-9999) == -4371587 && DaysBefore(10000) == 2932897;
  }

  function FieldsOf(t: Instant): (f: Fields)
    ensures ValidFields(f)
  {
    InstantRange(t);
    var seconds := UnixTimestamp(t);
    var days, inDay := seconds / SECONDS_PER_DAY, seconds % SECONDS_PER_DAY;
    var year := YearFrom(days, -9999);
    YearWithin(days, year);
    YearAdvances(year);
    var dayOfYear := days - DaysBefore(year);
    var month := MonthFrom(year, dayOfYear, 1);
    Fields(year, month, dayOfYear - DaysBeforeMonth(year, month) + 1,
           inDay / 3600, inDay / 60 % 60, inDay % 60, (t - seconds * NANOS_PER_SECOND) / NANOS_PER_MILLI)
  }

  lemma YearWithin(days: int, year: int)
    requires days < DaysBefore(10000) && DaysBefore(year) <= days
    ensures year <= 9999
  {
    if year > 10000 {
      YearsAdvance(10000, year);
    }
  }

  lemma TimeOfDay(inDay: nat)
    ensures (inDay / 3600 * 60 + inDay / 60 % 60) * 60 + inDay % 60 == inDay
  {
  }

  lemma MillisOfInstant(t: Instant)
    ensures var s := UnixTimestamp(t); t / NANOS_PER_MILLI == s * 1000 + (t - s * NANOS_PER_SECOND) / NANOS_PER_MILLI
  {
  }

  /** The fields are the date and time of the instant, to the millisecond. */
  lemma FieldsDenote(t: Instant)
    ensures Millis(FieldsOf(t)) == t / NANOS_PER_MILLI
  {
    var f, seconds := FieldsOf(t), UnixTimestamp(t);
    InstantRange(t);
    TimeOfDay(seconds % SECONDS_PER_DAY);
    MillisOfInstant(t);
    assert DaysBefore(f.year) + DaysBeforeMonth(f.year, f.month) + f.day - 1 == seconds / SECONDS_PER_DAY;
    assert seconds == seconds / SECONDS_PER_DAY * SECONDS_PER_DAY + seconds % SECONDS_PER_DAY;
  }

  // ---------------------------------------------------------------- text

  function Digit(n: nat): (c: char)
    ensures IsDigit(c)
  {
    '0' + (n % 10) as char
  }

  function TwoDigits(n: nat): string {
    [Digit(n / 10), Digit(n)]
  }

  function ThreeDigits(n: nat): string {
    [Digit(n / 100), Digit(n / 10), Digit(n)]
  }

  function FourDigits(n: nat): (s: string)
    ensures |s| == 4
  {
    [Digit(n / 1000), Digit(n / 100), Digit(n / 10), Digit(n)]
  }

  /** A sign before years below zero, as the date library prints them. */
  function YearText(year: int): string {
    if year < 0 then "-" + FourDigits(-year) else FourDigits(year)
  }

  function DateTimeText(f: Fields): string {
    YearText(f.year) + "-" + TwoDigits(f.month) + "-" + TwoDigits(f.day) + "T" +
    TwoDigits(f.hour) + ":" + TwoDigits(f.minute) + ":" + TwoDigits(f.second) + "." + ThreeDigits(f.milli) + "Z"
  }

  function FormatIso(t: Instant): string {
    DateTimeText(FieldsOf(t))
  }

  // ---------------------------------------------------------------- a reader of the text

  /** Days since the epoch, counted in years that start on 1 March, so that a leap day ends its year. */
  function CivilDays(year: int, month: int, day: int): int {
    var y := if month <= 2 then year - 1 else year;
    var m := (month + 9) % 12;
    365 * y + y / 4 - y / 100 + y / 400 + (153 * m + 2) / 5 + day - 719469
  }

  /** A day of the calendar: it lies before the first day of the next month. */
  predicate IsCivilDay(year: int, month: int, day: int) {
    && 1 <= month <= 12 && 1 <= day
    && CivilDays(year, month, day) < if month == 12 then CivilDays(year + 1, 1, 1) else CivilDays(year, month + 1, 1)
  }

  /** Decimal value of the `n` digits from position `i` on. */
  function NumberAt(s: string, i: nat, n: nat): nat
    requires i + n <= |s| && forall k :: i <= k < i + n ==> '0' <= s[k] <= '9'
  {
    if n == 0 then 0 else NumberAt(s, i, n - 1) * 10 + (s[i + n - 1] as int - '0' as int)
  }

  predicate HasDateTimeShape(s: string) {
    && |s| == 24 && s[4] == s[7] == '-' && s[10] == 'T' && s[13] == s[16] == ':' && s[19] == '.' && s[23] == 'Z'
    && forall i :: 0 <= i < 23 && i != 4 && i != 7 && i != 10 && i != 13 && i != 16 && i != 19 ==> '0' <= s[i] <= '9'
  }

  /**
   Milliseconds since the epoch of an RFC 3339 time in UTC with three fractional digits (section 5.6
   of RFC 3339). The year counts backwards if `sign` is -1.
   */
  function ReadDateTime(s: string, sign: int): Option<int> {
    if !HasDateTimeShape(s) then None
    else
      var year, month, day := sign * NumberAt(s, 0, 4), NumberAt(s, 5, 2), NumberAt(s, 8, 2);
      var hour, minute, second := NumberAt(s, 11, 2), NumberAt(s, 14, 2), NumberAt(s, 17, 2);
      if IsCivilDay(year, month, day) && hour < 24 && minute < 60 && second < 60 then
        Some(((CivilDays(year, month, day) * 24 + hour) * 60 + minute) * 60_000 + second * 1000 + NumberAt(s, 20, 3))
      else None
  }

  lemma CivilYear(year: int, month: int, day: int)
    requires 1 <= month <= 12
    ensures CivilDays(year, month, day) ==
            DaysBefore(if month <= 2 then year else year + 1) + (153 * ((month + 9) % 12) + 2) / 5 + day - 307
  {
  }

  /** Months of a year that starts on 1 March. */
  lemma {:induction false} MonthDays(year: int, month: int)
    requires 3 <= month <= 12
    ensures DaysBeforeMonth(year, month) == YearLength(year) + (153 * (month - 3) + 2) / 5 - 306
    decreases month
  {
    if month == 3 {
      assert DaysBeforeMonth(year, 2) == 31;
    } else {
      MonthDays(year, month - 1);
    }
  }

  lemma CivilDaysAgree(year: int, month: int, day: int)
    requires 1 <= month <= 12
    ensures CivilDays(year, month, day) == DaysBefore(year) + DaysBeforeMonth(year, month) + day - 1
  {
    hide CivilDays, DaysBefore, YearLength;
    CivilYear(year, month, day);
    if month >= 3 {
      YearAdvances(year);
      MonthDays(year, month);
      assert (month + 9) % 12 == month - 3;
    } else {
      assert DaysBeforeMonth(year, 1) == 0 && DaysBeforeMonth(year, 2) == 31;
    }
  }

  lemma CivilDayValid(year: int, month: int, day: int)
    requires 1 <= month <= 12
    ensures IsCivilDay(year, month, day) <==> 1 <= day <= MonthLength(year, month)
  {
    hide CivilDays, MonthLength, DaysBefore;
    CivilDaysAgree(year, month, day);
    if month == 12 {
      CivilDaysAgree(year + 1, 1, 1);
      YearAdvances(year);
      MonthsFillYear(year);
    } else {
      CivilDaysAgree(year, month + 1, 1);
    }
  }

  lemma TwoDigitsRead(s: string, i: nat, n: nat)
    requires i + 2 <= |s| && n < 100 && s[i] == Digit(n / 10) && s[i + 1] == Digit(n)
    ensures NumberAt(s, i, 2) == n
  {
    assert NumberAt(s, i, 1) == n / 10;
  }

  lemma ThreeDigitsRead(s: string, i: nat, n: nat)
    requires i + 3 <= |s| && n < 1000 && s[i] == Digit(n / 100) && s[i + 1] == Digit(n / 10) && s[i + 2] == Digit(n)
    ensures NumberAt(s, i, 3) == n
  {
    TwoDigitsRead(s, i, n / 10);
  }

  lemma FourDigitsRead(s: string, n: nat)
    requires 4 <= |s| && n < 10000 && s[..4] == FourDigits(n)
    ensures NumberAt(s, 0, 4) == n
  {
    assert s[0] == s[..4][0] && s[1] == s[..4][1] && s[2] == s[..4][2] && s[3] == s[..4][3];
    assert n / 1000 == n / 10 / 100;
    ThreeDigitsRead(s, 0, n / 10);
  }

  function TimeText(f: Fields): string {
    TwoDigits(f.hour) + ":" + TwoDigits(f.minute) + ":" + TwoDigits(f.second) + "." + ThreeDigits(f.milli) + "Z"
  }

  /** Month, day and time. */
  function DateText(f: Fields): string {
    "-" + TwoDigits(f.month) + "-" + TwoDigits(f.day) + "T" + TimeText(f)
  }

  lemma DateParts(f: Fields, s: string)
    requires s == DateText(f)
    ensures |s| == 7 + |TimeText(f)| && s[7..] == TimeText(f)
    ensures s[0] == '-' && s[1] == Digit(f.month / 10) && s[2] == Digit(f.month)
    ensures s[3] == '-' && s[4] == Digit(f.day / 10) && s[5] == Digit(f.day) && s[6] == 'T'
  {
    hide TimeText;
  }

  lemma TimeParts(f: Fields, s: string)
    requires s == TimeText(f)
    ensures |s| == 13 && s[0] == Digit(f.hour / 10) && s[1] == Digit(f.hour) && s[2] == ':'
    ensures s[3] == Digit(f.minute / 10) && s[4] == Digit(f.minute) && s[5] == ':'
    ensures s[6] == Digit(f.second / 10) && s[7] == Digit(f.second) && s[8] == '.'
    ensures s[9] == Digit(f.milli / 100) && s[10] == Digit(f.milli / 10) && s[11] == Digit(f.milli) && s[12] == 'Z'
  {
  }

  /** The text is the year, the month and day, the time. */
  lemma TextSplits(f: Fields)
    ensures DateTimeText(f) == YearText(f.year) + DateText(f)
  {
    hide TwoDigits, ThreeDigits, YearText;
  }

  /** Reading undoes writing: the digits of the year, then month and day, then the time. */
  lemma TextReads(f: Fields, s: string, sign: int)
    requires ValidFields(f) && (sign == 1 || sign == -1) && 0 <= sign * f.year
    requires s == FourDigits(sign * f.year) + DateText(f)
    ensures ReadDateTime(s, sign) == Some(Millis(f))
  {
    hide CivilDays, IsCivilDay, MonthLength, DaysBefore, DaysBeforeMonth, Digit, NumberAt, HasDateTimeShape, DateText;
    TextIndexed(f, s, sign * f.year);
    FourDigitsRead(s, sign * f.year);
    TwoDigitsRead(s, 5, f.month);
    TwoDigitsRead(s, 8, f.day);
    TwoDigitsRead(s, 11, f.hour);
    TwoDigitsRead(s, 14, f.minute);
    TwoDigitsRead(s, 17, f.second);
    ThreeDigitsRead(s, 20, f.milli);
    CivilDayValid(f.year, f.month, f.day);
    CivilDaysAgree(f.year, f.month, f.day);
  }

  lemma TextIndexed(f: Fields, s: string, year: nat)
    requires s == FourDigits(year) + DateText(f)
    ensures |s| == 24 && HasDateTimeShape(s) && s[..4] == FourDigits(year)
    ensures s[5] == Digit(f.month / 10) && s[6] == Digit(f.month) && s[8] == Digit(f.day / 10) && s[9] == Digit(f.day)
    ensures s[11] == Digit(f.hour / 10) && s[12] == Digit(f.hour)
    ensures s[14] == Digit(f.minute / 10) && s[15] == Digit(f.minute)
    ensures s[17] == Digit(f.second / 10) && s[18] == Digit(f.second)
    ensures s[20] == Digit(f.milli / 100) && s[21] == Digit(f.milli / 10) && s[22] == Digit(f.milli)
  {
    hide TwoDigits, ThreeDigits, Digit, TimeText, DateText;
    var date, time := DateText(f), TimeText(f);
    TimeParts(f, time);
    DateParts(f, date);
    assert s[4] == date[0] && s[5] == date[1] && s[6] == date[2] && s[7] == date[3];
    assert s[8] == date[4] && s[9] == date[5] && s[10] == date[6];
    TimeShifted(s, FourDigits(year), date, time);
  }

  lemma TimeShifted(s: string, year: string, date: string, time: string)
    requires |year| == 4 && s == year + date && |date| == 20 && |time| == 13 && date[7..] == time
    ensures s[11] == time[0] && s[12] == time[1] && s[13] == time[2] && s[14] == time[3] && s[15] == time[4]
    ensures s[16] == time[5] && s[17] == time[6] && s[18] == time[7] && s[19] == time[8] && s[20] == time[9]
    ensures s[21] == time[10] && s[22] == time[11] && s[23] == time[12]
  {
    assert forall i :: 0 <= i < 13 ==> time[i] == date[7..][i] == s[i + 11];
  }

  /**
   A text that reads as the instant, to the millisecond: as it stands from the year 0 on, and behind a
   minus sign, with years counted backwards, before it.
   */
  predicate Denotes(text: string, t: Instant) {
    if t >= FIRST_READABLE then ReadDateTime(text, 1) == Some(t / NANOS_PER_MILLI)
    else |text| == 25 && text[0] == '-' && ReadDateTime(text[1..], -1) == Some(t / NANOS_PER_MILLI)
  }

  /** What the exporter writes for an instant reads back as that instant. */
  lemma FormatIsoReads(t: Instant)
    ensures Denotes(FormatIso(t), t)
  {
    hide ReadDateTime, Millis, FieldsOf, DateTimeText;
    YearSign(t);
    FieldsDenote(t);
    FieldsRead(FieldsOf(t));
  }

  lemma SignSplits(s: string, year: string, rest: string)
    requires s == "-" + year + rest
    ensures |s| == 1 + |year| + |rest| && s[0] == '-' && s[1..] == year + rest
  {
  }

  lemma FieldsRead(f: Fields)
    requires ValidFields(f)
    ensures var text := DateTimeText(f);
            if f.year >= 0 then ReadDateTime(text, 1) == Some(Millis(f))
            else |text| == 25 && text[0] == '-' && ReadDateTime(text[1..], -1) == Some(Millis(f))
  {
    hide ReadDateTime, Millis, DateTimeText, DateText, FourDigits, TimeText, MonthLength, Digit;
    var text := DateTimeText(f);
    TextSplits(f);
    if f.year >= 0 {
      TextReads(f, text, 1);
    } else {
      TimeParts(f, TimeText(f));
      DateParts(f, DateText(f));
      SignSplits(text, FourDigits(-f.year), DateText(f));
      TextReads(f, text[1..], -1);
    }
  }

  // ---------------------------------------------------------------- the date library's check

  /**
   What the model asks of the RFC 3339 reader: it takes every time that reads as one, and nothing that
   does not start with a digit.
   */
  ghost predicate LawfulTimestampCheck(isTimestamp: TimestampCheck) {
    && (forall s :: ReadDateTime(s, 1).Some? ==> isTimestamp(s))
    && (forall s :: isTimestamp(s) ==> s != "" && '0' <= s[0] <= '9')
  }

  /** The first instant of the year 0. */
  const FIRST_READABLE: Instant := -62167219200 * NANOS_PER_SECOND

  lemma YearSign(t: Instant)
    ensures FieldsOf(t).year >= 0 <==> t >= FIRST_READABLE
  {
    var f, days := FieldsOf(t), UnixTimestamp(t) / SECONDS_PER_DAY;
    assert DaysBefore(0) == -719528;
    InstantRange(t);
    assert DaysBefore(f.year) <= days < DaysBefore(f.year + 1);
    if f.year > 0 {
      YearsAdvance(0, f.year);
    } else if f.year < -1 {
      YearsAdvance(f.year + 1, 0);
    }
  }

  /** What the exporter writes for an instant is readable exactly from the year 0 on. */
  lemma ReadableExact(isTimestamp: TimestampCheck, t: Instant)
    requires LawfulTimestampCheck(isTimestamp)
    ensures isTimestamp(FormatIso(t)) <==> t >= FIRST_READABLE
  {
    hide FormatIso, ReadDateTime;
    FormatIsoReads(t);
  }

  lemma LawfulTimestampCheckExists()
    ensures exists isTimestamp :: LawfulTimestampCheck(isTimestamp)
  {
    var isTimestamp: TimestampCheck := s => ReadDateTime(s, 1).Some?;
    forall s | isTimestamp(s)
      ensures s != "" && '0' <= s[0] <= '9'
    {
      assert HasDateTimeShape(s);
    }
    assert LawfulTimestampCheck(isTimestamp);
  }
}
