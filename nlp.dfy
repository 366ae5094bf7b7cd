/**
  core/nlp.go: date windows for queries such as "invoices last month".

  Instants are Unix seconds in UTC (no zone offset, no daylight saving), and a
  civil date is a DateTime record.  The natural-language recogniser is an input:
  it either finds nothing or reports the span it matched and the instant it
  means.  The clock is an input too.
 */
module Nlp {
  import opened Wrappers
  import opened Text

  const SecondsPerDay: int := 86400

  /** A civil date and time of day, as time.Time's Date and Clock report it. */
  datatype DateTime = DateTime(year: int, month: int, day: int, hour: int, minute: int, second: int)

  /** A closed interval of Unix seconds: (minTime, maxTime). */
  datatype Window = Window(start: int, end: int)

  // ---------------------------------------------------------------------
  // The proleptic Gregorian calendar

  predicate IsLeap(y: int) {
    y % 4 == 0 && (y % 100 != 0 || y % 400 == 0)
  }

  function DaysInYear(y: int): int {
    if IsLeap(y) then 366 else 365
  }

  function DaysInMonth(y: int, m: int): (n: int)
    requires 1 <= m <= 12
    ensures 28 <= n <= 31
  {
    if m == 2 then (if IsLeap(y) then 29 else 28)
    else if m == 4 || m == 6 || m == 9 || m == 11 then 30
    else 31
  }

  predicate ValidDate(t: DateTime) {
    && 1 <= t.month <= 12 && 1 <= t.day <= DaysInMonth(t.year, t.month)
    && 0 <= t.hour < 24 && 0 <= t.minute < 60 && 0 <= t.second < 60
  }

  /** Leap years among 1..x (counted consistently for x <= 0 as well). */
  function Leaps(x: int): int {
    x / 4 - x / 100 + x / 400
  }

  /** Days from 1970-01-01 to January 1st of year y. */
  function DaysBeforeYear(y: int): int {
    365 * (y - 1970) + Leaps(y - 1) - Leaps(1969)
  }

  /** Days from January 1st to the first of month m; m == 13 is the next January. */
  function DaysBeforeMonth(y: int, m: int): int
    requires 1 <= m <= 13
  {
    [0, 31, 59, 90, 120, 151, 181, 212, 243, 273, 304, 334, 365][m - 1] + (if m > 2 && IsLeap(y) then 1 else 0)
  }

  /** The day number (days since 1970-01-01) of a civil date. */
  function DayNumber(y: int, m: int, d: int): int
    requires 1 <= m <= 12
  {
    DaysBeforeYear(y) + DaysBeforeMonth(y, m) + d - 1
  }

  function DayOf(t: DateTime): int
    requires ValidDate(t)
  {
    DayNumber(t.year, t.month, t.day)
  }

  /** time.Time.Unix */
  function Unix(t: DateTime): (s: int)
    requires ValidDate(t)
    ensures DayOf(t) * SecondsPerDay <= s < (DayOf(t) + 1) * SecondsPerDay
  {
    DayOf(t) * SecondsPerDay + t.hour * 3600 + t.minute * 60 + t.second
  }

  /** time.Weekday of a day number: 0 is Sunday; 1970-01-01 was a Thursday. */
  function Weekday(day: int): (w: int)
    ensures 0 <= w < 7
  {
    (day + 4) % 7
  }

  lemma DivStep(y: int)
    ensures y / 4 - (y - 1) / 4 == (if y % 4 == 0 then 1 else 0)
    ensures y / 100 - (y - 1) / 100 == (if y % 100 == 0 then 1 else 0)
    ensures y / 400 - (y - 1) / 400 == (if y % 400 == 0 then 1 else 0)
  {
  }

  /** Consecutive years' first days are a year's length apart. */
  lemma YearLength(y: int)
    ensures DaysBeforeYear(y + 1) - DaysBeforeYear(y) == DaysInYear(y) == DaysBeforeMonth(y, 13)
  {
    LeapsStep(y);
    assert DaysBeforeYear(y + 1) - DaysBeforeYear(y) == 365 + Leaps(y) - Leaps(y - 1);
  }

  /** Year y adds one to the count of leap years exactly when it is a leap year. */
  lemma LeapsStep(y: int)
    ensures Leaps(y) - Leaps(y - 1) == if IsLeap(y) then 1 else 0
  {
    DivStep(y);
  }

  /** Consecutive months' first days are a month's length apart. */
  lemma MonthLength(y: int, m: int)
    requires 1 <= m <= 12
    ensures DaysBeforeMonth(y, m + 1) - DaysBeforeMonth(y, m) == DaysInMonth(y, m)
  {
  }

  /** The date AddDate(0, 1, 0) reaches from the first of a month: month 13 is January of
      the next year. */
  function NextMonth(y: int, m: int): (ym: (int, int))
    requires 1 <= m <= 12
    ensures 1 <= ym.1 <= 12
    ensures DayNumber(ym.0, ym.1, 1) == DayNumber(y, m, 1) + DaysInMonth(y, m)
  {
    MonthLength(y, m);
    YearLength(y);
    if m == 12 then (y + 1, 1) else (y, m + 1)
  }

  /** The month before, for the first of a month: month 0 is December of the year before. */
  function PrevMonth(y: int, m: int): (ym: (int, int))
    requires 1 <= m <= 12
    ensures 1 <= ym.1 <= 12
    ensures NextMonth(ym.0, ym.1) == (y, m)
  {
    if m == 1 then (y - 1, 12) else (y, m - 1)
  }

  // ---------------------------------------------------------------------
  // Windows

  /** A window of whole days: from midnight of the first to one second before the midnight
      that follows the last. */
  predicate WholeDays(w: Window) {
    w.start % SecondsPerDay == 0 && (w.end + 1) % SecondsPerDay == 0 && w.start <= w.end
  }

  function DaysWindow(firstDay: int, days: int): (w: Window)
    requires days >= 1
    ensures WholeDays(w)
    ensures w.end - w.start + 1 == days * SecondsPerDay
  {
    Window(firstDay * SecondsPerDay, (firstDay + days) * SecondsPerDay - 1)
  }

  /** A window of whole days holds every instant of those days. */
  lemma DaysWindowHolds(firstDay: int, days: int, t: DateTime)
    requires days >= 1 && ValidDate(t) && firstDay <= DayOf(t) < firstDay + days
    ensures DaysWindow(firstDay, days).start <= Unix(t) <= DaysWindow(firstDay, days).end
  {
    var d := DayOf(t);
    assert firstDay * SecondsPerDay <= d * SecondsPerDay;
    assert (d + 1) * SecondsPerDay <= (firstDay + days) * SecondsPerDay;
  }

  /** getMonthWindow: the month of t, from the first at 00:00:00 to one second before the
      first of the next month. */
  function MonthWindow(t: DateTime): (w: Window)
    requires ValidDate(t)
    ensures WholeDays(w) && w.start <= Unix(t) <= w.end
    ensures w.start == DayNumber(t.year, t.month, 1) * SecondsPerDay
    ensures w.end + 1 == DayNumber(NextMonth(t.year, t.month).0, NextMonth(t.year, t.month).1, 1) * SecondsPerDay
    ensures w.end - w.start + 1 == DaysInMonth(t.year, t.month) * SecondsPerDay
  {
    var first := DayNumber(t.year, t.month, 1);
    DaysWindowHolds(first, DaysInMonth(t.year, t.month), t);
    DaysWindow(first, DaysInMonth(t.year, t.month))
  }

  /** The Monday that starts the week of a day, Sunday counting as the seventh day. */
  function WeekStart(day: int): (first: int)
    ensures first <= day < first + 7
    ensures Weekday(first) == 1
  {
    var w := Weekday(day);
    var weekday := if w == 0 then 7 else w;
    var q := (day + 4) / 7;
    assert day + 4 == 7 * q + w;
    assert day - (weekday - 1) + 4 == 7 * (if w == 0 then q - 1 else q) + 1;
    day - (weekday - 1)
  }

  /** The week window: Monday 00:00:00 of t's week to seven days minus one second later. */
  function WeekWindow(t: DateTime): (w: Window)
    requires ValidDate(t)
    ensures WholeDays(w) && w.start <= Unix(t) <= w.end
    ensures w == DaysWindow(WeekStart(DayOf(t)), 7) && Weekday(WeekStart(DayOf(t))) == 1
    ensures w.end - w.start + 1 == 7 * SecondsPerDay
  {
    DaysWindowHolds(WeekStart(DayOf(t)), 7, t);
    DaysWindow(WeekStart(DayOf(t)), 7)
  }

  /** The calendar year of t. */
  function YearWindow(t: DateTime): (w: Window)
    requires ValidDate(t)
    ensures WholeDays(w) && w.start <= Unix(t) <= w.end
    ensures w.start == DayNumber(t.year, 1, 1) * SecondsPerDay
    ensures w.end - w.start + 1 == DaysInYear(t.year) * SecondsPerDay
  {
    YearLength(t.year);
    DaysWindowHolds(DayNumber(t.year, 1, 1), DaysInYear(t.year), t);
    DaysWindow(DayNumber(t.year, 1, 1), DaysInYear(t.year))
  }

  /** The day of t. */
  function DayWindow(t: DateTime): (w: Window)
    requires ValidDate(t)
    ensures WholeDays(w) && w.start <= Unix(t) <= w.end
    ensures w.start == DayOf(t) * SecondsPerDay
    ensures w.end - w.start + 1 == SecondsPerDay
  {
    DaysWindowHolds(DayOf(t), 1, t);
    DaysWindow(DayOf(t), 1)
  }

  // ---------------------------------------------------------------------
  // ParseDateQuery

  /** What the recogniser reports: where its match starts, the matched text and the instant. */
  datatype Found = Found(index: nat, text: string, time: DateTime)

  /** A reply of the recogniser that fits the query it was given. */
  predicate FitsQuery(found: Found, query: string) {
    found.index + |found.text| <= |query| && ValidDate(found.time)
  }

  /** The cleaned query and the window (0, 0 when there is none). */
  datatype DateQuery = DateQuery(clean: string, minTime: int, maxTime: int)

  datatype Granularity = MonthSpan | WeekSpan | YearSpan | DaySpan

  const MonthWords: seq<string> :=
    ["month", "jan", "feb", "mar", "apr", "may", "jun", "jul", "aug", "sep", "oct", "nov", "dec"]

  /** The lowered text names a month, or the word "month". */
  predicate HasMonthWord(lower: string) {
    exists k | 0 <= k < |MonthWords| :: Contains(lower, MonthWords[k])
  }

  /** The window size the matched text asks for: a month word first, then "week", then
      "year" or "202", and a single day otherwise. */
  function GranularityOf(foundText: string): (g: Granularity)
    ensures g == MonthSpan <==> HasMonthWord(Lower(foundText))
    ensures g == WeekSpan <==> !HasMonthWord(Lower(foundText)) && Contains(Lower(foundText), "week")
    ensures g == YearSpan <==>
      && !HasMonthWord(Lower(foundText)) && !Contains(Lower(foundText), "week")
      && (Contains(Lower(foundText), "year") || Contains(Lower(foundText), "202"))
    ensures g == DaySpan <==>
      && !HasMonthWord(Lower(foundText)) && !Contains(Lower(foundText), "week")
      && !Contains(Lower(foundText), "year") && !Contains(Lower(foundText), "202")
  {
    var lower := Lower(foundText);
    if HasMonthWord(lower) then MonthSpan
    else if Contains(lower, "week") then WeekSpan
    else if Contains(lower, "year") || Contains(lower, "202") then YearSpan
    else DaySpan
  }

  /** The window of each granularity around the recognised instant. */
  function WindowOf(g: Granularity, t: DateTime): (w: Window)
    requires ValidDate(t)
    ensures WholeDays(w) && w.start <= Unix(t) <= w.end
    ensures g == MonthSpan ==>
      && w == MonthWindow(t) && w.start == DayNumber(t.year, t.month, 1) * SecondsPerDay
      && w.end - w.start + 1 == DaysInMonth(t.year, t.month) * SecondsPerDay
    ensures g == WeekSpan ==>
      && w == WeekWindow(t) && Weekday(w.start / SecondsPerDay) == 1
      && w.end - w.start + 1 == 7 * SecondsPerDay
    ensures g == YearSpan ==>
      && w == YearWindow(t) && w.start == DayNumber(t.year, 1, 1) * SecondsPerDay
      && w.end - w.start + 1 == DaysInYear(t.year) * SecondsPerDay
    ensures g == DaySpan ==>
      && w == DayWindow(t) && w.start == DayOf(t) * SecondsPerDay
      && w.end - w.start + 1 == SecondsPerDay
  {
    match g
    case MonthSpan => MonthWindow(t)
    case WeekSpan => WeekWindow(t)
    case YearSpan => YearWindow(t)
    case DaySpan => DayWindow(t)
  }

  /** The query with the recognised span cut out, trimmed; case is kept. */
  function WithoutSpan(query: string, index: nat, length: nat): (clean: string)
    requires index + length <= |query|
    ensures |clean| <= |query| - length
  {
    TrimSpace(query[..index] + query[index + length..])
  }

  /** Cutting the span out of `before + span + after` leaves `before + after`, trimmed. */
  lemma WithoutSpanParts(before: string, span: string, after: string)
    ensures WithoutSpan(before + span + after, |before|, |span|) == TrimSpace(before + after)
  {
    var q := before + span + after;
    assert q[..|before|] == before;
    assert q[|before| + |span|..] == after;
  }

  /** ParseDateQuery: the recogniser's span when it finds one, otherwise the fallback
      phrases. */
  function ParseDateQuery(query: string, found: Option<Found>, now: DateTime): (r: DateQuery)
    requires found.Some? ==> FitsQuery(found.value, query)
    requires ValidDate(now)
    ensures found.None? ==> r == ManualFallback(query, now)
    ensures found.Some? ==>
      && r.clean == WithoutSpan(query, found.value.index, |found.value.text|)
      && Window(r.minTime, r.maxTime) == WindowOf(GranularityOf(found.value.text), found.value.time)
      && WholeDays(Window(r.minTime, r.maxTime))
      && r.minTime <= Unix(found.value.time) <= r.maxTime
  {
    match found
    case None => ManualFallback(query, now)
    case Some(f) =>
      var w := WindowOf(GranularityOf(f.text), f.time);
      DateQuery(WithoutSpan(query, f.index, |f.text|), w.start, w.end)
  }

  // ---------------------------------------------------------------------
  // manualFallback

  /** The lowered query with every occurrence of the phrase and then of "from" removed,
      trimmed. */
  function CleanedOf(query: string, phrase: string): string
    requires phrase != []
  {
    TrimSpace(ReplaceAll(ReplaceAll(Lower(query), phrase, ""), "from", ""))
  }

  /** The week before the current one, Monday to Sunday. */
  function LastWeekWindow(now: DateTime): (w: Window)
    requires ValidDate(now)
    ensures WholeDays(w) && w.end - w.start + 1 == 7 * SecondsPerDay
    ensures w.end + 1 == WeekWindow(now).start && w.end < Unix(now)
  {
    DaysWindow(WeekStart(DayOf(now)) - 7, 7)
  }

  /** The day before today. */
  function YesterdayWindow(now: DateTime): (w: Window)
    requires ValidDate(now)
    ensures WholeDays(w) && w.end - w.start + 1 == SecondsPerDay
    ensures w.end + 1 == DayWindow(now).start && w.end < Unix(now)
  {
    DaysWindow(DayOf(now) - 1, 1)
  }

  /** The month before the current one (corrected "last month", see LastMonthAsWritten). */
  function LastMonthWindow(now: DateTime): (w: Window)
    requires ValidDate(now)
    ensures WholeDays(w) && w.end < Unix(now)
    ensures w.end + 1 == MonthWindow(now).start
    ensures w.end - w.start + 1 == DaysInMonth(PrevMonth(now.year, now.month).0, PrevMonth(now.year, now.month).1) * SecondsPerDay
  {
    var prev := PrevMonth(now.year, now.month);
    MonthWindow(DateTime(prev.0, prev.1, 1, 0, 0, 0))
  }

  predicate IsDatePhrase(query: string) {
    Contains(Lower(query), "last month") || Contains(Lower(query), "last week") || Contains(Lower(query), "yesterday")
  }

  /** The fallback's chain of phrases, "last month" first, given the window it uses for
      "last month"; without any phrase the query is returned unchanged with no window. */
  function FallbackWith(query: string, now: DateTime, lastMonth: Window): DateQuery
    requires ValidDate(now)
  {
    var lower := Lower(query);
    if Contains(lower, "last month") then
      DateQuery(CleanedOf(query, "last month"), lastMonth.start, lastMonth.end)
    else if Contains(lower, "last week") then
      var w := LastWeekWindow(now);
      DateQuery(CleanedOf(query, "last week"), w.start, w.end)
    else if Contains(lower, "yesterday") then
      var w := YesterdayWindow(now);
      DateQuery(CleanedOf(query, "yesterday"), w.start, w.end)
    else
      DateQuery(query, 0, 0)
  }

  /** manualFallback as the source computes it, with "last month" taken from
      now.AddDate(0, -1, 0).  Every window lies before now except "last month" on a day the
      previous month lacks, where the window is the current month and holds now. */
  function ManualFallback(query: string, now: DateTime): (r: DateQuery)
    requires ValidDate(now)
    ensures r.minTime == 0 && r.maxTime == 0 <==> !IsDatePhrase(query)
    ensures !IsDatePhrase(query) ==> r.clean == query
    ensures IsDatePhrase(query) ==> WholeDays(Window(r.minTime, r.maxTime))
    ensures IsDatePhrase(query) && !(Contains(Lower(query), "last month") && LastMonthSpills(now)) ==>
      r.maxTime < Unix(now)
    ensures Contains(Lower(query), "last month") && LastMonthSpills(now) ==>
      r.minTime <= Unix(now) <= r.maxTime
  {
    if LastMonthSpills(now) then
      LastMonthOverflows(now);
      FallbackWith(query, now, LastMonthAsWritten(now))
    else
      LastMonthAgrees(now);
      FallbackWith(query, now, LastMonthAsWritten(now))
  }

  /** manualFallback with "last month" meaning the previous calendar month: every window it
      gives ends before now, and "last month" ends where the current month begins. */
  function CorrectedFallback(query: string, now: DateTime): (r: DateQuery)
    requires ValidDate(now)
    ensures r.minTime == 0 && r.maxTime == 0 <==> !IsDatePhrase(query)
    ensures !IsDatePhrase(query) ==> r.clean == query
    ensures IsDatePhrase(query) ==> WholeDays(Window(r.minTime, r.maxTime)) && r.maxTime < Unix(now)
    ensures Contains(Lower(query), "last month") ==> r.maxTime + 1 == MonthWindow(now).start
  {
    FallbackWith(query, now, LastMonthWindow(now))
  }

  /** The two fallbacks differ only on "last month" on a day the previous month lacks. */
  lemma FallbacksAgree(query: string, now: DateTime)
    requires ValidDate(now)
    ensures !LastMonthSpills(now) || !Contains(Lower(query), "last month") ==>
      ManualFallback(query, now) == CorrectedFallback(query, now)
  {
    if !LastMonthSpills(now) {
      LastMonthAgrees(now);
    }
  }

  /** The first phrase found wins: each branch's window and cleaning. */
  lemma FallbackPrecedence(query: string, now: DateTime)
    requires ValidDate(now)
    ensures Contains(Lower(query), "last month") ==>
      ManualFallback(query, now) == DateQuery(CleanedOf(query, "last month"), LastMonthAsWritten(now).start, LastMonthAsWritten(now).end)
    ensures !Contains(Lower(query), "last month") && Contains(Lower(query), "last week") ==>
      ManualFallback(query, now) == DateQuery(CleanedOf(query, "last week"), LastWeekWindow(now).start, LastWeekWindow(now).end)
    ensures !Contains(Lower(query), "last month") && !Contains(Lower(query), "last week") && Contains(Lower(query), "yesterday") ==>
      ManualFallback(query, now) == DateQuery(CleanedOf(query, "yesterday"), YesterdayWindow(now).start, YesterdayWindow(now).end)
  {
  }

  // ---------------------------------------------------------------------
  // "last month" as written

  /** now.AddDate(0, -1, 0): the same day of the previous month, normalised by time.Date,
      so a day that month does not have spills into the current month. */
  function MonthEarlier(now: DateTime): (t: DateTime)
    requires ValidDate(now)
    ensures ValidDate(t)
    ensures DayOf(t) == DayNumber(PrevMonth(now.year, now.month).0, PrevMonth(now.year, now.month).1, 1) + now.day - 1
  {
    var prev := PrevMonth(now.year, now.month);
    var dim := DaysInMonth(prev.0, prev.1);
    if now.day <= dim then now.(year := prev.0, month := prev.1)
    else now.(day := now.day - dim)
  }

  /** The current day does not exist in the previous month (the 29th to the 31st after a
      shorter month). */
  predicate LastMonthSpills(now: DateTime)
    requires ValidDate(now)
  {
    now.day > DaysInMonth(PrevMonth(now.year, now.month).0, PrevMonth(now.year, now.month).1)
  }

  /** manualFallback's "last month" window as the source computes it. */
  function LastMonthAsWritten(now: DateTime): (w: Window)
    requires ValidDate(now)
    ensures WholeDays(w)
  {
    MonthWindow(MonthEarlier(now))
  }

  /** When the previous month has the current day, the window is the previous month. */
  lemma LastMonthAgrees(now: DateTime)
    requires ValidDate(now)
    requires now.day <= DaysInMonth(PrevMonth(now.year, now.month).0, PrevMonth(now.year, now.month).1)
    ensures LastMonthAsWritten(now) == LastMonthWindow(now)
  {
  }

  /** When it does not (the 29th to the 31st after a shorter month), the window is the
      current month, which holds now. */
  lemma LastMonthOverflows(now: DateTime)
    requires ValidDate(now)
    requires now.day > DaysInMonth(PrevMonth(now.year, now.month).0, PrevMonth(now.year, now.month).1)
    ensures LastMonthAsWritten(now) == MonthWindow(now)
    ensures LastMonthAsWritten(now).start <= Unix(now) <= LastMonthAsWritten(now).end
  {
  }

  /** On 2024-03-31 "last month" selects March 2024. */
  lemma LastMonthOnMarch31(now: DateTime)
    requires now == DateTime(2024, 3, 31, 12, 0, 0)
    ensures LastMonthAsWritten(now) == MonthWindow(now) != LastMonthWindow(now)
  {
    LastMonthOverflows(now);
  }

  /** On 2024-03-31 the source's fallback answers "... last month" with a window holding now,
      where the corrected one ends before now. */
  lemma FallbackOnMarch31(query: string, now: DateTime)
    requires now == DateTime(2024, 3, 31, 12, 0, 0) && Contains(Lower(query), "last month")
    ensures ManualFallback(query, now).minTime <= Unix(now) <= ManualFallback(query, now).maxTime
    ensures CorrectedFallback(query, now).maxTime < Unix(now)
  {
    assert LastMonthSpills(now);
  }
}
