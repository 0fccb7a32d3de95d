/**
 * Local date-times of the ISO calendar, as the reminder bot stores and
 * compares them: a record of calendar fields, so that truncating to the
 * minute and comparing two instants are exact.
 */
module Time {

  /** A date-time without zone: the fields of java.time.LocalDateTime. */
  datatype LocalDateTime = LocalDateTime(
    year: int, month: int, day: int,
    hour: int, minute: int, second: int, nano: int)

  const NanosPerSecond: int := 1_000_000_000

  /** Leap years of the proleptic Gregorian calendar. */
  predicate IsLeap(year: int)
  {
    year % 4 == 0 && (year % 100 != 0 || year % 400 == 0)
  }

  function DaysInMonth(year: int, month: int): (n: int)
    requires 1 <= month <= 12
    ensures 28 <= n <= 31
    ensures n == 31 <==> month in {1, 3, 5, 7, 8, 10, 12}
    ensures n == 30 <==> month in {4, 6, 9, 11}
    ensures month == 2 ==> (n == 29 <==> IsLeap(year))
  {
    if month == 2 then (if IsLeap(year) then 29 else 28)
    else if month == 4 || month == 6 || month == 9 || month == 11 then 30
    else 31
  }

  /** Every field within the range the calendar allows. */
  predicate Valid(t: LocalDateTime)
  {
    && 1 <= t.month <= 12
    && 1 <= t.day <= DaysInMonth(t.year, t.month)
    && 0 <= t.hour < 24
    && 0 <= t.minute < 60
    && 0 <= t.second < 60
    && 0 <= t.nano < NanosPerSecond
  }

  /** No seconds and no sub-second part: the granularity of a due time. */
  predicate MinuteAligned(t: LocalDateTime)
  {
    t.second == 0 && t.nano == 0
  }

  /** Two instants that fall into the same clock minute. */
  predicate SameMinute(a: LocalDateTime, b: LocalDateTime)
  {
    a.year == b.year && a.month == b.month && a.day == b.day
    && a.hour == b.hour && a.minute == b.minute
  }

  /** LocalDateTime.truncatedTo(ChronoUnit.MINUTES). */
  function TruncatedToMinutes(t: LocalDateTime): (r: LocalDateTime)
    ensures MinuteAligned(r) && SameMinute(r, t)
    ensures Valid(t) ==> Valid(r)
  {
    t.(second := 0, nano := 0)
  }

  /**
   * The truncation is the only minute-aligned instant of its minute: a due
   * time equals the truncated clock exactly when the clock reads that minute,
   * so an entry due earlier (overdue) or later is not matched.
   */
  lemma TruncationMatchesOnlyItsMinute(now: LocalDateTime, due: LocalDateTime)
    requires MinuteAligned(due)
    ensures TruncatedToMinutes(now) == due <==> SameMinute(now, due)
  {
  }

  /** Truncating twice is truncating once; aligned instants are fixed points. */
  lemma TruncationIdempotent(t: LocalDateTime)
    ensures TruncatedToMinutes(TruncatedToMinutes(t)) == TruncatedToMinutes(t)
    ensures MinuteAligned(t) <==> TruncatedToMinutes(t) == t
  {
  }

  /** LocalDate.plusDays(1) on the date part; the time of day is kept. */
  function PlusOneDay(t: LocalDateTime): (r: LocalDateTime)
    requires Valid(t)
    ensures Valid(r)
    ensures r.hour == t.hour && r.minute == t.minute && r.second == t.second && r.nano == t.nano
    ensures r.year == t.year && r.month == t.month ==> r.day == t.day + 1
    ensures r.year == t.year && r.month != t.month ==>
              r.month == t.month + 1 && r.day == 1 && t.day == DaysInMonth(t.year, t.month)
    ensures r.year != t.year ==>
              r.year == t.year + 1 && r.month == 1 && r.day == 1 && t.month == 12 && t.day == 31
  {
    if t.day < DaysInMonth(t.year, t.month) then t.(day := t.day + 1)
    else if t.month < 12 then t.(month := t.month + 1, day := 1)
    else t.(year := t.year + 1, month := 1, day := 1)
  }
}
