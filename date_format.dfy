/**
 * The listener's FORMATTER, the pattern "dd.MM.yyyy HH:mm", and its private
 * parse(): LocalDateTime.parse with that formatter, where every parse or
 * resolution failure becomes an absent value instead of an exception.
 */
module DateFormat {
  import opened Wrappers
  import opened Time

  predicate IsDigit(c: char)
  {
    '0' <= c <= '9'
  }

  function DigitValue(c: char): (d: int)
    requires IsDigit(c)
    ensures 0 <= d <= 9
  {
    c as int - '0' as int
  }

  function DigitChar(d: int): (c: char)
    requires 0 <= d <= 9
    ensures IsDigit(c) && DigitValue(c) == d
  {
    (d + '0' as int) as char
  }

  function Min(a: int, b: int): int
  {
    if a <= b then a else b
  }

  /**
   * The exact shape "dd.MM.yyyy HH:mm". Day, month, hour and minute are
   * fixed two-digit fields; the year field takes four or more digits, but
   * more than four must carry a '+' sign when parsing strictly, and the
   * whole text must be consumed, so only four digits fit a 16-character
   * text. Digits are the ASCII ones; the separators are literal.
   */
  predicate Layout(s: string)
  {
    && |s| == 16
    && IsDigit(s[0]) && IsDigit(s[1]) && s[2] == '.'
    && IsDigit(s[3]) && IsDigit(s[4]) && s[5] == '.'
    && IsDigit(s[6]) && IsDigit(s[7]) && IsDigit(s[8]) && IsDigit(s[9])
    && s[10] == ' '
    && IsDigit(s[11]) && IsDigit(s[12]) && s[13] == ':'
    && IsDigit(s[14]) && IsDigit(s[15])
  }

  /** The two-digit number at position i. */
  function Two(s: string, i: nat): (n: int)
    requires i + 1 < |s| && IsDigit(s[i]) && IsDigit(s[i + 1])
    ensures 0 <= n <= 99
  {
    10 * DigitValue(s[i]) + DigitValue(s[i + 1])
  }

  /** The four-digit number at position i. */
  function Four(s: string, i: nat): (n: int)
    requires i + 3 < |s| && forall j | i <= j < i + 4 :: IsDigit(s[j])
    ensures 0 <= n <= 9999
  {
    100 * Two(s, i) + Two(s, i + 2)
  }

  /**
   * Resolution of the parsed fields in java.time's SMART style: the year of
   * era must be positive and becomes the proleptic year; month 1..12, day
   * 1..31 and minute 0..59 are range-checked; a day past the end of a 30-day
   * month or of February is moved back to the month's last day; hour 24 is
   * accepted only as 24:00 and means midnight of the following day.
   */
  function Resolve(yearOfEra: int, month: int, day: int, hour: int, minute: int): (r: Option<LocalDateTime>)
    ensures r.Some? <==>
      && 1 <= yearOfEra && 1 <= month <= 12 && 1 <= day <= 31 && 0 <= minute < 60
      && (0 <= hour < 24 || (hour == 24 && minute == 0))
    ensures r.Some? ==> Valid(r.value) && MinuteAligned(r.value)
    ensures r.Some? && hour < 24 ==>
      r.value == LocalDateTime(yearOfEra, month, Min(day, DaysInMonth(yearOfEra, month)), hour, minute, 0, 0)
    ensures r.Some? && hour == 24 ==>
      r.value == PlusOneDay(LocalDateTime(yearOfEra, month, Min(day, DaysInMonth(yearOfEra, month)), 0, 0, 0, 0))
  {
    if !(1 <= yearOfEra && 1 <= month <= 12 && 1 <= day <= 31 && 0 <= minute < 60) then None
    else
      var dom :=
        if month == 4 || month == 6 || month == 9 || month == 11 then Min(day, 30)
        else if month == 2 then Min(day, if IsLeap(yearOfEra) then 29 else 28)
        else day;
      var date := LocalDateTime(yearOfEra, month, dom, 0, 0, 0, 0);
      if hour == 24 && minute == 0 then Some(PlusOneDay(date))
      else if 0 <= hour < 24 then Some(date.(hour := hour, minute := minute))
      else None
  }

  /**
   * parse(text): the date-time the text denotes, or None where
   * LocalDateTime.parse would throw DateTimeParseException. A result is
   * always a valid, minute-aligned date-time read from a text of the exact
   * layout.
   */
  function Parse(s: string): (r: Option<LocalDateTime>)
    ensures r.Some? ==> Layout(s)
    ensures r.Some? ==> Valid(r.value) && MinuteAligned(r.value) && 1 <= r.value.year <= 10000
  {
    if !Layout(s) then None
    else Resolve(Four(s, 6), Two(s, 3), Two(s, 0), Two(s, 11), Two(s, 14))
  }

  /** A text the formatter would accept without any SMART adjustment. */
  predicate Canonical(s: string)
  {
    && Layout(s)
    && 1 <= Four(s, 6)
    && 1 <= Two(s, 3) <= 12
    && 1 <= Two(s, 0) <= DaysInMonth(Four(s, 6), Two(s, 3))
    && Two(s, 11) < 24
    && Two(s, 14) < 60
  }

  /** FORMATTER.format(t): the text "dd.MM.yyyy HH:mm" of a date-time. */
  function Format(t: LocalDateTime): (s: string)
    requires Valid(t) && 1 <= t.year <= 9999
    ensures Layout(s)
  {
    [ DigitChar(t.day / 10), DigitChar(t.day % 10), '.',
      DigitChar(t.month / 10), DigitChar(t.month % 10), '.',
      DigitChar(t.year / 1000), DigitChar(t.year / 100 % 10), DigitChar(t.year / 10 % 10), DigitChar(t.year % 10),
      ' ',
      DigitChar(t.hour / 10), DigitChar(t.hour % 10), ':',
      DigitChar(t.minute / 10), DigitChar(t.minute % 10) ]
  }

  /** Splitting a four-digit number into its digits and reading them back gives the number. */
  lemma FourDigits(y: int)
    requires 0 <= y <= 9999
    ensures 100 * (10 * (y / 1000) + y / 100 % 10) + (10 * (y / 10 % 10) + y % 10) == y
  {
    assert 10 * (y / 1000) + y / 100 % 10 == y / 100;
    assert 10 * (y / 10 % 10) + y % 10 == y % 100;
  }

  /** The fields of a formatted text are the fields it was formatted from. */
  lemma FormatFields(t: LocalDateTime)
    requires Valid(t) && 1 <= t.year <= 9999
    ensures var s := Format(t);
      Two(s, 0) == t.day && Two(s, 3) == t.month && Four(s, 6) == t.year
      && Two(s, 11) == t.hour && Two(s, 14) == t.minute
  {
    FourDigits(t.year);
  }

  /** Every minute-aligned date-time of a four-digit year parses back from its text. */
  lemma ParseFormatRoundTrip(t: LocalDateTime)
    requires Valid(t) && MinuteAligned(t) && 1 <= t.year <= 9999
    ensures Parse(Format(t)) == Some(t)
  {
    FormatFields(t);
  }

  /** Every canonical text is the formatting of what it parses to. */
  lemma FormatParseRoundTrip(s: string)
    requires Canonical(s)
    ensures Parse(s).Some?
    ensures Parse(s).value.year <= 9999 && Format(Parse(s).value) == s
  {
    assert Parse(s).Some?;
    var t := Parse(s).value;
    FormatFields(t);
    var f := Format(t);
    SameTwo(f, s, 0);
    SameTwo(f, s, 3);
    SameTwo(f, s, 6);
    SameTwo(f, s, 8);
    SameTwo(f, s, 11);
    SameTwo(f, s, 14);
    assert forall i | 0 <= i < 16 :: f[i] == s[i];
  }

  /** The date of the example in the bot's welcome text. */
  lemma FormatExample()
    ensures Format(LocalDateTime(2023, 1, 1, 0, 0, 0, 0)) == "01.01.2023 00:00"
  {
  }

  /** A two-digit field is determined by its value. */
  lemma SameTwo(f: string, s: string, i: nat)
    requires i + 1 < |f| && IsDigit(f[i]) && IsDigit(f[i + 1])
    requires i + 1 < |s| && IsDigit(s[i]) && IsDigit(s[i + 1])
    requires Two(f, i) == Two(s, i)
    ensures f[i] == s[i] && f[i + 1] == s[i + 1]
  {
  }
}
