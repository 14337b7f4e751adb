/** The date-string helpers of the detail and list views.

    Dates are shown and typed in the short date format of the current locale.
    The locale, the calendar and the clock are not modelled: `parse` (a short
    format string to a date, when it is one), `format` (a date to its short
    format string), the calendar steps and "today" are parameters. */
module DateStrings {
  import opened Optional
  import opened Dates

  /** `toString`: the short-format rendering of a date, "" for no date. */
  function ToString(date: Option<Date>, format: Date -> string): string {
    match date
    case None => ""
    case Some(d) => format(d)
  }

  /** `toDate`: the date a string denotes in the short format, if any. */
  function ToDate(str: Option<string>, parse: string -> Option<Date>): Option<Date> {
    match str
    case None => None
    case Some(s) => parse(s)
  }

  /** `normalizeDateStr`: a string that denotes a date, rewritten in the
      standard short format; "" for no string or one that is not a date. */
  function NormalizeDateStr(str: Option<string>, parse: string -> Option<Date>, format: Date -> string): string {
    if str.Some? && parse(str.value).Some? then format(parse(str.value).value) else ""
  }

  /** `isValidDate`: a string is valid when it denotes a date; with
      `allowBlank`, no string and the empty string are valid too. */
  function IsValidDate(str: Option<string>, allowBlank: bool, parse: string -> Option<Date>): bool {
    match str
    case Some(s) =>
      if allowBlank && s == "" then true
      else parse(s).Some?
    case None => allowBlank
  }

  /** Normalizing is rendering what the string denotes. */
  lemma NormalizeIsRenderedDate(str: Option<string>, parse: string -> Option<Date>, format: Date -> string)
    ensures NormalizeDateStr(str, parse, format) == ToString(ToDate(str, parse), format)
    ensures NormalizeDateStr(str, parse, format) == "" <== str.None? || parse(str.value).None?
  {
  }

  /** Without blanks allowed, a string is valid exactly when it denotes a
      date; with blanks allowed, also when it is absent or empty. */
  lemma ValidExactlyWhenDate(str: Option<string>, parse: string -> Option<Date>)
    ensures IsValidDate(str, false, parse) <==> ToDate(str, parse).Some?
    ensures IsValidDate(str, true, parse) <==> str.None? || str == Some("") || ToDate(str, parse).Some?
  {
  }

  /** The short format drops the time of day, so a rendered date does not
      parse back to the same instant; it parses back to some date that renders
      the same. That is all the helpers below assume of the locale. */
  ghost predicate ReadsBack(parse: string -> Option<Date>, format: Date -> string) {
    forall d :: parse(format(d)).Some? && format(parse(format(d)).value) == format(d)
  }

  /** When every rendered date reads back as a date with the same rendering
      and the empty string is no date, normalizing twice is normalizing once,
      and a normalized string is valid (blank allowed). */
  lemma NormalizeIdempotent(str: Option<string>, parse: string -> Option<Date>, format: Date -> string)
    requires ReadsBack(parse, format)
    requires parse("") == None
    ensures var n := NormalizeDateStr(str, parse, format);
      && NormalizeDateStr(Some(n), parse, format) == n
      && IsValidDate(Some(n), true, parse)
  {
    if str.Some? && parse(str.value).Some? {
      var d := parse(str.value).value;
      assert parse(format(d)).Some? && format(parse(format(d)).value) == format(d);
    }
  }

  // ---------------------------------------------------------------------------
  // Relative day intervals
  // ---------------------------------------------------------------------------

  /** The phrase `relativeIntervalString` picks, before localization: a blank,
      "today", "yesterday", "<days> days ago", "tomorrow" or "in <days> days". */
  datatype Relative = Blank | Today | Yesterday | DaysAgo(days: int) | Tomorrow | InDays(days: int)

  /** `relativeIntervalString`: where `dateFrom` falls relative to `dateTo`,
      from the whole days between them (positive when `dateFrom` is earlier);
      a blank when either date is missing. */
  function RelativeInterval(dateFrom: Option<Date>, dateTo: Option<Date>, dayInterval: (Date, Date) -> int): Relative {
    if dateFrom.None? || dateTo.None? then Blank
    else
      var days := dayInterval(dateFrom.value, dateTo.value);
      if days == 0 then Today
      else if days > 0 then
        if days == 1 then Yesterday else DaysAgo(days)
      else
        var ahead := -days;
        if ahead == 1 then Tomorrow else InDays(ahead)
  }

  /** The signed day count a phrase stands for. */
  function SignedDays(r: Relative): int {
    match r
    case Blank => 0
    case Today => 0
    case Yesterday => 1
    case DaysAgo(n) => n
    case Tomorrow => -1
    case InDays(n) => -n
  }

  /** The phrase is blank exactly when a date is missing; otherwise it gives
      back the day interval it was chosen from, and any count it prints is at
      least 2 (single days have their own words), so never negative. */
  lemma RelativeIntervalFaithful(dateFrom: Option<Date>, dateTo: Option<Date>, dayInterval: (Date, Date) -> int)
    ensures var r := RelativeInterval(dateFrom, dateTo, dayInterval);
      && (r == Blank <==> dateFrom.None? || dateTo.None?)
      && (r != Blank ==> SignedDays(r) == dayInterval(dateFrom.value, dateTo.value))
      && (r.DaysAgo? ==> r.days >= 2)
      && (r.InDays? ==> r.days >= 2)
  {
  }

  /** Two dates that are a day interval apart in the same direction get the
      same phrase, and different intervals get different phrases. */
  lemma RelativeIntervalInjective(from1: Date, to1: Date, from2: Date, to2: Date, dayInterval: (Date, Date) -> int)
    ensures RelativeInterval(Some(from1), Some(to1), dayInterval) == RelativeInterval(Some(from2), Some(to2), dayInterval)
            <==> dayInterval(from1, to1) == dayInterval(from2, to2)
  {
    RelativeIntervalFaithful(Some(from1), Some(to1), dayInterval);
    RelativeIntervalFaithful(Some(from2), Some(to2), dayInterval);
  }

  // ---------------------------------------------------------------------------
  // Date-string arithmetic
  // ---------------------------------------------------------------------------

  /** `_toDateOrTodayIfInvalid`: the date a string denotes, or today. */
  function DateOrToday(str: Option<string>, parse: string -> Option<Date>, today: Date): Date {
    match ToDate(str, parse)
    case Some(d) => d
    case None => today
  }

  /** `weekPlus`: one week after the date the string denotes (or today), rendered. */
  function WeekPlus(str: Option<string>, parse: string -> Option<Date>, format: Date -> string,
                    today: Date, addWeeks: (Date, int) -> Date): string {
    format(addWeeks(DateOrToday(str, parse, today), 1))
  }

  /** `monthPlus(_:times:)`: `num` months after the date the string denotes (or today), rendered. */
  function MonthPlusTimes(str: Option<string>, num: int, parse: string -> Option<Date>, format: Date -> string,
                          today: Date, addMonths: (Date, int) -> Date): string {
    format(addMonths(DateOrToday(str, parse, today), num))
  }

  /** `monthPlus`: one month after the date the string denotes (or today), rendered. */
  function MonthPlus(str: Option<string>, parse: string -> Option<Date>, format: Date -> string,
                     today: Date, addMonths: (Date, int) -> Date): string {
    format(addMonths(DateOrToday(str, parse, today), 1))
  }

  /** `yearPlus`: one year after the date the string denotes (or today), rendered. */
  function YearPlus(str: Option<string>, parse: string -> Option<Date>, format: Date -> string,
                    today: Date, addYears: (Date, int) -> Date): string {
    format(addYears(DateOrToday(str, parse, today), 1))
  }

  /** The fallback is today exactly for the strings that are not valid dates
      (blanks not allowed); a valid string gives the date it denotes. */
  lemma DateOrTodayFallback(str: Option<string>, parse: string -> Option<Date>, today: Date)
    ensures IsValidDate(str, false, parse) ==> DateOrToday(str, parse, today) == parse(str.value).value
    ensures !IsValidDate(str, false, parse) ==> DateOrToday(str, parse, today) == today
  {
  }

  /** The step helpers shift the date a valid string denotes and otherwise
      today; an invalid string gives the same result as no string, and one
      month is `monthPlus(_:times:)` once. */
  lemma StepsShiftFallback(str: Option<string>, num: int, parse: string -> Option<Date>, format: Date -> string, today: Date,
                           addWeeks: (Date, int) -> Date, addMonths: (Date, int) -> Date, addYears: (Date, int) -> Date)
    ensures var base := if IsValidDate(str, false, parse) then parse(str.value).value else today;
      && WeekPlus(str, parse, format, today, addWeeks) == format(addWeeks(base, 1))
      && MonthPlus(str, parse, format, today, addMonths) == format(addMonths(base, 1))
      && MonthPlusTimes(str, num, parse, format, today, addMonths) == format(addMonths(base, num))
      && YearPlus(str, parse, format, today, addYears) == format(addYears(base, 1))
    ensures !IsValidDate(str, false, parse) ==>
      && WeekPlus(str, parse, format, today, addWeeks) == WeekPlus(None, parse, format, today, addWeeks)
      && MonthPlus(str, parse, format, today, addMonths) == MonthPlus(None, parse, format, today, addMonths)
      && MonthPlusTimes(str, num, parse, format, today, addMonths) == MonthPlusTimes(None, num, parse, format, today, addMonths)
      && YearPlus(str, parse, format, today, addYears) == YearPlus(None, parse, format, today, addYears)
    ensures MonthPlus(str, parse, format, today, addMonths) == MonthPlusTimes(str, 1, parse, format, today, addMonths)
  {
    DateOrTodayFallback(str, parse, today);
  }

  // ---------------------------------------------------------------------------
  // Default date strings
  // ---------------------------------------------------------------------------

  /** `today()`: today's date in the short format. */
  function TodayString(format: Date -> string, today: Date): string {
    format(today)
  }

  /** `none()`: the blank date string. */
  function NoneString(): string {
    ""
  }

  /** Both defaults are accepted by the date fields (blank allowed), and
      normalizing leaves them as they are, when rendered dates read back.
      Today's string denotes a date on the same day as now: one that renders
      as it does, not the instant itself. */
  lemma DefaultsAreNormal(parse: string -> Option<Date>, format: Date -> string, today: Date)
    requires ReadsBack(parse, format)
    requires parse("") == None
    ensures IsValidDate(Some(TodayString(format, today)), false, parse)
    ensures ToDate(Some(TodayString(format, today)), parse).Some?
    ensures format(ToDate(Some(TodayString(format, today)), parse).value) == TodayString(format, today)
    ensures NormalizeDateStr(Some(TodayString(format, today)), parse, format) == TodayString(format, today)
    ensures IsValidDate(Some(NoneString()), true, parse) && !IsValidDate(Some(NoneString()), false, parse)
    ensures NormalizeDateStr(Some(NoneString()), parse, format) == NoneString() == ToString(None, format)
  {
    assert parse(format(today)).Some? && format(parse(format(today)).value) == format(today);
  }
}
