/**
 * The mapping between a task's recurrence and the fields of an iCalendar RRULE
 * (section 3.3.10 of RFC 5545), as the task repository reads and writes them through
 * `vRecur`'s key → list-of-values dictionary. The RRULE text itself is not modelled:
 * an `Rrule` is that dictionary, with an absent key as an empty list.
 */
module Recurrence {
  import opened Wrappers
  import opened SqlUpdate
  import Decimal

  datatype Day = Sunday | Monday | Tuesday | Wednesday | Thursday | Friday | Saturday

  datatype WeekOfMonth = First | Second | Third | Fourth | Last

  /** The repository's recurrence patterns, each with the `interval` it reads and writes. */
  datatype Pattern =
    | Daily(interval: int)
    | Weekly(interval: int, daysOfWeek: seq<Day>)
    | MonthlyAbsolute(interval: int, dayOfMonth: int)
    | MonthlyRelative(interval: int, dayOfWeek: Day, weekOfMonth: WeekOfMonth)
    | Yearly(interval: int)

  datatype Range = EndDate(endAt: Timestamp) | Numbered(count: int)

  datatype Recurrence = Recurrence(pattern: Pattern, range: Option<Range>)

  /**
   * A BYDAY entry: its text as written, and the optional ordinal and two-letter day code
   * `vWeekday` splits it into ("-1FR" is `WeekdayToken("-1FR", Some(-1), "FR")`, "MO" is
   * `WeekdayToken("MO", None, "MO")`). A bare sign or a zero ordinal gives no ordinal:
   * "+MO" is `WeekdayToken("+MO", None, "MO")`.
   */
  datatype WeekdayToken = WeekdayToken(text: string, relative: Option<int>, code: string)

  /** The RRULE dictionary; each field lists the values of one key, empty when absent. */
  datatype Rrule = Rrule(
    freq: seq<string>,
    interval: seq<int>,
    byDay: seq<WeekdayToken>,
    byMonthDay: seq<int>,
    count: seq<int>,
    until: seq<Timestamp>)

  /**
   * What reading an RRULE can raise: a missing FREQ or BYMONTHDAY key (KeyError), an
   * unknown FREQ (ValueError), a BYDAY entry that names no day as the branch needs it
   * (KeyError or ValueError), a monthly BYDAY without an ordinal (AssertionError), or an
   * ordinal outside 1..4 and -1 (KeyError).
   */
  datatype IcalError =
    | MissingFreq
    | UnknownFreq(freq: string)
    | UnknownDay(token: WeekdayToken)
    | NoRelative
    | UnknownWeekOfMonth(relative: int)
    | MissingMonthDay

  /** The schema's day literals. */
  function DayName(d: Day): string {
    match d
    case Sunday => "sunday"
    case Monday => "monday"
    case Tuesday => "tuesday"
    case Wednesday => "wednesday"
    case Thursday => "thursday"
    case Friday => "friday"
    case Saturday => "saturday"
  }

  function UpperChar(c: char): char {
    if 'a' <= c <= 'z' then (c as int - 32) as char else c
  }

  /** `str.upper()` on ASCII text. */
  function Upper(s: string): (r: string)
    ensures |r| == |s| && forall i :: 0 <= i < |s| ==> r[i] == UpperChar(s[i])
  {
    seq(|s|, i requires 0 <= i < |s| => UpperChar(s[i]))
  }

  /** `d[:2].upper()`: the BYDAY code written for a day. */
  function DayCode(d: Day): string {
    Upper(DayName(d)[..2])
  }

  /** The codes `DayCode` produces, spelled out. */
  lemma DayCodes()
    ensures DayCode(Sunday) == "SU" && DayCode(Monday) == "MO" && DayCode(Tuesday) == "TU"
    ensures DayCode(Wednesday) == "WE" && DayCode(Thursday) == "TH" && DayCode(Friday) == "FR"
    ensures DayCode(Saturday) == "SA"
  {
  }

  /**
   * The day a code names when read back: `vWeekday.week_days` numbers the codes from
   * SU = 0 to SA = 6, and the repository indexes a Sunday-first list of day names with
   * that number.
   */
  function DayOfCode(code: string): (r: Option<Day>)
    ensures r.Some? ==> DayCode(r.value) == code
  {
    DayCodes();
    if code == "SU" then Some(Sunday)
    else if code == "MO" then Some(Monday)
    else if code == "TU" then Some(Tuesday)
    else if code == "WE" then Some(Wednesday)
    else if code == "TH" then Some(Thursday)
    else if code == "FR" then Some(Friday)
    else if code == "SA" then Some(Saturday)
    else None
  }

  /** Every day's code reads back as that day, so distinct days get distinct codes. */
  lemma DayCodeRoundTrip(d: Day)
    ensures DayOfCode(DayCode(d)) == Some(d)
  {
    DayCodes();
  }

  /** The ordinal written for a week of the month. */
  function Relative(w: WeekOfMonth): (n: int)
    ensures n in {1, 2, 3, 4, -1}
  {
    match w
    case First => 1
    case Second => 2
    case Third => 3
    case Fourth => 4
    case Last => -1
  }

  /** The week of the month an ordinal reads back as, if any. */
  function WeekOfMonthOf(n: int): (r: Option<WeekOfMonth>)
    ensures r.Some? <==> n in {1, 2, 3, 4, -1}
  {
    if n == 1 then Some(First)
    else if n == 2 then Some(Second)
    else if n == 3 then Some(Third)
    else if n == 4 then Some(Fourth)
    else if n == -1 then Some(Last)
    else None
  }

  /** The two tables are mutually inverse bijections. */
  lemma WeekOfMonthTables(w: WeekOfMonth, n: int)
    ensures WeekOfMonthOf(Relative(w)) == Some(w)
    ensures WeekOfMonthOf(n) == Some(w) <==> Relative(w) == n
  {
  }

  /**
   * The weekly BYDAY list read back: each entry's text as written is looked up in
   * `vWeekday.week_days`, so the read fails at the first entry whose text is not a bare
   * day code, with or without an ordinal.
   */
  function DaysOf(tokens: seq<WeekdayToken>): (r: Result<seq<Day>, IcalError>)
    ensures r.Ok? ==> |r.value| == |tokens|
    ensures r.Ok? <==> forall i :: 0 <= i < |tokens| ==> DayOfCode(tokens[i].text).Some?
    ensures r.Ok? ==> forall i :: 0 <= i < |tokens| ==> Some(r.value[i]) == DayOfCode(tokens[i].text)
    ensures r.Err? ==> exists i :: 0 <= i < |tokens| && r.error == UnknownDay(tokens[i]) && DayOfCode(tokens[i].text).None?
  {
    if |tokens| == 0 then Ok([])
    else
      var t := tokens[0];
      if DayOfCode(t.text).None? then Err(UnknownDay(t))
      else
        var rest :- DaysOf(tokens[1..]);
        assert forall i :: 1 <= i < |tokens| ==> tokens[i] == tokens[1..][i - 1];
        Ok([DayOfCode(t.text).value] + rest)
  }

  /**
   * A weekly entry with a bare sign or a zero ordinal carries no ordinal, yet its text is
   * no day code, so the weekly read rejects it: `BYDAY=+MO` and `BYDAY=0MO` fail.
   */
  lemma SignedWeeklyDayFails()
    ensures DaysOf([WeekdayToken("+MO", None, "MO")]) == Err(UnknownDay(WeekdayToken("+MO", None, "MO")))
    ensures DaysOf([WeekdayToken("0MO", None, "MO")]) == Err(UnknownDay(WeekdayToken("0MO", None, "MO")))
  {
  }

  /** The pattern part of `_recurrence_from_ical`. */
  function PatternOf(freq: string, interval: int, rr: Rrule): (r: Result<Pattern, IcalError>)
    ensures r.Ok? ==> r.value.interval == interval
    ensures freq !in {"DAILY", "WEEKLY", "MONTHLY", "YEARLY"} ==> r == Err(UnknownFreq(freq))
    ensures freq == "DAILY" ==> r == Ok(Daily(interval))
    ensures freq == "YEARLY" ==> r == Ok(Yearly(interval))
    ensures freq == "WEEKLY" ==>
              && (r.Ok? <==> DaysOf(rr.byDay).Ok?)
              && (r.Ok? ==> r.value == Weekly(interval, DaysOf(rr.byDay).value))
    ensures freq == "MONTHLY" && |rr.byDay| == 0 ==>
              r == if |rr.byMonthDay| == 0 then Err(MissingMonthDay) else Ok(MonthlyAbsolute(interval, rr.byMonthDay[0]))
    ensures freq == "MONTHLY" && |rr.byDay| > 0 ==>
              (r.Ok? <==> && DayOfCode(rr.byDay[0].code).Some?
                          && rr.byDay[0].relative.Some?
                          && WeekOfMonthOf(rr.byDay[0].relative.value).Some?)
    ensures freq == "MONTHLY" && |rr.byDay| > 0 && r.Ok? ==>
              && r.value.MonthlyRelative?
              && rr.byDay[0].relative == Some(Relative(r.value.weekOfMonth))
              && rr.byDay[0].code == DayCode(r.value.dayOfWeek)
  {
    if freq == "DAILY" then Ok(Daily(interval))
    else if freq == "WEEKLY" then
      var days :- DaysOf(rr.byDay);
      Ok(Weekly(interval, days))
    else if freq == "MONTHLY" then
      if |rr.byDay| > 0 then
        var t := rr.byDay[0];
        match DayOfCode(t.code)
        case None => Err(UnknownDay(t))
        case Some(day) =>
          match t.relative
          case None => Err(NoRelative)
          case Some(n) =>
            match WeekOfMonthOf(n)
            case None => Err(UnknownWeekOfMonth(n))
            case Some(w) => Ok(MonthlyRelative(interval, day, w))
      else if |rr.byMonthDay| == 0 then Err(MissingMonthDay)
      else Ok(MonthlyAbsolute(interval, rr.byMonthDay[0]))
    else if freq == "YEARLY" then Ok(Yearly(interval))
    else Err(UnknownFreq(freq))
  }

  /** The range part of `_recurrence_from_ical`: COUNT wins over UNTIL. */
  function RangeOf(rr: Rrule): (r: Option<Range>)
    ensures |rr.count| > 0 ==> r == Some(Numbered(rr.count[0]))
    ensures |rr.count| == 0 && |rr.until| > 0 ==> r == Some(EndDate(rr.until[0]))
    ensures r.None? <==> |rr.count| == 0 && |rr.until| == 0
  {
    if |rr.count| > 0 then Some(Numbered(rr.count[0]))
    else if |rr.until| > 0 then Some(EndDate(rr.until[0]))
    else None
  }

  /** `_recurrence_from_ical` on the parsed dictionary. */
  function FromIcal(rr: Rrule): (r: Result<Recurrence, IcalError>)
    ensures |rr.freq| == 0 ==> r == Err(MissingFreq)
    ensures r.Ok? ==> r.value.pattern.interval == (if |rr.interval| == 0 then 1 else rr.interval[0])
    ensures r.Ok? ==> r.value.range == RangeOf(rr)
  {
    if |rr.freq| == 0 then Err(MissingFreq)
    else
      var interval := if |rr.interval| == 0 then 1 else rr.interval[0];
      var pattern :- PatternOf(rr.freq[0], interval, rr);
      Ok(Recurrence(pattern, RangeOf(rr)))
  }

  function WeeklyByDay(days: seq<Day>): (r: seq<WeekdayToken>)
    ensures |r| == |days| && forall i :: 0 <= i < |days| ==> r[i] == WeekdayToken(DayCode(days[i]), None, DayCode(days[i]))
  {
    seq(|days|, i requires 0 <= i < |days| => WeekdayToken(DayCode(days[i]), None, DayCode(days[i])))
  }

  /** `f"{relative}{weekday}"`: the ordinal as `str` prints it, then the day code. */
  function RelativeToken(n: int, code: string): (t: WeekdayToken)
    ensures t.relative == Some(n) && t.code == code
  {
    WeekdayToken((if n < 0 then "-" + Decimal.Show(-n) else Decimal.Show(n)) + code, Some(n), code)
  }

  const NoFields := Rrule([], [], [], [], [], [])

  /** The FREQ, INTERVAL, BYDAY and BYMONTHDAY fields `_recurrence_to_ical` fills for a pattern. */
  function PatternFields(p: Pattern): (rr: Rrule)
    ensures rr.count == [] && rr.until == []
  {
    match p
    case Daily(i) => NoFields.(freq := ["DAILY"], interval := [i])
    case Weekly(i, days) => NoFields.(freq := ["WEEKLY"], interval := [i], byDay := WeeklyByDay(days))
    case MonthlyRelative(i, day, w) =>
      NoFields.(freq := ["MONTHLY"], interval := [i], byDay := [RelativeToken(Relative(w), DayCode(day))])
    case MonthlyAbsolute(i, d) => NoFields.(freq := ["MONTHLY"], interval := [i], byMonthDay := [d])
    case Yearly(i) => NoFields.(freq := ["YEARLY"], interval := [i])
  }

  /** The COUNT or UNTIL field `_recurrence_to_ical` adds for a range. */
  function WithRange(rr: Rrule, range: Option<Range>): Rrule {
    match range
    case None => rr
    case Some(Numbered(n)) => rr.(count := [n])
    case Some(EndDate(t)) => rr.(until := [t])
  }

  /** `_recurrence_to_ical`, up to the dictionary it fills. */
  function ToIcal(r: Recurrence): (rr: Rrule)
    ensures |rr.freq| == 1 && |rr.interval| == 1 && rr.interval[0] == r.pattern.interval
    ensures rr.freq[0] == match r.pattern
                          case Daily(_) => "DAILY"
                          case Weekly(_, _) => "WEEKLY"
                          case MonthlyAbsolute(_, _) => "MONTHLY"
                          case MonthlyRelative(_, _, _) => "MONTHLY"
                          case Yearly(_) => "YEARLY"
    ensures |rr.byDay| > 0 ==> r.pattern.Weekly? || r.pattern.MonthlyRelative?
    ensures r.pattern.MonthlyRelative? ==>
              rr.byDay == [RelativeToken(Relative(r.pattern.weekOfMonth), DayCode(r.pattern.dayOfWeek))]
    ensures |rr.byMonthDay| > 0 <==> r.pattern.MonthlyAbsolute?
    ensures r.range.None? ==> rr.count == [] && rr.until == []
    ensures r.range.Some? && r.range.value.Numbered? ==> rr.count == [r.range.value.count] && rr.until == []
    ensures r.range.Some? && r.range.value.EndDate? ==> rr.count == [] && rr.until == [r.range.value.endAt]
  {
    WithRange(PatternFields(r.pattern), r.range)
  }

  /** The pattern fields read back as the pattern, whatever range fields sit beside them. */
  lemma PatternRoundTrip(p: Pattern, range: Option<Range>)
    ensures var rr := WithRange(PatternFields(p), range);
            PatternOf(rr.freq[0], p.interval, rr) == Ok(p)
  {
    var rr := WithRange(PatternFields(p), range);
    match p
    case Weekly(i, days) =>
      forall k | 0 <= k < |days| ensures DayOfCode(rr.byDay[k].text) == Some(days[k]) {
        DayCodeRoundTrip(days[k]);
      }
      assert DaysOf(rr.byDay).Ok?;
      assert DaysOf(rr.byDay).value == days;
    case MonthlyRelative(i, day, w) =>
      DayCodeRoundTrip(day);
    case _ =>
  }

  /** Every recurrence the repository writes reads back as itself. */
  lemma FromToIcal(r: Recurrence)
    ensures FromIcal(ToIcal(r)) == Ok(r)
  {
    PatternRoundTrip(r.pattern, r.range);
    assert RangeOf(ToIcal(r)) == r.range;
  }
}
