/** The text forms the core reads and writes, written out explicitly instead of
    `strftime`/`strptime`:
    - the short date `dd.mm.yy` and the plan-period label `dd.mm.yy - dd.mm.yy`,
    - the ISO date `YYYY-MM-DD` that keys selected availabilities,
    - the `HH:MM:SS` / `HH:MM` start times of a time-of-day slot,
    - the sort key that orders labels by their start component. */
module Formats {
  import opened Wrappers
  import opened Text
  import opened Dates
  import Seqs

  // ---------------------------------------------------------------------------
  // Fields of strptime.
  // ---------------------------------------------------------------------------

  /** `%d`: two digits `01`..`31`, one digit `1`..`9`, or a space and one digit `1`..`9`. */
  function DayField(s: string): (r: Option<int>)
    ensures r.Some? ==> 1 <= r.value <= 31
  {
    if |s| == 2 && s[0] == ' ' && IsDigit(s[1]) && s[1] != '0' then Some(DigitValue(s[1]))
    else NumField(s, 1, 31)
  }

  /** `%y` reads two digits; 69..99 stand for 1969..1999 and 00..68 for 2000..2068. */
  function WindowYear(yy: int): int {
    if yy <= 68 then 2000 + yy else 1900 + yy
  }

  // ---------------------------------------------------------------------------
  // dd.mm.yy and the plan-period label.
  // ---------------------------------------------------------------------------

  /** `d.strftime("%d.%m.%y")`. */
  function ShortDate(d: Date): string
    requires Wellformed(d)
  {
    TwoDigits(d.day) + "." + TwoDigits(d.month) + "." + TwoDigits(d.year % 100)
  }

  /** `datetime.strptime(s, "%d.%m.%y").date()`; `None` where strptime raises `ValueError`. */
  function ParseShortDate(s: string): (r: Option<Date>)
    ensures r.Some? ==> Valid(r.value)
  {
    var f := Split(s, ".");
    if |f| != 3 then None
    else
      match (DayField(f[0]), NumField(f[1], 1, 12), FixedField(f[2], 2))
      case (Some(d), Some(m), Some(yy)) =>
        var date := Date(WindowYear(yy), m, d);
        if Valid(date) then Some(date) else None
      case _ => None
  }

  /** The label of a plan period: `"{start:%d.%m.%y} - {end:%d.%m.%y}"`. */
  function Label(start: Date, end: Date): string
    requires Wellformed(start) && Wellformed(end)
  {
    ShortDate(start) + " - " + ShortDate(end)
  }

  /** `start_str, end_str = text.split(' - ')` followed by two strptime calls;
      `None` where the unpacking or strptime raises `ValueError`. */
  function ParseLabel(text: string): (r: Option<(Date, Date)>)
    ensures r.Some? ==> Valid(r.value.0) && Valid(r.value.1)
  {
    var parts := Split(text, " - ");
    if |parts| != 2 then None
    else
      match (ParseShortDate(parts[0]), ParseShortDate(parts[1]))
      case (Some(s), Some(e)) => Some((s, e))
      case _ => None
  }

  /** The date a short date stands for once it is read back: same day and
      month, the century chosen by the `%y` window. */
  function Windowed(d: Date): Date {
    Date(WindowYear(d.year % 100), d.month, d.day)
  }

  lemma ShortDateHasNoSpaceOrDash(d: Date)
    requires Wellformed(d)
    ensures Avoids(ShortDate(d), ' ')
  {
  }

  /** Reading a short date back gives the same day and month, with the year
      taken modulo 100 and re-centred by the `%y` window; Feb 29 stays valid
      because a leap year's windowed year is a leap year. */
  lemma ShortDateRoundTrip(d: Date)
    requires Wellformed(d)
    ensures ParseShortDate(ShortDate(d)) == Some(Windowed(d))
  {
    var dd, mm, yy := TwoDigits(d.day), TwoDigits(d.month), TwoDigits(d.year % 100);
    assert ShortDate(d) == dd + "." + (mm + "." + yy);
    SplitCons(dd, ".", mm + "." + yy);
    SplitCons(mm, ".", yy);
    SplitWhole(yy, ".");
    assert Split(ShortDate(d), ".") == [dd, mm, yy];
    NumFieldOfTwoDigits(d.day, 1, 31);
    assert DayField(dd) == Some(d.day);
    NumFieldOfTwoDigits(d.month, 1, 12);
    TwoDigitsValue(d.year % 100);
    assert FixedField(yy, 2) == Some(d.year % 100);
    WindowedLeap(d.year);
  }

  lemma WindowedLeap(y: int)
    ensures IsLeapYear(y) ==> IsLeapYear(WindowYear(y % 100))
  {
    var w := WindowYear(y % 100);
    if IsLeapYear(y) {
      if y % 100 == 0 {
        assert w == 2000;
      } else {
        assert w % 100 == y % 100;
        assert w % 4 == y % 4 by {
          assert w - y % 100 == 2000 || w - y % 100 == 1900;
          assert y == (y / 100) * 100 + y % 100;
        }
      }
    }
  }

  /** For the years the `%y` window covers, the short date is read back exactly. */
  lemma ShortDateRoundTripInWindow(d: Date)
    requires Wellformed(d) && 1969 <= d.year <= 2068
    ensures ParseShortDate(ShortDate(d)) == Some(d)
  {
    ShortDateRoundTrip(d);
  }

  /** Parsing a label inverts the label format: both ends come back, each
      re-centred by the `%y` window. */
  lemma LabelRoundTrip(start: Date, end: Date)
    requires Wellformed(start) && Wellformed(end)
    ensures ParseLabel(Label(start, end)) == Some((Windowed(start), Windowed(end)))
  {
    ShortDateHasNoSpaceOrDash(start);
    ShortDateHasNoSpaceOrDash(end);
    SplitCons(ShortDate(start), " - ", ShortDate(end));
    SplitWhole(ShortDate(end), " - ");
    ShortDateRoundTrip(start);
    ShortDateRoundTrip(end);
  }

  /** For dates the `%y` window covers, the label is read back to exactly its dates. */
  lemma LabelRoundTripInWindow(start: Date, end: Date)
    requires Wellformed(start) && Wellformed(end)
    requires 1969 <= start.year <= 2068 && 1969 <= end.year <= 2068
    ensures ParseLabel(Label(start, end)) == Some((start, end))
  {
    LabelRoundTrip(start, end);
    WindowedInWindow(start);
    WindowedInWindow(end);
  }

  /** The `%y` window leaves the years 1969 to 2068 unchanged. */
  lemma WindowedInWindow(d: Date)
    requires 1969 <= d.year <= 2068
    ensures Windowed(d) == d
  {
    if d.year < 2000 {
      assert d.year % 100 == d.year - 1900;
    } else {
      assert d.year % 100 == d.year - 2000;
    }
  }

  /** Two periods share a label exactly when their ends agree on day, month
      and year modulo 100; in particular equal labels mean equal start months. */
  lemma LabelInjective(s1: Date, e1: Date, s2: Date, e2: Date)
    requires Wellformed(s1) && Wellformed(e1) && Wellformed(s2) && Wellformed(e2)
    ensures Label(s1, e1) == Label(s2, e2) <==> Windowed(s1) == Windowed(s2) && Windowed(e1) == Windowed(e2)
  {
    LabelRoundTrip(s1, e1);
    LabelRoundTrip(s2, e2);
    if Windowed(s1) == Windowed(s2) && Windowed(e1) == Windowed(e2) {
      assert s1.year % 100 == s2.year % 100 && e1.year % 100 == e2.year % 100 by {
        WindowYearInjective(s1.year % 100, s2.year % 100);
        WindowYearInjective(e1.year % 100, e2.year % 100);
      }
    }
  }

  lemma WindowYearInjective(a: int, b: int)
    requires 0 <= a <= 99 && 0 <= b <= 99 && WindowYear(a) == WindowYear(b)
    ensures a == b
  {
  }

  // ---------------------------------------------------------------------------
  // YYYY-MM-DD.
  // ---------------------------------------------------------------------------

  /** `d.strftime("%Y-%m-%d")`, the year zero-padded to four digits. */
  function IsoDate(d: Date): string
    requires Valid(d)
  {
    FourDigits(d.year) + "-" + TwoDigits(d.month) + "-" + TwoDigits(d.day)
  }

  /** `datetime.strptime(s, "%Y-%m-%d").date()`; `None` where strptime raises `ValueError`. */
  function ParseIsoDate(s: string): (r: Option<Date>)
    ensures r.Some? ==> Valid(r.value)
  {
    var f := Split(s, "-");
    if |f| != 3 then None
    else
      match (FixedField(f[0], 4), NumField(f[1], 1, 12), DayField(f[2]))
      case (Some(y), Some(m), Some(d)) =>
        var date := Date(y, m, d);
        if Valid(date) then Some(date) else None
      case _ => None
  }

  /** The ISO form of a date is read back exactly. */
  lemma IsoDateRoundTrip(d: Date)
    requires Valid(d)
    ensures ParseIsoDate(IsoDate(d)) == Some(d)
  {
    var yyyy, mm, dd := FourDigits(d.year), TwoDigits(d.month), TwoDigits(d.day);
    assert IsoDate(d) == yyyy + "-" + (mm + "-" + dd);
    SplitCons(yyyy, "-", mm + "-" + dd);
    SplitCons(mm, "-", dd);
    SplitWhole(dd, "-");
    assert Split(IsoDate(d), "-") == [yyyy, mm, dd];
    FourDigitsValue(d.year);
    NumFieldOfTwoDigits(d.month, 1, 12);
    NumFieldOfTwoDigits(d.day, 1, 31);
    assert DayField(dd) == Some(d.day);
  }

  /** Distinct dates have distinct ISO keys. */
  lemma IsoDateInjective(a: Date, b: Date)
    requires Valid(a) && Valid(b) && IsoDate(a) == IsoDate(b)
    ensures a == b
  {
    IsoDateRoundTrip(a);
    IsoDateRoundTrip(b);
  }

  // ---------------------------------------------------------------------------
  // The sort key of a label.
  // ---------------------------------------------------------------------------

  /** `(x.split(' - ')[0].split('.')[2], ...[1], ...[0])`: the year, month and
      day strings of a label's start component. A label without three fields
      (which no formatted label is) gets the empty key. */
  function StartKey(periodLabel: string): (string, string, string) {
    var f := Split(Split(periodLabel, " - ")[0], ".");
    if |f| >= 3 then (f[2], f[1], f[0]) else ("", "", "")
  }

  /** Python's `<=` on triples of strings. */
  predicate KeyLe(a: (string, string, string), b: (string, string, string)) {
    || StrLt(a.0, b.0)
    || (a.0 == b.0 && (StrLt(a.1, b.1) || (a.1 == b.1 && StrLe(a.2, b.2))))
  }

  /** The order `sorted(..., key=StartKey)` puts labels in. */
  predicate LabelLe(a: string, b: string) {
    KeyLe(StartKey(a), StartKey(b))
  }

  lemma StartKeyOfLabel(start: Date, end: Date)
    requires Wellformed(start) && Wellformed(end)
    ensures StartKey(Label(start, end)) == (TwoDigits(start.year % 100), TwoDigits(start.month), TwoDigits(start.day))
  {
    ShortDateHasNoSpaceOrDash(start);
    SplitCons(ShortDate(start), " - ", ShortDate(end));
    var dd, mm, yy := TwoDigits(start.day), TwoDigits(start.month), TwoDigits(start.year % 100);
    assert ShortDate(start) == dd + "." + (mm + "." + yy);
    SplitCons(dd, ".", mm + "." + yy);
    SplitCons(mm, ".", yy);
    SplitWhole(yy, ".");
  }

  /** Formatted labels are ordered by the start's two-digit year, then month,
      then day; the end component plays no part. */
  lemma LabelLeMeaning(s1: Date, e1: Date, s2: Date, e2: Date)
    requires Wellformed(s1) && Wellformed(e1) && Wellformed(s2) && Wellformed(e2)
    ensures LabelLe(Label(s1, e1), Label(s2, e2)) <==>
      var y1, y2 := s1.year % 100, s2.year % 100;
      y1 < y2 || (y1 == y2 && (s1.month < s2.month || (s1.month == s2.month && s1.day <= s2.day)))
  {
    StartKeyOfLabel(s1, e1);
    StartKeyOfLabel(s2, e2);
    TwoDigitsOrder(s1.year % 100, s2.year % 100);
    TwoDigitsOrder(s2.year % 100, s1.year % 100);
    TwoDigitsOrder(s1.month, s2.month);
    TwoDigitsOrder(s2.month, s1.month);
    TwoDigitsOrder(s1.day, s2.day);
    TwoDigitsValue(s1.year % 100);
    TwoDigitsValue(s2.year % 100);
    TwoDigitsValue(s1.month);
    TwoDigitsValue(s2.month);
  }

  lemma KeyLeTotal(a: (string, string, string), b: (string, string, string))
    ensures KeyLe(a, b) || KeyLe(b, a)
  {
    StrLeTotal(a.0, b.0);
    StrLeTotal(a.1, b.1);
    StrLeTotal(a.2, b.2);
  }

  lemma StrLtTrans(a: string, b: string, c: string)
    requires StrLe(a, b) && StrLe(b, c) && (StrLt(a, b) || StrLt(b, c))
    ensures StrLt(a, c)
  {
    StrLeTrans(a, b, c);
    if a == c {
      StrLeAntisym(a, b);
    }
  }

  lemma KeyLeTrans(a: (string, string, string), b: (string, string, string), c: (string, string, string))
    requires KeyLe(a, b) && KeyLe(b, c)
    ensures KeyLe(a, c)
  {
    StrLeRefl(a.0);
    StrLeRefl(b.0);
    StrLeRefl(a.1);
    StrLeRefl(b.1);
    if StrLt(a.0, b.0) || StrLt(b.0, c.0) {
      StrLtTrans(a.0, b.0, c.0);
    } else if StrLt(a.1, b.1) || StrLt(b.1, c.1) {
      StrLtTrans(a.1, b.1, c.1);
    } else {
      StrLeTrans(a.2, b.2, c.2);
    }
  }

  /** The label order is a total preorder, so sorting by it is well defined. */
  lemma LabelLeTotalPreorder()
    ensures Seqs.TotalPreorder(LabelLe)
  {
    forall a, b
      ensures LabelLe(a, b) || LabelLe(b, a)
    {
      KeyLeTotal(StartKey(a), StartKey(b));
    }
    forall a, b, c | LabelLe(a, b) && LabelLe(b, c)
      ensures LabelLe(a, c)
    {
      KeyLeTrans(StartKey(a), StartKey(b), StartKey(c));
    }
  }

  // ---------------------------------------------------------------------------
  // Start times of a time-of-day slot.
  // ---------------------------------------------------------------------------

  datatype Time = Time(hour: int, minute: int, second: int)

  predicate ValidTime(t: Time) {
    0 <= t.hour <= 23 && 0 <= t.minute <= 59 && 0 <= t.second <= 59
  }

  const Midnight := Time(0, 0, 0)

  /** What the store hands back for a slot's start: a time, or text. */
  datatype StartValue = TimeValue(time: Time) | TextValue(text: string)

  /** `strptime(s, "%H:%M:%S")`; `%S` admits 60 and 61, which the time constructor then rejects. */
  function ParseHms(s: string): (r: Option<Time>)
    ensures r.Some? ==> ValidTime(r.value)
  {
    var f := Split(s, ":");
    if |f| != 3 then None
    else
      match (NumField(f[0], 0, 23), NumField(f[1], 0, 59), NumField(f[2], 0, 59))
      case (Some(h), Some(m), Some(sec)) => Some(Time(h, m, sec))
      case _ => None
  }

  /** `strptime(s, "%H:%M")`. */
  function ParseHm(s: string): (r: Option<Time>)
    ensures r.Some? ==> ValidTime(r.value) && r.value.second == 0
  {
    var f := Split(s, ":");
    if |f| != 2 then None
    else
      match (NumField(f[0], 0, 23), NumField(f[1], 0, 59))
      case (Some(h), Some(m)) => Some(Time(h, m, 0))
      case _ => None
  }

  /** The start a slot option carries: a time passes through; text is read as
      `HH:MM:SS`, then as `HH:MM`, and anything else becomes midnight. It never fails. */
  function NormaliseStart(v: StartValue): (t: Time)
    ensures v.TimeValue? ==> t == v.time
    ensures v.TextValue? ==> ValidTime(t)
  {
    match v
    case TimeValue(time) => time
    case TextValue(text) =>
      match ParseHms(text)
      case Some(t) => t
      case None =>
        match ParseHm(text)
        case Some(t) => t
        case None => Midnight
  }

  function Hms(t: Time): string
    requires ValidTime(t)
  {
    TwoDigits(t.hour) + ":" + TwoDigits(t.minute) + ":" + TwoDigits(t.second)
  }

  function Hm(t: Time): string
    requires ValidTime(t)
  {
    TwoDigits(t.hour) + ":" + TwoDigits(t.minute)
  }

  /** A start stored as `HH:MM:SS` text is normalised to exactly that time. */
  lemma NormaliseHms(t: Time)
    requires ValidTime(t)
    ensures NormaliseStart(TextValue(Hms(t))) == t
  {
    var hh, mm, ss := TwoDigits(t.hour), TwoDigits(t.minute), TwoDigits(t.second);
    assert Hms(t) == hh + ":" + (mm + ":" + ss);
    SplitCons(hh, ":", mm + ":" + ss);
    SplitCons(mm, ":", ss);
    SplitWhole(ss, ":");
    NumFieldOfTwoDigits(t.hour, 0, 23);
    NumFieldOfTwoDigits(t.minute, 0, 59);
    NumFieldOfTwoDigits(t.second, 0, 59);
  }

  /** A start stored as `HH:MM` text is normalised to that time with zero seconds. */
  lemma NormaliseHm(t: Time)
    requires ValidTime(t)
    ensures NormaliseStart(TextValue(Hm(t))) == t.(second := 0)
  {
    var hh, mm := TwoDigits(t.hour), TwoDigits(t.minute);
    SplitCons(hh, ":", mm);
    SplitWhole(mm, ":");
    assert |Split(Hm(t), ":")| == 2;
    NumFieldOfTwoDigits(t.hour, 0, 23);
    NumFieldOfTwoDigits(t.minute, 0, 59);
  }

  /** Text with no colon at all is neither format and becomes midnight. */
  lemma NormaliseGarbage(text: string)
    requires Avoids(text, ':')
    ensures NormaliseStart(TextValue(text)) == Midnight
  {
    SplitWhole(text, ":");
  }
}
