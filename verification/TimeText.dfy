/** The times of backend/internal/generationclaims/repository.go as SQLite text: the layout
    2006-01-02T15:04:05.000000000Z for instants in the years 1 to 9999 (RFC 3339 section 5.6). */
module TimeText {
  import opened Text
  import opened Wrappers
  import opened JsonParse
  import opened Bignum
  import opened GenerationClaims
  import GenerationRuns

  // ---------------------------------------------------------------- the Gregorian calendar

  predicate IsLeap(year: int) {
    year % 4 == 0 && (year % 100 != 0 || year % 400 == 0)
  }

  function DaysInYear(year: int): int {
    if IsLeap(year) then 366 else 365
  }

  /** Days from January 1 of year 1 to January 1 of the year. */
  function YearStart(year: int): int {
    365 * (year - 1) + (year - 1) / 4 - (year - 1) / 100 + (year - 1) / 400
  }

  lemma YearStartStep(year: int)
    ensures YearStart(year + 1) == YearStart(year) + DaysInYear(year)
  {
    hide DaysInYear;
    LeapsUpTo4(year);
    LeapsUpTo100(year);
    LeapsUpTo400(year);
    YearLength(year);
  }

  /** 1 if `d` divides the year. */
  function Every(d: int, year: int): int
    requires d > 0
  {
    if year % d == 0 then 1 else 0
  }

  lemma YearLength(year: int)
    ensures DaysInYear(year) == 365 + Every(4, year) - Every(100, year) + Every(400, year)
  {
    if year % 100 == 0 {
      HundredsAreFours(year);
    }
    if year % 400 == 0 {
      FourHundredsAreHundreds(year);
    }
  }

  lemma HundredsAreFours(year: int)
    requires year % 100 == 0
    ensures year % 4 == 0
  {
    var q := year / 100;
    assert year == 100 * q;
    assert year == 4 * (25 * q);
  }

  lemma FourHundredsAreHundreds(year: int)
    requires year % 400 == 0
    ensures year % 100 == 0
  {
    var q := year / 400;
    assert year == 400 * q;
    assert year == 100 * (4 * q);
  }

  lemma LeapsUpTo4(year: int)
    ensures year / 4 == (year - 1) / 4 + Every(4, year)
  {
  }

  lemma LeapsUpTo100(year: int)
    ensures year / 100 == (year - 1) / 100 + Every(100, year)
  {
  }

  lemma LeapsUpTo400(year: int)
    ensures year / 400 == (year - 1) / 400 + Every(400, year)
  {
  }

  function DaysInMonth(year: int, month: int): (days: int)
    ensures 28 <= days <= 31
  {
    if month == 2 then (if IsLeap(year) then 29 else 28)
    else if month == 4 || month == 6 || month == 9 || month == 11 then 30
    else 31
  }

  /** Days from January 1 to the first day of the month. */
  function MonthStart(year: int, month: nat): (days: int)
    ensures days >= 0
  {
    if month <= 1 then 0 else MonthStart(year, month - 1) + DaysInMonth(year, month - 1)
  }

  lemma TwelveMonths(year: int)
    ensures MonthStart(year, 13) == DaysInYear(year)
  {
    assert MonthStart(year, 4) == MonthStart(year, 3) + 31;
    assert MonthStart(year, 3) == MonthStart(year, 2) + DaysInMonth(year, 2);
    assert MonthStart(year, 7) == MonthStart(year, 6) + 30 && MonthStart(year, 6) == MonthStart(year, 5) + 31;
    assert MonthStart(year, 5) == MonthStart(year, 4) + 30;
    assert MonthStart(year, 10) == MonthStart(year, 9) + 30 && MonthStart(year, 9) == MonthStart(year, 8) + 31;
    assert MonthStart(year, 8) == MonthStart(year, 7) + 31;
    assert MonthStart(year, 12) == MonthStart(year, 11) + 30 && MonthStart(year, 11) == MonthStart(year, 10) + 31;
  }

  datatype Date = Date(year: nat, month: nat, day: nat)

  predicate ValidDate(d: Date) {
    1 <= d.month <= 12 && 1 <= d.day <= DaysInMonth(d.year, d.month)
  }

  /** Days since January 1 of year 1. */
  function DayNumber(d: Date): int {
    YearStart(d.year) + MonthStart(d.year, d.month) + d.day - 1
  }

  function YearFrom(day: int, year: nat): (r: nat)
    requires YearStart(year) <= day
    ensures YearStart(r) <= day < YearStart(r + 1) && r >= year
    decreases day - YearStart(year)
  {
    YearStartStep(year);
    if day < YearStart(year + 1) then year else YearFrom(day, year + 1)
  }

  function MonthFrom(year: int, dayOfYear: int, month: nat): (r: nat)
    requires 1 <= month <= 12 && MonthStart(year, month) <= dayOfYear < DaysInYear(year)
    ensures month <= r <= 12 && MonthStart(year, r) <= dayOfYear < MonthStart(year, r) + DaysInMonth(year, r)
    decreases 12 - month
  {
    TwelveMonths(year);
    if dayOfYear < MonthStart(year, month) + DaysInMonth(year, month) then month
    else
      assert MonthStart(year, month + 1) == MonthStart(year, month) + DaysInMonth(year, month);
      MonthFrom(year, dayOfYear, month + 1)
  }

  /** The date of a day. */
  function DateOf(day: nat): Date {
    var year := YearFrom(day, 1);
    var dayOfYear := day - YearStart(year);
    YearStartStep(year);
    var month := MonthFrom(year, dayOfYear, 1);
    Date(year, month, dayOfYear - MonthStart(year, month) + 1)
  }

  function DateFields(d: Date): seq<nat> {
    [d.year, d.month, d.day]
  }

  lemma {:induction false} MonthsAscend(year: int, m: nat, n: nat)
    requires 1 <= m < n
    ensures MonthStart(year, m) + DaysInMonth(year, m) <= MonthStart(year, n)
  {
    if n > m + 1 {
      MonthsAscend(year, m, n - 1);
    }
  }

  lemma {:induction false} YearsAscend(y: nat, z: nat)
    requires y < z
    ensures YearStart(y) + DaysInYear(y) <= YearStart(z)
  {
    YearStartStep(z - 1);
    if z > y + 1 {
      YearsAscend(y, z - 1);
    }
  }

  lemma DateInYear(d: Date)
    requires ValidDate(d)
    ensures 0 <= MonthStart(d.year, d.month) + d.day - 1 < DaysInYear(d.year)
  {
    TwelveMonths(d.year);
    MonthsAscend(d.year, d.month, 13);
  }

  /** The day count is strictly monotone in year, month and day. */
  lemma DayNumberAscends(d: Date, e: Date)
    requires ValidDate(d) && ValidDate(e)
    ensures DayNumber(d) < DayNumber(e) <==> Less(DateFields(d), DateFields(e))
    ensures DayNumber(d) == DayNumber(e) <==> d == e
  {
    hide YearStart, MonthStart, DaysInMonth, DaysInYear;
    DateInYear(d);
    DateInYear(e);
    if d.year < e.year {
      YearsAscend(d.year, e.year);
    } else if e.year < d.year {
      YearsAscend(e.year, d.year);
    } else if d.month < e.month {
      MonthsAscend(d.year, d.month, e.month);
    } else if e.month < d.month {
      MonthsAscend(d.year, e.month, d.month);
    }
    LessThree(DateFields(d), DateFields(e));
  }

  lemma LessThree(a: seq<nat>, b: seq<nat>)
    requires |a| == |b| == 3
    ensures Less(a, b) <==> a[0] < b[0] || (a[0] == b[0] && (a[1] < b[1] || (a[1] == b[1] && a[2] < b[2])))
  {
    LessUnfold(a, b);
    LessUnfold(a[1..], b[1..]);
    LessUnfold(a[1..][1..], b[1..][1..]);
  }

  lemma LessUnfold(a: seq<nat>, b: seq<nat>)
    requires |a| > 0 && |b| > 0
    ensures Less(a, b) <==> a[0] < b[0] || (a[0] == b[0] && Less(a[1..], b[1..]))
  {
  }

  /** Days and dates correspond one to one. */
  lemma DateOfDay(day: nat)
    ensures ValidDate(DateOf(day)) && DayNumber(DateOf(day)) == day && DateOf(day).year >= 1
  {
    hide YearStart, MonthStart, DaysInMonth;
  }

  lemma DayOfDate(d: Date)
    requires ValidDate(d) && d.year >= 1
    ensures DayNumber(d) >= 0 && DateOf(DayNumber(d)) == d
  {
    hide DateOf, MonthStart, DaysInMonth;
    if d.year > 1 {
      YearsAscend(1, d.year);
    }
    DateInYear(d);
    DateOfDay(DayNumber(d));
    DayNumberAscends(DateOf(DayNumber(d)), d);
  }

  // ---------------------------------------------------------------- the fields of an instant

  const SECOND: int := 1_000_000_000
  const DAY: int := 86_400 * SECOND

  /** Hour, minute, second and nanosecond. */
  function ClockFields(r: nat): (f: seq<nat>)
    requires r < DAY
    ensures |f| == 4 && f[0] < 24 && f[1] < 60 && f[2] < 60 && f[3] < SECOND
    ensures ((f[0] * 60 + f[1]) * 60 + f[2]) * SECOND + f[3] == r
  {
    var seconds := r / SECOND;
    [seconds / 3600, seconds / 60 % 60, seconds % 60, r % SECOND]
  }

  /** The instant the fields name. */
  function ClockNumber(f: seq<nat>): int
    requires |f| == 4
  {
    ((f[0] * 60 + f[1]) * 60 + f[2]) * SECOND + f[3]
  }

  function DateOfInstant(t: nat): Date {
    DateOf(t / DAY)
  }

  function Fields(t: nat): (f: seq<nat>)
    ensures |f| == 7
  {
    DateFields(DateOfInstant(t)) + ClockFields(t % DAY)
  }

  lemma LessFour(a: seq<nat>, b: seq<nat>)
    requires |a| == |b| == 4
    ensures Less(a, b) <==> a[0] < b[0] || (a[0] == b[0] && (a[1] < b[1] || (a[1] == b[1] &&
                            (a[2] < b[2] || (a[2] == b[2] && a[3] < b[3])))))
  {
    LessUnfold(a, b);
    LessThree(a[1..], b[1..]);
  }

  lemma ClockAscends(f: seq<nat>, g: seq<nat>)
    requires |f| == 4 && f[1] < 60 && f[2] < 60 && f[3] < SECOND
    requires |g| == 4 && g[1] < 60 && g[2] < 60 && g[3] < SECOND
    ensures ClockNumber(f) < ClockNumber(g) <==> Less(f, g)
    ensures ClockNumber(f) == ClockNumber(g) <==> f == g
  {
    LessFour(f, g);
  }

  /** Fields are ordered as the instants are. */
  lemma FieldsAscend(t: nat, u: nat)
    ensures Less(Fields(t), Fields(u)) <==> t < u
  {
    hide DateOf, DayNumber, ClockFields;
    var f, g := ClockFields(t % DAY), ClockFields(u % DAY);
    DateOfDay(t / DAY);
    DateOfDay(u / DAY);
    DayNumberAscends(DateOf(t / DAY), DateOf(u / DAY));
    ClockAscends(f, g);
    LessConcat(DateFields(DateOf(t / DAY)), DateFields(DateOf(u / DAY)), f, g);
    DaysThenClock(t, u);
  }

  lemma DaysThenClock(t: nat, u: nat)
    ensures t < u <==> t / DAY < u / DAY || (t / DAY == u / DAY && t % DAY < u % DAY)
  {
    assert t == t / DAY * DAY + t % DAY && u == u / DAY * DAY + u % DAY;
  }

  // ---------------------------------------------------------------- fixed-width text

  /** The last `width` decimal digits. */
  function Pad(n: nat, width: nat): (t: text)
    ensures |t| == width && AllDigits(t)
  {
    if width == 0 then [] else Pad(n / 10, width - 1) + [48 + n % 10]
  }

  lemma {:induction false} PadValue(n: nat, width: nat)
    requires n < Pow10(width)
    ensures DigitsValue(Pad(n, width)) == n
  {
    if width > 0 {
      PadValue(n / 10, width - 1);
      var t := Pad(n, width);
      assert t[..width - 1] == Pad(n / 10, width - 1);
    }
  }

  /** A field of the layout: its width and the character behind it. */
  datatype Slot = Slot(width: nat, mark: unit)

  predicate Fits(f: seq<nat>, layout: seq<Slot>) {
    |f| == |layout| && forall i :: 0 <= i < |f| ==> f[i] < Pow10(layout[i].width)
  }

  function FormatFields(f: seq<nat>, layout: seq<Slot>): text
    requires |f| == |layout|
  {
    if |f| == 0 then []
    else Pad(f[0], layout[0].width) + [layout[0].mark] + FormatFields(f[1..], layout[1..])
  }

  function ParseFields(s: text, layout: seq<Slot>): (r: Option<seq<nat>>)
    ensures r.Some? ==> |r.value| == |layout|
    decreases |layout|
  {
    if |layout| == 0 then (if |s| == 0 then Some([]) else None)
    else
      var w := layout[0].width;
      if |s| <= w || !AllDigits(s[..w]) || s[w] != layout[0].mark then None
      else match ParseFields(s[w + 1..], layout[1..])
           case None => None
           case Some(rest) => Some([DigitsValue(s[..w])] + rest)
  }

  lemma ParseNothing()
    ensures ParseFields([], []) == Some([])
  {
  }

  lemma ParseHead(head: text, rest: text, layout: seq<Slot>, values: seq<nat>)
    requires |layout| > 0 && |head| == layout[0].width && AllDigits(head)
    requires ParseFields(rest, layout[1..]) == Some(values)
    ensures ParseFields(head + [layout[0].mark] + rest, layout) == Some([DigitsValue(head)] + values)
  {
    hide DigitsValue, AllDigits;
    var s := head + [layout[0].mark] + rest;
    assert s[..|head|] == head && s[|head|] == layout[0].mark && s[|head| + 1..] == rest;
  }

  /** Fixed-width text is read back. */
  lemma {:induction false} ParseFormatted(f: seq<nat>, layout: seq<Slot>)
    requires Fits(f, layout)
    ensures ParseFields(FormatFields(f, layout), layout) == Some(f)
  {
    hide DigitsValue, Pad, AllDigits, ParseFields;
    if |f| == 0 {
      ParseNothing();
    } else {
      PadValue(f[0], layout[0].width);
      ParseFormatted(f[1..], layout[1..]);
      ParseHead(Pad(f[0], layout[0].width), FormatFields(f[1..], layout[1..]), layout, f[1..]);
      assert f == [f[0]] + f[1..];
    }
  }

  /** Fixed-width text is ordered as the fields are. */
  lemma {:induction false} FormattedAscend(f: seq<nat>, g: seq<nat>, layout: seq<Slot>)
    requires Fits(f, layout) && Fits(g, layout)
    ensures Less(FormatFields(f, layout), FormatFields(g, layout)) <==> Less(f, g)
  {
    hide DigitsValue, Pad, AllDigits;
    if |f| > 0 {
      var a, b := Pad(f[0], layout[0].width), Pad(g[0], layout[0].width);
      var mark := layout[0].mark;
      var c, d := FormatFields(f[1..], layout[1..]), FormatFields(g[1..], layout[1..]);
      PadValue(f[0], layout[0].width);
      PadValue(g[0], layout[0].width);
      SameLengthOrder(a, b);
      FormattedAscend(f[1..], g[1..], layout[1..]);
      MarkedOrder(a, b, mark, c, d);
      LessUnfold(f, g);
    }
  }

  lemma MarkedOrder(a: text, b: text, mark: unit, c: text, d: text)
    requires |a| == |b|
    ensures Less(a + [mark] + c, b + [mark] + d) <==> Less(a, b) || (a == b && Less(c, d))
  {
    assert a + [mark] + c == a + ([mark] + c) && b + [mark] + d == b + ([mark] + d);
    LessConcat(a, b, [mark] + c, [mark] + d);
    LessConcat([mark], [mark], c, d);
    Irreflexive([mark]);
  }

  // ---------------------------------------------------------------- the layout

  /** 2006-01-02T15:04:05.000000000Z */
  const LAYOUT: seq<Slot> :=
    [Slot(4, 45), Slot(2, 45), Slot(2, 84), Slot(2, 58), Slot(2, 58), Slot(2, 46), Slot(9, 90)]

  /** The instants in the years 1 to 9999. */
  predicate InRange(t: instant) {
    0 <= t < YearStart(10000) * DAY
  }

  function FormatTime(t: nat): text {
    FormatFields(Fields(t), LAYOUT)
  }

  /** `timeArg` */
  function TimeArg(t: instant): text
    requires InRange(t)
  {
    FormatTime(NormalizeTime(t))
  }

  /** `parseSQLiteTime`, for texts in the layout. */
  function ParseTime(s: text): Option<instant> {
    match ParseFields(s, LAYOUT)
    case None => None
    case Some(f) =>
      var date := Date(f[0], f[1], f[2]);
      if !ValidDate(date) || f[3] >= 24 || f[4] >= 60 || f[5] >= 60 then None
      else Some(NormalizeTime(DayNumber(date) * DAY + ClockNumber(f[3..])))
  }

  lemma Powers()
    ensures Pow10(2) == 100 && Pow10(4) == 10000 && Pow10(9) == SECOND
  {
    assert Pow10(4) == 10 * Pow10(3) && Pow10(3) == 10 * Pow10(2);
    assert Pow10(2) == 10 * Pow10(1) && Pow10(1) == 10 * Pow10(0);
    assert Pow10(9) == 10 * Pow10(8) && Pow10(8) == 10 * Pow10(7) && Pow10(7) == 10 * Pow10(6);
    assert Pow10(6) == 10 * Pow10(5) && Pow10(5) == 10 * Pow10(4);
  }

  lemma DayInRange(t: instant)
    requires InRange(t)
    ensures t / DAY < YearStart(10000)
  {
  }

  /** In these years every field fits its slot. */
  lemma FieldsFit(t: nat)
    requires InRange(t)
    ensures Fits(Fields(t), LAYOUT)
  {
    hide DateOf, DayNumber, ClockFields, YearStart, Pow10;
    var d := DateOfInstant(t);
    DateOfDay(t / DAY);
    DayInRange(t);
    YearBelow(d, t / DAY);
    Powers();
  }

  lemma YearBelow(d: Date, day: nat)
    requires ValidDate(d) && DayNumber(d) == day && day < YearStart(10000)
    ensures d.year < 10000
  {
    hide YearStart, MonthStart, DaysInMonth;
    DateInYear(d);
    if d.year > 10000 {
      YearsAscend(10000, d.year);
    }
  }

  lemma NormalStaysInRange(t: instant)
    requires InRange(t)
    ensures InRange(NormalizeTime(t)) && NormalizeTime(NormalizeTime(t)) == NormalizeTime(t)
  {
  }

  /** The text is read back as the instant it was written for, in whole microseconds. */
  lemma TimeRoundTrip(t: instant)
    requires InRange(t)
    ensures ParseTime(TimeArg(t)) == Some(NormalizeTime(t))
  {
    hide DateOf, DayNumber, ClockFields, YearStart, FormatFields, ParseFields, ValidDate;
    NormalStaysInRange(t);
    var n: nat := NormalizeTime(t);
    FieldsFit(n);
    ParseFormatted(Fields(n), LAYOUT);
    DateOfDay(n / DAY);
    var f := Fields(n);
    assert f[3..] == ClockFields(n % DAY);
    assert Date(f[0], f[1], f[2]) == DateOf(n / DAY);
    assert n == n / DAY * DAY + n % DAY;
  }

  /** Comparing the texts is comparing the times. */
  lemma TextOrderIsTimeOrder(t: instant, u: instant)
    requires InRange(t) && InRange(u)
    ensures Less(TimeArg(t), TimeArg(u)) <==> NormalizeTime(t) < NormalizeTime(u)
    ensures TimeArg(t) == TimeArg(u) <==> NormalizeTime(t) == NormalizeTime(u)
  {
    hide Fields, FormatFields, YearStart;
    NormalStaysInRange(t);
    NormalStaysInRange(u);
    FieldsFit(NormalizeTime(t));
    FieldsFit(NormalizeTime(u));
    FormattedAscend(Fields(NormalizeTime(t)), Fields(NormalizeTime(u)), LAYOUT);
    FieldsAscend(NormalizeTime(t), NormalizeTime(u));
    TimeRoundTrip(t);
    TimeRoundTrip(u);
  }

  /** `column <= ?` on texts */
  predicate TextAtMost(a: text, b: text) {
    a == b || Less(a, b)
  }

  /** The WHERE clause of `claimOne` on the stored texts. */
  predicate EligibleText(status: Status, availableAt: text, leaseUntil: Option<text>, at: text) {
    ((status == Queued || status == RetryPending) && TextAtMost(availableAt, at))
    || (status == Claimed && leaseUntil.Some? && TextAtMost(leaseUntil.value, at))
  }

  function LeaseText(row: Row): Option<text>
    requires row.leaseUntil.Some? ==> InRange(row.leaseUntil.value)
  {
    if row.leaseUntil.Some? then Some(TimeArg(row.leaseUntil.value)) else None
  }

  /** Eligibility decided on the stored texts is eligibility decided on the times. */
  lemma EligibleOnText(row: Row, at: instant)
    requires InRange(row.availableAt) && InRange(at) && (row.leaseUntil.Some? ==> InRange(row.leaseUntil.value))
    requires NormalizeTime(at) == at && NormalizeTime(row.availableAt) == row.availableAt
    requires row.leaseUntil.Some? ==> NormalizeTime(row.leaseUntil.value) == row.leaseUntil.value
    ensures EligibleText(row.status, TimeArg(row.availableAt), LeaseText(row), TimeArg(at)) <==> Eligible(row, at)
  {
    hide InRange, FormatTime, Less;
    TextOrderIsTimeOrder(row.availableAt, at);
    if row.leaseUntil.Some? {
      TextOrderIsTimeOrder(row.leaseUntil.value, at);
    }
  }

  /** So in every run: the row a claim finds on the stored texts is the row it finds on the times. */
  lemma ReachableEligibleOnText(ops: seq<GenerationRuns.Op>, ws: id, at: instant)
    requires GenerationRuns.IsRun(GenerationRuns.INITIAL, ops)
    requires ws in GenerationRuns.Run(GenerationRuns.INITIAL, ops).jobs && InRange(at)
    requires var row := GenerationRuns.Run(GenerationRuns.INITIAL, ops).jobs[ws];
      InRange(row.availableAt) && (row.leaseUntil.Some? ==> InRange(row.leaseUntil.value))
    ensures var row := GenerationRuns.Run(GenerationRuns.INITIAL, ops).jobs[ws];
      EligibleText(row.status, TimeArg(row.availableAt), LeaseText(row), TimeArg(at))
      <==> Eligible(row, NormalizeTime(at))
  {
    hide InRange, FormatTime, GenerationRuns.Run;
    GenerationRuns.StoredTimesAreWhole(GenerationRuns.INITIAL, ops);
    NormalStaysInRange(at);
    EligibleOnText(GenerationRuns.Run(GenerationRuns.INITIAL, ops).jobs[ws], NormalizeTime(at));
  }
}
