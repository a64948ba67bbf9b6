/**
 * Order timestamps and the period labels of the sales chart.
 *
 * Every order line starts with the moment the order was finished, written
 * with `DateTimeFormatter.ISO_LOCAL_DATE_TIME` and read back with
 * `LocalDateTime.parse`; an unreadable timestamp falls back to the current
 * moment. The chart groups orders by day (`yyyy-MM-dd`), by week
 * (`<week-based year>-W<week>`) or by month (`<year>-MM`), and orders the
 * labels by a sort key that is the label itself for days and months and
 * `<year><week as two digits>` for weeks.
 */
module Dates {
  import opened Wrappers
  import opened JavaText

  datatype LocalDate = LocalDate(year: int, month: int, day: int)

  datatype LocalDateTime = LocalDateTime(date: LocalDate, hour: int, minute: int, second: int, nano: int)

  // ---------------------------------------------------------------- calendar

  /** The ISO (proleptic Gregorian) leap-year rule. */
  predicate IsLeap(y: int) {
    y % 4 == 0 && (y % 100 != 0 || y % 400 == 0)
  }

  function DaysInMonth(y: int, m: int): (r: int)
    requires 1 <= m <= 12
    ensures 28 <= r <= 31
  {
    if m == 2 then (if IsLeap(y) then 29 else 28)
    else if m == 4 || m == 6 || m == 9 || m == 11 then 30
    else 31
  }

  predicate ValidDate(d: LocalDate) {
    -999_999_999 <= d.year <= 999_999_999 &&
    1 <= d.month <= 12 && 1 <= d.day <= DaysInMonth(d.year, d.month)
  }

  predicate ValidDateTime(t: LocalDateTime) {
    ValidDate(t.date) &&
    0 <= t.hour < 24 && 0 <= t.minute < 60 && 0 <= t.second < 60 &&
    0 <= t.nano < 1_000_000_000
  }

  /** Calendar order of two dates. */
  predicate DateLe(a: LocalDate, b: LocalDate) {
    a.year < b.year ||
    (a.year == b.year && (a.month < b.month || (a.month == b.month && a.day <= b.day)))
  }

  // ---------------------------------------------------------------- writing

  /**
   * The year as `LocalDate.toString` and `ISO_LOCAL_DATE` print it: at least
   * four digits, a `-` for years before year 0 and a `+` above 9999.
   */
  function YearText(y: int): string {
    if -1000 < y < 1000 then
      var a: nat := if y < 0 then -y else y;
      NatToStringDigits(a + 10000);
      (if y < 0 then "-" else "") + NatToString(a + 10000)[1..]
    else if y > 9999 then "+" + NatToString(y)
    else IntToString(y)
  }

  /** `LocalDate.toString()`: `yyyy-MM-dd`. */
  function DateText(d: LocalDate): string {
    YearText(d.year) + "-" + Format02(d.month) + "-" + Format02(d.day)
  }

  /** Nanoseconds as nine digits, zero-padded on the left. */
  function Pad9(n: nat): string {
    var d := NatToString(n);
    if |d| >= 9 then d else Zeros(9 - |d|) + d
  }

  /** Drop trailing `0` digits. */
  function StripZeros(s: string): (r: string)
    ensures |r| <= |s| && r == s[..|r|]
    ensures r != [] ==> r[|r| - 1] != '0'
  {
    if s != [] && s[|s| - 1] == '0' then StripZeros(s[..|s| - 1]) else s
  }

  /**
   * The fraction of a second as `ISO_LOCAL_TIME` prints it: nothing when it
   * is zero, otherwise a point and the nine digits with trailing zeros dropped.
   */
  function FractionText(nano: nat): string {
    if nano == 0 then "" else "." + StripZeros(Pad9(nano))
  }

  /** `ISO_LOCAL_TIME` of a full `LocalDateTime`: `HH:mm:ss` and the fraction. */
  function TimeText(t: LocalDateTime): string
    requires t.nano >= 0
  {
    Format02(t.hour) + ":" + Format02(t.minute) + ":" + Format02(t.second) + FractionText(t.nano)
  }

  /** `t.format(DateTimeFormatter.ISO_LOCAL_DATE_TIME)`. */
  function DateTimeText(t: LocalDateTime): string
    requires t.nano >= 0
  {
    DateText(t.date) + "T" + TimeText(t)
  }

  // ---------------------------------------------------------------- reading

  /** `n` ASCII digits at `s[i..i + n]`, as a number. */
  function DigitsAt(s: string, i: nat, n: nat): (r: Option<nat>)
    ensures r.Some? <==> i + n <= |s| && AllDigits(s[i..i + n])
    ensures r.Some? ==> r.value == DigitsValue(s[i..i + n])
  {
    if i + n <= |s| && AllDigits(s[i..i + n]) then Some(DigitsValue(s[i..i + n])) else None
  }

  /**
   * What `ISO_LOCAL_TIME` accepts after `HH:mm`: nothing, or `:ss`
   * optionally followed by a point and at most nine fraction digits.
   * The answer is (seconds, nanoseconds).
   */
  function ParseSecondsTail(t: string): Option<(nat, nat)> {
    if t == [] then Some((0, 0))
    else if t[0] != ':' || DigitsAt(t, 1, 2).None? then None
    else
      var sec := DigitsAt(t, 1, 2).value;
      var f := t[3..];
      if f == [] then Some((sec, 0))
      else if f[0] == '.' && |f| - 1 <= 9 && AllDigits(f[1..]) then Some((sec, FractionNanos(f[1..])))
      else None
  }

  /** Up to nine fraction digits as nanoseconds: `.5` is 500000000. */
  function FractionNanos(digits: string): nat
    requires AllDigits(digits) && |digits| <= 9
  {
    DigitsValue(digits) * Pow10(9 - |digits|)
  }

  /**
   * `LocalDateTime.parse(s)`: `yyyy-MM-dd`, a `T` in either case, `HH:mm`,
   * then the optional seconds and fraction, and nothing else; the fields
   * must name a real date and time.
   */
  function ParseLocalDateTime(s: string): (r: Option<LocalDateTime>)
    ensures r.Some? ==> ValidDateTime(r.value)
  {
    if |s| < 16 || s[4] != '-' || s[7] != '-' || (s[10] != 'T' && s[10] != 't') || s[13] != ':' then None
    else
      var y, mo, d := DigitsAt(s, 0, 4), DigitsAt(s, 5, 2), DigitsAt(s, 8, 2);
      var h, mi := DigitsAt(s, 11, 2), DigitsAt(s, 14, 2);
      var sn := ParseSecondsTail(s[16..]);
      if y.None? || mo.None? || d.None? || h.None? || mi.None? || sn.None? then None
      else
        var t := LocalDateTime(LocalDate(y.value, mo.value, d.value), h.value, mi.value, sn.value.0, sn.value.1);
        if ValidDateTime(t) then Some(t) else None
  }

  /** `parseDateSafe(s, now)`: the parsed timestamp, or `now` when it does not parse. */
  function ParseDateSafe(s: string, now: LocalDateTime): (r: LocalDateTime)
    ensures ParseLocalDateTime(s).Some? ==> r == ParseLocalDateTime(s).value
    ensures ParseLocalDateTime(s).None? ==> r == now
  {
    ParseLocalDateTime(s).GetOr(now)
  }

  // ---------------------------------------------------------------- round trip

  /** Years 0 to 9999 print as exactly four digits that read back as the year. */
  lemma YearTextDigits(y: int)
    requires 0 <= y <= 9999
    ensures |YearText(y)| == 4 && AllDigits(YearText(y)) && DigitsValue(YearText(y)) == y
  {
    assert Pow10(3) == 1000 && Pow10(4) == 10000 && Pow10(5) == 100000;
    if y < 1000 {
      var s := NatToString(y + 10000);
      NatToStringDigits(y + 10000);
      NatToStringLength(y + 10000, 4);
      DigitsValueFront(s);
      DigitsValueBound(s[1..]);
      assert YearText(y) == s[1..];
    } else {
      NatToStringDigits(y);
      NatToStringLength(y, 3);
    }
  }

  lemma TwoDigits(n: int)
    requires 0 <= n < 100
    ensures |Format02(n)| == 2 && AllDigits(Format02(n)) && DigitsValue(Format02(n)) == n
  {
    Format02Value(n);
  }

  lemma Pad9Digits(n: nat)
    requires n < 1_000_000_000
    ensures |Pad9(n)| == 9 && AllDigits(Pad9(n)) && DigitsValue(Pad9(n)) == n
  {
    var d := NatToString(n);
    NatToStringDigits(n);
    assert Pow10(9) == 1_000_000_000;
    NatToStringShort(n, 9);
    if |d| < 9 {
      LeadingZerosValue(9 - |d|, d);
    }
  }

  lemma ScaleTen(v: int, p: int)
    ensures v * (10 * p) == (v * p) * 10
  {
  }

  /** Dropping `k` trailing zeros divides the value by `10^k`. */
  lemma {:induction false} StripZerosValue(s: string)
    requires AllDigits(s)
    ensures AllDigits(StripZeros(s))
    ensures DigitsValue(StripZeros(s)) * Pow10(|s| - |StripZeros(s)|) == DigitsValue(s)
  {
    if s != [] && s[|s| - 1] == '0' {
      var init := s[..|s| - 1];
      var r := StripZeros(init);
      StripZerosValue(init);
      assert StripZeros(s) == r;
      DigitsValueLast(s);
      ScaleTen(DigitsValue(r), Pow10(|init| - |r|));
    } else {
      assert Pow10(0) == 1;
    }
  }

  /** The printed fraction reads back as the nanoseconds it came from. */
  lemma FractionDigits(nano: nat)
    requires 0 < nano < 1_000_000_000
    ensures var f := StripZeros(Pad9(nano));
      1 <= |f| <= 9 && AllDigits(f) && FractionNanos(f) == nano
  {
    Pad9Digits(nano);
    StripZerosValue(Pad9(nano));
  }

  /** `:ss` followed by a point and fraction digits. */
  lemma SecondsWithFraction(ss: string, f: string)
    requires |ss| == 2 && AllDigits(ss) && 1 <= |f| <= 10 && f[0] == '.' && AllDigits(f[1..])
    ensures ParseSecondsTail(":" + ss + f) == Some((DigitsValue(ss), FractionNanos(f[1..])))
  {
    var t := ":" + ss + f;
    assert t[1..3] == ss;
    assert t[3..] == f;
  }

  /** `:ss` alone. */
  lemma SecondsOnly(ss: string)
    requires |ss| == 2 && AllDigits(ss)
    ensures ParseSecondsTail(":" + ss) == Some((DigitsValue(ss), 0))
  {
    var t := ":" + ss;
    assert t[1..3] == ss;
    assert t[3..] == [];
  }

  lemma SecondsTailRoundTrip(sec: int, nano: int)
    requires 0 <= sec < 60 && 0 <= nano < 1_000_000_000
    ensures ParseSecondsTail(":" + Format02(sec) + FractionText(nano)) == Some((sec, nano))
  {
    TwoDigits(sec);
    if nano > 0 {
      FractionDigits(nano);
      var f := FractionText(nano);
      assert f[1..] == StripZeros(Pad9(nano));
      SecondsWithFraction(Format02(sec), f);
    } else {
      assert ":" + Format02(sec) + FractionText(nano) == ":" + Format02(sec);
      SecondsOnly(Format02(sec));
    }
  }

  lemma DateTextFields(d: LocalDate)
    requires ValidDate(d) && 0 <= d.year <= 9999
    ensures var s := DateText(d);
      && |s| == 10 && s[0..4] == YearText(d.year) && s[4] == '-'
      && s[5..7] == Format02(d.month) && s[7] == '-' && s[8..10] == Format02(d.day)
  {
    YearTextDigits(d.year);
    TwoDigits(d.month);
    TwoDigits(d.day);
  }

  lemma TimeTextFields(t: LocalDateTime)
    requires ValidDateTime(t)
    ensures var s := TimeText(t);
      && |s| >= 5 && s[0..2] == Format02(t.hour) && s[2] == ':'
      && s[3..5] == Format02(t.minute) && s[5..] == ":" + Format02(t.second) + FractionText(t.nano)
  {
    TwoDigits(t.hour);
    TwoDigits(t.minute);
    var h, mi := Format02(t.hour), Format02(t.minute);
    var tail := ":" + Format02(t.second) + FractionText(t.nano);
    assert TimeText(t) == h + ":" + mi + tail;
  }

  /** `LocalDateTime.parse` of a string whose fields have been read off. */
  lemma ParseFields(s: string, t: LocalDateTime)
    requires ValidDateTime(t) && |s| >= 16
    requires s[4] == '-' && s[7] == '-' && s[10] == 'T' && s[13] == ':'
    requires DigitsAt(s, 0, 4) == Some(t.date.year) && DigitsAt(s, 5, 2) == Some(t.date.month)
    requires DigitsAt(s, 8, 2) == Some(t.date.day)
    requires DigitsAt(s, 11, 2) == Some(t.hour) && DigitsAt(s, 14, 2) == Some(t.minute)
    requires ParseSecondsTail(s[16..]) == Some((t.second, t.nano))
    ensures ParseLocalDateTime(s) == Some(t)
  {
  }

  /** The pieces of a date text and a time text joined by `T`. */
  lemma JoinedFields(ds: string, ts: string)
    requires |ds| == 10 && |ts| >= 5
    ensures var s := ds + "T" + ts;
      && |s| >= 16 && s[4] == ds[4] && s[7] == ds[7] && s[10] == 'T' && s[13] == ts[2]
      && s[0..4] == ds[0..4] && s[5..7] == ds[5..7] && s[8..10] == ds[8..10]
      && s[11..13] == ts[0..2] && s[14..16] == ts[3..5] && s[16..] == ts[5..]
  {
    var s := ds + "T" + ts;
    assert s[11..] == ts;
    assert s[11..][0..2] == s[11..13] && s[11..][3..5] == s[14..16] && s[11..][5..] == s[16..];
  }

  /** Where the fields of a printed timestamp sit. */
  lemma DateTimeTextFields(t: LocalDateTime)
    requires ValidDateTime(t) && 0 <= t.date.year <= 9999
    ensures var s := DateTimeText(t);
      && |s| >= 16 && s[4] == '-' && s[7] == '-' && s[10] == 'T' && s[13] == ':'
      && s[0..4] == YearText(t.date.year) && s[5..7] == Format02(t.date.month)
      && s[8..10] == Format02(t.date.day) && s[11..13] == Format02(t.hour)
      && s[14..16] == Format02(t.minute) && s[16..] == ":" + Format02(t.second) + FractionText(t.nano)
  {
    DateTextFields(t.date);
    TimeTextFields(t);
    JoinedFields(DateText(t.date), TimeText(t));
  }

  /**
   * `LocalDateTime.parse` reads back every timestamp that `finishOrder`
   * writes with `ISO_LOCAL_DATE_TIME`, for the years 0 to 9999.
   */
  lemma ParseDateTimeText(t: LocalDateTime)
    requires ValidDateTime(t) && 0 <= t.date.year <= 9999
    ensures ParseLocalDateTime(DateTimeText(t)) == Some(t)
  {
    var d := t.date;
    YearTextDigits(d.year);
    TwoDigits(d.month);
    TwoDigits(d.day);
    TwoDigits(t.hour);
    TwoDigits(t.minute);
    SecondsTailRoundTrip(t.second, t.nano);
    DateTimeTextFields(t);
    ParseFields(DateTimeText(t), t);
  }

  // ---------------------------------------------------------------- period labels

  /** The chart's period selector; a missing selection counts as `Daily`. */
  datatype View = Daily | Weekly | Monthly

  function ViewOf(selected: Option<View>): View {
    selected.GetOr(Daily)
  }

  /**
   * The default locale's week rules: the week-based year and the week of
   * that year a date falls in. The locale is outside the model, so the rule
   * is a parameter.
   */
  type WeekRule = LocalDate -> (int, int)

  /** `year + "-W" + String.format("%02d", week)`. */
  function WeekLabel(weekYear: int, week: int): string {
    IntToString(weekYear) + "-W" + Format02(week)
  }

  /** `dt.getYear() + "-" + String.format("%02d", dt.getMonthValue())`. */
  function MonthLabel(d: LocalDate): string {
    IntToString(d.year) + "-" + Format02(d.month)
  }

  /** `bucketKey(dt, view)`: the label of the period `t` falls in. */
  function BucketKey(t: LocalDateTime, view: View, weekOf: WeekRule): string {
    match view
    case Daily => DateText(t.date)
    case Weekly => WeekLabel(weekOf(t.date).0, weekOf(t.date).1)
    case Monthly => MonthLabel(t.date)
  }

  /**
   * `sortKey(label, view)` of a period label: the label itself for days and months; for weeks
   * the text before the first `-W` followed by the number after it as two
   * digits, and the label itself whenever that fails.
   */
  function SortKey(period: string, view: View): string {
    match view
    case Daily => period
    case Monthly => period
    case Weekly =>
      var p := JavaSplit(period, "-W");
      if |p| < 2 then period
      else match ParseInt(p[1])
        case None => period
        case Some(n) => p[0] + Format02(n)
  }

  // ---------------------------------------------------------------- chronological order

  /** Comparing `a1 + sep + r1` with `a2 + sep + r2` for digit fields of equal width. */
  lemma FieldThenRest(a1: string, r1: string, a2: string, r2: string, sep: string)
    requires AllDigits(a1) && AllDigits(a2) && |a1| == |a2|
    ensures LexLe(a1 + sep + r1, a2 + sep + r2) <==>
      DigitsValue(a1) < DigitsValue(a2) || (DigitsValue(a1) == DigitsValue(a2) && LexLe(r1, r2))
  {
    assert a1 + sep + r1 == a1 + (sep + r1);
    assert a2 + sep + r2 == a2 + (sep + r2);
    LexLeConcat(a1, sep + r1, a2, sep + r2);
    LexLeConcat(sep, r1, sep, r2);
    DigitsEqual(a1, a2);
    LexLeDigits(a1, a2);
  }

  /** "yyyy-MM-dd sorts fine as string": day labels compare as the days do. */
  lemma {:induction false} DailyKeyOrder(a: LocalDate, b: LocalDate)
    requires ValidDate(a) && ValidDate(b)
    requires 0 <= a.year <= 9999 && 0 <= b.year <= 9999
    ensures LexLe(DateText(a), DateText(b)) <==> DateLe(a, b)
  {
    var ya, ma, da := YearText(a.year), Format02(a.month), Format02(a.day);
    var yb, mb, db := YearText(b.year), Format02(b.month), Format02(b.day);
    YearTextDigits(a.year);
    YearTextDigits(b.year);
    TwoDigits(a.month);
    TwoDigits(b.month);
    TwoDigits(a.day);
    TwoDigits(b.day);
    assert DateText(a) == ya + "-" + (ma + "-" + da);
    assert DateText(b) == yb + "-" + (mb + "-" + db);
    FieldThenRest(ya, ma + "-" + da, yb, mb + "-" + db, "-");
    FieldThenRest(ma, da, mb, db, "-");
    LexLeDigits(da, db);
  }

  /** A year from 1000 to 9999 prints as four digits. */
  lemma FourDigitYear(y: int)
    requires 1000 <= y <= 9999
    ensures |IntToString(y)| == 4 && AllDigits(IntToString(y)) && DigitsValue(IntToString(y)) == y
  {
    assert Pow10(3) == 1000 && Pow10(4) == 10000;
    NatToStringDigits(y);
    NatToStringLength(y, 3);
  }

  /** "yyyy-MM sorts fine as string", for four-digit years. */
  lemma {:induction false} MonthlyKeyOrder(a: LocalDate, b: LocalDate)
    requires 1 <= a.month <= 12 && 1 <= b.month <= 12
    requires 1000 <= a.year <= 9999 && 1000 <= b.year <= 9999
    ensures LexLe(MonthLabel(a), MonthLabel(b)) <==>
      a.year < b.year || (a.year == b.year && a.month <= b.month)
  {
    FourDigitYear(a.year);
    FourDigitYear(b.year);
    TwoDigits(a.month);
    TwoDigits(b.month);
    FieldThenRest(IntToString(a.year), Format02(a.month), IntToString(b.year), Format02(b.month), "-");
    LexLeDigits(Format02(a.month), Format02(b.month));
  }

  /** For four-digit years the month label is the first seven characters of the day label. */
  lemma MonthLabelIsDayPrefix(d: LocalDate)
    requires 1 <= d.month <= 12 && 1000 <= d.year <= 9999
    ensures MonthLabel(d) == DateText(d)[..7]
  {
    FourDigitYear(d.year);
    TwoDigits(d.month);
    assert YearText(d.year) == IntToString(d.year);
    assert DateText(d) == MonthLabel(d) + ("-" + Format02(d.day));
  }

  /** `-W` cannot start inside a run of digits. */
  lemma NoWeekMarkInDigits(s: string, n: nat)
    requires n <= |s| && AllDigits(s[..n])
    ensures forall k :: 0 <= k < n ==> !MatchAt(s, k, "-W")
  {
    forall k | 0 <= k < n ensures !MatchAt(s, k, "-W") {
      assert s[..n][k] == s[k + 0];
      assert IsDigit(s[..n][k]);
      assert "-W"[0] == '-';
    }
  }

  lemma WeekMarkAfterDigits(y: string, w: string)
    requires AllDigits(y)
    ensures IndexOf(y + "-W" + w, "-W") == Some(|y|)
  {
    var s := y + "-W" + w;
    assert s[..|y|] == y;
    NoWeekMarkInDigits(s, |y|);
    assert MatchAt(s, |y|, "-W");
  }

  lemma NoWeekMark(w: string)
    requires AllDigits(w)
    ensures IndexOf(w, "-W") == None
  {
    assert w[..|w|] == w;
    NoWeekMarkInDigits(w, |w|);
  }

  /** A week label splits at its `-W` into the year and the two-digit week. */
  lemma WeekLabelSplit(weekYear: int, week: int)
    requires weekYear >= 0 && 0 <= week < 100
    ensures JavaSplit(WeekLabel(weekYear, week), "-W") == [IntToString(weekYear), Format02(week)]
  {
    var y, w := IntToString(weekYear), Format02(week);
    NatToStringDigits(weekYear);
    TwoDigits(week);
    var s := WeekLabel(weekYear, week);
    WeekMarkAfterDigits(y, w);
    NoWeekMark(w);
    assert s[..|y|] == y;
    assert s[|y| + 2..] == w;
    assert SplitAll(w, "-W") == [w];
    assert SplitAll(s, "-W") == [y] + [w];
  }

  /** The sort key of a week label is the year followed by the two-digit week. */
  lemma WeeklySortKey(weekYear: int, week: int)
    requires weekYear >= 0 && 0 <= week < 100
    ensures SortKey(WeekLabel(weekYear, week), Weekly) == IntToString(weekYear) + Format02(week)
  {
    WeekLabelSplit(weekYear, week);
    TwoDigits(week);
    var w := Format02(week);
    assert ParseInt(w) == Some(week);
  }

  /** A weekly label with no `-W` in it sorts as itself. */
  lemma UnmarkedWeekLabel(period: string)
    requires forall k :: 0 <= k <= |period| - 2 ==> !MatchAt(period, k, "-W")
    ensures SortKey(period, Weekly) == period
  {
  }

  /** A weekly label whose week number is missing sorts as itself: `split` drops the empty last piece. */
  lemma MissingWeekNumber(y: string)
    requires AllDigits(y)
    ensures SortKey(y + "-W", Weekly) == y + "-W"
  {
    var s := y + "-W";
    WeekMarkAfterDigits(y, "");
    assert s == y + "-W" + "";
    assert s[..|y|] == y && s[|y| + 2..] == [];
    assert SplitAll(s, "-W") == [y, ""];
  }

  /** A weekly label whose week part is not a number sorts as itself. */
  lemma NonNumericWeek(y: string, w: string)
    requires AllDigits(y) && w != [] && IndexOf(w, "-W").None? && ParseInt(w).None?
    ensures SortKey(y + "-W" + w, Weekly) == y + "-W" + w
  {
    var s := y + "-W" + w;
    WeekMarkAfterDigits(y, w);
    assert s[..|y|] == y && s[|y| + 2..] == w;
    assert SplitAll(w, "-W") == [w];
    assert SplitAll(s, "-W") == [y] + [w];
    assert JavaSplit(s, "-W") == [y, w];
  }

  /** Week sort keys order weeks chronologically, for four-digit week-based years. */
  lemma {:induction false} WeeklyKeyOrder(y1: int, w1: int, y2: int, w2: int)
    requires 1000 <= y1 <= 9999 && 1000 <= y2 <= 9999 && 0 <= w1 < 100 && 0 <= w2 < 100
    ensures LexLe(SortKey(WeekLabel(y1, w1), Weekly), SortKey(WeekLabel(y2, w2), Weekly)) <==>
      y1 < y2 || (y1 == y2 && w1 <= w2)
  {
    WeeklySortKey(y1, w1);
    WeeklySortKey(y2, w2);
    FourDigitYear(y1);
    FourDigitYear(y2);
    TwoDigits(w1);
    TwoDigits(w2);
    var a, b := IntToString(y1), IntToString(y2);
    var c, d := Format02(w1), Format02(w2);
    assert a + [] + c == a + c && b + [] + d == b + d;
    FieldThenRest(a, c, b, d, []);
    LexLeDigits(c, d);
  }

  /** Calendar order of the periods two dates fall in, under `view`. */
  predicate PeriodLe(view: View, weekOf: WeekRule, a: LocalDate, b: LocalDate) {
    match view
    case Daily => DateLe(a, b)
    case Monthly => a.year < b.year || (a.year == b.year && a.month <= b.month)
    case Weekly =>
      weekOf(a).0 < weekOf(b).0 || (weekOf(a).0 == weekOf(b).0 && weekOf(a).1 <= weekOf(b).1)
  }

  /** Four-digit years, and a week rule that yields four-digit years and weeks below 100. */
  predicate FourDigitPeriod(view: View, weekOf: WeekRule, t: LocalDateTime) {
    ValidDateTime(t) && 1000 <= t.date.year <= 9999 &&
    (view == Weekly ==> 1000 <= weekOf(t.date).0 <= 9999 && 0 <= weekOf(t.date).1 < 100)
  }

  /**
   * Sorting period labels by `sortKey` puts them in calendar order, for
   * every view, as long as the years (and week numbers) are as
   * `FourDigitPeriod` bounds them.
   */
  lemma SortKeyChronological(view: View, weekOf: WeekRule, a: LocalDateTime, b: LocalDateTime)
    requires FourDigitPeriod(view, weekOf, a) && FourDigitPeriod(view, weekOf, b)
    ensures LexLe(SortKey(BucketKey(a, view, weekOf), view), SortKey(BucketKey(b, view, weekOf), view))
      <==> PeriodLe(view, weekOf, a.date, b.date)
  {
    match view
    case Daily => DailyKeyOrder(a.date, b.date);
    case Monthly => MonthlyKeyOrder(a.date, b.date);
    case Weekly => WeeklyKeyOrder(weekOf(a.date).0, weekOf(a.date).1, weekOf(b.date).0, weekOf(b.date).1);
  }
}
