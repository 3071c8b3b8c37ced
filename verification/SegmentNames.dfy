/**
  Names of sealed log segments: how the writer builds them and how retention reads the
  day back out of them.
 */
module SegmentNames {
  import opened Wrappers

  type Name = string

  /** A calendar day, written YYYYMMDD. */
  datatype Day = Day(year: nat, month: nat, day: nat)

  /** Names in a log directory, as the writer of one log tells them apart. */
  datatype FileName = Active | Sealed(day: Day, generation: nat) | Other(name: Name)

  /** A retention cutoff: some instant of a day. */
  datatype Instant = Instant(day: Day, afterMidnight: bool)

  predicate IsLeap(year: nat) {
    year % 4 == 0 && (year % 100 != 0 || year % 400 == 0)
  }

  function DaysIn(year: nat, month: nat): nat {
    if month == 2 then (if IsLeap(year) then 29 else 28)
    else if month in {4, 6, 9, 11} then 30
    else 31
  }

  predicate IsDay(d: Day) {
    d.year < 10000 && 1 <= d.month <= 12 && 1 <= d.day <= DaysIn(d.year, d.month)
  }

  predicate DayBefore(a: Day, b: Day) {
    a.year < b.year || (a.year == b.year && (a.month < b.month || (a.month == b.month && a.day < b.day)))
  }

  /** The day's first instant is before the cutoff. */
  predicate StartsBefore(d: Day, cutoff: Instant) {
    DayBefore(d, cutoff.day) || (d == cutoff.day && cutoff.afterMidnight)
  }

  // ---- Decimal numbers ----

  function DigitChar(d: nat): char
    requires d < 10
  {
    ('0' as int + d) as char
  }

  predicate AllDigits(s: string) {
    forall i :: 0 <= i < |s| ==> '0' <= s[i] <= '9'
  }

  /** Exactly `width` digits. */
  function Fixed(n: nat, width: nat): string {
    if width == 0 then "" else Fixed(n / 10, width - 1) + [DigitChar(n % 10)]
  }

  /** `%0*d`: at least `width` digits. */
  function Padded(n: nat, width: nat): string {
    if n < 10 && width <= 1 then [DigitChar(n)]
    else Padded(n / 10, if width == 0 then 0 else width - 1) + [DigitChar(n % 10)]
  }

  function Number(s: string): nat
    requires AllDigits(s)
  {
    if s == "" then 0 else 10 * Number(s[..|s| - 1]) + (s[|s| - 1] as int - '0' as int)
  }

  function Power10(k: nat): nat {
    if k == 0 then 1 else 10 * Power10(k - 1)
  }

  lemma {:induction false} FixedReads(n: nat, width: nat)
    requires n < Power10(width)
    ensures |Fixed(n, width)| == width && AllDigits(Fixed(n, width)) && Number(Fixed(n, width)) == n
  {
    if width > 0 {
      FixedReads(n / 10, width - 1);
      assert Fixed(n, width)[..width - 1] == Fixed(n / 10, width - 1);
    }
  }

  lemma {:induction false} PaddedReads(n: nat, width: nat)
    ensures AllDigits(Padded(n, width)) && Number(Padded(n, width)) == n
    decreases n, width
  {
    var s := Padded(n, width);
    if n < 10 && width <= 1 {
      assert s[..|s| - 1] == "";
    } else {
      PaddedReads(n / 10, if width == 0 then 0 else width - 1);
      assert s[..|s| - 1] == Padded(n / 10, if width == 0 then 0 else width - 1);
    }
  }

  // ---- Names ----

  const MARK := ".segment-"
  const SUFFIX := ".sealed"

  function DayText(d: Day): string {
    Fixed(d.year, 4) + Fixed(d.month, 2) + Fixed(d.day, 2)
  }

  /** `time.Parse("20060102", text)` */
  function ParseDay(text: string): Option<Day> {
    if |text| == 8 && AllDigits(text) then
      var d := Day(Number(text[..4]), Number(text[4..6]), Number(text[6..]));
      if IsDay(d) then Some(d) else None
    else None
  }

  /** The name `seal` gives the segment opened on day `d`. */
  function SegmentName(active: Name, d: Day, generation: nat): Name {
    active + MARK + DayText(d) + "-" + Padded(generation, 6) + SUFFIX
  }

  predicate HasPrefix(s: string, prefix: string) {
    |prefix| <= |s| && s[..|prefix|] == prefix
  }

  predicate HasSuffix(s: string, suffix: string) {
    |suffix| <= |s| && s[|s| - |suffix|..] == suffix
  }

  function TrimPrefix(s: string, prefix: string): string {
    if HasPrefix(s, prefix) then s[|prefix|..] else s
  }

  function TrimSuffix(s: string, suffix: string): string {
    if HasSuffix(s, suffix) then s[..|s| - |suffix|] else s
  }

  /** The day retention reads from a name; None for a name it skips. */
  function NameDay(active: Name, name: Name): Option<Day> {
    if HasPrefix(name, active + MARK) && HasSuffix(name, SUFFIX) then
      var rest := TrimSuffix(TrimPrefix(name, active + MARK), SUFFIX);
      if |rest| < 9 || rest[8] != '-' then None else ParseDay(rest[..8])
    else None
  }

  predicate Eligible(active: Name, cutoff: Instant, allowed: set<Name>, name: Name) {
    var day := NameDay(active, name);
    name in allowed && day.Some? && StartsBefore(day.value, cutoff)
  }

  lemma DayTextReads(d: Day)
    requires IsDay(d)
    ensures |DayText(d)| == 8 && ParseDay(DayText(d)) == Some(d)
  {
    assert Power10(2) == 100 && Power10(4) == 10000;
    FixedReads(d.year, 4);
    FixedReads(d.month, 2);
    FixedReads(d.day, 2);
    var text := DayText(d);
    assert text[..4] == Fixed(d.year, 4) && text[4..6] == Fixed(d.month, 2) && text[6..] == Fixed(d.day, 2);
  }

  /** Retention reads a day from any name of this form, whatever follows the second dash, ... */
  lemma NameDayReads(active: Name, text: string, more: string)
    requires |text| == 8
    ensures NameDay(active, active + ".segment-" + text + "-" + more + ".sealed") == ParseDay(text)
  {
    hide ParseDay;
    var tail := text + "-" + more;
    var name := active + ".segment-" + text + "-" + more + ".sealed";
    assert name == (active + MARK) + (tail + SUFFIX);
    assert HasPrefix(name, active + MARK) && TrimPrefix(name, active + MARK) == tail + SUFFIX;
    assert name == (active + MARK + tail) + SUFFIX;
    assert HasSuffix(name, SUFFIX) && HasSuffix(tail + SUFFIX, SUFFIX) && TrimSuffix(tail + SUFFIX, SUFFIX) == tail;
    assert tail[..8] == text;
  }

  /** ... and from no other. */
  lemma NameDayMeans(active: Name, name: Name) returns (text: string, more: string)
    requires NameDay(active, name).Some?
    ensures |text| == 8 && name == active + ".segment-" + text + "-" + more + ".sealed"
    ensures NameDay(active, name) == ParseDay(text)
  {
    hide ParseDay;
    var tail := TrimPrefix(name, active + MARK);
    assert name == active + MARK + tail;
    var rest := TrimSuffix(tail, SUFFIX);
    assert tail[|tail| - |SUFFIX|..] == name[|name| - |SUFFIX|..] == SUFFIX;
    assert tail == rest + SUFFIX;
    text, more := rest[..8], rest[9..];
    assert rest == text + "-" + more;
    assert name == active + MARK + (text + "-" + more + SUFFIX);
  }

  /**
    Retention reads back the day the writer put in a name. Together with Eligible: of the
    writer's segments exactly those whose opening day started before the cutoff, and that
    the caller allowed, may go.
   */
  lemma EligibleReadsWritersDay(active: Name, d: Day, generation: nat, cutoff: Instant, allowed: set<Name>)
    requires IsDay(d)
    ensures Eligible(active, cutoff, allowed, SegmentName(active, d, generation)) <==>
            SegmentName(active, d, generation) in allowed && StartsBefore(d, cutoff)
  {
    hide ParseDay, DayText, Padded, NameDay;
    DayTextReads(d);
    NameDayReads(active, DayText(d), Padded(generation, 6));
  }

  /** The active file itself is never eligible. */
  lemma ActiveIsNotEligible(active: Name, cutoff: Instant, allowed: set<Name>)
    ensures !Eligible(active, cutoff, allowed, active)
  {
  }

  /** Two logs share no segment unless one log's name begins with the other's. */
  lemma LogsShareNoSegment(a: Name, b: Name, name: Name)
    ensures NameDay(a, name).None? || NameDay(b, name).None? || HasPrefix(a, b) || HasPrefix(b, a)
  {
    if HasPrefix(name, a + MARK) && HasPrefix(name, b + MARK) {
      assert name[..|a|] == a && name[..|b|] == b;
      if |a| <= |b| {
        assert b[..|a|] == a;
      } else {
        assert a[..|b|] == b;
      }
    }
  }

  /** Different days or generations have different names. */
  lemma SegmentNameInjective(active: Name, d: Day, g: nat, d': Day, g': nat)
    requires IsDay(d) && IsDay(d') && SegmentName(active, d, g) == SegmentName(active, d', g')
    ensures d == d' && g == g'
  {
    DayTextReads(d);
    DayTextReads(d');
    PaddedReads(g, 6);
    PaddedReads(g', 6);
    hide ParseDay, DayText, Padded, Number;
    NameParts(active, d, g);
    NameParts(active, d', g');
  }

  lemma NameParts(active: Name, d: Day, g: nat)
    requires |DayText(d)| == 8
    ensures var name, k := SegmentName(active, d, g), |active| + |MARK|;
            && |name| >= k + 9 + |SUFFIX|
            && name[k..k + 8] == DayText(d) && name[k + 9..|name| - |SUFFIX|] == Padded(g, 6)
  {
    hide DayText, Padded;
  }

  // ---- The names and the calendar in numbers ----

  /** The month lengths of the Gregorian calendar. */
  lemma CalendarIs(d: Day)
    ensures IsDay(d) <==>
            && d.year <= 9999 && 1 <= d.month <= 12 && 1 <= d.day
            && (d.month in {1, 3, 5, 7, 8, 10, 12} ==> d.day <= 31)
            && (d.month in {4, 6, 9, 11} ==> d.day <= 30)
            && (d.month == 2 ==> d.day <= 29)
            && (d.month == 2 && d.day == 29 ==> d.year % 400 == 0 || (d.year % 4 == 0 && d.year % 100 != 0))
  {
  }

  /** A day as one decimal number, year first. */
  function DayNumber(d: Day): nat {
    10000 * d.year + 100 * d.month + d.day
  }

  lemma DaysInOrder(a: Day, b: Day)
    requires IsDay(a) && IsDay(b)
    ensures DayBefore(a, b) <==> DayNumber(a) < DayNumber(b)
  {
  }

  /**
    Of the writer's segments exactly those go whose opening day, as a number, is before the
    day of the cutoff, or is that day when the cutoff is later than its midnight.
   */
  lemma EligibleInNumbers(active: Name, d: Day, generation: nat, cutoff: Instant, allowed: set<Name>)
    requires IsDay(d) && IsDay(cutoff.day)
    ensures Eligible(active, cutoff, allowed, SegmentName(active, d, generation)) <==>
            && SegmentName(active, d, generation) in allowed
            && (|| DayNumber(d) < DayNumber(cutoff.day)
                || (DayNumber(d) == DayNumber(cutoff.day) && cutoff.afterMidnight))
  {
    EligibleReadsWritersDay(active, d, generation, cutoff, allowed);
    DaysInOrder(d, cutoff.day);
    if DayNumber(d) == DayNumber(cutoff.day) {
      SameNumber(d.year, d.month, d.day, cutoff.day.year, cutoff.day.month, cutoff.day.day);
    }
    hide Eligible, SegmentName, DayBefore;
  }

  lemma {:induction false} NumberConcat(a: string, b: string)
    requires AllDigits(a) && AllDigits(b)
    ensures AllDigits(a + b) && Number(a + b) == Power10(|b|) * Number(a) + Number(b)
  {
    assert AllDigits(a + b);
    if b == "" {
      assert a + b == a;
      assert Power10(0) == 1;
    } else {
      var init, digit: nat := b[..|b| - 1], b[|b| - 1] as int - '0' as int;
      NumberConcat(a, init);
      assert (a + b)[..|a + b| - 1] == a + init;
      assert Number(a + b) == 10 * Number(a + init) + digit && Number(b) == 10 * Number(init) + digit;
      assert Power10(|b|) == 10 * Power10(|init|);
      hide *;
      OneMoreDigit(Power10(|init|), Number(a), Number(init), digit);
    }
  }

  lemma OneMoreDigit(p: nat, x: nat, y: nat, digit: nat)
    ensures 10 * (p * x + y) + digit == (10 * p) * x + (10 * y + digit)
  {
  }

  /** The eight digits of a day are that number. */
  lemma DayTextIsNumber(d: Day)
    requires IsDay(d)
    ensures |DayText(d)| == 8 && AllDigits(DayText(d)) && Number(DayText(d)) == DayNumber(d)
  {
    assert Power10(2) == 100 && Power10(4) == 10000;
    assert d.year < 10000 && d.month < 100 && d.day < 100;
    var y, m, n := Fixed(d.year, 4), Fixed(d.month, 2), Fixed(d.day, 2);
    assert DayText(d) == y + m + n;
    hide Fixed, Number, AllDigits, Power10, DayText, IsDay;
    FixedReads(d.year, 4);
    FixedReads(d.month, 2);
    FixedReads(d.day, 2);
    NumberConcat(y, m);
    NumberConcat(y + m, n);
  }

  lemma {:induction false} NumberBound(text: string)
    requires AllDigits(text)
    ensures Number(text) < Power10(|text|)
  {
    if text != "" {
      NumberBound(text[..|text| - 1]);
    }
  }

  lemma PartsOfDay(text: string)
    requires |text| == 8 && AllDigits(text)
    ensures Number(text) == 10000 * Number(text[..4]) + 100 * Number(text[4..6]) + Number(text[6..])
    ensures Number(text[4..6]) < 100 && Number(text[6..]) < 100
  {
    assert Power10(2) == 100;
    var y, m, d := text[..4], text[4..6], text[6..];
    NumberBound(m);
    NumberBound(d);
    NumberConcat(y, m);
    NumberConcat(y + m, d);
    assert text == y + m + d;
    hide *;
  }

  /** A text is read as a day exactly when it is the eight digits of one. */
  lemma ParsedIff(text: string, d: Day)
    ensures ParseDay(text) == Some(d) <==>
            |text| == 8 && AllDigits(text) && IsDay(d) && Number(text) == DayNumber(d)
  {
    hide Number;
    if |text| == 8 && AllDigits(text) {
      PartsOfDay(text);
      var y, m, n := Number(text[..4]), Number(text[4..6]), Number(text[6..]);
      if IsDay(d) && Number(text) == DayNumber(d) {
        SameNumber(y, m, n, d.year, d.month, d.day);
      }
    }
  }

  lemma SameNumber(y: nat, m: nat, d: nat, y': nat, m': nat, d': nat)
    requires m < 100 && d < 100 && m' < 100 && d' < 100
    requires 10000 * y + 100 * m + d == 10000 * y' + 100 * m' + d'
    ensures y == y' && m == m' && d == d'
  {
    var rest := 100 * (m - m') + (d - d');
    assert 10000 * (y' - y) == rest && -10000 < rest < 10000;
    assert y == y';
  }

  /** A generation is its decimal digits, with zeros in front of fewer than six. */
  lemma {:induction false} PaddedLength(n: nat, width: nat)
    ensures |Padded(n, width)| >= width && |Padded(n, width)| >= 1
    ensures |Padded(n, width)| > width && |Padded(n, width)| > 1 ==> Padded(n, width)[0] != '0'
    decreases n, width
  {
    if !(n < 10 && width <= 1) {
      PaddedLength(n / 10, if width == 0 then 0 else width - 1);
    }
  }

  /** One name in full. */
  lemma NameInstance()
    ensures SegmentName("access.log", Day(2024, 1, 2), 3) ==
            "access.log" + ".segment-" + ("2024" + "01" + "02") + "-" + "000003" + ".sealed"
  {
    DayInstance();
    GenerationInstance();
    hide DayText, Padded;
  }

  lemma DayInstance()
    ensures DayText(Day(2024, 1, 2)) == "2024" + "01" + "02"
  {
    YearInstance();
    MonthInstance();
    hide Fixed;
  }

  lemma YearInstance()
    ensures Fixed(2024, 4) == "2024"
  {
    assert Fixed(2, 1) == "2";
    assert Fixed(20, 2) == "20";
    assert Fixed(202, 3) == "202";
  }

  lemma MonthInstance()
    ensures Fixed(1, 2) == "01" && Fixed(2, 2) == "02"
  {
    assert Fixed(0, 1) == "0";
  }

  lemma GenerationInstance()
    ensures Padded(3, 6) == "000003"
  {
    assert Padded(0, 1) == "0";
    assert Padded(0, 2) == "00";
    assert Padded(0, 3) == "000";
    assert Padded(0, 4) == "0000";
    assert Padded(0, 5) == "00000";
  }
}
