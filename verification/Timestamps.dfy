/**
 Calendar dates, wall-clock times and timestamps as the Python services hold
 them, with the text that `isoformat` prints and that `fromisoformat` reads.
 A time or timestamp carries an optional UTC offset in microseconds.
 */
module Timestamps {
  import opened Wrappers

  const MICROS_PER_SECOND := 1_000_000
  const MICROS_PER_DAY := 86_400_000_000

  datatype RawDate = RawDate(year: nat, month: nat, day: nat)

  predicate IsLeapYear(year: nat) {
    year % 4 == 0 && (year % 100 != 0 || year % 400 == 0)
  }

  function DaysInMonth(year: nat, month: nat): nat {
    if month == 2 then (if IsLeapYear(year) then 29 else 28)
    else if month in {4, 6, 9, 11} then 30
    else 31
  }

  predicate IsDate(d: RawDate) {
    1 <= d.year <= 9999 && 1 <= d.month <= 12 && 1 <= d.day <= DaysInMonth(d.year, d.month)
  }

  type Date = d: RawDate | IsDate(d) witness RawDate(1, 1, 1)

  datatype RawTime = RawTime(hour: nat, minute: nat, second: nat, micro: nat, offset: Option<int>)

  predicate IsOffset(offset: int) {
    -MICROS_PER_DAY < offset < MICROS_PER_DAY
  }

  predicate IsTime(t: RawTime) {
    && t.hour < 24 && t.minute < 60 && t.second < 60 && t.micro < MICROS_PER_SECOND
    && (t.offset.Some? ==> IsOffset(t.offset.value))
  }

  type Time = t: RawTime | IsTime(t) witness RawTime(0, 0, 0, 0, None)

  /** A timestamp: the offset of its time part is the offset of the timestamp. */
  datatype DateTime = DateTime(date: Date, time: Time)

  function TimeOfDay(t: Time): (micros: nat)
    ensures micros < MICROS_PER_DAY
  {
    ((t.hour * 60 + t.minute) * 60 + t.second) * MICROS_PER_SECOND + t.micro
  }

  function DaysBeforeMonth(year: nat, month: nat): nat
    requires 1 <= month
  {
    if month == 1 then 0 else DaysBeforeMonth(year, month - 1) + DaysInMonth(year, month - 1)
  }

  function LeapYearsUpTo(y: nat): int {
    y / 4 - y / 100 + y / 400
  }

  /** Days since the first day of year one, counting from one. */
  function Ordinal(d: Date): int {
    (d.year - 1) * 365 + LeapYearsUpTo(d.year - 1) + DaysBeforeMonth(d.year, d.month) + d.day
  }

  /** The point in time an aware timestamp names, in microseconds. */
  function Instant(t: DateTime): int
    requires t.time.offset.Some?
  {
    Ordinal(t.date) * MICROS_PER_DAY + TimeOfDay(t.time) - t.time.offset.value
  }

  // ---------------------------------------------------------------- printing

  function Digit(n: nat): char
    requires n < 10
  {
    '0' + n as char
  }

  function Two(n: nat): string
    requires n < 100
  {
    [Digit(n / 10), Digit(n % 10)]
  }

  function Four(n: nat): string
    requires n < 10_000
  {
    Two(n / 100) + Two(n % 100)
  }

  function Six(n: nat): string
    requires n < MICROS_PER_SECOND
  {
    Two(n / 10_000) + Two(n / 100 % 100) + Two(n % 100)
  }

  function PrintDate(d: Date): string {
    Four(d.year) + "-" + Two(d.month) + "-" + Two(d.day)
  }

  function PrintFraction(micro: nat): string
    requires micro < MICROS_PER_SECOND
  {
    if micro == 0 then "" else "." + Six(micro)
  }

  function PrintClock(t: Time): string {
    Two(t.hour) + ":" + Two(t.minute) + ":" + Two(t.second) + PrintFraction(t.micro)
  }

  /** A length of time in hours, minutes, seconds and microseconds. */
  function SplitUp(size: nat): Clock {
    var seconds := size / MICROS_PER_SECOND;
    Clock(seconds / 3600, seconds / 60 % 60, seconds % 60, size % MICROS_PER_SECOND)
  }

  function PrintSplit(c: Clock): string
    requires c.hour < 100 && c.minute < 100 && c.second < 100 && c.micro < MICROS_PER_SECOND
  {
    Two(c.hour) + ":" + Two(c.minute)
    + if c.second == 0 && c.micro == 0 then "" else ":" + Two(c.second) + PrintFraction(c.micro)
  }

  /** The magnitude of an offset; whole-minute offsets print no seconds. */
  function PrintMagnitude(size: nat): string
    requires size < MICROS_PER_DAY
  {
    PrintSplit(SplitUp(size))
  }

  function PrintOffset(offset: Option<int>): string
    requires offset.Some? ==> IsOffset(offset.value)
  {
    match offset
    case None => ""
    case Some(o) => if o < 0 then "-" + PrintMagnitude(-o) else "+" + PrintMagnitude(o)
  }

  function PrintTime(t: Time): string {
    PrintClock(t) + PrintOffset(t.offset)
  }

  function PrintDateTime(t: DateTime): string {
    PrintDate(t.date) + "T" + PrintTime(t.time)
  }

  // ----------------------------------------------------------------- parsing

  predicate IsDigit(c: char) {
    '0' <= c <= '9'
  }

  function DigitValue(c: char): nat
    requires IsDigit(c)
  {
    (c - '0') as nat
  }

  function ReadTwo(s: string): Option<nat> {
    if |s| == 2 && IsDigit(s[0]) && IsDigit(s[1])
    then Some(DigitValue(s[0]) * 10 + DigitValue(s[1]))
    else None
  }

  function ReadFour(s: string): Option<nat> {
    if |s| != 4 then None
    else match (ReadTwo(s[..2]), ReadTwo(s[2..]))
      case (Some(high), Some(low)) => Some(high * 100 + low)
      case _ => None
  }

  function ReadSix(s: string): Option<nat> {
    if |s| != 6 then None
    else match (ReadTwo(s[..2]), ReadTwo(s[2..4]), ReadTwo(s[4..]))
      case (Some(high), Some(middle), Some(low)) => Some(high * 10_000 + middle * 100 + low)
      case _ => None
  }

  function ParseDate(s: string): Option<Date> {
    if |s| != 10 || s[4] != '-' || s[7] != '-' then None
    else match (ReadFour(s[..4]), ReadTwo(s[5..7]), ReadTwo(s[8..]))
      case (Some(year), Some(month), Some(day)) =>
        if IsDate(RawDate(year, month, day)) then Some(RawDate(year, month, day)) else None
      case _ => None
  }

  datatype Clock = Clock(hour: nat, minute: nat, second: nat, micro: nat)

  /** Reads `HH`, `HH:MM`, `HH:MM:SS` or `HH:MM:SS.ffffff`; ranges are checked by the callers. */
  function ParseClock(s: string): Option<Clock> {
    if |s| == 2 then
      match ReadTwo(s) case Some(h) => Some(Clock(h, 0, 0, 0)) case None => None
    else if |s| == 5 && s[2] == ':' then
      match (ReadTwo(s[..2]), ReadTwo(s[3..]))
      case (Some(h), Some(m)) => Some(Clock(h, m, 0, 0))
      case _ => None
    else if |s| == 8 && s[2] == ':' && s[5] == ':' then
      match (ReadTwo(s[..2]), ReadTwo(s[3..5]), ReadTwo(s[6..]))
      case (Some(h), Some(m), Some(sec)) => Some(Clock(h, m, sec, 0))
      case _ => None
    else if |s| == 15 && s[2] == ':' && s[5] == ':' && s[8] == '.' then
      match (ReadTwo(s[..2]), ReadTwo(s[3..5]), ReadTwo(s[6..8]), ReadSix(s[9..]))
      case (Some(h), Some(m), Some(sec), Some(us)) => Some(Clock(h, m, sec, us))
      case _ => None
    else None
  }

  /** The position of the first character that opens a zone suffix, or the end of the text. */
  function ZoneStart(s: string): (i: nat)
    ensures i <= |s|
  {
    if s == "" || s[0] in {'+', '-', 'Z'} then 0 else 1 + ZoneStart(s[1..])
  }

  /** The outer option is failure; the inner one tells a naive time from an aware one. */
  function ParseZone(s: string): Option<Option<int>> {
    if s == "" then Some(None)
    else if s[0] == 'Z' then (if |s| == 1 then Some(Some(0)) else None)
    else match ParseClock(s[1..])
      case None => None
      case Some(c) =>
        var size := ((c.hour * 60 + c.minute) * 60 + c.second) * MICROS_PER_SECOND + c.micro;
        if size >= MICROS_PER_DAY then None
        else Some(Some(if s[0] == '-' then -size else size))
  }

  function ParseTime(s: string): Option<Time> {
    var i := ZoneStart(s);
    match (ParseClock(s[..i]), ParseZone(s[i..]))
    case (Some(c), Some(offset)) =>
      var t := RawTime(c.hour, c.minute, c.second, c.micro, offset);
      if IsTime(t) then Some(t) else None
    case _ => None
  }

  function ParseDateTime(s: string): Option<DateTime> {
    if |s| < 10 then None
    else match ParseDate(s[..10])
      case None => None
      case Some(date) =>
        if |s| <= 11 then Some(DateTime(date, RawTime(0, 0, 0, 0, None)))
        else match ParseTime(s[11..])
          case None => None
          case Some(time) => Some(DateTime(date, time))
  }

  /** `replace("Z", "+00:00")`, which both rule readers apply to timestamps. */
  function ReplaceZulu(s: string): string {
    if s == "" then ""
    else (if s[0] == 'Z' then "+00:00" else [s[0]]) + ReplaceZulu(s[1..])
  }

  // ------------------------------------------------------------- round trips

  lemma ReadTwoPrints(n: nat)
    requires n < 100
    ensures ReadTwo(Two(n)) == Some(n)
  {
  }

  lemma ReadFourPrints(n: nat)
    requires n < 10_000
    ensures ReadFour(Four(n)) == Some(n)
  {
  }

  lemma PairsMakeSix(n: nat)
    requires n < MICROS_PER_SECOND
    ensures n / 10_000 < 100 && n / 10_000 * 10_000 + n / 100 % 100 * 100 + n % 100 == n
  {
    assert n / 10_000 == n / 100 / 100;
  }

  lemma ReadSixPairs(s: string, high: nat, middle: nat, low: nat)
    requires |s| == 6
    requires ReadTwo(s[..2]) == Some(high) && ReadTwo(s[2..4]) == Some(middle) && ReadTwo(s[4..]) == Some(low)
    ensures ReadSix(s) == Some(high * 10_000 + middle * 100 + low)
  {
  }

  lemma SixIsThreePairs(high: nat, middle: nat, low: nat)
    requires high < 100 && middle < 100 && low < 100
    ensures var s := Two(high) + Two(middle) + Two(low);
            |s| == 6 && s[..2] == Two(high) && s[2..4] == Two(middle) && s[4..] == Two(low)
  {
  }

  lemma ReadSixPrints(n: nat)
    requires n < MICROS_PER_SECOND
    ensures ReadSix(Six(n)) == Some(n)
  {
    PairsMakeSix(n);
    var high, middle, low := n / 10_000, n / 100 % 100, n % 100;
    ReadTwoPrints(high);
    ReadTwoPrints(middle);
    ReadTwoPrints(low);
    SixIsThreePairs(high, middle, low);
    ReadSixPairs(Six(n), high, middle, low);
  }

  lemma DateRoundTrip(d: Date)
    ensures |PrintDate(d)| == 10 && ParseDate(PrintDate(d)) == Some(d)
  {
    ReadFourPrints(d.year);
    ReadTwoPrints(d.month);
    ReadTwoPrints(d.day);
    var s := PrintDate(d);
    assert s[..4] == Four(d.year) && s[5..7] == Two(d.month) && s[8..] == Two(d.day);
  }

  /** The printed clock reads back whatever its length. */
  lemma ClockReadsBack(h: nat, m: nat, s: nat, us: nat)
    requires h < 100 && m < 100 && s < 100 && us < MICROS_PER_SECOND
    ensures ParseClock(Two(h) + ":" + Two(m)) == Some(Clock(h, m, 0, 0))
    ensures ParseClock(Two(h) + ":" + Two(m) + ":" + Two(s) + PrintFraction(us)) == Some(Clock(h, m, s, us))
  {
    ReadTwoPrints(h);
    ReadTwoPrints(m);
    ReadTwoPrints(s);
    ReadSixPrints(us);
    var short := Two(h) + ":" + Two(m);
    assert short[..2] == Two(h) && short[3..] == Two(m);
    var long := short + ":" + Two(s) + PrintFraction(us);
    assert long[..2] == Two(h) && long[3..5] == Two(m);
    assert us == 0 ==> long[6..] == Two(s);
    assert us != 0 ==> long[6..8] == Two(s) && long[9..] == Six(us);
  }

  /** Splitting up a length of time loses nothing. */
  lemma SplitMagnitude(size: nat)
    requires size < MICROS_PER_DAY
    ensures var c := SplitUp(size);
            && c.hour < 24 && c.minute < 60 && c.second < 60 && c.micro < MICROS_PER_SECOND
            && ((c.hour * 60 + c.minute) * 60 + c.second) * MICROS_PER_SECOND + c.micro == size
  {
  }

  lemma SplitReadsBack(c: Clock)
    requires c.hour < 100 && c.minute < 100 && c.second < 100 && c.micro < MICROS_PER_SECOND
    ensures ParseClock(PrintSplit(c)) == Some(c)
  {
    ClockReadsBack(c.hour, c.minute, c.second, c.micro);
    if c.second == 0 && c.micro == 0 {
      assert PrintSplit(c) == Two(c.hour) + ":" + Two(c.minute);
    } else {
      assert PrintSplit(c)
          == Two(c.hour) + ":" + Two(c.minute) + ":" + Two(c.second) + PrintFraction(c.micro);
    }
  }

  lemma MagnitudeReadsBack(size: nat)
    requires size < MICROS_PER_DAY
    ensures ParseClock(PrintMagnitude(size)) == Some(SplitUp(size))
  {
    SplitMagnitude(size);
    SplitReadsBack(SplitUp(size));
  }

  lemma SignedClockIsZone(sign: char, clock: string, size: int)
    requires sign == '+' || sign == '-'
    requires 0 <= size < MICROS_PER_DAY && ParseClock(clock) == Some(SplitUp(size))
    ensures ParseZone([sign] + clock) == Some(Some(if sign == '-' then -size else size))
  {
    SplitMagnitude(size);
    assert ([sign] + clock)[1..] == clock;
  }

  lemma ZoneRoundTrip(offset: Option<int>)
    requires offset.Some? ==> IsOffset(offset.value)
    ensures ParseZone(PrintOffset(offset)) == Some(offset)
  {
    if offset.Some? {
      var size := if offset.value < 0 then -offset.value else offset.value;
      MagnitudeReadsBack(size);
      SignedClockIsZone(if offset.value < 0 then '-' else '+', PrintMagnitude(size), size);
    }
  }

  /** Characters of a printed clock: digits, colons and a point. */
  predicate IsClockText(s: string) {
    forall i :: 0 <= i < |s| ==> IsDigit(s[i]) || s[i] == ':' || s[i] == '.'
  }

  lemma ZoneStartAfterClock(clock: string, zone: string)
    requires IsClockText(clock)
    requires zone == "" || zone[0] in {'+', '-', 'Z'}
    ensures ZoneStart(clock + zone) == |clock|
  {
    if clock == "" {
      assert clock + zone == zone;
    } else {
      assert (clock + zone)[1..] == clock[1..] + zone;
      ZoneStartAfterClock(clock[1..], zone);
    }
  }

  lemma TwoIsClockText(n: nat)
    requires n < 100
    ensures |Two(n)| == 2 && IsDigit(Two(n)[0]) && IsDigit(Two(n)[1])
  {
  }

  lemma FractionIsClockText(micro: nat)
    requires micro < MICROS_PER_SECOND
    ensures IsClockText(PrintFraction(micro))
  {
  }

  lemma ClockIsClockText(t: Time)
    ensures IsClockText(PrintClock(t))
  {
  }

  lemma MagnitudeIsClockText(size: nat)
    requires size < MICROS_PER_DAY
    ensures IsClockText(PrintMagnitude(size))
  {
    var seconds := size / MICROS_PER_SECOND;
    SplitMagnitude(size);
    TwoIsClockText(seconds / 3600);
    TwoIsClockText(seconds / 60 % 60);
    TwoIsClockText(seconds % 60);
    FractionIsClockText(size % MICROS_PER_SECOND);
  }

  lemma TimeRoundTrip(t: Time)
    ensures ParseTime(PrintTime(t)) == Some(t)
  {
    var clock, zone := PrintClock(t), PrintOffset(t.offset);
    ClockReadsBack(t.hour, t.minute, t.second, t.micro);
    assert ParseClock(clock) == Some(Clock(t.hour, t.minute, t.second, t.micro));
    ZoneRoundTrip(t.offset);
    ClockIsClockText(t);
    assert zone == "" || zone[0] in {'+', '-', 'Z'} by {
      if t.offset.Some? {
        assert zone[0] == '-' || zone[0] == '+';
      }
    }
    JoinedTimeReadsBack(t, clock, zone);
  }

  lemma JoinedTimeReadsBack(t: Time, clock: string, zone: string)
    requires IsClockText(clock) && (zone == "" || zone[0] in {'+', '-', 'Z'})
    requires ParseClock(clock) == Some(Clock(t.hour, t.minute, t.second, t.micro))
    requires ParseZone(zone) == Some(t.offset)
    ensures ParseTime(clock + zone) == Some(t)
  {
    ZoneStartAfterClock(clock, zone);
    assert (clock + zone)[..|clock|] == clock && (clock + zone)[|clock|..] == zone;
  }

  lemma DateTimeRoundTrip(t: DateTime)
    ensures ParseDateTime(PrintDateTime(t)) == Some(t)
  {
    var s := PrintDateTime(t);
    DateRoundTrip(t.date);
    TimeRoundTrip(t.time);
    assert s[..10] == PrintDate(t.date) && s[11..] == PrintTime(t.time);
  }

  lemma PrintDateTimeInjective(t: DateTime, t': DateTime)
    requires PrintDateTime(t) == PrintDateTime(t')
    ensures t == t'
  {
    DateTimeRoundTrip(t);
    DateTimeRoundTrip(t');
  }

  /** Every character of a printed timestamp. */
  lemma DateTimeAlphabet(t: DateTime)
    ensures forall c :: c in PrintDateTime(t) ==> IsDigit(c) || c in {'-', ':', '.', '+', 'T'}
  {
    var date, clock, zone := PrintDate(t.date), PrintClock(t.time), PrintOffset(t.time.offset);
    ClockIsClockText(t.time);
    DateAlphabet(t.date);
    ZoneAlphabet(t.time.offset);
    assert PrintDateTime(t) == date + "T" + (clock + zone);
  }

  lemma DateAlphabet(d: Date)
    ensures forall c :: c in PrintDate(d) ==> IsDigit(c) || c == '-'
  {
  }

  lemma ZoneAlphabet(offset: Option<int>)
    requires offset.Some? ==> IsOffset(offset.value)
    ensures forall c :: c in PrintOffset(offset) ==> IsDigit(c) || c in {'-', ':', '.', '+'}
  {
    if offset.Some? {
      MagnitudeIsClockText(if offset.value < 0 then -offset.value else offset.value);
    }
  }

  lemma ReplaceZuluIdle(s: string)
    requires 'Z' !in s
    ensures ReplaceZulu(s) == s
  {
  }

  // ------------------------------------------------------------ the calendar

  function NextDay(d: Date): RawDate {
    if d.day < DaysInMonth(d.year, d.month) then RawDate(d.year, d.month, d.day + 1)
    else if d.month < 12 then RawDate(d.year, d.month + 1, 1)
    else RawDate(d.year + 1, 1, 1)
  }

  lemma DaysOfYear(year: nat)
    ensures DaysBeforeMonth(year, 12) + 31 == if IsLeapYear(year) then 366 else 365
  {
    assert DaysBeforeMonth(year, 2) == 31;
    assert DaysBeforeMonth(year, 4) == DaysBeforeMonth(year, 3) + 31;
    assert DaysBeforeMonth(year, 6) == DaysBeforeMonth(year, 4) + 61;
    assert DaysBeforeMonth(year, 8) == DaysBeforeMonth(year, 6) + 61;
    assert DaysBeforeMonth(year, 10) == DaysBeforeMonth(year, 8) + 61;
    assert DaysBeforeMonth(year, 12) == DaysBeforeMonth(year, 10) + 61;
  }

  lemma QuotientSteps(n: nat, k: nat)
    requires n >= 1 && k >= 1
    ensures n / k == (n - 1) / k + if n % k == 0 then 1 else 0
  {
    var q, r := (n - 1) / k, (n - 1) % k;
    assert n == q * k + (r + 1);
    if r + 1 == k {
      assert n == (q + 1) * k;
      QuotientIs(n, k, q + 1, 0);
    } else {
      QuotientIs(n, k, q, r + 1);
    }
  }

  lemma MultipleIsLarge(d: int, k: int)
    requires k >= 0
    ensures d >= 1 ==> d * k >= k
    ensures d <= -1 ==> d * k <= -k
  {
  }

  lemma QuotientIs(n: nat, k: nat, q: nat, r: nat)
    requires k >= 1 && n == q * k + r && r < k
    ensures n / k == q && n % k == r
  {
    var d := n / k - q;
    assert d * k == r - n % k;
    MultipleIsLarge(d, k);
  }

  lemma CenturiesDivide(year: nat)
    ensures year % 100 == 0 ==> year % 4 == 0
    ensures year % 400 == 0 ==> year % 100 == 0
  {
    if year % 100 == 0 {
      QuotientIs(year, 4, 25 * (year / 100), 0);
    }
    if year % 400 == 0 {
      QuotientIs(year, 100, 4 * (year / 400), 0);
    }
  }

  lemma LeapDays(year: nat)
    requires year >= 1
    ensures LeapYearsUpTo(year) == LeapYearsUpTo(year - 1) + if IsLeapYear(year) then 1 else 0
  {
    QuotientSteps(year, 4);
    QuotientSteps(year, 100);
    QuotientSteps(year, 400);
    CenturiesDivide(year);
  }

  lemma DayFollows(d: Date)
    requires d.day < DaysInMonth(d.year, d.month)
    ensures IsDate(NextDay(d)) && Ordinal(NextDay(d)) == Ordinal(d) + 1
  {
  }

  lemma MonthFollows(d: Date)
    requires d.month < 12 && d.day == DaysInMonth(d.year, d.month)
    ensures IsDate(NextDay(d)) && Ordinal(NextDay(d)) == Ordinal(d) + 1
  {
    assert DaysBeforeMonth(d.year, d.month + 1) == DaysBeforeMonth(d.year, d.month) + DaysInMonth(d.year, d.month);
  }

  lemma YearFollows(d: Date)
    requires d.month == 12 && d.day == DaysInMonth(d.year, 12) && d.year < 9999
    ensures IsDate(NextDay(d)) && Ordinal(NextDay(d)) == Ordinal(d) + 1
  {
    DaysOfYear(d.year);
    LeapDays(d.year);
    assert NextDay(d) == RawDate(d.year + 1, 1, 1);
    assert DaysBeforeMonth(d.year + 1, 1) == 0;
  }

  lemma FirstDay()
    ensures Ordinal(RawDate(1, 1, 1)) == 1
  {
  }

  /** The ordinal counts the days: from the first one on, each next day is one more. */
  lemma OrdinalCountsDays(d: Date)
    requires d != RawDate(9999, 12, 31)
    ensures IsDate(NextDay(d)) && Ordinal(NextDay(d)) == Ordinal(d) + 1
  {
    if d.day < DaysInMonth(d.year, d.month) {
      DayFollows(d);
    } else if d.month < 12 {
      MonthFollows(d);
    } else {
      YearFollows(d);
    }
  }

  /** Seven months have a thirty-first day, and all but February a thirtieth. */
  lemma MonthLengths(year: nat, month: nat)
    requires 1 <= year <= 9999
    ensures IsDate(RawDate(year, month, 31)) <==> month in {1, 3, 5, 7, 8, 10, 12}
    ensures IsDate(RawDate(year, month, 30)) <==> 1 <= month <= 12 && month != 2
    ensures IsDate(RawDate(year, month, 28)) <==> 1 <= month <= 12
  {
  }

  /** February has its extra day every four years, in full centuries every four hundred. */
  lemma LeapYearSamples()
    ensures IsDate(RawDate(2024, 2, 29)) && !IsDate(RawDate(2023, 2, 29))
    ensures IsDate(RawDate(2000, 2, 29)) && !IsDate(RawDate(1900, 2, 29))
  {
  }

  /** A clock ahead of UTC reaches the same reading earlier, by as much as it is ahead. */
  lemma AheadIsEarlier(date: Date, t: Time, offset: int)
    requires IsOffset(offset)
    ensures Instant(DateTime(date, t.(offset := Some(offset)))) + offset
            == Instant(DateTime(date, t.(offset := Some(0))))
  {
  }

  /** At one offset later readings are later instants: by the day, and within a day by as much as the clock says. */
  lemma LaterReadsLater(t: DateTime, u: DateTime)
    requires t.time.offset.Some? && t.time.offset == u.time.offset
    ensures Instant(t) < Instant(u) <==>
              Ordinal(t.date) < Ordinal(u.date)
              || (Ordinal(t.date) == Ordinal(u.date) && TimeOfDay(t.time) < TimeOfDay(u.time))
    ensures t.date == u.date ==> Instant(u) - Instant(t) == TimeOfDay(u.time) - TimeOfDay(t.time)
  {
  }

  /** A lone Z is no offset from UTC, a day or more is no offset, and no suffix leaves a time naive. */
  lemma ZoneSamples()
    ensures ParseZone("Z") == Some(Some(0)) && ParseZone("Z0") == None
    ensures ParseZone("+23:59") == Some(Some(86_340_000_000)) && ParseZone("+24:00") == None
    ensures ParseZone("") == Some(None)
  {
    assert "+23:59"[1..] == Two(23) + ":" + Two(59);
    assert "+24:00"[1..] == Two(24) + ":" + Two(0);
    ClockReadsBack(23, 59, 0, 0);
    ClockReadsBack(24, 0, 0, 0);
  }

  /** A text of a date alone reads as its midnight, without an offset. */
  lemma DateReadsAsMidnight(d: Date)
    ensures ParseDateTime(PrintDate(d)) == Some(DateTime(d, RawTime(0, 0, 0, 0, None)))
  {
    DateRoundTrip(d);
    assert PrintDate(d)[..10] == PrintDate(d);
  }

  lemma {:induction false} ReplaceZuluJoins(s: string, rest: string)
    ensures ReplaceZulu(s + rest) == ReplaceZulu(s) + ReplaceZulu(rest)
  {
    if s == "" {
      assert s + rest == rest;
    } else {
      assert (s + rest)[1..] == s[1..] + rest;
      ReplaceZuluJoins(s[1..], rest);
    }
  }

  lemma FinalZuluReplaced(s: string)
    requires 'Z' !in s
    ensures ReplaceZulu(s + "Z") == s + "+00:00"
  {
    ReplaceZuluIdle(s);
    ReplaceZuluJoins(s, "Z");
    assert ReplaceZulu("Z") == "+00:00";
  }

  lemma UtcPrints(t: DateTime, naive: DateTime)
    requires t.time.offset == Some(0) && naive == t.(time := t.time.(offset := None))
    ensures PrintDateTime(t) == PrintDateTime(naive) + "+00:00"
    ensures PrintDateTime(naive) == PrintDate(t.date) + "T" + PrintClock(t.time)
  {
    OffsetSamples();
    var date, clock := PrintDate(t.date), PrintClock(t.time);
    assert PrintClock(naive.time) == clock;
    PrintJoins(t, date, clock, "+00:00");
    PrintJoins(naive, date, clock, "");
  }

  /** A timestamp of UTC may be written with a final Z. */
  lemma ZuluReadsAsUtc(t: DateTime)
    requires t.time.offset == Some(0)
    ensures ParseDateTime(ReplaceZulu(PrintDate(t.date) + "T" + PrintClock(t.time) + "Z")) == Some(t)
  {
    var naive := t.(time := t.time.(offset := None));
    UtcPrints(t, naive);
    DateTimeAlphabet(naive);
    FinalZuluReplaced(PrintDateTime(naive));
    DateTimeRoundTrip(t);
  }

  lemma DateSample()
    ensures PrintDate(RawDate(2024, 2, 9)) == "2024-02-09"
  {
  }

  lemma ClockSamples()
    ensures PrintClock(RawTime(8, 5, 30, 0, None)) == "08:05:30"
    ensures PrintClock(RawTime(8, 5, 30, 1500, Some(-19_800_000_000))) == "08:05:30.001500"
  {
    assert Six(1500) == "001500";
  }

  lemma OffsetSamples()
    ensures PrintOffset(None) == ""
    ensures PrintOffset(Some(0)) == "+00:00"
    ensures PrintOffset(Some(-19_800_000_000)) == "-05:30"
  {
    assert PrintMagnitude(0) == "00:00";
    assert PrintMagnitude(19_800_000_000) == "05:30";
  }

  lemma PrintJoins(t: DateTime, date: string, clock: string, zone: string)
    requires PrintDate(t.date) == date && PrintClock(t.time) == clock && PrintOffset(t.time.offset) == zone
    ensures PrintDateTime(t) == date + "T" + (clock + zone)
  {
  }

  lemma PrintSample()
    ensures PrintDateTime(DateTime(RawDate(2024, 2, 9), RawTime(8, 5, 30, 1500, Some(-19_800_000_000))))
            == "2024-02-09" + "T" + ("08:05:30.001500" + "-05:30")
  {
    DateSample();
    ClockSamples();
    OffsetSamples();
    var t := DateTime(RawDate(2024, 2, 9), RawTime(8, 5, 30, 1500, Some(-19_800_000_000)));
    PrintJoins(t, "2024-02-09", "08:05:30.001500", "-05:30");
  }
}
