/**
 Parking rules on their way through storage: the JSON object the importer
 writes, the reader the parking service uses, the stricter reader of the
 GeoJSON connector, and a second reader that the importer carries. Every field
 of a stored object is text; `None` is a Python exception.
 */
module RuleStorage {
  import opened Wrappers
  import opened Timestamps
  import opened ParkingRules
  import opened ParkingDecision

  datatype StoredWindow = StoredWindow(startsAt: string, endsAt: string)

  datatype StoredRule = StoredRule(
    ruleId: string,
    effect: string,
    weekdays: seq<int>,
    window: StoredWindow,
    timezone: string,
    validFrom: string,
    validUntil: Option<string>,
    exceptionDates: seq<string>,
    notApplicable: seq<StoredWindow>,
    specialRestrictions: seq<string>)

  function Map<A, B>(f: A -> B, xs: seq<A>): (ys: seq<B>)
    ensures |ys| == |xs| && forall i :: 0 <= i < |xs| ==> ys[i] == f(xs[i])
  {
    if xs == [] then [] else [f(xs[0])] + Map(f, xs[1..])
  }

  /** Reads every element, or fails as a whole. */
  function ReadAll<A, B>(read: A -> Option<B>, xs: seq<A>): Option<seq<B>> {
    if xs == [] then Some([])
    else match (read(xs[0]), ReadAll(read, xs[1..]))
      case (Some(y), Some(ys)) => Some([y] + ys)
      case _ => None
  }

  // ------------------------------------------------------------------ writing

  function EffectName(e: Effect): string {
    match e
    case Park => "PARK"
    case Caution => "CAUTION"
    case DoNotPark => "DO_NOT_PARK"
  }

  function WriteWindow(w: Window): StoredWindow {
    StoredWindow(PrintTime(w.startsAt), PrintTime(w.endsAt))
  }

  function WriteUntil(until: Option<DateTime>): Option<string> {
    match until
    case None => None
    case Some(t) => Some(PrintDateTime(t))
  }

  function WriteDates(dates: seq<Date>): seq<string> {
    Map((d: Date) => PrintDate(d), dates)
  }

  function WriteWindows(windows: seq<Window>): seq<StoredWindow> {
    Map((w: Window) => WriteWindow(w), windows)
  }

  function WriteRule(r: Rule): StoredRule {
    StoredRule(
      r.ruleId,
      EffectName(r.effect),
      r.weekdays,
      WriteWindow(r.window),
      r.timezone,
      PrintDateTime(r.validFrom),
      WriteUntil(r.validUntil),
      WriteDates(r.exceptionDates),
      WriteWindows(r.notApplicable),
      r.specialRestrictions)
  }

  // ------------------------------------------------------------------ reading

  function ReadEffect(s: string): Option<Effect> {
    if s == "PARK" then Some(Park)
    else if s == "CAUTION" then Some(Caution)
    else if s == "DO_NOT_PARK" then Some(DoNotPark)
    else None
  }

  function ReadWindow(w: StoredWindow): Option<Window> {
    match (ParseTime(w.startsAt), ParseTime(w.endsAt))
    case (Some(s), Some(e)) => Some(Window(s, e))
    case _ => None
  }

  function ReadTimestamp(s: string): Option<DateTime> {
    ParseDateTime(ReplaceZulu(s))
  }

  /** A missing or empty end of validity is no end; the outer option is failure. */
  function ReadUntil(s: Option<string>): Option<Option<DateTime>> {
    if s.None? || s.value == "" then Some(None)
    else match ReadTimestamp(s.value)
      case None => None
      case Some(t) => Some(Some(t))
  }

  function ReadDates(dates: seq<string>): Option<seq<Date>> {
    ReadAll((s: string) => ParseDate(s), dates)
  }

  function ReadWindows(windows: seq<StoredWindow>): Option<seq<Window>> {
    ReadAll((w: StoredWindow) => ReadWindow(w), windows)
  }

  /** The reader of the parking service. */
  function ReadRule(s: StoredRule): Option<Rule> {
    match (ReadEffect(s.effect), ReadWindow(s.window), ReadTimestamp(s.validFrom), ReadUntil(s.validUntil),
           ReadDates(s.exceptionDates), ReadWindows(s.notApplicable))
    case (Some(effect), Some(window), Some(from), Some(until), Some(dates), Some(windows)) =>
      Some(Rule(s.ruleId, effect, s.weekdays, window, s.timezone, from, until, dates, windows, s.specialRestrictions))
    case _ => None
  }

  /** The connector also demands weekdays, all of them days of the week, and aware validity bounds. */
  function ConnectorRule(s: StoredRule): Option<Rule> {
    match ReadRule(s)
    case None => None
    case Some(r) =>
      if r.weekdays == [] || (exists day :: day in r.weekdays && !(0 <= day < 7))
         || r.validFrom.time.offset.None?
         || (r.validUntil.Some? && r.validUntil.value.time.offset.None?)
      then None
      else Some(r)
  }

  /** The reader the importer carries, which reads no exempt windows. */
  function ReadRuleWithoutExemptions(s: StoredRule): Option<Rule> {
    match ReadRule(s.(notApplicable := []))
    case None => None
    case Some(r) => Some(r)
  }

  // -------------------------------------------------------------- round trips

  lemma {:induction false} ReadAllInverts<A, B>(write: A -> B, read: B -> Option<A>, xs: seq<A>)
    requires forall x :: x in xs ==> read(write(x)) == Some(x)
    ensures ReadAll(read, Map(write, xs)) == Some(xs)
  {
    if xs != [] {
      ReadAllInverts(write, read, xs[1..]);
      assert Map(write, xs)[1..] == Map(write, xs[1..]);
      assert xs == [xs[0]] + xs[1..];
    }
  }

  lemma WindowRoundTrip(w: Window)
    ensures ReadWindow(WriteWindow(w)) == Some(w)
  {
    TimeRoundTrip(w.startsAt);
    TimeRoundTrip(w.endsAt);
  }

  lemma WindowsRoundTrip(windows: seq<Window>)
    ensures ReadWindows(WriteWindows(windows)) == Some(windows)
  {
    var write, read := (w: Window) => WriteWindow(w), (w: StoredWindow) => ReadWindow(w);
    forall w | w in windows ensures read(write(w)) == Some(w) {
      WindowRoundTrip(w);
    }
    ReadAllInverts(write, read, windows);
  }

  lemma DatesRoundTrip(dates: seq<Date>)
    ensures ReadDates(WriteDates(dates)) == Some(dates)
  {
    var write, read := (d: Date) => PrintDate(d), (s: string) => ParseDate(s);
    forall d | d in dates ensures read(write(d)) == Some(d) {
      DateRoundTrip(d);
    }
    ReadAllInverts(write, read, dates);
  }

  lemma TimestampRoundTrip(t: DateTime)
    ensures PrintDateTime(t) != "" && ReadTimestamp(PrintDateTime(t)) == Some(t)
  {
    DateTimeAlphabet(t);
    ReplaceZuluIdle(PrintDateTime(t));
    DateTimeRoundTrip(t);
  }

  lemma UntilRoundTrip(until: Option<DateTime>)
    ensures ReadUntil(WriteUntil(until)) == Some(until)
  {
    if until.Some? {
      TimestampRoundTrip(until.value);
    }
  }

  /** The three names of effects, and no other text, are read as effects. */
  lemma EffectNames(s: string)
    ensures ReadEffect("PARK") == Some(Park)
    ensures ReadEffect("CAUTION") == Some(Caution)
    ensures ReadEffect("DO_NOT_PARK") == Some(DoNotPark)
    ensures ReadEffect(s).None? <==> s !in {"PARK", "CAUTION", "DO_NOT_PARK"}
  {
  }

  const MORNING := RawTime(8, 5, 30, 0, None)

  const SAMPLE_DAY := DateTime(RawDate(2024, 2, 9), RawTime(8, 5, 30, 1500, Some(-19_800_000_000)))

  function SampleRule(): Rule {
    Rule("rule-1", DoNotPark, [0, 4], Window(MORNING, RawTime(0, 0, 0, 0, None)), "Europe/Berlin", SAMPLE_DAY, None,
         [RawDate(2024, 2, 9)], [], ["towing"])
  }

  lemma WindowSample()
    ensures WriteWindow(Window(MORNING, RawTime(0, 0, 0, 0, None))) == StoredWindow("08:05:30", "00:00:00")
  {
    ClockSamples();
    assert PrintClock(RawTime(0, 0, 0, 0, None)) == "00:00:00";
  }

  lemma DatesSample()
    ensures WriteDates([RawDate(2024, 2, 9)]) == ["2024-02-09"]
  {
    DateSample();
    assert |WriteDates([RawDate(2024, 2, 9)])| == 1;
  }

  lemma PlainFieldsSample(r: Rule, s: StoredRule)
    requires r == SampleRule() && s == WriteRule(r)
    ensures s.ruleId == "rule-1" && s.effect == "DO_NOT_PARK" && s.weekdays == [0, 4]
    ensures s.timezone == "Europe/Berlin" && s.validUntil == None
    ensures s.notApplicable == [] && s.specialRestrictions == ["towing"]
  {
  }

  lemma TimeFieldsSample(r: Rule, s: StoredRule)
    requires r == SampleRule() && s == WriteRule(r)
    ensures s.window == StoredWindow("08:05:30", "00:00:00") && s.exceptionDates == ["2024-02-09"]
    ensures s.validFrom == "2024-02-09" + "T" + ("08:05:30.001500" + "-05:30")
  {
    WindowSample();
    DatesSample();
    PrintSample();
  }

  /** What one rule looks like in storage, field by field. */
  lemma StoredSample()
    ensures WriteRule(SampleRule()) ==
              StoredRule("rule-1", "DO_NOT_PARK", [0, 4], StoredWindow("08:05:30", "00:00:00"), "Europe/Berlin",
                         "2024-02-09" + "T" + ("08:05:30.001500" + "-05:30"), None, ["2024-02-09"], [], ["towing"])
  {
    PlainFieldsSample(SampleRule(), WriteRule(SampleRule()));
    TimeFieldsSample(SampleRule(), WriteRule(SampleRule()));
  }

  /** A stored rule whose fields read as the fields of `r` reads as `r`. */
  lemma ReadFieldwise(s: StoredRule, r: Rule)
    requires s.ruleId == r.ruleId && s.weekdays == r.weekdays && s.timezone == r.timezone
    requires s.specialRestrictions == r.specialRestrictions
    requires ReadEffect(s.effect) == Some(r.effect)
    requires ReadWindow(s.window) == Some(r.window)
    requires ReadTimestamp(s.validFrom) == Some(r.validFrom)
    requires ReadUntil(s.validUntil) == Some(r.validUntil)
    requires ReadDates(s.exceptionDates) == Some(r.exceptionDates)
    requires ReadWindows(s.notApplicable) == Some(r.notApplicable)
    ensures ReadRule(s) == Some(r)
  {
  }

  lemma TimestampFieldsReadBack(s: StoredRule, r: Rule)
    requires s == WriteRule(r)
    ensures ReadTimestamp(s.validFrom) == Some(r.validFrom)
    ensures ReadUntil(s.validUntil) == Some(r.validUntil)
  {
    TimestampRoundTrip(r.validFrom);
    UntilRoundTrip(r.validUntil);
  }

  lemma WindowFieldsReadBack(s: StoredRule, r: Rule)
    requires s == WriteRule(r)
    ensures ReadWindow(s.window) == Some(r.window)
    ensures ReadWindows(s.notApplicable) == Some(r.notApplicable)
  {
    WindowRoundTrip(r.window);
    WindowsRoundTrip(r.notApplicable);
  }

  lemma DatesFieldReadsBack(s: StoredRule, r: Rule)
    requires s == WriteRule(r)
    ensures ReadDates(s.exceptionDates) == Some(r.exceptionDates)
  {
    DatesRoundTrip(r.exceptionDates);
  }

  lemma EffectReadsBack(e: Effect)
    ensures ReadEffect(EffectName(e)) == Some(e)
  {
  }

  lemma OtherFieldsReadBack(s: StoredRule, r: Rule)
    requires s == WriteRule(r)
    ensures s.ruleId == r.ruleId && s.weekdays == r.weekdays && s.timezone == r.timezone
    ensures s.specialRestrictions == r.specialRestrictions
    ensures ReadEffect(s.effect) == Some(r.effect)
  {
    EffectReadsBack(r.effect);
  }

  /** Every rule reads back from storage as it was written. */
  lemma RuleRoundTrip(r: Rule)
    ensures ReadRule(WriteRule(r)) == Some(r)
  {
    var s := WriteRule(r);
    TimestampFieldsReadBack(s, r);
    WindowFieldsReadBack(s, r);
    DatesFieldReadsBack(s, r);
    OtherFieldsReadBack(s, r);
    ReadFieldwise(s, r);
  }

  /** A schedule the connector read from a feed reads back rule by rule, so the service decides on the feed's rules. */
  lemma ScheduleRoundTrip(feed: seq<StoredRule>, rules: seq<Rule>)
    requires ReadAll((s: StoredRule) => ConnectorRule(s), feed) == Some(rules)
    ensures ReadAll((s: StoredRule) => ReadRule(s), Map((r: Rule) => WriteRule(r), rules)) == Some(rules)
  {
    var write, read := (r: Rule) => WriteRule(r), (s: StoredRule) => ReadRule(s);
    forall r | r in rules ensures read(write(r)) == Some(r) {
      RuleRoundTrip(r);
    }
    ReadAllInverts(write, read, rules);
  }

  /** Writing is canonical: what has been read once is written and read without further change. */
  lemma StoredFormIsCanonical(s: StoredRule)
    requires ReadRule(s).Some?
    ensures ReadRule(WriteRule(ReadRule(s).value)) == ReadRule(s)
  {
    RuleRoundTrip(ReadRule(s).value);
  }

  /** The importer's own reader gives a rule back exactly when the rule has no exempt windows. */
  lemma ImporterReaderDropsExemptions(r: Rule)
    ensures ReadRuleWithoutExemptions(WriteRule(r)) == Some(r) <==> r.notApplicable == []
    ensures ReadRuleWithoutExemptions(WriteRule(r)) == Some(r.(notApplicable := []))
  {
    var bare := r.(notApplicable := []);
    RuleRoundTrip(bare);
    assert WriteRule(bare) == WriteRule(r).(notApplicable := []);
  }

  /** A rule the connector accepts can be incomplete for the service in four ways only. */
  lemma ConnectorRulesAreIncompleteOnlyIf(s: StoredRule)
    requires ConnectorRule(s).Some?
    ensures var r := ConnectorRule(s).value;
            IsIncomplete(r) <==>
              || r.ruleId == ""
              || SameTime(r.window.startsAt, r.window.endsAt)
              || r.validUntil.None?
              || Instant(r.validUntil.value) <= Instant(r.validFrom)
  {
  }

  /** What the connector demands of a rule beyond being readable. */
  predicate IsAcceptable(r: Rule) {
    && r.weekdays != [] && (forall day :: day in r.weekdays ==> 0 <= day < 7)
    && r.validFrom.time.offset.Some?
    && (r.validUntil.Some? ==> r.validUntil.value.time.offset.Some?)
  }

  lemma AcceptedAsWritten(r: Rule)
    requires IsAcceptable(r)
    ensures ConnectorRule(WriteRule(r)) == Some(r)
  {
    RuleRoundTrip(r);
  }

  function Noon(offset: Option<int>): Time
    requires offset.Some? ==> IsOffset(offset.value)
  {
    RawTime(12, 0, 0, 0, offset)
  }

  function NoonOn(day: nat): DateTime
    requires 1 <= day <= 31
  {
    DateTime(RawDate(2024, 1, day), Noon(Some(0)))
  }

  /** A rule of one day whose window starts at an aware time. */
  function RaisingRule(): Rule {
    Rule("rule", Park, [0, 1, 2, 3, 4, 5, 6], Window(Noon(Some(0)), RawTime(13, 0, 0, 0, None)), "UTC",
         NoonOn(1), Some(NoonOn(2)), [], [], [])
  }

  lemma RaisingRuleIsComplete()
    ensures !IsIncomplete(RaisingRule()) && Instant(NoonOn(1)) < Instant(NoonOn(2))
  {
    assert Instant(NoonOn(2)) == Instant(NoonOn(1)) + MICROS_PER_DAY;
  }

  /** A rule that the connector accepts can raise in the service while valid: its window starts at an aware time. */
  lemma AcceptedRuleCanRaise(zones: ZoneTable)
    requires var local := zones("UTC", Instant(NoonOn(1))); local.Local? && 0 <= local.weekday < 7
    ensures ConnectorRule(WriteRule(RaisingRule())) == Some(RaisingRule())
    ensures StatusOf(zones, RaisingRule(), Instant(NoonOn(1))).Raises?
  {
    AcceptedAsWritten(RaisingRule());
    RaisingRuleRaises(zones, RaisingRule(), Instant(NoonOn(1)));
  }

  lemma RaisingRuleRaises(zones: ZoneTable, r: Rule, now: int)
    requires r == RaisingRule() && now == Instant(NoonOn(1))
    requires var local := zones("UTC", now); local.Local? && 0 <= local.weekday < 7
    ensures StatusOf(zones, r, now).Raises?
  {
    RaisingRuleIsComplete();
    var weekday := zones("UTC", now).weekday;
    assert weekday in r.weekdays by {
      assert r.weekdays[weekday] == weekday;
    }
  }

  /** A rule without an end of validity. */
  function OpenEndedRule(): Rule {
    RaisingRule().(validUntil := None)
  }

  /** The connector accepts two rules that, in one schedule, decide by their order between an error and a verdict. */
  lemma AcceptedScheduleDependsOnOrder(zones: ZoneTable)
    requires var local := zones("UTC", Instant(NoonOn(1))); local.Local? && 0 <= local.weekday < 7
    ensures ConnectorRule(WriteRule(RaisingRule())) == Some(RaisingRule())
    ensures ConnectorRule(WriteRule(OpenEndedRule())) == Some(OpenEndedRule())
    ensures OrderMatters(JudgeAt(zones, Instant(NoonOn(1))), [RaisingRule(), OpenEndedRule()])
  {
    BothAreAccepted(RaisingRule(), OpenEndedRule());
    RaisesAndStops(zones, RaisingRule(), OpenEndedRule(), Instant(NoonOn(1)));
  }

  lemma BothAreAccepted(raising: Rule, openEnded: Rule)
    requires raising == RaisingRule() && openEnded == OpenEndedRule()
    ensures ConnectorRule(WriteRule(raising)) == Some(raising)
    ensures ConnectorRule(WriteRule(openEnded)) == Some(openEnded)
  {
    AcceptedAsWritten(raising);
    AcceptedAsWritten(openEnded);
  }

  lemma RaisesAndStops(zones: ZoneTable, raising: Rule, openEnded: Rule, now: int)
    requires raising == RaisingRule() && openEnded == OpenEndedRule() && now == Instant(NoonOn(1))
    requires var local := zones("UTC", now); local.Local? && 0 <= local.weekday < 7
    ensures OrderMatters(JudgeAt(zones, now), [raising, openEnded])
  {
    RaisingRuleRaises(zones, raising, now);
    assert StatusOf(zones, openEnded, now) == Incomplete;
    var rules := [raising, openEnded];
    OrderMattersWhenRaising(JudgeAt(zones, now), rules, 0, 1);
  }
}
