/** The authoritative decision over a zone's temporal schedule and its evidence. */
module ParkingDecision {
  import opened Wrappers
  import opened Timestamps
  import opened ParkingRules

  /** The schedule's say: a deciding rule, no say, no reliable answer, or an uncaught exception. */
  datatype Verdict =
    | Decided(effect: Effect, ruleId: string)
    | NoSchedule
    | Indeterminate
    | Raised

  function Priority(e: Effect): nat {
    match e
    case Park => 0
    case Caution => 1
    case DoNotPark => 2
  }

  /** How the rules stand at the evaluated instant. */
  type Judge = Rule -> Status

  function JudgeAt(zones: ZoneTable, now: int): Judge {
    (r: Rule) => StatusOf(zones, r, now)
  }

  predicate IsWellFormed(status: Status) {
    status.Active? || status.Inactive?
  }

  predicate IsMalformed(status: Status) {
    status.Unverifiable? || status.Incomplete?
  }

  /** The first rule that is neither active nor inactive stands at `i`. */
  predicate StopsAt(judge: Judge, rules: seq<Rule>, i: nat)
    requires i < |rules|
  {
    && !IsWellFormed(judge(rules[i]))
    && forall j: nat :: j < i ==> IsWellFormed(judge(rules[j]))
  }

  predicate AllWellFormed(judge: Judge, rules: seq<Rule>) {
    forall r :: r in rules ==> IsWellFormed(judge(r))
  }

  /** The active rules, in schedule order. */
  function ActiveOf(judge: Judge, rules: seq<Rule>): (active: seq<Rule>)
    ensures forall r :: r in active <==> r in rules && judge(r).Active?
  {
    if rules == [] then []
    else
      var last := |rules| - 1;
      assert rules == rules[..last] + [rules[last]];
      ActiveOf(judge, rules[..last]) + if judge(rules[last]).Active? then [rules[last]] else []
  }

  /** No rule is more restrictive than rule `k`, and none before it is as restrictive. */
  predicate Prevails(active: seq<Rule>, k: nat)
    requires k < |active|
  {
    && (forall m: nat :: m < |active| ==> Priority(active[m].effect) <= Priority(active[k].effect))
    && (forall m: nat :: m < k ==> Priority(active[m].effect) < Priority(active[k].effect))
  }

  predicate SomeActive(judge: Judge, rules: seq<Rule>, effect: Effect) {
    exists r :: r in rules && judge(r).Active? && r.effect == effect
  }

  /** Some active rule has the effect and none a stricter one: bans come before cautions, and these before permits. */
  predicate IsStrictest(judge: Judge, rules: seq<Rule>, effect: Effect) {
    && SomeActive(judge, rules, effect)
    && (effect != DoNotPark ==> !SomeActive(judge, rules, DoNotPark))
    && (effect == Park ==> !SomeActive(judge, rules, Caution))
  }

  /** Rule `k` is the first active one with its effect. */
  predicate IsFirstOf(judge: Judge, rules: seq<Rule>, k: nat, effect: Effect) {
    && k < |rules| && judge(rules[k]).Active? && rules[k].effect == effect
    && forall m: nat :: m < k ==> !(judge(rules[m]).Active? && rules[m].effect == effect)
  }

  /** What each verdict on a non-empty schedule says about its rules. */
  ghost predicate Means(judge: Judge, rules: seq<Rule>, v: Verdict) {
    match v
    case NoSchedule => false
    case Raised => exists i: nat :: i < |rules| && StopsAt(judge, rules, i)
                                    && judge(rules[i]).Raises?
    case Indeterminate =>
      || (exists i: nat :: i < |rules| && StopsAt(judge, rules, i)
                           && IsMalformed(judge(rules[i])))
      || (forall r :: r in rules ==> judge(r).Inactive?)
    case Decided(effect, ruleId) =>
      && AllWellFormed(judge, rules) && IsStrictest(judge, rules, effect)
      && exists k: nat :: IsFirstOf(judge, rules, k, effect) && rules[k].ruleId == ruleId
  }

  /** `max` by priority: the first of the most restrictive rules. */
  method MostRestrictive(active: seq<Rule>) returns (best: nat)
    requires active != []
    ensures best < |active| && Prevails(active, best)
    ensures forall r :: r in active && r.effect == DoNotPark ==> active[best].effect == DoNotPark
    ensures forall r :: r in active && r.effect == Caution ==> active[best].effect != Park
    ensures forall m: nat :: m < best ==> active[m].effect != active[best].effect
  {
    best := 0;
    for n := 1 to |active|
      invariant best < n
      invariant forall m: nat :: m < n ==> Priority(active[m].effect) <= Priority(active[best].effect)
      invariant forall m: nat :: m < best ==> Priority(active[m].effect) < Priority(active[best].effect)
    {
      if Priority(active[n].effect) > Priority(active[best].effect) {
        best := n;
      }
    }
  }

  lemma FirstOf(judge: Judge, rules: seq<Rule>, effect: Effect) returns (k: nat)
    requires SomeActive(judge, rules, effect)
    ensures IsFirstOf(judge, rules, k, effect)
  {
    var r :| r in rules && judge(r).Active? && r.effect == effect;
    var i: nat :| i < |rules| && rules[i] == r;
    k := 0;
    while !(judge(rules[k]).Active? && rules[k].effect == effect)
      invariant k <= i
      invariant forall m: nat :: m < k ==> !(judge(rules[m]).Active? && rules[m].effect == effect)
      decreases i - k
    {
      k := k + 1;
    }
  }

  /** The first active rule with an effect is the same among all rules and among the active ones. */
  lemma {:induction false} FirstAmongActive(judge: Judge, rules: seq<Rule>, k: nat, n: nat, effect: Effect)
    requires IsFirstOf(judge, rules, k, effect)
    requires n < |ActiveOf(judge, rules)| && ActiveOf(judge, rules)[n].effect == effect
    requires forall m: nat :: m < n ==> ActiveOf(judge, rules)[m].effect != effect
    ensures ActiveOf(judge, rules)[n] == rules[k]
  {
    var last := |rules| - 1;
    var front := rules[..last];
    var active := ActiveOf(judge, front);
    assert active <= ActiveOf(judge, rules);
    if k < last {
      ActiveIsCollected(judge, front, k);
    }
    if n < |active| {
      assert active[n] in active;
      var i: nat :| i < last && front[i] == active[n];
      FirstInFront(judge, rules, k, i, effect);
      FirstAmongActive(judge, front, k, n, effect);
    }
  }

  lemma ActiveIsCollected(judge: Judge, rules: seq<Rule>, k: nat)
    requires k < |rules| && judge(rules[k]).Active?
    ensures exists m: nat :: m < |ActiveOf(judge, rules)| && ActiveOf(judge, rules)[m] == rules[k]
  {
    assert rules[k] in ActiveOf(judge, rules);
  }

  lemma FirstInFront(judge: Judge, rules: seq<Rule>, k: nat, i: nat, effect: Effect)
    requires IsFirstOf(judge, rules, k, effect)
    requires i < |rules| - 1 && judge(rules[i]).Active? && rules[i].effect == effect
    ensures IsFirstOf(judge, rules[..|rules| - 1], k, effect)
  {
  }

  /** The most restrictive of the active rules decides. */
  lemma PrevailingDecides(judge: Judge, rules: seq<Rule>, best: nat)
    requires AllWellFormed(judge, rules)
    requires best < |ActiveOf(judge, rules)| && Prevails(ActiveOf(judge, rules), best)
    ensures var r := ActiveOf(judge, rules)[best];
            Means(judge, rules, Decided(r.effect, r.ruleId))
  {
    var active := ActiveOf(judge, rules);
    var r := active[best];
    assert r in active;
    forall other | other in rules && judge(other).Active? ensures Priority(other.effect) <= Priority(r.effect) {
      assert other in active;
      var j: nat :| j < |active| && active[j] == other;
    }
    var k := FirstOf(judge, rules, r.effect);
    FirstAmongActive(judge, rules, k, best, r.effect);
  }

  method TemporalDecision(zones: ZoneTable, required: bool, rules: seq<Rule>, now: int) returns (v: Verdict)
    ensures v.NoSchedule? <==> !required && rules == []
    ensures rules == [] && required ==> v.Indeterminate?
    ensures rules != [] ==> Means(JudgeAt(zones, now), rules, v)
  {
    if !required && rules == [] {
      return NoSchedule;
    }
    if rules == [] {
      return Indeterminate;
    }
    v := EvaluateRules(JudgeAt(zones, now), rules);
  }

  method EvaluateRules(judge: Judge, rules: seq<Rule>) returns (v: Verdict)
    requires rules != []
    ensures Means(judge, rules, v)
  {
    var active := [];
    for i := 0 to |rules|
      invariant forall j: nat :: j < i ==> IsWellFormed(judge(rules[j]))
      invariant active == ActiveOf(judge, rules[..i])
    {
      var status := judge(rules[i]);
      if status.Raises? {
        assert StopsAt(judge, rules, i);
        return Raised;
      }
      if IsMalformed(status) {
        assert StopsAt(judge, rules, i);
        return Indeterminate;
      }
      assert rules[..i + 1][..i] == rules[..i];
      if status.Active? {
        active := active + [rules[i]];
      }
    }
    assert rules[..|rules|] == rules;
    if active == [] {
      forall r | r in rules ensures judge(r).Inactive? {
        assert r !in ActiveOf(judge, rules);
      }
      return Indeterminate;
    }
    var best := MostRestrictive(active);
    PrevailingDecides(judge, rules, best);
    v := Decided(active[best].effect, active[best].ruleId);
  }

  // ------------------------------------------------------------- main results

  /** The outcome without the identifier of the deciding rule. */
  function OutcomeOf(v: Verdict): Verdict {
    if v.Decided? then v.(ruleId := "") else v
  }

  /** The first rule that is neither active nor inactive raises. */
  ghost predicate RaisesFirst(judge: Judge, rules: seq<Rule>) {
    exists i: nat :: i < |rules| && StopsAt(judge, rules, i) && judge(rules[i]).Raises?
  }

  predicate SomeRaises(judge: Judge, rules: seq<Rule>) {
    exists r :: r in rules && judge(r).Raises?
  }

  predicate SomeIsMalformed(judge: Judge, rules: seq<Rule>) {
    exists r :: r in rules && IsMalformed(judge(r))
  }

  predicate NoneIsActive(judge: Judge, rules: seq<Rule>) {
    forall r :: r in rules ==> !judge(r).Active?
  }

  lemma StopsOnce(judge: Judge, rules: seq<Rule>, i: nat, k: nat)
    requires i < |rules| && k < |rules| && StopsAt(judge, rules, i) && StopsAt(judge, rules, k)
    ensures i == k
  {
  }

  /**
   A non-empty schedule raises exactly when a raising rule comes before any
   malformed one. Otherwise it is indeterminate exactly when some rule is
   malformed or none is active. Else it is a ban exactly when an active rule bans,
   a caution exactly when none bans and one cautions, and a permit exactly when all
   active rules permit.
   */
  lemma ScheduleMeaning(judge: Judge, rules: seq<Rule>, v: Verdict)
    requires rules != [] && Means(judge, rules, v)
    ensures v.Raised? <==> RaisesFirst(judge, rules)
    ensures !RaisesFirst(judge, rules) ==>
              (v.Indeterminate? <==> SomeIsMalformed(judge, rules) || NoneIsActive(judge, rules))
    ensures v.Decided? ==>
              && (v.effect == DoNotPark <==> exists r :: r in rules && judge(r).Active? && r.effect == DoNotPark)
              && (v.effect == Caution <==>
                    && (forall r :: r in rules && judge(r).Active? ==> r.effect != DoNotPark)
                    && (exists r :: r in rules && judge(r).Active? && r.effect == Caution))
              && (v.effect == Park <==> forall r :: r in rules && judge(r).Active? ==> r.effect == Park)
  {
    match v
    case Raised =>
    case Indeterminate =>
      if i: nat :| i < |rules| && StopsAt(judge, rules, i) && IsMalformed(judge(rules[i])) {
        assert rules[i] in rules;
        forall k: nat | k < |rules| && StopsAt(judge, rules, k) ensures !judge(rules[k]).Raises? {
          StopsOnce(judge, rules, i, k);
        }
      }
    case Decided(effect, ruleId) =>
      forall r | r in rules && judge(r).Active? ensures SomeActive(judge, rules, r.effect) {}
    case NoSchedule =>
  }

  /** The same rules, inactive ones aside, in whatever order and number. */
  ghost predicate SaySame(judge: Judge, rules: seq<Rule>, others: seq<Rule>) {
    forall r :: !judge(r).Inactive? ==> (r in rules <==> r in others)
  }

  lemma FirstStop(judge: Judge, rules: seq<Rule>, i: nat) returns (k: nat)
    requires i < |rules| && !IsWellFormed(judge(rules[i]))
    ensures k <= i && StopsAt(judge, rules, k)
  {
    k := 0;
    while IsWellFormed(judge(rules[k]))
      invariant k <= i
      invariant forall j: nat :: j < k ==> IsWellFormed(judge(rules[j]))
      decreases i - k
    {
      k := k + 1;
    }
  }

  /** Without a malformed rule, a schedule raises as soon as one of its rules does. */
  lemma RaisesIfNoneIsMalformed(judge: Judge, rules: seq<Rule>)
    requires !SomeIsMalformed(judge, rules)
    ensures RaisesFirst(judge, rules) <==> SomeRaises(judge, rules)
  {
    if SomeRaises(judge, rules) {
      var r :| r in rules && judge(r).Raises?;
      var i: nat :| i < |rules| && rules[i] == r;
      var k := FirstStop(judge, rules, i);
      assert rules[k] in rules;
    }
  }

  /** Where no rule raises, or none is malformed, neither order nor inactive rules matter. */
  lemma OutcomeIgnoresOrderAndIdleRules(
      judge: Judge, rules: seq<Rule>, others: seq<Rule>, v: Verdict, w: Verdict)
    requires rules != [] && Means(judge, rules, v) && others != [] && Means(judge, others, w)
    requires SaySame(judge, rules, others)
    requires !SomeRaises(judge, rules) || !SomeIsMalformed(judge, rules)
    ensures OutcomeOf(v) == OutcomeOf(w)
  {
    ScheduleMeaning(judge, rules, v);
    ScheduleMeaning(judge, others, w);
    SameStops(judge, rules, others);
    SameSays(judge, rules, others);
    if v.Decided? && w.Decided? {
      SameStrictest(judge, rules, others, v.effect, w.effect);
    }
  }

  lemma SameSays(judge: Judge, rules: seq<Rule>, others: seq<Rule>)
    requires SaySame(judge, rules, others)
    ensures SomeIsMalformed(judge, rules) <==> SomeIsMalformed(judge, others)
    ensures NoneIsActive(judge, rules) <==> NoneIsActive(judge, others)
  {
  }

  lemma SameStrictest(judge: Judge, rules: seq<Rule>, others: seq<Rule>, effect: Effect, other: Effect)
    requires SaySame(judge, rules, others)
    requires IsStrictest(judge, rules, effect) && IsStrictest(judge, others, other)
    ensures effect == other
  {
    forall e ensures SomeActive(judge, rules, e) <==> SomeActive(judge, others, e) {}
  }

  lemma SameStops(judge: Judge, rules: seq<Rule>, others: seq<Rule>)
    requires SaySame(judge, rules, others) && (!SomeRaises(judge, rules) || !SomeIsMalformed(judge, rules))
    ensures RaisesFirst(judge, rules) <==> RaisesFirst(judge, others)
  {
    assert SomeRaises(judge, rules) <==> SomeRaises(judge, others);
    assert SomeIsMalformed(judge, rules) <==> SomeIsMalformed(judge, others);
    if !SomeIsMalformed(judge, rules) {
      RaisesIfNoneIsMalformed(judge, rules);
      RaisesIfNoneIsMalformed(judge, others);
    }
  }

  function ToFront(rules: seq<Rule>, i: nat): seq<Rule>
    requires i < |rules|
  {
    [rules[i]] + rules[..i] + rules[i + 1..]
  }

  lemma ToFrontReorders(rules: seq<Rule>, i: nat)
    requires i < |rules|
    ensures multiset(ToFront(rules, i)) == multiset(rules)
  {
    assert rules == rules[..i] + [rules[i]] + rules[i + 1..];
  }

  /** The rule at the front stops the schedule. */
  lemma FrontDecides(judge: Judge, rules: seq<Rule>, v: Verdict)
    requires rules != [] && Means(judge, rules, v) && !IsWellFormed(judge(rules[0]))
    ensures v == if judge(rules[0]).Raises? then Raised else Indeterminate
  {
    assert StopsAt(judge, rules, 0);
    forall k: nat | k < |rules| && StopsAt(judge, rules, k) ensures k == 0 {
      StopsOnce(judge, rules, 0, k);
    }
    assert rules[0] in rules;
  }

  /** A schedule with a rule that is neither active nor inactive has a verdict. */
  lemma StoppedSchedule(judge: Judge, rules: seq<Rule>, i: nat) returns (v: Verdict)
    requires i < |rules| && !IsWellFormed(judge(rules[i]))
    ensures Means(judge, rules, v) && (v.Raised? || v.Indeterminate?)
  {
    var k := FirstStop(judge, rules, i);
    v := if judge(rules[k]).Raises? then Raised else Indeterminate;
  }

  /** Some reordering of the schedule has another outcome. */
  ghost predicate OrderMatters(judge: Judge, rules: seq<Rule>) {
    exists others, v, w :: multiset(others) == multiset(rules) && Differ(judge, rules, others, v, w)
  }

  ghost predicate Differ(judge: Judge, rules: seq<Rule>, others: seq<Rule>, v: Verdict, w: Verdict) {
    Means(judge, rules, v) && Means(judge, others, w) && OutcomeOf(v) != OutcomeOf(w)
  }

  /** The order of a schedule matters exactly when it holds a raising rule and a malformed one. */
  lemma OrderMattersIff(judge: Judge, rules: seq<Rule>)
    requires rules != []
    ensures OrderMatters(judge, rules) <==> SomeRaises(judge, rules) && SomeIsMalformed(judge, rules)
  {
    if SomeRaises(judge, rules) && SomeIsMalformed(judge, rules) {
      var r :| r in rules && judge(r).Raises?;
      var m :| m in rules && IsMalformed(judge(m));
      var i: nat :| i < |rules| && rules[i] == r;
      var j: nat :| j < |rules| && rules[j] == m;
      OrderMattersWhenRaising(judge, rules, i, j);
    }
    forall others, v, w | multiset(others) == multiset(rules) && Differ(judge, rules, others, v, w)
      ensures SomeRaises(judge, rules) && SomeIsMalformed(judge, rules)
    {
      SameMultisetSaysSame(judge, rules, others);
      if !SomeRaises(judge, rules) || !SomeIsMalformed(judge, rules) {
        OutcomeIgnoresOrderAndIdleRules(judge, rules, others, v, w);
      }
    }
  }

  lemma SameMultisetSaysSame(judge: Judge, rules: seq<Rule>, others: seq<Rule>)
    requires rules != [] && multiset(others) == multiset(rules)
    ensures others != [] && SaySame(judge, rules, others)
  {
    SameMembers(rules, others);
    assert rules[0] in others;
  }

  /** With the raising rule first the schedule raises, with the malformed one first it is indeterminate. */
  lemma OrderMattersWhenRaising(judge: Judge, rules: seq<Rule>, i: nat, j: nat)
    requires i < |rules| && judge(rules[i]).Raises? && j < |rules| && IsMalformed(judge(rules[j]))
    ensures forall v :: Means(judge, ToFront(rules, i), v) <==> v == Raised
    ensures forall v :: Means(judge, ToFront(rules, j), v) <==> v == Indeterminate
    ensures OrderMatters(judge, rules)
  {
    var first, second := ToFront(rules, i), ToFront(rules, j);
    var v := StoppedSchedule(judge, first, 0);
    FrontDecides(judge, first, v);
    var w := StoppedSchedule(judge, second, 0);
    FrontDecides(judge, second, w);
    ToFrontReorders(rules, i);
    ToFrontReorders(rules, j);
    forall other ensures Means(judge, first, other) ==> other == Raised {
      if Means(judge, first, other) { FrontDecides(judge, first, other); }
    }
    forall other ensures Means(judge, second, other) ==> other == Indeterminate {
      if Means(judge, second, other) { FrontDecides(judge, second, other); }
    }
    var u := StoppedSchedule(judge, rules, i);
    assert Differ(judge, rules, first, u, v) || Differ(judge, rules, second, u, w);
  }

  // ------------------------------------------------------- the deciding rule

  /** An active rule than which no active rule is stricter. */
  predicate IsTop(judge: Judge, rules: seq<Rule>, r: Rule) {
    r in rules && judge(r).Active? && IsStrictest(judge, rules, r.effect)
  }

  /** Two of the strictest active rules of a schedule without stops carry different identifiers. */
  ghost predicate HasRivals(judge: Judge, rules: seq<Rule>) {
    AllWellFormed(judge, rules)
    && exists r, other :: IsTop(judge, rules, r) && IsTop(judge, rules, other) && r.ruleId != other.ruleId
  }

  /** Some reordering changes the verdict, be it only in the rule that decides. */
  ghost predicate OrderShows(judge: Judge, rules: seq<Rule>) {
    exists others, v, w :: multiset(others) == multiset(rules) && DifferAtAll(judge, rules, others, v, w)
  }

  ghost predicate DifferAtAll(judge: Judge, rules: seq<Rule>, others: seq<Rule>, v: Verdict, w: Verdict) {
    Means(judge, rules, v) && Means(judge, others, w) && v != w
  }

  /** In front, a strictest active rule decides. */
  lemma TopInFrontDecides(judge: Judge, rules: seq<Rule>, i: nat)
    requires i < |rules| && AllWellFormed(judge, rules) && IsTop(judge, rules, rules[i])
    ensures Means(judge, ToFront(rules, i), Decided(rules[i].effect, rules[i].ruleId))
    ensures multiset(ToFront(rules, i)) == multiset(rules)
  {
    var r, front := rules[i], ToFront(rules, i);
    ToFrontReorders(rules, i);
    SameMembers(rules, front);
    forall e ensures SomeActive(judge, rules, e) <==> SomeActive(judge, front, e) {}
    assert IsFirstOf(judge, front, 0, r.effect);
  }

  lemma SameMembers(rules: seq<Rule>, others: seq<Rule>)
    requires multiset(others) == multiset(rules)
    ensures forall r :: r in others <==> r in rules
  {
    forall r ensures r in others <==> r in rules {
      assert r in others <==> r in multiset(others);
      assert r in rules <==> r in multiset(rules);
    }
  }

  lemma DecidedByTop(judge: Judge, rules: seq<Rule>, v: Verdict) returns (r: Rule)
    requires Means(judge, rules, v) && v.Decided?
    ensures IsTop(judge, rules, r) && r.effect == v.effect && r.ruleId == v.ruleId && AllWellFormed(judge, rules)
  {
    var k: nat :| IsFirstOf(judge, rules, k, v.effect) && rules[k].ruleId == v.ruleId;
    r := rules[k];
  }

  lemma RivalsShow(judge: Judge, rules: seq<Rule>)
    requires HasRivals(judge, rules)
    ensures OrderShows(judge, rules)
  {
    var r, other :| IsTop(judge, rules, r) && IsTop(judge, rules, other) && r.ruleId != other.ruleId;
    var i: nat :| i < |rules| && rules[i] == r;
    var j: nat :| j < |rules| && rules[j] == other;
    TopInFrontDecides(judge, rules, i);
    TopInFrontDecides(judge, rules, j);
    var v := WellFormedVerdict(judge, rules, i);
    var first, second := ToFront(rules, i), ToFront(rules, j);
    assert DifferAtAll(judge, rules, first, v, Decided(r.effect, r.ruleId))
        || DifferAtAll(judge, rules, second, v, Decided(other.effect, other.ruleId));
  }

  lemma WellFormedVerdict(judge: Judge, rules: seq<Rule>, i: nat) returns (v: Verdict)
    requires i < |rules| && AllWellFormed(judge, rules) && judge(rules[i]).Active?
    ensures Means(judge, rules, v)
  {
    assert SomeActive(judge, rules, rules[i].effect);
    var effect := if SomeActive(judge, rules, DoNotPark) then DoNotPark
                  else if SomeActive(judge, rules, Caution) then Caution
                  else Park;
    var k := FirstOf(judge, rules, effect);
    v := Decided(effect, rules[k].ruleId);
  }

  /**
   The verdict with its deciding rule depends on the order exactly when the outcome
   does, or when two of the strictest active rules differ in identifier.
   */
  lemma OrderShowsIff(judge: Judge, rules: seq<Rule>)
    requires rules != []
    ensures OrderShows(judge, rules) <==> OrderMatters(judge, rules) || HasRivals(judge, rules)
  {
    if OrderMatters(judge, rules) {
      var others, v, w :| multiset(others) == multiset(rules) && Differ(judge, rules, others, v, w);
      assert DifferAtAll(judge, rules, others, v, w);
    }
    if HasRivals(judge, rules) {
      RivalsShow(judge, rules);
    }
    forall others, v, w | multiset(others) == multiset(rules) && DifferAtAll(judge, rules, others, v, w)
      ensures OrderMatters(judge, rules) || HasRivals(judge, rules)
    {
      if OutcomeOf(v) != OutcomeOf(w) {
        assert Differ(judge, rules, others, v, w);
      } else {
        SameOutcomeRivals(judge, rules, others, v, w);
      }
    }
  }

  lemma SameOutcomeRivals(judge: Judge, rules: seq<Rule>, others: seq<Rule>, v: Verdict, w: Verdict)
    requires rules != [] && multiset(others) == multiset(rules)
    requires DifferAtAll(judge, rules, others, v, w) && OutcomeOf(v) == OutcomeOf(w)
    ensures HasRivals(judge, rules)
  {
    var r := DecidedByTop(judge, rules, v);
    var other := DecidedByTop(judge, others, w);
    SameMembers(rules, others);
    assert IsTop(judge, rules, other);
  }

  // ------------------------------------------------------------------- evidence

  datatype ZoneType = General | ResidentOnly | PrivateProperty | Commercial | TowingHotspot

  datatype Zone = Zone(
    zoneType: ZoneType,
    score: int,
    official: bool,
    confidence: real,
    towingHotspot: bool,
    required: bool,
    rules: seq<Rule>)

  datatype Request = Request(
    accuracyMeters: real, locatedAt: Option<int>, consent: bool, residentPermit: bool, now: int)

  const MAXIMUM_ACCURACY := 20.0
  const MAXIMUM_LOCATION_AGE := 120 * MICROS_PER_SECOND

  function FromVerifiedZone(z: Zone, residentPermit: bool): Verdict {
    if z.zoneType.PrivateProperty? then Decided(DoNotPark, "")
    else if z.zoneType.ResidentOnly? && !residentPermit then Decided(DoNotPark, "")
    else if z.towingHotspot || z.zoneType.TowingHotspot? then Decided(DoNotPark, "")
    else Decided(if z.score >= 75 then Park else Caution, "")
  }

  /** A consented, precise and recent position. A location without an offset has no instant. */
  predicate IsUsable(q: Request) {
    && q.consent && q.accuracyMeters <= MAXIMUM_ACCURACY
    && q.locatedAt.Some?
    && -MAXIMUM_LOCATION_AGE <= q.now - q.locatedAt.value <= MAXIMUM_LOCATION_AGE
  }

  predicate IsVerified(z: Zone) {
    z.official && z.confidence >= 0.9
  }

  /** Some rule with the effect is active at the instant. */
  predicate Applies(zones: ZoneTable, rules: seq<Rule>, now: int, effect: Effect) {
    exists r :: r in rules && r.effect == effect && StatusOf(zones, r, now).Active?
  }

  /** `zone` is the current zone at the position, if there is one. */
  method Evaluate(zones: ZoneTable, zone: Option<Zone>, q: Request) returns (v: Verdict)
    ensures !v.NoSchedule?
    ensures !q.consent || q.accuracyMeters > MAXIMUM_ACCURACY || q.locatedAt.None? || zone.None? ==> v == Indeterminate
    ensures q.locatedAt.Some? && q.locatedAt.value + MAXIMUM_LOCATION_AGE < q.now ==> v == Indeterminate
    ensures q.locatedAt.Some? && q.locatedAt.value - MAXIMUM_LOCATION_AGE > q.now ==> v == Indeterminate
    ensures zone.Some? && (!zone.value.official || zone.value.confidence < 0.9) ==> v == Indeterminate
    ensures IsUsable(q) && zone.Some? && IsVerified(zone.value) && zone.value.rules != [] ==>
              Means(JudgeAt(zones, q.now), zone.value.rules, v)
    ensures IsUsable(q) && zone.Some? && IsVerified(zone.value) && zone.value.rules == [] ==>
              if zone.value.required then v == Indeterminate else v.Decided?
    ensures v.Decided? && zone.value.rules == [] ==>
              var z := zone.value;
              var banned := z.zoneType.PrivateProperty? || z.zoneType.TowingHotspot? || z.towingHotspot
                            || (z.zoneType.ResidentOnly? && !q.residentPermit);
              && v.ruleId == "" && !z.required
              && (v.effect == DoNotPark <==> banned)
              && (v.effect == Park <==> !banned && z.score >= 75)
    ensures v.Decided? && zone.value.rules != [] ==>
              && (v.effect == DoNotPark <==> Applies(zones, zone.value.rules, q.now, DoNotPark))
              && (v.effect == Caution <==>
                    && !Applies(zones, zone.value.rules, q.now, DoNotPark)
                    && Applies(zones, zone.value.rules, q.now, Caution))
  {
    if !q.consent {
      return Indeterminate;
    }
    if q.accuracyMeters > MAXIMUM_ACCURACY {
      return Indeterminate;
    }
    if q.locatedAt.None? || q.now - q.locatedAt.value > MAXIMUM_LOCATION_AGE
       || q.locatedAt.value - q.now > MAXIMUM_LOCATION_AGE {
      return Indeterminate;
    }
    if zone.None? {
      return Indeterminate;
    }
    if !zone.value.official || zone.value.confidence < 0.9 {
      return Indeterminate;
    }
    v := TemporalDecision(zones, zone.value.required, zone.value.rules, q.now);
    if v.NoSchedule? {
      v := FromVerifiedZone(zone.value, q.residentPermit);
    } else if zone.value.rules != [] {
      var judge := JudgeAt(zones, q.now);
      ScheduleMeaning(judge, zone.value.rules, v);
      forall e ensures Applies(zones, zone.value.rules, q.now, e) <==> SomeActive(judge, zone.value.rules, e) {}
    }
  }
}
