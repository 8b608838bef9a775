/** Recommendation ranking: a weighted score over bounded factors, and the best few by score, distance and name. */
module Ranking {
  import opened Wrappers
  import opened FeedConnectors
  import opened Sorting

  datatype Candidate = Candidate(facility: Facility, walkingMeters: real)

  datatype Recommendation = Recommendation(facility: Facility, walkingMeters: int, score: int)

  const UNKNOWN := 0.5

  function Max(a: real, b: real): real { if a >= b then a else b }

  function Min(a: real, b: real): real { if a <= b then a else b }

  function Clamp(x: real): real { Min(Max(x, 0.0), 1.0) }

  /** Rounds to the nearest integer, a tie to the even one. */
  function Round(x: real): int {
    var below := x.Floor;
    var excess := x - below as real;
    if excess < 0.5 then below
    else if excess > 0.5 then below + 1
    else if below % 2 == 0 then below
    else below + 1
  }

  /** How far `x` stays below the reference, as a share of it. */
  function Headroom(x: real, reference: real): real
    requires reference > 0.0
  {
    Max(0.0, 1.0 - x / reference)
  }

  /** A missing or zero price limit counts as fifty per hour. */
  function PriceReference(maxPrice: Option<int>): real {
    var reference := if maxPrice.None? || maxPrice.value == 0 then 5000 else maxPrice.value;
    if reference < 1 then 1.0 else reference as real
  }

  function Safety(f: Facility): real { f.safetyScore as real / 100.0 }

  function Nearness(c: Candidate, radius: int): real
    requires radius > 0
  {
    Headroom(c.walkingMeters, radius as real)
  }

  function Price(f: Facility, maxPrice: Option<int>): real {
    if f.hourlyPriceCents.None? then UNKNOWN
    else Headroom(f.hourlyPriceCents.value as real, PriceReference(maxPrice))
  }

  function Towing(f: Facility): real { Headroom(f.towingPer1000, 50.0) }

  function Rating(f: Facility): real { if f.rating.None? then UNKNOWN else f.rating.value / 5.0 }

  function Availability(f: Facility): real {
    if f.availableSpaces.Some? && f.capacity.Some? && f.capacity.value > 0
    then f.availableSpaces.value as real / f.capacity.value as real
    else UNKNOWN
  }

  /** The weights of the six factors, which sum to one. */
  function Weigh(safety: real, nearness: real, price: real, towing: real, rating: real, availability: real): real {
    safety * 0.40 + nearness * 0.20 + price * 0.15 + towing * 0.15 + rating * 0.05 + availability * 0.05
  }

  function Weighted(c: Candidate, radius: int, maxPrice: Option<int>): real
    requires radius > 0
  {
    var f := c.facility;
    Weigh(Safety(f), Nearness(c, radius), Price(f, maxPrice), Towing(f), Rating(f), Clamp(Availability(f)))
  }

  function Rank(c: Candidate, radius: int, maxPrice: Option<int>): Recommendation
    requires radius > 0
  {
    Recommendation(c.facility, Round(c.walkingMeters), Round(Clamp(Weighted(c, radius, maxPrice)) * 100.0))
  }

  /** With a price limit, only known prices within it qualify. */
  predicate Qualifies(c: Candidate, maxPrice: Option<int>) {
    maxPrice.Some? ==>
      c.facility.hourlyPriceCents.Some? && c.facility.hourlyPriceCents.value <= maxPrice.value
  }

  /** Text order by character. */
  predicate TextLeq(a: string, b: string) {
    if a == "" then true
    else if b == "" then false
    else a[0] < b[0] || (a[0] == b[0] && TextLeq(a[1..], b[1..]))
  }

  /** Higher score first, then nearer, then by name. */
  predicate Precedes(a: Recommendation, b: Recommendation) {
    || a.score > b.score
    || (a.score == b.score && a.walkingMeters < b.walkingMeters)
    || (a.score == b.score && a.walkingMeters == b.walkingMeters && TextLeq(a.facility.name, b.facility.name))
  }

  function RankAll(candidates: seq<Candidate>, radius: int, maxPrice: Option<int>): (rs: seq<Recommendation>)
    requires radius > 0
    ensures |rs| == |candidates|
    ensures forall i: nat :: i < |rs| ==> rs[i] == Rank(candidates[i], radius, maxPrice)
  {
    seq(|candidates|, i requires 0 <= i < |candidates| => Rank(candidates[i], radius, maxPrice))
  }

  function Eligible(candidates: seq<Candidate>, maxPrice: Option<int>): seq<Candidate> {
    Filter((c: Candidate) => Qualifies(c, maxPrice), candidates)
  }

  function ByPrecedence(): (Recommendation, Recommendation) -> bool {
    (a: Recommendation, b: Recommendation) => Precedes(a, b)
  }

  function Ranked(candidates: seq<Candidate>, radius: int, maxPrice: Option<int>): seq<Recommendation>
    requires radius > 0
  {
    Sort(ByPrecedence(), RankAll(Eligible(candidates, maxPrice), radius, maxPrice))
  }

  /** The answer to a request over the candidates that the repository found. */
  function Nearby(candidates: seq<Candidate>, radius: int, maxPrice: Option<int>, limit: nat): seq<Recommendation>
    requires radius > 0
  {
    Head(Ranked(candidates, radius, maxPrice), limit)
  }

  // ------------------------------------------------------------------- factors

  predicate IsUnit(x: real) { 0.0 <= x <= 1.0 }

  lemma HeadroomIsUnit(x: real, reference: real)
    requires reference > 0.0 && x >= 0.0
    ensures IsUnit(Headroom(x, reference))
  {
  }

  lemma HeadroomFalls(x: real, y: real, reference: real)
    requires reference > 0.0 && x <= y
    ensures Headroom(y, reference) <= Headroom(x, reference)
  {
  }

  lemma AvailabilityIsUnit(f: Facility)
    requires IsInBounds(f)
    ensures IsUnit(Availability(f))
  {
  }

  lemma WeightsAreBalanced(a: real, b: real, c: real, d: real, e: real, f: real)
    requires IsUnit(a) && IsUnit(b) && IsUnit(c) && IsUnit(d) && IsUnit(e) && IsUnit(f)
    ensures IsUnit(Weigh(a, b, c, d, e, f))
  {
  }

  /** For a facility within the table's bounds no clamp takes effect: the weighted sum is a share already. */
  lemma ScoreNeedsNoClamp(c: Candidate, radius: int, maxPrice: Option<int>)
    requires radius > 0 && c.walkingMeters >= 0.0 && IsInBounds(c.facility)
    ensures IsUnit(Weighted(c, radius, maxPrice))
    ensures Clamp(Availability(c.facility)) == Availability(c.facility)
    ensures Rank(c, radius, maxPrice).score == Round(Weighted(c, radius, maxPrice) * 100.0)
    ensures 0 <= Rank(c, radius, maxPrice).score <= 100
  {
    var f := c.facility;
    AvailabilityIsUnit(f);
    HeadroomIsUnit(c.walkingMeters, radius as real);
    HeadroomIsUnit(f.towingPer1000, 50.0);
    if f.hourlyPriceCents.Some? {
      HeadroomIsUnit(f.hourlyPriceCents.value as real, PriceReference(maxPrice));
    }
    WeightsAreBalanced(Safety(f), Nearness(c, radius), Price(f, maxPrice), Towing(f), Rating(f), Availability(f));
    RoundGrows(0.0, Weighted(c, radius, maxPrice) * 100.0);
    RoundGrows(Weighted(c, radius, maxPrice) * 100.0, 100.0);
  }

  // ------------------------------------------------------------- the score in full

  /** Everything is known of the facility, and nothing lies beyond its reference. */
  predicate IsPlain(c: Candidate, radius: int, maxPrice: int) {
    var f := c.facility;
    && 0.0 <= c.walkingMeters <= radius as real
    && f.hourlyPriceCents.Some? && 0 <= f.hourlyPriceCents.value <= maxPrice
    && 0.0 <= f.towingPer1000 <= 50.0 && f.rating.Some?
    && f.availableSpaces.Some? && f.capacity.Some? && f.capacity.value > 0
  }

  /** The score of a plain candidate: forty points for safety, twenty for distance, and so on. */
  lemma PlainScore(c: Candidate, radius: int, maxPrice: int)
    requires radius > 0 && maxPrice > 0 && IsPlain(c, radius, maxPrice) && IsInBounds(c.facility)
    ensures var f := c.facility;
            Rank(c, radius, Some(maxPrice)).score
            == Round(0.4 * f.safetyScore as real
                     + 20.0 * (1.0 - c.walkingMeters / radius as real)
                     + 15.0 * (1.0 - f.hourlyPriceCents.value as real / maxPrice as real)
                     + 15.0 * (1.0 - f.towingPer1000 / 50.0)
                     + f.rating.value
                     + 5.0 * (f.availableSpaces.value as real / f.capacity.value as real))
  {
    var f := c.facility;
    ScoreNeedsNoClamp(c, radius, Some(maxPrice));
    ShareBelow(c.walkingMeters, radius as real);
    ShareBelow(f.hourlyPriceCents.value as real, maxPrice as real);
    ShareBelow(f.towingPer1000, 50.0);
    WeighedPoints(f.safetyScore as real, 1.0 - c.walkingMeters / radius as real,
                  1.0 - f.hourlyPriceCents.value as real / maxPrice as real, 1.0 - f.towingPer1000 / 50.0,
                  f.rating.value, f.availableSpaces.value as real / f.capacity.value as real);
  }

  lemma ShareBelow(x: real, reference: real)
    requires 0.0 <= x <= reference && reference > 0.0
    ensures Headroom(x, reference) == 1.0 - x / reference
  {
    assert x / reference <= 1.0;
  }

  lemma WeighedPoints(safety: real, nearness: real, price: real, towing: real, stars: real, availability: real)
    ensures Weigh(safety / 100.0, nearness, price, towing, stars / 5.0, availability) * 100.0
            == 0.4 * safety + 20.0 * nearness + 15.0 * price + 15.0 * towing + stars + 5.0 * availability
  {
  }

  /** An unknown price, rating or availability counts half, and what lies beyond its reference counts nothing. */
  lemma UnknownOrBeyond(c: Candidate, radius: int, maxPrice: Option<int>)
    requires radius > 0
    ensures var f := c.facility;
            && (f.hourlyPriceCents.None? ==> Price(f, maxPrice) == 0.5)
            && (f.rating.None? ==> Rating(f) == 0.5)
            && (f.availableSpaces.None? || f.capacity.None? || f.capacity.value <= 0 ==> Availability(f) == 0.5)
            && (c.walkingMeters >= radius as real ==> Nearness(c, radius) == 0.0)
            && (f.towingPer1000 >= 50.0 ==> Towing(f) == 0.0)
            && (f.hourlyPriceCents.Some? && f.hourlyPriceCents.value >= 5000 && maxPrice.None? ==>
                  Price(f, maxPrice) == 0.0)
            && (f.hourlyPriceCents.Some? && maxPrice.Some? && 0 < maxPrice.value <= f.hourlyPriceCents.value ==>
                  Price(f, maxPrice) == 0.0)
  {
    BeyondReference(c.walkingMeters, radius as real);
    BeyondReference(c.facility.towingPer1000, 50.0);
    if c.facility.hourlyPriceCents.Some? {
      BeyondReference(c.facility.hourlyPriceCents.value as real, PriceReference(maxPrice));
    }
  }

  lemma BeyondReference(x: real, reference: real)
    requires reference > 0.0
    ensures x >= reference ==> Headroom(x, reference) == 0.0
  {
    if x >= reference {
      assert x / reference >= 1.0;
    }
  }

  // --------------------------------------------------------------- monotonicity

  /** Rounding is to within half a unit, and a tie goes to the even neighbour. */
  lemma RoundIsNearest(x: real)
    ensures -0.5 <= Round(x) as real - x <= 0.5
    ensures Round(x) as real - x == 0.5 || x - Round(x) as real == 0.5 ==> Round(x) % 2 == 0
  {
  }

  lemma RoundGrows(x: real, y: real)
    requires x <= y
    ensures Round(x) <= Round(y)
  {
  }

  predicate IsNoWorse(a: Option<int>, b: Option<int>) {
    a == b || (a.Some? && b.Some? && a.value <= b.value)
  }

  /** At least as safe, as near, as cheap and as rarely towed from, and alike in rating and availability. */
  predicate Dominates(a: Candidate, b: Candidate) {
    var f, g := a.facility, b.facility;
    && f.safetyScore >= g.safetyScore
    && a.walkingMeters <= b.walkingMeters
    && IsNoWorse(f.hourlyPriceCents, g.hourlyPriceCents)
    && f.towingPer1000 <= g.towingPer1000
    && Rating(f) >= Rating(g)
    && Availability(f) >= Availability(g)
  }

  lemma PriceFalls(f: Facility, g: Facility, maxPrice: Option<int>)
    requires IsNoWorse(f.hourlyPriceCents, g.hourlyPriceCents)
    ensures Price(f, maxPrice) >= Price(g, maxPrice)
  {
    if f.hourlyPriceCents != g.hourlyPriceCents {
      HeadroomFalls(f.hourlyPriceCents.value as real, g.hourlyPriceCents.value as real, PriceReference(maxPrice));
    }
  }

  lemma WeighGrows(a: real, b: real, c: real, d: real, e: real, f: real,
                   a': real, b': real, c': real, d': real, e': real, f': real)
    requires a <= a' && b <= b' && c <= c' && d <= d' && e <= e' && f <= f'
    ensures Weigh(a, b, c, d, e, f) <= Weigh(a', b', c', d', e', f')
  {
  }

  /** A candidate that is no worse in any factor scores no lower. */
  lemma ScoreIsMonotone(a: Candidate, b: Candidate, radius: int, maxPrice: Option<int>)
    requires radius > 0 && Dominates(a, b)
    ensures Rank(a, radius, maxPrice).score >= Rank(b, radius, maxPrice).score
    ensures Rank(a, radius, maxPrice).walkingMeters <= Rank(b, radius, maxPrice).walkingMeters
  {
    var f, g := a.facility, b.facility;
    HeadroomFalls(a.walkingMeters, b.walkingMeters, radius as real);
    HeadroomFalls(f.towingPer1000, g.towingPer1000, 50.0);
    PriceFalls(f, g, maxPrice);
    WeighGrows(Safety(g), Nearness(b, radius), Price(g, maxPrice), Towing(g), Rating(g), Clamp(Availability(g)),
               Safety(f), Nearness(a, radius), Price(f, maxPrice), Towing(f), Rating(f), Clamp(Availability(f)));
    RoundGrows(Clamp(Weighted(b, radius, maxPrice)) * 100.0, Clamp(Weighted(a, radius, maxPrice)) * 100.0);
    RoundGrows(a.walkingMeters, b.walkingMeters);
  }

  // ----------------------------------------------------------------- the answer

  lemma {:induction false} TextLeqIsTotal(a: string, b: string)
    ensures TextLeq(a, b) || TextLeq(b, a)
  {
    if a != "" && b != "" {
      TextLeqIsTotal(a[1..], b[1..]);
    }
  }

  lemma {:induction false} TextLeqIsTransitive(a: string, b: string, c: string)
    requires TextLeq(a, b) && TextLeq(b, c)
    ensures TextLeq(a, c)
  {
    if a != "" && a[0] == b[0] == c[0] {
      TextLeqIsTransitive(a[1..], b[1..], c[1..]);
    }
  }

  /** Text order goes by the first difference; a text comes before its own continuations. */
  lemma {:induction false} TextLeqMeaning(a: string, b: string)
    ensures TextLeq(a, b) <==>
              a <= b || exists i: nat :: i < |a| && i < |b| && a[..i] == b[..i] && a[i] < b[i]
  {
    if a != "" && b != "" {
      TextLeqMeaning(a[1..], b[1..]);
      if a[0] == b[0] {
        assert a <= b <==> a[1..] <= b[1..];
        if i: nat :| i < |a[1..]| && i < |b[1..]| && a[1..][..i] == b[1..][..i] && a[1..][i] < b[1..][i] {
          assert a[..i + 1] == [a[0]] + a[1..][..i] && b[..i + 1] == [b[0]] + b[1..][..i];
          assert a[i + 1] < b[i + 1];
        }
        if i: nat :| i < |a| && i < |b| && a[..i] == b[..i] && a[i] < b[i] {
          assert a[1..][..i - 1] == a[..i][1..] && b[1..][..i - 1] == b[..i][1..];
          assert a[1..][i - 1] < b[1..][i - 1];
        }
      } else if a[0] < b[0] {
        assert a[..0] == b[..0];
      } else {
        forall i: nat | 0 < i < |a| && i < |b| ensures a[..i] == b[..i] ==> a[0] == b[0] {
          assert a[..i][0] == a[0] && b[..i][0] == b[0];
        }
      }
    }
  }

  /** No lower in score, then no farther, then no later by name. */
  predicate IsNoLater(a: Recommendation, b: Recommendation) {
    && a.score >= b.score
    && (a.score == b.score ==> a.walkingMeters <= b.walkingMeters)
    && (a.score == b.score && a.walkingMeters == b.walkingMeters ==> TextLeq(a.facility.name, b.facility.name))
  }

  lemma PrecedesIsTotalPreorder()
    ensures IsTotalPreorder(ByPrecedence())
  {
    forall a, b ensures Precedes(a, b) || Precedes(b, a) {
      TextLeqIsTotal(a.facility.name, b.facility.name);
    }
    forall a, b, c | Precedes(a, b) && Precedes(b, c) ensures Precedes(a, c) {
      if TextLeq(a.facility.name, b.facility.name) && TextLeq(b.facility.name, c.facility.name) {
        TextLeqIsTransitive(a.facility.name, b.facility.name, c.facility.name);
      }
    }
  }

  /** The answer is the head of a reordering of the qualifying candidates; nothing left out precedes anything in it. */
  lemma AnswerIsTheBest(candidates: seq<Candidate>, radius: int, maxPrice: Option<int>, limit: nat)
    returns (rest: seq<Recommendation>)
    requires radius > 0
    ensures var answer := Nearby(candidates, radius, maxPrice, limit);
            && multiset(answer + rest) == multiset(RankAll(Eligible(candidates, maxPrice), radius, maxPrice))
            && |answer| <= limit && (rest == [] || |answer| == limit)
            && IsSorted(ByPrecedence(), answer)
            && IsAhead(ByPrecedence(), answer, rest)
            && (forall i: nat, j: nat :: i < j < |answer| ==> IsNoLater(answer[i], answer[j]))
            && (forall a, b :: a in answer && b in rest ==> IsNoLater(a, b))
  {
    PrecedesIsTotalPreorder();
    rest := HeadIsBest(ByPrecedence(), RankAll(Eligible(candidates, maxPrice), radius, maxPrice), limit);
    var answer := Nearby(candidates, radius, maxPrice, limit);
    forall i: nat, j: nat | i < j < |answer| ensures IsNoLater(answer[i], answer[j]) {
      assert ByPrecedence()(answer[i], answer[j]);
    }
    forall a, b | a in answer && b in rest ensures IsNoLater(a, b) {
      assert ByPrecedence()(a, b);
    }
  }

  /** With a price limit every returned facility has a known price within it. */
  lemma AnswersAreAffordable(candidates: seq<Candidate>, radius: int, maxPrice: int, limit: nat, r: Recommendation)
    requires radius > 0 && r in Nearby(candidates, radius, Some(maxPrice), limit)
    ensures r.facility.hourlyPriceCents.Some? && r.facility.hourlyPriceCents.value <= maxPrice
    ensures exists c :: c in candidates && c.facility == r.facility && r == Rank(c, radius, Some(maxPrice))
  {
    var rest := AnswerIsTheBest(candidates, radius, Some(maxPrice), limit);
    var eligible := Eligible(candidates, Some(maxPrice));
    var all := RankAll(eligible, radius, Some(maxPrice));
    assert r in Nearby(candidates, radius, Some(maxPrice), limit) + rest;
    assert r in multiset(all);
    var i: nat :| i < |all| && all[i] == r;
    FilterMembers((c: Candidate) => Qualifies(c, Some(maxPrice)), candidates);
    assert eligible[i] in eligible;
  }

  /** A candidate within the price limit, if there is one, is returned unless the answer is full. */
  lemma ReturnedUnlessFull(candidates: seq<Candidate>, radius: int, maxPrice: Option<int>, limit: nat, c: Candidate)
    requires radius > 0 && c in candidates && |Nearby(candidates, radius, maxPrice, limit)| < limit
    requires var price := c.facility.hourlyPriceCents;
             maxPrice.Some? ==> price.Some? && price.value <= maxPrice.value
    ensures Rank(c, radius, maxPrice) in Nearby(candidates, radius, maxPrice, limit)
  {
    var rest := AnswerIsTheBest(candidates, radius, maxPrice, limit);
    var answer := Nearby(candidates, radius, maxPrice, limit);
    var eligible := Eligible(candidates, maxPrice);
    FilterMembers((other: Candidate) => Qualifies(other, maxPrice), candidates);
    var i: nat :| i < |eligible| && eligible[i] == c;
    var all := RankAll(eligible, radius, maxPrice);
    assert all[i] in multiset(all);
    assert answer + rest == answer && all[i] in multiset(answer);
  }

  /** Without a price limit every candidate is ranked. */
  lemma AllAreRankedWithoutLimit(candidates: seq<Candidate>, radius: int, limit: nat)
    requires radius > 0
    ensures |Nearby(candidates, radius, None, limit)| == if |candidates| < limit then |candidates| else limit
  {
    AllQualify(candidates);
    SortKeepsElements(ByPrecedence(), RankAll(Eligible(candidates, None), radius, None));
  }

  lemma {:induction false} AllQualify(candidates: seq<Candidate>)
    ensures Eligible(candidates, None) == candidates
  {
    if candidates != [] {
      AllQualify(candidates[..|candidates| - 1]);
      assert candidates == candidates[..|candidates| - 1] + [candidates[|candidates| - 1]];
    }
  }

  /** A qualifying candidate that dominates a returned one, and differs from it in score or distance, is in too. */
  lemma BetterCandidateIsReturned(candidates: seq<Candidate>, radius: int, maxPrice: Option<int>, limit: nat,
                                  better: Candidate, returned: Candidate)
    requires radius > 0 && better in candidates && Qualifies(better, maxPrice) && Dominates(better, returned)
    requires Rank(returned, radius, maxPrice) in Nearby(candidates, radius, maxPrice, limit)
    requires var b, r := Rank(better, radius, maxPrice), Rank(returned, radius, maxPrice);
             b.score != r.score || b.walkingMeters != r.walkingMeters
    ensures Rank(better, radius, maxPrice) in Nearby(candidates, radius, maxPrice, limit)
  {
    var rest := AnswerIsTheBest(candidates, radius, maxPrice, limit);
    var answer := Nearby(candidates, radius, maxPrice, limit);
    var b, r := Rank(better, radius, maxPrice), Rank(returned, radius, maxPrice);
    ScoreIsMonotone(better, returned, radius, maxPrice);
    var eligible := Eligible(candidates, maxPrice);
    FilterMembers((c: Candidate) => Qualifies(c, maxPrice), candidates);
    var i: nat :| i < |eligible| && eligible[i] == better;
    var all := RankAll(eligible, radius, maxPrice);
    assert all[i] == b;
    assert b in multiset(answer + rest);
    assert b in answer || b in rest;
    assert !ByPrecedence()(r, b);
  }
}
