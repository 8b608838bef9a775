/**
 What repeated purges do to a backlog while the store goes on refusing some
 photos: how fast the others go, and which of them are reached at all.
 */
module PurgeBacklog {
  import opened Wrappers
  import opened Evidence
  import opened EvidencePurge

  predicate IsRefused(r: Report, answers: Answers) {
    r.photo.Some? && !answers(r.photo.value.key).Removed?
  }

  /** The expired photos that the store does not confirm to have deleted. */
  function RefusedIds(reports: map<nat, Report>, cutoff: int, answers: Answers): set<nat> {
    set id | id in reports && IsExpired(reports[id], cutoff) && IsRefused(reports[id], answers)
  }

  /** The expired photos due by the deadline. */
  function DueBy(reports: map<nat, Report>, cutoff: int, deadline: int): set<nat> {
    set id | id in reports && IsExpired(reports[id], cutoff) && reports[id].photo.value.retainedUntil <= deadline
  }

  function RefusedBefore(reports: map<nat, Report>, cutoff: int, answers: Answers, deadline: int): set<nat> {
    set id | id in reports && IsExpired(reports[id], cutoff) && IsRefused(reports[id], answers)
             && reports[id].photo.value.retainedUntil < deadline
  }

  function RefusedBy(reports: map<nat, Report>, cutoff: int, answers: Answers, deadline: int): set<nat> {
    set id | id in reports && IsExpired(reports[id], cutoff) && IsRefused(reports[id], answers)
             && reports[id].photo.value.retainedUntil <= deadline
  }

  // ------------------------------------------------------------------ one purge

  lemma ConfirmedMeans(reports: map<nat, Report>, cutoff: int, batch: seq<Report>, answers: Answers)
    requires AreExpiredRows(reports, cutoff, batch)
    ensures Confirmed(batch, answers) == IdsOf(batch) - RefusedIds(reports, cutoff, answers)
  {
    forall id | id in IdsOf(batch) ensures id in reports && reports[id] in batch && IsExpired(reports[id], cutoff) {
      var r: Report :| r in batch && r.id == id;
      assert reports[r.id] == r;
    }
  }

  /** Refused photos stay as they are. */
  lemma PurgeKeepsRefused(e: Evidence, cutoff: int, limit: nat, batch: seq<Report>, answers: Answers)
    requires IsOldestBatch(e.reports, cutoff, limit, batch)
    ensures var after := Purged(e, batch, cutoff, answers).reports;
            && RefusedIds(after, cutoff, answers) == RefusedIds(e.reports, cutoff, answers)
            && forall id :: id in RefusedIds(e.reports, cutoff, answers) ==> after[id] == e.reports[id]
  {
    PurgeProgress(e, cutoff, limit, batch, answers);
    ConfirmedMeans(e.reports, cutoff, batch, answers);
    var after := Purged(e, batch, cutoff, answers).reports;
    forall id | id in RefusedIds(after, cutoff, answers) ensures id in RefusedIds(e.reports, cutoff, answers) {
      assert id in ExpiredIds(after, cutoff);
    }
  }

  lemma DifferenceSize<T>(b: set<T>, r: set<T>)
    ensures |b| <= |b - r| + |r|
  {
    SubsetIsNoLarger(b * r, b);
    SubsetIsNoLarger(b * r, r);
    assert b - r == b - b * r;
  }

  /** A purge comes closer to the refused photos by what the limit leaves for the others, or gets there. */
  lemma PurgeApproachesRefused(e: Evidence, cutoff: int, limit: nat, batch: seq<Report>, answers: Answers)
    requires IsOldestBatch(e.reports, cutoff, limit, batch)
    ensures var expired, left := ExpiredIds(e.reports, cutoff),
                                 ExpiredIds(Purged(e, batch, cutoff, answers).reports, cutoff);
            var refused := RefusedIds(e.reports, cutoff, answers);
            left == refused || |left| + limit <= |expired| + |refused|
  {
    PurgeProgress(e, cutoff, limit, batch, answers);
    ConfirmedMeans(e.reports, cutoff, batch, answers);
    DistinctIdsCount(batch);
    var expired, refused := ExpiredIds(e.reports, cutoff), RefusedIds(e.reports, cutoff, answers);
    DifferenceSize(IdsOf(batch), refused);
    if |batch| == |expired| {
      NestedSetsOfOneSize(IdsOf(batch), expired);
      assert expired - (expired - refused) == refused;
    }
  }

  /** A photo is marked only if the store lets it go and fewer refused photos than the limit are due before it. */
  lemma MarkedOnlyIf(e: Evidence, cutoff: int, limit: nat, batch: seq<Report>, answers: Answers, p: nat)
    requires IsOldestBatch(e.reports, cutoff, limit, batch)
    requires p in ExpiredIds(e.reports, cutoff)
    requires p !in ExpiredIds(Purged(e, batch, cutoff, answers).reports, cutoff)
    ensures !IsRefused(e.reports[p], answers)
    ensures |RefusedBefore(e.reports, cutoff, answers, e.reports[p].photo.value.retainedUntil)| < limit
  {
    PurgeProgress(e, cutoff, limit, batch, answers);
    ConfirmedMeans(e.reports, cutoff, batch, answers);
    var before := RefusedBefore(e.reports, cutoff, answers, e.reports[p].photo.value.retainedUntil);
    assert p in IdsOf(batch) && e.reports[p] in batch by {
      var r: Report :| r in batch && r.id == p;
      assert e.reports[r.id] == r;
    }
    forall id | id in before ensures id in IdsOf(batch) {
      assert id in ExpiredIds(e.reports, cutoff);
    }
    assert p !in before;
    assert before + {p} <= IdsOf(batch);
    SubsetIsNoLarger(before + {p}, IdsOf(batch));
    DistinctIdsCount(batch);
  }

  lemma DueShrinks(e: Evidence, cutoff: int, limit: nat, batch: seq<Report>, answers: Answers, deadline: int)
    requires IsOldestBatch(e.reports, cutoff, limit, batch)
    ensures var after := Purged(e, batch, cutoff, answers).reports;
            && DueBy(after, cutoff, deadline) <= DueBy(e.reports, cutoff, deadline)
            && DueBy(after, cutoff, deadline) !! Confirmed(batch, answers)
  {
    PurgeProgress(e, cutoff, limit, batch, answers);
    var after := Purged(e, batch, cutoff, answers).reports;
    forall id | id in DueBy(after, cutoff, deadline)
      ensures id in DueBy(e.reports, cutoff, deadline) && id !in Confirmed(batch, answers)
    {
      assert id in ExpiredIds(after, cutoff);
    }
  }

  lemma LosesOne<T>(a: set<T>, b: set<T>, x: T)
    requires a <= b && x in b && x !in a
    ensures |a| < |b|
  {
    SubsetIsNoLarger(a + {x}, b);
  }

  /** While the photo waits, and refused ones due by then do not fill the limit, a purge takes one due by then. */
  lemma WaitingShrinks(e: Evidence, cutoff: int, limit: nat, batch: seq<Report>, answers: Answers, p: nat)
    requires IsOldestBatch(e.reports, cutoff, limit, batch)
    requires p in ExpiredIds(e.reports, cutoff) && !IsRefused(e.reports[p], answers)
    requires |RefusedBy(e.reports, cutoff, answers, e.reports[p].photo.value.retainedUntil)| < limit
    ensures var after, deadline := Purged(e, batch, cutoff, answers).reports, e.reports[p].photo.value.retainedUntil;
            p in ExpiredIds(after, cutoff) ==>
              |DueBy(after, cutoff, deadline)| < |DueBy(e.reports, cutoff, deadline)|
  {
    PurgeProgress(e, cutoff, limit, batch, answers);
    var after, deadline := Purged(e, batch, cutoff, answers).reports, e.reports[p].photo.value.retainedUntil;
    if p in ExpiredIds(after, cutoff) {
      var id := SomeDueIsConfirmed(e, cutoff, limit, batch, answers, p);
      DueShrinks(e, cutoff, limit, batch, answers, deadline);
      LosesOne(DueBy(after, cutoff, deadline), DueBy(e.reports, cutoff, deadline), id);
    }
  }

  lemma SomeDueIsConfirmed(e: Evidence, cutoff: int, limit: nat, batch: seq<Report>, answers: Answers, p: nat)
      returns (id: nat)
    requires IsOldestBatch(e.reports, cutoff, limit, batch)
    requires p in ExpiredIds(e.reports, cutoff) && p !in Confirmed(batch, answers)
    requires !IsRefused(e.reports[p], answers)
    requires |RefusedBy(e.reports, cutoff, answers, e.reports[p].photo.value.retainedUntil)| < limit
    ensures id in Confirmed(batch, answers)
    ensures id in DueBy(e.reports, cutoff, e.reports[p].photo.value.retainedUntil)
  {
    ConfirmedMeans(e.reports, cutoff, batch, answers);
    DistinctIdsCount(batch);
    var deadline := e.reports[p].photo.value.retainedUntil;
    var refused := RefusedBy(e.reports, cutoff, answers, deadline);
    assert p !in IdsOf(batch);
    BatchIsShort(e.reports, cutoff, limit, batch, p);
    forall b | b in IdsOf(batch) ensures b in DueBy(e.reports, cutoff, deadline) {
      var r: Report :| r in batch && r.id == b;
      assert e.reports[r.id] == r;
    }
    DifferenceSize(IdsOf(batch), refused);
    assert IdsOf(batch) - refused != {};
    id :| id in IdsOf(batch) - refused;
  }

  /** A batch that leaves an expired photo out is full. */
  lemma BatchIsShort(reports: map<nat, Report>, cutoff: int, limit: nat, batch: seq<Report>, p: nat)
    requires IsOldestBatch(reports, cutoff, limit, batch)
    requires p in ExpiredIds(reports, cutoff) && p !in IdsOf(batch)
    ensures |IdsOf(batch)| == limit
  {
    DistinctIdsCount(batch);
    assert IdsOf(batch) <= ExpiredIds(reports, cutoff);
    SubsetIsNoLarger(IdsOf(batch) + {p}, ExpiredIds(reports, cutoff));
  }

  // -------------------------------------------------------------- repeated purges

  /** `now` is what purges made of `start`: the refused photos and the rows still in the backlog are the same. */
  predicate Descends(start: map<nat, Report>, now: map<nat, Report>, cutoff: int, answers: Answers) {
    && RefusedIds(now, cutoff, answers) == RefusedIds(start, cutoff, answers)
    && ExpiredIds(now, cutoff) <= ExpiredIds(start, cutoff)
    && forall id :: id in ExpiredIds(now, cutoff) ==> now[id] == start[id]
  }

  lemma PurgeDescends(e: Evidence, after: Evidence, cutoff: int, limit: nat, answers: Answers)
    requires IsPurge(e, after, cutoff, limit, answers)
    ensures Descends(e.reports, after.reports, cutoff, answers)
  {
    var batch :| IsOldestBatch(e.reports, cutoff, limit, batch) && after == Purged(e, batch, cutoff, answers);
    PurgeProgress(e, cutoff, limit, batch, answers);
    PurgeKeepsRefused(e, cutoff, limit, batch, answers);
  }

  lemma {:induction false} RunDescends(states: seq<Evidence>, cutoff: int, limit: nat, answers: Answers)
    requires states != [] && ArePurgesBy(states, cutoff, limit, answers)
    ensures Descends(states[0].reports, states[|states| - 1].reports, cutoff, answers)
  {
    if |states| > 1 {
      var last := |states| - 1;
      LastPurge(states, cutoff, limit, answers);
      RunDescends(states[..last], cutoff, limit, answers);
      PurgeDescends(states[last - 1], states[last], cutoff, limit, answers);
    }
  }

  lemma RefusedWaitAlike(start: map<nat, Report>, now: map<nat, Report>, cutoff: int, answers: Answers, deadline: int)
    requires Descends(start, now, cutoff, answers)
    ensures RefusedBefore(now, cutoff, answers, deadline) == RefusedBefore(start, cutoff, answers, deadline)
    ensures RefusedBy(now, cutoff, answers, deadline) == RefusedBy(start, cutoff, answers, deadline)
  {
    forall id
      ensures id in RefusedIds(start, cutoff, answers) <==> id in RefusedIds(now, cutoff, answers) && id in start
    {
      if id in RefusedIds(now, cutoff, answers) {
        assert id in ExpiredIds(now, cutoff);
      }
    }
    forall id | id in RefusedIds(now, cutoff, answers) ensures id in start && now[id] == start[id] {
      assert id in ExpiredIds(now, cutoff);
    }
    assert RefusedBy(now, cutoff, answers, deadline) <= RefusedIds(now, cutoff, answers);
    assert RefusedBy(start, cutoff, answers, deadline) <= RefusedIds(start, cutoff, answers);
    assert RefusedBefore(now, cutoff, answers, deadline) <= RefusedIds(now, cutoff, answers);
    assert RefusedBefore(start, cutoff, answers, deadline) <= RefusedIds(start, cutoff, answers);
  }

  lemma RefusedAreExpired(reports: map<nat, Report>, cutoff: int, answers: Answers)
    ensures RefusedIds(reports, cutoff, answers) <= ExpiredIds(reports, cutoff)
  {
  }

  /** The next purge, seen from the start. */
  lemma NextApproaches(start: map<nat, Report>, e: Evidence, after: Evidence, cutoff: int, limit: nat, answers: Answers)
    requires Descends(start, e.reports, cutoff, answers) && IsPurge(e, after, cutoff, limit, answers)
    ensures var refused := RefusedIds(start, cutoff, answers);
            var before, left := ExpiredIds(e.reports, cutoff), ExpiredIds(after.reports, cutoff);
            && refused <= left <= before
            && (left == refused || |left| + limit <= |before| + |refused|)
  {
    PurgeDescends(e, after, cutoff, limit, answers);
    RefusedAreExpired(after.reports, cutoff, answers);
    LeftApproaches(e, after, cutoff, limit, answers);
  }

  lemma {:induction false} RunApproaches(states: seq<Evidence>, cutoff: int, limit: nat, answers: Answers, step: nat)
    requires states != [] && ArePurgesBy(states, cutoff, limit, answers)
    requires |RefusedIds(states[0].reports, cutoff, answers)| + step == limit
    ensures var left := ExpiredIds(states[|states| - 1].reports, cutoff);
            || left == RefusedIds(states[0].reports, cutoff, answers)
            || |left| + (|states| - 1) * step <= |ExpiredIds(states[0].reports, cutoff)|
  {
    var k := |states| - 1;
    if k > 0 {
      LastPurge(states, cutoff, limit, answers);
      RunApproaches(states[..k], cutoff, limit, answers, step);
      RunDescends(states[..k], cutoff, limit, answers);
      NextApproaches(states[0].reports, states[k - 1], states[k], cutoff, limit, answers);
      assert k * step == (k - 1) * step + step;
    }
  }

  /**
   If the store refuses fewer photos than the limit, each purge takes at least
   what the limit leaves beside the refused ones, until these are all that stays.
   */
  lemma PurgesReachRefused(states: seq<Evidence>, cutoff: int, limit: nat, answers: Answers, step: nat)
    requires states != [] && ArePurgesBy(states, cutoff, limit, answers)
    requires |RefusedIds(states[0].reports, cutoff, answers)| + step == limit
    ensures var n, k := |ExpiredIds(states[0].reports, cutoff)|, |states| - 1;
            var refused, left := RefusedIds(states[0].reports, cutoff, answers), ExpiredIds(states[k].reports, cutoff);
            && refused <= left
            && (left == refused || |left| + k * step <= n)
            && (k * step >= n - |refused| ==> left == refused)
  {
    var k := |states| - 1;
    var refused := RefusedIds(states[0].reports, cutoff, answers);
    var left := ExpiredIds(states[k].reports, cutoff);
    RunApproaches(states, cutoff, limit, answers, step);
    RunDescends(states, cutoff, limit, answers);
    RefusedAreExpired(states[k].reports, cutoff, answers);
    SubsetIsNoLarger(refused, left);
    if |left| == |refused| {
      NestedSetsOfOneSize(refused, left);
    }
  }

  lemma LeftApproaches(e: Evidence, after: Evidence, cutoff: int, limit: nat, answers: Answers)
    requires IsPurge(e, after, cutoff, limit, answers)
    ensures var refused, left := RefusedIds(e.reports, cutoff, answers), ExpiredIds(after.reports, cutoff);
            left == refused || |left| + limit <= |ExpiredIds(e.reports, cutoff)| + |refused|
  {
    var batch :| IsOldestBatch(e.reports, cutoff, limit, batch) && after == Purged(e, batch, cutoff, answers);
    PurgeApproachesRefused(e, cutoff, limit, batch, answers);
  }

  lemma {:induction false} ReachedOnlyIf(states: seq<Evidence>, cutoff: int, limit: nat, answers: Answers, p: nat)
    requires states != [] && ArePurgesBy(states, cutoff, limit, answers)
    requires p in ExpiredIds(states[0].reports, cutoff) && p !in ExpiredIds(states[|states| - 1].reports, cutoff)
    ensures var start := states[0].reports;
            && !IsRefused(start[p], answers)
            && |RefusedBefore(start, cutoff, answers, start[p].photo.value.retainedUntil)| < limit
  {
    var last := |states| - 1;
    var init := states[..last];
    LastPurge(states, cutoff, limit, answers);
    if p !in ExpiredIds(states[last - 1].reports, cutoff) {
      ReachedOnlyIf(init, cutoff, limit, answers, p);
    } else {
      RunDescends(init, cutoff, limit, answers);
      var e, after := states[last - 1], states[last];
      var batch :| IsOldestBatch(e.reports, cutoff, limit, batch) && after == Purged(e, batch, cutoff, answers);
      MarkedOnlyIf(e, cutoff, limit, batch, answers, p);
      RefusedWaitAlike(states[0].reports, e.reports, cutoff, answers, e.reports[p].photo.value.retainedUntil);
    }
  }

  lemma {:induction false} ReachedIf(states: seq<Evidence>, cutoff: int, limit: nat, answers: Answers, p: nat)
    requires states != [] && ArePurgesBy(states, cutoff, limit, answers)
    requires p in ExpiredIds(states[0].reports, cutoff) && !IsRefused(states[0].reports[p], answers)
    requires var deadline := states[0].reports[p].photo.value.retainedUntil;
             |RefusedBy(states[0].reports, cutoff, answers, deadline)| < limit
    ensures var start, now := states[0].reports, states[|states| - 1].reports;
            var deadline := start[p].photo.value.retainedUntil;
            p in ExpiredIds(now, cutoff) ==>
              |DueBy(now, cutoff, deadline)| + |states| - 1 <= |DueBy(start, cutoff, deadline)|
  {
    if |states| > 1 {
      var last := |states| - 1;
      var init := states[..last];
      LastPurge(states, cutoff, limit, answers);
      ReachedIf(init, cutoff, limit, answers, p);
      RunDescends(init, cutoff, limit, answers);
      var e, after := states[last - 1], states[last];
      PurgeDescends(e, after, cutoff, limit, answers);
      var batch :| IsOldestBatch(e.reports, cutoff, limit, batch) && after == Purged(e, batch, cutoff, answers);
      if p in ExpiredIds(e.reports, cutoff) {
        RefusedWaitAlike(states[0].reports, e.reports, cutoff, answers, e.reports[p].photo.value.retainedUntil);
        WaitingShrinks(e, cutoff, limit, batch, answers, p);
      }
    }
  }

  predicate HasDistinctDeadlines(reports: map<nat, Report>, cutoff: int) {
    forall a, b :: a in ExpiredIds(reports, cutoff) && b in ExpiredIds(reports, cutoff) && a != b ==>
                     reports[a].photo.value.retainedUntil != reports[b].photo.value.retainedUntil
  }

  /**
   With distinct deadlines, as many purges as photos are due by then mark a photo
   exactly when the store lets it go and fewer refused photos than the limit are
   due before it.
   */
  lemma PhotoIsReachedIff(states: seq<Evidence>, cutoff: int, limit: nat, answers: Answers, p: nat)
    requires states != [] && ArePurgesBy(states, cutoff, limit, answers)
    requires HasDistinctDeadlines(states[0].reports, cutoff) && p in ExpiredIds(states[0].reports, cutoff)
    requires |states| - 1 >= |DueBy(states[0].reports, cutoff, states[0].reports[p].photo.value.retainedUntil)|
    ensures var start := states[0].reports;
            p !in ExpiredIds(states[|states| - 1].reports, cutoff)
            <==> !IsRefused(start[p], answers)
                 && |RefusedBefore(start, cutoff, answers, start[p].photo.value.retainedUntil)| < limit
  {
    var start, now := states[0].reports, states[|states| - 1].reports;
    var deadline := start[p].photo.value.retainedUntil;
    if p !in ExpiredIds(now, cutoff) {
      ReachedOnlyIf(states, cutoff, limit, answers, p);
    } else if !IsRefused(start[p], answers) {
      RunDescends(states, cutoff, limit, answers);
      assert p in DueBy(now, cutoff, deadline);
      RefusedByIsBefore(start, cutoff, answers, p);
      if |RefusedBefore(start, cutoff, answers, deadline)| < limit {
        ReachedIf(states, cutoff, limit, answers, p);
      }
    }
  }

  lemma RefusedByIsBefore(reports: map<nat, Report>, cutoff: int, answers: Answers, p: nat)
    requires HasDistinctDeadlines(reports, cutoff)
    requires p in ExpiredIds(reports, cutoff) && !IsRefused(reports[p], answers)
    ensures var deadline := reports[p].photo.value.retainedUntil;
            RefusedBy(reports, cutoff, answers, deadline) == RefusedBefore(reports, cutoff, answers, deadline)
  {
    var deadline := reports[p].photo.value.retainedUntil;
    forall id | id in RefusedBy(reports, cutoff, answers, deadline)
      ensures id in RefusedBefore(reports, cutoff, answers, deadline)
    {
      assert id in ExpiredIds(reports, cutoff) && id != p;
    }
  }

  /** Such backlogs exist: with a limit of one, the photo due first is refused and keeps the second one waiting. */
  lemma BlockedBacklog() returns (e: Evidence, head: seq<Report>, answers: Answers)
    ensures IsKeyed(e.reports) && NoOrphans(e)
    ensures IsStrictHead(e.reports, 10, 1, head) && Confirmed(head, answers) == {}
    ensures 2 in ExpiredIds(e.reports, 10) - IdsOf(head) && !IsRefused(e.reports[2], answers)
  {
    var first := Report(1, 1, Published, Some(Photo(Key(1, "a"), 1)), None);
    var second := Report(2, 1, Published, Some(Photo(Key(2, "b"), 2)), None);
    e := Evidence(map[1 := first, 2 := second], {Key(1, "a"), Key(2, "b")}, {});
    answers := (key: Key) => if key == Key(1, "a") then Kept else Removed;
    head := [first];
    assert ExpiredIds(e.reports, 10) == {1, 2};
    assert IdsOf(head) == {1} by {
      assert first in head;
    }
    assert HasDistinctIds(head);
  }
}
