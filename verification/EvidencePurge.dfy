/** The purge of expired photos: which ones it takes, what it does to them, and how purges drain a backlog. */
module EvidencePurge {
  import opened Wrappers
  import opened Sorting
  import opened Evidence

  const MAX_PURGE := 500

  datatype PurgeResult = PurgeResult(scanned: nat, deleted: nat, failed: nat)

  function ExpiredIds(reports: map<nat, Report>, cutoff: int): set<nat> {
    set id | id in reports && IsExpired(reports[id], cutoff)
  }

  function IdsOf(batch: seq<Report>): set<nat> {
    set r | r in batch :: r.id
  }

  predicate HasDistinctIds(batch: seq<Report>) {
    forall i: nat, j: nat :: i < j < |batch| ==> batch[i].id != batch[j].id
  }

  predicate AreExpiredRows(reports: map<nat, Report>, cutoff: int, batch: seq<Report>) {
    forall r :: r in batch ==> r.id in reports && reports[r.id] == r && IsExpired(r, cutoff)
  }

  /** No photo outside the batch is due before one inside it. */
  predicate AreOldest(reports: map<nat, Report>, cutoff: int, batch: seq<Report>) {
    forall r, id :: r in batch && IsExpired(r, cutoff) && id in ExpiredIds(reports, cutoff) - IdsOf(batch) ==>
                      r.photo.value.retainedUntil <= reports[id].photo.value.retainedUntil
  }

  function Least(a: nat, b: nat): nat {
    if a < b then a else b
  }

  /** What a repository may answer when asked for expired photos; ties in the deadline are free. */
  predicate IsOldestBatch(reports: map<nat, Report>, cutoff: int, limit: nat, batch: seq<Report>) {
    && HasDistinctIds(batch)
    && AreExpiredRows(reports, cutoff, batch)
    && |batch| == Least(limit, |ExpiredIds(reports, cutoff)|)
    && AreOldest(reports, cutoff, batch)
  }

  /** A photo left out although it is due has a deadline no earlier than any in the batch, and the batch is full. */
  lemma OldestBatchMeaning(reports: map<nat, Report>, cutoff: int, limit: nat, batch: seq<Report>)
    requires IsKeyed(reports) && IsOldestBatch(reports, cutoff, limit, batch)
    ensures forall r, id :: r in batch && id in reports && reports[id] !in batch && reports[id].photo.Some?
                            && reports[id].deletedAt.None? && reports[id].photo.value.retainedUntil <= cutoff ==>
              |batch| == limit && r.photo.value.retainedUntil <= reports[id].photo.value.retainedUntil
  {
    forall r, id | r in batch && id in reports && reports[id] !in batch && reports[id].photo.Some?
                   && reports[id].deletedAt.None? && reports[id].photo.value.retainedUntil <= cutoff
      ensures |batch| == limit && r.photo.value.retainedUntil <= reports[id].photo.value.retainedUntil
    {
      assert id in ExpiredIds(reports, cutoff) && id !in IdsOf(batch);
      DistinctIdsCount(batch);
      ProperSubsetIsSmaller(IdsOf(batch), ExpiredIds(reports, cutoff), id);
    }
  }

  lemma ProperSubsetIsSmaller<T>(a: set<T>, b: set<T>, x: T)
    requires a <= b && x in b && x !in a
    ensures |a| < |b|
  {
    SubsetIsNoLarger(a, b);
    assert x in b - a;
  }

  /** The store's answers during one purge, which deletes each key at most once. */
  type Answers = Key -> DeleteOutcome

  function Confirmed(batch: seq<Report>, answers: Answers): set<nat> {
    set r | r in batch && r.photo.Some? && answers(r.photo.value.key).Removed? :: r.id
  }

  function Gone(batch: seq<Report>, answers: Answers): set<Key> {
    set r | r in batch && r.photo.Some? && !answers(r.photo.value.key).Kept? :: r.photo.value.key
  }

  function Marked(reports: map<nat, Report>, ids: set<nat>, at: int): map<nat, Report> {
    map id | id in reports :: if id in ids then reports[id].(deletedAt := Some(at)) else reports[id]
  }

  /** Exactly the confirmed photos are marked, and exactly the objects the store let go are gone. */
  function Purged(e: Evidence, batch: seq<Report>, at: int, answers: Answers): Evidence {
    Evidence(Marked(e.reports, Confirmed(batch, answers), at), e.objects - Gone(batch, answers), e.leaked)
  }

  // ------------------------------------------------- the repository's selection

  function RowsOf(reports: map<nat, Report>, order: seq<nat>): seq<Report>
    requires forall id :: id in order ==> id in reports
  {
    seq(|order|, i requires 0 <= i < |order| => reports[order[i]])
  }

  function DueAt(r: Report, fallback: int): int {
    if r.photo.Some? then r.photo.value.retainedUntil else fallback
  }

  function ByDeadline(cutoff: int): (Report, Report) -> bool {
    (a: Report, b: Report) => DueAt(a, cutoff) <= DueAt(b, cutoff)
  }

  function ExpiredIn(rows: seq<Report>, cutoff: int): seq<Report> {
    Filter((r: Report) => IsExpired(r, cutoff), rows)
  }

  lemma {:induction false} FilterKeepsDistinctIds(keep: Report -> bool, s: seq<Report>)
    requires HasDistinctIds(s)
    ensures HasDistinctIds(Filter(keep, s))
  {
    if s != [] {
      var init := s[..|s| - 1];
      FilterKeepsDistinctIds(keep, init);
      FilterMembers(keep, init);
      forall r | r in Filter(keep, init) ensures r.id != s[|s| - 1].id {
        var i: nat :| i < |init| && init[i] == r;
        assert s[i] == r;
      }
    }
  }

  lemma {:induction false} DistinctIdsCount(s: seq<Report>)
    requires HasDistinctIds(s)
    ensures |IdsOf(s)| == |s|
  {
    if s != [] {
      var last := s[|s| - 1];
      var init := s[..|s| - 1];
      DistinctIdsCount(init);
      assert s == init + [last];
      assert last.id !in IdsOf(init);
      assert IdsOf(s) == IdsOf(init) + {last.id};
    }
  }

  lemma PermutationKeepsDistinctIds(s: seq<Report>, t: seq<Report>)
    requires HasDistinctIds(s) && multiset(s) == multiset(t)
    ensures HasDistinctIds(t)
  {
    forall i: nat, j: nat | i < j < |t| ensures t[i].id != t[j].id {
      if t[i].id == t[j].id {
        assert t[i] in multiset(s) && t[j] in multiset(s);
        var k: nat :| k < |s| && s[k] == t[i];
        assert t[j] == s[k];
        OccursOnce(s, k);
        OccursTwice(t, i, j);
        assert false;
      }
    }
  }

  lemma OccursOnce(s: seq<Report>, k: nat)
    requires HasDistinctIds(s) && k < |s|
    ensures multiset(s)[s[k]] == 1
  {
    assert s == s[..k] + [s[k]] + s[k + 1..];
    assert s[k] !in s[..k] && s[k] !in s[k + 1..];
    assert multiset(s) == multiset(s[..k]) + multiset{s[k]} + multiset(s[k + 1..]);
  }

  lemma OccursTwice<T>(t: seq<T>, i: nat, j: nat)
    requires i < j < |t| && t[i] == t[j]
    ensures multiset(t)[t[i]] >= 2
  {
    assert t == t[..i] + [t[i]] + t[i + 1..j] + [t[j]] + t[j + 1..];
    assert multiset(t)
        == multiset(t[..i]) + multiset{t[i]} + multiset(t[i + 1..j]) + multiset{t[j]} + multiset(t[j + 1..]);
  }

  /** The expired rows, each once. */
  predicate AreTheExpired(reports: map<nat, Report>, cutoff: int, rows: seq<Report>) {
    && HasDistinctIds(rows)
    && AreExpiredRows(reports, cutoff, rows)
    && (forall id :: id in ExpiredIds(reports, cutoff) ==> reports[id] in rows)
    && IdsOf(rows) == ExpiredIds(reports, cutoff)
  }

  lemma SplitMembers<T>(all: seq<T>, a: seq<T>, b: seq<T>)
    requires multiset(a + b) == multiset(all)
    ensures forall x :: x in all <==> x in a || x in b
    ensures |a| + |b| == |all|
  {
    forall x ensures x in all <==> x in a || x in b {
      assert x in all <==> x in multiset(a + b);
      assert x in a + b <==> x in a || x in b;
    }
    assert |multiset(a + b)| == |multiset(all)|;
  }

  /** The head of an ordering of the expired rows is an oldest batch. */
  lemma FirstRowsAreOldest(reports: map<nat, Report>, cutoff: int, limit: nat,
                           expired: seq<Report>, batch: seq<Report>, rest: seq<Report>)
    requires AreTheExpired(reports, cutoff, expired) && multiset(batch + rest) == multiset(expired)
    requires |batch| <= limit && (rest == [] || |batch| == limit)
    requires IsAhead(ByDeadline(cutoff), batch, rest)
    ensures IsOldestBatch(reports, cutoff, limit, batch)
  {
    PermutationKeepsDistinctIds(expired, batch + rest);
    assert forall i: nat :: i < |batch| ==> (batch + rest)[i] == batch[i];
    SplitMembers(expired, batch, rest);
    DistinctIdsCount(expired);
    RowsBehindAreLater(reports, cutoff, expired, batch, rest);
  }

  lemma RowsBehindAreLater(reports: map<nat, Report>, cutoff: int,
                           expired: seq<Report>, batch: seq<Report>, rest: seq<Report>)
    requires AreTheExpired(reports, cutoff, expired)
    requires forall r :: r in expired <==> r in batch || r in rest
    requires IsAhead(ByDeadline(cutoff), batch, rest)
    ensures AreOldest(reports, cutoff, batch)
  {
  }

  /** Sorting the expired rows by deadline and taking the first few answers with an oldest batch. */
  lemma HeadIsOldestBatch(reports: map<nat, Report>, order: seq<nat>, cutoff: int, limit: nat)
    requires IsKeyed(reports)
    requires forall i: nat, j: nat :: i < j < |order| ==> order[i] != order[j]
    requires forall id :: id in order <==> id in reports
    ensures IsOldestBatch(reports, cutoff, limit,
                          Head(Sort(ByDeadline(cutoff), ExpiredIn(RowsOf(reports, order), cutoff)), limit))
  {
    var rows := RowsOf(reports, order);
    ExpiredRowsAre(reports, order, cutoff);
    var expired := ExpiredIn(rows, cutoff);
    var rest := HeadIsBest(ByDeadline(cutoff), expired, limit);
    FirstRowsAreOldest(reports, cutoff, limit, expired, Head(Sort(ByDeadline(cutoff), expired), limit), rest);
  }

  lemma ExpiredRowsAre(reports: map<nat, Report>, order: seq<nat>, cutoff: int)
    requires IsKeyed(reports)
    requires forall i: nat, j: nat :: i < j < |order| ==> order[i] != order[j]
    requires forall id :: id in order <==> id in reports
    ensures AreTheExpired(reports, cutoff, ExpiredIn(RowsOf(reports, order), cutoff))
  {
    var rows := RowsOf(reports, order);
    var expired := ExpiredIn(rows, cutoff);
    FilterMembers((r: Report) => IsExpired(r, cutoff), rows);
    FilterKeepsDistinctIds((r: Report) => IsExpired(r, cutoff), rows);
    forall id | id in ExpiredIds(reports, cutoff) ensures reports[id] in expired {
      var i: nat :| i < |order| && order[i] == id;
      assert rows[i] == reports[id];
    }
    forall id | id in ExpiredIds(reports, cutoff) ensures id in IdsOf(expired) {
      assert reports[id] in expired && reports[id].id == id;
    }
  }

  // ------------------------------------------------------------ what a purge does

  lemma ConfirmedNext(batch: seq<Report>, i: nat, answers: Answers)
    requires i < |batch| && HasDistinctIds(batch) && batch[i].photo.Some?
    ensures Confirmed(batch[..i + 1], answers)
         == Confirmed(batch[..i], answers) + if answers(batch[i].photo.value.key).Removed? then {batch[i].id} else {}
    ensures batch[i].id !in Confirmed(batch[..i], answers)
    ensures |Confirmed(batch[..i + 1], answers)|
         == |Confirmed(batch[..i], answers)| + if answers(batch[i].photo.value.key).Removed? then 1 else 0
  {
  }

  lemma GoneNext(batch: seq<Report>, i: nat, answers: Answers)
    requires i < |batch| && batch[i].photo.Some?
    ensures var key := batch[i].photo.value.key;
            Gone(batch[..i + 1], answers) == Gone(batch[..i], answers) + if answers(key).Kept? then {} else {key}
  {
  }

  lemma MarkedNext(reports: map<nat, Report>, ids: set<nat>, id: nat, at: int)
    requires id in reports && id !in ids
    ensures Marked(reports, ids, at)[id] == reports[id]
    ensures Marked(reports, ids + {id}, at) == Marked(reports, ids, at)[id := reports[id].(deletedAt := Some(at))]
  {
  }

  /** One more photo of the batch. */
  lemma PurgeNext(e: Evidence, batch: seq<Report>, i: nat, at: int, answers: Answers)
    requires i < |batch| && HasDistinctIds(batch) && AreExpiredRows(e.reports, at, batch)
    ensures var so, id := Purged(e, batch[..i], at, answers), batch[i].id;
            && id in so.reports && so.reports[id] == batch[i]
            && PhotoDeleted(so, id, at, answers(batch[i].photo.value.key)).0 == Purged(e, batch[..i + 1], at, answers)
  {
    var r := batch[i];
    assert r.id in e.reports && e.reports[r.id] == r && IsExpired(r, at);
    ConfirmedNext(batch, i, answers);
    GoneNext(batch, i, answers);
    MarkedNext(e.reports, Confirmed(batch[..i], answers), r.id, at);
    PurgedStep(e, Confirmed(batch[..i], answers), Gone(batch[..i], answers), r, at, answers(r.photo.value.key));
  }

  lemma PurgedStep(e: Evidence, ids: set<nat>, gone: set<Key>, r: Report, at: int, outcome: DeleteOutcome)
    requires r.id in e.reports && e.reports[r.id] == r && IsAvailable(r) && r.id !in ids
    ensures var so := Evidence(Marked(e.reports, ids, at), e.objects - gone, e.leaked);
            var key := r.photo.value.key;
            && so.reports[r.id] == r
            && PhotoDeleted(so, r.id, at, outcome).0
               == Evidence(Marked(e.reports, ids + if outcome.Removed? then {r.id} else {}, at),
                           e.objects - (gone + if outcome.Kept? then {} else {key}),
                           e.leaked)
  {
  }

  /** A purge takes exactly its confirmed deletions off the backlog and touches no other report or object. */
  lemma PurgeProgress(e: Evidence, cutoff: int, limit: nat, batch: seq<Report>, answers: Answers)
    requires IsOldestBatch(e.reports, cutoff, limit, batch)
    ensures var after := Purged(e, batch, cutoff, answers);
            && ExpiredIds(after.reports, cutoff) == ExpiredIds(e.reports, cutoff) - Confirmed(batch, answers)
            && |ExpiredIds(after.reports, cutoff)|
               == |ExpiredIds(e.reports, cutoff)| - |Confirmed(batch, answers)|
            && Confirmed(batch, answers) <= IdsOf(batch) <= ExpiredIds(e.reports, cutoff)
            && |Confirmed(batch, answers)| <= |batch| <= limit
            && after.reports.Keys == e.reports.Keys
            && (forall id :: id in e.reports && id !in Confirmed(batch, answers) ==> after.reports[id] == e.reports[id])
            && (forall key :: key in e.objects && key !in after.objects ==>
                  exists r :: r in batch && r.photo.Some? && r.photo.value.key == key)
  {
    var confirmed := Confirmed(batch, answers);
    DistinctIdsCount(batch);
    SubsetIsNoLarger(confirmed, IdsOf(batch));
    assert IdsOf(batch) <= ExpiredIds(e.reports, cutoff);
    var after := Purged(e, batch, cutoff, answers);
    assert ExpiredIds(after.reports, cutoff) == ExpiredIds(e.reports, cutoff) - confirmed;
  }

  lemma SubsetIsNoLarger<T>(a: set<T>, b: set<T>)
    requires a <= b
    ensures |a| <= |b| && |b - a| == |b| - |a|
  {
  }

  // ------------------------------------------------------------ draining a backlog

  /** A purge in which the store confirmed every deletion. */
  ghost predicate IsCleanPurge(e: Evidence, after: Evidence, cutoff: int, limit: nat) {
    exists batch :: IsOldestBatch(e.reports, cutoff, limit, batch)
                    && after == Purged(e, batch, cutoff, (key: Key) => Removed)
  }

  ghost predicate ArePurges(states: seq<Evidence>, cutoff: int, limit: nat) {
    forall i: nat :: i + 1 < |states| ==> IsCleanPurge(states[i], states[i + 1], cutoff, limit)
  }

  /** `left` is what remains of the backlog of `e` once its `gone` photos with the earliest deadlines are purged. */
  predicate IsTail(e: Evidence, left: Evidence, cutoff: int) {
    && ExpiredIds(left.reports, cutoff) <= ExpiredIds(e.reports, cutoff)
    && left.reports.Keys == e.reports.Keys
    && (forall id :: id in ExpiredIds(left.reports, cutoff) ==> left.reports[id] == e.reports[id])
    && (forall gone, kept :: gone in ExpiredIds(e.reports, cutoff) - ExpiredIds(left.reports, cutoff)
                             && kept in ExpiredIds(left.reports, cutoff) ==>
          e.reports[gone].photo.value.retainedUntil <= e.reports[kept].photo.value.retainedUntil)
    && (forall gone :: gone in ExpiredIds(e.reports, cutoff) - ExpiredIds(left.reports, cutoff) ==>
          e.reports[gone].photo.value.key !in left.objects)
    && left.objects <= e.objects
  }

  lemma CleanPurgeLeavesTail(e: Evidence, after: Evidence, cutoff: int, limit: nat)
    requires IsCleanPurge(e, after, cutoff, limit)
    ensures IsTail(e, after, cutoff)
    ensures |ExpiredIds(after.reports, cutoff)|
         == |ExpiredIds(e.reports, cutoff)| - Least(limit, |ExpiredIds(e.reports, cutoff)|)
  {
    var answers: Answers := (key: Key) => Removed;
    var batch :| IsOldestBatch(e.reports, cutoff, limit, batch) && after == Purged(e, batch, cutoff, answers);
    PurgeProgress(e, cutoff, limit, batch, answers);
    DistinctIdsCount(batch);
    assert Confirmed(batch, answers) == IdsOf(batch);
    forall gone | gone in ExpiredIds(e.reports, cutoff) - ExpiredIds(after.reports, cutoff)
      ensures e.reports[gone] in batch && e.reports[gone].photo.value.key !in after.objects
    {
      var r: Report :| r in batch && r.id == gone;
      assert r.photo.value.key in Gone(batch, answers);
    }
  }

  lemma TailOfTail(a: Evidence, b: Evidence, c: Evidence, cutoff: int)
    requires IsTail(a, b, cutoff) && IsTail(b, c, cutoff)
    ensures IsTail(a, c, cutoff)
  {
  }

  /** Purging k times with limit L leaves max(0, n - kL) expired photos: those with the latest deadlines. */
  lemma {:induction false} PurgesDrain(states: seq<Evidence>, cutoff: int, limit: nat)
    requires states != [] && ArePurges(states, cutoff, limit)
    ensures var n, k, last := |ExpiredIds(states[0].reports, cutoff)|, |states| - 1, states[|states| - 1];
            && |ExpiredIds(last.reports, cutoff)| == (if n > k * limit then n - k * limit else 0)
            && IsTail(states[0], last, cutoff)
  {
    if |states| > 1 {
      var init := states[..|states| - 1];
      PurgesDrain(init, cutoff, limit);
      CleanPurgeLeavesTail(states[|states| - 2], states[|states| - 1], cutoff, limit);
      TailOfTail(states[0], states[|states| - 2], states[|states| - 1], cutoff);
      assert (|states| - 1) * limit == (|states| - 2) * limit + limit;
    }
  }

  // --------------------------------------------------------- a head that keeps failing

  ghost predicate IsPurge(e: Evidence, after: Evidence, cutoff: int, limit: nat, answers: Answers) {
    exists batch :: IsOldestBatch(e.reports, cutoff, limit, batch) && after == Purged(e, batch, cutoff, answers)
  }

  /** The head fills the limit, and every other expired photo is due strictly later. */
  predicate IsStrictHead(reports: map<nat, Report>, cutoff: int, limit: nat, head: seq<Report>) {
    && IsOldestBatch(reports, cutoff, limit, head) && |head| == limit
    && forall r, id :: r in head && IsExpired(r, cutoff) && id in ExpiredIds(reports, cutoff) - IdsOf(head) ==>
                         r.photo.value.retainedUntil < reports[id].photo.value.retainedUntil
  }

  lemma InHeadOrInBatch(reports: map<nat, Report>, cutoff: int, limit: nat,
                        head: seq<Report>, batch: seq<Report>, h: nat, b: nat)
    requires IsStrictHead(reports, cutoff, limit, head) && IsOldestBatch(reports, cutoff, limit, batch)
    requires h in IdsOf(head) && b in IdsOf(batch)
    ensures h in IdsOf(batch) || b in IdsOf(head)
  {
  }

  lemma CrossingSetsAreNested<T>(a: set<T>, b: set<T>)
    requires forall x, y :: x in a && y in b ==> x in b || y in a
    ensures a <= b || b <= a
  {
  }

  lemma NestedSetsOfOneSize<T>(a: set<T>, b: set<T>)
    requires |a| == |b| && a <= b
    ensures a == b
  {
    SubsetIsNoLarger(a, b);
    assert b == a + (b - a);
  }

  lemma StrictHeadIsTheBatch(reports: map<nat, Report>, cutoff: int, limit: nat, head: seq<Report>, batch: seq<Report>)
    requires IsStrictHead(reports, cutoff, limit, head) && IsOldestBatch(reports, cutoff, limit, batch)
    ensures IdsOf(batch) == IdsOf(head)
  {
    DistinctIdsCount(head);
    DistinctIdsCount(batch);
    forall h, b | h in IdsOf(head) && b in IdsOf(batch) ensures h in IdsOf(batch) || b in IdsOf(head) {
      InHeadOrInBatch(reports, cutoff, limit, head, batch, h, b);
    }
    CrossingSetsAreNested(IdsOf(head), IdsOf(batch));
    if IdsOf(head) <= IdsOf(batch) {
      NestedSetsOfOneSize(IdsOf(head), IdsOf(batch));
    } else {
      NestedSetsOfOneSize(IdsOf(batch), IdsOf(head));
    }
  }

  lemma SameIdsSameConfirmed(reports: map<nat, Report>, cutoff: int, a: seq<Report>, b: seq<Report>, answers: Answers)
    requires AreExpiredRows(reports, cutoff, a) && AreExpiredRows(reports, cutoff, b) && IdsOf(a) == IdsOf(b)
    ensures Confirmed(a, answers) == Confirmed(b, answers)
  {
    forall id ensures id in Confirmed(a, answers) <==> id in Confirmed(b, answers) {
      if id in IdsOf(a) {
        assert id in IdsOf(b);
        assert reports[id] in a && reports[id] in b;
      }
    }
  }

  /** Consecutive purges with one cutoff and limit, by a store that always answers alike. */
  ghost predicate ArePurgesBy(states: seq<Evidence>, cutoff: int, limit: nat, answers: Answers) {
    forall i: nat :: i + 1 < |states| ==> IsPurgeAt(states, i, cutoff, limit, answers)
  }

  ghost predicate IsPurgeAt(states: seq<Evidence>, i: nat, cutoff: int, limit: nat, answers: Answers)
    requires i + 1 < |states|
  {
    IsPurge(states[i], states[i + 1], cutoff, limit, answers)
  }

  lemma LastPurge(states: seq<Evidence>, cutoff: int, limit: nat, answers: Answers)
    requires |states| > 1 && ArePurgesBy(states, cutoff, limit, answers)
    ensures ArePurgesBy(states[..|states| - 1], cutoff, limit, answers)
    ensures IsPurge(states[|states| - 2], states[|states| - 1], cutoff, limit, answers)
  {
    var init := states[..|states| - 1];
    forall i: nat | i + 1 < |init| ensures IsPurgeAt(init, i, cutoff, limit, answers) {
      assert IsPurgeAt(states, i, cutoff, limit, answers);
    }
    assert IsPurgeAt(states, |states| - 2, cutoff, limit, answers);
  }

  /** While the store keeps refusing the photos due first, no purge ever gets past them. */
  lemma {:induction false} FailingHeadBlocksPurges(states: seq<Evidence>, cutoff: int, limit: nat,
                                                   head: seq<Report>, answers: Answers)
    requires states != [] && ArePurgesBy(states, cutoff, limit, answers)
    requires IsStrictHead(states[0].reports, cutoff, limit, head) && Confirmed(head, answers) == {}
    ensures states[|states| - 1].reports == states[0].reports
  {
    if |states| > 1 {
      var init := states[..|states| - 1];
      LastPurge(states, cutoff, limit, answers);
      FailingHeadBlocksPurges(init, cutoff, limit, head, answers);
      var e, after := states[|states| - 2], states[|states| - 1];
      var batch :| IsOldestBatch(e.reports, cutoff, limit, batch) && after == Purged(e, batch, cutoff, answers);
      StrictHeadIsTheBatch(e.reports, cutoff, limit, head, batch);
      SameIdsSameConfirmed(e.reports, cutoff, head, batch, answers);
      assert Marked(e.reports, {}, cutoff) == e.reports;
    }
  }
}
