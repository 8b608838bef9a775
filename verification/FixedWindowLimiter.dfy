/**
 The limiter shared by all replicas: one row for each key, written by an upsert
 that opens, counts or locks a fixed window, and deleted once it is stale. The
 calls below are made with or without that deletion, to compare the two.
 */
module FixedWindowLimiter {
  import opened Wrappers
  import opened LoginLimits

  datatype Row = Row(count: int, windowStart: real, lockedUntil: Option<real>, updatedAt: real)

  type Rows = map<string, Row>

  function RowOf(rows: Rows, key: string): Option<Row> {
    if key in rows then Some(rows[key]) else None
  }

  function CheckAnswer(row: Option<Row>, now: real): Answer {
    if row.Some? && row.value.lockedUntil.Some? && row.value.lockedUntil.value > now
    then Refuse(AtLeastOne(Ceiling(row.value.lockedUntil.value - now)))
    else Pass
  }

  function AnswerTo(rows: Rows, call: Call): Answer {
    if call.Check? then CheckAnswer(RowOf(rows, call.key), call.now) else Pass
  }

  /** The row the upsert leaves. A first failure never locks, whatever the limit. */
  function Upserted(limits: Limits, row: Option<Row>, now: real): Row {
    match row
    case None => Row(1, now, None, now)
    case Some(r) =>
      if r.windowStart <= now - limits.window then Row(1, now, None, now)
      else
        Row(r.count + 1, r.windowStart,
            if r.count + 1 >= limits.maxFailures then Some(now + limits.lock) else r.lockedUntil, now)
  }

  function Retention(limits: Limits): real {
    2.0 * if limits.window >= limits.lock then limits.window else limits.lock
  }

  function Kept(rows: Rows, horizon: real): Rows {
    map key | key in rows && !(rows[key].updatedAt < horizon) :: rows[key]
  }

  function After(limits: Limits, collect: bool, rows: Rows, call: Call): Rows {
    match call
    case Check(key, now) =>
      if key in rows && rows[key].lockedUntil.Some? && rows[key].lockedUntil.value <= now
      then rows - {key}
      else rows
    case Fail(key, now) =>
      var written := rows[key := Upserted(limits, RowOf(rows, key), now)];
      if collect then Kept(written, now - Retention(limits)) else written
    case Reset(key, _) => rows - {key}
  }

  class SqlLoginRateLimiter {
    const limits: Limits
    var rows: Rows

    constructor (limits: Limits)
      requires limits.Valid()
      ensures this.limits == limits && rows == map[]
    {
      this.limits := limits;
      rows := map[];
    }

    method CheckKey(key: string, now: real) returns (answer: Answer)
      modifies this
      ensures answer == AnswerTo(old(rows), Check(key, now))
      ensures rows == After(limits, true, old(rows), Check(key, now))
      ensures answer.Refuse? <==>
                key in old(rows) && old(rows)[key].lockedUntil.Some? && now < old(rows)[key].lockedUntil.value
      ensures answer.Refuse? ==>
                && answer.retryAfter as real - 1.0 < old(rows)[key].lockedUntil.value - now <= answer.retryAfter as real
                && rows == old(rows)
      ensures answer.Pass? ==>
                rows == if key in old(rows) && old(rows)[key].lockedUntil.Some? then old(rows) - {key} else old(rows)
    {
      var lockedUntil := if key in rows then rows[key].lockedUntil else None;
      if lockedUntil.Some? && lockedUntil.value > now {
        return Refuse(AtLeastOne(Ceiling(lockedUntil.value - now)));
      }
      if lockedUntil.Some? {
        ResetKey(key, now);
      }
      return Pass;
    }

    method RecordFailure(key: string, now: real)
      requires limits.Valid()
      modifies this
      ensures rows == After(limits, true, old(rows), Fail(key, now))
      ensures key !in old(rows) || old(rows)[key].windowStart + limits.window <= now ==>
                key in rows && rows[key] == Row(1, now, None, now)
      ensures key in old(rows) && now < old(rows)[key].windowStart + limits.window ==>
                var before := old(rows)[key];
                && key in rows && rows[key].count == before.count + 1
                && rows[key].windowStart == before.windowStart && rows[key].updatedAt == now
                && rows[key].lockedUntil == if before.count + 1 >= limits.maxFailures then Some(now + limits.lock)
                                            else before.lockedUntil
      ensures forall k :: k != key ==>
                (k in rows <==> && k in old(rows)
                                && (|| now <= old(rows)[k].updatedAt + 2.0 * limits.window
                                    || now <= old(rows)[k].updatedAt + 2.0 * limits.lock))
                && (k in rows ==> rows[k] == old(rows)[k])
    {
      var cutoff := now - limits.window;
      var row := Row(1, now, None, now);
      if key in rows {
        var before := rows[key];
        var expired := before.windowStart <= cutoff;
        var count := if expired then 1 else before.count + 1;
        var start := if expired then now else before.windowStart;
        var locked := if expired then None
                      else if before.count + 1 >= limits.maxFailures then Some(now + limits.lock)
                      else before.lockedUntil;
        row := Row(count, start, locked, now);
      }
      rows := rows[key := row];
      rows := Kept(rows, now - Retention(limits));
    }

    method ResetKey(key: string, now: real)
      modifies this
      ensures rows == old(rows) - {key} == After(limits, true, old(rows), Reset(key, now))
    {
      rows := rows - {key};
    }
  }

  // ------------------------------------------------------------ transparency

  /** The limiter as runs of calls use it, with or without the deletion of stale rows. */
  function FixedBy(limits: Limits, collect: bool): Limiter<Rows> {
    Limiter(map[], (rows: Rows, call: Call) => After(limits, collect, rows, call),
            (rows: Rows, call: Call) => AnswerTo(rows, call))
  }

  function Fixed(limits: Limits): Limiter<Rows> {
    FixedBy(limits, true)
  }

  function RowsAfter(limits: Limits, collect: bool, calls: seq<Call>): Rows {
    Run(FixedBy(limits, collect), calls).table
  }

  predicate IsSound(limits: Limits, row: Row, clock: real) {
    && row.windowStart <= row.updatedAt <= clock
    && (row.lockedUntil.Some? ==> row.lockedUntil.value <= row.updatedAt + limits.lock)
  }

  /** From the clock on, the row can neither refuse a check nor count towards a window. */
  predicate IsSpent(limits: Limits, row: Row, clock: real) {
    && row.windowStart + limits.window <= clock
    && (row.lockedUntil.Some? ==> row.lockedUntil.value <= clock)
  }

  /** With deletion a row is missing only if it is spent. */
  predicate Agree(limits: Limits, swept: Option<Row>, full: Option<Row>, clock: real) {
    && (full.Some? ==> IsSound(limits, full.value, clock))
    && (swept == full || (swept.None? && full.Some? && IsSpent(limits, full.value, clock)))
  }

  ghost predicate AllAgree(limits: Limits, swept: Rows, full: Rows, clock: real) {
    forall key :: Agree(limits, RowOf(swept, key), RowOf(full, key), clock)
  }

  lemma CallKeepsAgreement(limits: Limits, swept: Rows, full: Rows, clock: real, call: Call, key: string)
    requires limits.Valid() && clock <= call.now
    requires Agree(limits, RowOf(swept, key), RowOf(full, key), clock)
    ensures Agree(limits, RowOf(After(limits, true, swept, call), key),
                  RowOf(After(limits, false, full, call), key), call.now)
  {
  }

  lemma {:induction false} RunsAgree(limits: Limits, calls: seq<Call>, clock: real)
    requires limits.Valid() && IsClocked(calls)
    requires calls != [] ==> calls[|calls| - 1].now <= clock
    ensures AllAgree(limits, RowsAfter(limits, true, calls), RowsAfter(limits, false, calls), clock)
    decreases |calls|
  {
    if calls != [] {
      var front, call := calls[..|calls| - 1], calls[|calls| - 1];
      RunsAgree(limits, front, call.now);
      var swept, full := RowsAfter(limits, true, front), RowsAfter(limits, false, front);
      forall key ensures Agree(limits, RowOf(RowsAfter(limits, true, calls), key),
                               RowOf(RowsAfter(limits, false, calls), key), clock) {
        CallKeepsAgreement(limits, swept, full, call.now, call, key);
      }
    }
  }

  /** Deleting stale rows never changes an answer, for any key, in any run of calls whatever. */
  lemma RetentionIsTransparent(limits: Limits, calls: seq<Call>, i: nat)
    requires limits.Valid() && IsClocked(calls) && i < |calls|
    ensures AnswerTo(RowsAfter(limits, true, calls[..i]), calls[i])
            == AnswerTo(RowsAfter(limits, false, calls[..i]), calls[i])
  {
    RunsAgree(limits, calls[..i], calls[i].now);
    assert Agree(limits, RowOf(RowsAfter(limits, true, calls[..i]), calls[i].key),
                 RowOf(RowsAfter(limits, false, calls[..i]), calls[i].key), calls[i].now);
  }

  // ------------------------------------------------------------------ the lock

  /** The lock that ends at `until` is in the row, or over. */
  predicate LockStands(limits: Limits, row: Option<Row>, t: real, clock: real) {
    || (row.Some? && row.value.lockedUntil == Some(t + limits.lock) && row.value.updatedAt == t)
    || (row.None? && t + limits.lock <= clock)
  }

  lemma CallKeepsLock(limits: Limits, rows: Rows, call: Call, key: string, t: real, clock: real)
    requires limits.Valid() && clock <= call.now && (call.key == key ==> call.Check?)
    requires LockStands(limits, RowOf(rows, key), t, clock)
    ensures LockStands(limits, RowOf(After(limits, true, rows, call), key), t, call.now)
  {
  }

  lemma {:induction false} LockStandsLater(
      limits: Limits, calls: seq<Call>, later: seq<Call>, key: string, t: real, clock: real)
    requires limits.Valid() && IsClocked(later) && LeavesToChecks(later, key)
    requires forall i :: 0 <= i < |later| ==> t <= later[i].now <= clock
    requires t <= clock && LockStands(limits, RowOf(Run(Fixed(limits), calls).table, key), t, t)
    ensures LockStands(limits, RowOf(Run(Fixed(limits), calls + later).table, key), t, clock)
    decreases |later|
  {
    if later == [] {
      assert calls + later == calls;
    } else {
      var front, last := later[..|later| - 1], later[|later| - 1];
      LockStandsLater(limits, calls, front, key, t, last.now);
      assert (calls + later)[..|calls + later| - 1] == calls + front;
      CallKeepsLock(limits, Run(Fixed(limits), calls + front).table, last, key, t, last.now);
    }
  }

  /**
   A failure that locks a key locks it for exactly the lock's time: whatever is
   called on other keys, and however often this one is checked, deletion of stale
   rows included.
   */
  lemma LockLastsExactly(limits: Limits, calls: seq<Call>, key: string, t: real, later: seq<Call>, now: real)
    requires limits.Valid() && IsClocked(later) && LeavesToChecks(later, key) && t <= now
    requires forall i :: 0 <= i < |later| ==> t <= later[i].now <= now
    requires AnswerTo(Run(Fixed(limits), calls).table, Check(key, t)).Pass?
    requires AnswerTo(Run(Fixed(limits), calls + [Fail(key, t)]).table, Check(key, t)).Refuse?
    ensures AnswerTo(Run(Fixed(limits), calls + [Fail(key, t)] + later).table, Check(key, now)).Refuse?
            <==> now < t + limits.lock
  {
    var locking := calls + [Fail(key, t)];
    assert locking[..|locking| - 1] == calls;
    var rows := Run(Fixed(limits), locking).table;
    assert rows == After(limits, true, Run(Fixed(limits), calls).table, Fail(key, t));
    LockStandsLater(limits, locking, later, key, t, now);
  }

  // ---------------------------------------------------------------- histories

  /** How many failures in one window lock a key: a limit of one acts like two. */
  function Threshold(limits: Limits): (m: int)
    ensures m >= 2
  {
    if limits.maxFailures < 2 then 2 else limits.maxFailures
  }

  /** Two windows' worth of failures, less the one that locks each of them. */
  function Gap(limits: Limits): nat {
    2 * Threshold(limits) - 2
  }

  /** The window opened `count` failures ago, and whatever ended the one before it lies a span back. */
  predicate RowMatches(limits: Limits, row: Row, failed: seq<real>)
    requires failed != []
  {
    var m := Threshold(limits);
    && 1 <= row.count <= m && row.count <= |failed|
    && row.windowStart == failed[|failed| - row.count]
    && row.updatedAt == Last(failed)
    && row.lockedUntil == (if row.count >= m then Some(Last(failed) + limits.lock) else None)
    && (|failed| - row.count >= m - 1 ==>
          row.windowStart - failed[|failed| - row.count - (m - 1)] >= limits.Span())
  }

  predicate KeyInv(limits: Limits, row: Option<Row>, h: History, clock: real) {
    && IsOrdered(h.failed)
    && (h.failed != [] ==> Last(h.failed) <= clock)
    && (h.failed == [] ==> row.None?)
    && (h.failed != [] && row.None? ==> Last(h.failed) + limits.Span() <= clock)
    && (h.failed != [] && row.Some? ==> RowMatches(limits, row.value, h.failed))
    && (h.passed && row.Some? ==> row.value.lockedUntil.None?)
    && IsSpaced(h.failed, Gap(limits), limits.Span())
  }

  lemma FreshFailure(limits: Limits, failed: seq<real>, now: real)
    requires limits.Valid() && IsOrdered(failed)
    requires failed != [] ==> now - Last(failed) >= limits.Span()
    requires IsSpaced(failed, Gap(limits), limits.Span())
    ensures RowMatches(limits, Row(1, now, None, now), failed + [now])
    ensures IsSpaced(failed + [now], Gap(limits), limits.Span())
  {
    var n, m := |failed|, Threshold(limits);
    if n >= m - 1 {
      assert NoLater(failed, n - (m - 1), n - 1);
    }
    if n >= Gap(limits) {
      assert NoLater(failed, n - Gap(limits), n - 1);
    }
    SpacedExtends(failed, now, Gap(limits), limits.Span());
  }

  lemma ExpiredFailure(limits: Limits, row: Row, failed: seq<real>, now: real)
    requires limits.Valid() && IsOrdered(failed) && failed != [] && Last(failed) <= now
    requires RowMatches(limits, row, failed) && row.lockedUntil.None?
    requires now - row.windowStart >= limits.window
    requires IsSpaced(failed, Gap(limits), limits.Span())
    ensures RowMatches(limits, Row(1, now, None, now), failed + [now])
    ensures IsSpaced(failed + [now], Gap(limits), limits.Span())
  {
    var n, m := |failed|, Threshold(limits);
    if n >= m - 1 {
      assert NoLater(failed, n - (m - 1), n - row.count);
    }
    if n >= Gap(limits) {
      assert NoLater(failed, n - Gap(limits), n - row.count);
    }
    SpacedExtends(failed, now, Gap(limits), limits.Span());
  }

  lemma CountedFailure(limits: Limits, row: Row, failed: seq<real>, now: real)
    requires limits.Valid() && IsOrdered(failed) && failed != [] && Last(failed) <= now
    requires RowMatches(limits, row, failed) && row.lockedUntil.None?
    requires row.windowStart > now - limits.window
    requires IsSpaced(failed, Gap(limits), limits.Span())
    ensures RowMatches(limits, Upserted(limits, Some(row), now), failed + [now])
    ensures IsSpaced(failed + [now], Gap(limits), limits.Span())
  {
    var n, m := |failed|, Threshold(limits);
    var p := n - row.count;
    if n >= Gap(limits) {
      assert NoLater(failed, n - Gap(limits), p - (m - 1));
      assert NoLater(failed, p, n - 1);
    }
    SpacedExtends(failed, now, Gap(limits), limits.Span());
  }

  lemma FailureKeepsKeyInv(limits: Limits, row: Option<Row>, h: History, clock: real, now: real)
    requires limits.Valid() && clock <= now
    requires KeyInv(limits, row, h, clock) && h.passed
    ensures KeyInv(limits, Some(Upserted(limits, row, now)), History(h.failed + [now], false), now)
  {
    OrderedExtends(h.failed, now);
    if row.None? {
      FreshFailure(limits, h.failed, now);
    } else if row.value.windowStart <= now - limits.window {
      ExpiredFailure(limits, row.value, h.failed, now);
    } else {
      CountedFailure(limits, row.value, h.failed, now);
    }
  }

  lemma OwnCallKeepsKeyInv(limits: Limits, s: System<Rows>, call: Call, clock: real)
    requires limits.Valid() && clock <= call.now
    requires KeyInv(limits, RowOf(s.table, call.key), HistoryOf(s.histories, call.key), clock)
    requires call.Fail? ==> HistoryOf(s.histories, call.key).passed
    ensures var s' := Next(Fixed(limits), s, call);
            KeyInv(limits, RowOf(s'.table, call.key), HistoryOf(s'.histories, call.key), call.now)
  {
    var row, h := RowOf(s.table, call.key), HistoryOf(s.histories, call.key);
    var s' := Next(Fixed(limits), s, call);
    if call.Fail? {
      FailureKeepsKeyInv(limits, row, h, clock, call.now);
      assert RowOf(s'.table, call.key) == Some(Upserted(limits, row, call.now));
    }
  }

  /** Another key's call can only delete the row, and only once it is stale. */
  lemma OtherCallKeepsKeyInv(limits: Limits, s: System<Rows>, call: Call, clock: real, key: string)
    requires limits.Valid() && clock <= call.now && key != call.key
    requires KeyInv(limits, RowOf(s.table, key), HistoryOf(s.histories, key), clock)
    ensures var s' := Next(Fixed(limits), s, call);
            KeyInv(limits, RowOf(s'.table, key), HistoryOf(s'.histories, key), call.now)
  {
  }

  lemma {:induction false} RunKeepsKeyInv(limits: Limits, calls: seq<Call>, key: string, clock: real)
    requires limits.Valid() && IsClocked(calls) && IsSerial(Fixed(limits), calls, key)
    requires calls != [] ==> calls[|calls| - 1].now <= clock
    ensures var s := Run(Fixed(limits), calls);
            KeyInv(limits, RowOf(s.table, key), HistoryOf(s.histories, key), clock)
    decreases |calls|
  {
    if calls != [] {
      var front, call := calls[..|calls| - 1], calls[|calls| - 1];
      SerialPrefix(Fixed(limits), calls, key);
      RunKeepsKeyInv(limits, front, key, call.now);
      if call.key == key {
        OwnCallKeepsKeyInv(limits, Run(Fixed(limits), front), call, call.now);
      } else {
        OtherCallKeepsKeyInv(limits, Run(Fixed(limits), front), call, call.now, key);
      }
    }
  }

  /**
   In every run, with stale rows deleted along the way, any `2m - 1` consecutive
   failed logins on a key span at least the smaller of window and lock, where `m`
   is the limit, or two for a limit of one.
   */
  lemma FailuresAreSpaced(limits: Limits, calls: seq<Call>, key: string)
    requires limits.Valid() && IsClocked(calls) && IsSerial(Fixed(limits), calls, key)
    ensures IsSpaced(HistoryOf(Run(Fixed(limits), calls).histories, key).failed, Gap(limits), limits.Span())
  {
    RunKeepsKeyInv(limits, calls, key, if calls == [] then 0.0 else calls[|calls| - 1].now);
  }

  /** The limiter calls of one login: refused at the check, or checked and then failed or reset. */
  function LoginCalls(answer: Answer, key: string, checkAt: real, recordAt: real, accepted: bool): seq<Call> {
    if answer.Refuse? then [Check(key, checkAt)]
    else [Check(key, checkAt), if accepted then Reset(key, recordAt) else Fail(key, recordAt)]
  }

  /** Logins that run one after the other make serial calls, so the spacing holds for every run of them. */
  lemma LoginIsSerial(
      limits: Limits, calls: seq<Call>, key: string, checkAt: real, recordAt: real, accepted: bool, other: string)
    requires IsSerial(Fixed(limits), calls, other)
    ensures var answer := AnswerTo(Run(Fixed(limits), calls).table, Check(key, checkAt));
            IsSerial(Fixed(limits), calls + LoginCalls(answer, key, checkAt, recordAt, accepted), other)
  {
    var check := Check(key, checkAt);
    var answer := AnswerTo(Run(Fixed(limits), calls).table, check);
    SerialExtends(Fixed(limits), calls, check, other);
    if answer.Pass? {
      var last := if accepted then Reset(key, recordAt) else Fail(key, recordAt);
      SerialExtends(Fixed(limits), calls + [check], last, other);
      assert calls + [check] + [last] == calls + [check, last];
    }
  }

  // ---------------------------------------------------------------- tightness

  /** The key has an open window from `start` with `count` failures in it and the given history. */
  predicate InWindow(limits: Limits, s: System<Rows>, key: string, start: real, count: int, failed: seq<real>) {
    && RowOf(s.table, key).Some?
    && RowOf(s.table, key).value.count == count
    && RowOf(s.table, key).value.windowStart == start
    && (count < Threshold(limits) ==> RowOf(s.table, key).value.lockedUntil.None?)
    && HistoryOf(s.histories, key).failed == failed
  }

  /** Failures of a burst that go on counting in a window that is open. */
  lemma {:induction false} BurstCounts(
      limits: Limits, calls: seq<Call>, key: string, t: real, n: nat, start: real, count: int, failed: seq<real>)
    requires limits.Valid() && IsSerial(Fixed(limits), calls, key)
    requires InWindow(limits, Run(Fixed(limits), calls), key, start, count, failed)
    requires start > t - limits.window && 1 <= count && count + n <= Threshold(limits)
    ensures IsSerial(Fixed(limits), Burst(calls, key, t, n), key)
    ensures InWindow(limits, Run(Fixed(limits), Burst(calls, key, t, n)), key, start, count + n,
                     failed + Repeated(t, n))
    decreases n
  {
    if n == 0 {
      assert failed + Repeated(t, n) == failed;
    } else {
      var before, times := Burst(calls, key, t, n - 1), failed + Repeated(t, n - 1);
      BurstCounts(limits, calls, key, t, n - 1, start, count, failed);
      RepeatedExtends(failed, t, n);
      PairCounts(limits, before, Burst(calls, key, t, n), key, t, start, count + n - 1, times);
    }
  }

  lemma PairCounts(
      limits: Limits, calls: seq<Call>, after: seq<Call>, key: string, t: real, start: real, count: int,
      failed: seq<real>)
    requires limits.Valid() && IsSerial(Fixed(limits), calls, key)
    requires InWindow(limits, Run(Fixed(limits), calls), key, start, count, failed)
    requires start > t - limits.window && 1 <= count < Threshold(limits)
    requires after == calls + [Check(key, t)] + [Fail(key, t)]
    ensures IsSerial(Fixed(limits), after, key)
    ensures InWindow(limits, Run(Fixed(limits), after), key, start, count + 1, failed + [t])
  {
    var s := Run(Fixed(limits), calls);
    SerialExtends(Fixed(limits), calls, Check(key, t), key);
    var checked := Next(Fixed(limits), s, Check(key, t));
    assert RowOf(checked.table, key) == RowOf(s.table, key);
    SerialExtends(Fixed(limits), calls + [Check(key, t)], Fail(key, t), key);
    assert RowOf(Next(Fixed(limits), checked, Fail(key, t)).table, key)
        == Some(Upserted(limits, RowOf(s.table, key), t));
  }

  /** A failure that opens a window. */
  lemma PairOpens(limits: Limits, calls: seq<Call>, key: string, t: real, failed: seq<real>)
    requires limits.Valid() && IsSerial(Fixed(limits), calls, key)
    requires HistoryOf(Run(Fixed(limits), calls).histories, key).failed == failed
    requires var row := RowOf(Run(Fixed(limits), calls).table, key);
             row.None? || (row.value.lockedUntil.None? && row.value.windowStart <= t - limits.window)
    ensures IsSerial(Fixed(limits), calls + [Check(key, t)] + [Fail(key, t)], key)
    ensures InWindow(limits, Run(Fixed(limits), calls + [Check(key, t)] + [Fail(key, t)]), key, t, 1, failed + [t])
  {
    var s := Run(Fixed(limits), calls);
    SerialExtends(Fixed(limits), calls, Check(key, t), key);
    var checked := Next(Fixed(limits), s, Check(key, t));
    assert RowOf(checked.table, key) == RowOf(s.table, key);
    SerialExtends(Fixed(limits), calls + [Check(key, t)], Fail(key, t), key);
    assert RowOf(Next(Fixed(limits), checked, Fail(key, t)).table, key) == Some(Row(1, t, None, t));
  }

  /** A window opened at zero, nearly filled at `late`, then filled again from its expiry on. */
  function Straddle(limits: Limits, key: string, late: real): seq<Call> {
    var m := Threshold(limits);
    Burst(Burst(Burst(Burst([], key, 0.0, 1), key, late, m - 2), key, limits.window, 1), key, limits.window, m - 1)
  }

  lemma StraddleRuns(limits: Limits, key: string, late: real)
    requires limits.Valid() && 0.0 < late < limits.window
    ensures var m := Threshold(limits);
            && IsSerial(Fixed(limits), Straddle(limits, key, late), key)
            && HistoryOf(Run(Fixed(limits), Straddle(limits, key, late)).histories, key).failed
               == [0.0] + Repeated(late, m - 2) + [limits.window] + Repeated(limits.window, m - 1)
  {
    var m, w := Threshold(limits), limits.window;
    var one := Burst([], key, 0.0, 1);
    assert one == Burst([], key, 0.0, 0) + [Check(key, 0.0)] + [Fail(key, 0.0)];
    PairOpens(limits, [], key, 0.0, []);
    assert [] + [0.0] == [0.0];
    var two := Burst(one, key, late, m - 2);
    BurstCounts(limits, one, key, late, m - 2, 0.0, 1, [0.0]);
    var failed := [0.0] + Repeated(late, m - 2);
    var three := Burst(two, key, w, 1);
    assert three == Burst(two, key, w, 0) + [Check(key, w)] + [Fail(key, w)];
    PairOpens(limits, two, key, w, failed);
    BurstCounts(limits, three, key, w, m - 1, w, 1, failed + [w]);
  }

  lemma StraddleIsClocked(limits: Limits, key: string, late: real)
    requires limits.Valid() && 0.0 < late < limits.window
    ensures IsClocked(Straddle(limits, key, late))
  {
    var m, w := Threshold(limits), limits.window;
    var one := Burst([], key, 0.0, 1);
    BurstIsClocked([], key, 0.0, 1);
    var two := Burst(one, key, late, m - 2);
    BurstIsClocked(one, key, late, m - 2);
    var three := Burst(two, key, w, 1);
    BurstIsClocked(two, key, w, 1);
    BurstIsClocked(three, key, w, m - 1);
  }

  /**
   The bound is tight: one failure fewer fits into any fraction of the span,
   however small, and with a limit of two or less into a single moment.
   */
  lemma SpacingIsTight(limits: Limits, key: string, fraction: real)
    requires limits.Valid() && 0.0 < fraction < limits.Span()
    ensures var calls := Straddle(limits, key, limits.window - fraction);
            var failed := HistoryOf(Run(Fixed(limits), calls).histories, key).failed;
            && IsClocked(calls) && IsSerial(Fixed(limits), calls, key)
            && |failed| == Gap(limits) + 1
            && failed[Gap(limits)] - failed[1] == (if Threshold(limits) == 2 then 0.0 else fraction)
  {
    var late := limits.window - fraction;
    StraddleIsClocked(limits, key, late);
    StraddleRuns(limits, key, late);
    var m := Threshold(limits);
    var failed := [0.0] + Repeated(late, m - 2) + [limits.window] + Repeated(limits.window, m - 1);
    assert |failed| == 2 * m - 1;
    assert failed[1] == if m == 2 then limits.window else late;
  }

  /** A caller who waits the advised number of seconds gets past the lock. */
  lemma AdviceSuffices(row: Row, now: real)
    requires row.lockedUntil.Some? && row.lockedUntil.value > now
    ensures var answer := CheckAnswer(Some(row), now);
            answer.Refuse? && CheckAnswer(Some(row), now + answer.retryAfter as real).Pass?
  {
  }
}
