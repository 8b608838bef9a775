/** The single-process limiter: a list of recent failure times for each key. */
module SlidingWindowLimiter {
  import opened Wrappers
  import opened LoginLimits

  datatype AttemptState = AttemptState(failures: seq<real>, lockedUntil: Option<real>)

  type States = map<string, AttemptState>

  /** The timestamps that lie after the cutoff, in order. */
  function Recent(times: seq<real>, cutoff: real): seq<real> {
    if times == [] then []
    else (if times[0] > cutoff then [times[0]] else []) + Recent(times[1..], cutoff)
  }

  function StateOf(states: States, key: string): Option<AttemptState> {
    if key in states then Some(states[key]) else None
  }

  function CheckAnswer(state: Option<AttemptState>, now: real): Answer {
    if state.Some? && state.value.lockedUntil.Some? && state.value.lockedUntil.value > now
    then Refuse(AtLeastOne((state.value.lockedUntil.value - now).Floor))
    else Pass
  }

  function AnswerTo(states: States, call: Call): Answer {
    if call.Check? then CheckAnswer(StateOf(states, call.key), call.now) else Pass
  }

  function Recorded(limits: Limits, state: Option<AttemptState>, now: real): AttemptState {
    var before := if state.Some? then state.value else AttemptState([], None);
    var failures := Recent(before.failures, now - limits.window) + [now];
    AttemptState(failures, if |failures| >= limits.maxFailures then Some(now + limits.lock) else before.lockedUntil)
  }

  function After(limits: Limits, states: States, call: Call): States {
    match call
    case Check(key, now) =>
      if key in states && states[key].lockedUntil.Some? && states[key].lockedUntil.value <= now
      then states - {key}
      else states
    case Fail(key, now) => states[key := Recorded(limits, StateOf(states, key), now)]
    case Reset(key, _) => states - {key}
  }

  class InMemoryLoginRateLimiter {
    const limits: Limits
    var states: States

    constructor (limits: Limits)
      requires limits.Valid()
      ensures this.limits == limits && states == map[]
    {
      this.limits := limits;
      states := map[];
    }

    method CheckKey(key: string, now: real) returns (answer: Answer)
      modifies this
      ensures answer == AnswerTo(old(states), Check(key, now))
      ensures states == After(limits, old(states), Check(key, now))
      ensures answer.Refuse? <==>
                key in old(states) && old(states)[key].lockedUntil.Some? && now < old(states)[key].lockedUntil.value
      ensures answer.Refuse? ==>
                var left := old(states)[key].lockedUntil.value - now;
                && states == old(states)
                && if left < 1.0 then answer.retryAfter == 1
                   else answer.retryAfter as real <= left < answer.retryAfter as real + 1.0
      ensures answer.Pass? ==>
                states == if key in old(states) && old(states)[key].lockedUntil.Some? then old(states) - {key}
                          else old(states)
    {
      if key !in states {
        return Pass;
      }
      var state := states[key];
      if state.lockedUntil.Some? && state.lockedUntil.value > now {
        return Refuse(AtLeastOne((state.lockedUntil.value - now).Floor));
      }
      if state.lockedUntil.Some? {
        states := states - {key};
      }
      return Pass;
    }

    method RecordFailure(key: string, now: real)
      modifies this
      ensures states == After(limits, old(states), Fail(key, now))
      ensures key in states
      ensures var before := if key in old(states) then old(states)[key] else AttemptState([], None);
              var after := states[key];
              && (forall t :: t in after.failures <==> t == now || (t in before.failures && t > now - limits.window))
              && after.lockedUntil == if |after.failures| >= limits.maxFailures then Some(now + limits.lock)
                                      else before.lockedUntil
      ensures forall k :: k != key ==>
                (k in states <==> k in old(states)) && (k in states ==> states[k] == old(states)[k])
    {
      var state := if key in states then states[key] else AttemptState([], None);
      var recent := [];
      for i := 0 to |state.failures|
        invariant recent == Recent(state.failures[..i], now - limits.window)
        modifies {}
      {
        RecentExtends(state.failures[..i], state.failures[i], now - limits.window);
        assert state.failures[..i + 1] == state.failures[..i] + [state.failures[i]];
        if state.failures[i] > now - limits.window {
          recent := recent + [state.failures[i]];
        }
      }
      assert state.failures[..|state.failures|] == state.failures;
      RecentMembers(state.failures, now - limits.window);
      recent := recent + [now];
      var locked := state.lockedUntil;
      if |recent| >= limits.maxFailures {
        locked := Some(now + limits.lock);
      }
      states := states[key := AttemptState(recent, locked)];
    }

    method ResetKey(key: string, now: real)
      modifies this
      ensures states == old(states) - {key} == After(limits, old(states), Reset(key, now))
    {
      states := states - {key};
    }
  }

  /** Exactly the times after the cutoff are recent, each as often as it was there. */
  lemma {:induction false} RecentCounts(times: seq<real>, cutoff: real)
    ensures forall t :: multiset(Recent(times, cutoff))[t] == if t > cutoff then multiset(times)[t] else 0
  {
    if times != [] {
      RecentCounts(times[1..], cutoff);
      assert times == [times[0]] + times[1..];
    }
  }

  lemma {:induction false} RecentMembers(times: seq<real>, cutoff: real)
    ensures forall t :: t in Recent(times, cutoff) <==> t in times && t > cutoff
  {
    if times != [] {
      RecentMembers(times[1..], cutoff);
    }
  }

  lemma {:induction false} RecentExtends(times: seq<real>, t: real, cutoff: real)
    ensures Recent(times + [t], cutoff) == Recent(times, cutoff) + if t > cutoff then [t] else []
  {
    if times == [] {
      assert times + [t] == [t];
    } else {
      assert (times + [t])[1..] == times[1..] + [t];
      RecentExtends(times[1..], t, cutoff);
    }
  }

  lemma TailIsOrdered(times: seq<real>)
    requires times != [] && IsOrdered(times)
    ensures IsOrdered(times[1..])
  {
    forall i, j | 0 <= i <= j < |times[1..]| ensures NoLater(times[1..], i, j) {
      assert NoLater(times, i + 1, j + 1);
    }
  }

  lemma SuffixIsOrdered(times: seq<real>, n: nat)
    requires n <= |times| && IsOrdered(times)
    ensures IsOrdered(times[n..])
  {
    forall i, j | 0 <= i <= j < |times[n..]| ensures NoLater(times[n..], i, j) {
      assert NoLater(times, n + i, n + j);
    }
  }

  /** In an ordered list what is dropped is a front part, all of it at or before the cutoff. */
  lemma {:induction false} RecentIsSuffix(times: seq<real>, cutoff: real) returns (n: nat)
    requires IsOrdered(times)
    ensures n <= |times| && Recent(times, cutoff) == times[n..]
    ensures n > 0 ==> times[n - 1] <= cutoff
  {
    if times == [] {
      n := 0;
    } else {
      TailIsOrdered(times);
      var m := RecentIsSuffix(times[1..], cutoff);
      assert m > 0 ==> NoLater(times, 0, m) && times[1..][m - 1] == times[m];
      if times[0] > cutoff {
        n := 0;
        assert times == [times[0]] + times[1..];
      } else {
        n := m + 1;
      }
    }
  }

  // ------------------------------------------------------------------ the lock

  predicate LockStands(limits: Limits, state: Option<AttemptState>, t: real, clock: real) {
    || (state.Some? && state.value.lockedUntil == Some(t + limits.lock))
    || (state.None? && t + limits.lock <= clock)
  }

  lemma CallKeepsLock(limits: Limits, states: States, call: Call, key: string, t: real, clock: real)
    requires limits.Valid() && clock <= call.now && (call.key == key ==> call.Check?)
    requires LockStands(limits, StateOf(states, key), t, clock)
    ensures LockStands(limits, StateOf(After(limits, states, call), key), t, call.now)
  {
  }

  lemma {:induction false} LockStandsLater(
      limits: Limits, calls: seq<Call>, later: seq<Call>, key: string, t: real, clock: real)
    requires limits.Valid() && IsClocked(later) && LeavesToChecks(later, key)
    requires forall i :: 0 <= i < |later| ==> t <= later[i].now <= clock
    requires t <= clock && LockStands(limits, StateOf(Run(Sliding(limits), calls).table, key), t, t)
    ensures LockStands(limits, StateOf(Run(Sliding(limits), calls + later).table, key), t, clock)
    decreases |later|
  {
    if later == [] {
      assert calls + later == calls;
    } else {
      var front, last := later[..|later| - 1], later[|later| - 1];
      LockStandsLater(limits, calls, front, key, t, last.now);
      assert (calls + later)[..|calls + later| - 1] == calls + front;
      CallKeepsLock(limits, Run(Sliding(limits), calls + front).table, last, key, t, last.now);
    }
  }

  /** A failure that locks a key locks it for exactly the lock's time, whatever is called on other keys. */
  lemma LockLastsExactly(limits: Limits, calls: seq<Call>, key: string, t: real, later: seq<Call>, now: real)
    requires limits.Valid() && IsClocked(later) && LeavesToChecks(later, key) && t <= now
    requires forall i :: 0 <= i < |later| ==> t <= later[i].now <= now
    requires AnswerTo(Run(Sliding(limits), calls).table, Check(key, t)).Pass?
    requires AnswerTo(Run(Sliding(limits), calls + [Fail(key, t)]).table, Check(key, t)).Refuse?
    ensures AnswerTo(Run(Sliding(limits), calls + [Fail(key, t)] + later).table, Check(key, now)).Refuse?
            <==> now < t + limits.lock
  {
    var locking := calls + [Fail(key, t)];
    assert locking[..|locking| - 1] == calls;
    assert Run(Sliding(limits), locking).table == After(limits, Run(Sliding(limits), calls).table, Fail(key, t));
    LockStandsLater(limits, locking, later, key, t, now);
  }

  // ---------------------------------------------------------------- histories

  /** The limiter as the runs of calls use it. */
  function Sliding(limits: Limits): Limiter<States> {
    Limiter(map[], (states: States, call: Call) => After(limits, states, call),
            (states: States, call: Call) => AnswerTo(states, call))
  }

  /** The stored failures are the newest of the history, and what was dropped lies a span back. */
  predicate StateMatches(limits: Limits, s: AttemptState, failed: seq<real>)
    requires failed != []
  {
    && 0 < |s.failures| <= |failed|
    && s.failures == failed[|failed| - |s.failures|..]
    && (|s.failures| < |failed| ==> Last(failed) - failed[|failed| - |s.failures| - 1] >= limits.Span())
    && (s.lockedUntil == if |s.failures| >= limits.maxFailures then Some(Last(failed) + limits.lock) else None)
  }

  predicate KeyInv(limits: Limits, state: Option<AttemptState>, h: History, clock: real)
    requires limits.Valid()
  {
    && IsOrdered(h.failed)
    && (h.failed != [] ==> Last(h.failed) <= clock)
    && (h.failed == [] ==> state.None?)
    && (h.failed != [] && state.None? ==> Last(h.failed) + limits.lock <= clock)
    && (h.failed != [] && state.Some? ==> StateMatches(limits, state.value, h.failed))
    && (h.passed && state.Some? ==> state.value.lockedUntil.None?)
    && IsSpaced(h.failed, limits.maxFailures, limits.Span())
  }

  lemma FailureKeepsSpacing(limits: Limits, state: Option<AttemptState>, h: History, clock: real, now: real)
    requires limits.Valid() && clock <= now
    requires KeyInv(limits, state, h, clock) && h.passed
    ensures IsSpaced(h.failed + [now], limits.maxFailures, limits.Span())
  {
    var n := |h.failed|;
    var i := n - limits.maxFailures;
    if i >= 0 {
      assert NoLater(h.failed, i, n - 1);
      if state.Some? {
        assert NoLater(h.failed, i, n - |state.value.failures| - 1);
      }
    }
    SpacedExtends(h.failed, now, limits.maxFailures, limits.Span());
  }

  /** Pruning and recording again leaves the newest part of the history. */
  lemma PrunedIsNewest(failed: seq<real>, first: nat, window: real, now: real) returns (k: nat)
    requires first <= |failed| && IsOrdered(failed)
    ensures first <= k <= |failed|
    ensures Recent(failed[first..], now - window) + [now] == (failed + [now])[k..]
    ensures k > first ==> now - failed[k - 1] >= window
  {
    var kept := failed[first..];
    SuffixIsOrdered(failed, first);
    var n := RecentIsSuffix(kept, now - window);
    k := first + n;
    assert kept[n..] == failed[k..];
    assert (failed + [now])[k..] == failed[k..] + [now];
    assert n > 0 ==> kept[n - 1] == failed[k - 1];
  }

  lemma NewestMatches(limits: Limits, s: AttemptState, failed: seq<real>, k: nat, now: real)
    requires k <= |failed| && s.failures == (failed + [now])[k..]
    requires k > 0 ==> now - failed[k - 1] >= limits.Span()
    requires s.lockedUntil == if |s.failures| >= limits.maxFailures then Some(now + limits.lock) else None
    ensures StateMatches(limits, s, failed + [now])
  {
  }

  lemma SurvivorIsNewest(limits: Limits, state: AttemptState, failed: seq<real>, now: real) returns (k: nat)
    requires |state.failures| <= |failed| && IsOrdered(failed)
    requires state.failures == failed[|failed| - |state.failures|..]
    ensures |failed| - |state.failures| <= k <= |failed|
    ensures Recorded(limits, Some(state), now).failures == (failed + [now])[k..]
    ensures k > |failed| - |state.failures| ==> now - failed[k - 1] >= limits.window
  {
    k := PrunedIsNewest(failed, |failed| - |state.failures|, limits.window, now);
  }

  lemma SurvivorKeepsMatch(limits: Limits, state: AttemptState, failed: seq<real>, now: real)
    requires limits.Valid() && failed != [] && Last(failed) <= now && IsOrdered(failed)
    requires StateMatches(limits, state, failed) && state.lockedUntil.None?
    ensures StateMatches(limits, Recorded(limits, Some(state), now), failed + [now])
  {
    var k := SurvivorIsNewest(limits, state, failed, now);
    LockFollowsCount(limits, state, now);
    KeptMatches(limits, state, failed, k, Recorded(limits, Some(state), now), now);
  }

  lemma LockFollowsCount(limits: Limits, state: AttemptState, now: real)
    requires state.lockedUntil.None?
    ensures var s := Recorded(limits, Some(state), now);
            s.lockedUntil == if |s.failures| >= limits.maxFailures then Some(now + limits.lock) else None
  {
  }

  lemma KeptMatches(limits: Limits, state: AttemptState, failed: seq<real>, k: nat, s: AttemptState, now: real)
    requires failed != [] && Last(failed) <= now && StateMatches(limits, state, failed)
    requires |failed| - |state.failures| <= k <= |failed|
    requires k > |failed| - |state.failures| ==> now - failed[k - 1] >= limits.window
    requires s.failures == (failed + [now])[k..]
    requires s.lockedUntil == if |s.failures| >= limits.maxFailures then Some(now + limits.lock) else None
    ensures StateMatches(limits, s, failed + [now])
  {
    DroppedLiesBack(limits, state, failed, k, now);
    NewestMatches(limits, s, failed, k, now);
  }

  /** Whatever recording drops was dropped before, or lies a window back. */
  lemma DroppedLiesBack(limits: Limits, state: AttemptState, failed: seq<real>, k: nat, now: real)
    requires failed != [] && Last(failed) <= now && StateMatches(limits, state, failed)
    requires |failed| - |state.failures| <= k <= |failed|
    requires k > |failed| - |state.failures| ==> now - failed[k - 1] >= limits.window
    ensures k > 0 ==> now - failed[k - 1] >= limits.Span()
  {
  }

  lemma FreshKeepsMatch(limits: Limits, failed: seq<real>, now: real)
    requires limits.Valid() && (failed != [] ==> Last(failed) + limits.lock <= now)
    ensures StateMatches(limits, Recorded(limits, None, now), failed + [now])
  {
  }

  lemma FailureKeepsKeyInv(limits: Limits, state: Option<AttemptState>, h: History, clock: real, now: real)
    requires limits.Valid() && clock <= now
    requires KeyInv(limits, state, h, clock) && h.passed
    ensures KeyInv(limits, Some(Recorded(limits, state, now)), History(h.failed + [now], false), now)
  {
    FailureKeepsSpacing(limits, state, h, clock, now);
    if state.Some? {
      SurvivorKeepsMatch(limits, state.value, h.failed, now);
    } else {
      FreshKeepsMatch(limits, h.failed, now);
    }
    OrderedExtends(h.failed, now);
  }

  lemma CallKeepsKeyInv(limits: Limits, s: System<States>, call: Call, clock: real)
    requires limits.Valid() && clock <= call.now
    requires KeyInv(limits, StateOf(s.table, call.key), HistoryOf(s.histories, call.key), clock)
    requires call.Fail? ==> HistoryOf(s.histories, call.key).passed
    ensures var s' := Next(Sliding(limits), s, call);
            KeyInv(limits, StateOf(s'.table, call.key), HistoryOf(s'.histories, call.key), call.now)
  {
    var state, h := StateOf(s.table, call.key), HistoryOf(s.histories, call.key);
    var s' := Next(Sliding(limits), s, call);
    if call.Fail? {
      FailureKeepsKeyInv(limits, state, h, clock, call.now);
      assert StateOf(s'.table, call.key) == Some(Recorded(limits, state, call.now));
    }
  }

  lemma OtherKeysKeepState(limits: Limits, s: System<States>, call: Call, key: string)
    requires key != call.key
    ensures StateOf(Next(Sliding(limits), s, call).table, key) == StateOf(s.table, key)
    ensures HistoryOf(Next(Sliding(limits), s, call).histories, key) == HistoryOf(s.histories, key)
  {
  }

  lemma {:induction false} RunKeepsKeyInv(limits: Limits, calls: seq<Call>, key: string, clock: real)
    requires limits.Valid() && IsClocked(calls) && IsSerial(Sliding(limits), calls, key)
    requires calls != [] ==> calls[|calls| - 1].now <= clock
    ensures var s := Run(Sliding(limits), calls);
            KeyInv(limits, StateOf(s.table, key), HistoryOf(s.histories, key), clock)
    decreases |calls|
  {
    if calls != [] {
      var front, call := calls[..|calls| - 1], calls[|calls| - 1];
      SerialPrefix(Sliding(limits), calls, key);
      RunKeepsKeyInv(limits, front, key, call.now);
      if call.key == key {
        CallKeepsKeyInv(limits, Run(Sliding(limits), front), call, call.now);
      } else {
        OtherKeysKeepState(limits, Run(Sliding(limits), front), call, key);
      }
    }
  }

  // ------------------------------------------------------------- main results

  /**
   In every run, `maxFailures + 1` consecutive failed logins on a key, with no
   success between them, span at least the smaller of window and lock.
   */
  lemma FailuresAreSpaced(limits: Limits, calls: seq<Call>, key: string)
    requires limits.Valid() && IsClocked(calls) && IsSerial(Sliding(limits), calls, key)
    ensures IsSpaced(HistoryOf(Run(Sliding(limits), calls).histories, key).failed, limits.maxFailures, limits.Span())
  {
    RunKeepsKeyInv(limits, calls, key, if calls == [] then 0.0 else calls[|calls| - 1].now);
  }

  lemma {:induction false} RecentRepeated(t: real, n: nat, cutoff: real)
    requires cutoff < t
    ensures Recent(Repeated(t, n), cutoff) == Repeated(t, n)
  {
    if n > 0 {
      RecentRepeated(t, n - 1, cutoff);
      RecentExtends(Repeated(t, n - 1), t, cutoff);
    }
  }

  /** The state of a key after `n` failures in one moment. */
  function BurstState(limits: Limits, t: real, n: nat): Option<AttemptState> {
    if n == 0 then None
    else Some(AttemptState(Repeated(t, n), if n < limits.maxFailures then None else Some(t + limits.lock)))
  }

  lemma BurstRecords(limits: Limits, t: real, n: nat)
    requires limits.Valid() && n < limits.maxFailures
    ensures Some(Recorded(limits, BurstState(limits, t, n), t)) == BurstState(limits, t, n + 1)
  {
    RecentRepeated(t, n, t - limits.window);
    assert Repeated(t, 0) == [];
  }

  predicate InBurst(limits: Limits, s: System<States>, key: string, t: real, n: nat) {
    StateOf(s.table, key) == BurstState(limits, t, n) && HistoryOf(s.histories, key).failed == Repeated(t, n)
  }

  lemma BurstStep(limits: Limits, s: System<States>, key: string, t: real, n: nat)
    requires limits.Valid() && n < limits.maxFailures && InBurst(limits, s, key, t, n)
    ensures HistoryOf(Next(Sliding(limits), s, Check(key, t)).histories, key).passed
    ensures InBurst(limits, Next(Sliding(limits), Next(Sliding(limits), s, Check(key, t)), Fail(key, t)), key, t, n + 1)
  {
    var checked := Next(Sliding(limits), s, Check(key, t));
    assert CheckAnswer(StateOf(s.table, key), t).Pass?;
    assert StateOf(checked.table, key) == StateOf(s.table, key);
    BurstRecords(limits, t, n);
  }

  lemma {:induction false} BurstRuns(limits: Limits, key: string, t: real, n: nat)
    requires limits.Valid() && n <= limits.maxFailures
    ensures IsSerial(Sliding(limits), Burst([], key, t, n), key)
    ensures InBurst(limits, Run(Sliding(limits), Burst([], key, t, n)), key, t, n)
  {
    if n > 0 {
      var calls := Burst([], key, t, n - 1);
      BurstRuns(limits, key, t, n - 1);
      BurstStep(limits, Run(Sliding(limits), calls), key, t, n - 1);
      SerialExtends(Sliding(limits), calls, Check(key, t), key);
      SerialExtends(Sliding(limits), calls + [Check(key, t)], Fail(key, t), key);
    }
  }

  /** The bound is tight: `maxFailures` consecutive failures fit into a single moment. */
  lemma SpacingIsTight(limits: Limits, key: string, t: real)
    requires limits.Valid()
    ensures var calls := Burst([], key, t, limits.maxFailures);
            && IsClocked(calls) && IsSerial(Sliding(limits), calls, key)
            && !IsSpaced(HistoryOf(Run(Sliding(limits), calls).histories, key).failed,
                         limits.maxFailures - 1, limits.Span())
  {
    BurstIsClocked([], key, t, limits.maxFailures);
    BurstRuns(limits, key, t, limits.maxFailures);
    assert !Apart(Repeated(t, limits.maxFailures), 0, limits.maxFailures - 1, limits.Span());
  }

  /**
   The advised wait is cut to whole seconds: a caller who waits exactly that long
   gets past the lock when the rest of the lock is whole or under a second, and
   otherwise is refused again.
   */
  lemma AdviceMayFallShort(state: AttemptState, now: real)
    requires state.lockedUntil.Some? && state.lockedUntil.value > now
    ensures var rest := state.lockedUntil.value - now;
            var answer := CheckAnswer(Some(state), now);
            answer.Refuse?
            && (CheckAnswer(Some(state), now + answer.retryAfter as real).Pass?
                <==> rest <= 1.0 || rest == rest.Floor as real)
  {
  }

  /**
   It happens: after a burst that locks the key for some whole seconds, two or
   more, a check half a second later and one after the advised wait are both refused.
   */
  lemma AdviceFallsShort(limits: Limits, key: string, t: real)
    requires limits.Valid() && limits.lock >= 2.0 && limits.lock == limits.lock.Floor as real
    ensures var calls := Burst([], key, t, limits.maxFailures);
            var s := Run(Sliding(limits), calls);
            var first := Check(key, t + 0.5);
            var answer := AnswerTo(s.table, first);
            && IsClocked(calls) && IsSerial(Sliding(limits), calls, key)
            && answer.Refuse? && answer.retryAfter == limits.lock.Floor - 1
            && AnswerTo(Next(Sliding(limits), s, first).table, Check(key, t + 0.5 + answer.retryAfter as real)).Refuse?
  {
    var calls := Burst([], key, t, limits.maxFailures);
    BurstIsClocked([], key, t, limits.maxFailures);
    BurstRuns(limits, key, t, limits.maxFailures);
    LockedHalfPast(limits, Run(Sliding(limits), calls), key, t);
  }

  lemma LockedHalfPast(limits: Limits, s: System<States>, key: string, t: real)
    requires limits.lock >= 2.0 && limits.lock == limits.lock.Floor as real
    requires StateOf(s.table, key).Some? && StateOf(s.table, key).value.lockedUntil == Some(t + limits.lock)
    ensures var first := Check(key, t + 0.5);
            var answer := AnswerTo(s.table, first);
            && answer == Refuse(limits.lock.Floor - 1)
            && AnswerTo(Next(Sliding(limits), s, first).table, Check(key, t + 0.5 + answer.retryAfter as real)).Refuse?
  {
    assert (limits.lock - 0.5).Floor == limits.lock.Floor - 1;
    assert t + limits.lock - (t + 0.5) == limits.lock - 0.5;
  }
}
