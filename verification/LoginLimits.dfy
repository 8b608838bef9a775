/**
 What the two login limiters share: their limits, the calls made on them, and
 the history of one key that says which failures count as consecutive. Time is
 real-valued; every call carries the clock reading it makes.
 */
module LoginLimits {
  /** The constructors reject limits that are not positive. */
  datatype Limits = Limits(maxFailures: int, window: real, lock: real) {
    predicate Valid() {
      maxFailures > 0 && window > 0.0 && lock > 0.0
    }

    function Span(): real {
      if window <= lock then window else lock
    }
  }

  datatype Call =
    | Check(key: string, now: real)
    | Fail(key: string, now: real)
    | Reset(key: string, now: real)

  /** A check passes, or is refused with the advised number of seconds to wait. */
  datatype Answer = Pass | Refuse(retryAfter: int)

  /**
   One key: the recorded failures since the last success, and whether the last
   call was a check that passed. Logins on a key are serial when each failure is
   recorded by a login whose check was the call before it on that key.
   */
  datatype History = History(failed: seq<real>, passed: bool)

  const NO_HISTORY := History([], false)

  function HistoryOf(h: map<string, History>, key: string): History {
    if key in h then h[key] else NO_HISTORY
  }

  function Extended(h: History, call: Call, answer: Answer): History {
    match call
    case Check(_, _) => h.(passed := answer.Pass?)
    case Fail(_, now) => History(h.failed + [now], false)
    case Reset(_, _) => NO_HISTORY
  }

  predicate IsClocked(calls: seq<Call>) {
    forall i, j :: 0 <= i < j < |calls| ==> calls[i].now <= calls[j].now
  }

  /** Of the calls on the key, all are checks. */
  predicate LeavesToChecks(calls: seq<Call>, key: string) {
    forall i :: 0 <= i < |calls| && calls[i].key == key ==> calls[i].Check?
  }

  /** A limiter: its empty table, what a call makes of the table, and what it answers. */
  datatype Limiter<!S> = Limiter(empty: S, after: (S, Call) -> S, answer: (S, Call) -> Answer)

  datatype System<S> = System(table: S, histories: map<string, History>)

  function Next<S>(l: Limiter<S>, s: System<S>, call: Call): System<S> {
    var h := Extended(HistoryOf(s.histories, call.key), call, l.answer(s.table, call));
    System(l.after(s.table, call), s.histories[call.key := h])
  }

  function Run<S>(l: Limiter<S>, calls: seq<Call>): System<S>
    decreases |calls|
  {
    if calls == [] then System(l.empty, map[])
    else Next(l, Run(l, calls[..|calls| - 1]), calls[|calls| - 1])
  }

  /** Each failure is recorded by a login whose passing check was the previous call on its key. */
  predicate IsSerial<S>(l: Limiter<S>, calls: seq<Call>, key: string) {
    forall i :: 0 <= i < |calls| && calls[i].Fail? && calls[i].key == key ==>
      HistoryOf(Run(l, calls[..i]).histories, key).passed
  }

  lemma SerialPrefix<S>(l: Limiter<S>, calls: seq<Call>, key: string)
    requires calls != [] && IsSerial(l, calls, key)
    ensures IsSerial(l, calls[..|calls| - 1], key)
  {
    var front := calls[..|calls| - 1];
    forall i | 0 <= i < |front| && front[i].Fail? && front[i].key == key
      ensures HistoryOf(Run(l, front[..i]).histories, key).passed
    {
      assert front[..i] == calls[..i] && front[i] == calls[i];
    }
  }

  lemma SerialExtends<S>(l: Limiter<S>, calls: seq<Call>, call: Call, key: string)
    requires IsSerial(l, calls, key)
    requires call.Fail? && call.key == key ==> HistoryOf(Run(l, calls).histories, key).passed
    ensures IsSerial(l, calls + [call], key)
    ensures Run(l, calls + [call]) == Next(l, Run(l, calls), call)
  {
    var longer := calls + [call];
    assert longer[..|calls|] == calls;
    forall i | 0 <= i < |longer| && longer[i].Fail? && longer[i].key == key
      ensures HistoryOf(Run(l, longer[..i]).histories, key).passed
    {
      if i < |calls| {
        assert longer[..i] == calls[..i] && longer[i] == calls[i];
      }
    }
  }

  predicate NoLater(times: seq<real>, i: int, j: int)
    requires 0 <= i <= j < |times|
  {
    times[i] <= times[j]
  }

  predicate IsOrdered(times: seq<real>) {
    forall i, j :: 0 <= i <= j < |times| ==> NoLater(times, i, j)
  }

  predicate Apart(times: seq<real>, i: int, gap: nat, span: real)
    requires 0 <= i < |times| - gap
  {
    times[i + gap] - times[i] >= span
  }

  /** Any `gap + 1` consecutive times reach over at least `span`. */
  predicate IsSpaced(times: seq<real>, gap: nat, span: real) {
    forall i :: 0 <= i < |times| - gap ==> Apart(times, i, gap, span)
  }

  function Last(times: seq<real>): real
    requires times != []
  {
    times[|times| - 1]
  }

  function Ceiling(x: real): int {
    -((-x).Floor)
  }

  function AtLeastOne(n: int): int {
    if n < 1 then 1 else n
  }

  lemma OrderedExtends(times: seq<real>, now: real)
    requires IsOrdered(times) && (times != [] ==> Last(times) <= now)
    ensures IsOrdered(times + [now])
  {
    var longer := times + [now];
    forall i, j | 0 <= i <= j < |longer| ensures NoLater(longer, i, j) {
      if j < |times| {
        assert NoLater(times, i, j);
      } else if i < |times| {
        assert NoLater(times, i, |times| - 1);
      }
    }
  }

  lemma SpacedExtends(times: seq<real>, now: real, gap: nat, span: real)
    requires IsSpaced(times, gap, span)
    requires 0 < gap <= |times| ==> now - times[|times| - gap] >= span
    requires 0 < gap
    ensures IsSpaced(times + [now], gap, span)
  {
    var longer := times + [now];
    forall i | 0 <= i < |longer| - gap ensures Apart(longer, i, gap, span) {
      if i + gap < |times| {
        assert Apart(times, i, gap, span);
      }
    }
  }

  lemma ClockedExtends(calls: seq<Call>, call: Call)
    requires IsClocked(calls)
    requires calls != [] ==> calls[|calls| - 1].now <= call.now
    ensures IsClocked(calls + [call])
  {
  }

  /** The calls, followed by `n` failed logins on a key, all at one moment. */
  function Burst(calls: seq<Call>, key: string, t: real, n: nat): seq<Call> {
    if n == 0 then calls else Burst(calls, key, t, n - 1) + [Check(key, t)] + [Fail(key, t)]
  }

  function Repeated(t: real, n: nat): (times: seq<real>)
    ensures |times| == n && forall i :: 0 <= i < n ==> times[i] == t
  {
    if n == 0 then [] else Repeated(t, n - 1) + [t]
  }

  lemma RepeatedExtends(times: seq<real>, t: real, n: nat)
    requires n > 0
    ensures times + Repeated(t, n) == times + Repeated(t, n - 1) + [t]
  {
  }

  lemma {:induction false} BurstIsClocked(calls: seq<Call>, key: string, t: real, n: nat)
    requires IsClocked(calls) && (calls != [] ==> calls[|calls| - 1].now <= t)
    ensures IsClocked(Burst(calls, key, t, n))
    ensures |Burst(calls, key, t, n)| == |calls| + 2 * n
    ensures n > 0 ==> Burst(calls, key, t, n)[|calls| + 2 * n - 1].now == t
  {
    if n > 0 {
      BurstIsClocked(calls, key, t, n - 1);
      ClockedExtends(Burst(calls, key, t, n - 1), Check(key, t));
      ClockedExtends(Burst(calls, key, t, n - 1) + [Check(key, t)], Fail(key, t));
    }
  }
}
