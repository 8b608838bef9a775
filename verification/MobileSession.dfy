/**
 The session store and controller as objects with fields, in the code's own order
 of statements. A call that is not interrupted by another caller is one run of the
 interleaving machine of `SessionController`.
 */
module MobileSession {
  import opened Wrappers
  import opened SessionController

  // ---------------------------------------------------------------- the store

  datatype Slots = Slots(refresh: Option<Token>, access: Option<Token>)

  /** How the platform store answers the writes and removals of one call. */
  datatype Medium = Medium(first: Access, second: Access, removesAccess: bool, removesRefresh: bool)

  function Cleared(s: Slots, m: Medium): Slots {
    Slots(if m.removesRefresh then None else s.refresh, if m.removesAccess then None else s.access)
  }

  /** The refresh token first; a failure clears both slots, any other exception leaves them. */
  function Saved(s: Slots, pair: TokenPair, m: Medium): (Slots, Access) {
    match m.first
    case Throws => (s, Throws)
    case Fails => (Cleared(s, m), Fails)
    case Done =>
      var half := s.(refresh := Some(pair.refresh));
      match m.second
      case Throws => (half, Throws)
      case Fails => (Cleared(half, m), Fails)
      case Done => (half.(access := Some(pair.access)), Done)
  }

  /** An access token is stored without the refresh token it came with. */
  ghost predicate IsTorn(s: Slots, saved: set<TokenPair>) {
    s.access.Some? && forall pair :: pair in saved && pair.access == s.access.value ==> s.refresh != Some(pair.refresh)
  }

  predicate IsNewPair(pair: TokenPair, saved: set<TokenPair>) {
    forall other :: other in saved ==> other.access != pair.access && other.refresh != pair.refresh
  }

  /** A save tears the pair exactly when an old access token survives it beside a lost or replaced refresh token. */
  lemma SaveTearsIff(s: Slots, saved: set<TokenPair>, pair: TokenPair, m: Medium)
    requires !IsTorn(s, saved) && IsNewPair(pair, saved)
    ensures IsTorn(Saved(s, pair, m).0, saved + {pair}) <==>
              && s.access.Some?
              && (m.first.Fails? ==> !m.removesAccess && m.removesRefresh)
              && (m.first.Done? ==> m.second.Throws? || (m.second.Fails? && !m.removesAccess))
              && !m.first.Throws?
  {
  }

  // ----------------------------------------------------------- the controller

  lemma {:induction false} RunJoin(c: Client, first: seq<Step>, second: seq<Step>)
    ensures Run(Run(c, first), second) == Run(c, first + second)
  {
    if second == [] {
      assert first + second == first;
    } else {
      var last := |second| - 1;
      RunJoin(c, first, second[..last]);
      assert (first + second)[..|first + second| - 1] == first + second[..last];
    }
  }

  lemma RunOne(c: Client, step: Step)
    ensures Run(c, [step]) == After(c, step)
  {
  }

  /** Where a caller stands once its job has ended, by itself or by an exception. */
  function Ended(job: Job, outcome: Option<SessionState>): Point {
    if job.RefreshJob? then Completing(job.flight, if outcome.Some? then outcome.value else Failed(Transport))
    else if outcome.Some? then Returned(None, outcome.value)
    else Idle
  }

  /** The machine moves from `c` to `after`. */
  ghost predicate Reaches(c: Client, steps: seq<Step>, after: Client) {
    Run(c, steps) == after
  }

  lemma ReachesJoin(a: Client, first: seq<Step>, b: Client, second: seq<Step>, c: Client)
    requires Reaches(a, first, b) && Reaches(b, second, c)
    ensures Reaches(a, first + second, c)
  {
    RunJoin(a, first, second);
  }

  /** A caller that opens a flight. */
  function Entered(c: Client, p: Pid): Client {
    var f := FreshFlight(c);
    At(c.(inFlight := Some(f), leader := Some(p), results := c.results[f := None]), p, ReadingStored(f))
  }

  lemma EnterRuns(c: Client, p: Pid)
    requires c.inFlight.None? && IsFree(PointOf(c, p))
    ensures Reaches(c, [CallRefresh(p)], Entered(c, p))
  {
  }

  /** A leader that hands out its result and empties the slot. */
  function Landed(c: Client, p: Pid, f: Flight, outcome: SessionState): Client {
    At(c.(results := c.results[f := Some(outcome)], inFlight := None, leader := None), p, Returned(Some(f), outcome))
  }

  lemma LandRuns(c: Client, p: Pid, f: Flight, outcome: SessionState)
    requires PointOf(c, p) == Completing(f, outcome) && c.inFlight == Some(f)
    ensures Reaches(c, [Complete(p)] + [Release(p)], Landed(c, p, f, outcome))
  {
    var completed := At(c.(results := c.results[f := Some(outcome)]), p, Releasing(f));
    RunOne(c, Complete(p));
    assert After(c, Complete(p)) == completed;
    RunOne(completed, Release(p));
    assert After(completed, Release(p)) == Landed(c, p, f, outcome);
    ReachesJoin(c, [Complete(p)], completed, [Release(p)], Landed(c, p, f, outcome));
  }

  /** A leader that has read the store, and has the server's answer if it had to ask. */
  function Asked(c: Client, p: Pid, f: Flight, read: Access, reply: Reply): Client {
    if read.Throws? then At(c.(session := Failed(Transport)), p, Completing(f, Failed(Transport)))
    else if read.Fails? then At(c.(session := Failed(SecureStorage)), p, Completing(f, Failed(SecureStorage)))
    else if c.refreshSlot.None? then At(c.(session := SignedOut), p, Completing(f, SignedOut))
    else
      var t := c.refreshSlot.value;
      AfterReply(At(c.(sent := c.sent + [t]), p, AwaitingReply(f, t)), p, reply)
  }

  lemma AskRuns(c: Client, p: Pid, f: Flight, read: Access, reply: Reply) returns (steps: seq<Step>)
    requires PointOf(c, p) == ReadingStored(f)
    ensures Reaches(c, steps, Asked(c, p, f, read, reply))
  {
    RunOne(c, Read(p, read));
    steps := [Read(p, read)];
    if read.Done? && c.refreshSlot.Some? {
      var t := c.refreshSlot.value;
      SendRuns(At(c, p, Sending(f, t)), p, f, t, reply);
      var asking := At(c.(sent := c.sent + [t]), p, AwaitingReply(f, t));
      assert At(At(c, p, Sending(f, t)).(sent := c.sent + [t]), p, AwaitingReply(f, t)) == asking;
      ReachesJoin(c, steps, At(c, p, Sending(f, t)), [Send(p)] + [Receive(p, reply)], AfterReply(asking, p, reply));
      steps := steps + ([Send(p)] + [Receive(p, reply)]);
    }
  }

  lemma SendRuns(c: Client, p: Pid, f: Flight, t: Token, reply: Reply)
    requires PointOf(c, p) == Sending(f, t)
    ensures Reaches(c, [Send(p)] + [Receive(p, reply)],
                    AfterReply(At(c.(sent := c.sent + [t]), p, AwaitingReply(f, t)), p, reply))
  {
    var asking := At(c.(sent := c.sent + [t]), p, AwaitingReply(f, t));
    RunOne(c, Send(p));
    RunOne(asking, Receive(p, reply));
    ReachesJoin(c, [Send(p)], asking, [Receive(p, reply)], After(asking, Receive(p, reply)));
  }

  /** A caller that has the server's answer to a login. */
  lemma LoginRuns(c: Client, p: Pid, reply: Reply)
    requires IsFree(PointOf(c, p))
    ensures Reaches(c, [CallLogin(p)] + [Receive(p, reply)], AfterReply(At(c, p, LoginSent), p, reply))
  {
    var asking := At(c, p, LoginSent);
    RunOne(c, CallLogin(p));
    RunOne(asking, Receive(p, reply));
    ReachesJoin(c, [CallLogin(p)], asking, [Receive(p, reply)], After(asking, Receive(p, reply)));
  }

  lemma WriteRuns(c: Client, p: Pid, access: Access)
    ensures Reaches(c, [Write(p, access)], AfterWrite(c, p, access))
  {
  }

  lemma RemovesRun(c: Client, p: Pid, m: Medium)
    ensures Reaches(c, [Remove(p, m.removesAccess)] + [Remove(p, m.removesRefresh)],
                    AfterRemove(AfterRemove(c, p, m.removesAccess), p, m.removesRefresh))
  {
    var half := AfterRemove(c, p, m.removesAccess);
    RunOne(c, Remove(p, m.removesAccess));
    RunOne(half, Remove(p, m.removesRefresh));
    ReachesJoin(c, [Remove(p, m.removesAccess)], half, [Remove(p, m.removesRefresh)],
                After(half, Remove(p, m.removesRefresh)));
  }

  /** Where a logout stands after its read. */
  function AfterLogoutRead(c: Client, read: Access): Point {
    if read.Throws? then Idle
    else if read.Done? && c.refreshSlot.Some? then LogoutSent(c.refreshSlot.value)
    else ClearingAccess(LogoutJob, SignedOut)
  }

  lemma LogoutReads(c: Client, p: Pid, read: Access)
    requires IsFree(PointOf(c, p))
    ensures Reaches(c, [CallLogout(p)] + [Read(p, read)], At(c, p, AfterLogoutRead(c, read)))
  {
    var called := At(c, p, LogoutReading);
    RunOne(c, CallLogout(p));
    RunOne(called, Read(p, read));
    LogoutReadIs(c, p, read);
    ReachesJoin(c, [CallLogout(p)], called, [Read(p, read)], At(c, p, AfterLogoutRead(c, read)));
  }

  lemma LogoutReadIs(c: Client, p: Pid, read: Access)
    ensures AfterRead(At(c, p, LogoutReading), p, read) == At(c, p, AfterLogoutRead(c, read))
  {
  }

  /** Whether a logout gets as far as clearing the store. */
  predicate Tells(stored: Option<Token>, read: Access, reply: Reply) {
    !read.Throws? && (read.Done? && stored.Some? ==> !reply.Thrown?)
  }

  lemma LogoutSteps(c: Client, p: Pid, read: Access, reply: Reply) returns (steps: seq<Step>)
    requires IsFree(PointOf(c, p))
    ensures Reaches(c, steps, At(c, p, if Tells(c.refreshSlot, read, reply) then ClearingAccess(LogoutJob, SignedOut)
                                       else Idle))
  {
    LogoutReads(c, p, read);
    steps := [CallLogout(p)] + [Read(p, read)];
    var point := AfterLogoutRead(c, read);
    if point.LogoutSent? {
      var asking := At(c, p, point);
      RunOne(asking, Receive(p, reply));
      var after := At(c, p, if reply.Thrown? then Idle else ClearingAccess(LogoutJob, SignedOut));
      assert AfterReply(asking, p, reply) == after;
      ReachesJoin(c, steps, asking, [Receive(p, reply)], after);
      steps := steps + [Receive(p, reply)];
    }
  }

  lemma JoinRuns(c: Client, p: Pid)
    requires c.inFlight.Some? && IsFree(PointOf(c, p))
    ensures Reaches(c, [CallRefresh(p)], At(c, p, Waiting(c.inFlight.value)))
  {
    RunOne(c, CallRefresh(p));
  }

  /** What a refresh comes to, given the stored token and the answers of store and server. */
  predicate EndsAs(stored: Option<Token>, read: Access, reply: Reply, m: Medium, outcome: SessionState) {
    if read.Throws? then outcome == Failed(Transport)
    else if read.Fails? then outcome == Failed(SecureStorage)
    else if stored.None? then outcome == SignedOut
    else match reply
      case Thrown => outcome == Failed(Transport)
      case Refused(e) => outcome == if e.SessionInvalid? then SignedOut else Failed(e)
      case Granted => StoresAs(m, outcome)
  }

  predicate StoresAs(m: Medium, outcome: SessionState) {
    if m.first.Done? && m.second.Done? then outcome == SignedIn
    else if m.first.Throws? || (m.first.Done? && m.second.Throws?) then outcome == Failed(Transport)
    else outcome == Failed(SecureStorage)
  }

  /** The slots after a refresh: stored anew, cleared, or left alone. */
  function SlotsAfter(s: Slots, read: Access, reply: Reply, granted: TokenPair, m: Medium): Slots {
    if !read.Done? || s.refresh.None? || reply.Thrown? then s
    else if reply.Refused? then Cleared(s, m)
    else Saved(s, granted, m).0
  }

  class Controller {
    var refreshSlot: Option<Token>
    var accessSlot: Option<Token>
    var inFlight: Option<Flight>
    var flights: nat
    var session: SessionState
    /** The machine's state, of which the fields above are a part. */
    ghost var model: Client

    ghost predicate Valid()
      reads this
    {
      SlotsAgree() && model.session == session
    }

    /** The fields but for the session state, which an exception leaves to the caller. */
    ghost predicate SlotsAgree()
      reads this
    {
      && model.refreshSlot == refreshSlot
      && model.accessSlot == accessSlot
      && model.inFlight == inFlight
      && |model.results| == flights
      && FlightsAreNumbered(model)
    }

    constructor (stored: Option<Token>)
      ensures Valid() && model == Start(stored) && inFlight == None
    {
      refreshSlot, accessSlot, inFlight, flights, session := stored, None, None, 0, SignedOut;
      model := Start(stored);
    }

    /** Both removals, whatever becomes of each; then the session state. */
    method ClearAndSet(p: Pid, ghost job: Job, next: SessionState, m: Medium) returns (ghost steps: seq<Step>)
      requires SlotsAgree() && PointOf(model, p) == ClearingAccess(job, next)
      modifies this
      ensures Valid() && Reaches(old(model), steps, model)
      ensures inFlight == old(inFlight) && flights == old(flights) && model.results == old(model).results
      ensures Slots(refreshSlot, accessSlot) == Cleared(Slots(old(refreshSlot), old(accessSlot)), m)
      ensures session == next && PointOf(model, p) == Ended(job, Some(next))
    {
      RemovesRun(model, p, m);
      steps := [Remove(p, m.removesAccess)] + [Remove(p, m.removesRefresh)];
      if m.removesAccess { accessSlot := None; }
      if m.removesRefresh { refreshSlot := None; }
      model := AfterRemove(AfterRemove(model, p, m.removesAccess), p, m.removesRefresh);
      session := next;
    }

    /** Stores a granted pair; `None` stands for an exception that leaves the job. */
    method Persist(p: Pid, ghost job: Job, pair: TokenPair, m: Medium)
        returns (outcome: Option<SessionState>, ghost steps: seq<Step>)
      requires SlotsAgree() && PointOf(model, p) == WritingRefresh(job, pair)
      modifies this
      ensures SlotsAgree() && Reaches(old(model), steps, model)
      ensures inFlight == old(inFlight) && flights == old(flights) && model.results == old(model).results
      ensures Slots(refreshSlot, accessSlot) == Saved(Slots(old(refreshSlot), old(accessSlot)), pair, m).0
      ensures outcome.None? <==> m.first.Throws? || (m.first.Done? && m.second.Throws?)
      ensures outcome == Some(SignedIn) <==> m.first.Done? && m.second.Done?
      ensures outcome.Some? && outcome != Some(SignedIn) ==> outcome == Some(Failed(SecureStorage))
      ensures outcome.Some? ==> session == outcome.value == model.session
      ensures outcome.None? ==> session == old(session)
      ensures outcome.None? ==> model.session == if job.RefreshJob? then Failed(Transport) else old(model).session
      ensures PointOf(model, p) == Ended(job, outcome)
    {
      ghost var start := model;
      WriteRuns(model, p, m.first);
      model := AfterWrite(model, p, m.first);
      steps := [Write(p, m.first)];
      if m.first.Throws? { return None, steps; }
      if m.first.Fails? {
        outcome, steps := GiveUp(p, job, m, start, steps);
        return;
      }
      refreshSlot := Some(pair.refresh);
      WriteRuns(model, p, m.second);
      ReachesJoin(start, steps, model, [Write(p, m.second)], AfterWrite(model, p, m.second));
      model := AfterWrite(model, p, m.second);
      steps := steps + [Write(p, m.second)];
      if m.second.Throws? { return None, steps; }
      if m.second.Fails? {
        outcome, steps := GiveUp(p, job, m, start, steps);
        return;
      }
      accessSlot := Some(pair.access);
      session := SignedIn;
      return Some(SignedIn), steps;
    }

    /** A failed write clears the store. */
    method GiveUp(p: Pid, ghost job: Job, m: Medium, ghost start: Client, ghost before: seq<Step>)
        returns (outcome: Option<SessionState>, ghost steps: seq<Step>)
      requires SlotsAgree() && PointOf(model, p) == ClearingAccess(job, Failed(SecureStorage))
      requires Reaches(start, before, model)
      modifies this
      ensures Valid() && Reaches(start, steps, model)
      ensures inFlight == old(inFlight) && flights == old(flights) && model.results == old(model).results
      ensures Slots(refreshSlot, accessSlot) == Cleared(Slots(old(refreshSlot), old(accessSlot)), m)
      ensures outcome == Some(Failed(SecureStorage)) && session == Failed(SecureStorage)
      ensures PointOf(model, p) == Ended(job, outcome)
    {
      ghost var here := model;
      ghost var more := ClearAndSet(p, job, Failed(SecureStorage), m);
      ReachesJoin(start, before, here, more, model);
      return Some(session), before + more;
    }

    /**
     A caller that finds a flight open joins it and waits for its result. Otherwise
     it opens a flight, leads it, uninterrupted, and leaves the slot empty.
     */
    method Refresh(p: Pid, read: Access, reply: Reply, granted: TokenPair, m: Medium)
        returns (outcome: Option<SessionState>, ghost steps: seq<Step>)
      requires Valid() && IsFree(PointOf(model, p))
      requires granted == FreshPair(model)
      modifies this
      ensures Valid() && Reaches(old(model), steps, model)
      ensures old(inFlight).Some? ==>
                && outcome == None && PointOf(model, p) == Waiting(old(inFlight).value)
                && inFlight == old(inFlight) && session == old(session)
                && refreshSlot == old(refreshSlot) && accessSlot == old(accessSlot)
      ensures old(inFlight).None? ==>
                && inFlight.None? && outcome.Some? && session == outcome.value
                && PointOf(model, p) == Returned(Some(old(flights)), outcome.value)
                && Slots(refreshSlot, accessSlot)
                   == SlotsAfter(Slots(old(refreshSlot), old(accessSlot)), read, reply, granted, m)
      ensures old(inFlight).None? ==> EndsAs(old(refreshSlot), read, reply, m, session)
    {
      if inFlight.Some? {
        JoinRuns(model, p);
        model := At(model, p, Waiting(inFlight.value));
        return None, [CallRefresh(p)];
      }
      ghost var start := model;
      ghost var flight := flights;
      EnterRuns(model, p);
      inFlight, flights := Some(flights), flights + 1;
      model := Entered(model, p);
      ghost var entered := model;
      var result;
      ghost var more;
      result, more := RefreshInternal(p, flight, read, reply, granted, m);
      ReachesJoin(start, [CallRefresh(p)], entered, more, model);
      session := result;
      steps := HandOut(p, flight, result, start, [CallRefresh(p)] + more);
      outcome := Some(result);
    }

    /** Completes the flight for everyone waiting on it and empties the slot. */
    method HandOut(p: Pid, ghost flight: Flight, outcome: SessionState, ghost start: Client, ghost before: seq<Step>)
        returns (ghost steps: seq<Step>)
      requires Valid() && inFlight == Some(flight) && PointOf(model, p) == Completing(flight, outcome)
      requires flight in model.results && Reaches(start, before, model)
      modifies `inFlight, `model
      ensures Valid() && inFlight.None? && Reaches(start, steps, model)
      ensures PointOf(model, p) == Returned(Some(flight), outcome)
    {
      LandRuns(model, p, flight, outcome);
      ReachesJoin(start, before, model, [Complete(p)] + [Release(p)], Landed(model, p, flight, outcome));
      inFlight := None;
      model := Landed(model, p, flight, outcome);
      steps := before + ([Complete(p)] + [Release(p)]);
    }

    /** Reads the stored token, presents it, and stores or clears; an exception counts as a transport failure. */
    method RefreshInternal(p: Pid, ghost flight: Flight, read: Access, reply: Reply, granted: TokenPair, m: Medium)
        returns (outcome: SessionState, ghost steps: seq<Step>)
      requires Valid() && PointOf(model, p) == ReadingStored(flight) && granted == FreshPair(model)
      modifies this
      ensures SlotsAgree() && Reaches(old(model), steps, model)
      ensures inFlight == old(inFlight) && flights == old(flights) && model.results == old(model).results
      ensures PointOf(model, p) == Completing(flight, outcome) && model.session == outcome
      ensures EndsAs(old(refreshSlot), read, reply, m, outcome)
      ensures Slots(refreshSlot, accessSlot)
           == SlotsAfter(Slots(old(refreshSlot), old(accessSlot)), read, reply, granted, m)
    {
      ghost var start := model;
      steps := AskRuns(model, p, flight, read, reply);
      model := Asked(model, p, flight, read, reply);
      if read.Throws? { return Failed(Transport), steps; }
      if read.Fails? {
        session := Failed(SecureStorage);
        return session, steps;
      }
      if refreshSlot.None? {
        session := SignedOut;
        return session, steps;
      }
      outcome, steps := Conclude(p, RefreshJob(flight, refreshSlot.value), reply, granted, m, start, steps);
    }

    /** What the server's answer to a refresh leads to. */
    method Conclude(p: Pid, ghost job: Job, reply: Reply, granted: TokenPair, m: Medium,
                    ghost start: Client, ghost before: seq<Step>)
        returns (outcome: SessionState, ghost steps: seq<Step>)
      requires SlotsAgree() && job.RefreshJob? && Reaches(start, before, model)
      requires match reply
               case Thrown =>
                 PointOf(model, p) == Completing(job.flight, Failed(Transport)) && model.session == Failed(Transport)
               case Refused(e) =>
                 PointOf(model, p) == ClearingAccess(job, if e.SessionInvalid? then SignedOut else Failed(e))
               case Granted => PointOf(model, p) == WritingRefresh(job, granted)
      modifies this
      ensures SlotsAgree() && Reaches(start, steps, model)
      ensures inFlight == old(inFlight) && flights == old(flights) && model.results == old(model).results
      ensures PointOf(model, p) == Completing(job.flight, outcome) && model.session == outcome
      ensures match reply
              case Thrown => outcome == Failed(Transport)
              case Refused(e) => outcome == if e.SessionInvalid? then SignedOut else Failed(e)
              case Granted => StoresAs(m, outcome)
      ensures var s := Slots(old(refreshSlot), old(accessSlot));
              Slots(refreshSlot, accessSlot) == match reply
                                                case Thrown => s
                                                case Refused(_) => Cleared(s, m)
                                                case Granted => Saved(s, granted, m).0
    {
      ghost var here := model;
      ghost var more;
      match reply {
        case Thrown =>
          return Failed(Transport), before;
        case Refused(error) =>
          outcome := if error.SessionInvalid? then SignedOut else Failed(error);
          more := ClearAndSet(p, job, outcome, m);
        case Granted =>
          var persisted;
          persisted, more := Persist(p, job, granted, m);
          outcome := if persisted.Some? then persisted.value else Failed(Transport);
      }
      ReachesJoin(start, before, here, more, model);
      steps := before + more;
    }

    /** A login that nobody interrupts; an exception leaves the session state as it was. */
    method Login(p: Pid, reply: Reply, granted: TokenPair, m: Medium)
        returns (outcome: Option<SessionState>, ghost steps: seq<Step>)
      requires Valid() && IsFree(PointOf(model, p)) && granted == FreshPair(model)
      modifies this
      ensures Valid() && inFlight == old(inFlight)
      ensures Reaches(old(model), steps, model)
      ensures PointOf(model, p) == Ended(LoginJob, outcome)
      ensures outcome.Some? ==> session == outcome.value
      ensures outcome.None? ==> session == old(session)
      ensures outcome.None? <==>
                reply.Thrown? || (reply.Granted? && (m.first.Throws? || (m.first.Done? && m.second.Throws?)))
      ensures outcome == Some(SignedIn) <==> reply.Granted? && m.first.Done? && m.second.Done?
      ensures reply.Refused? ==> outcome == Some(Failed(reply.error))
      ensures reply.Granted? && outcome.Some? && outcome != Some(SignedIn) ==> outcome == Some(Failed(SecureStorage))
      ensures Slots(refreshSlot, accessSlot)
           == if reply.Granted? then Saved(Slots(old(refreshSlot), old(accessSlot)), granted, m).0
              else Slots(old(refreshSlot), old(accessSlot))
    {
      ghost var start := model;
      LoginRuns(model, p, reply);
      model := AfterReply(At(model, p, LoginSent), p, reply);
      ghost var answered := model;
      steps := [CallLogin(p)] + [Receive(p, reply)];
      match reply {
        case Thrown =>
          return None, steps;
        case Refused(error) =>
          session := Failed(error);
          return Some(session), steps;
        case Granted =>
          ghost var more;
          outcome, more := Persist(p, LoginJob, granted, m);
          ReachesJoin(start, steps, answered, more, model);
          steps := steps + more;
      }
    }

    /** A logout that nobody interrupts: the server's answer does not matter, an exception does. */
    method Logout(p: Pid, read: Access, reply: Reply, m: Medium)
        returns (outcome: Option<SessionState>, ghost steps: seq<Step>)
      requires Valid() && IsFree(PointOf(model, p))
      modifies this
      ensures Valid() && inFlight == old(inFlight)
      ensures Reaches(old(model), steps, model)
      ensures PointOf(model, p) == Ended(LogoutJob, outcome)
      ensures outcome.None? <==> read.Throws? || (read.Done? && old(refreshSlot).Some? && reply.Thrown?)
      ensures outcome.None? ==>
                session == old(session) && refreshSlot == old(refreshSlot) && accessSlot == old(accessSlot)
      ensures outcome.Some? ==>
                && outcome.value == session == SignedOut
                && Slots(refreshSlot, accessSlot) == Cleared(Slots(old(refreshSlot), old(accessSlot)), m)
    {
      ghost var start := model;
      steps := LogoutSteps(model, p, read, reply);
      model := At(model, p, if Tells(refreshSlot, read, reply) then ClearingAccess(LogoutJob, SignedOut) else Idle);
      ghost var told := model;
      if read.Throws? { return None, steps; }
      if read.Done? && refreshSlot.Some? && reply.Thrown? { return None, steps; }
      ghost var more := ClearAndSet(p, LogoutJob, SignedOut, m);
      ReachesJoin(start, steps, told, more, model);
      return Some(session), steps + more;
    }
  }
}
