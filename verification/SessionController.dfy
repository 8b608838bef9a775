/**
 The mobile session controllers: any number of coroutines (or tasks) call
 `refresh`, `restore`, `login` and `logout` on one controller and interleave at
 their suspension points. One step runs one caller from a suspension point to
 the next; a step that is not enabled changes nothing. The server hands out
 tokens it never handed out before. `leader`, `sent` and `stranded` are history:
 the caller that opened the current flight, the tokens given to the refresh
 endpoint, and those whose flight ended in a fault that may have left them in
 the store.
 */
module SessionController {
  import opened Wrappers

  type Token = nat
  type Flight = nat
  type Pid = nat

  datatype TokenPair = TokenPair(access: Token, refresh: Token)

  datatype AuthFailure = Transport | SessionInvalid | SecureStorage | Remote

  datatype SessionState = SignedOut | Restoring | SignedIn | Failed(error: AuthFailure)

  /** On whose behalf tokens are written or removed; a flight remembers the token it sent. */
  datatype Job = RefreshJob(flight: Flight, token: Token) | LoginJob | LogoutJob

  /** The suspension point a caller waits at. */
  datatype Point =
    | Idle
    | Waiting(flight: Flight)
    | ReadingStored(flight: Flight)
    | Sending(flight: Flight, token: Token)
    | AwaitingReply(flight: Flight, token: Token)
    | WritingRefresh(job: Job, pair: TokenPair)
    | WritingAccess(job: Job, pair: TokenPair)
    | ClearingAccess(job: Job, next: SessionState)
    | ClearingRefresh(job: Job, next: SessionState)
    | Completing(flight: Flight, outcome: SessionState)
    | Releasing(flight: Flight)
    | LoginSent
    | LogoutReading
    | LogoutSent(token: Token)
    | Returned(via: Option<Flight>, outcome: SessionState)

  datatype Client = Client(
    refreshSlot: Option<Token>,
    accessSlot: Option<Token>,
    inFlight: Option<Flight>,
    results: map<Flight, Option<SessionState>>,
    session: SessionState,
    callers: map<Pid, Point>,
    issued: nat,
    leader: Option<Pid>,
    sent: seq<Token>,
    stranded: set<Token>)

  datatype Access = Done | Fails | Throws

  datatype Reply = Granted | Refused(error: AuthFailure) | Thrown

  datatype Step =
    | CallRefresh(p: Pid)
    | CallRestore(p: Pid)
    | CallLogin(p: Pid)
    | CallLogout(p: Pid)
    | Read(p: Pid, access: Access)
    | Send(p: Pid)
    | Receive(p: Pid, reply: Reply)
    | Write(p: Pid, access: Access)
    | Remove(p: Pid, removed: bool)
    | Complete(p: Pid)
    | Release(p: Pid)
    | Resume(p: Pid)

  /** The client of a fresh process; the store may hold a token of an earlier one. */
  function Start(stored: Option<Token>): Client {
    Client(stored, None, None, map[], SignedOut, map[],
           if stored.Some? then stored.value + 1 else 0, None, [], {})
  }

  function PointOf(c: Client, p: Pid): Point {
    if p in c.callers then c.callers[p] else Idle
  }

  function At(c: Client, p: Pid, point: Point): Client {
    c.(callers := c.callers[p := point])
  }

  function FreshPair(c: Client): TokenPair {
    TokenPair(c.issued, c.issued + 1)
  }

  function FreshFlight(c: Client): Flight {
    |c.results|
  }

  function Enter(c: Client, p: Pid): Client {
    match c.inFlight
    case Some(f) => At(c, p, Waiting(f))
    case None =>
      var f := FreshFlight(c);
      At(c.(inFlight := Some(f), leader := Some(p), results := c.results[f := None]), p, ReadingStored(f))
  }

  /** The end of a job that set the session state to `outcome`. */
  function Finish(c: Client, p: Pid, job: Job, outcome: SessionState): Client {
    At(c.(session := outcome), p,
       if job.RefreshJob? then Completing(job.flight, outcome) else Returned(None, outcome))
  }

  /** The token of a flight that ends while the store still holds it. */
  function LeftBehind(c: Client, job: Job): set<Token> {
    if job.RefreshJob? && c.refreshSlot == Some(job.token) then {job.token} else {}
  }

  /** An exception: the leader of a flight reports it as a transport failure, others end. */
  function Throw(c: Client, p: Pid, job: Job): Client {
    if job.RefreshJob?
    then Finish(c.(stranded := c.stranded + LeftBehind(c, job)), p, job, Failed(Transport))
    else At(c, p, Idle)
  }

  function AfterRead(c: Client, p: Pid, access: Access): Client {
    match PointOf(c, p)
    case ReadingStored(f) =>
      if access.Throws? then At(c.(session := Failed(Transport)), p, Completing(f, Failed(Transport)))
      else if access.Fails? then At(c.(session := Failed(SecureStorage)), p, Completing(f, Failed(SecureStorage)))
      else if c.refreshSlot.Some? then At(c, p, Sending(f, c.refreshSlot.value))
      else At(c.(session := SignedOut), p, Completing(f, SignedOut))
    case LogoutReading =>
      if access.Throws? then At(c, p, Idle)
      else if access.Done? && c.refreshSlot.Some? then At(c, p, LogoutSent(c.refreshSlot.value))
      else At(c, p, ClearingAccess(LogoutJob, SignedOut))
    case _ => c
  }

  function AfterReply(c: Client, p: Pid, reply: Reply): Client {
    var granted := c.(issued := c.issued + 2);
    match PointOf(c, p)
    case AwaitingReply(f, t) =>
      var job := RefreshJob(f, t);
      (match reply
       case Granted => At(granted, p, WritingRefresh(job, FreshPair(c)))
       case Refused(e) => At(c, p, ClearingAccess(job, if e.SessionInvalid? then SignedOut else Failed(e)))
       case Thrown => Throw(c, p, job))
    case LoginSent =>
      (match reply
       case Granted => At(granted, p, WritingRefresh(LoginJob, FreshPair(c)))
       case Refused(e) => Finish(c, p, LoginJob, Failed(e))
       case Thrown => At(c, p, Idle))
    case LogoutSent(_) =>
      if reply.Thrown? then At(c, p, Idle) else At(c, p, ClearingAccess(LogoutJob, SignedOut))
    case _ => c
  }

  function AfterWrite(c: Client, p: Pid, access: Access): Client {
    match PointOf(c, p)
    case WritingRefresh(job, pair) =>
      (match access
       case Done => At(c.(refreshSlot := Some(pair.refresh)), p, WritingAccess(job, pair))
       case Fails => At(c, p, ClearingAccess(job, Failed(SecureStorage)))
       case Throws => Throw(c, p, job))
    case WritingAccess(job, pair) =>
      (match access
       case Done => Finish(c.(accessSlot := Some(pair.access)), p, job, SignedIn)
       case Fails => At(c, p, ClearingAccess(job, Failed(SecureStorage)))
       case Throws => Throw(c, p, job))
    case _ => c
  }

  /** Both removals run whatever happens to the other, and their failures are swallowed. */
  function AfterRemove(c: Client, p: Pid, removed: bool): Client {
    match PointOf(c, p)
    case ClearingAccess(job, next) =>
      At(if removed then c.(accessSlot := None) else c, p, ClearingRefresh(job, next))
    case ClearingRefresh(job, next) =>
      Finish(if removed then c.(refreshSlot := None)
             else c.(stranded := c.stranded + LeftBehind(c, job)), p, job, next)
    case _ => c
  }

  predicate IsFree(point: Point) {
    point.Idle? || point.Returned?
  }

  function After(c: Client, step: Step): Client {
    var p := step.p;
    var point := PointOf(c, p);
    match step
    case CallRefresh(_) => if IsFree(point) then Enter(c, p) else c
    case CallRestore(_) => if IsFree(point) then Enter(c.(session := Restoring), p) else c
    case CallLogin(_) => if IsFree(point) then At(c, p, LoginSent) else c
    case CallLogout(_) => if IsFree(point) then At(c, p, LogoutReading) else c
    case Read(_, access) => AfterRead(c, p, access)
    case Send(_) =>
      if point.Sending?
      then At(c.(sent := c.sent + [point.token]), p, AwaitingReply(point.flight, point.token))
      else c
    case Receive(_, reply) => AfterReply(c, p, reply)
    case Write(_, access) => AfterWrite(c, p, access)
    case Remove(_, removed) => AfterRemove(c, p, removed)
    case Complete(_) =>
      if point.Completing?
      then At(c.(results := c.results[point.flight := Some(point.outcome)]), p, Releasing(point.flight))
      else c
    case Release(_) =>
      if point.Releasing? && point.flight in c.results && c.results[point.flight].Some?
      then At(if c.inFlight == Some(point.flight) then c.(inFlight := None, leader := None) else c, p,
              Returned(Some(point.flight), c.results[point.flight].value))
      else c
    case Resume(_) =>
      if point.Waiting? && point.flight in c.results && c.results[point.flight].Some?
      then At(c, p, Returned(Some(point.flight), c.results[point.flight].value))
      else c
  }

  function Run(c: Client, steps: seq<Step>): Client
    decreases |steps|
  {
    if steps == [] then c else After(Run(c, steps[..|steps| - 1]), steps[|steps| - 1])
  }

  // ------------------------------------------------------------- the flights

  /** The flight a point leads, if it leads one. */
  function Leads(point: Point): Option<Flight> {
    match point
    case ReadingStored(f) => Some(f)
    case Sending(f, _) => Some(f)
    case AwaitingReply(f, _) => Some(f)
    case Completing(f, _) => Some(f)
    case Releasing(f) => Some(f)
    case WritingRefresh(job, _) => JobFlight(job)
    case WritingAccess(job, _) => JobFlight(job)
    case ClearingAccess(job, _) => JobFlight(job)
    case ClearingRefresh(job, _) => JobFlight(job)
    case _ => None
  }

  function JobFlight(job: Job): Option<Flight> {
    if job.RefreshJob? then Some(job.flight) else None
  }

  ghost predicate FlightsAreNumbered(c: Client) {
    forall f: Flight :: f in c.results <==> f < |c.results|
  }

  /** The in-flight slot is taken exactly while one caller leads the flight in it. */
  predicate SlotIsLed(c: Client) {
    && (c.inFlight.Some? <==> c.leader.Some?)
    && (c.leader.Some? ==> Leads(PointOf(c, c.leader.value)) == c.inFlight)
    && (forall p :: p in c.callers && Leads(c.callers[p]).Some? ==> c.leader == Some(p))
  }

  /** Only the current flight can be incomplete, and it is until its leader is about to release it. */
  ghost predicate ResultsMatch(c: Client) {
    && (c.inFlight.Some? ==> c.inFlight.value in c.results)
    && (forall f :: f in c.results && c.results[f].None? ==> c.inFlight == Some(f))
    && (c.leader.Some? && c.inFlight.Some? && c.inFlight.value in c.results ==>
          (c.results[c.inFlight.value].Some? <==> PointOf(c, c.leader.value).Releasing?))
  }

  predicate CallerIsServed(c: Client, point: Point) {
    && (point.Waiting? ==> point.flight in c.results)
    && (point.Returned? && point.via.Some? ==>
          point.via.value in c.results && c.results[point.via.value] == Some(point.outcome))
  }

  ghost predicate FlightInv(c: Client) {
    && FlightsAreNumbered(c)
    && SlotIsLed(c)
    && ResultsMatch(c)
    && forall p :: p in c.callers ==> CallerIsServed(c, c.callers[p])
  }

  /** A move that neither starts, completes, leaves nor joins a flight. */
  predicate Quiet(from: Point, to: Point) {
    && Leads(from) == Leads(to)
    && !from.Releasing? && !to.Releasing? && !to.Waiting?
    && (to.Returned? ==> to.via.None?)
  }

  ghost predicate QuietMove(c: Client, c': Client, p: Pid) {
    && c'.inFlight == c.inFlight && c'.results == c.results && c'.leader == c.leader
    && p in c'.callers && c'.callers == c.callers[p := c'.callers[p]]
    && Quiet(PointOf(c, p), c'.callers[p])
  }

  lemma QuietMoveKeepsFlightInv(c: Client, c': Client, p: Pid)
    requires FlightInv(c) && QuietMove(c, c', p)
    ensures FlightInv(c')
  {
  }

  lemma ReadIsQuiet(c: Client, p: Pid, access: Access)
    ensures AfterRead(c, p, access) == c || QuietMove(c, AfterRead(c, p, access), p)
  {
  }

  lemma ReplyIsQuiet(c: Client, p: Pid, reply: Reply)
    ensures AfterReply(c, p, reply) == c || QuietMove(c, AfterReply(c, p, reply), p)
  {
  }

  lemma WriteIsQuiet(c: Client, p: Pid, access: Access)
    ensures AfterWrite(c, p, access) == c || QuietMove(c, AfterWrite(c, p, access), p)
  {
  }

  lemma RemoveIsQuiet(c: Client, p: Pid, removed: bool)
    ensures AfterRemove(c, p, removed) == c || QuietMove(c, AfterRemove(c, p, removed), p)
  {
  }

  predicate TouchesFlights(step: Step) {
    step.CallRefresh? || step.CallRestore? || step.Complete? || step.Release? || step.Resume?
  }

  lemma OtherStepsAreQuiet(c: Client, step: Step)
    requires !TouchesFlights(step)
    ensures After(c, step) == c || QuietMove(c, After(c, step), step.p)
  {
    match step
    case Read(p, access) => ReadIsQuiet(c, p, access);
    case Receive(p, reply) => ReplyIsQuiet(c, p, reply);
    case Write(p, access) => WriteIsQuiet(c, p, access);
    case Remove(p, removed) => RemoveIsQuiet(c, p, removed);
    case _ =>
  }

  lemma EnterKeepsFlightInv(c: Client, p: Pid)
    requires FlightInv(c) && IsFree(PointOf(c, p))
    ensures FlightInv(Enter(c, p))
  {
    if c.inFlight.None? {
      assert FreshFlight(c) !in c.results;
    }
  }

  lemma CompleteKeepsFlightInv(c: Client, p: Pid)
    requires FlightInv(c)
    ensures FlightInv(After(c, Complete(p)))
  {
    var c' := After(c, Complete(p));
    if PointOf(c, p).Completing? {
      assert Leads(c.callers[p]).Some?;
      assert c'.results.Keys == c.results.Keys;
      assert |c'.results.Keys| == |c'.results| && |c.results.Keys| == |c.results|;
    }
  }

  lemma ReleaseKeepsFlightInv(c: Client, p: Pid)
    requires FlightInv(c)
    ensures FlightInv(After(c, Release(p)))
  {
    if PointOf(c, p).Releasing? {
      assert Leads(c.callers[p]).Some?;
    }
  }

  lemma ResumeKeepsFlightInv(c: Client, p: Pid)
    requires FlightInv(c)
    ensures FlightInv(After(c, Resume(p)))
  {
  }

  lemma StepKeepsFlightInv(c: Client, step: Step)
    requires FlightInv(c)
    ensures FlightInv(After(c, step))
  {
    var p := step.p;
    match step
    case CallRefresh(_) => if IsFree(PointOf(c, p)) { EnterKeepsFlightInv(c, p); }
    case CallRestore(_) => if IsFree(PointOf(c, p)) { EnterKeepsFlightInv(c.(session := Restoring), p); }
    case Complete(_) => CompleteKeepsFlightInv(c, p);
    case Release(_) => ReleaseKeepsFlightInv(c, p);
    case Resume(_) => ResumeKeepsFlightInv(c, p);
    case _ =>
      OtherStepsAreQuiet(c, step);
      if After(c, step) != c {
        QuietMoveKeepsFlightInv(c, After(c, step), p);
      }
  }

  // -------------------------------------------------------------- the tokens

  /** The token a leader has sent while the fate of the store is undecided. */
  function Holds(point: Point): Option<Token> {
    match point
    case AwaitingReply(_, t) => Some(t)
    case WritingRefresh(job, _) => JobToken(job)
    case ClearingAccess(job, _) => JobToken(job)
    case ClearingRefresh(job, _) => JobToken(job)
    case _ => None
  }

  function JobToken(job: Job): Option<Token> {
    if job.RefreshJob? then Some(job.token) else None
  }

  ghost predicate TokensAreIssued(c: Client) {
    && (c.refreshSlot.Some? ==> c.refreshSlot.value < c.issued)
    && (forall t :: t in c.sent ==> t < c.issued)
    && (forall p :: p in c.callers && c.callers[p].Sending? ==> c.callers[p].token < c.issued)
    && (forall p :: p in c.callers && c.callers[p].WritingRefresh? ==> c.callers[p].pair.refresh < c.issued)
  }

  /** A token that awaits its first write is nowhere else. */
  ghost predicate UnwrittenIsNew(c: Client, p: Pid, t: Token) {
    && t !in c.sent
    && c.refreshSlot != Some(t)
    && (forall q :: q in c.callers && c.callers[q].Sending? ==> c.callers[q].token != t)
    && (forall q :: q in c.callers && q != p && c.callers[q].WritingRefresh? ==> c.callers[q].pair.refresh != t)
  }

  ghost predicate UnwrittenAreNew(c: Client) {
    forall p :: p in c.callers && c.callers[p].WritingRefresh? ==> UnwrittenIsNew(c, p, c.callers[p].pair.refresh)
  }

  /** A stored token that was sent is stranded, unless the flight that sent it is still deciding. */
  ghost predicate StoredIsUnsent(c: Client) {
    c.refreshSlot.Some? && c.refreshSlot.value in c.sent && c.refreshSlot.value !in c.stranded ==>
      c.leader.Some? && Holds(PointOf(c, c.leader.value)) == c.refreshSlot
  }

  ghost predicate SendingIsUnsent(c: Client) {
    forall p :: p in c.callers && c.callers[p].Sending? && c.callers[p].token in c.sent ==>
      c.callers[p].token in c.stranded
  }

  ghost predicate ResentIsStranded(c: Client) {
    forall i, j :: 0 <= i < j < |c.sent| && c.sent[i] == c.sent[j] ==> c.sent[i] in c.stranded
  }

  ghost predicate TokenInv(c: Client) {
    && TokensAreIssued(c)
    && UnwrittenAreNew(c)
    && StoredIsUnsent(c)
    && SendingIsUnsent(c)
    && ResentIsStranded(c)
  }

  /** The leader goes on deciding the fate of the token it sent, or the store no longer holds that token unnoticed. */
  predicate KeepsHold(c: Client, c': Client) {
    c.leader.Some? && Holds(PointOf(c, c.leader.value)).Some? ==>
      var held := Holds(PointOf(c, c.leader.value));
      || (c'.leader == c.leader && Holds(PointOf(c', c.leader.value)) == held)
      || c'.refreshSlot != held
      || held.value in c'.stranded
  }

  /** A move that neither picks a token to send, sends one, receives one nor stores one. */
  ghost predicate NeutralMove(c: Client, c': Client, p: Pid) {
    && c'.sent == c.sent && c.issued <= c'.issued && c.stranded <= c'.stranded
    && c'.refreshSlot in {c.refreshSlot, None}
    && p in c'.callers && c'.callers == c.callers[p := c'.callers[p]]
    && !c'.callers[p].Sending? && !c'.callers[p].WritingRefresh?
    && KeepsHold(c, c')
  }

  lemma NeutralMoveKeepsTokenInv(c: Client, c': Client, p: Pid)
    requires TokenInv(c) && NeutralMove(c, c', p)
    ensures TokenInv(c')
  {
  }

  lemma ReadIsNeutral(c: Client, p: Pid, access: Access)
    requires SlotIsLed(c)
    ensures var c' := AfterRead(c, p, access);
            c' == c || c'.callers[p].Sending? || NeutralMove(c, c', p)
  {
  }

  lemma ReadKeepsTokenInv(c: Client, p: Pid, access: Access)
    requires FlightInv(c) && TokenInv(c)
    ensures TokenInv(AfterRead(c, p, access))
  {
    var c' := AfterRead(c, p, access);
    ReadIsNeutral(c, p, access);
    if NeutralMove(c, c', p) {
      NeutralMoveKeepsTokenInv(c, c', p);
    }
  }

  lemma SendKeepsTokenInv(c: Client, p: Pid)
    requires FlightInv(c) && TokenInv(c)
    ensures TokenInv(After(c, Send(p)))
  {
    SendIsNotResend(c, p);
    SendKeepsStored(c, p);
  }

  lemma SendIsNotResend(c: Client, p: Pid)
    requires SendingIsUnsent(c) && ResentIsStranded(c)
    ensures ResentIsStranded(After(c, Send(p)))
  {
  }

  lemma SendKeepsStored(c: Client, p: Pid)
    requires FlightInv(c) && StoredIsUnsent(c)
    ensures StoredIsUnsent(After(c, Send(p)))
  {
  }

  lemma ReceivedPairIsNew(c: Client, p: Pid)
    requires TokensAreIssued(c) && UnwrittenAreNew(c)
    requires PointOf(c, p).AwaitingReply? || PointOf(c, p).LoginSent?
    ensures TokensAreIssued(AfterReply(c, p, Granted)) && UnwrittenAreNew(AfterReply(c, p, Granted))
  {
  }

  lemma ReceivedPairKeepsTokenInv(c: Client, p: Pid)
    requires FlightInv(c) && TokenInv(c)
    requires PointOf(c, p).AwaitingReply? || PointOf(c, p).LoginSent?
    ensures TokenInv(AfterReply(c, p, Granted))
  {
    ReceivedPairIsNew(c, p);
    ReceivedPairKeepsStored(c, p);
  }

  lemma ReceivedPairKeepsStored(c: Client, p: Pid)
    requires FlightInv(c) && StoredIsUnsent(c)
    requires PointOf(c, p).AwaitingReply? || PointOf(c, p).LoginSent?
    ensures StoredIsUnsent(AfterReply(c, p, Granted))
  {
  }

  lemma ReplyKeepsTokenInv(c: Client, p: Pid, reply: Reply)
    requires FlightInv(c) && TokenInv(c)
    ensures TokenInv(AfterReply(c, p, reply))
  {
    var c' := AfterReply(c, p, reply);
    if c' != c {
      if reply.Granted? && !PointOf(c, p).LogoutSent? {
        ReceivedPairKeepsTokenInv(c, p);
      } else {
        assert NeutralMove(c, c', p);
        NeutralMoveKeepsTokenInv(c, c', p);
      }
    }
  }

  lemma StoredPairKeepsTokenInv(c: Client, p: Pid)
    requires FlightInv(c) && TokenInv(c)
    requires PointOf(c, p).WritingRefresh?
    ensures TokenInv(AfterWrite(c, p, Done))
  {
  }

  lemma WriteIsNeutral(c: Client, p: Pid, access: Access)
    requires SlotIsLed(c)
    ensures var c' := AfterWrite(c, p, access);
            c' == c || (access.Done? && PointOf(c, p).WritingRefresh?) || NeutralMove(c, c', p)
  {
  }

  lemma WriteKeepsTokenInv(c: Client, p: Pid, access: Access)
    requires FlightInv(c) && TokenInv(c)
    ensures TokenInv(AfterWrite(c, p, access))
  {
    WriteIsNeutral(c, p, access);
    if access.Done? && PointOf(c, p).WritingRefresh? {
      StoredPairKeepsTokenInv(c, p);
    } else if AfterWrite(c, p, access) != c {
      NeutralMoveKeepsTokenInv(c, AfterWrite(c, p, access), p);
    }
  }

  lemma RemoveIsNeutral(c: Client, p: Pid, removed: bool)
    requires SlotIsLed(c)
    ensures AfterRemove(c, p, removed) == c || NeutralMove(c, AfterRemove(c, p, removed), p)
  {
  }

  lemma RemoveKeepsTokenInv(c: Client, p: Pid, removed: bool)
    requires FlightInv(c) && TokenInv(c)
    ensures TokenInv(AfterRemove(c, p, removed))
  {
    RemoveIsNeutral(c, p, removed);
    if AfterRemove(c, p, removed) != c {
      NeutralMoveKeepsTokenInv(c, AfterRemove(c, p, removed), p);
    }
  }

  lemma OtherStepsKeepTokenInv(c: Client, step: Step)
    requires FlightInv(c) && TokenInv(c)
    requires TouchesFlights(step) || step.CallLogin? || step.CallLogout?
    ensures TokenInv(After(c, step))
  {
    var c' := After(c, step);
    if c' != c {
      assert NeutralMove(c, c', step.p);
      NeutralMoveKeepsTokenInv(c, c', step.p);
    }
  }

  lemma StepKeepsTokenInv(c: Client, step: Step)
    requires FlightInv(c) && TokenInv(c)
    ensures TokenInv(After(c, step))
  {
    match step
    case Read(p, access) => ReadKeepsTokenInv(c, p, access);
    case Send(p) => SendKeepsTokenInv(c, p);
    case Receive(p, reply) => ReplyKeepsTokenInv(c, p, reply);
    case Write(p, access) => WriteKeepsTokenInv(c, p, access);
    case Remove(p, removed) => RemoveKeepsTokenInv(c, p, removed);
    case _ => OtherStepsKeepTokenInv(c, step);
  }

  lemma {:induction false} RunKeepsInv(c: Client, steps: seq<Step>)
    requires FlightInv(c) && TokenInv(c)
    ensures FlightInv(Run(c, steps)) && TokenInv(Run(c, steps))
    decreases |steps|
  {
    if steps != [] {
      RunKeepsInv(c, steps[..|steps| - 1]);
      StepKeepsFlightInv(Run(c, steps[..|steps| - 1]), steps[|steps| - 1]);
      StepKeepsTokenInv(Run(c, steps[..|steps| - 1]), steps[|steps| - 1]);
    }
  }

  lemma RunFromStart(stored: Option<Token>, steps: seq<Step>)
    ensures FlightInv(Run(Start(stored), steps)) && TokenInv(Run(Start(stored), steps))
  {
    var c := Start(stored);
    assert |c.results| == 0;
    RunKeepsInv(c, steps);
  }

  // ------------------------------------------------------------- main results

  /** At every moment of every run at most one caller is waiting for the refresh endpoint. */
  lemma SingleFlight(stored: Option<Token>, steps: seq<Step>, p: Pid, q: Pid)
    requires PointOf(Run(Start(stored), steps), p).AwaitingReply?
    requires PointOf(Run(Start(stored), steps), q).AwaitingReply?
    ensures p == q
  {
    RunFromStart(stored, steps);
  }

  /** A token goes to the refresh endpoint again only if a flight that sent it ended with it still stored. */
  lemma ResentOnlyIfStranded(stored: Option<Token>, steps: seq<Step>)
    ensures ResentIsStranded(Run(Start(stored), steps))
  {
    RunFromStart(stored, steps);
  }

  /** The faults of a refresh that can strand its token: an exception, or a refresh token that was not removed. */
  predicate IsFault(point: Point, step: Step) {
    || (step.Receive? && step.reply.Thrown? && point.AwaitingReply?)
    || (step.Write? && step.access.Throws?
        && (point.WritingRefresh? || point.WritingAccess?) && point.job.RefreshJob?)
    || (step.Remove? && !step.removed && point.ClearingRefresh? && point.job.RefreshJob?)
  }

  /** The token that the caller's refresh has sent. */
  function TokenOf(point: Point): Option<Token> {
    if point.WritingAccess? then JobToken(point.job) else Holds(point)
  }

  /** A fault strands the token of its flight if the store holds that token. */
  predicate Strands(c: Client, step: Step) {
    && IsFault(PointOf(c, step.p), step)
    && c.refreshSlot.Some? && TokenOf(PointOf(c, step.p)) == c.refreshSlot
  }

  /** Nothing else strands a token. */
  lemma StrandedGrowsIff(c: Client, step: Step)
    ensures After(c, step).stranded == c.stranded + if Strands(c, step) then {c.refreshSlot.value} else {}
  {
  }

  predicate FaultAt(c: Client, steps: seq<Step>, i: nat)
    requires i < |steps|
  {
    IsFault(PointOf(Run(c, steps[..i]), steps[i].p), steps[i])
  }

  predicate IsFaultless(c: Client, steps: seq<Step>) {
    forall i: nat :: i < |steps| ==> !FaultAt(c, steps, i)
  }

  lemma FaultlessPrefix(c: Client, steps: seq<Step>)
    requires steps != [] && IsFaultless(c, steps)
    ensures IsFaultless(c, steps[..|steps| - 1])
    ensures !Strands(Run(c, steps[..|steps| - 1]), steps[|steps| - 1])
  {
    var init := steps[..|steps| - 1];
    forall i: nat | i < |init| ensures !FaultAt(c, init, i) {
      assert init[..i] == steps[..i] && !FaultAt(c, steps, i);
    }
    assert !FaultAt(c, steps, |steps| - 1);
  }

  lemma {:induction false} FaultlessRunStrandsNothing(c: Client, steps: seq<Step>)
    requires IsFaultless(c, steps)
    ensures Run(c, steps).stranded == c.stranded
    decreases |steps|
  {
    if steps != [] {
      FaultlessPrefix(c, steps);
      FaultlessRunStrandsNothing(c, steps[..|steps| - 1]);
      StrandedGrowsIff(Run(c, steps[..|steps| - 1]), steps[|steps| - 1]);
    }
  }

  /** Without such faults no refresh token is ever sent twice, however the callers interleave. */
  lemma NoTokenSentTwice(stored: Option<Token>, steps: seq<Step>)
    requires IsFaultless(Start(stored), steps)
    ensures var sent := Run(Start(stored), steps).sent;
            forall i, j :: 0 <= i < j < |sent| ==> sent[i] != sent[j]
  {
    RunFromStart(stored, steps);
    FaultlessRunStrandsNothing(Start(stored), steps);
  }

  /** What a flight under decision holds was sent, and so was what is stranded. */
  ghost predicate SentInv(c: Client) {
    && (forall p :: p in c.callers && TokenOf(c.callers[p]).Some? ==>
                    TokenOf(c.callers[p]).value in c.sent)
    && (forall t :: t in c.stranded ==> t in c.sent)
  }

  /** Only the caller moves, and takes up no token that was not sent. */
  ghost predicate MovesOnSent(c: Client, c': Client, p: Pid) {
    && c.sent <= c'.sent && c.stranded <= c'.stranded
    && (forall q :: q in c'.callers && q != p ==> q in c.callers && c'.callers[q] == c.callers[q])
    && (p in c'.callers && TokenOf(c'.callers[p]).Some? ==>
          || TokenOf(c'.callers[p]).value in c'.sent
          || (p in c.callers && TokenOf(c'.callers[p]) == TokenOf(c.callers[p])))
    && (forall t :: t in c'.stranded ==> t in c.stranded || (p in c.callers && TokenOf(c.callers[p]) == Some(t)))
  }

  lemma MovingKeepsSentInv(c: Client, c': Client, p: Pid)
    requires SentInv(c) && MovesOnSent(c, c', p)
    ensures SentInv(c')
  {
  }

  lemma ReadMovesOnSent(c: Client, p: Pid, access: Access)
    ensures MovesOnSent(c, AfterRead(c, p, access), p)
  {
  }

  lemma ReplyMovesOnSent(c: Client, p: Pid, reply: Reply)
    ensures MovesOnSent(c, AfterReply(c, p, reply), p)
  {
  }

  lemma WriteMovesOnSent(c: Client, p: Pid, access: Access)
    ensures MovesOnSent(c, AfterWrite(c, p, access), p)
  {
  }

  lemma RemoveMovesOnSent(c: Client, p: Pid, removed: bool)
    ensures MovesOnSent(c, AfterRemove(c, p, removed), p)
  {
  }

  lemma OtherStepsMoveOnSent(c: Client, step: Step)
    requires !step.Read? && !step.Receive? && !step.Write? && !step.Remove?
    ensures MovesOnSent(c, After(c, step), step.p)
  {
  }

  lemma StepKeepsSentInv(c: Client, step: Step)
    requires SentInv(c)
    ensures SentInv(After(c, step))
  {
    match step {
      case Read(p, access) => ReadMovesOnSent(c, p, access);
      case Receive(p, reply) => ReplyMovesOnSent(c, p, reply);
      case Write(p, access) => WriteMovesOnSent(c, p, access);
      case Remove(p, removed) => RemoveMovesOnSent(c, p, removed);
      case _ => OtherStepsMoveOnSent(c, step);
    }
    MovingKeepsSentInv(c, After(c, step), step.p);
  }

  lemma {:induction false} RunKeepsSentInv(c: Client, steps: seq<Step>)
    requires SentInv(c)
    ensures SentInv(Run(c, steps))
    decreases |steps|
  {
    if steps != [] {
      RunKeepsSentInv(c, steps[..|steps| - 1]);
      StepKeepsSentInv(Run(c, steps[..|steps| - 1]), steps[|steps| - 1]);
    }
  }

  /** In every run, with no flight open, the next refresh resends a token exactly when the stored one is stranded. */
  lemma ResendsIffStranded(stored: Option<Token>, steps: seq<Step>, p: Pid)
    requires var c := Run(Start(stored), steps);
             c.inFlight.None? && c.refreshSlot.Some? && IsFree(PointOf(c, p))
    ensures var c := Run(Start(stored), steps);
            && After(After(After(c, CallRefresh(p)), Read(p, Done)), Send(p)).sent == c.sent + [c.refreshSlot.value]
            && (c.refreshSlot.value in c.sent <==> c.refreshSlot.value in c.stranded)
  {
    RunFromStart(stored, steps);
    RunKeepsSentInv(Start(stored), steps);
    NextRefreshSendsStored(Run(Start(stored), steps), p);
  }

  /** The leader of an open flight has sent the token that the store still holds. */
  predicate IsInDoubt(c: Client) {
    c.leader.Some? && c.refreshSlot.Some? && Holds(PointOf(c, c.leader.value)) == c.refreshSlot
  }

  /**
   The process is killed, and another one starts with what the store holds. A token
   whose fate was open counts as stranded from then on.
   */
  function Restarted(c: Client): Client {
    Client(c.refreshSlot, c.accessSlot, None, map[], SignedOut, map[], c.issued, None, c.sent,
           if IsInDoubt(c) then c.stranded + {c.refreshSlot.value} else c.stranded)
  }

  /** Any number of processes, one after the other, each killed at any moment. */
  function Lives(stored: Option<Token>, lives: seq<seq<Step>>): Client
    decreases |lives|
  {
    if lives == [] then Start(stored)
    else Run(Restarted(Lives(stored, lives[..|lives| - 1])), lives[|lives| - 1])
  }

  lemma RestartKeepsInv(c: Client)
    requires TokenInv(c) && SentInv(c)
    ensures FlightInv(Restarted(c)) && TokenInv(Restarted(c)) && SentInv(Restarted(c))
    ensures IsInDoubt(c) ==> c.refreshSlot.value in c.sent
  {
    assert |Restarted(c).results| == 0;
    if IsInDoubt(c) {
      assert TokenOf(c.callers[c.leader.value]) == c.refreshSlot;
    }
  }

  lemma {:induction false} LivesKeepInv(stored: Option<Token>, lives: seq<seq<Step>>)
    ensures var c := Lives(stored, lives);
            FlightInv(c) && TokenInv(c) && SentInv(c)
    decreases |lives|
  {
    if lives == [] {
      RunFromStart(stored, []);
    } else {
      var before := Lives(stored, lives[..|lives| - 1]);
      LivesKeepInv(stored, lives[..|lives| - 1]);
      RestartKeepsInv(before);
      RunKeepsInv(Restarted(before), lives[|lives| - 1]);
      RunKeepsSentInv(Restarted(before), lives[|lives| - 1]);
    }
  }

  /** Over any number of processes too, only a stranded token is sent again, and the next refresh resends iff it is. */
  lemma ResendsInAnyLifeIff(stored: Option<Token>, lives: seq<seq<Step>>, p: Pid)
    ensures ResentIsStranded(Lives(stored, lives))
    ensures var c := Lives(stored, lives);
            c.inFlight.None? && c.refreshSlot.Some? && IsFree(PointOf(c, p)) ==>
              && After(After(After(c, CallRefresh(p)), Read(p, Done)), Send(p)).sent == c.sent + [c.refreshSlot.value]
              && (c.refreshSlot.value in c.sent <==> c.refreshSlot.value in c.stranded)
  {
    var c := Lives(stored, lives);
    LivesKeepInv(stored, lives);
    if c.inFlight.None? && c.refreshSlot.Some? && IsFree(PointOf(c, p)) {
      NextRefreshSendsStored(c, p);
    }
  }

  /**
   The first refresh after a restart sends the stored token. That is another time
   exactly when the token was stranded, or when a flight had sent it and was still
   deciding its fate.
   */
  lemma ResendsAfterRestartIff(stored: Option<Token>, lives: seq<seq<Step>>, p: Pid)
    requires Lives(stored, lives).refreshSlot.Some?
    ensures var c := Lives(stored, lives);
            && After(After(After(Restarted(c), CallRefresh(p)), Read(p, Done)), Send(p)).sent
               == c.sent + [c.refreshSlot.value]
            && (c.refreshSlot.value in c.sent <==> c.refreshSlot.value in c.stranded || IsInDoubt(c))
  {
    var c := Lives(stored, lives);
    LivesKeepInv(stored, lives);
    RestartKeepsInv(c);
    NextRefreshSendsStored(Restarted(c), p);
  }

  /** When no flight is open, the next refresh sends whatever the store holds, stranded or not. */
  lemma NextRefreshSendsStored(c: Client, p: Pid)
    requires c.inFlight.None? && c.refreshSlot.Some? && IsFree(PointOf(c, p))
    ensures var c' := After(After(After(c, CallRefresh(p)), Read(p, Done)), Send(p));
            var f := FreshFlight(c);
            && c'.sent == c.sent + [c.refreshSlot.value]
            && c'.inFlight == Some(f) && f in c'.results && c'.refreshSlot == c.refreshSlot
            && PointOf(c', p) == AwaitingReply(f, c.refreshSlot.value)
  {
    var one := After(c, CallRefresh(p));
    var f := FreshFlight(c);
    assert PointOf(one, p) == ReadingStored(f);
    var two := After(one, Read(p, Done));
    assert PointOf(two, p) == Sending(f, c.refreshSlot.value);
  }

  /** A flight that sent its token and loses the reply ends with that token still in the store. */
  lemma LostReplyKeepsToken(c: Client, p: Pid, f: Flight, t: Token)
    requires c.inFlight == Some(f) && f in c.results && PointOf(c, p) == AwaitingReply(f, t)
    ensures var c' := After(After(After(c, Receive(p, Thrown)), Complete(p)), Release(p));
            c'.inFlight.None? && c'.sent == c.sent && c'.refreshSlot == c.refreshSlot && IsFree(PointOf(c', p))
  {
    var one := After(c, Receive(p, Thrown));
    assert PointOf(one, p) == Completing(f, Failed(Transport));
    var two := After(one, Complete(p));
    assert PointOf(two, p) == Releasing(f);
  }

  /** A whole flight that loses the reply: one send, and the token still stored. */
  lemma LostFlight(c: Client, p: Pid)
    requires c.inFlight.None? && c.refreshSlot.Some? && IsFree(PointOf(c, p))
    ensures var c' := Run(c, OpenFlight(p) + LoseReply(p));
            && c'.sent == c.sent + [c.refreshSlot.value]
            && c'.refreshSlot == c.refreshSlot && c'.inFlight.None? && IsFree(PointOf(c', p))
  {
    var half := Run(c, OpenFlight(p));
    RunThree(c, [], CallRefresh(p), Read(p, Done), Send(p));
    assert [] + OpenFlight(p) == OpenFlight(p);
    var f := FreshFlight(c);
    NextRefreshSendsStored(c, p);
    assert half.inFlight == Some(f) && f in half.results && half.refreshSlot == c.refreshSlot;
    LostReplyKeepsToken(half, p, f, c.refreshSlot.value);
    RunThree(c, OpenFlight(p), Receive(p, Thrown), Complete(p), Release(p));
  }

  function OpenFlight(p: Pid): seq<Step> {
    [CallRefresh(p), Read(p, Done), Send(p)]
  }

  function LoseReply(p: Pid): seq<Step> {
    [Receive(p, Thrown), Complete(p), Release(p)]
  }

  /** One lost reply is enough: the client keeps the token and sends it a second time. */
  lemma LostReplyResends(c: Client, p: Pid)
    requires c.inFlight.None? && c.refreshSlot.Some? && IsFree(PointOf(c, p))
    ensures Run(c, OpenFlight(p) + LoseReply(p) + OpenFlight(p)).sent
            == c.sent + [c.refreshSlot.value, c.refreshSlot.value]
  {
    LostFlight(c, p);
    NextRefreshSendsStored(Run(c, OpenFlight(p) + LoseReply(p)), p);
    RunThree(c, OpenFlight(p) + LoseReply(p), CallRefresh(p), Read(p, Done), Send(p));
  }

  lemma RunThree(c: Client, steps: seq<Step>, s1: Step, s2: Step, s3: Step)
    ensures Run(c, steps + [s1, s2, s3]) == After(After(After(Run(c, steps), s1), s2), s3)
  {
    assert steps + [s1, s2, s3] == ((steps + [s1]) + [s2]) + [s3];
    RunSteps(c, steps, s1);
    RunSteps(c, steps + [s1], s2);
    RunSteps(c, steps + [s1] + [s2], s3);
  }

  lemma RunSteps(c: Client, steps: seq<Step>, step: Step)
    ensures Run(c, steps + [step]) == After(Run(c, steps), step)
  {
  }

  /** Every caller that took part in a flight returned the one result of that flight. */
  lemma SharedOutcome(stored: Option<Token>, steps: seq<Step>, p: Pid)
    ensures var c := Run(Start(stored), steps);
            PointOf(c, p).Returned? && PointOf(c, p).via.Some? ==>
              && PointOf(c, p).via.value in c.results
              && c.results[PointOf(c, p).via.value] == Some(PointOf(c, p).outcome)
  {
    RunFromStart(stored, steps);
  }

  /** The step settles what flight `f` comes to: what the read, the reply or the write of its leader means. */
  predicate Settles(c: Client, step: Step, f: Flight, outcome: SessionState) {
    match PointOf(c, step.p)
    case ReadingStored(g) =>
      g == f && step.Read? && (match step.access
                               case Throws => outcome == Failed(Transport)
                               case Fails => outcome == Failed(SecureStorage)
                               case Done => c.refreshSlot.None? && outcome == SignedOut)
    case AwaitingReply(g, _) =>
      g == f && step.Receive? && (match step.reply
                                  case Granted => false
                                  case Refused(SessionInvalid) => outcome == SignedOut
                                  case Refused(e) => outcome == Failed(e)
                                  case Thrown => outcome == Failed(Transport))
    case WritingRefresh(job, _) =>
      JobFlight(job) == Some(f) && step.Write? && !step.access.Done? && outcome == FailedWrite(step.access)
    case WritingAccess(job, _) =>
      JobFlight(job) == Some(f) && step.Write?
      && outcome == if step.access.Done? then SignedIn else FailedWrite(step.access)
    case _ => false
  }

  function FailedWrite(access: Access): SessionState {
    Failed(if access.Throws? then Transport else SecureStorage)
  }

  /** The point carries the outcome of a flight that is settled and not completed yet. */
  predicate Carries(point: Point, f: Flight, outcome: SessionState) {
    match point
    case ClearingAccess(job, next) => JobFlight(job) == Some(f) && next == outcome
    case ClearingRefresh(job, next) => JobFlight(job) == Some(f) && next == outcome
    case Completing(g, next) => g == f && next == outcome
    case _ => false
  }

  ghost predicate IsSettled(c: Client, f: Flight, outcome: SessionState) {
    || (f in c.results && c.results[f] == Some(outcome))
    || (c.leader.Some? && Carries(PointOf(c, c.leader.value), f, outcome))
  }

  lemma ReadSettles(c: Client, step: Step, f: Flight, outcome: SessionState)
    requires step.Read?
    ensures Carries(PointOf(After(c, step), step.p), f, outcome) <==>
              Carries(PointOf(c, step.p), f, outcome) || Settles(c, step, f, outcome)
  {
  }

  lemma ReplySettles(c: Client, step: Step, f: Flight, outcome: SessionState)
    requires step.Receive?
    ensures Carries(PointOf(After(c, step), step.p), f, outcome) <==>
              Carries(PointOf(c, step.p), f, outcome) || Settles(c, step, f, outcome)
  {
  }

  lemma WriteSettles(c: Client, step: Step, f: Flight, outcome: SessionState)
    requires step.Write?
    ensures Carries(PointOf(After(c, step), step.p), f, outcome) <==>
              Carries(PointOf(c, step.p), f, outcome) || Settles(c, step, f, outcome)
  {
  }

  lemma RemoveSettles(c: Client, step: Step, f: Flight, outcome: SessionState)
    requires step.Remove?
    ensures Carries(PointOf(After(c, step), step.p), f, outcome) <==>
              Carries(PointOf(c, step.p), f, outcome) || Settles(c, step, f, outcome)
  {
  }

  lemma OtherStepsSettle(c: Client, step: Step, f: Flight, outcome: SessionState)
    requires step.CallLogin? || step.CallLogout? || step.Send?
    ensures Carries(PointOf(After(c, step), step.p), f, outcome) <==>
              Carries(PointOf(c, step.p), f, outcome) || Settles(c, step, f, outcome)
  {
  }

  lemma LeaderSettles(c: Client, step: Step, f: Flight, outcome: SessionState)
    requires !TouchesFlights(step)
    ensures Carries(PointOf(After(c, step), step.p), f, outcome) <==>
              Carries(PointOf(c, step.p), f, outcome) || Settles(c, step, f, outcome)
  {
    match step
    case Read(_, _) => ReadSettles(c, step, f, outcome);
    case Receive(_, _) => ReplySettles(c, step, f, outcome);
    case Write(_, _) => WriteSettles(c, step, f, outcome);
    case Remove(_, _) => RemoveSettles(c, step, f, outcome);
    case _ => OtherStepsSettle(c, step, f, outcome);
  }

  lemma StepSettles(c: Client, step: Step, f: Flight, outcome: SessionState)
    requires FlightInv(c)
    ensures IsSettled(After(c, step), f, outcome) <==> IsSettled(c, f, outcome) || Settles(c, step, f, outcome)
  {
    if TouchesFlights(step) {
      FlightStepSettles(c, step, f, outcome);
      FlightStepsDoNotSettle(c, step, f, outcome);
    } else {
      OtherStepsAreQuiet(c, step);
      LeaderSettles(c, step, f, outcome);
    }
  }

  lemma EnteringSettles(c: Client, step: Step, f: Flight, outcome: SessionState)
    requires FlightInv(c) && (step.CallRefresh? || step.CallRestore?)
    ensures IsSettled(After(c, step), f, outcome) <==> IsSettled(c, f, outcome)
  {
  }

  /** Completing a flight moves its outcome from the leader to the results. */
  lemma CompletingSettles(c: Client, p: Pid, f: Flight, outcome: SessionState)
    requires FlightInv(c)
    ensures IsSettled(After(c, Complete(p)), f, outcome) <==> IsSettled(c, f, outcome)
  {
  }

  lemma ReturningSettles(c: Client, step: Step, f: Flight, outcome: SessionState)
    requires FlightInv(c) && (step.Release? || step.Resume?)
    ensures IsSettled(After(c, step), f, outcome) <==> IsSettled(c, f, outcome)
  {
  }

  lemma FlightStepSettles(c: Client, step: Step, f: Flight, outcome: SessionState)
    requires FlightInv(c) && TouchesFlights(step)
    ensures IsSettled(After(c, step), f, outcome) <==> IsSettled(c, f, outcome)
  {
    match step
    case Complete(p) => CompletingSettles(c, p, f, outcome);
    case CallRefresh(_) => EnteringSettles(c, step, f, outcome);
    case CallRestore(_) => EnteringSettles(c, step, f, outcome);
    case Release(_) => ReturningSettles(c, step, f, outcome);
    case Resume(_) => ReturningSettles(c, step, f, outcome);
  }

  lemma FlightStepsDoNotSettle(c: Client, step: Step, f: Flight, outcome: SessionState)
    requires TouchesFlights(step)
    ensures !Settles(c, step, f, outcome)
  {
  }

  lemma SettledOnce(c: Client, f: Flight, outcome: SessionState, other: SessionState)
    requires FlightInv(c) && IsSettled(c, f, outcome) && IsSettled(c, f, other)
    ensures outcome == other
  {
  }

  predicate SettlesAt(stored: Option<Token>, steps: seq<Step>, i: nat, f: Flight, outcome: SessionState)
    requires i < |steps|
  {
    Settles(Run(Start(stored), steps[..i]), steps[i], f, outcome)
  }

  ghost predicate SettledInRun(stored: Option<Token>, steps: seq<Step>, f: Flight, outcome: SessionState) {
    exists i: nat :: i < |steps| && SettlesAt(stored, steps, i, f, outcome)
  }

  lemma SettlesInFront(stored: Option<Token>, steps: seq<Step>, i: nat, f: Flight, outcome: SessionState)
    requires i < |steps| - 1
    ensures SettlesAt(stored, steps, i, f, outcome) == SettlesAt(stored, steps[..|steps| - 1], i, f, outcome)
  {
    assert steps[..|steps| - 1][..i] == steps[..i];
  }

  lemma SettledBefore(stored: Option<Token>, steps: seq<Step>, f: Flight, outcome: SessionState)
    requires steps != [] && SettledInRun(stored, steps[..|steps| - 1], f, outcome)
    ensures SettledInRun(stored, steps, f, outcome)
  {
    var i: nat :| i < |steps| - 1 && SettlesAt(stored, steps[..|steps| - 1], i, f, outcome);
    SettlesInFront(stored, steps, i, f, outcome);
  }

  lemma SettledBeforeOrLast(stored: Option<Token>, steps: seq<Step>, f: Flight, outcome: SessionState)
    requires steps != [] && SettledInRun(stored, steps, f, outcome)
    ensures SettledInRun(stored, steps[..|steps| - 1], f, outcome)
            || SettlesAt(stored, steps, |steps| - 1, f, outcome)
  {
    var i: nat :| i < |steps| && SettlesAt(stored, steps, i, f, outcome);
    if i < |steps| - 1 {
      SettlesInFront(stored, steps, i, f, outcome);
    }
  }

  lemma NothingSettledAtStart(stored: Option<Token>, f: Flight, outcome: SessionState)
    ensures !IsSettled(Run(Start(stored), []), f, outcome)
  {
  }

  lemma {:induction false} RunSettles(stored: Option<Token>, steps: seq<Step>, f: Flight, outcome: SessionState)
    ensures IsSettled(Run(Start(stored), steps), f, outcome) <==> SettledInRun(stored, steps, f, outcome)
    decreases |steps|
  {
    if steps == [] {
      NothingSettledAtStart(stored, f, outcome);
    } else {
      var front := steps[..|steps| - 1];
      RunSettles(stored, front, f, outcome);
      RunFromStart(stored, front);
      StepSettles(Run(Start(stored), front), steps[|steps| - 1], f, outcome);
      if SettledInRun(stored, front, f, outcome) {
        SettledBefore(stored, steps, f, outcome);
      }
      if SettledInRun(stored, steps, f, outcome) {
        SettledBeforeOrLast(stored, steps, f, outcome);
      }
      assert SettlesAt(stored, steps, |steps| - 1, f, outcome) ==> SettledInRun(stored, steps, f, outcome);
    }
  }

  /**
   In every run a completed flight has the one outcome that its read, its reply or
   its writes settled: signed in after both writes, signed out when there is no
   token or the server says it is invalid, failed as told otherwise.
   */
  lemma FlightEndsAsSettled(stored: Option<Token>, steps: seq<Step>, f: Flight, outcome: SessionState)
    requires var c := Run(Start(stored), steps);
             f in c.results && c.results[f].Some?
    ensures Run(Start(stored), steps).results[f] == Some(outcome) <==> SettledInRun(stored, steps, f, outcome)
  {
    var c := Run(Start(stored), steps);
    RunFromStart(stored, steps);
    RunSettles(stored, steps, f, outcome);
    if IsSettled(c, f, outcome) {
      SettledOnce(c, f, outcome, c.results[f].value);
    }
  }

  /** Once a flight has a result, no later step changes it. */
  lemma ResultIsFinal(c: Client, step: Step, f: Flight)
    requires FlightInv(c) && f in c.results && c.results[f].Some?
    ensures f in After(c, step).results && After(c, step).results[f] == c.results[f]
  {
    if step.Complete? && PointOf(c, step.p).Completing? {
      assert Leads(c.callers[step.p]).Some?;
    } else if !TouchesFlights(step) {
      OtherStepsAreQuiet(c, step);
    }
  }

  /** A point inside `refresh` or `restore`. */
  predicate IsRefreshing(point: Point) {
    point.Waiting? || Leads(point).Some?
  }

  /** When no refresh is active the in-flight slot is empty. */
  lemma IdleSlotIsEmpty(stored: Option<Token>, steps: seq<Step>)
    ensures var c := Run(Start(stored), steps);
            (forall p :: p in c.callers ==> !IsRefreshing(c.callers[p])) ==> c.inFlight.None?
  {
    RunFromStart(stored, steps);
  }

  /** How many of its own steps the leader is from releasing the flight, at most. */
  function Distance(point: Point): nat {
    match point
    case ReadingStored(_) => 8
    case Sending(_, _) => 7
    case AwaitingReply(_, _) => 6
    case WritingRefresh(_, _) => 5
    case WritingAccess(_, _) => 4
    case ClearingAccess(_, _) => 3
    case ClearingRefresh(_, _) => 2
    case Completing(_, _) => 1
    case _ => 0
  }

  lemma TokenStepsAdvance(c: Client, step: Step)
    requires Leads(PointOf(c, step.p)).Some? && !TouchesFlights(step) && After(c, step) != c
    ensures Distance(PointOf(After(c, step), step.p)) < Distance(PointOf(c, step.p))
  {
  }

  /** Whatever the store and the server answer, each step of the leader brings the release closer. */
  lemma LeaderAdvances(c: Client, step: Step)
    requires FlightInv(c) && c.leader == Some(step.p) && After(c, step) != c
    ensures var c' := After(c, step);
            c'.inFlight.None? || (c'.inFlight == c.inFlight && c'.leader == c.leader
                                  && Distance(PointOf(c', step.p)) < Distance(PointOf(c, step.p)))
  {
    if !TouchesFlights(step) {
      OtherStepsAreQuiet(c, step);
      TokenStepsAdvance(c, step);
    }
  }

  /** Nobody else moves the leader, so an open flight can always be finished by its leader alone. */
  lemma LeaderIsNeverBlocked(c: Client) returns (step: Step)
    requires FlightInv(c) && c.inFlight.Some?
    ensures c.leader == Some(step.p) && After(c, step) != c
  {
    var p := c.leader.value;
    var point := PointOf(c, p);
    step := match point
      case ReadingStored(_) => Read(p, Done)
      case Sending(_, _) => Send(p)
      case AwaitingReply(_, _) => Receive(p, Refused(SessionInvalid))
      case WritingRefresh(_, _) => Write(p, Done)
      case WritingAccess(_, _) => Write(p, Done)
      case ClearingAccess(_, _) => Remove(p, true)
      case ClearingRefresh(_, _) => Remove(p, true)
      case Completing(_, _) => Complete(p)
      case _ => Release(p);
    assert PointOf(After(c, step), p) != point;
  }

  /** A caller that joined a flight with a result can return, with that result. */
  lemma JoinedCallerReturns(c: Client, p: Pid)
    requires FlightInv(c) && PointOf(c, p).Waiting?
    ensures var f := PointOf(c, p).flight;
            && f in c.results
            && (c.inFlight != Some(f) ==>
                  c.results[f].Some? && PointOf(After(c, Resume(p)), p) == Returned(Some(f), c.results[f].value))
  {
  }
}
