/**
 Logins, rotation of refresh tokens and password resets on the server. A login
 checks the password in one step and stores its session in a later one; a
 refresh consumes its token, then stores the successor; a reset consumes its
 token, changes the password, and revokes the sessions last. Calls interleave.
 A token is presented as a signed text, so only issued tokens of the right kind
 get in.
 */
module TokenRotation {
  import opened Wrappers
  import opened SessionRepositories

  /** A refresh token belongs to the family that its login began. */
  datatype Kind = Refresh(family: nat) | Reset

  /** What the server signed, in which order, and which password of the user the login had checked. */
  datatype Issued = Issued(user: nat, kind: Kind, parent: Option<nat>, checked: nat, serial: nat)

  /** A call between two of its steps; passwords are numbered in the order they are set. */
  datatype Call =
    | LoggingIn(user: nat, checked: nat)
    | Refreshing(parent: nat)
    | Resetting(user: nat)
    | Revoking(user: nat, password: nat)

  datatype Server = Server(
    sessions: Sessions,
    issued: map<nat, Issued>,
    calls: map<nat, Call>,
    passwords: map<nat, nat>,
    spent: set<nat>,
    removed: set<nat>,
    count: nat,
    now: int)

  const START := Server(map[], map[], map[], map[], {}, {}, 0, 0)

  datatype Step =
    | BeginLogin(call: nat, user: nat)
    | Login(call: nat, token: nat, expiresAt: int)
    | RequestReset(user: nat, token: nat, expiresAt: int)
    | BeginRefresh(call: nat, token: nat, keepsExpired: bool)
    | Issue(call: nat, successor: nat, expiresAt: int, isActive: bool)
    | BeginReset(call: nat, token: nat, keepsExpired: bool)
    | ChangePassword(call: nat, isKnown: bool)
    | EndReset(call: nat)
    | Revoke(token: nat)
    | RemoveAccount(user: nat)
    | Die(call: nat)
    | Tick(later: int)

  predicate IsRefresh(s: Server, token: nat) {
    token in s.issued && s.issued[token].kind.Refresh?
  }

  function FamilyOf(s: Server, token: nat): nat
    requires IsRefresh(s, token)
  {
    s.issued[token].kind.family
  }

  function PasswordOf(s: Server, user: nat): nat {
    if user in s.passwords then s.passwords[user] else 0
  }

  /** A session can only be stored for a user whose account is still there. */
  predicate IsEnabled(s: Server, e: Step) {
    match e
    case BeginLogin(call, user) => call !in s.calls && user !in s.removed
    case Login(call, token, _) =>
      call in s.calls && s.calls[call].LoggingIn? && token !in s.issued && s.calls[call].user !in s.removed
    case RequestReset(user, token, _) => token !in s.issued && user !in s.removed
    case BeginRefresh(call, token, _) => call !in s.calls && IsRefresh(s, token)
    case Issue(call, successor, _, isActive) =>
      && call in s.calls && s.calls[call].Refreshing? && successor !in s.issued
      && IsRefresh(s, s.calls[call].parent)
      && (isActive ==> s.issued[s.calls[call].parent].user !in s.removed)
    case BeginReset(call, token, _) => call !in s.calls && token in s.issued && s.issued[token].kind.Reset?
    case ChangePassword(call, isKnown) =>
      call in s.calls && s.calls[call].Resetting? && (isKnown ==> s.calls[call].user !in s.removed)
    case EndReset(call) => call in s.calls && s.calls[call].Revoking?
    case Revoke(_) => true
    case RemoveAccount(_) => true
    case Die(call) => call in s.calls
    case Tick(later) => s.now <= later
  }

  function WithToken(s: Server, token: nat, issued: Issued, expiresAt: int): Server {
    s.(sessions := s.sessions[token := Session(issued.user, expiresAt)],
       issued := s.issued[token := issued],
       count := s.count + 1)
  }

  /** The call goes on only if the consumed session belongs to the token's subject. */
  function AfterBegin(s: Server, call: nat, token: nat, keepsExpired: bool, next: Call): Server
    requires token in s.issued
  {
    var after := s.(sessions := AfterConsume(s.sessions, token, s.now, keepsExpired));
    if ConsumedUser(s.sessions, token, s.now) == Some(s.issued[token].user)
    then after.(calls := s.calls[call := next], spent := s.spent + {token})
    else after
  }

  function Next(s: Server, e: Step): Server
    requires IsEnabled(s, e)
  {
    match e
    case BeginLogin(call, user) => s.(calls := s.calls[call := LoggingIn(user, PasswordOf(s, user))])
    case Login(call, token, expiresAt) =>
      var login := s.calls[call];
      WithToken(s.(calls := s.calls - {call}), token,
                Issued(login.user, Refresh(token), None, login.checked, s.count), expiresAt)
    case RequestReset(user, token, expiresAt) =>
      WithToken(s, token, Issued(user, Reset, None, PasswordOf(s, user), s.count), expiresAt)
    case BeginRefresh(call, token, keepsExpired) => AfterBegin(s, call, token, keepsExpired, Refreshing(token))
    case Issue(call, successor, expiresAt, isActive) =>
      var parent := s.calls[call].parent;
      var done := s.(calls := s.calls - {call});
      if !isActive then done
      else WithToken(done, successor, s.issued[parent].(parent := Some(parent), serial := s.count), expiresAt)
    case BeginReset(call, token, keepsExpired) =>
      AfterBegin(s, call, token, keepsExpired, Resetting(s.issued[token].user))
    case ChangePassword(call, isKnown) =>
      var user := s.calls[call].user;
      var password := PasswordOf(s, user) + 1;
      if isKnown
      then s.(calls := s.calls[call := Revoking(user, password)], passwords := s.passwords[user := password])
      else s.(calls := s.calls - {call})
    case EndReset(call) =>
      s.(calls := s.calls - {call}, sessions := WithoutUser(s.sessions, s.calls[call].user))
    case Revoke(token) => s.(sessions := s.sessions - {token})
    case RemoveAccount(user) => s.(sessions := WithoutUser(s.sessions, user), removed := s.removed + {user})
    case Die(call) => s.(calls := s.calls - {call})
    case Tick(later) => s.(now := later)
  }

  // --------------------------------------------------------------- the invariant

  predicate IsChild(s: Server, child: nat, parent: nat) {
    child in s.issued && s.issued[child].parent == Some(parent)
  }

  predicate SessionsAreIssued(s: Server) {
    forall token :: token in s.sessions ==> token in s.issued && s.sessions[token].user == s.issued[token].user
  }

  predicate SpentIsGone(s: Server) {
    forall token :: token in s.spent ==> token in s.issued && token !in s.sessions
  }

  /** A token descends from a spent token of its family, or begins the family itself. */
  predicate Descends(s: Server, token: nat)
    requires token in s.issued
  {
    var t := s.issued[token];
    && t.serial < s.count
    && (t.kind.Refresh? ==> t.kind.family in s.issued && (t.parent.None? ==> t.kind.family == token))
    && (t.parent.Some? ==>
          var p := t.parent.value;
          && t.kind.Refresh? && p in s.issued && p in s.spent
          && s.issued[p].kind == t.kind && s.issued[p].user == t.user && s.issued[p].serial < t.serial
          && s.issued[p].checked == t.checked)
  }

  predicate FamiliesDescend(s: Server) {
    forall token :: token in s.issued ==> Descends(s, token)
  }

  ghost predicate ChildIsUnique(s: Server) {
    forall a, b, parent :: IsChild(s, a, parent) && IsChild(s, b, parent) ==> a == b
  }

  ghost predicate HasNoChild(s: Server, token: nat) {
    forall child :: !IsChild(s, child, token)
  }

  /** A call waits on a spent refresh token that has no successor yet. */
  ghost predicate CallsWaitOnSpent(s: Server) {
    forall call :: call in s.calls && s.calls[call].Refreshing? ==>
      && IsRefresh(s, s.calls[call].parent)
      && s.calls[call].parent in s.spent
      && HasNoChild(s, s.calls[call].parent)
  }

  /** A reset that is about to revoke has set its password already. */
  predicate RevokingFollowsChange(s: Server) {
    forall call :: call in s.calls && s.calls[call].Revoking? ==>
                     s.calls[call].password <= PasswordOf(s, s.calls[call].user)
  }

  /** What can still produce the next token of a family: the stored one, or the call that consumed it. */
  datatype Holder = Stored(token: nat) | Waiting(call: nat)

  predicate IsHolder(s: Server, h: Holder, family: nat) {
    match h
    case Stored(token) => token in s.sessions && IsRefresh(s, token) && FamilyOf(s, token) == family
    case Waiting(call) =>
      && call in s.calls && s.calls[call].Refreshing?
      && IsRefresh(s, s.calls[call].parent) && FamilyOf(s, s.calls[call].parent) == family
  }

  ghost predicate OneHolder(s: Server) {
    forall h, k, family :: IsHolder(s, h, family) && IsHolder(s, k, family) ==> h == k
  }

  ghost predicate Inv(s: Server) {
    && SessionsAreIssued(s)
    && SpentIsGone(s)
    && FamiliesDescend(s)
    && ChildIsUnique(s)
    && CallsWaitOnSpent(s)
    && RevokingFollowsChange(s)
    && OneHolder(s)
  }

  lemma StartIsGood()
    ensures Inv(START)
  {
  }

  /** A token without a parent, new to the server. */
  lemma LoginKeepsInv(s: Server, token: nat, issued: Issued, expiresAt: int)
    requires Inv(s) && token !in s.issued && issued.parent.None? && issued.serial == s.count
    requires issued.kind.Refresh? ==> issued.kind.family == token
    ensures Inv(WithToken(s, token, issued, expiresAt))
  {
    var after := WithToken(s, token, issued, expiresAt);
    IssuingKeepsDescent(s, token, issued, expiresAt);
    forall child, parent ensures IsChild(after, child, parent) == IsChild(s, child, parent) {}
    forall call | call in after.calls && after.calls[call].Refreshing?
      ensures HasNoChild(after, after.calls[call].parent)
    {
      assert HasNoChild(s, s.calls[call].parent);
    }
    forall h, family | IsHolder(after, h, family) ensures if h == Stored(token) then family == token
                                                          else IsHolder(s, h, family) && family != token
    {
      if h != Stored(token) {
        var t := if h.Stored? then h.token else s.calls[h.call].parent;
        assert Descends(s, t);
      }
    }
  }

  lemma IssuingKeepsDescent(s: Server, token: nat, issued: Issued, expiresAt: int)
    requires FamiliesDescend(s) && SessionsAreIssued(s) && SpentIsGone(s) && token !in s.issued
    requires issued.serial == s.count
    requires Descends(s.(issued := s.issued[token := issued], count := s.count + 1), token)
    ensures var after := WithToken(s, token, issued, expiresAt);
            FamiliesDescend(after) && SessionsAreIssued(after) && SpentIsGone(after)
  {
    var after := WithToken(s, token, issued, expiresAt);
    forall t | t in after.issued ensures Descends(after, t) {
      if t != token {
        assert Descends(s, t);
      }
    }
  }

  lemma BeginKeepsInv(s: Server, call: nat, token: nat, keepsExpired: bool, next: Call)
    requires Inv(s) && call !in s.calls && token in s.issued
    requires next.Refreshing? ==> next.parent == token && IsRefresh(s, token)
    requires !next.Revoking?
    ensures Inv(AfterBegin(s, call, token, keepsExpired, next))
  {
    var after := AfterBegin(s, call, token, keepsExpired, next);
    LiveHasNoChild(s, token);
    forall t | t in after.issued ensures Descends(after, t) {
      assert Descends(s, t);
    }
    forall child, parent ensures IsChild(after, child, parent) == IsChild(s, child, parent) {}
    forall c | c in after.calls && after.calls[c].Refreshing? ensures HasNoChild(after, after.calls[c].parent) {
      if c in s.calls {
        assert HasNoChild(s, s.calls[c].parent);
      } else {
        assert HasNoChild(s, token);
      }
    }
    BeginKeepsHolder(s, call, token, keepsExpired, next);
  }

  /** The call takes the place of the token it consumes. */
  lemma BeginKeepsHolder(s: Server, call: nat, token: nat, keepsExpired: bool, next: Call)
    requires OneHolder(s) && call !in s.calls && token in s.issued
    requires next.Refreshing? ==> next.parent == token && IsRefresh(s, token)
    ensures OneHolder(AfterBegin(s, call, token, keepsExpired, next))
  {
    var after := AfterBegin(s, call, token, keepsExpired, next);
    forall h, family | IsHolder(after, h, family)
      ensures if h == Waiting(call) then IsHolder(s, Stored(token), family) && token !in after.sessions
              else IsHolder(s, h, family)
    {
    }
  }

  /** A stored token has not been refreshed: its successor would have needed it spent. */
  lemma LiveHasNoChild(s: Server, token: nat)
    requires FamiliesDescend(s) && SpentIsGone(s)
    ensures token in s.sessions ==> HasNoChild(s, token)
  {
  }

  lemma IssueKeepsInv(s: Server, call: nat, successor: nat, expiresAt: int)
    requires Inv(s) && IsEnabled(s, Issue(call, successor, expiresAt, true))
    ensures Inv(Next(s, Issue(call, successor, expiresAt, true)))
  {
    var parent := s.calls[call].parent;
    var done := s.(calls := s.calls - {call});
    LosingKeepsInv(s, done);
    var issued := s.issued[parent].(parent := Some(parent), serial := s.count);
    var after := WithToken(done, successor, issued, expiresAt);
    assert Descends(s, parent);
    IssuingKeepsDescent(done, successor, issued, expiresAt);
    assert Next(s, Issue(call, successor, expiresAt, true)) == after;
    IssueKeepsChildren(s, call, successor, expiresAt);
    IssueKeepsHolder(s, call, successor, expiresAt);
  }

  /** The parent had no child, and no other call waits on it. */
  lemma IssueKeepsChildren(s: Server, call: nat, successor: nat, expiresAt: int)
    requires ChildIsUnique(s) && CallsWaitOnSpent(s) && OneHolder(s)
    requires IsEnabled(s, Issue(call, successor, expiresAt, true))
    ensures var after := Next(s, Issue(call, successor, expiresAt, true));
            ChildIsUnique(after) && CallsWaitOnSpent(after)
  {
    var parent, after := s.calls[call].parent, Next(s, Issue(call, successor, expiresAt, true));
    forall child, p ensures IsChild(after, child, p) <==> IsChild(s, child, p) || (child == successor && p == parent) {}
    assert HasNoChild(s, parent);
    forall c | c in after.calls && after.calls[c].Refreshing? ensures HasNoChild(after, after.calls[c].parent) {
      assert HasNoChild(s, s.calls[c].parent);
      CallsWaitApart(s, call, c);
    }
  }

  lemma CallsWaitApart(s: Server, call: nat, other: nat)
    requires OneHolder(s) && CallsWaitOnSpent(s)
    requires call in s.calls && other in s.calls && s.calls[call].Refreshing? && s.calls[other].Refreshing?
    ensures s.calls[call].parent == s.calls[other].parent ==> call == other
  {
    var family := FamilyOf(s, s.calls[call].parent);
    assert IsHolder(s, Waiting(call), family);
    assert s.calls[other].parent == s.calls[call].parent ==> IsHolder(s, Waiting(other), family);
  }

  /** The successor takes the place of the call. */
  lemma IssueKeepsHolder(s: Server, call: nat, successor: nat, expiresAt: int)
    requires OneHolder(s) && SessionsAreIssued(s) && SpentIsGone(s) && CallsWaitOnSpent(s)
    requires IsEnabled(s, Issue(call, successor, expiresAt, true))
    ensures OneHolder(Next(s, Issue(call, successor, expiresAt, true)))
  {
    var after := Next(s, Issue(call, successor, expiresAt, true));
    forall h, family | IsHolder(after, h, family)
      ensures IsHolder(s, if h == Stored(successor) then Waiting(call) else h, family) && h != Waiting(call)
    {
    }
  }

  /** Steps that take sessions away, or change calls other than the refreshing ones. */
  lemma LosingKeepsInv(s: Server, after: Server)
    requires Inv(s) && after.issued == s.issued && after.spent == s.spent && after.count == s.count
    requires forall token :: token in after.sessions ==>
               token in s.sessions && after.sessions[token] == s.sessions[token]
    requires forall call :: call in after.calls && after.calls[call].Refreshing? ==>
               call in s.calls && after.calls[call] == s.calls[call]
    requires RevokingFollowsChange(after)
    ensures Inv(after)
  {
    forall t | t in after.issued ensures Descends(after, t) {
      assert Descends(s, t);
    }
    forall child, parent ensures IsChild(after, child, parent) == IsChild(s, child, parent) {}
    forall call | call in after.calls && after.calls[call].Refreshing?
      ensures HasNoChild(after, after.calls[call].parent)
    {
      assert HasNoChild(s, s.calls[call].parent);
    }
    forall h, family | IsHolder(after, h, family) ensures IsHolder(s, h, family) {}
  }

  lemma StepKeepsInv(s: Server, e: Step)
    requires Inv(s) && IsEnabled(s, e)
    ensures Inv(Next(s, e))
  {
    match e
    case Login(call, token, expiresAt) =>
      var login, done := s.calls[call], s.(calls := s.calls - {call});
      LosingKeepsInv(s, done);
      LoginKeepsInv(done, token, Issued(login.user, Refresh(token), None, login.checked, s.count), expiresAt);
    case RequestReset(user, token, expiresAt) =>
      LoginKeepsInv(s, token, Issued(user, Reset, None, PasswordOf(s, user), s.count), expiresAt);
    case BeginRefresh(call, token, keepsExpired) => BeginKeepsInv(s, call, token, keepsExpired, Refreshing(token));
    case BeginReset(call, token, keepsExpired) =>
      BeginKeepsInv(s, call, token, keepsExpired, Resetting(s.issued[token].user));
    case Issue(call, successor, expiresAt, isActive) =>
      if isActive {
        IssueKeepsInv(s, call, successor, expiresAt);
      } else {
        LosingKeepsInv(s, Next(s, e));
      }
    case _ => LosingKeepsInv(s, Next(s, e));
  }

  // ----------------------------------------------------------------------- runs

  ghost predicate Leads(s: Server, e: Step, after: Server) {
    IsEnabled(s, e) && after == Next(s, e)
  }

  ghost predicate LeadsAt(servers: seq<Server>, steps: seq<Step>, i: nat)
    requires |servers| == |steps| + 1 && i < |steps|
  {
    Leads(servers[i], steps[i], servers[i + 1])
  }

  /** `servers[i + 1]` comes from `servers[i]` by `steps[i]`. */
  ghost predicate IsPath(servers: seq<Server>, steps: seq<Step>) {
    |servers| == |steps| + 1 && forall i: nat :: i < |steps| ==> LeadsAt(servers, steps, i)
  }

  ghost predicate IsRun(servers: seq<Server>, steps: seq<Step>) {
    IsPath(servers, steps) && servers[0] == START
  }

  lemma {:induction false} RunKeepsInv(servers: seq<Server>, steps: seq<Step>, i: nat)
    requires IsRun(servers, steps) && i < |servers|
    ensures Inv(servers[i])
  {
    if i == 0 {
      StartIsGood();
    } else {
      RunKeepsInv(servers, steps, i - 1);
      assert LeadsAt(servers, steps, i - 1);
      StepKeepsInv(servers[i - 1], steps[i - 1]);
    }
  }

  /** At every moment of every run a login's family has at most one stored token or call about to store the next. */
  lemma FamilyHasOneHolder(servers: seq<Server>, steps: seq<Step>, i: nat, h: Holder, k: Holder, family: nat)
    requires IsRun(servers, steps) && i < |servers|
    requires IsHolder(servers[i], h, family) && IsHolder(servers[i], k, family)
    ensures h == k
  {
    RunKeepsInv(servers, steps, i);
  }

  /** The refresh call got past its consuming step. */
  predicate Consumes(s: Server, e: Step, token: nat) {
    && e.BeginRefresh? && e.token == token
    && token in s.issued && ConsumedUser(s.sessions, token, s.now) == Some(s.issued[token].user)
  }

  lemma {:induction false} SpentStaysSpent(servers: seq<Server>, steps: seq<Step>, i: nat, j: nat)
    requires IsRun(servers, steps) && i <= j < |servers|
    ensures servers[i].spent <= servers[j].spent
  {
    if i < j {
      SpentStaysSpent(servers, steps, i, j - 1);
      assert LeadsAt(servers, steps, j - 1);
    }
  }

  lemma ConsumedTokenIsGone(servers: seq<Server>, steps: seq<Step>, i: nat, j: nat, token: nat)
    requires IsRun(servers, steps) && i < j < |servers| && i < |steps|
    requires Consumes(servers[i], steps[i], token)
    ensures token !in servers[j].sessions
  {
    assert LeadsAt(servers, steps, i);
    assert token in servers[i + 1].spent;
    SpentStaysSpent(servers, steps, i + 1, j);
    RunKeepsInv(servers, steps, j);
  }

  /** However calls interleave, a refresh token gets at most one call past its consuming step. */
  lemma TokenIsConsumedOnce(servers: seq<Server>, steps: seq<Step>, i: nat, j: nat, token: nat)
    requires IsRun(servers, steps) && i < |steps| && j < |steps|
    requires Consumes(servers[i], steps[i], token) && Consumes(servers[j], steps[j], token)
    ensures i == j
  {
    if i < j {
      ConsumedTokenIsGone(servers, steps, i, j, token);
    } else if j < i {
      ConsumedTokenIsGone(servers, steps, j, i, token);
    }
  }

  /** A token yields at most one successor, and while it is stored none. */
  lemma TokenHasOneSuccessor(servers: seq<Server>, steps: seq<Step>, i: nat, token: nat, a: nat, b: nat)
    requires IsRun(servers, steps) && i < |servers|
    requires IsChild(servers[i], a, token) && IsChild(servers[i], b, token)
    ensures a == b && token !in servers[i].sessions
    ensures IsRefresh(servers[i], a) && IsRefresh(servers[i], token)
            && FamilyOf(servers[i], a) == FamilyOf(servers[i], token)
    ensures servers[i].issued[a].user == servers[i].issued[token].user
  {
    RunKeepsInv(servers, steps, i);
    assert Descends(servers[i], a);
  }

  // --------------------------------------------------------- a family is one chain

  /** How many refreshes lie between the login and the token. */
  function Generation(s: Server, token: nat): nat
    requires FamiliesDescend(s) && token in s.issued
    decreases s.issued[token].serial
  {
    assert Descends(s, token);
    if s.issued[token].parent.None? then 0 else 1 + Generation(s, s.issued[token].parent.value)
  }

  /** Two tokens of a family that are equally far from the login are the same token. */
  lemma {:induction false} OneTokenPerGeneration(s: Server, a: nat, b: nat)
    requires Inv(s) && IsRefresh(s, a) && IsRefresh(s, b) && FamilyOf(s, a) == FamilyOf(s, b)
    requires Generation(s, a) == Generation(s, b)
    ensures a == b
    decreases s.issued[a].serial
  {
    assert Descends(s, a) && Descends(s, b);
    if s.issued[a].parent.Some? {
      var p, q := s.issued[a].parent.value, s.issued[b].parent.value;
      OneTokenPerGeneration(s, p, q);
      assert IsChild(s, a, p) && IsChild(s, b, p);
    }
  }

  /** The ancestor of a token that many generations from the login. */
  lemma {:induction false} AncestorAt(s: Server, token: nat, generation: nat) returns (ancestor: nat)
    requires Inv(s) && IsRefresh(s, token) && generation < Generation(s, token)
    ensures IsRefresh(s, ancestor) && FamilyOf(s, ancestor) == FamilyOf(s, token)
    ensures Generation(s, ancestor) == generation && exists child :: IsChild(s, child, ancestor)
    decreases s.issued[token].serial
  {
    assert Descends(s, token);
    var parent := s.issued[token].parent.value;
    assert IsChild(s, token, parent);
    if Generation(s, parent) == generation {
      ancestor := parent;
    } else {
      ancestor := AncestorAt(s, parent, generation);
    }
  }

  /** The stored token of a family is its newest: every other token of the family lies before it. */
  lemma StoredTokenIsNewest(servers: seq<Server>, steps: seq<Step>, i: nat, stored: nat, other: nat)
    requires IsRun(servers, steps) && i < |servers|
    requires stored in servers[i].sessions && IsRefresh(servers[i], stored) && IsRefresh(servers[i], other)
    requires FamilyOf(servers[i], stored) == FamilyOf(servers[i], other)
    ensures FamiliesDescend(servers[i])
    ensures other == stored || Generation(servers[i], other) < Generation(servers[i], stored)
  {
    var s := servers[i];
    RunKeepsInv(servers, steps, i);
    if Generation(s, other) == Generation(s, stored) {
      OneTokenPerGeneration(s, other, stored);
    } else if Generation(s, other) > Generation(s, stored) {
      var ancestor := AncestorAt(s, other, Generation(s, stored));
      OneTokenPerGeneration(s, ancestor, stored);
      LiveHasNoChild(s, stored);
      assert false;
    }
  }

  // -------------------------------------------------------------------- expiry

  /** The step stores the token, to expire at the given time. */
  predicate Stores(e: Step, token: nat, expiresAt: int) {
    match e
    case Login(_, t, at) => t == token && at == expiresAt
    case RequestReset(_, t, at) => t == token && at == expiresAt
    case Issue(_, t, at, isActive) => isActive && t == token && at == expiresAt
    case _ => false
  }

  ghost predicate StoredBefore(steps: seq<Step>, i: nat, token: nat, expiresAt: int)
    requires i <= |steps|
  {
    exists j: nat :: j < i && Stores(steps[j], token, expiresAt)
  }

  lemma SessionStems(s: Server, e: Step, token: nat)
    requires IsEnabled(s, e) && token in Next(s, e).sessions
    ensures var expiresAt := Next(s, e).sessions[token].expiresAt;
            Stores(e, token, expiresAt) || (token in s.sessions && s.sessions[token].expiresAt == expiresAt)
  {
  }

  lemma {:induction false} SessionsKeepTheirExpiry(servers: seq<Server>, steps: seq<Step>, i: nat, token: nat)
    requires IsRun(servers, steps) && i < |servers| && token in servers[i].sessions
    ensures StoredBefore(steps, i, token, servers[i].sessions[token].expiresAt)
  {
    if i > 0 {
      assert LeadsAt(servers, steps, i - 1);
      SessionStems(servers[i - 1], steps[i - 1], token);
      var expiresAt := servers[i].sessions[token].expiresAt;
      if Stores(steps[i - 1], token, expiresAt) {
        assert StoredBefore(steps, i, token, expiresAt);
      } else {
        SessionsKeepTheirExpiry(servers, steps, i - 1, token);
        var j: nat :| j < i - 1 && Stores(steps[j], token, expiresAt);
        assert StoredBefore(steps, i, token, expiresAt);
      }
    }
  }

  /** A step by which a refresh or a reset takes its token. */
  predicate Presents(e: Step, call: nat, token: nat) {
    (e.BeginRefresh? || e.BeginReset?) && e.call == call && e.token == token
  }

  /** A refresh or a reset gets past its token exactly while the token's own session is stored and has not expired. */
  lemma TokenIsAcceptedIff(s: Server, e: Step, call: nat, token: nat)
    requires IsEnabled(s, e) && Presents(e, call, token)
    ensures call in Next(s, e).calls <==>
              && token in s.sessions && s.sessions[token].expiresAt > s.now
              && s.sessions[token].user == s.issued[token].user
  {
  }

  /** In every run an accepted token was stored by an earlier step, with an expiry that has not come. */
  lemma AcceptedBeforeExpiry(servers: seq<Server>, steps: seq<Step>, i: nat, call: nat, token: nat)
    requires IsRun(servers, steps) && i < |steps| && Presents(steps[i], call, token)
    requires call in servers[i + 1].calls
    ensures exists expiresAt :: expiresAt > servers[i].now && StoredBefore(steps, i, token, expiresAt)
  {
    assert LeadsAt(servers, steps, i);
    TokenIsAcceptedIff(servers[i], steps[i], call, token);
    SessionsKeepTheirExpiry(servers, steps, i, token);
  }

  /** A token that is no longer stored is never stored again. */
  lemma {:induction false} GoneStaysGone(servers: seq<Server>, steps: seq<Step>, i: nat, j: nat, token: nat)
    requires IsRun(servers, steps) && i <= j < |servers|
    requires token in servers[i].issued && token !in servers[i].sessions
    ensures token in servers[j].issued && token !in servers[j].sessions
  {
    if i < j {
      GoneStaysGone(servers, steps, i, j - 1, token);
      assert LeadsAt(servers, steps, j - 1);
      StepKeepsGone(servers[j - 1], steps[j - 1], token);
    }
  }

  lemma StepKeepsGone(s: Server, e: Step, token: nat)
    requires IsEnabled(s, e) && token in s.issued && token !in s.sessions
    ensures token in Next(s, e).issued && token !in Next(s, e).sessions
  {
  }

  /** After a logout, a use, or the removal of its account a token is never accepted again. */
  lemma EndedTokenIsRefused(servers: seq<Server>, steps: seq<Step>, i: nat, j: nat, call: nat, token: nat)
    requires IsRun(servers, steps) && i < j < |steps| && Presents(steps[j], call, token)
    requires token in servers[i].issued
    requires || steps[i] == Step.Revoke(token)
             || steps[i] == RemoveAccount(servers[i].issued[token].user)
             || (exists c :: Presents(steps[i], c, token) && c in servers[i + 1].calls)
    ensures call !in servers[j + 1].calls
  {
    RunKeepsInv(servers, steps, i);
    assert LeadsAt(servers, steps, i) && LeadsAt(servers, steps, j);
    EndingStepTakesSession(servers[i], steps[i], token);
    GoneStaysGone(servers, steps, i + 1, j, token);
    TokenIsAcceptedIff(servers[j], steps[j], call, token);
  }

  lemma EndingStepTakesSession(s: Server, e: Step, token: nat)
    requires Inv(s) && IsEnabled(s, e) && token in s.issued
    requires || e == Step.Revoke(token)
             || e == RemoveAccount(s.issued[token].user)
             || (exists c :: Presents(e, c, token) && c in Next(s, e).calls)
    ensures token in Next(s, e).issued && token !in Next(s, e).sessions
  {
  }

  // ------------------------------------------------------------- after a reset

  /** The token or call stems from a login of the user that checked a password before the given one. */
  predicate IsOutdated(s: Server, user: nat, password: nat, h: Holder) {
    match h
    case Stored(token) =>
      token in s.sessions && IsRefresh(s, token) && s.issued[token].user == user && s.issued[token].checked < password
    case Waiting(call) => call in s.calls && IsOutdatedCall(s, user, password, s.calls[call])
  }

  predicate IsOutdatedCall(s: Server, user: nat, password: nat, call: Call) {
    match call
    case LoggingIn(u, checked) => u == user && checked < password
    case Refreshing(parent) =>
      IsRefresh(s, parent) && s.issued[parent].user == user && s.issued[parent].checked < password
    case _ => false
  }

  ghost predicate NothingIsOutdated(s: Server, user: nat, password: nat) {
    forall h :: !IsOutdated(s, user, password, h)
  }

  lemma PasswordsGrow(s: Server, e: Step, user: nat)
    requires IsEnabled(s, e)
    ensures PasswordOf(s, user) <= PasswordOf(Next(s, e), user)
  {
  }

  /** A stored token that is outdated after a step was so before it, or comes from a call that was. */
  lemma OutdatedTokenStems(s: Server, e: Step, user: nat, password: nat, token: nat)
    requires Inv(s) && IsEnabled(s, e) && IsOutdated(Next(s, e), user, password, Stored(token))
    ensures IsOutdated(s, user, password,
                       if (e.Login? && e.token == token) || (e.Issue? && e.successor == token) then Waiting(e.call)
                       else Stored(token))
  {
  }

  /** A login that begins checks the current password. */
  lemma OutdatedCallStems(s: Server, e: Step, user: nat, password: nat, call: nat)
    requires Inv(s) && IsEnabled(s, e) && password <= PasswordOf(s, user)
    requires IsOutdated(Next(s, e), user, password, Waiting(call))
    ensures IsOutdated(s, user, password,
                       if e.BeginRefresh? && e.call == call then Stored(e.token) else Waiting(call))
  {
  }

  lemma StepKeepsUpToDate(s: Server, e: Step, user: nat, password: nat)
    requires Inv(s) && IsEnabled(s, e) && NothingIsOutdated(s, user, password) && password <= PasswordOf(s, user)
    ensures NothingIsOutdated(Next(s, e), user, password)
  {
    forall h ensures !IsOutdated(Next(s, e), user, password, h) {
      if IsOutdated(Next(s, e), user, password, h) {
        match h {
          case Stored(token) => OutdatedTokenStems(s, e, user, password, token);
          case Waiting(call) => OutdatedCallStems(s, e, user, password, call);
        }
        assert false;
      }
    }
  }

  lemma {:induction false} PathKeepsUpToDate(servers: seq<Server>, steps: seq<Step>, user: nat, password: nat, i: nat)
    requires IsPath(servers, steps) && i < |servers| && Inv(servers[0])
    requires NothingIsOutdated(servers[0], user, password) && password <= PasswordOf(servers[0], user)
    ensures Inv(servers[i]) && NothingIsOutdated(servers[i], user, password)
    ensures password <= PasswordOf(servers[i], user)
  {
    if i > 0 {
      PathKeepsUpToDate(servers, steps, user, password, i - 1);
      assert LeadsAt(servers, steps, i - 1);
      StepKeepsInv(servers[i - 1], steps[i - 1]);
      StepKeepsUpToDate(servers[i - 1], steps[i - 1], user, password);
      PasswordsGrow(servers[i - 1], steps[i - 1], user);
    }
  }

  predicate IsSignedOut(s: Server, user: nat) {
    forall token :: token in s.sessions ==> s.sessions[token].user != user
  }

  lemma {:induction false} RemovedStaysOut(servers: seq<Server>, steps: seq<Step>, user: nat, i: nat)
    requires IsPath(servers, steps) && i < |servers| && Inv(servers[0])
    requires user in servers[0].removed && IsSignedOut(servers[0], user)
    ensures Inv(servers[i]) && user in servers[i].removed && IsSignedOut(servers[i], user)
  {
    if i > 0 {
      RemovedStaysOut(servers, steps, user, i - 1);
      assert LeadsAt(servers, steps, i - 1);
      StepKeepsInv(servers[i - 1], steps[i - 1]);
      StepKeepsRemovedOut(servers[i - 1], steps[i - 1], user);
    }
  }

  lemma StepKeepsRemovedOut(s: Server, e: Step, user: nat)
    requires Inv(s) && IsEnabled(s, e) && user in s.removed && IsSignedOut(s, user)
    ensures user in Next(s, e).removed && IsSignedOut(Next(s, e), user)
  {
  }

  /** Some continuation stores a refresh token of the user whose login checked an earlier password. */
  ghost predicate OutdatedLoginReturns(s: Server, user: nat, password: nat) {
    exists servers, steps, token :: LeadsToOutdated(s, servers, steps, user, password, token)
  }

  ghost predicate LeadsToOutdated(s: Server, servers: seq<Server>, steps: seq<Step>,
                                  user: nat, password: nat, token: nat) {
    IsPath(servers, steps) && servers[0] == s && IsOutdated(servers[|steps|], user, password, Stored(token))
  }

  lemma {:induction false} Unused(ids: set<nat>) returns (id: nat)
    ensures forall other :: other in ids ==> other < id
  {
    if ids == {} {
      id := 0;
    } else {
      var some :| some in ids;
      var bound := Unused(ids - {some});
      id := if some < bound then bound else some + 1;
      assert forall other :: other in ids ==> other == some || other in ids - {some};
    }
  }

  /**
   When a reset has revoked the sessions of its user, none is left. A login that
   checked an earlier password can store one again exactly when the account is still
   there and such a login, or a refresh of a token of such a login, was between two
   of its steps.
   */
  lemma ResetEndsLoginsIff(s: Server, call: nat)
    requires Inv(s) && IsEnabled(s, EndReset(call))
    ensures var user, password, after := s.calls[call].user, s.calls[call].password, Next(s, EndReset(call));
            && IsSignedOut(after, user)
            && (OutdatedLoginReturns(after, user, password)
                <==> user !in s.removed && exists c: nat :: IsOutdated(s, user, password, Waiting(c)))
  {
    var user, password, after := s.calls[call].user, s.calls[call].password, Next(s, EndReset(call));
    StepKeepsInv(s, EndReset(call));
    if user in s.removed {
      RemovedDoesNotReturn(after, user, password);
    } else if c: nat :| IsOutdated(s, user, password, Waiting(c)) {
      PendingCallReturns(after, user, password, c);
    } else {
      forall h ensures !IsOutdated(after, user, password, h) {
        assert h.Waiting? ==> !IsOutdated(s, user, password, h);
      }
      UpToDateDoesNotReturn(after, user, password);
    }
  }

  lemma RemovedDoesNotReturn(s: Server, user: nat, password: nat)
    requires Inv(s) && user in s.removed && IsSignedOut(s, user)
    ensures !OutdatedLoginReturns(s, user, password)
  {
    forall servers, steps, token ensures !LeadsToOutdated(s, servers, steps, user, password, token) {
      if IsPath(servers, steps) && servers[0] == s {
        RemovedStaysOut(servers, steps, user, |steps|);
      }
    }
  }

  lemma UpToDateDoesNotReturn(s: Server, user: nat, password: nat)
    requires Inv(s) && NothingIsOutdated(s, user, password) && password <= PasswordOf(s, user)
    ensures !OutdatedLoginReturns(s, user, password)
  {
    forall servers, steps, token ensures !LeadsToOutdated(s, servers, steps, user, password, token) {
      if IsPath(servers, steps) && servers[0] == s {
        PathKeepsUpToDate(servers, steps, user, password, |steps|);
      }
    }
  }

  lemma PendingCallReturns(s: Server, user: nat, password: nat, call: nat)
    requires Inv(s) && user !in s.removed && IsOutdated(s, user, password, Waiting(call))
    ensures OutdatedLoginReturns(s, user, password)
  {
    var unused := Unused(s.issued.Keys);
    assert unused !in s.issued.Keys;
    var step := if s.calls[call].LoggingIn? then Login(call, unused, s.now + 1)
                else Issue(call, unused, s.now + 1, true);
    var servers := [s, Next(s, step)];
    assert LeadsAt(servers, [step], 0);
    assert LeadsToOutdated(s, servers, [step], user, password, unused);
  }

  // ------------------------------------------------------- both cases happen

  /** What a run looks like whose last step stores an outdated token after a reset, its last but one. */
  ghost predicate SurvivesReset(servers: seq<Server>, steps: seq<Step>, user: nat, token: nat) {
    && IsRun(servers, steps) && |steps| >= 2
    && steps[|steps| - 2].EndReset?
    && IsOutdated(servers[|steps|], user, PasswordOf(servers[|steps|], user), Stored(token))
  }

  function ResetSteps(call: nat, token: nat): seq<Step> {
    [BeginReset(call, token, true), ChangePassword(call, true), EndReset(call)]
  }

  /** A reset token of the user that still works. */
  predicate CanReset(s: Server, user: nat, call: nat, token: nat) {
    && IsEnabled(s, BeginReset(call, token, true)) && IsLive(s.sessions, token, s.now)
    && s.sessions[token].user == s.issued[token].user == user && user !in s.removed
  }

  function AfterReset(s: Server, user: nat, token: nat): Server {
    s.(sessions := WithoutUser(s.sessions, user), spent := s.spent + {token},
       passwords := s.passwords[user := PasswordOf(s, user) + 1])
  }

  /** The steps of a reset, one after the other. */
  lemma ResetRuns(s: Server, user: nat, call: nat, token: nat) returns (servers: seq<Server>)
    requires CanReset(s, user, call, token)
    ensures IsPath(servers, ResetSteps(call, token)) && servers[0] == s && servers[3] == AfterReset(s, user, token)
  {
    var steps := ResetSteps(call, token);
    var s1 := Next(s, steps[0]);
    var s2 := Next(s1, steps[1]);
    var s3 := Next(s2, steps[2]);
    servers := [s, s1, s2, s3];
    assert WithoutUser(s.sessions - {token}, user) == WithoutUser(s.sessions, user);
    assert s3.calls == s.calls;
    assert forall i: nat :: i < |steps| ==> LeadsAt(servers, steps, i);
  }

  lemma PathsJoin(servers: seq<Server>, steps: seq<Step>, later: seq<Server>, more: seq<Step>)
    requires IsPath(servers, steps) && IsPath(later, more) && later[0] == servers[|steps|]
    ensures IsPath(servers + later[1..], steps + more)
  {
    var all, path := servers + later[1..], steps + more;
    forall i: nat | i < |path| ensures LeadsAt(all, path, i) {
      if i < |steps| {
        assert LeadsAt(servers, steps, i);
      } else {
        assert LeadsAt(later, more, i - |steps|);
      }
    }
  }

  /** A reset overtakes the call that is about to store the token. */
  lemma ResetOvertakes(servers: seq<Server>, steps: seq<Step>, user: nat, call: nat, reset: nat, last: Step, token: nat)
      returns (all: seq<Server>, path: seq<Step>)
    requires IsRun(servers, steps) && CanReset(servers[|steps|], user, call, reset)
    requires var s := AfterReset(servers[|steps|], user, reset);
             IsEnabled(s, last)
             && IsOutdated(Next(s, last), user, PasswordOf(Next(s, last), user), Stored(token))
    ensures SurvivesReset(all, path, user, token) && path[|path| - 1] == last
  {
    var resetting := ResetRuns(servers[|steps|], user, call, reset);
    PathsJoin(servers, steps, resetting, ResetSteps(call, reset));
    var done, finished := servers + resetting[1..], steps + ResetSteps(call, reset);
    var end := done[|finished|];
    var storing := [end, Next(end, last)];
    assert LeadsAt(storing, [last], 0);
    PathsJoin(done, finished, storing, [last]);
    all, path := done + storing[1..], finished + [last];
  }

  /** A login that checks the password before a reset, and stores its session after it. */
  lemma LoginSurvivesReset() returns (servers: seq<Server>, steps: seq<Step>)
    ensures SurvivesReset(servers, steps, 7, 1) && steps[|steps| - 1] == Login(1, 1, 10)
  {
    steps := [BeginLogin(1, 7), RequestReset(7, 0, 10)];
    var s1 := Next(START, steps[0]);
    servers := [START, s1, Next(s1, steps[1])];
    assert forall i: nat :: i < |steps| ==> LeadsAt(servers, steps, i);
    servers, steps := ResetOvertakes(servers, steps, 7, 2, 0, Login(1, 1, 10), 1);
  }

  const REFRESHING_STEPS := [BeginLogin(1, 7), Login(1, 1, 10), RequestReset(7, 0, 10), BeginRefresh(3, 1, true)]

  const REFRESHING := Server(
    map[0 := Session(7, 10)],
    map[0 := Issued(7, Reset, None, 0, 1), 1 := Issued(7, Refresh(1), None, 0, 0)],
    map[3 := Refreshing(1)], map[], {1}, {}, 2, 0)

  /** A login, a reset request, and a refresh that has consumed its token. */
  lemma RefreshBegins() returns (servers: seq<Server>)
    ensures IsRun(servers, REFRESHING_STEPS) && servers[|REFRESHING_STEPS|] == REFRESHING
  {
    var s1 := Next(START, REFRESHING_STEPS[0]);
    var s2 := Next(s1, REFRESHING_STEPS[1]);
    var s3 := Next(s2, REFRESHING_STEPS[2]);
    servers := [START, s1, s2, s3, REFRESHING];
    assert Next(s3, REFRESHING_STEPS[3]) == REFRESHING;
    assert forall i: nat :: i < |REFRESHING_STEPS| ==> LeadsAt(servers, REFRESHING_STEPS, i);
  }

  /** A refresh that consumes its token before a reset, and stores the successor after it. */
  lemma RefreshSurvivesReset() returns (servers: seq<Server>, steps: seq<Step>)
    ensures SurvivesReset(servers, steps, 7, 2) && steps[|steps| - 1] == Issue(3, 2, 10, true)
  {
    servers := RefreshBegins();
    servers, steps := ResetOvertakes(servers, REFRESHING_STEPS, 7, 2, 0, Issue(3, 2, 10, true), 2);
  }
}
