/** The two refresh-session repositories, and how far they can be told apart. */
module SessionRepositories {
  import opened Wrappers

  datatype Session = Session(user: nat, expiresAt: int)

  type Sessions = map<nat, Session>

  predicate IsLive(s: Sessions, token: nat, now: int) {
    token in s && s[token].expiresAt > now
  }

  /** What the table still means at an instant. */
  function Live(s: Sessions, now: int): Sessions {
    map token | token in s && s[token].expiresAt > now :: s[token]
  }

  function WithoutUser(s: Sessions, user: nat): Sessions {
    map token | token in s && s[token].user != user :: s[token]
  }

  /** Takes the session; only a live one counts, and the two repositories differ in what becomes of an expired row. */
  function AfterConsume(s: Sessions, token: nat, now: int, keepsExpired: bool): Sessions {
    if keepsExpired && !IsLive(s, token, now) then s else s - {token}
  }

  function ConsumedUser(s: Sessions, token: nat, now: int): Option<nat> {
    if IsLive(s, token, now) then Some(s[token].user) else None
  }

  predicate IsRevocable(s: Sessions, token: nat, user: nat) {
    token in s && s[token].user == user
  }

  /** A dictionary in memory, which drops an expired session when asked to consume it. */
  class InMemorySessionRepository {
    var sessions: Sessions

    constructor ()
      ensures sessions == map[]
    {
      sessions := map[];
    }

    method Add(token: nat, user: nat, expiresAt: int)
      modifies this
      ensures sessions == old(sessions)[token := Session(user, expiresAt)]
    {
      sessions := sessions[token := Session(user, expiresAt)];
    }

    method Consume(token: nat, now: int) returns (user: Option<nat>)
      modifies this
      ensures sessions == AfterConsume(old(sessions), token, now, false)
      ensures user == ConsumedUser(old(sessions), token, now)
      ensures forall u :: user == Some(u) <==>
                token in old(sessions) && old(sessions)[token].user == u && old(sessions)[token].expiresAt > now
      ensures token !in sessions
      ensures forall t :: t != token ==>
                (t in sessions <==> t in old(sessions)) && (t in sessions ==> sessions[t] == old(sessions)[t])
    {
      if token !in sessions {
        assert sessions - {token} == sessions;
        return None;
      }
      var session := sessions[token];
      sessions := sessions - {token};
      return if session.expiresAt <= now then None else Some(session.user);
    }

    method Revoke(token: nat)
      modifies this
      ensures sessions == old(sessions) - {token}
    {
      sessions := sessions - {token};
    }

    method RevokeAll(user: nat)
      modifies this
      ensures forall token :: token in sessions <==> token in old(sessions) && old(sessions)[token].user != user
      ensures forall token :: token in sessions ==> sessions[token] == old(sessions)[token]
      ensures sessions == WithoutUser(old(sessions), user)
    {
      sessions := map token | token in sessions && sessions[token].user != user :: sessions[token];
    }

    method RevokeForUser(token: nat, user: nat) returns (found: bool)
      modifies this
      ensures found == IsRevocable(old(sessions), token, user)
      ensures found <==> token in old(sessions) && old(sessions)[token].user == user
      ensures sessions == if found then old(sessions) - {token} else old(sessions)
    {
      if token !in sessions || sessions[token].user != user {
        return false;
      }
      sessions := sessions - {token};
      return true;
    }
  }

  /** A table whose consuming delete only matches rows that have not expired. */
  class SqlSessionRepository {
    var rows: Sessions

    constructor ()
      ensures rows == map[]
    {
      rows := map[];
    }

    /** The key of the table refuses an identifier that is there already. */
    method Add(token: nat, user: nat, expiresAt: int) returns (added: bool)
      modifies this
      ensures added <==> token !in old(rows)
      ensures rows == if added then old(rows)[token := Session(user, expiresAt)] else old(rows)
    {
      added := token !in rows;
      if added {
        rows := rows[token := Session(user, expiresAt)];
      }
    }

    method Consume(token: nat, now: int) returns (user: Option<nat>)
      modifies this
      ensures rows == AfterConsume(old(rows), token, now, true)
      ensures user == ConsumedUser(old(rows), token, now)
      ensures forall u :: user == Some(u) <==>
                token in old(rows) && old(rows)[token].user == u && old(rows)[token].expiresAt > now
      ensures token in rows <==> token in old(rows) && old(rows)[token].expiresAt <= now
      ensures forall t :: t != token || t in rows ==>
                (t in rows <==> t in old(rows)) && (t in rows ==> rows[t] == old(rows)[t])
    {
      if token in rows && rows[token].expiresAt > now {
        user := Some(rows[token].user);
        rows := rows - {token};
      } else {
        user := None;
      }
    }

    method Revoke(token: nat)
      modifies this
      ensures rows == old(rows) - {token}
    {
      rows := rows - {token};
    }

    method RevokeAll(user: nat)
      modifies this
      ensures rows == WithoutUser(old(rows), user)
    {
      rows := map token | token in rows && rows[token].user != user :: rows[token];
    }

    /** Matches an expired row too. */
    method RevokeForUser(token: nat, user: nat) returns (found: bool)
      modifies this
      ensures found == IsRevocable(old(rows), token, user)
      ensures found <==> token in old(rows) && old(rows)[token].user == user
      ensures rows == if found then old(rows) - {token} else old(rows)
    {
      found := token in rows && rows[token].user == user;
      if found {
        rows := rows - {token};
      }
    }
  }

  // ------------------------------------------------- telling the two apart

  datatype Op =
    | Add(token: nat, user: nat, expiresAt: int)
    | Consume(token: nat)
    | Revoke(token: nat)
    | RevokeAll(user: nat)
    | RevokeForUser(token: nat, user: nat)

  function Step(s: Sessions, op: Op, now: int, isTable: bool): Sessions {
    match op
    case Add(token, user, expiresAt) => if isTable && token in s then s else s[token := Session(user, expiresAt)]
    case Consume(token) => AfterConsume(s, token, now, isTable)
    case Revoke(token) => s - {token}
    case RevokeAll(user) => WithoutUser(s, user)
    case RevokeForUser(token, user) => if IsRevocable(s, token, user) then s - {token} else s
  }

  predicate IsMonotone(times: seq<int>) {
    forall i: nat, j: nat :: i <= j < |times| ==> times[i] <= times[j]
  }

  /** Session identifiers are random, and none is handed out twice. */
  predicate HasFreshTokens(ops: seq<Op>) {
    forall i: nat, j: nat :: i < j < |ops| && ops[j].Add? ==> !IsAddOf(ops[i], ops[j].token)
  }

  predicate IsAddOf(op: Op, token: nat) {
    op.Add? && op.token == token
  }

  function Run(ops: seq<Op>, times: seq<int>, isTable: bool): Sessions
    requires |ops| == |times|
  {
    if ops == [] then map[]
    else
      var last := |ops| - 1;
      Step(Run(ops[..last], times[..last], isTable), ops[last], times[last], isTable)
  }

  /** The rows of memory are rows of the table, and those that only the table has are expired. */
  predicate IsPruned(memory: Sessions, table: Sessions, now: int) {
    && (forall token :: token in memory ==> token in table && memory[token] == table[token])
    && (forall token :: token in table && token !in memory ==> table[token].expiresAt <= now)
  }

  lemma StepKeepsPruned(memory: Sessions, table: Sessions, op: Op, now: int)
    requires IsPruned(memory, table, now) && (op.Add? ==> op.token !in table)
    ensures IsPruned(Step(memory, op, now, false), Step(table, op, now, true), now)
  {
  }

  lemma {:induction false} SessionsWereAdded(ops: seq<Op>, times: seq<int>, isTable: bool, token: nat)
    requires |ops| == |times| && token in Run(ops, times, isTable)
    ensures exists i: nat :: i < |ops| && IsAddOf(ops[i], token)
  {
    var last := |ops| - 1;
    if !IsAddOf(ops[last], token) {
      SessionsWereAdded(ops[..last], times[..last], isTable, token);
      var i: nat :| i < last && IsAddOf(ops[..last][i], token);
      assert IsAddOf(ops[i], token);
    }
  }

  /** After any calls under a monotone clock the two hold the same live sessions and answer every consume alike. */
  lemma {:induction false} RepositoriesAgree(ops: seq<Op>, times: seq<int>, now: int)
    requires |ops| == |times| && IsMonotone(times + [now]) && HasFreshTokens(ops)
    ensures IsPruned(Run(ops, times, false), Run(ops, times, true), now)
    ensures Live(Run(ops, times, false), now) == Live(Run(ops, times, true), now)
    ensures forall token ::
              ConsumedUser(Run(ops, times, false), token, now) == ConsumedUser(Run(ops, times, true), token, now)
  {
    if ops != [] {
      var last := |ops| - 1;
      assert (times + [now])[last] <= (times + [now])[last + 1];
      assert forall i: nat :: i <= last ==> (times[..last] + [times[last]])[i] == (times + [now])[i];
      RepositoriesAgree(ops[..last], times[..last], times[last]);
      var memory, table := Run(ops[..last], times[..last], false), Run(ops[..last], times[..last], true);
      if ops[last].Add? && ops[last].token in table {
        SessionsWereAdded(ops[..last], times[..last], true, ops[last].token);
        assert false;
      }
      StepKeepsPruned(memory, table, ops[last], times[last]);
    }
  }

  /** A user's own revocation is answered differently exactly when an expired row is left in the table alone. */
  lemma RevocationsDifferOnlyOnExpired(ops: seq<Op>, times: seq<int>, now: int, token: nat, user: nat)
    requires |ops| == |times| && IsMonotone(times + [now]) && HasFreshTokens(ops)
    ensures var memory, table := Run(ops, times, false), Run(ops, times, true);
            IsRevocable(memory, token, user) != IsRevocable(table, token, user)
            <==> token !in memory && IsRevocable(table, token, user) && table[token].expiresAt <= now
  {
    RepositoriesAgree(ops, times, now);
  }

  const TWICE := [Add(1, 1, 10), Add(1, 2, 10)]

  /** Freshness is needed: the dictionary takes an identifier a second time, the table does not. */
  lemma SecondAddTellsApart()
    ensures Run(TWICE, [0, 0], false) == map[1 := Session(2, 10)]
    ensures Run(TWICE, [0, 0], true) == map[1 := Session(1, 10)]
  {
    var first, none := [Add(1, 1, 10)], [];
    assert TWICE[..1] == first && [0, 0][..1] == [0] && first[..0] == none && [0][..0] == [];
    forall isTable ensures Run(first, [0], isTable) == map[1 := Session(1, 10)] {
      assert Run(none, [], isTable) == map[];
    }
  }
}
