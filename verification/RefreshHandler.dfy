/** The repository object and the handlers that call it, proved against the step machine. */
module RefreshHandler {
  import opened Prelude
  import opened RefreshTokens
  import opened RefreshProtocol

  datatype QueryError = NoRows

  class RefreshTokenRepository {
    var rows: Table
    var nextId: nat

    method StoreRefreshToken(t: Token, device: string, now: nat) returns (id: nat)
      modifies this
      ensures rows == Insert(old(rows), old(nextId), t, device, now)
      ensures id == InsertedId(old(rows), old(nextId), t)
      ensures nextId == old(nextId) + 1
      ensures t in old(rows) ==> rows == old(rows) && id == 0
      ensures t !in old(rows) ==>
                && id == old(nextId)
                && rows == old(rows)[t := Row(id, t.user, device, now, now + 604_800_000_000_000, None, None, now)]
    {
      id := 0;
      if t !in rows {
        id := nextId;
        rows := rows[t := Row(nextId, t.user, device, now, now + REFRESH_LIFETIME, None, None, now)];
      }
      nextId := nextId + 1;
    }

    /** pgx reports a missing row with pgx.ErrNoRows, never with sql.ErrNoRows: it is an error like any other, and the
        "not found" answer without an error does not occur. */
    method GetRefreshToken(t: Token) returns (r: Result<Row, QueryError>)
      ensures r == if t in rows then Ok(rows[t]) else Err(NoRows)
    {
      if t !in rows { return Err(NoRows); }
      return Ok(rows[t]);
    }

    method RevokeToken(t: Token, replacement: Option<nat>, now: nat)
      modifies this`rows
      ensures rows == RevokeOne(old(rows), t, replacement, now)
      ensures rows == if t in old(rows) && (replacement.Some? ==> exists u :: u in old(rows) && old(rows)[u].id == replacement.value)
                      then old(rows)[t := old(rows)[t].(revokedAt := Some(now), replacedBy := replacement, updatedAt := now)]
                      else old(rows)
    {
      if t in rows && (replacement.Some? ==> exists u :: u in rows && rows[u].id == replacement.value) {
        rows := rows[t := rows[t].(revokedAt := Some(now), replacedBy := replacement, updatedAt := now)];
      }
    }

    method RevokeAllUserTokens(user: int, now: nat)
      modifies this`rows
      ensures rows == RevokeLive(old(rows), TokensOf(old(rows), user), now)
      ensures rows.Keys == old(rows).Keys
      ensures forall t :: t in rows ==>
                rows[t] == if old(rows)[t].user == user && old(rows)[t].revokedAt.None?
                           then old(rows)[t].(revokedAt := Some(now), updatedAt := now) else old(rows)[t]
    {
      rows := map t | t in rows ::
        if rows[t].user == user && rows[t].revokedAt.None? then rows[t].(revokedAt := Some(now), updatedAt := now)
        else rows[t];
    }

    /** False stands for sql.ErrNoRows. */
    method RevokeSessionByID(user: int, id: nat, now: nat) returns (found: bool)
      modifies this`rows
      ensures rows == RevokeLive(old(rows), SessionOf(old(rows), user, id), now)
      ensures rows.Keys == old(rows).Keys
      ensures forall t :: t in rows ==>
                rows[t] == if old(rows)[t].user == user && old(rows)[t].id == id && old(rows)[t].revokedAt.None?
                           then old(rows)[t].(revokedAt := Some(now), updatedAt := now) else old(rows)[t]
      ensures found <==> exists t :: t in old(rows) && old(rows)[t].user == user && old(rows)[t].id == id && Live(old(rows), t)
    {
      found := exists t :: t in rows && rows[t].user == user && rows[t].id == id && Live(rows, t);
      rows := map t | t in rows ::
        if rows[t].id == id && rows[t].user == user && rows[t].revokedAt.None?
        then rows[t].(revokedAt := Some(now), updatedAt := now)
        else rows[t];
    }

    /** The number of rows RevokeOtherSessions reports; `current` is the fingerprint spared, if it names a row. */
    method RevokeOtherSessions(user: int, current: Option<Token>, now: nat) returns (count: nat)
      modifies this`rows
      ensures var spared := if current.Some? then {current.value} else {};
              && rows == RevokeLive(old(rows), TokensOf(old(rows), user) - spared, now)
              && count == |set t | t in TokensOf(old(rows), user) - spared && Live(old(rows), t)|
      ensures rows.Keys == old(rows).Keys
      ensures forall t :: t in rows ==>
                rows[t] == if old(rows)[t].user == user && current != Some(t) && old(rows)[t].revokedAt.None?
                           then old(rows)[t].(revokedAt := Some(now), updatedAt := now) else old(rows)[t]
      ensures count == |set t | t in rows && rows[t] != old(rows)[t]|
    {
      var spared := if current.Some? then {current.value} else {};
      var victims := TokensOf(rows, user) - spared;
      count := |set t | t in victims && Live(rows, t)|;
      rows := map t | t in rows ::
        if t in victims && rows[t].revokedAt.None? then rows[t].(revokedAt := Some(now), updatedAt := now)
        else rows[t];
      assert (set t | t in rows && rows[t] != old(rows)[t]) == set t | t in victims && Live(old(rows), t);
    }

    method CleanupExpiredTokens(now: nat) returns (deleted: nat)
      modifies this`rows
      ensures rows == Cleanup(old(rows), now)
      ensures deleted == |old(rows)| - |rows|
      ensures forall t :: t in rows <==>
                && t in old(rows) && now <= old(rows)[t].expiresAt + 2_592_000_000_000_000
                && (old(rows)[t].revokedAt.Some? ==> now <= old(rows)[t].revokedAt.value + 2_592_000_000_000_000)
      ensures forall t :: t in rows ==>
                var dangling := old(rows)[t].replacedBy.Some? && !IdExists(rows, old(rows)[t].replacedBy.value);
                rows[t] == if dangling then old(rows)[t].(replacedBy := None) else old(rows)[t]
    {
      var kept := map t | t in rows && !Stale(rows[t], now) :: rows[t];
      assert kept.Keys <= rows.Keys;
      SubsetSize(kept.Keys, rows.Keys);
      deleted := |rows| - |kept|;
      var next := map t | t in kept ::
        if kept[t].replacedBy.Some? && !IdExists(kept, kept[t].replacedBy.value)
        then kept[t].(replacedBy := None)
        else kept[t];
      assert forall id :: IdKept(rows, id, now) <==> IdExists(kept, id) by {
        forall id ensures IdKept(rows, id, now) <==> IdExists(kept, id) {
          if IdKept(rows, id, now) {
            var t :| t in rows && !Stale(rows[t], now) && rows[t].id == id;
            assert t in kept && kept[t].id == id;
          }
        }
      }
      assert next.Keys == kept.Keys;
      assert |next| == |next.Keys| == |kept.Keys| == |kept|;
      rows := next;
    }

    method GetSessionCount(user: int, now: nat) returns (count: nat)
      ensures count == |ActiveSessions(rows, user, now)|
      ensures count == |set t | t in rows && rows[t].user == user && rows[t].revokedAt.None? && now < rows[t].expiresAt|
    {
      var active := map t | t in rows && rows[t].user == user && rows[t].revokedAt.None? && now < rows[t].expiresAt :: rows[t];
      count := |active|;
    }
  }

  /** The machine with no handler in flight. */
  function Quiet(rows: Table, nextId: nat, now: nat): State {
    State(rows, nextId, now, map[], map[], [], [])
  }

  /** One refresh request whose statements nothing falls between: the machine's steps, one after another. */
  function Alone(rows: Table, nextId: nat, now: nat, t: Token, account: Account, device: string): State {
    Run(Quiet(rows, nextId, now), [Present(0, t), Mint(0, account, device), Link(0), Terminate(0)])
  }

  lemma AloneUnfolds(rows: Table, nextId: nat, now: nat, t: Token, account: Account, device: string)
    ensures Alone(rows, nextId, now, t, account, device)
         == DoTerminate(DoLink(DoMint(DoPresent(Quiet(rows, nextId, now), 0, t), 0, account, device), 0), 0)
  {
    var s := Quiet(rows, nextId, now);
    RunCons(s, Present(0, t), [Mint(0, account, device), Link(0), Terminate(0)]);
    var s1 := Next(s, Present(0, t));
    RunCons(s1, Mint(0, account, device), [Link(0), Terminate(0)]);
    var s2 := Next(s1, Mint(0, account, device));
    RunCons(s2, Link(0), [Terminate(0)]);
    RunCons(Next(s2, Link(0)), Terminate(0), []);
  }

  lemma RunCons(s: State, step: Step, rest: seq<Step>)
    ensures Run(s, [step] + rest) == Run(Next(s, step), rest)
  {
    assert ([step] + rest)[1..] == rest;
  }

  method RefreshTokenHandler(repo: RefreshTokenRepository, t: Token, account: Account, device: string, now: nat)
    returns (reply: Reply)
    modifies repo
    ensures var end := Alone(old(repo.rows), old(repo.nextId), now, t, account, device);
            repo.rows == end.rows && repo.nextId == end.nextId && end.replies == [(0, reply)] && end.inflight == map[]
  {
    AloneUnfolds(repo.rows, repo.nextId, now, t, account, device);
    ghost var s0 := Quiet(repo.rows, repo.nextId, now);
    if now >= t.Expiry() { return InvalidJwt; }
    var stored := repo.GetRefreshToken(t);
    if stored.Err? { return LookupFailed; }
    if stored.value.revokedAt.Some? {
      if stored.value.replacedBy.Some? {
        repo.RevokeAllUserTokens(t.user, now);
        return ReuseDetected;
      }
      return AlreadyRevoked;
    }
    if stored.value.expiresAt < now { return RowExpired; }
    match account {
      case Missing => return AccountMissing;
      case Deactivated => return AccountDeactivated;
      case Locked => return AccountLocked;
      case Usable =>
    }
    var minted := Generate(t.user, t.org, now);
    var newId := repo.StoreRefreshToken(minted, device, now);
    repo.RevokeToken(t, Some(newId), now);
    reply := Refreshed(minted);
  }

  method LogoutHandler(repo: RefreshTokenRepository, user: int, now: nat)
    modifies repo`rows
    ensures repo.rows == Next(Quiet(old(repo.rows), repo.nextId, now), Logout(user)).rows
    ensures forall t :: t in repo.rows && repo.rows[t].user == user ==> !Live(repo.rows, t)
  {
    repo.RevokeAllUserTokens(user, now);
  }

  // ---- what one undisturbed refresh does to the user's sessions ----

  lemma AdmittedRun(s: State, t: Token, device: string)
    requires Inv(s) && Accepts(s.rows, s.now, t)
    ensures var minted := Generate(t.user, t.org, s.now);
            var end := Alone(s.rows, s.nextId, s.now, t, Usable, device);
            var mid := Insert(s.rows, s.nextId, minted, device, s.now);
            && end.replies == [(0, Refreshed(minted))]
            && end.rows == if minted in s.rows then s.rows
                           else mid[t := mid[t].(revokedAt := Some(s.now), replacedBy := Some(s.nextId), updatedAt := s.now)]
  {
    AloneUnfolds(s.rows, s.nextId, s.now, t, Usable, device);
    var minted := Generate(t.user, t.org, s.now);
    if minted in s.rows {
      ZeroIsNoId(s);
    } else {
      var mid := Insert(s.rows, s.nextId, minted, device, s.now);
      assert mid[minted].id == s.nextId;
    }
  }

  /** A refresh answered with a new string swaps exactly one active session of its user for another;
      one that meets its own second's token answers with a string already stored and changes nothing. */
  lemma RefreshSwapsOneSession(s: State, t: Token, device: string)
    requires Inv(s) && Accepts(s.rows, s.now, t)
    ensures var minted := Generate(t.user, t.org, s.now);
            var end := Alone(s.rows, s.nextId, s.now, t, Usable, device);
            && end.replies == [(0, Refreshed(minted))]
            && (minted in s.rows ==> end.rows == s.rows)
            && (minted !in s.rows ==>
                  && !Accepts(end.rows, s.now, t) && Accepts(end.rows, s.now, minted)
                  && ActiveSessions(end.rows, t.user, s.now).Keys
                     == ActiveSessions(s.rows, t.user, s.now).Keys - {t} + {minted})
  {
    AdmittedRun(s, t, device);
    assert RowOk(s, t);
  }

  lemma OtherUsersUntouched(s: State, t: Token, device: string, user: int)
    requires Inv(s) && Accepts(s.rows, s.now, t) && user != t.user
    ensures ActiveSessions(Alone(s.rows, s.nextId, s.now, t, Usable, device).rows, user, s.now)
         == ActiveSessions(s.rows, user, s.now)
  {
    AdmittedRun(s, t, device);
    assert RowOk(s, t);
  }

  lemma SwapKeepsSize<K, V>(before: map<K, V>, after: map<K, V>, x: K, y: K)
    requires x in before && y !in before && after.Keys == before.Keys - {x} + {y}
    ensures |after| == |before|
  {
    assert |before| == |before.Keys| && |after| == |after.Keys|;
  }

  /** Every user, the one refreshing included, has as many active sessions after as before. */
  lemma RefreshConservesSessionCounts(s: State, t: Token, device: string, user: int)
    requires Inv(s) && Accepts(s.rows, s.now, t)
    ensures |ActiveSessions(Alone(s.rows, s.nextId, s.now, t, Usable, device).rows, user, s.now)|
         == |ActiveSessions(s.rows, user, s.now)|
  {
    if user != t.user {
      OtherUsersUntouched(s, t, device, user);
    } else {
      var minted := Generate(t.user, t.org, s.now);
      RefreshSwapsOneSession(s, t, device);
      if minted !in s.rows {
        assert RowOk(s, t);
        SwapKeepsSize(ActiveSessions(s.rows, user, s.now),
                      ActiveSessions(Alone(s.rows, s.nextId, s.now, t, Usable, device).rows, user, s.now), t, minted);
      }
    }
  }

  lemma ZeroIsNoId(s: State)
    requires Inv(s)
    ensures !IdExists(s.rows, 0)
  {
    assert forall t :: t in s.rows ==> RowOk(s, t);
  }

  /** The four statements of a handler presented with a replaced token: the user's rows are revoked, no others. */
  lemma ReplayAlone(s: State, t: Token, account: Account, device: string)
    requires Inv(s) && t in s.rows && s.rows[t].replacedBy.Some? && s.now < t.Expiry()
    ensures var q := Quiet(s.rows, s.nextId, s.now);
            && s.rows[t].user == t.user && DoPresent(q, 0, t).inflight == map[0 := Terminating(t.user)]
            && Alone(s.rows, s.nextId, s.now, t, account, device) == DoTerminate(DoPresent(q, 0, t), 0)
  {
    AloneUnfolds(s.rows, s.nextId, s.now, t, account, device);
    assert RowOk(s, t);
  }

  lemma ReplayKeepsInv(s: State, t: Token, account: Account, device: string)
    requires Inv(s) && t in s.rows && s.rows[t].replacedBy.Some? && s.now < t.Expiry()
    ensures Inv(Alone(s.rows, s.nextId, s.now, t, account, device))
  {
    var q := Quiet(s.rows, s.nextId, s.now);
    ReplayAlone(s, t, account, device);
    InvAnswered(s, q);
    InvPresent(q, 0, t);
    InvTerminate(DoPresent(q, 0, t), 0);
  }

  lemma ReplayRevokesAll(s: State, t: Token, account: Account, device: string)
    requires Inv(s) && t in s.rows && s.rows[t].replacedBy.Some? && s.now < t.Expiry()
    ensures var end := Alone(s.rows, s.nextId, s.now, t, account, device);
            && end.replies == [(0, ReuseDetected)]
            && ActiveSessions(end.rows, t.user, s.now) == map[]
            && forall u :: u in s.rows && u.user == t.user ==> u in end.rows && end.rows[u].revokedAt.Some?
  {
    ReplayAlone(s, t, account, device);
    var end := Alone(s.rows, s.nextId, s.now, t, account, device);
    forall u | u in s.rows ensures u !in ActiveSessions(end.rows, t.user, s.now) {
      assert RowOk(s, u);
    }
    assert ActiveSessions(end.rows, t.user, s.now).Keys == {};
  }

  /** Presenting a replaced token ends every session of its user, now and in every continuation. */
  lemma ReplayEndsAllSessions(s: State, t: Token, account: Account, device: string, held: Token, later: seq<Step>)
    requires Inv(s) && t in s.rows && s.rows[t].replacedBy.Some? && s.now < t.Expiry()
    requires held in s.rows && held.user == t.user
    ensures var end := Alone(s.rows, s.nextId, s.now, t, account, device);
            && end.replies == [(0, ReuseDetected)]
            && ActiveSessions(end.rows, t.user, s.now) == map[]
            && !Accepts(Run(end, later).rows, Run(end, later).now, held)
  {
    ReplayKeepsInv(s, t, account, device);
    ReplayRevokesAll(s, t, account, device);
    RevocationIsPermanent(Alone(s.rows, s.nextId, s.now, t, account, device), later, held);
  }
}
