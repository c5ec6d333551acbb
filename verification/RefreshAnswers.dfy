/** Whose tokens refreshes and logins hand out, what a refresh answers and what it writes: each said of the rows' and
    tokens' own fields. */
module RefreshAnswers {
  import opened Prelude
  import opened RefreshTokens
  import opened RefreshProtocol
  import opened RefreshHandler

  // ---- one lineage, one owner ----

  ghost predicate Owned(s: State) {
    && (forall t :: t in s.origin ==> s.origin[t] < s.nextId)
    && (forall t, u :: t in s.origin && u in s.origin && s.origin[t] == s.origin[u] ==> t.user == u.user && t.org == u.org)
  }

  lemma OwnedNext(s: State, step: Step)
    requires Owned(s)
    ensures Owned(Next(s, step))
  {
    var s' := Next(s, step);
    forall t, u | t in s'.origin && u in s'.origin && s'.origin[t] == s'.origin[u]
      ensures t.user == u.user && t.org == u.org
    {
      OriginFrom(s, step, t);
      OriginFrom(s, step, u);
    }
    forall t | t in s'.origin ensures s'.origin[t] < s'.nextId {
      OriginFrom(s, step, t);
    }
  }

  /** A token's lineage is that of some token of the same user and organisation, or new. */
  lemma OriginFrom(s: State, step: Step, t: Token)
    requires t in Next(s, step).origin
    ensures var id := Next(s, step).origin[t];
            || (exists u :: u in s.origin && s.origin[u] == id && u.user == t.user && u.org == t.org)
            || (step.Login? && id == s.nextId && t.user == step.user && t.org == step.org)
    ensures step.Login? ==> Next(s, step).nextId == s.nextId + 1
    ensures s.nextId <= Next(s, step).nextId
  {
    if !(step.Login? || step.Mint?) { assert Next(s, step).origin == s.origin; }
  }

  lemma {:induction false} OwnedRun(s: State, steps: seq<Step>)
    requires Owned(s)
    ensures Owned(Run(s, steps))
    decreases |steps|
  {
    if steps != [] {
      OwnedNext(s, steps[0]);
      OwnedRun(Next(s, steps[0]), steps[1..]);
    }
  }

  /** In every run all tokens descended from one login have its user and its organisation. */
  lemma LineagesHaveOneOwner(now: nat, steps: seq<Step>, t: Token, u: Token)
    requires var s := Run(Fresh(now), steps); t in s.origin && u in s.origin && s.origin[t] == s.origin[u]
    ensures t.user == u.user && t.org == u.org
  {
    OwnedRun(Fresh(now), steps);
  }

  /** The step of any refresh in flight stores a token of the user and organisation of the one presented, issued now,
      unless that string is stored already. */
  lemma MintStoresItsOwn(s: State, h: nat, device: string)
    requires h in s.inflight && s.inflight[h].Admitted?
    ensures var s' := Next(s, Mint(h, Usable, device));
            var t := s.inflight[h].token;
            && s'.inflight[h].Linking? && s'.inflight[h].token == t
            && var n := s'.inflight[h].minted;
               && n.user == t.user && n.org == t.org && n.issuedSecond == s.now / 1_000_000_000
               && (n in s.rows ==> s'.rows == s.rows && s'.inflight[h].newId == 0)
               && (n !in s.rows ==>
                     && s'.inflight[h].newId == s.nextId
                     && s'.rows == s.rows[n := Row(s.nextId, t.user, device, s.now, s.now + 604_800_000_000_000, None, None, s.now)])
  {}

  /** A login stores a live token of its own user and organisation, the first of a new lineage, unless that string is
      stored already. */
  lemma LoginStoresItsOwn(s: State, user: int, org: int, device: string)
    ensures var s' := Next(s, Login(user, org, device));
            exists t :: t in s'.rows && t.user == user && t.org == org && t.issuedSecond == s.now / 1_000_000_000
              && (t in s.rows ==> s'.rows == s.rows && s'.origin == s.origin)
              && (t !in s.rows ==>
                    && s'.rows == s.rows[t := Row(s.nextId, user, device, s.now, s.now + 604_800_000_000_000, None, None, s.now)]
                    && s'.origin == s.origin[t := s.nextId])
  {
    assert Token(user, org, s.now / 1_000_000_000) in Next(s, Login(user, org, device)).rows;
  }

  /** Logging out, revoking one session and revoking the others end exactly the addressed live rows: all of the user's,
      or the one with that id. The handler for the others spares no row. */
  lemma SessionsEndExactly(s: State, step: Step)
    requires step.Logout? || step.RevokeSession? || step.RevokeOthers?
    ensures var rows := Next(s, step).rows;
            && rows.Keys == s.rows.Keys
            && forall t :: t in rows ==>
                 var addressed := s.rows[t].user == step.user && (step.RevokeSession? ==> s.rows[t].id == step.id);
                 rows[t] == if addressed && s.rows[t].revokedAt.None?
                            then s.rows[t].(revokedAt := Some(s.now), updatedAt := s.now) else s.rows[t]
  {}

  // ---- what an undisturbed refresh answers ----

  /** Which answer, from the presented token, its row and the account. */
  lemma AnswersExactly(rows: Table, nextId: nat, now: nat, t: Token, account: Account, device: string)
    ensures var replies := Alone(rows, nextId, now, t, account, device).replies;
            var expired := t.issuedSecond * 1_000_000_000 + 604_800_000_000_000 <= now;
            var found := !expired && t in rows;
            var current := found && rows[t].revokedAt.None? && now <= rows[t].expiresAt;
            && |replies| == 1
            && var reply := replies[0].1;
               && (reply == InvalidJwt <==> expired)
               && (reply == LookupFailed <==> !expired && t !in rows)
               && (reply == ReuseDetected <==> found && rows[t].revokedAt.Some? && rows[t].replacedBy.Some?)
               && (reply == AlreadyRevoked <==> found && rows[t].revokedAt.Some? && rows[t].replacedBy.None?)
               && (reply == RowExpired <==> found && rows[t].revokedAt.None? && rows[t].expiresAt < now)
               && (reply == AccountMissing <==> current && account == Missing)
               && (reply == AccountDeactivated <==> current && account == Deactivated)
               && (reply == AccountLocked <==> current && account == Locked)
               && (reply.Refreshed? <==> current && account == Usable)
               && (reply.Refreshed? ==>
                     && reply.token.user == t.user && reply.token.org == t.org
                     && reply.token.issuedSecond == now / 1_000_000_000)
  {
    AloneUnfolds(rows, nextId, now, t, account, device);
  }

  // ---- what it writes ----

  /** Reuse detection revokes the user's live rows and no others; every answer but that and a new token leaves the table
      as it is. */
  lemma RefusalsWrite(rows: Table, nextId: nat, now: nat, t: Token, account: Account, device: string)
    ensures var end := Alone(rows, nextId, now, t, account, device);
            && end.replies != []
            && var reply := end.replies[0].1;
               && (reply == ReuseDetected ==>
                     && end.rows.Keys == rows.Keys
                     && forall u :: u in rows ==>
                          end.rows[u] == if rows[u].user == t.user && rows[u].revokedAt.None?
                                         then rows[u].(revokedAt := Some(now), updatedAt := now) else rows[u])
               && (reply != ReuseDetected && !reply.Refreshed? ==> end.rows == rows)
  {
    AloneUnfolds(rows, nextId, now, t, account, device);
  }

  /** A refresh answered with a token not stored before inserts that token's row, live, and revokes the presented row
      with the new one as its replacement; every other row stays. */
  lemma RefreshWrites(s: State, t: Token, device: string)
    requires Inv(s) && Accepts(s.rows, s.now, t)
    ensures var end := Alone(s.rows, s.nextId, s.now, t, Usable, device);
            && end.replies != [] && end.replies[0].1.Refreshed?
            && var n := end.replies[0].1.token;
               && (n in s.rows ==> end.rows == s.rows)
               && (n !in s.rows ==>
                     && t != n && end.rows.Keys == s.rows.Keys + {n}
                     && end.rows[n] == Row(s.nextId, t.user, device, s.now, s.now + 604_800_000_000_000, None, None, s.now)
                     && end.rows[t] == s.rows[t].(revokedAt := Some(s.now), replacedBy := Some(s.nextId), updatedAt := s.now)
                     && forall u :: u in s.rows && u != t ==> end.rows[u] == s.rows[u])
  {
    AdmittedRun(s, t, device);
  }
}
