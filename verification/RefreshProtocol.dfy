/** Every interleaving of refresh handlers with logins, logouts, session revocations and cleanup. */
module RefreshProtocol {
  import opened Prelude
  import opened RefreshTokens

  datatype Account = Missing | Deactivated | Locked | Usable

  datatype Reply =
    | InvalidJwt | LookupFailed | AlreadyRevoked | RowExpired | ReuseDetected
    | AccountMissing | AccountDeactivated | AccountLocked
    | Refreshed(token: Token)

  // Where a RefreshTokenHandler stands between two of its statements.
  datatype Phase =
    | Admitted(token: Token)
    | Linking(token: Token, newId: nat, minted: Token)
    | Terminating(user: int)

  // `origin` (the id of the row whose login began a token's lineage), `redeemed` and `replies` only record what happened.
  datatype State = State(rows: Table, nextId: nat, now: nat, inflight: map<nat, Phase>,
                         origin: map<Token, nat>, redeemed: seq<Token>, replies: seq<(nat, Reply)>)

  datatype Step =
    | Advance(d: nat)
    | Login(user: int, org: int, device: string)
    | Logout(user: int)
    | RevokeSession(user: int, id: nat)
    | RevokeOthers(user: int)
    | CleanUp
    | Present(h: nat, token: Token)
    | Mint(h: nat, account: Account, device: string)
    | Link(h: nat)
    | Terminate(h: nat)

  function Fresh(now: nat): State {
    State(map[], 1, now, map[], map[], [], [])
  }

  /** ValidateToken and GetRefreshToken, then the checks of the stored row. A missing row is a failed lookup: the driver
      reports it with an error of its own, which is not the one the code takes for "not found". */
  function Verdict(rows: Table, now: nat, t: Token): Result<Phase, Reply> {
    if now >= t.Expiry() then Err(InvalidJwt)
    else if t !in rows then Err(LookupFailed)
    else if rows[t].revokedAt.Some? then
      if rows[t].replacedBy.Some? then Ok(Terminating(t.user)) else Err(AlreadyRevoked)
    else if rows[t].expiresAt < now then Err(RowExpired)
    else Ok(Admitted(t))
  }

  predicate Accepts(rows: Table, now: nat, t: Token) {
    Verdict(rows, now, t) == Ok(Admitted(t))
  }

  function Answer(s: State, h: nat, reply: Reply): State {
    s.(inflight := s.inflight - {h}, replies := s.replies + [(h, reply)])
  }

  function DoLogin(s: State, user: int, org: int, device: string): State {
    var t := Generate(user, org, s.now);
    s.(rows := Insert(s.rows, s.nextId, t, device, s.now), nextId := s.nextId + 1,
       origin := if t in s.rows then s.origin else s.origin[t := s.nextId])
  }

  function DoPresent(s: State, h: nat, t: Token): State {
    if h in s.inflight then s
    else match Verdict(s.rows, s.now, t)
      case Ok(phase) => s.(inflight := s.inflight[h := phase])
      case Err(reply) => Answer(s, h, reply)
  }

  /** The account check, then GenerateRefreshToken and StoreRefreshToken. */
  function DoMint(s: State, h: nat, account: Account, device: string): State {
    if h !in s.inflight || !s.inflight[h].Admitted? then s
    else match account
      case Missing => Answer(s, h, AccountMissing)
      case Deactivated => Answer(s, h, AccountDeactivated)
      case Locked => Answer(s, h, AccountLocked)
      case Usable =>
        var t := s.inflight[h].token;
        var minted := Generate(t.user, t.org, s.now);
        var newId := InsertedId(s.rows, s.nextId, minted);
        s.(rows := Insert(s.rows, s.nextId, minted, device, s.now), nextId := s.nextId + 1,
           inflight := s.inflight[h := Linking(t, newId, minted)],
           origin := if newId == 0 || t !in s.origin then s.origin else s.origin[minted := s.origin[t]],
           redeemed := if newId == 0 then s.redeemed else s.redeemed + [t])
  }

  /** RevokeToken with the new id (also when the INSERT failed and the id is zero), then the answer. */
  function DoLink(s: State, h: nat): State {
    if h !in s.inflight || !s.inflight[h].Linking? then s
    else
      var p := s.inflight[h];
      Answer(s.(rows := RevokeOne(s.rows, p.token, Some(p.newId), s.now)), h, Refreshed(p.minted))
  }

  function DoTerminate(s: State, h: nat): State {
    if h !in s.inflight || !s.inflight[h].Terminating? then s
    else Answer(DoRevoke(s, TokensOf(s.rows, s.inflight[h].user)), h, ReuseDetected)
  }

  function DoRevoke(s: State, victims: set<Token>): State {
    s.(rows := RevokeLive(s.rows, victims, s.now))
  }

  function Next(s: State, step: Step): State {
    match step
    case Advance(d) => s.(now := s.now + d)
    case Login(user, org, device) => DoLogin(s, user, org, device)
    case Logout(user) => DoRevoke(s, TokensOf(s.rows, user))
    case RevokeSession(user, id) => DoRevoke(s, SessionOf(s.rows, user, id))
    case RevokeOthers(user) => DoRevoke(s, TokensOf(s.rows, user))
    case CleanUp => s.(rows := Cleanup(s.rows, s.now))
    case Present(h, t) => DoPresent(s, h, t)
    case Mint(h, account, device) => DoMint(s, h, account, device)
    case Link(h) => DoLink(s, h)
    case Terminate(h) => DoTerminate(s, h)
  }

  function Run(s: State, steps: seq<Step>): State
    decreases |steps|
  {
    if steps == [] then s else Run(Next(s, steps[0]), steps[1..])
  }

  // ---- what every step keeps ----

  ghost predicate RowOk(s: State, t: Token)
    requires t in s.rows
  {
    var row := s.rows[t];
    && 1 <= row.id < s.nextId
    && row.user == t.user
    && row.issuedAt <= s.now
    && t.issuedSecond == SecondOf(row.issuedAt)
    && row.expiresAt == row.issuedAt + REFRESH_LIFETIME
    && (row.revokedAt.Some? ==> row.issuedAt <= row.revokedAt.value <= s.now)
    && (row.replacedBy.Some? ==> row.revokedAt.Some? && row.id < row.replacedBy.value < s.nextId)
  }

  /** A token whose row is gone is long past the second in which its string could be generated again. */
  predicate LongGone(s: State, t: Token) {
    t !in s.rows && t.IssuedAt() + CLEANUP_GRACE < s.now
  }

  ghost predicate PhaseOk(s: State, p: Phase) {
    match p
    case Admitted(t) => t in s.rows || LongGone(s, t)
    case Linking(t, newId, _) =>
      && newId < s.nextId
      && (LongGone(s, t) || (t in s.rows && (newId != 0 ==> s.rows[t].id < newId)))
    case Terminating(_) => true
  }

  ghost predicate Inv(s: State) {
    && s.nextId >= 1
    && (forall t :: t in s.rows ==> RowOk(s, t))
    && (forall t, u :: t in s.rows && u in s.rows && s.rows[t].id == s.rows[u].id ==> t == u)
    && (forall h :: h in s.inflight ==> PhaseOk(s, s.inflight[h]))
  }

  lemma InvFresh(now: nat)
    ensures Inv(Fresh(now))
  {}

  lemma InvInsert(s: State, t: Token, device: string)
    requires Inv(s) && t.issuedSecond == SecondOf(s.now)
    ensures Inv(s.(rows := Insert(s.rows, s.nextId, t, device, s.now), nextId := s.nextId + 1))
  {}

  lemma InvRevoke(s: State, victims: set<Token>)
    requires Inv(s)
    ensures Inv(DoRevoke(s, victims))
  {
    var s' := DoRevoke(s, victims);
    forall t | t in s'.rows ensures RowOk(s', t) {
      assert RowOk(s, t);
    }
    forall h | h in s'.inflight ensures PhaseOk(s', s'.inflight[h]) {
      assert PhaseOk(s, s.inflight[h]);
    }
  }

  lemma InvCleanupRows(s: State)
    requires Inv(s)
    ensures forall t :: t in Cleanup(s.rows, s.now) ==> RowOk(Next(s, CleanUp), t)
    ensures forall t :: t in s.rows && t !in Cleanup(s.rows, s.now) ==> LongGone(Next(s, CleanUp), t)
  {
    var s' := Next(s, CleanUp);
    forall t | t in s'.rows ensures RowOk(s', t) {
      assert RowOk(s, t);
    }
    forall t | t in s.rows && t !in s'.rows ensures LongGone(s', t) {
      assert RowOk(s, t);
    }
  }

  lemma InvCleanup(s: State)
    requires Inv(s)
    ensures Inv(Next(s, CleanUp))
  {
    var s' := Next(s, CleanUp);
    InvCleanupRows(s);
    assert forall t :: t in s'.rows ==> t in s.rows && s'.rows[t].id == s.rows[t].id;
    forall h | h in s'.inflight ensures PhaseOk(s', s'.inflight[h]) {
      assert PhaseOk(s, s.inflight[h]);
    }
  }

  lemma InvEnters(s: State, h: nat, p: Phase)
    requires Inv(s) && h !in s.inflight && PhaseOk(s, p)
    ensures Inv(s.(inflight := s.inflight[h := p]))
  {
    var s' := s.(inflight := s.inflight[h := p]);
    forall t | t in s'.rows ensures RowOk(s', t) { assert RowOk(s, t); }
    forall g | g in s'.inflight ensures PhaseOk(s', s'.inflight[g]) {
      assert PhaseOk(s, s'.inflight[g]);
    }
  }

  lemma InvPresent(s: State, h: nat, t: Token)
    requires Inv(s)
    ensures Inv(DoPresent(s, h, t))
  {
    if h !in s.inflight && Verdict(s.rows, s.now, t).Ok? {
      InvEnters(s, h, Verdict(s.rows, s.now, t).value);
    } else {
      InvAnswered(s, DoPresent(s, h, t));
    }
  }

  lemma InvMint(s: State, h: nat, account: Account, device: string)
    requires Inv(s)
    ensures Inv(DoMint(s, h, account, device))
  {
    var s' := DoMint(s, h, account, device);
    if h in s.inflight && s.inflight[h].Admitted? && account.Usable? {
      var t := s.inflight[h].token;
      assert PhaseOk(s, s.inflight[h]);
      assert t in s.rows ==> RowOk(s, t);
      var minted := Generate(t.user, t.org, s.now);
      InvInsert(s, minted, device);
      var s1 := s.(rows := Insert(s.rows, s.nextId, minted, device, s.now), nextId := s.nextId + 1);
      assert s'.rows == s1.rows;
      forall u | u in s'.rows ensures RowOk(s', u) {
        assert RowOk(s1, u);
      }
      forall g | g in s'.inflight ensures PhaseOk(s', s'.inflight[g]) {
        if g != h { assert PhaseOk(s1, s1.inflight[g]); }
      }
    } else {
      InvAnswered(s, s');
    }
  }

  lemma InvAnswered(s: State, s': State)
    requires Inv(s)
    requires s'.rows == s.rows && s'.nextId == s.nextId && s'.now == s.now
    requires forall h :: h in s'.inflight ==> h in s.inflight && s'.inflight[h] == s.inflight[h]
    ensures Inv(s')
  {
    forall t | t in s'.rows ensures RowOk(s', t) {
      assert RowOk(s, t);
    }
    forall h | h in s'.inflight ensures PhaseOk(s', s'.inflight[h]) {
      assert PhaseOk(s, s.inflight[h]);
    }
  }

  /** The UPDATE that links. */
  lemma InvLinked(s: State, p: Phase)
    requires Inv(s) && p.Linking? && PhaseOk(s, p)
    ensures Inv(s.(rows := RevokeOne(s.rows, p.token, Some(p.newId), s.now)))
  {
    var s' := s.(rows := RevokeOne(s.rows, p.token, Some(p.newId), s.now));
    if s'.rows != s.rows {
      assert IdExists(s.rows, p.newId);
      assert forall t :: t in s'.rows ==> t in s.rows && s'.rows[t].id == s.rows[t].id;
      forall t | t in s'.rows ensures RowOk(s', t) {
        assert RowOk(s, t);
      }
      forall g | g in s'.inflight ensures PhaseOk(s', s'.inflight[g]) {
        assert PhaseOk(s, s.inflight[g]);
      }
    }
  }

  lemma InvLink(s: State, h: nat)
    requires Inv(s)
    ensures Inv(DoLink(s, h))
  {
    if h in s.inflight && s.inflight[h].Linking? {
      var p := s.inflight[h];
      InvLinked(s, p);
      InvAnswered(s.(rows := RevokeOne(s.rows, p.token, Some(p.newId), s.now)), DoLink(s, h));
    }
  }

  lemma InvAdvance(s: State, d: nat)
    requires Inv(s)
    ensures Inv(s.(now := s.now + d))
  {
    var s' := s.(now := s.now + d);
    forall t | t in s'.rows ensures RowOk(s', t) {
      assert RowOk(s, t);
    }
    forall h | h in s'.inflight ensures PhaseOk(s', s'.inflight[h]) {
      assert PhaseOk(s, s.inflight[h]);
    }
  }

  lemma InvLogin(s: State, user: int, org: int, device: string)
    requires Inv(s)
    ensures Inv(DoLogin(s, user, org, device))
  {
    var t := Generate(user, org, s.now);
    InvInsert(s, t, device);
    var s1 := s.(rows := Insert(s.rows, s.nextId, t, device, s.now), nextId := s.nextId + 1);
    InvAnswered(s1, DoLogin(s, user, org, device));
  }

  lemma InvTerminate(s: State, h: nat)
    requires Inv(s)
    ensures Inv(DoTerminate(s, h))
  {
    if h in s.inflight && s.inflight[h].Terminating? {
      var victims := TokensOf(s.rows, s.inflight[h].user);
      InvRevoke(s, victims);
      InvAnswered(DoRevoke(s, victims), DoTerminate(s, h));
    }
  }

  lemma InvNext(s: State, step: Step)
    requires Inv(s)
    ensures Inv(Next(s, step))
  {
    match step
    case Advance(d) => InvAdvance(s, d);
    case Login(user, org, device) => InvLogin(s, user, org, device);
    case Logout(user) => InvRevoke(s, TokensOf(s.rows, user));
    case RevokeSession(user, id) => InvRevoke(s, SessionOf(s.rows, user, id));
    case RevokeOthers(user) => InvRevoke(s, TokensOf(s.rows, user));
    case CleanUp => InvCleanup(s);
    case Present(h, t) => InvPresent(s, h, t);
    case Mint(h, account, device) => InvMint(s, h, account, device);
    case Link(h) => InvLink(s, h);
    case Terminate(h) => InvTerminate(s, h);
  }

  lemma {:induction false} InvRun(s: State, steps: seq<Step>)
    requires Inv(s)
    ensures Inv(Run(s, steps))
    decreases |steps|
  {
    if steps != [] {
      InvNext(s, steps[0]);
      InvRun(Next(s, steps[0]), steps[1..]);
    }
  }

  // ---- revocation is permanent ----

  /** Revoked, or deleted so long after issue that the string can never be stored again. */
  predicate Dead(s: State, t: Token) {
    (t in s.rows && s.rows[t].revokedAt.Some?) || LongGone(s, t)
  }

  lemma DeadNext(s: State, step: Step, t: Token)
    requires Inv(s) && Dead(s, t)
    ensures Dead(Next(s, step), t)
  {
    if t in s.rows {
      assert RowOk(s, t);
    }
  }

  lemma {:induction false} RevocationIsPermanent(s: State, steps: seq<Step>, t: Token)
    requires Inv(s) && Dead(s, t)
    ensures Dead(Run(s, steps), t)
    ensures !Live(Run(s, steps).rows, t)
    ensures !Accepts(Run(s, steps).rows, Run(s, steps).now, t)
    decreases |steps|
  {
    if steps != [] {
      InvNext(s, steps[0]);
      DeadNext(s, steps[0], t);
      RevocationIsPermanent(Next(s, steps[0]), steps[1..], t);
    }
  }

  // ---- replacements ----

  predicate Replaces(rows: Table, t: Token, u: Token) {
    t in rows && u in rows && rows[t].replacedBy == Some(rows[u].id)
  }

  predicate ReplacementPath(rows: Table, path: seq<Token>) {
    && (forall i :: 0 <= i < |path| ==> path[i] in rows)
    && (forall i :: 0 <= i < |path| - 1 ==> Replaces(rows, path[i], path[i + 1]))
  }

  /** In every interleaving a replaced row is revoked and its replacement has a larger id. */
  lemma ReplacedRowsAreRevoked(now: nat, steps: seq<Step>, t: Token)
    requires t in Run(Fresh(now), steps).rows && Run(Fresh(now), steps).rows[t].replacedBy.Some?
    ensures var row := Run(Fresh(now), steps).rows[t];
            row.revokedAt.Some? && row.id < row.replacedBy.value < Run(Fresh(now), steps).nextId
  {
    InvFresh(now);
    InvRun(Fresh(now), steps);
    assert RowOk(Run(Fresh(now), steps), t);
  }

  lemma {:induction false} PathIdsIncrease(s: State, path: seq<Token>, i: nat, j: nat)
    requires Inv(s) && ReplacementPath(s.rows, path) && i < j < |path|
    ensures s.rows[path[i]].id < s.rows[path[j]].id
    decreases j
  {
    assert Replaces(s.rows, path[j - 1], path[j]);
    assert RowOk(s, path[j - 1]);
    if i < j - 1 { PathIdsIncrease(s, path, i, j - 1); }
  }

  lemma {:induction false} PathIdsGrowByIndex(s: State, path: seq<Token>, j: nat)
    requires Inv(s) && ReplacementPath(s.rows, path) && j < |path|
    ensures s.rows[path[j]].id > j
    decreases j
  {
    assert RowOk(s, path[j]);
    if j > 0 {
      PathIdsGrowByIndex(s, path, j - 1);
      PathIdsIncrease(s, path, j - 1, j);
    }
  }

  /** Following replacements visits no token twice, stops within the ids handed out, and only its end can be live. */
  lemma FollowingReplacementsTerminates(now: nat, steps: seq<Step>, path: seq<Token>)
    requires ReplacementPath(Run(Fresh(now), steps).rows, path)
    ensures |path| < Run(Fresh(now), steps).nextId
    ensures forall i, j :: 0 <= i < j < |path| ==> path[i] != path[j]
    ensures forall i :: 0 <= i < |path| - 1 ==> !Live(Run(Fresh(now), steps).rows, path[i])
  {
    var s := Run(Fresh(now), steps);
    InvFresh(now);
    InvRun(Fresh(now), steps);
    if path != [] {
      PathIdsGrowByIndex(s, path, |path| - 1);
      assert RowOk(s, path[|path| - 1]);
    }
    forall i, j | 0 <= i < j < |path| ensures path[i] != path[j] {
      PathIdsIncrease(s, path, i, j);
    }
    forall i | 0 <= i < |path| - 1 ensures !Live(s.rows, path[i]) {
      assert Replaces(s.rows, path[i], path[i + 1]);
      assert RowOk(s, path[i]);
    }
  }

  // ---- presenting a replaced token ----

  /** The statement that reuse detection runs leaves its user no live token, and nothing that user held
      is accepted in any continuation, cleanup included. */
  lemma ReuseTerminatesTheUser(s: State, h: nat, later: seq<Step>, t: Token)
    requires Inv(s) && h in s.inflight && s.inflight[h].Terminating?
    requires t in s.rows && t.user == s.inflight[h].user
    ensures !Live(Next(s, Terminate(h)).rows, t)
    ensures !Accepts(Run(Next(s, Terminate(h)), later).rows, Run(Next(s, Terminate(h)), later).now, t)
  {
    assert RowOk(s, t);
    InvNext(s, Terminate(h));
    RevocationIsPermanent(Next(s, Terminate(h)), later, t);
  }

  /** RowExpired is an answer nobody receives: the JWT of a stored token always expires first. */
  lemma RowExpiryNeverAnswers(s: State, t: Token)
    requires Inv(s)
    ensures Verdict(s.rows, s.now, t) != Err(RowExpired)
  {
    if t in s.rows { assert RowOk(s, t); }
  }
}
