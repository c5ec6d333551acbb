/** CleanupExpiredTokens is invisible to refreshing clients and to session lists. */
module RefreshCleanup {
  import opened Prelude
  import opened RefreshTokens
  import opened RefreshProtocol

  function WithoutCleanup(steps: seq<Step>): seq<Step> {
    if steps == [] then []
    else if steps[0].CleanUp? then WithoutCleanup(steps[1..])
    else [steps[0]] + WithoutCleanup(steps[1..])
  }

  /** Cleanup cannot have reached the row of a recent token. */
  predicate Recent(t: Token, now: nat) {
    now <= t.IssuedAt() + CLEANUP_GRACE
  }

  predicate SucceededBy(rows: Table, t: Token, u: Token)
    requires t in rows && rows[t].replacedBy.Some?
  {
    u in rows && rows[u].id == rows[t].replacedBy.value && t.issuedSecond <= u.issuedSecond
  }

  /** Replacements exist and are no older than what they replace. */
  ghost predicate Ordered(s: State) {
    && (forall t :: t in s.rows && s.rows[t].replacedBy.Some? ==> exists u :: SucceededBy(s.rows, t, u))
    && (forall h :: h in s.inflight && s.inflight[h].Admitted? ==> s.inflight[h].token.issuedSecond <= SecondOf(s.now))
    && (forall h :: h in s.inflight && s.inflight[h].Linking? ==> LinkOrdered(s, s.inflight[h]))
  }

  predicate LinkOrdered(s: State, p: Phase)
    requires p.Linking?
  {
    && p.token.issuedSecond <= p.minted.issuedSecond
    && (p.newId != 0 ==>
          || (p.minted in s.rows && s.rows[p.minted].id == p.newId)
          || (LongGone(s, p.minted) && !IdExists(s.rows, p.newId)))
  }

  ghost predicate Sound(s: State) {
    Inv(s) && Ordered(s)
  }

  // ---- Ordered is kept, with and without cleanup ----

  lemma OrderedCarries(s: State, s': State)
    requires Sound(s) && s.now <= s'.now
    requires forall t :: t in s.rows ==> t in s'.rows && s'.rows[t].id == s.rows[t].id
    requires forall t :: t in s'.rows && s'.rows[t].replacedBy.Some? ==> t in s.rows && s'.rows[t].replacedBy == s.rows[t].replacedBy
    requires forall t :: t in s'.rows && t !in s.rows ==> t.issuedSecond == SecondOf(s.now) && s'.rows[t].id == s.nextId
    requires forall h :: h in s'.inflight && !s'.inflight[h].Terminating? ==> h in s.inflight && s'.inflight[h] == s.inflight[h]
    ensures Ordered(s')
  {
    forall t | t in s'.rows && s'.rows[t].replacedBy.Some? ensures exists u :: SucceededBy(s'.rows, t, u) {
      var u :| SucceededBy(s.rows, t, u);
      assert SucceededBy(s'.rows, t, u);
    }
    forall h | h in s'.inflight && s'.inflight[h].Admitted? ensures s'.inflight[h].token.issuedSecond <= SecondOf(s'.now) {
      Later(s.now, s'.now);
    }
    forall h | h in s'.inflight && s'.inflight[h].Linking? ensures LinkOrdered(s', s'.inflight[h]) {
      assert LinkOrdered(s, s.inflight[h]);
      assert PhaseOk(s, s.inflight[h]);
    }
  }

  lemma Later(t: nat, u: nat)
    requires t <= u
    ensures SecondOf(t) <= SecondOf(u)
  {}

  lemma OrderedPresent(s: State, h: nat, t: Token)
    requires Sound(s)
    ensures Ordered(DoPresent(s, h, t))
  {
    if h !in s.inflight && Accepts(s.rows, s.now, t) {
      assert RowOk(s, t);
      Later(s.rows[t].issuedAt, s.now);
      var s' := DoPresent(s, h, t);
      forall g | g in s'.inflight && s'.inflight[g].Linking? ensures LinkOrdered(s', s'.inflight[g]) {
        assert LinkOrdered(s, s.inflight[g]);
      }
    } else {
      OrderedCarries(s, DoPresent(s, h, t));
    }
  }

  lemma OrderedStore(s: State, h: nat, device: string)
    requires Sound(s) && h in s.inflight && s.inflight[h].Admitted?
    ensures Ordered(DoMint(s, h, Usable, device))
  {
    var s' := DoMint(s, h, Usable, device);
    var t := s.inflight[h].token;
    var n := Generate(t.user, t.org, s.now);
    var mid := s'.(inflight := s.inflight - {h});
    OrderedCarries(s, mid);
    var p := Linking(t, InsertedId(s.rows, s.nextId, n), n);
    assert s'.inflight == mid.inflight[h := p];
    assert LinkOrdered(s', p);
    OrderedEnters(mid, h, p);
  }

  lemma OrderedEnters(s: State, h: nat, p: Phase)
    requires Ordered(s) && h !in s.inflight && p.Linking? && LinkOrdered(s, p)
    ensures Ordered(s.(inflight := s.inflight[h := p]))
  {
    var s' := s.(inflight := s.inflight[h := p]);
    forall g | g in s'.inflight && s'.inflight[g].Linking? ensures LinkOrdered(s', s'.inflight[g]) {
      if g != h { assert LinkOrdered(s, s.inflight[g]); }
    }
  }

  lemma OrderedMint(s: State, h: nat, account: Account, device: string)
    requires Sound(s)
    ensures Ordered(DoMint(s, h, account, device))
  {
    if h in s.inflight && s.inflight[h].Admitted? && account.Usable? {
      OrderedStore(s, h, device);
    } else {
      OrderedCarries(s, DoMint(s, h, account, device));
    }
  }

  lemma OrderedLink(s: State, h: nat)
    requires Sound(s)
    ensures Ordered(DoLink(s, h))
  {
    var s' := DoLink(s, h);
    if h in s.inflight && s.inflight[h].Linking? {
      var p := s.inflight[h];
      if s'.rows == s.rows {
        OrderedCarries(s, s');
      } else {
        assert LinkOrdered(s, p) && PhaseOk(s, p);
        forall t | t in s'.rows && s'.rows[t].replacedBy.Some? ensures exists u :: SucceededBy(s'.rows, t, u) {
          if t == p.token {
            LinkTarget(s, p);
            assert SucceededBy(s'.rows, t, p.minted);
          } else {
            var u :| SucceededBy(s.rows, t, u);
            assert SucceededBy(s'.rows, t, u);
          }
        }
        forall g | g in s'.inflight && s'.inflight[g].Linking? ensures LinkOrdered(s', s'.inflight[g]) {
          assert LinkOrdered(s, s.inflight[g]);
        }
      }
    }
  }

  /** When the foreign key lets the link through, it names the row the handler stored. */
  lemma LinkTarget(s: State, p: Phase)
    requires Sound(s) && p.Linking? && LinkOrdered(s, p) && IdExists(s.rows, p.newId)
    ensures p.minted in s.rows && s.rows[p.minted].id == p.newId
  {
    assert forall t :: t in s.rows ==> RowOk(s, t);
  }

  /** A replacement that cleanup leaves in place names a row that cleanup has kept. */
  lemma SuccessorKept(s: State, t: Token)
    requires Sound(s) && t in Cleanup(s.rows, s.now) && Cleanup(s.rows, s.now)[t].replacedBy.Some?
    ensures exists u :: SucceededBy(Cleanup(s.rows, s.now), t, u)
  {
    var u :| SucceededBy(s.rows, t, u);
    var k :| k in s.rows && !Stale(s.rows[k], s.now) && s.rows[k].id == s.rows[t].replacedBy.value;
    assert k == u;
    assert SucceededBy(Cleanup(s.rows, s.now), t, u);
  }

  lemma LinkStaysOrdered(s: State, p: Phase)
    requires Sound(s) && p.Linking? && LinkOrdered(s, p)
    ensures LinkOrdered(Next(s, CleanUp), p)
  {
    InvCleanupRows(s);
  }

  lemma OrderedCleanup(s: State)
    requires Sound(s)
    ensures Ordered(Next(s, CleanUp))
  {
    var s' := Next(s, CleanUp);
    assert s' == s.(rows := Cleanup(s.rows, s.now));
    forall t | t in s'.rows && s'.rows[t].replacedBy.Some? ensures exists u :: SucceededBy(s'.rows, t, u) {
      SuccessorKept(s, t);
    }
    forall h | h in s'.inflight && s'.inflight[h].Linking? ensures LinkOrdered(s', s'.inflight[h]) {
      assert LinkOrdered(s, s.inflight[h]);
      LinkStaysOrdered(s, s.inflight[h]);
    }
  }

  lemma OrderedLogin(s: State, user: int, org: int, device: string)
    requires Sound(s)
    ensures Ordered(DoLogin(s, user, org, device))
  {
    OrderedCarries(s, DoLogin(s, user, org, device));
  }

  lemma OrderedRevoke(s: State, victims: set<Token>)
    requires Sound(s)
    ensures Ordered(DoRevoke(s, victims))
  {
    OrderedCarries(s, DoRevoke(s, victims));
  }

  lemma OrderedTerminate(s: State, h: nat)
    requires Sound(s)
    ensures Ordered(DoTerminate(s, h))
  {
    OrderedCarries(s, DoTerminate(s, h));
  }

  lemma OrderedNext(s: State, step: Step)
    requires Sound(s)
    ensures Ordered(Next(s, step))
  {
    match step
    case Advance(_) => OrderedCarries(s, Next(s, step));
    case Login(user, org, device) => OrderedLogin(s, user, org, device);
    case Logout(user) => OrderedRevoke(s, TokensOf(s.rows, user));
    case RevokeSession(user, id) => OrderedRevoke(s, SessionOf(s.rows, user, id));
    case RevokeOthers(user) => OrderedRevoke(s, TokensOf(s.rows, user));
    case CleanUp => OrderedCleanup(s);
    case Present(h, t) => OrderedPresent(s, h, t);
    case Mint(h, account, device) => OrderedMint(s, h, account, device);
    case Link(h) => OrderedLink(s, h);
    case Terminate(h) => OrderedTerminate(s, h);
  }

  // ---- the two runs side by side ----

  /** The runs agree on everything but rows too old for any JWT of theirs to be valid. */
  ghost predicate Alike(s: State, c: State) {
    && s.now == c.now && s.nextId == c.nextId && s.inflight == c.inflight && s.replies == c.replies
    && (forall t :: Recent(t, s.now) ==> SameRow(s.rows, c.rows, t))
  }

  predicate SameRow(a: Table, b: Table, t: Token) {
    (t in a <==> t in b) && (t in a ==> a[t] == b[t])
  }

  lemma AlikeRevoke(s: State, c: State, victims: set<Token>, victims': set<Token>)
    requires Alike(s, c)
    requires forall t :: Recent(t, s.now) ==> (t in victims <==> t in victims')
    ensures Alike(DoRevoke(s, victims), DoRevoke(c, victims'))
  {
    var s', c' := DoRevoke(s, victims), DoRevoke(c, victims');
    forall t | Recent(t, s.now) ensures SameRow(s'.rows, c'.rows, t) {
      assert SameRow(s.rows, c.rows, t);
    }
  }

  lemma AlikeVictims(s: State, c: State, user: int, id: nat)
    requires Alike(s, c)
    ensures forall t :: Recent(t, s.now) ==> (t in TokensOf(s.rows, user) <==> t in TokensOf(c.rows, user))
    ensures forall t :: Recent(t, s.now) ==> (t in SessionOf(s.rows, user, id) <==> t in SessionOf(c.rows, user, id))
  {
    forall t | Recent(t, s.now)
      ensures t in TokensOf(s.rows, user) <==> t in TokensOf(c.rows, user)
      ensures t in SessionOf(s.rows, user, id) <==> t in SessionOf(c.rows, user, id)
    {
      assert SameRow(s.rows, c.rows, t);
    }
  }

  /** A string generated now is recent, so both runs store it or both refuse it. */
  lemma AlikeInsert(s: State, c: State, n: Token, device: string)
    requires Alike(s, c) && n.issuedSecond == SecondOf(s.now)
    ensures n in s.rows <==> n in c.rows
    ensures forall t :: Recent(t, s.now) ==>
              SameRow(Insert(s.rows, s.nextId, n, device, s.now), Insert(c.rows, c.nextId, n, device, c.now), t)
  {
    assert Recent(n, s.now);
    assert SameRow(s.rows, c.rows, n);
    forall t | Recent(t, s.now)
      ensures SameRow(Insert(s.rows, s.nextId, n, device, s.now), Insert(c.rows, c.nextId, n, device, c.now), t)
    {
      assert SameRow(s.rows, c.rows, t);
    }
  }

  lemma AlikePresent(s: State, c: State, h: nat, t: Token)
    requires Alike(s, c)
    ensures Alike(DoPresent(s, h, t), DoPresent(c, h, t))
  {
    if s.now < t.Expiry() {
      assert Recent(t, s.now);
      assert SameRow(s.rows, c.rows, t);
    }
    assert Verdict(s.rows, s.now, t) == Verdict(c.rows, c.now, t);
  }

  lemma AlikeMint(s: State, c: State, h: nat, account: Account, device: string)
    requires Alike(s, c)
    ensures Alike(DoMint(s, h, account, device), DoMint(c, h, account, device))
  {
    if h in s.inflight && s.inflight[h].Admitted? && account.Usable? {
      var t := s.inflight[h].token;
      AlikeInsert(s, c, Generate(t.user, t.org, s.now), device);
    }
  }

  /** Where the old row is recent its successor is too, and the foreign key answers alike in both runs. */
  lemma AlikeLink(s: State, c: State, h: nat)
    requires Sound(s) && Sound(c) && Alike(s, c) && h in s.inflight && s.inflight[h].Linking?
    ensures Alike(DoLink(s, h), DoLink(c, h))
  {
    var p := s.inflight[h];
    var s', c' := DoLink(s, h), DoLink(c, h);
    if Recent(p.token, s.now) {
      assert LinkOrdered(s, p) && LinkOrdered(c, p);
      assert Recent(p.minted, s.now);
      assert SameRow(s.rows, c.rows, p.minted);
      assert IdExists(s.rows, p.newId) <==> IdExists(c.rows, p.newId) by {
        if IdExists(s.rows, p.newId) { LinkTarget(s, p); }
        if IdExists(c.rows, p.newId) { LinkTarget(c, p); }
      }
    }
    forall t | Recent(t, s.now) ensures SameRow(s'.rows, c'.rows, t) {
      assert SameRow(s.rows, c.rows, t);
    }
  }

  lemma AlikeTerminate(s: State, c: State, h: nat)
    requires Alike(s, c) && h in s.inflight && s.inflight[h].Terminating?
    ensures Alike(DoTerminate(s, h), DoTerminate(c, h))
  {
    var user := s.inflight[h].user;
    AlikeVictims(s, c, user, 0);
    AlikeRevoke(s, c, TokensOf(s.rows, user), TokensOf(c.rows, user));
  }

  lemma AlikeNext(s: State, c: State, step: Step)
    requires Sound(s) && Sound(c) && Alike(s, c) && !step.CleanUp?
    ensures Alike(Next(s, step), Next(c, step))
  {
    match step
    case Advance(d) =>
      forall t | Recent(t, s.now + d) ensures SameRow(s.rows, c.rows, t) {
        assert Recent(t, s.now);
      }
    case Login(user, org, device) => AlikeInsert(s, c, Generate(user, org, s.now), device);
    case Logout(user) =>
      AlikeVictims(s, c, user, 0);
      AlikeRevoke(s, c, TokensOf(s.rows, user), TokensOf(c.rows, user));
    case RevokeSession(user, id) =>
      AlikeVictims(s, c, user, id);
      AlikeRevoke(s, c, SessionOf(s.rows, user, id), SessionOf(c.rows, user, id));
    case RevokeOthers(user) =>
      AlikeVictims(s, c, user, 0);
      AlikeRevoke(s, c, TokensOf(s.rows, user), TokensOf(c.rows, user));
    case Present(h, t) => AlikePresent(s, c, h, t);
    case Mint(h, account, device) => AlikeMint(s, c, h, account, device);
    case Link(h) => if h in s.inflight && s.inflight[h].Linking? { AlikeLink(s, c, h); }
    case Terminate(h) => if h in s.inflight && s.inflight[h].Terminating? { AlikeTerminate(s, c, h); }
  }

  lemma AlikeCleanup(s: State, c: State)
    requires Sound(c) && Alike(s, c)
    ensures Alike(s, Next(c, CleanUp))
  {
    var c' := Next(c, CleanUp);
    forall t | Recent(t, s.now) ensures SameRow(s.rows, c'.rows, t) {
      assert SameRow(s.rows, c.rows, t);
      if t in c.rows {
        assert RowOk(c, t) && !Stale(c.rows[t], c.now);
        if c.rows[t].replacedBy.Some? {
          var u :| SucceededBy(c.rows, t, u);
          assert RowOk(c, u) && !Stale(c.rows[u], c.now);
        }
      }
    }
  }

  lemma {:induction false} AlikeRun(s: State, c: State, steps: seq<Step>)
    requires Sound(s) && Sound(c) && Alike(s, c)
    ensures Alike(Run(s, WithoutCleanup(steps)), Run(c, steps))
    ensures Sound(Run(s, WithoutCleanup(steps)))
    decreases |steps|
  {
    if steps != [] {
      var step := steps[0];
      InvNext(c, step);
      OrderedNext(c, step);
      if step.CleanUp? {
        AlikeCleanup(s, c);
        AlikeRun(s, Next(c, step), steps[1..]);
      } else {
        InvNext(s, step);
        OrderedNext(s, step);
        AlikeNext(s, c, step);
        AlikeRun(Next(s, step), Next(c, step), steps[1..]);
        assert WithoutCleanup(steps)[0] == step && WithoutCleanup(steps)[1..] == WithoutCleanup(steps[1..]);
      }
    }
  }

  /** With cleanup steps anywhere in a run, every refresh is answered as without them, and every user's
      active sessions, hence also their count, are the same. As each prefix is a run, this holds at every moment. */
  lemma CleanupIsInvisible(now: nat, steps: seq<Step>, user: int)
    ensures var plain, cleaned := Run(Fresh(now), WithoutCleanup(steps)), Run(Fresh(now), steps);
            && cleaned.replies == plain.replies
            && cleaned.now == plain.now
            && ActiveSessions(cleaned.rows, user, cleaned.now) == ActiveSessions(plain.rows, user, plain.now)
  {
    var plain, cleaned := Run(Fresh(now), WithoutCleanup(steps)), Run(Fresh(now), steps);
    AlikeRun(Fresh(now), Fresh(now), steps);
    InvRun(Fresh(now), steps);
    SameSessions(plain, cleaned, user);
  }

  lemma SameSessions(s: State, c: State, user: int)
    requires Inv(s) && Inv(c) && Alike(s, c)
    ensures ActiveSessions(c.rows, user, c.now) == ActiveSessions(s.rows, user, s.now)
  {
    forall t ensures SameRow(ActiveSessions(s.rows, user, s.now), ActiveSessions(c.rows, user, c.now), t) {
      if t in ActiveSessions(s.rows, user, s.now) { assert RowOk(s, t) && Recent(t, s.now); }
      if t in ActiveSessions(c.rows, user, c.now) { assert RowOk(c, t) && Recent(t, s.now); }
      if Recent(t, s.now) { assert SameRow(s.rows, c.rows, t); }
    }
    var a, b := ActiveSessions(s.rows, user, s.now), ActiveSessions(c.rows, user, c.now);
    assert forall t :: t in a <==> t in b by {
      forall t ensures t in a <==> t in b { assert SameRow(a, b, t); }
    }
    forall t | t in a ensures a[t] == b[t] { assert SameRow(a, b, t); }
  }
}
