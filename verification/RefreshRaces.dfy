/** What overlapping handlers can still do: fork a lineage, and bring back a session that was ended. */
module RefreshRaces {
  import opened Prelude
  import opened RefreshTokens
  import opened RefreshProtocol

  lemma RunThree(s: State, a: Step, b: Step, c: Step)
    ensures Run(s, [a, b, c]) == Next(Next(Next(s, a), b), c)
  {
    assert [a, b, c][1..] == [b, c] && [b, c][1..] == [c] && [c][1..] == [];
    assert Run(Next(Next(Next(s, a), b), c), []) == Next(Next(Next(s, a), b), c);
    assert Run(Next(Next(s, a), b), [c]) == Next(Next(Next(s, a), b), c);
    assert Run(Next(s, a), [b, c]) == Next(Next(Next(s, a), b), c);
  }

  lemma {:induction false} RunConcat(s: State, a: seq<Step>, b: seq<Step>)
    ensures Run(s, a + b) == Run(Run(s, a), b)
    decreases |a|
  {
    if a == [] {
      assert a + b == b;
    } else {
      RunConcat(Next(s, a[0]), a[1..], b);
      assert (a + b)[1..] == a[1..] + b;
    }
  }

  /** A string of the next second is not stored yet. */
  lemma NextSecondIsFresh(s: State, user: int, org: int)
    requires Inv(s)
    ensures Generate(user, org, s.now + SECOND) !in s.rows
  {
    assert forall t :: t in s.rows ==> RowOk(s, t);
    assert SecondOf(s.now) < SecondOf(s.now + SECOND);
    assert forall t :: t in s.rows ==> t.issuedSecond <= SecondOf(s.now) by {
      forall t | t in s.rows ensures t.issuedSecond <= SecondOf(s.now) {
        assert SecondOf(s.rows[t].issuedAt) <= SecondOf(s.now);
      }
    }
  }

  /** A second later an admitted handler of a usable account stores a new live row. */
  lemma AdmittedMints(s: State, h: nat, t: Token)
    requires Inv(s) && h in s.inflight && s.inflight[h] == Admitted(t)
    ensures var n := Generate(t.user, t.org, s.now + SECOND);
            var s' := Next(Next(s, Advance(SECOND)), Mint(h, Usable, ""));
            && n !in s.rows
            && s'.rows == s.rows[n := Row(s.nextId, t.user, "", s.now + SECOND, s.now + SECOND + REFRESH_LIFETIME, None, None, s.now + SECOND)]
            && s'.inflight == s.inflight[h := Linking(t, s.nextId, n)]
            && (t in s.origin ==> s'.origin == s.origin[n := s.origin[t]])
  {
    NextSecondIsFresh(s, t.user, t.org);
  }

  function RefreshSteps(h: nat): seq<Step> {
    [Advance(SECOND), Mint(h, Usable, ""), Link(h)]
  }

  /** `n` is a new live token of `t`'s lineage, the handler is gone, and every row but `t`'s is as it was. */
  ghost predicate Exchanged(s: State, s': State, h: nat, t: Token, n: Token) {
    && n !in s.rows && Live(s'.rows, n) && t in s'.rows && t in s.origin
    && s'.origin == s.origin[n := s.origin[t]] && s'.inflight == s.inflight - {h}
    && forall u :: u in s.rows && u != t ==> u in s'.rows && s'.rows[u] == s.rows[u]
  }

  lemma LinkExchanges(s: State, h: nat, t: Token, id: nat, n: Token)
    requires h in s.inflight && s.inflight[h] == Linking(t, id, n) && n in s.rows && s.rows[n].id == id && t in s.rows
    ensures var s' := Next(s, Link(h));
            && t in s'.rows && s'.inflight == s.inflight - {h} && s'.origin == s.origin
            && forall u :: u in s.rows && u != t ==> u in s'.rows && s'.rows[u] == s.rows[u]
  {
    assert IdExists(s.rows, id);
  }

  /** And links it to the token it was admitted with. */
  lemma AdmittedLinks(s: State, h: nat, t: Token)
    requires Inv(s) && h in s.inflight && s.inflight[h] == Admitted(t) && t in s.rows && t in s.origin
    ensures Exchanged(s, Run(s, RefreshSteps(h)), h, t, Generate(t.user, t.org, s.now + SECOND))
  {
    var n := Generate(t.user, t.org, s.now + SECOND);
    var mid := Next(Next(s, Advance(SECOND)), Mint(h, Usable, ""));
    AdmittedMints(s, h, t);
    LinkExchanges(mid, h, t, s.nextId, n);
    RunThree(s, Advance(SECOND), Mint(h, Usable, ""), Link(h));
    assert mid.inflight - {h} == s.inflight - {h};
  }

  lemma ExchangedTwice(s: State, mid: State, end: State, g: nat, h: nat, t: Token, m: Token, n: Token)
    requires t in s.rows && Exchanged(s, mid, g, t, m) && Exchanged(mid, end, h, t, n)
    ensures end.inflight == s.inflight - {g} - {h}
    ensures m != n && Live(end.rows, m) && Live(end.rows, n)
    ensures m in end.origin && n in end.origin && end.origin[m] == end.origin[n] == s.origin[t]
  {
    assert m in mid.rows && m != t;
  }

  /** Whenever two handlers have been admitted with one token, a continuation leaves two distinct live tokens of its
      lineage and neither handler in flight. */
  lemma OverlappingRefreshesFork(s: State, g: nat, h: nat, t: Token)
    requires Inv(s) && g != h && g in s.inflight && h in s.inflight
    requires s.inflight[g] == s.inflight[h] == Admitted(t) && t in s.rows && t in s.origin
    ensures var s' := Run(s, RefreshSteps(g) + RefreshSteps(h));
            && s'.inflight == s.inflight - {g} - {h}
            && exists m, n :: m != n && Live(s'.rows, m) && Live(s'.rows, n)
                 && m in s'.origin && n in s'.origin && s'.origin[m] == s'.origin[n] == s.origin[t]
  {
    var mid := Run(s, RefreshSteps(g));
    var end := Run(mid, RefreshSteps(h));
    AdmittedLinks(s, g, t);
    InvRun(s, RefreshSteps(g));
    AdmittedLinks(mid, h, t);
    ExchangedTwice(s, mid, end, g, h, t, Generate(t.user, t.org, s.now + SECOND), Generate(t.user, t.org, mid.now + SECOND));
    RunConcat(s, RefreshSteps(g), RefreshSteps(h));
  }

  lemma StoredThenAdmitted(s: State, g: nat, h: nat, t: Token, id: nat, m: Token)
    requires Inv(s) && g != h && g in s.inflight && h in s.inflight
    requires s.inflight[g] == Linking(t, id, m) && s.inflight[h] == Admitted(t) && t in s.rows && t in s.origin
    requires id != 0 && Live(s.rows, m) && s.rows[m].id == id && m in s.origin && s.origin[m] == s.origin[t]
    ensures var s' := Run(s, [Link(g)] + RefreshSteps(h));
            && s'.inflight == s.inflight - {g} - {h}
            && Live(s'.rows, m)
            && exists n :: n != m && Live(s'.rows, n) && n in s'.origin && m in s'.origin
                 && s'.origin[n] == s'.origin[m] == s.origin[t]
  {
    var mid := Next(s, Link(g));
    assert PhaseOk(s, s.inflight[g]);
    assert m != t;
    LinkExchanges(s, g, t, id, m);
    InvNext(s, Link(g));
    AdmittedLinks(mid, h, t);
    var end := Run(mid, RefreshSteps(h));
    assert ([Link(g)] + RefreshSteps(h))[1..] == RefreshSteps(h);
    assert Run(s, [Link(g)] + RefreshSteps(h)) == end;
    LinkedThenExchanged(s, mid, end, g, h, t, m, Generate(t.user, t.org, mid.now + SECOND));
  }

  lemma LinkedThenExchanged(s: State, mid: State, end: State, g: nat, h: nat, t: Token, m: Token, n: Token)
    requires m != t && Live(s.rows, m) && m in s.origin && t in s.origin && s.origin[m] == s.origin[t]
    requires mid.origin == s.origin && mid.inflight == s.inflight - {g} && m in mid.rows && mid.rows[m] == s.rows[m]
    requires Exchanged(mid, end, h, t, n)
    ensures end.inflight == s.inflight - {g} - {h}
    ensures m != n && Live(end.rows, m) && Live(end.rows, n)
    ensures m in end.origin && n in end.origin && end.origin[m] == end.origin[n] == s.origin[t]
  {}

  /** Every row, and every token being refreshed, belongs to some login's lineage. */
  ghost predicate Rooted(s: State) {
    && s.nextId >= 1 && s.rows.Keys <= s.origin.Keys
    && forall h :: h in s.inflight && s.inflight[h].Admitted? ==> s.inflight[h].token in s.origin
  }

  lemma {:induction false} RootedRun(s: State, steps: seq<Step>)
    requires Rooted(s)
    ensures Rooted(Run(s, steps))
    decreases |steps|
  {
    if steps != [] {
      RootedNext(s, steps[0]);
      RootedRun(Next(s, steps[0]), steps[1..]);
    }
  }

  lemma RootedNext(s: State, step: Step)
    requires Rooted(s)
    ensures Rooted(Next(s, step))
  {}

  /** So in every reachable state every accepted token, presented twice before either handler goes on, can fork its
      lineage. */
  lemma AnyAcceptedTokenCanFork(now: nat, before: seq<Step>, g: nat, h: nat, t: Token)
    requires var s := Run(Fresh(now), before);
             g != h && g !in s.inflight && h !in s.inflight && Accepts(s.rows, s.now, t)
    ensures var s := Run(Fresh(now), before);
            var s' := Run(s, [Present(g, t), Present(h, t)] + (RefreshSteps(g) + RefreshSteps(h)));
            && t in s.origin
            && exists m, n :: m != n && Live(s'.rows, m) && Live(s'.rows, n)
                 && m in s'.origin && n in s'.origin && s'.origin[m] == s'.origin[n] == s.origin[t]
  {
    var s := Run(Fresh(now), before);
    var a := [Present(g, t), Present(h, t)];
    InvFresh(now);
    InvRun(Fresh(now), before);
    RootedRun(Fresh(now), before);
    InvRun(s, a);
    BothAdmitted(s, g, h, t);
    RunConcat(s, a, RefreshSteps(g) + RefreshSteps(h));
    OverlappingRefreshesFork(Run(s, a), g, h, t);
  }

  lemma BothAdmitted(s: State, g: nat, h: nat, t: Token)
    requires g != h && g !in s.inflight && h !in s.inflight && Accepts(s.rows, s.now, t)
    ensures Run(s, [Present(g, t), Present(h, t)]) == s.(inflight := s.inflight[g := Admitted(t)][h := Admitted(t)])
  {
    var a := [Present(g, t), Present(h, t)];
    var s1 := Next(s, Present(g, t));
    var s2 := Next(s1, Present(h, t));
    assert a[1..] == [Present(h, t)] && a[1..][1..] == [];
    assert Run(s2, []) == s2 && Run(s1, a[1..]) == s2;
  }

  /** A stored successor belongs to the lineage of the token its handler holds. */
  ghost predicate Descended(s: State, p: Phase) {
    p.Linking? && p.newId != 0 && p.minted in s.rows && s.rows[p.minted].id == p.newId ==>
      p.token in s.origin && p.minted in s.origin && s.origin[p.minted] == s.origin[p.token]
  }

  ghost predicate AllDescended(s: State) {
    forall h :: h in s.inflight ==> Descended(s, s.inflight[h])
  }

  /** A token that is stored, or too old to be generated again, keeps its lineage. */
  lemma OriginKept(s: State, step: Step, t: Token)
    requires t in s.origin && (t in s.rows || LongGone(s, t))
    ensures t in Next(s, step).origin && Next(s, step).origin[t] == s.origin[t]
  {}

  lemma RowKept(s: State, step: Step, t: Token, id: nat)
    requires id < s.nextId && t in Next(s, step).rows && Next(s, step).rows[t].id == id
    ensures t in s.rows && s.rows[t].id == id
  {}

  lemma StaysDescended(s: State, step: Step, h: nat)
    requires Inv(s) && AllDescended(s) && h in s.inflight
    ensures Descended(Next(s, step), s.inflight[h])
  {
    var p, s' := s.inflight[h], Next(s, step);
    assert PhaseOk(s, p) && Descended(s, p);
    if p.Linking? && p.newId != 0 && p.minted in s'.rows && s'.rows[p.minted].id == p.newId {
      RowKept(s, step, p.minted, p.newId);
      OriginKept(s, step, p.minted);
      OriginKept(s, step, p.token);
    }
  }

  lemma StoresDescended(s: State, h: nat, device: string)
    requires Inv(s) && Rooted(s) && h in s.inflight && s.inflight[h].Admitted?
    ensures Descended(DoMint(s, h, Usable, device), DoMint(s, h, Usable, device).inflight[h])
  {}

  lemma OnlyMintLinks(s: State, step: Step, h: nat)
    requires h in Next(s, step).inflight && !(step.Mint? && step.h == h && step.account.Usable?)
    ensures var p := Next(s, step).inflight[h];
            (h in s.inflight && p == s.inflight[h]) || !p.Linking?
  {}

  /** A handler comes to stand before its link only by storing a successor of its own lineage. */
  lemma NewlyDescended(s: State, step: Step, h: nat)
    requires Inv(s) && Rooted(s) && h in Next(s, step).inflight
    ensures var s' := Next(s, step);
            (h in s.inflight && s'.inflight[h] == s.inflight[h]) || Descended(s', s'.inflight[h])
  {
    if step.Mint? && step.h == h && step.account.Usable? {
      assert Next(s, step) == DoMint(s, h, Usable, step.device);
      if h in s.inflight && s.inflight[h].Admitted? { StoresDescended(s, h, step.device); }
    } else {
      OnlyMintLinks(s, step, h);
    }
  }

  lemma {:induction false} DescendedRun(s: State, steps: seq<Step>)
    requires Inv(s) && Rooted(s) && AllDescended(s)
    ensures AllDescended(Run(s, steps))
    decreases |steps|
  {
    if steps != [] {
      var s' := Next(s, steps[0]);
      InvNext(s, steps[0]);
      RootedNext(s, steps[0]);
      forall h | h in s'.inflight ensures Descended(s', s'.inflight[h]) {
        NewlyDescended(s, steps[0], h);
        if h in s.inflight { StaysDescended(s, steps[0], h); }
      }
      DescendedRun(s', steps[1..]);
    }
  }

  /** In every reachable state, when one handler has stored its successor `m` and not linked it, and another has been
      admitted with the same token, linking the one and running the other leaves `m` and a second live token of the
      lineage. */
  lemma StoredThenAdmittedForks(now: nat, before: seq<Step>, g: nat, h: nat, t: Token, id: nat, m: Token)
    requires var s := Run(Fresh(now), before);
             && g in s.inflight && s.inflight[g] == Linking(t, id, m) && h in s.inflight && s.inflight[h] == Admitted(t)
             && t in s.rows && id != 0 && Live(s.rows, m) && s.rows[m].id == id
    ensures var s := Run(Fresh(now), before);
            var s' := Run(s, [Link(g)] + RefreshSteps(h));
            && t in s.origin && s'.inflight == s.inflight - {g} - {h} && Live(s'.rows, m)
            && exists n :: n != m && Live(s'.rows, n) && n in s'.origin && m in s'.origin
                 && s'.origin[n] == s'.origin[m] == s.origin[t]
  {
    var s := Run(Fresh(now), before);
    InvFresh(now);
    InvRun(Fresh(now), before);
    RootedRun(Fresh(now), before);
    DescendedRun(Fresh(now), before);
    assert Descended(s, s.inflight[g]);
    StoredThenAdmitted(s, g, h, t, id, m);
  }

  // ---- sessions after they were all ended ----

  ghost predicate HasSession(s: State, user: int) {
    exists t :: Live(s.rows, t) && t.user == user
  }

  ghost predicate Refreshing(s: State, user: int) {
    exists h :: h in s.inflight && s.inflight[h].Admitted? && s.inflight[h].token.user == user
  }

  predicate NoLogin(steps: seq<Step>, user: int) {
    forall i :: 0 <= i < |steps| ==> !(steps[i].Login? && steps[i].user == user)
  }

  /** Logout and reuse detection leave the user without a session. */
  lemma EndingSessions(s: State, user: int, h: nat)
    requires Inv(s)
    ensures !HasSession(Next(s, Logout(user)), user)
    ensures h in s.inflight && s.inflight[h] == Terminating(user) ==> !HasSession(Next(s, Terminate(h)), user)
  {
    assert forall t :: t in s.rows ==> RowOk(s, t);
  }

  lemma NoNewSession(s: State, step: Step, t: Token)
    requires !Refreshing(s, t.user) && !(step.Login? && step.user == t.user)
    ensures Live(Next(s, step).rows, t) ==> Live(s.rows, t)
  {}

  lemma NoNewRefresh(s: State, step: Step, h: nat)
    ensures var inflight := Next(s, step).inflight;
            h in inflight && inflight[h].Admitted? ==>
              (h in s.inflight && inflight[h] == s.inflight[h]) || Live(s.rows, inflight[h].token)
  {}

  lemma StaysEnded(s: State, step: Step, user: int)
    requires !HasSession(s, user) && !Refreshing(s, user)
    requires !(step.Login? && step.user == user)
    ensures !HasSession(Next(s, step), user) && !Refreshing(Next(s, step), user)
  {
    var s' := Next(s, step);
    forall t: Token | t.user == user ensures Live(s'.rows, t) ==> Live(s.rows, t) { NoNewSession(s, step, t); }
    forall h: nat
      ensures h in s'.inflight && s'.inflight[h].Admitted? ==>
                (h in s.inflight && s'.inflight[h] == s.inflight[h]) || Live(s.rows, s'.inflight[h].token)
    {
      NoNewRefresh(s, step, h);
    }
  }

  lemma {:induction false} StaysEndedRun(s: State, steps: seq<Step>, user: int)
    requires !HasSession(s, user) && !Refreshing(s, user) && NoLogin(steps, user)
    ensures !HasSession(Run(s, steps), user)
    decreases |steps|
  {
    if steps != [] {
      StaysEnded(s, steps[0], user);
      StaysEndedRun(Next(s, steps[0]), steps[1..], user);
    }
  }

  /** A user whose sessions have all been ended, and who does not log in again, can have one again exactly when a
      refresh of that user admitted before is still in flight. */
  lemma SessionsReturnExactly(s: State, user: int)
    requires Inv(s) && !HasSession(s, user)
    ensures (exists steps :: NoLogin(steps, user) && HasSession(Run(s, steps), user)) <==> Refreshing(s, user)
  {
    if Refreshing(s, user) {
      var h :| h in s.inflight && s.inflight[h].Admitted? && s.inflight[h].token.user == user;
      var t := s.inflight[h].token;
      var steps := [Advance(SECOND), Mint(h, Usable, "")];
      var s1 := Next(s, Advance(SECOND));
      var s2 := Next(s1, Mint(h, Usable, ""));
      AdmittedMints(s, h, t);
      assert steps[1..] == [Mint(h, Usable, "")] && steps[1..][1..] == [];
      assert Run(s2, []) == s2 && Run(s1, steps[1..]) == s2 && Run(s, steps) == s2;
      assert Live(s2.rows, Generate(t.user, t.org, s.now + SECOND));
      assert NoLogin(steps, user) && HasSession(Run(s, steps), user);
    } else {
      forall steps | NoLogin(steps, user) ensures !HasSession(Run(s, steps), user) {
        StaysEndedRun(s, steps, user);
      }
    }
  }
}
