/** Lineages: the tokens descended from one login. Refreshes of one token do not overlap here; everything
    else, refreshes of different tokens and cleanup included, interleaves freely. */
module RefreshLineage {
  import opened Prelude
  import opened RefreshTokens
  import opened RefreshProtocol
  import opened RefreshCleanup

  predicate Stored(p: Phase) {
    p.Linking? && p.newId != 0
  }

  /** Tokens whose successor a handler has stored and not yet linked. */
  function MidLink(inflight: map<nat, Phase>): set<Token> {
    set h | h in inflight && Stored(inflight[h]) :: inflight[h].token
  }

  /** Tokens a handler has been admitted with, no successor being stored. */
  function Reserved(inflight: map<nat, Phase>): set<Token> {
    set h | h in inflight && !inflight[h].Terminating? && !Stored(inflight[h]) :: inflight[h].token
  }

  /** A token is not presented while a handler is refreshing it. */
  predicate Apart(s: State, step: Step) {
    step.Present? && step.h !in s.inflight ==> step.token !in MidLink(s.inflight) + Reserved(s.inflight)
  }

  predicate NonOverlapping(s: State, steps: seq<Step>)
    decreases |steps|
  {
    steps == [] || (Apart(s, steps[0]) && NonOverlapping(Next(s, steps[0]), steps[1..]))
  }

  /** The guard of the branch that fails: cleanup has deleted the successor a handler is about to link, and the foreign
      key refuses the UPDATE that would have revoked the handler's live token. */
  predicate LateLink(s: State, step: Step) {
    && step.Link? && step.h in s.inflight && Stored(s.inflight[step.h])
    && !IdExists(s.rows, s.inflight[step.h].newId)
    && Live(s.rows, s.inflight[step.h].token)
  }

  predicate NoLateLink(s: State, steps: seq<Step>)
    decreases |steps|
  {
    steps == [] || (!LateLink(s, steps[0]) && NoLateLink(Next(s, steps[0]), steps[1..]))
  }

  // ---- the part of a state that lineages depend on ----

  datatype View = View(rows: Table, origin: map<Token, nat>, bound: nat, now: nat, mid: set<Token>,
                       reserved: set<Token>, redeemed: seq<Token>)

  function ViewOf(s: State): View {
    View(s.rows, s.origin, s.nextId, s.now, MidLink(s.inflight), Reserved(s.inflight), s.redeemed)
  }

  /** `t` takes a seat of its lineage: it is live, or being refreshed, and no successor of it is stored. With `all`
      unset, a token that no handler holds counts only while it is recent. */
  predicate Seat(v: View, t: Token, all: bool) {
    t in v.origin && (t in v.reserved || (Live(v.rows, t) && t !in v.mid && (all || Recent(t, v.now))))
  }

  ghost predicate OneSeat(v: View, all: bool) {
    forall t, u :: Seat(v, t, all) && Seat(v, u, all) && v.origin[t] == v.origin[u] ==> t == u
  }

  /** A token without a row is too old for its string to be generated again, and a redeemed one cannot be presented. */
  ghost predicate ViewOk(v: View) {
    && v.rows.Keys <= v.origin.Keys
    && v.mid <= v.origin.Keys && v.reserved <= v.origin.Keys && v.mid !! v.reserved
    && (forall t :: t in v.origin ==> v.origin[t] < v.bound && (t in v.rows || !Recent(t, v.now)))
    && (forall i, j :: 0 <= i < j < |v.redeemed| ==> v.redeemed[i] != v.redeemed[j])
    && (forall t :: t in v.redeemed ==>
          t in v.origin && t !in v.reserved && (t in v.mid || !Live(v.rows, t) || !Recent(t, v.now)))
  }

  ghost predicate SeatsOk(v: View, all: bool) {
    ViewOk(v) && OneSeat(v, all)
  }

  /** Tokens are revoked or deleted, handlers leave and time passes: nobody gains a seat. */
  lemma ViewShrinks(v: View, v': View, all: bool)
    requires SeatsOk(v, all)
    requires v'.rows.Keys <= v.rows.Keys && v'.origin == v.origin && v.bound <= v'.bound && v'.redeemed == v.redeemed
    requires v.now <= v'.now && v'.mid <= v.mid && v'.reserved <= v.reserved
    requires forall t :: t in v.rows && t !in v'.rows ==> !Recent(t, v'.now)
    requires forall t :: Live(v'.rows, t) ==> Live(v.rows, t)
    requires forall t :: t in v.mid && Live(v'.rows, t) ==> t in v'.mid || (!all && !Recent(t, v'.now))
    ensures SeatsOk(v', all)
  {
    assert forall t :: Recent(t, v'.now) ==> Recent(t, v.now);
    assert forall t :: Seat(v', t, all) ==> Seat(v, t, all);
  }

  function Begun(v: View, n: Token, row: Row): View {
    v.(rows := v.rows[n := row], origin := v.origin[n := v.bound], bound := v.bound + 1)
  }

  lemma ViewBegins(v: View, n: Token, row: Row)
    requires ViewOk(v) && n !in v.origin
    ensures ViewOk(Begun(v, n, row))
  {}

  /** The new token's lineage has no other. */
  lemma ViewLogin(v: View, n: Token, row: Row, all: bool)
    requires SeatsOk(v, all) && n !in v.origin
    ensures SeatsOk(Begun(v, n, row), all)
  {
    var v' := Begun(v, n, row);
    ViewBegins(v, n, row);
    forall t | t != n && Seat(v', t, all) ensures Seat(v, t, all) && v'.origin[t] == v.origin[t] < v'.origin[n] {}
  }

  lemma ViewAdmit(v: View, t: Token, all: bool)
    requires SeatsOk(v, all) && Live(v.rows, t) && t !in v.mid && Recent(t, v.now)
    ensures SeatsOk(v.(reserved := v.reserved + {t}), all)
  {
    var v' := v.(reserved := v.reserved + {t});
    assert forall u :: Seat(v', u, all) ==> Seat(v, u, all);
  }

  function Minted(v: View, t: Token, n: Token, row: Row): View
    requires t in v.origin
  {
    v.(rows := v.rows[n := row], origin := v.origin[n := v.origin[t]], bound := v.bound + 1, mid := v.mid + {t},
       reserved := v.reserved - {t}, redeemed := v.redeemed + [t])
  }

  /** The successor `n` takes over the seat of `t`. */
  lemma ViewMint(v: View, t: Token, n: Token, row: Row, all: bool)
    requires SeatsOk(v, all) && t in v.reserved && n !in v.origin
    ensures SeatsOk(Minted(v, t, n, row), all)
  {
    var v' := Minted(v, t, n, row);
    assert Seat(v, t, all);
    forall u | u != n && Seat(v', u, all) ensures Seat(v, u, all) && u != t && v'.origin[u] == v.origin[u] {}
    forall u | u != n && Seat(v', u, all) ensures v'.origin[u] != v'.origin[n] {
      assert Seat(v, u, all);
    }
  }

  // ---- handlers ----

  ghost predicate Distinct(inflight: map<nat, Phase>) {
    forall h, g :: h in inflight && g in inflight && !inflight[h].Terminating? && !inflight[g].Terminating? ==>
      inflight[h].token == inflight[g].token ==> h == g
  }

  ghost predicate LineageInv(s: State, all: bool) {
    Distinct(s.inflight) && SeatsOk(ViewOf(s), all)
  }

  lemma HandlerLeaves(inflight: map<nat, Phase>, h: nat)
    requires Distinct(inflight) && h in inflight
    ensures Distinct(inflight - {h})
    ensures inflight[h].Terminating? ==>
              MidLink(inflight - {h}) == MidLink(inflight) && Reserved(inflight - {h}) == Reserved(inflight)
    ensures Stored(inflight[h]) ==>
              && inflight[h].token in MidLink(inflight)
              && MidLink(inflight - {h}) == MidLink(inflight) - {inflight[h].token}
              && Reserved(inflight - {h}) == Reserved(inflight)
    ensures !inflight[h].Terminating? && !Stored(inflight[h]) ==>
              && inflight[h].token in Reserved(inflight)
              && MidLink(inflight - {h}) == MidLink(inflight)
              && Reserved(inflight - {h}) == Reserved(inflight) - {inflight[h].token}
  {
    var rest := inflight - {h};
    assert forall g :: g in rest <==> g in inflight && g != h;
    assert forall g :: g in rest ==> rest[g] == inflight[g];
    if !inflight[h].Terminating? {
      var t := inflight[h].token;
      assert t in MidLink(inflight) + Reserved(inflight);
      assert MidLink(inflight) - {t} == MidLink(rest) && Reserved(inflight) - {t} == Reserved(rest);
      forall g | g in inflight && g != h && !inflight[g].Terminating? ensures inflight[g].token != t {}
    } else {
      assert MidLink(rest) == MidLink(inflight) && Reserved(rest) == Reserved(inflight);
    }
  }

  lemma HandlerEnters(inflight: map<nat, Phase>, h: nat, p: Phase)
    requires Distinct(inflight) && h !in inflight
    requires p.Terminating? || p.token !in MidLink(inflight) + Reserved(inflight)
    ensures Distinct(inflight[h := p])
    ensures p.Terminating? ==> MidLink(inflight[h := p]) == MidLink(inflight) && Reserved(inflight[h := p]) == Reserved(inflight)
    ensures Stored(p) ==>
              MidLink(inflight[h := p]) == MidLink(inflight) + {p.token} && Reserved(inflight[h := p]) == Reserved(inflight)
    ensures !p.Terminating? && !Stored(p) ==>
              MidLink(inflight[h := p]) == MidLink(inflight) && Reserved(inflight[h := p]) == Reserved(inflight) + {p.token}
  {
    forall g | g in inflight && !inflight[g].Terminating? && !p.Terminating? ensures inflight[g].token != p.token {
      assert inflight[g].token in MidLink(inflight) + Reserved(inflight);
    }
    var q := inflight[h := p];
    assert forall g :: g in inflight ==> q[g] == inflight[g];
    assert q[h] == p;
    assert MidLink(q) == MidLink(inflight) + if Stored(p) then {p.token} else {};
    assert Reserved(q) == Reserved(inflight) + if !p.Terminating? && !Stored(p) then {p.token} else {};
  }

  /** A handler moves on while holding the same token. */
  lemma HandlerMoves(inflight: map<nat, Phase>, h: nat, p: Phase)
    requires Distinct(inflight) && h in inflight && inflight[h].Admitted? && p.Linking? && p.token == inflight[h].token
    ensures Distinct(inflight[h := p]) && p.token in Reserved(inflight)
    ensures Stored(p) ==>
              && MidLink(inflight[h := p]) == MidLink(inflight) + {p.token}
              && Reserved(inflight[h := p]) == Reserved(inflight) - {p.token}
    ensures !Stored(p) ==>
              MidLink(inflight[h := p]) == MidLink(inflight) && Reserved(inflight[h := p]) == Reserved(inflight)
  {
    HandlerLeaves(inflight, h);
    var rest := inflight - {h};
    assert p.token !in MidLink(rest) + Reserved(rest);
    HandlerEnters(rest, h, p);
    assert rest[h := p] == inflight[h := p];
  }

  // ---- steps ----

  /** Rows only leave, nobody gains a seat, and every handler that stays is as it was. */
  lemma LineageCarries(s: State, s': State, all: bool)
    requires LineageInv(s, all) && Distinct(s'.inflight)
    requires s'.origin == s.origin && s.nextId <= s'.nextId && s.now <= s'.now && s'.redeemed == s.redeemed
    requires s'.rows.Keys <= s.rows.Keys && forall t :: Live(s'.rows, t) ==> Live(s.rows, t)
    requires forall t :: t in s.rows && t !in s'.rows ==> !Recent(t, s'.now)
    requires MidLink(s'.inflight) <= MidLink(s.inflight) && Reserved(s'.inflight) <= Reserved(s.inflight)
    requires forall t :: t in MidLink(s.inflight) && Live(s'.rows, t) ==>
               t in MidLink(s'.inflight) || (!all && !Recent(t, s'.now))
    ensures LineageInv(s', all)
  {
    ViewShrinks(ViewOf(s), ViewOf(s'), all);
  }

  lemma LineageRevoke(s: State, victims: set<Token>, all: bool)
    requires LineageInv(s, all)
    ensures LineageInv(DoRevoke(s, victims), all)
  {
    LineageCarries(s, DoRevoke(s, victims), all);
  }

  lemma LineageCleanup(s: State, all: bool)
    requires Inv(s) && LineageInv(s, all)
    ensures LineageInv(Next(s, CleanUp), all)
  {
    var s' := Next(s, CleanUp);
    InvCleanupRows(s);
    assert forall t :: t in s.rows && t !in s'.rows ==> LongGone(s', t);
    LineageCarries(s, s', all);
  }

  /** A string generated now belongs to no lineage yet, unless it is stored. */
  lemma NewString(s: State, n: Token, all: bool)
    requires LineageInv(s, all) && n !in s.rows && n.issuedSecond == SecondOf(s.now)
    ensures n !in s.origin
  {
    assert Recent(n, s.now);
    assert n in ViewOf(s).origin ==> n in s.rows || !Recent(n, s.now);
  }

  /** A login's INSERT begins a lineage. */
  lemma LineageLogin(s: State, user: int, org: int, device: string, all: bool)
    requires LineageInv(s, all)
    ensures LineageInv(DoLogin(s, user, org, device), all)
  {
    var s' := DoLogin(s, user, org, device);
    var n := Generate(user, org, s.now);
    if n !in s.rows {
      NewString(s, n, all);
      ViewLogin(ViewOf(s), n, s'.rows[n], all);
      assert ViewOf(s') == Begun(ViewOf(s), n, s'.rows[n]);
    } else {
      LineageCarries(s, s', all);
    }
  }

  lemma LineagePresent(s: State, h: nat, t: Token, all: bool)
    requires LineageInv(s, all) && Apart(s, Present(h, t))
    ensures LineageInv(DoPresent(s, h, t), all)
  {
    var s' := DoPresent(s, h, t);
    if h !in s.inflight {
      if Verdict(s.rows, s.now, t).Ok? {
        HandlerEnters(s.inflight, h, Verdict(s.rows, s.now, t).value);
        if Accepts(s.rows, s.now, t) {
          ViewAdmit(ViewOf(s), t, all);
          assert ViewOf(s') == ViewOf(s).(reserved := Reserved(s.inflight) + {t});
        } else {
          assert ViewOf(s') == ViewOf(s);
        }
      } else {
        assert s'.inflight == s.inflight;
        assert ViewOf(s') == ViewOf(s);
      }
    }
  }

  lemma LineageRefused(s: State, h: nat, account: Account, device: string, all: bool)
    requires LineageInv(s, all) && h in s.inflight && s.inflight[h].Admitted? && !account.Usable?
    ensures LineageInv(DoMint(s, h, account, device), all)
  {
    HandlerLeaves(s.inflight, h);
    LineageCarries(s, DoMint(s, h, account, device), all);
  }

  /** The INSERT met an existing row: the handler holds its token on, with nothing stored. */
  lemma LineageMintDuplicate(s: State, h: nat, device: string, all: bool)
    requires LineageInv(s, all) && h in s.inflight && s.inflight[h].Admitted?
    requires Generate(s.inflight[h].token.user, s.inflight[h].token.org, s.now) in s.rows
    ensures LineageInv(DoMint(s, h, Usable, device), all)
  {
    var s' := DoMint(s, h, Usable, device);
    var t := s.inflight[h].token;
    var p := Linking(t, 0, Generate(t.user, t.org, s.now));
    HandlerMoves(s.inflight, h, p);
    assert s' == s.(nextId := s.nextId + 1, inflight := s.inflight[h := p]);
    LineageCarries(s, s', all);
  }

  lemma LineageMint(s: State, h: nat, device: string, all: bool)
    requires s.nextId >= 1 && LineageInv(s, all) && h in s.inflight && s.inflight[h].Admitted?
    requires Generate(s.inflight[h].token.user, s.inflight[h].token.org, s.now) !in s.rows
    ensures LineageInv(DoMint(s, h, Usable, device), all)
  {
    var s' := DoMint(s, h, Usable, device);
    var t := s.inflight[h].token;
    var n := Generate(t.user, t.org, s.now);
    NewString(s, n, all);
    HandlerMoves(s.inflight, h, Linking(t, s.nextId, n));
    assert t in s.origin by { assert ViewOf(s).reserved <= s.origin.Keys; }
    ViewMint(ViewOf(s), t, n, s'.rows[n], all);
    assert ViewOf(s') == Minted(ViewOf(s), t, n, s'.rows[n]);
  }

  lemma LineageMints(s: State, h: nat, account: Account, device: string, all: bool)
    requires s.nextId >= 1 && LineageInv(s, all) && h in s.inflight && s.inflight[h].Admitted?
    ensures LineageInv(DoMint(s, h, account, device), all)
  {
    if !account.Usable? {
      LineageRefused(s, h, account, device, all);
    } else if Generate(s.inflight[h].token.user, s.inflight[h].token.org, s.now) in s.rows {
      LineageMintDuplicate(s, h, device, all);
    } else {
      LineageMint(s, h, device, all);
    }
  }

  /** A successor that cleanup has reached is long gone, and its predecessor is no younger. */
  lemma LateIsOld(s: State, p: Phase)
    requires Stored(p) && LinkOrdered(s, p) && !IdExists(s.rows, p.newId)
    ensures !Recent(p.token, s.now)
  {}

  /** The UPDATE revokes the token whose successor is stored, unless the successor is gone. */
  lemma LineageLinkStored(s: State, h: nat, all: bool)
    requires LineageInv(s, all) && h in s.inflight && Stored(s.inflight[h]) && LinkOrdered(s, s.inflight[h])
    requires all ==> !LateLink(s, Link(h))
    ensures LineageInv(DoLink(s, h), all)
  {
    var p := s.inflight[h];
    HandlerLeaves(s.inflight, h);
    if IdExists(s.rows, p.newId) {
      assert !Live(DoLink(s, h).rows, p.token);
    } else {
      LateIsOld(s, p);
    }
    LineageCarries(s, DoLink(s, h), all);
  }

  /** Without a stored successor the UPDATE violates the foreign key and changes nothing. */
  lemma LineageLinkNothing(s: State, h: nat, all: bool)
    requires LineageInv(s, all) && h in s.inflight && s.inflight[h].Linking? && !Stored(s.inflight[h])
    requires !IdExists(s.rows, 0)
    ensures LineageInv(DoLink(s, h), all)
  {
    HandlerLeaves(s.inflight, h);
    assert DoLink(s, h).rows == s.rows;
    LineageCarries(s, DoLink(s, h), all);
  }

  lemma LineageLink(s: State, h: nat, all: bool)
    requires Sound(s) && LineageInv(s, all) && h in s.inflight && s.inflight[h].Linking?
    requires all ==> !LateLink(s, Link(h))
    ensures LineageInv(DoLink(s, h), all)
  {
    if Stored(s.inflight[h]) {
      LineageLinkStored(s, h, all);
    } else {
      assert !IdExists(s.rows, 0) by { assert forall t :: t in s.rows ==> RowOk(s, t); }
      LineageLinkNothing(s, h, all);
    }
  }

  lemma LineageTerminate(s: State, h: nat, all: bool)
    requires LineageInv(s, all) && h in s.inflight && s.inflight[h].Terminating?
    ensures LineageInv(DoTerminate(s, h), all)
  {
    HandlerLeaves(s.inflight, h);
    LineageCarries(s, DoTerminate(s, h), all);
  }

  lemma LineageHandlers(s: State, step: Step, all: bool)
    requires Sound(s) && LineageInv(s, all) && (step.Mint? || step.Link? || step.Terminate?)
    requires all ==> !LateLink(s, step)
    ensures LineageInv(Next(s, step), all)
  {
    match step
    case Mint(h, account, device) =>
      assert Next(s, step) == DoMint(s, h, account, device);
      if h in s.inflight && s.inflight[h].Admitted? {
        LineageMints(s, h, account, device, all);
      } else {
        assert DoMint(s, h, account, device) == s;
      }
    case Link(h) =>
      assert Next(s, step) == DoLink(s, h);
      if h in s.inflight && s.inflight[h].Linking? { LineageLink(s, h, all); } else { assert DoLink(s, h) == s; }
    case Terminate(h) =>
      assert Next(s, step) == DoTerminate(s, h);
      if h in s.inflight && s.inflight[h].Terminating? {
        LineageTerminate(s, h, all);
      } else {
        assert DoTerminate(s, h) == s;
      }
  }

  /** Every step keeps one seat among recent tokens; every step but a late link keeps one seat among all. */
  lemma LineageNext(s: State, step: Step, all: bool)
    requires Sound(s) && LineageInv(s, all) && Apart(s, step)
    requires all ==> !LateLink(s, step)
    ensures LineageInv(Next(s, step), all)
  {
    match step
    case Advance(d) => LineageCarries(s, Next(s, step), all);
    case Login(user, org, device) => LineageLogin(s, user, org, device, all);
    case Logout(user) => LineageRevoke(s, TokensOf(s.rows, user), all);
    case RevokeSession(user, id) => LineageRevoke(s, SessionOf(s.rows, user, id), all);
    case RevokeOthers(user) => LineageRevoke(s, TokensOf(s.rows, user), all);
    case CleanUp => LineageCleanup(s, all);
    case Present(h, t) => LineagePresent(s, h, t, all);
    case Mint(_, _, _) => LineageHandlers(s, step, all);
    case Link(_) => LineageHandlers(s, step, all);
    case Terminate(_) => LineageHandlers(s, step, all);
  }

  lemma {:induction false} LineageRun(s: State, steps: seq<Step>, all: bool)
    requires Sound(s) && LineageInv(s, all) && NonOverlapping(s, steps)
    requires all ==> NoLateLink(s, steps)
    ensures LineageInv(Run(s, steps), all)
    decreases |steps|
  {
    if steps != [] {
      InvNext(s, steps[0]);
      OrderedNext(s, steps[0]);
      LineageNext(s, steps[0], all);
      LineageRun(Next(s, steps[0]), steps[1..], all);
    }
  }

  /** In a run without a late link, cleanup anywhere, two live tokens of any age descend from one login only while a
      handler stands between its INSERT and its UPDATE. */
  lemma OneLiveTokenPerLineage(now: nat, steps: seq<Step>, t: Token, u: Token)
    requires NonOverlapping(Fresh(now), steps) && NoLateLink(Fresh(now), steps)
    requires var s := Run(Fresh(now), steps);
             Live(s.rows, t) && Live(s.rows, u) && t in s.origin && u in s.origin && s.origin[t] == s.origin[u]
    ensures t == u || t in MidLink(Run(Fresh(now), steps).inflight) || u in MidLink(Run(Fresh(now), steps).inflight)
  {
    InvFresh(now);
    LineageRun(Fresh(now), steps, true);
    var v := ViewOf(Run(Fresh(now), steps));
    assert t !in v.mid && u !in v.mid ==> Seat(v, t, true) && Seat(v, u, true);
  }

  /** In every run, late links included, the same holds of two tokens issued within the last 30 days. */
  lemma OneRecentTokenPerLineage(now: nat, steps: seq<Step>, t: Token, u: Token)
    requires NonOverlapping(Fresh(now), steps)
    requires var s := Run(Fresh(now), steps);
             && Live(s.rows, t) && Live(s.rows, u) && Recent(t, s.now) && Recent(u, s.now)
             && t in s.origin && u in s.origin && s.origin[t] == s.origin[u]
    ensures t == u || t in MidLink(Run(Fresh(now), steps).inflight) || u in MidLink(Run(Fresh(now), steps).inflight)
  {
    InvFresh(now);
    LineageRun(Fresh(now), steps, false);
    var v := ViewOf(Run(Fresh(now), steps));
    assert t !in v.mid && u !in v.mid ==> Seat(v, t, false) && Seat(v, u, false);
  }

  /** No token is exchanged for a stored successor twice, and every row belongs to some login's lineage. */
  lemma RedeemedAtMostOnce(now: nat, steps: seq<Step>)
    requires NonOverlapping(Fresh(now), steps)
    ensures var s := Run(Fresh(now), steps);
            && (forall i, j :: 0 <= i < j < |s.redeemed| ==> s.redeemed[i] != s.redeemed[j])
            && s.rows.Keys <= s.origin.Keys
  {
    InvFresh(now);
    LineageRun(Fresh(now), steps, false);
  }

  // ---- exactly when a lineage gets a second seat ----

  /** A late link while some other token of the lineage is seated. */
  ghost predicate Forks(s: State, step: Step) {
    && LateLink(s, step)
    && var t := s.inflight[step.h].token;
       t in s.origin && exists u :: u != t && Seat(ViewOf(s), u, true) && s.origin[u] == s.origin[t]
  }

  /** A late link seats its token, and leaves every other seat as it is. */
  lemma LateLinkSeats(s: State, step: Step, u: Token)
    requires Distinct(s.inflight) && ViewOk(ViewOf(s)) && LateLink(s, step)
    ensures Seat(ViewOf(Next(s, step)), u, true) <==> Seat(ViewOf(s), u, true) || u == s.inflight[step.h].token
  {
    HandlerLeaves(s.inflight, step.h);
    assert Next(s, step) == DoLink(s, step.h);
    assert DoLink(s, step.h).rows == s.rows;
  }

  lemma LateLinkForks(s: State, step: Step)
    requires LineageInv(s, true) && LateLink(s, step)
    ensures OneSeat(ViewOf(Next(s, step)), true) <==> !Forks(s, step)
  {
    var t := s.inflight[step.h].token;
    var v, v' := ViewOf(s), ViewOf(Next(s, step));
    forall u ensures Seat(v', u, true) <==> Seat(v, u, true) || u == t {
      LateLinkSeats(s, step, u);
    }
    assert v'.origin == v.origin;
    assert t in v.origin by { assert Seat(v', t, true); }
    if Forks(s, step) {
      var u :| u != t && Seat(v, u, true) && s.origin[u] == s.origin[t];
      assert Seat(v', u, true) && Seat(v', t, true);
    }
  }

  /** From every state of the protocol with one seat a lineage, a step gives some lineage a second seat if and only if
      it is a late link while another token of that lineage is seated. */
  lemma SecondSeatExactly(s: State, step: Step)
    requires Sound(s) && LineageInv(s, true) && Apart(s, step)
    ensures !OneSeat(ViewOf(Next(s, step)), true) <==> Forks(s, step)
  {
    if LateLink(s, step) {
      LateLinkForks(s, step);
    } else {
      LineageNext(s, step, true);
    }
  }

  ghost predicate SeatedOnce(s: State, steps: seq<Step>)
    decreases |steps|
  {
    OneSeat(ViewOf(s), true) && (steps == [] || SeatedOnce(Next(s, steps[0]), steps[1..]))
  }

  ghost predicate NeverForks(s: State, steps: seq<Step>)
    decreases |steps|
  {
    steps == [] || (!Forks(s, steps[0]) && NeverForks(Next(s, steps[0]), steps[1..]))
  }

  /** So a run without overlap keeps one seat a lineage at every moment if and only if no step of it is such a link. */
  lemma {:induction false} SeatedOnceExactly(s: State, steps: seq<Step>)
    requires Sound(s) && LineageInv(s, true) && NonOverlapping(s, steps)
    ensures SeatedOnce(s, steps) <==> NeverForks(s, steps)
    decreases |steps|
  {
    if steps != [] {
      var step := steps[0];
      SecondSeatExactly(s, step);
      if !Forks(s, step) {
        InvNext(s, step);
        OrderedNext(s, step);
        LineageNext(s, step, false);
        SeatedOnceExactly(Next(s, step), steps[1..]);
      }
    }
  }

  // ---- such a run ----

  ghost predicate Plays(s: State, steps: seq<Step>, end: State) {
    NonOverlapping(s, steps) && Run(s, steps) == end
  }

  lemma PlaysCons(s: State, step: Step, rest: seq<Step>, end: State)
    requires Apart(s, step) && Plays(Next(s, step), rest, end)
    ensures Plays(s, [step] + rest, end)
  {
    assert ([step] + rest)[1..] == rest;
  }

  lemma {:induction false} PlaysOn(s: State, a: seq<Step>, mid: State, b: seq<Step>, end: State)
    requires Plays(s, a, mid) && Plays(mid, b, end)
    ensures Plays(s, a + b, end)
    decreases |a|
  {
    if a == [] {
      assert a + b == b;
    } else {
      PlaysOn(Next(s, a[0]), a[1..], mid, b, end);
      assert a + b == [a[0]] + (a[1..] + b);
      PlaysCons(s, a[0], a[1..] + b, end);
    }
  }

  lemma PlaysThree(s: State, a: Step, b: Step, c: Step, end: State)
    requires Apart(s, a) && Apart(Next(s, a), b) && Apart(Next(Next(s, a), b), c)
    requires Next(Next(Next(s, a), b), c) == end
    ensures Plays(s, [a, b, c], end)
  {
    PlaysCons(Next(Next(s, a), b), c, [], end);
    PlaysCons(Next(s, a), b, [c], end);
    PlaysCons(s, a, [b, c], end);
  }

  const T: Token := Token(1, 1, 0)
  const N: Token := Token(1, 1, 518_400)
  const M: Token := Token(1, 1, 518_401)

  function TRow(): Row {
    Row(1, 1, "", 0, REFRESH_LIFETIME, None, None, 0)
  }

  function MRow(): Row {
    Row(3, 1, "", 6 * DAY + SECOND, 6 * DAY + SECOND + REFRESH_LIFETIME, None, None, 6 * DAY + SECOND)
  }

  /** On day six `T` is exchanged for `N`, and its handler stops before the link. */
  function Halfway(): State {
    State(map[T := TRow(), N := Row(2, 1, "", 6 * DAY, 6 * DAY + REFRESH_LIFETIME, None, None, 6 * DAY)], 3, 6 * DAY + SECOND,
          map[0 := Linking(T, 2, N)], map[T := 1, N := 1], [T], [])
  }

  /** `N` has been exchanged for `M`, and 30 days later cleanup has deleted it. */
  function Cleaned(): State {
    State(map[T := TRow(), M := MRow()], 4, 36 * DAY + 2 * SECOND, map[0 := Linking(T, 2, N)], map[T := 1, N := 1, M := 1],
          [T, N], [(1, Refreshed(M))])
  }

  /** A handler has been admitted with `T` on day six. */
  function Presented(): State {
    State(map[T := TRow()], 2, 6 * DAY, map[0 := Admitted(T)], map[T := 1], [], [])
  }

  lemma PlayPresented()
    ensures Plays(Fresh(0), [Login(1, 1, ""), Advance(6 * DAY), Present(0, T)], Presented())
  {
    assert SecondOf(0) == 0;
    var s1 := Next(Fresh(0), Login(1, 1, ""));
    var s2 := Next(s1, Advance(6 * DAY));
    assert s1.rows == map[T := TRow()];
    assert Next(s2, Present(0, T)) == Presented();
    PlaysThree(Fresh(0), Login(1, 1, ""), Advance(6 * DAY), Present(0, T), Presented());
  }

  lemma PlayHalfway()
    ensures Plays(Presented(), [Mint(0, Usable, ""), Advance(SECOND)], Halfway())
  {
    assert SecondOf(6 * DAY) == 518_400;
    var s1 := Next(Presented(), Mint(0, Usable, ""));
    assert s1.rows == Halfway().rows && s1.inflight == Halfway().inflight && s1.origin == Halfway().origin;
    assert Next(s1, Advance(SECOND)) == Halfway();
    PlaysCons(s1, Advance(SECOND), [], Halfway());
    PlaysCons(Presented(), Mint(0, Usable, ""), [Advance(SECOND)], Halfway());
  }

  /** `N` has been exchanged for `M`. */
  function Exchanged(): State {
    State(map[T := TRow(),
              N := Row(2, 1, "", 6 * DAY, 6 * DAY + REFRESH_LIFETIME, Some(6 * DAY + SECOND), Some(3), 6 * DAY + SECOND),
              M := MRow()],
          4, 6 * DAY + SECOND, map[0 := Linking(T, 2, N)], map[T := 1, N := 1, M := 1], [T, N], [(1, Refreshed(M))])
  }

  function Exchanging(): State {
    Halfway().(rows := Halfway().rows[M := MRow()], nextId := 4,
               inflight := map[0 := Linking(T, 2, N), 1 := Linking(N, 3, M)],
               origin := map[T := 1, N := 1, M := 1], redeemed := [T, N])
  }

  lemma MintsM()
    ensures Next(Next(Halfway(), Present(1, N)), Mint(1, Usable, "")) == Exchanging()
  {
    assert SecondOf(6 * DAY + SECOND) == 518_401;
    var s1 := Next(Halfway(), Present(1, N));
    assert s1 == Halfway().(inflight := map[0 := Linking(T, 2, N), 1 := Admitted(N)]);
    assert Generate(1, 1, s1.now) == M && M !in s1.rows;
  }

  lemma LinksM()
    ensures Next(Exchanging(), Link(1)) == Exchanged()
  {
    assert Exchanging().rows[M].id == 3;
    assert Next(Exchanging(), Link(1)).rows == Exchanged().rows;
  }

  lemma PlayExchanged()
    ensures Plays(Halfway(), [Present(1, N), Mint(1, Usable, ""), Link(1)], Exchanged())
  {
    MintsM();
    LinksM();
    PlaysThree(Halfway(), Present(1, N), Mint(1, Usable, ""), Link(1), Exchanged());
  }

  lemma PlayCleaned()
    ensures Plays(Exchanged(), [Advance(30 * DAY + SECOND), CleanUp], Cleaned())
  {
    var s1 := Next(Exchanged(), Advance(30 * DAY + SECOND));
    var s2 := Next(s1, CleanUp);
    assert Stale(s1.rows[N], s1.now) && !Stale(s1.rows[T], s1.now) && !Stale(s1.rows[M], s1.now);
    assert s2.rows == Cleaned().rows;
    PlaysCons(s1, CleanUp, [], s2);
    PlaysCons(Exchanged(), Advance(30 * DAY + SECOND), [CleanUp], s2);
  }

  lemma PlayLate()
    ensures LateLink(Cleaned(), Link(0))
    ensures Plays(Cleaned(), [Link(0)], Answer(Cleaned(), 0, Refreshed(N)))
  {
    assert Next(Cleaned(), Link(0)) == Answer(Cleaned(), 0, Refreshed(N));
    PlaysCons(Cleaned(), Link(0), [], Answer(Cleaned(), 0, Refreshed(N)));
  }

  /** Without overlap, a handler that links 30 days late finds its successor's row deleted, and two rows of one lineage
      stay live: one of them older than 30 days. */
  lemma OldRowsCanStayLive()
    ensures exists steps ::
              var s := Run(Fresh(0), steps);
              && NonOverlapping(Fresh(0), steps) && s.inflight == map[]
              && Live(s.rows, T) && Live(s.rows, M) && !Recent(T, s.now)
              && T in s.origin && M in s.origin && s.origin[T] == s.origin[M]
  {
    PlayPresented();
    PlayHalfway();
    PlayExchanged();
    PlayCleaned();
    PlayLate();
    var a := [Login(1, 1, ""), Advance(6 * DAY), Present(0, T)];
    var m := [Mint(0, Usable, ""), Advance(SECOND)];
    var b := [Present(1, N), Mint(1, Usable, ""), Link(1)];
    var c := [Advance(30 * DAY + SECOND), CleanUp];
    var end := Answer(Cleaned(), 0, Refreshed(N));
    assert end.inflight == map[];
    PlaysOn(Exchanged(), c, Cleaned(), [Link(0)], end);
    PlaysOn(Halfway(), b, Exchanged(), c + [Link(0)], end);
    PlaysOn(Presented(), m, Halfway(), b + (c + [Link(0)]), end);
    PlaysOn(Fresh(0), a, Presented(), m + (b + (c + [Link(0)])), end);
  }
}
