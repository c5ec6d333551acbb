/** Password resets and token creations that overlap. A creation's transaction reads at its UPDATE and becomes visible
    at its COMMIT, as READ COMMITTED has it; a reset validates, writes the password and marks the token in three steps. */
module ResetRaces {
  import opened Prelude
  import ResetTokens

  type Table = ResetTokens.Table

  /** A creation between its two statements and its COMMIT: `victims` are the rows its UPDATE met. */
  datatype Creation = Creation(user: int, hash: string, expiresAt: int, victims: set<string>)

  // Where a ResetPasswordHandler stands between two of its statements.
  datatype Phase =
    | Admitted(hash: string, user: int)
    | Changed(hash: string)

  // `passwords` are those of users not deleted. `resets` (how often each token changed a password) and `unmarked`
  // (tokens whose mark failed) only record what happened; `issued` keeps random tokens from being issued twice.
  datatype State = State(now: nat, rows: Table, passwords: map<int, string>, creating: map<nat, Creation>,
                         inflight: map<nat, Phase>, issued: set<string>, resets: multiset<string>,
                         unmarked: set<string>)

  datatype Step =
    | Wait(d: nat)
    | Begin(c: nat, user: int, hash: string, expiry: int)
    | Commit(c: nat)
    | CleanUp(olderThan: nat)
    | SoftDelete(user: int)
    | Present(h: nat, hash: string)
    | ChangePassword(h: nat, password: string)
    | Mark(h: nat, ran: bool)

  function Start(now: nat, passwords: map<int, string>): State {
    State(now, map[], passwords, map[], map[], {}, multiset{}, {})
  }

  function UnusedOf(rows: Table, user: int): set<string> {
    set k | k in rows && rows[k].user == user && !rows[k].used
  }

  /** What a COMMIT makes visible; a duplicate hash has rolled the transaction back. */
  function Committed(rows: Table, c: Creation): Table {
    if c.hash in rows then rows
    else (map k | k in rows :: if k in c.victims then rows[k].(used := true) else rows[k])
         [c.hash := ResetTokens.Row(c.user, c.expiresAt, false)]
  }

  /** Tokens are random: none is issued twice. */
  function DoBegin(s: State, c: nat, user: int, hash: string, expiry: int): State {
    if c in s.creating || hash in s.issued then s
    else
      var creation := Creation(user, hash, ResetTokens.ExpiryOf(expiry, s.now), UnusedOf(s.rows, user));
      s.(creating := s.creating[c := creation], issued := s.issued + {hash})
  }

  function DoCommit(s: State, c: nat): State {
    if c !in s.creating then s
    else s.(rows := Committed(s.rows, s.creating[c]), creating := s.creating - {c})
  }

  function DoPresent(s: State, h: nat, hash: string): State {
    if h in s.inflight then s
    else match ResetTokens.Validated(s.rows, hash, s.now)
      case Ok(user) => s.(inflight := s.inflight[h := Admitted(hash, user)])
      case Err(_) => s
  }

  /** The UPDATE finds no row of a deleted user; the handler then answers with an error. */
  function DoChange(s: State, h: nat, password: string): State {
    if h !in s.inflight || !s.inflight[h].Admitted? then s
    else
      var p := s.inflight[h];
      if p.user !in s.passwords then s.(inflight := s.inflight - {h})
      else s.(passwords := s.passwords[p.user := password], inflight := s.inflight[h := Changed(p.hash)],
              resets := s.resets + multiset{p.hash})
  }

  /** A mark that fails is logged and nothing more. */
  function DoMark(s: State, h: nat, ran: bool): State {
    if h !in s.inflight || !s.inflight[h].Changed? then s
    else
      var hash := s.inflight[h].hash;
      s.(rows := if ran then ResetTokens.Used(s.rows, hash) else s.rows, inflight := s.inflight - {h},
         unmarked := if ran then s.unmarked else s.unmarked + {hash})
  }

  function Next(s: State, step: Step): State {
    match step
    case Wait(d) => s.(now := s.now + d)
    case Begin(c, user, hash, expiry) => DoBegin(s, c, user, hash, expiry)
    case Commit(c) => DoCommit(s, c)
    case CleanUp(olderThan) => s.(rows := ResetTokens.Cleaned(s.rows, olderThan, s.now))
    case SoftDelete(user) => s.(passwords := s.passwords - {user})
    case Present(h, hash) => DoPresent(s, h, hash)
    case ChangePassword(h, password) => DoChange(s, h, password)
    case Mark(h, ran) => DoMark(s, h, ran)
  }

  function Run(s: State, steps: seq<Step>): State
    decreases |steps|
  {
    if steps == [] then s else Run(Next(s, steps[0]), steps[1..])
  }

  // ---- what every step keeps ----

  ghost predicate Marking(s: State, k: string) {
    exists h :: h in s.inflight && s.inflight[h] == Changed(k)
  }

  /** The token of a pending creation is nowhere yet. */
  ghost predicate PendingOk(s: State, c: nat)
    requires c in s.creating
  {
    var k := s.creating[c].hash;
    && k in s.issued && k !in s.rows && k !in s.resets
    && (forall h :: h in s.inflight ==> s.inflight[h].hash != k)
    && (forall d :: d in s.creating && s.creating[d].hash == k ==> d == c)
  }

  /** A redeemed token whose row is still unused is about to be marked, or its mark has failed. */
  ghost predicate Inv(s: State) {
    && s.rows.Keys <= s.issued
    && (forall k :: k in s.resets ==> k in s.issued)
    && (forall h :: h in s.inflight ==> s.inflight[h].hash in s.issued)
    && (forall c :: c in s.creating ==> PendingOk(s, c))
    && (forall k :: k in s.resets && k in s.rows && !s.rows[k].used ==> Marking(s, k) || k in s.unmarked)
  }

  /** Steps that touch neither creations nor handlers, and make no row usable. */
  lemma InvCarries(s: State, s': State)
    requires Inv(s)
    requires s' == s.(now := s'.now, rows := s'.rows, passwords := s'.passwords)
    requires forall k :: k in s'.rows ==> k in s.rows && (s.rows[k].used ==> s'.rows[k].used)
    ensures Inv(s')
  {
    forall c | c in s'.creating ensures PendingOk(s', c) { assert PendingOk(s, c); }
    forall k | k in s'.resets && k in s'.rows && !s'.rows[k].used ensures Marking(s', k) || k in s'.unmarked {
      if h :| h in s.inflight && s.inflight[h] == Changed(k) { assert s'.inflight[h] == Changed(k); }
    }
  }

  lemma InvBegin(s: State, c: nat, user: int, hash: string, expiry: int)
    requires Inv(s)
    ensures Inv(DoBegin(s, c, user, hash, expiry))
  {
    var s' := DoBegin(s, c, user, hash, expiry);
    if s' != s {
      forall d | d in s'.creating ensures PendingOk(s', d) {
        if d != c { assert PendingOk(s, d); }
      }
      forall k | k in s'.resets && k in s'.rows && !s'.rows[k].used ensures Marking(s', k) || k in s'.unmarked {
        if h :| h in s.inflight && s.inflight[h] == Changed(k) { assert s'.inflight[h] == Changed(k); }
      }
    }
  }

  lemma InvCommit(s: State, c: nat)
    requires Inv(s)
    ensures Inv(DoCommit(s, c))
  {
    if c in s.creating {
      var s' := DoCommit(s, c);
      assert PendingOk(s, c);
      forall d | d in s'.creating ensures PendingOk(s', d) { assert PendingOk(s, d); }
      forall k | k in s'.resets && k in s'.rows && !s'.rows[k].used ensures Marking(s', k) || k in s'.unmarked {
        assert k in s.rows && !s.rows[k].used;
        if h :| h in s.inflight && s.inflight[h] == Changed(k) { assert s'.inflight[h] == Changed(k); }
      }
    }
  }

  /** A handler's step: nobody else's phase changes, and no row becomes usable. */
  lemma InvHandler(s: State, s': State, h: nat)
    requires Inv(s)
    requires s' == s.(rows := s'.rows, passwords := s'.passwords, inflight := s'.inflight, resets := s'.resets,
                      unmarked := s'.unmarked)
    requires s'.rows.Keys == s.rows.Keys && s.unmarked <= s'.unmarked
    requires forall k :: k in s.rows && s.rows[k].used ==> s'.rows[k].used
    requires forall g :: g in s'.inflight ==>
               if g == h then
                 s'.inflight[g].hash in s.rows || (g in s.inflight && s'.inflight[g].hash == s.inflight[g].hash)
               else g in s.inflight && s'.inflight[g] == s.inflight[g]
    requires forall g :: g in s.inflight && g != h ==> g in s'.inflight
    requires forall k :: k in s'.resets ==>
               k in s.resets || (h in s.inflight && h in s'.inflight && s'.inflight[h] == Changed(k))
    requires h in s.inflight && s.inflight[h].Changed? ==>
               var k := s.inflight[h].hash; k in s'.unmarked || (k in s'.rows ==> s'.rows[k].used)
    ensures Inv(s')
  {
    forall d | d in s'.creating ensures PendingOk(s', d) { assert PendingOk(s, d); }
    forall k | k in s'.resets && k in s'.rows && !s'.rows[k].used ensures Marking(s', k) || k in s'.unmarked {
      if k in s.resets {
        if g :| g in s.inflight && s.inflight[g] == Changed(k) {
          if g != h { assert s'.inflight[g] == Changed(k); }
        }
      } else {
        assert s'.inflight[h] == Changed(k);
      }
    }
  }

  lemma InvPresent(s: State, h: nat, hash: string)
    requires Inv(s)
    ensures Inv(DoPresent(s, h, hash))
  {
    if h !in s.inflight { InvHandler(s, DoPresent(s, h, hash), h); }
  }

  lemma InvChange(s: State, h: nat, password: string)
    requires Inv(s)
    ensures Inv(DoChange(s, h, password))
  {
    if h in s.inflight && s.inflight[h].Admitted? { InvHandler(s, DoChange(s, h, password), h); }
  }

  lemma InvMark(s: State, h: nat, ran: bool)
    requires Inv(s)
    ensures Inv(DoMark(s, h, ran))
  {
    if h in s.inflight && s.inflight[h].Changed? { InvHandler(s, DoMark(s, h, ran), h); }
  }

  lemma InvNext(s: State, step: Step)
    requires Inv(s)
    ensures Inv(Next(s, step))
  {
    match step
    case Wait(_) => InvCarries(s, Next(s, step));
    case Begin(c, user, hash, expiry) => InvBegin(s, c, user, hash, expiry);
    case Commit(c) => InvCommit(s, c);
    case CleanUp(_) => InvCarries(s, Next(s, step));
    case SoftDelete(_) => InvCarries(s, Next(s, step));
    case Present(h, hash) => InvPresent(s, h, hash);
    case ChangePassword(h, password) => InvChange(s, h, password);
    case Mark(h, ran) => InvMark(s, h, ran);
  }

  lemma {:induction false} InvRun(s: State, steps: seq<Step>)
    requires Inv(s)
    ensures Inv(Run(s, steps))
    decreases |steps|
  {
    if steps != [] {
      InvNext(s, steps[0]);
      InvRun(Next(s, steps[0]), steps[1..]);
    }
  }

  // ---- when a redeemed token can be redeemed again ----

  predicate CanChange(s: State, h: nat, k: string) {
    h in s.inflight && s.inflight[h].Admitted? && s.inflight[h].hash == k && s.inflight[h].user in s.passwords
  }

  ghost predicate Holding(s: State, k: string) {
    exists h :: CanChange(s, h, k)
  }

  predicate Presentable(s: State, k: string) {
    ResetTokens.Validated(s.rows, k, s.now).Ok? && s.rows[k].user in s.passwords
  }

  /** No row of `k` can appear. */
  ghost predicate Settled(s: State, k: string) {
    k in s.issued && forall c :: c in s.creating ==> s.creating[c].hash != k
  }

  lemma NotHeld(s: State, step: Step, k: string)
    requires !Holding(s, k) && !Presentable(s, k)
    ensures !Holding(Next(s, step), k)
  {
    var s' := Next(s, step);
    forall h ensures !CanChange(s', h, k) {
      assert !CanChange(s, h, k);
    }
  }

  lemma NotPresentable(s: State, step: Step, k: string)
    requires Settled(s, k) && !Presentable(s, k)
    ensures Settled(Next(s, step), k) && !Presentable(Next(s, step), k)
  {}

  lemma SpentNext(s: State, step: Step, k: string)
    requires Settled(s, k) && !Holding(s, k) && !Presentable(s, k)
    ensures var s' := Next(s, step);
            Settled(s', k) && !Holding(s', k) && !Presentable(s', k) && s'.resets[k] == s.resets[k]
  {
    NotHeld(s, step, k);
    NotPresentable(s, step, k);
    if step.ChangePassword? { assert !CanChange(s, step.h, k); }
  }

  lemma {:induction false} SpentRun(s: State, steps: seq<Step>, k: string)
    requires Settled(s, k) && !Holding(s, k) && !Presentable(s, k)
    ensures Run(s, steps).resets[k] == s.resets[k]
    decreases |steps|
  {
    if steps != [] {
      SpentNext(s, steps[0], k);
      SpentRun(Next(s, steps[0]), steps[1..], k);
    }
  }

  ghost predicate ResetsAgain(s: State, steps: seq<Step>, k: string) {
    Run(s, steps).resets[k] > s.resets[k]
  }

  lemma RunTwo(s: State, a: Step, b: Step)
    ensures Run(s, [a, b]) == Next(Next(s, a), b)
  {
    assert [a, b][1..] == [b] && [b][1..] == [];
    assert Run(Next(Next(s, a), b), []) == Next(Next(s, a), b);
    assert Run(Next(s, a), [b]) == Next(Next(s, a), b);
  }

  lemma RunFour(s: State, a: Step, b: Step, c: Step, d: Step)
    ensures Run(s, [a, b] + [c, d]) == Next(Next(Next(Next(s, a), b), c), d)
  {
    assert ([a, b] + [c, d])[1..] == [b, c, d] && [b, c, d][1..] == [c, d];
    assert Run(s, [a, b] + [c, d]) == Run(Next(Next(s, a), b), [c, d]);
    RunTwo(Next(Next(s, a), b), c, d);
  }

  lemma FreeHandler(inflight: map<nat, Phase>) returns (h: nat)
    ensures h !in inflight
  {
    h := 0;
    var below: set<nat> := {};
    while h in inflight
      invariant below <= inflight.Keys && (forall n: nat :: n in below <==> n < h)
      decreases |inflight.Keys| - |below|
    {
      var more := below + {h};
      SubsetSize(more, inflight.Keys);
      below, h := more, h + 1;
    }
  }

  /** A token that has changed a password changes one again in some continuation if and only if a handler admitted with
      it is still in flight, or its row still validates, and its user is not deleted; and its row still validates only
      while a handler stands between writing the password and marking the token, or after a mark that failed. */
  lemma SecondResetExactly(s: State, k: string)
    requires Inv(s) && k in s.resets
    ensures (exists steps :: ResetsAgain(s, steps, k)) <==> Holding(s, k) || Presentable(s, k)
    ensures Presentable(s, k) ==> Marking(s, k) || k in s.unmarked
  {
    assert forall c :: c in s.creating ==> PendingOk(s, c);
    if Holding(s, k) {
      var h :| CanChange(s, h, k);
      RunTwo(s, Wait(0), ChangePassword(h, ""));
      assert ResetsAgain(s, [Wait(0), ChangePassword(h, "")], k);
    } else if Presentable(s, k) {
      var h := FreeHandler(s.inflight);
      RunTwo(s, Present(h, k), ChangePassword(h, ""));
      assert ResetsAgain(s, [Present(h, k), ChangePassword(h, "")], k);
    } else {
      forall steps ensures !ResetsAgain(s, steps, k) { SpentRun(s, steps, k); }
    }
  }

  /** So once every handler of a redeemed token has finished and marked it, the token is spent for good. */
  lemma MarkedIsSpent(s: State, k: string, later: seq<Step>)
    requires Inv(s) && k in s.resets && k !in s.unmarked
    requires forall h :: h in s.inflight ==> s.inflight[h].hash != k
    ensures Run(s, later).resets[k] == s.resets[k]
  {
    assert forall c :: c in s.creating ==> PendingOk(s, c);
    SpentRun(s, later, k);
  }

  /** From every state, any token that validates changes the password twice when two handlers are admitted with it
      before either marks it; the later password stands. */
  lemma OverlappingResetsBothSucceed(s: State, g: nat, h: nat, k: string, p: string, q: string)
    requires g != h && g !in s.inflight && h !in s.inflight && Presentable(s, k)
    ensures var s' := Run(s, [Present(g, k), Present(h, k)] + [ChangePassword(g, p), ChangePassword(h, q)]);
            s'.resets[k] == s.resets[k] + 2 && s'.passwords == s.passwords[s.rows[k].user := q]
  {
    RunFour(s, Present(g, k), Present(h, k), ChangePassword(g, p), ChangePassword(h, q));
    var user := s.rows[k].user;
    var mid := Next(Next(s, Present(g, k)), Present(h, k));
    assert mid == s.(inflight := s.inflight[g := Admitted(k, user)][h := Admitted(k, user)]);
    var one := Next(mid, ChangePassword(g, p));
    assert one.inflight[h] == Admitted(k, user) && one.passwords == s.passwords[user := p];
    assert s.passwords[user := p][user := q] == s.passwords[user := q];
  }

  // ---- without overlap ----

  /** A token is not presented while a handler holds it, and marks succeed. */
  predicate Apart(s: State, step: Step) {
    && (step.Present? ==> forall h :: h in s.inflight ==> s.inflight[h].hash != step.hash)
    && (step.Mark? ==> step.ran)
  }

  predicate NonOverlapping(s: State, steps: seq<Step>)
    decreases |steps|
  {
    steps == [] || (Apart(s, steps[0]) && NonOverlapping(Next(s, steps[0]), steps[1..]))
  }

  ghost predicate Once(s: State) {
    && s.unmarked == {}
    && (forall g, h :: g in s.inflight && h in s.inflight && s.inflight[g].hash == s.inflight[h].hash ==> g == h)
    && (forall h :: h in s.inflight && s.inflight[h].Admitted? ==> s.inflight[h].hash !in s.resets)
    && (forall k :: s.resets[k] <= 1)
  }

  lemma OncePresent(s: State, h: nat, hash: string)
    requires Inv(s) && Once(s) && Apart(s, Present(h, hash))
    ensures Once(DoPresent(s, h, hash))
  {
    if h !in s.inflight && ResetTokens.Validated(s.rows, hash, s.now).Ok? {
      assert !Marking(s, hash);
      assert hash !in s.resets;
    }
  }

  lemma OnceChange(s: State, h: nat, password: string)
    requires Once(s)
    ensures Once(DoChange(s, h, password))
  {
    if h in s.inflight && s.inflight[h].Admitted? && s.inflight[h].user in s.passwords {
      var s' := DoChange(s, h, password);
      var k := s.inflight[h].hash;
      assert s.resets[k] == 0;
      forall g | g in s'.inflight && s'.inflight[g].Admitted? ensures s'.inflight[g].hash !in s'.resets {
        assert g != h && s.inflight[g].hash != k;
      }
    }
  }

  lemma OnceNext(s: State, step: Step)
    requires Inv(s) && Once(s) && Apart(s, step)
    ensures Once(Next(s, step))
  {
    match step
    case Present(h, hash) => OncePresent(s, h, hash);
    case ChangePassword(h, password) => OnceChange(s, h, password);
    case _ =>
  }

  lemma {:induction false} OnceRun(s: State, steps: seq<Step>)
    requires Inv(s) && Once(s) && NonOverlapping(s, steps)
    ensures Once(Run(s, steps))
    decreases |steps|
  {
    if steps != [] {
      InvNext(s, steps[0]);
      OnceNext(s, steps[0]);
      OnceRun(Next(s, steps[0]), steps[1..]);
    }
  }

  /** When handlers of one token do not overlap and no mark fails, no token changes a password twice. */
  lemma ResetAtMostOnce(now: nat, passwords: map<int, string>, steps: seq<Step>, k: string)
    requires NonOverlapping(Start(now, passwords), steps)
    ensures Run(Start(now, passwords), steps).resets[k] <= 1
  {
    OnceRun(Start(now, passwords), steps);
  }

  // ---- creations ----

  /** A creation nothing overlaps is the transaction ResetTokens takes it for. */
  lemma AloneIsCreated(s: State, c: nat, user: int, hash: string, expiry: int)
    requires c !in s.creating && hash !in s.issued
    ensures Run(s, [Begin(c, user, hash, expiry), Commit(c)]).rows ==
            ResetTokens.Created(s.rows, user, hash, ResetTokens.ExpiryOf(expiry, s.now))
  {
    var expiresAt := ResetTokens.ExpiryOf(expiry, s.now);
    RunTwo(s, Begin(c, user, hash, expiry), Commit(c));
    var creation := Creation(user, hash, expiresAt, UnusedOf(s.rows, user));
    assert Next(s, Begin(c, user, hash, expiry)).creating[c] == creation;
    if hash !in s.rows {
      var a, b := Committed(s.rows, creation), ResetTokens.Created(s.rows, user, hash, expiresAt);
      assert a.Keys == b.Keys;
      forall k | k in a ensures a[k] == b[k] {
        if k != hash && k !in creation.victims && s.rows[k].user == user { assert s.rows[k].used; }
      }
    }
  }

  ghost predicate OneUnused(rows: Table) {
    forall j, k :: j in rows && k in rows && !rows[j].used && !rows[k].used && rows[j].user == rows[k].user ==> j == k
  }

  /** A creation commits although its user has an unused token its UPDATE did not meet. */
  ghost predicate MissesOne(s: State, step: Step) {
    && step.Commit? && step.c in s.creating && s.creating[step.c].hash !in s.rows
    && exists k :: k in UnusedOf(s.rows, s.creating[step.c].user) && k !in s.creating[step.c].victims
  }

  lemma NoOtherStepAddsAnUnused(s: State, step: Step)
    requires OneUnused(s.rows) && !step.Commit?
    ensures OneUnused(Next(s, step).rows)
  {
    assert forall k :: k in Next(s, step).rows && !Next(s, step).rows[k].used ==>
        k in s.rows && !s.rows[k].used && Next(s, step).rows[k].user == s.rows[k].user;
  }

  /** From every state with one unused token a user, a step leaves some user two if and only if it is such a COMMIT. */
  lemma SecondUnusedExactly(s: State, step: Step)
    requires OneUnused(s.rows)
    ensures !OneUnused(Next(s, step).rows) <==> MissesOne(s, step)
  {
    if step.Commit? && step.c in s.creating && s.creating[step.c].hash !in s.rows {
      var c := s.creating[step.c];
      var rows := Next(s, step).rows;
      assert rows == Committed(s.rows, c);
      forall k | k != c.hash && k in rows && !rows[k].used
        ensures k in s.rows && !s.rows[k].used && rows[k] == s.rows[k] && k !in c.victims
      {}
      assert c.hash in rows && !rows[c.hash].used && rows[c.hash].user == c.user;
      if MissesOne(s, step) {
        var k :| k in UnusedOf(s.rows, c.user) && k !in c.victims;
        assert k in rows && !rows[k].used && rows[k].user == c.user && k != c.hash;
      } else {
        forall k | k != c.hash && k in rows && !rows[k].used ensures rows[k].user != c.user {
          assert k in UnusedOf(s.rows, c.user) || s.rows[k].user != c.user;
        }
      }
    } else if step.Commit? {
      assert Next(s, step).rows == s.rows;
    } else {
      NoOtherStepAddsAnUnused(s, step);
    }
  }

  /** No user's creation begins while another of that user is pending. */
  predicate Serial(s: State, step: Step) {
    step.Begin? ==> forall c :: c in s.creating ==> s.creating[c].user != step.user
  }

  predicate SerialRun(s: State, steps: seq<Step>)
    decreases |steps|
  {
    steps == [] || (Serial(s, steps[0]) && SerialRun(Next(s, steps[0]), steps[1..]))
  }

  /** Every pending creation has met every unused token of its user. */
  ghost predicate Covering(s: State) {
    && (forall c, d :: c in s.creating && d in s.creating && s.creating[c].user == s.creating[d].user ==> c == d)
    && (forall c :: c in s.creating ==> UnusedOf(s.rows, s.creating[c].user) <= s.creating[c].victims)
  }

  /** Only a COMMIT of that user gives a user an unused token. */
  lemma NoNewUnused(s: State, step: Step, user: int)
    requires step.Commit? && step.c in s.creating ==> s.creating[step.c].user != user
    ensures UnusedOf(Next(s, step).rows, user) <= UnusedOf(s.rows, user)
  {}

  lemma StillPending(s: State, step: Step, c: nat)
    requires c in Next(s, step).creating && c in s.creating
    ensures Next(s, step).creating[c] == s.creating[c] && !(step.Commit? && step.c == c)
  {}

  lemma NewlyPending(s: State, step: Step, c: nat)
    requires c in Next(s, step).creating && c !in s.creating
    ensures Next(s, step).rows == s.rows && step.Begin? && step.user == Next(s, step).creating[c].user
    ensures c == step.c && Next(s, step).creating[c].victims == UnusedOf(s.rows, step.user)
  {}

  lemma CoveringNext(s: State, step: Step)
    requires Covering(s) && Serial(s, step)
    ensures Covering(Next(s, step))
  {
    var creating := Next(s, step).creating;
    forall c, d | c in creating && d in creating && creating[c].user == creating[d].user ensures c == d {
      if c in s.creating { StillPending(s, step, c); } else { NewlyPending(s, step, c); }
      if d in s.creating { StillPending(s, step, d); } else { NewlyPending(s, step, d); }
    }
    forall c | c in creating ensures UnusedOf(Next(s, step).rows, creating[c].user) <= creating[c].victims {
      if c in s.creating {
        StillPending(s, step, c);
        NoNewUnused(s, step, s.creating[c].user);
      } else {
        NewlyPending(s, step, c);
      }
    }
  }

  lemma {:induction false} OneUnusedRun(s: State, steps: seq<Step>)
    requires Covering(s) && OneUnused(s.rows) && SerialRun(s, steps)
    ensures OneUnused(Run(s, steps).rows)
    decreases |steps|
  {
    if steps != [] {
      SecondUnusedExactly(s, steps[0]);
      CoveringNext(s, steps[0]);
      OneUnusedRun(Next(s, steps[0]), steps[1..]);
    }
  }

  /** When creations of one user do not overlap, no user ever has two unused tokens. */
  lemma OneUnusedWhenSerial(now: nat, passwords: map<int, string>, steps: seq<Step>)
    requires SerialRun(Start(now, passwords), steps)
    ensures OneUnused(Run(Start(now, passwords), steps).rows)
  {
    OneUnusedRun(Start(now, passwords), steps);
  }

  lemma CommittedTwice(rows: Table, c: Creation, d: Creation)
    requires c.user == d.user && c.hash != d.hash && c.hash !in rows && d.hash !in rows
    requires c.victims == d.victims == UnusedOf(rows, c.user)
    ensures UnusedOf(Committed(Committed(rows, c), d), c.user) == {c.hash, d.hash}
  {
    var one, end := Committed(rows, c), Committed(Committed(rows, c), d);
    assert forall k :: k in rows ==> k in one && one[k].user == rows[k].user;
    forall k | k in rows ensures k !in UnusedOf(end, c.user) {}
    assert forall k :: k in end <==> k in rows || k == c.hash || k == d.hash;
  }

  lemma BothBegin(s: State, c: nat, d: nat, user: int, g: string, h: string, e: int, f: int)
    requires c != d && c !in s.creating && d !in s.creating && g != h && g !in s.issued && h !in s.issued
    ensures var one := Creation(user, g, ResetTokens.ExpiryOf(e, s.now), UnusedOf(s.rows, user));
            var two := Creation(user, h, ResetTokens.ExpiryOf(f, s.now), UnusedOf(s.rows, user));
            Next(Next(s, Begin(c, user, g, e)), Begin(d, user, h, f)) ==
            s.(creating := s.creating[c := one][d := two], issued := s.issued + {g} + {h})
  {}

  lemma BothCommit(s: State, c: nat, d: nat)
    requires c != d && c in s.creating && d in s.creating
    ensures Next(Next(s, Commit(c)), Commit(d)).rows == Committed(Committed(s.rows, s.creating[c]), s.creating[d])
  {}

  /** From every reachable state, two creations of one user that overlap leave the user exactly two unused tokens. */
  lemma OverlappingCreatesLeaveTwo(s: State, c: nat, d: nat, user: int, g: string, h: string, e: int, f: int)
    requires Inv(s) && c != d && c !in s.creating && d !in s.creating && g != h && g !in s.issued && h !in s.issued
    ensures UnusedOf(Run(s, [Begin(c, user, g, e), Begin(d, user, h, f)] + [Commit(c), Commit(d)]).rows, user) == {g, h}
  {
    RunFour(s, Begin(c, user, g, e), Begin(d, user, h, f), Commit(c), Commit(d));
    BothBegin(s, c, d, user, g, h, e, f);
    var mid := Next(Next(s, Begin(c, user, g, e)), Begin(d, user, h, f));
    BothCommit(mid, c, d);
    assert g !in s.rows && h !in s.rows;
    CommittedTwice(s.rows, mid.creating[c], mid.creating[d]);
  }

  // ---- the handler ----

  datatype Reply = BadRequest | InvalidOrExpired | NotChanged | Done

  class UserRepository {
    var passwords: map<int, string>

    /** Whether a row was updated: a deleted user has none. */
    method UpdatePassword(user: int, password: string) returns (ok: bool)
      modifies this
      ensures ok <==> user in old(passwords)
      ensures passwords == if ok then old(passwords)[user := password] else old(passwords)
    {
      ok := user in passwords;
      if ok { passwords := passwords[user := password]; }
    }
  }

  predicate Represents(s: State, service: ResetTokens.ResetTokenService, users: UserRepository)
    reads service, users
  {
    s.rows == service.rows && s.passwords == users.passwords
  }

  function AloneSteps(s: State, h: nat, k: string, password: string, marks: bool): State {
    Next(Next(Next(s, Present(h, k)), ChangePassword(h, password)), Mark(h, marks))
  }

  lemma AloneResets(s: State, h: nat, k: string, password: string, marks: bool)
    requires h !in s.inflight && Presentable(s, k)
    ensures var s' := AloneSteps(s, h, k, password, marks);
            && s'.inflight == s.inflight
            && s'.rows == (if marks then ResetTokens.Used(s.rows, k) else s.rows)
            && s'.passwords == s.passwords[s.rows[k].user := password]
            && s'.resets[k] == s.resets[k] + 1
  {
    var s1 := Next(s, Present(h, k));
    assert s1 == s.(inflight := s.inflight[h := Admitted(k, s.rows[k].user)]);
    var s2 := Next(s1, ChangePassword(h, password));
    assert s2.inflight == s.inflight[h := Changed(k)] && s2.rows == s.rows;
    assert s2.inflight - {h} == s.inflight;
  }

  lemma AloneRefused(s: State, h: nat, k: string, password: string, marks: bool)
    requires h !in s.inflight && !Presentable(s, k)
    ensures AloneSteps(s, h, k, password, marks) == s
  {
    var s1 := Next(s, Present(h, k));
    var s2 := Next(s1, ChangePassword(h, password));
    assert s2.inflight == s.inflight;
    assert s2 == s;
  }

  /** The handler with nothing between its statements; `acceptable` is the check of the password's strength, `password`
      its hash, and `marks` whether the marking statement ran. */
  method ResetPasswordHandler(service: ResetTokens.ResetTokenService, users: UserRepository, token: string,
                              password: string, acceptable: bool, marks: bool, now: nat, h: nat, ghost s: State)
    returns (reply: Reply)
    requires Represents(s, service, users) && s.now == now && h !in s.inflight
    modifies service`rows, users
    ensures token == "" || !acceptable ==> reply == BadRequest && Represents(s, service, users)
    ensures token != "" && acceptable ==>
              var k := service.hash(token);
              var s' := AloneSteps(s, h, k, password, marks);
              && Represents(s', service, users)
              && s'.inflight == s.inflight
              && (reply == Done <==> Presentable(s, k))
              && s'.resets[k] == s.resets[k] + (if reply == Done then 1 else 0)
              && (reply == InvalidOrExpired <==> ResetTokens.Validated(s.rows, k, now).Err?)
              && reply != BadRequest
  {
    if token == "" || !acceptable { return BadRequest; }
    ghost var k := service.hash(token);
    if Presentable(s, k) { AloneResets(s, h, k, password, marks); } else { AloneRefused(s, h, k, password, marks); }
    var found := service.ValidateResetToken(token, now);
    if found.Err? { return InvalidOrExpired; }
    var changed := users.UpdatePassword(found.value, password);
    if !changed { return NotChanged; }
    if marks {
      var _ := service.MarkTokenAsUsed(token);
    }
    return Done;
  }
}
