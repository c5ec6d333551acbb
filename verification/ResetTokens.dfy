/** Password reset tokens: rows found by hash behave as one grant per user that is consumed once, when creations take
    effect one after another. ResetRaces has the interleavings that READ COMMITTED allows. */
module ResetTokens {
  import opened Prelude

  const DEFAULT_TOKEN_EXPIRY: nat := 30 * MINUTE

  datatype Row = Row(user: int, expiresAt: int, used: bool)

  // Rows by token hash, which the table holds at most once.
  type Table = map<string, Row>

  datatype Error = InvalidToken | AlreadyUsed | TokenExpired | DuplicateHash

  function Superseded(t: Table, user: int): Table {
    map h | h in t :: if t[h].user == user then t[h].(used := true) else t[h]
  }

  function ExpiryOf(expiry: int, now: nat): int {
    now + if expiry == 0 then DEFAULT_TOKEN_EXPIRY else expiry
  }

  /** The transaction: a duplicate hash rolls both statements back. */
  function Created(t: Table, user: int, h: string, expiresAt: int): Table {
    if h in t then t else Superseded(t, user)[h := Row(user, expiresAt, false)]
  }

  function Used(t: Table, h: string): Table {
    if h in t then t[h := t[h].(used := true)] else t
  }

  function Cleaned(t: Table, olderThan: nat, now: nat): Table {
    map h | h in t && t[h].expiresAt >= now - olderThan :: t[h]
  }

  function Validated(t: Table, h: string, now: nat): Result<int, Error> {
    if h !in t then Err(InvalidToken)
    else if t[h].used then Err(AlreadyUsed)
    else if now > t[h].expiresAt then Err(TokenExpired)
    else Ok(t[h].user)
  }

  class ResetTokenService {
    var rows: Table
    const hash: Hash

    constructor (hash: Hash)
      ensures this.hash == hash && rows == map[]
    {
      this.hash, rows := hash, map[];
    }

    method CreateResetToken(user: int, token: string, expiry: int, now: nat) returns (r: Result<string, Error>)
      modifies this`rows
      ensures rows == Created(old(rows), user, hash(token), ExpiryOf(expiry, now))
      ensures r == if hash(token) in old(rows) then Err(DuplicateHash) else Ok(token)
      ensures r.Err? ==> rows == old(rows)
      ensures r.Ok? ==>
                && rows.Keys == old(rows).Keys + {hash(token)}
                && rows[hash(token)] == Row(user, now + (if expiry == 0 then 1_800_000_000_000 else expiry), false)
                && forall h :: h in old(rows) && h != hash(token) ==>
                     rows[h] == if old(rows)[h].user == user then old(rows)[h].(used := true) else old(rows)[h]
    {
      var h := hash(token);
      var lifetime := expiry;
      if lifetime == 0 { lifetime := DEFAULT_TOKEN_EXPIRY; }
      var before := rows;
      rows := Superseded(rows, user);
      if h in rows {
        rows := before;
        return Err(DuplicateHash);
      }
      rows := rows[h := Row(user, now + lifetime, false)];
      return Ok(token);
    }

    method ValidateResetToken(token: string, now: nat) returns (r: Result<int, Error>)
      ensures r == Validated(rows, hash(token), now)
      ensures r == Err(InvalidToken) <==> hash(token) !in rows
      ensures r == Err(AlreadyUsed) <==> hash(token) in rows && rows[hash(token)].used
      ensures r == Err(TokenExpired) <==>
                hash(token) in rows && !rows[hash(token)].used && rows[hash(token)].expiresAt < now
      ensures r.Ok? <==> hash(token) in rows && !rows[hash(token)].used && now <= rows[hash(token)].expiresAt
      ensures r.Ok? ==> r.value == rows[hash(token)].user
    {
      var h := hash(token);
      if h !in rows { return Err(InvalidToken); }
      if rows[h].used { return Err(AlreadyUsed); }
      if now > rows[h].expiresAt { return Err(TokenExpired); }
      return Ok(rows[h].user);
    }

    method MarkTokenAsUsed(token: string) returns (ok: bool)
      modifies this`rows
      ensures rows == Used(old(rows), hash(token))
      ensures ok <==> hash(token) in old(rows) && !old(rows)[hash(token)].used
      ensures rows == if ok then old(rows)[hash(token) := old(rows)[hash(token)].(used := true)] else old(rows)
    {
      var h := hash(token);
      ok := h in rows && !rows[h].used;
      if ok { rows := rows[h := rows[h].(used := true)]; }
    }

    method CleanupExpiredTokens(olderThan: nat, now: nat) returns (deleted: nat)
      modifies this`rows
      ensures rows == Cleaned(old(rows), olderThan, now)
      ensures forall h :: h in rows <==> h in old(rows) && now - olderThan <= old(rows)[h].expiresAt
      ensures forall h :: h in rows ==> rows[h] == old(rows)[h]
      ensures deleted == |set h | h in old(rows) && h !in rows|
    {
      var gone := set h | h in rows && rows[h].expiresAt < now - olderThan;
      deleted := |gone|;
      rows := rows - gone;
      assert gone == set h | h in old(rows) && h !in rows;
    }
  }

  // ---- runs ----

  datatype Step =
    | Wait(d: nat)
    | Create(user: int, token: string, expiry: int)
    | MarkUsed(token: string)
    | CleanUp(olderThan: nat)

  datatype State = State(now: nat, rows: Table)

  function Next(s: State, hash: Hash, step: Step): State {
    match step
    case Wait(d) => s.(now := s.now + d)
    case Create(user, token, expiry) => s.(rows := Created(s.rows, user, hash(token), ExpiryOf(expiry, s.now)))
    case MarkUsed(token) => s.(rows := Used(s.rows, hash(token)))
    case CleanUp(olderThan) => s.(rows := Cleaned(s.rows, olderThan, s.now))
  }

  function Run(s: State, hash: Hash, steps: seq<Step>): State
    decreases |steps|
  {
    if steps == [] then s else Run(Next(s, hash, steps[0]), hash, steps[1..])
  }

  // ---- what the rows stand for ----

  datatype Grant = Grant(token: string, expiresAt: int)

  /** At most one grant for each user, by construction. */
  type Ledger = map<int, Grant>

  function Record(l: Ledger, now: nat, step: Step): Ledger {
    match step
    case Wait(_) => l
    case Create(user, token, expiry) => l[user := Grant(token, ExpiryOf(expiry, now))]
    case MarkUsed(token) => map user | user in l && l[user].token != token :: l[user]
    case CleanUp(_) => l
  }

  function RunLedger(l: Ledger, now: nat, steps: seq<Step>): Ledger
    decreases |steps|
  {
    if steps == [] then l
    else RunLedger(Record(l, now, steps[0]), now + if steps[0].Wait? then steps[0].d else 0, steps[1..])
  }

  /** Tokens are random: none is issued twice. */
  predicate Fresh(seen: set<string>, steps: seq<Step>)
    decreases |steps|
  {
    steps != [] ==>
      && (steps[0].Create? ==> steps[0].token !in seen)
      && Fresh(if steps[0].Create? then seen + {steps[0].token} else seen, steps[1..])
  }

  /** A grant is an unused row, or has expired and been cleaned up; no other row is unused. */
  ghost predicate Matches(s: State, l: Ledger, hash: Hash) {
    && (forall u :: u in l ==>
          if hash(l[u].token) in s.rows then s.rows[hash(l[u].token)] == Row(u, l[u].expiresAt, false)
          else l[u].expiresAt < s.now)
    && (forall h :: h in s.rows && !s.rows[h].used ==> s.rows[h].user in l && hash(l[s.rows[h].user].token) == h)
  }

  ghost predicate Known(s: State, l: Ledger, hash: Hash, seen: set<string>) {
    && (forall u :: u in l ==> l[u].token in seen)
    && (forall h :: h in s.rows ==> exists t :: t in seen && hash(t) == h)
  }

  lemma CreateMatches(s: State, l: Ledger, hash: Hash, seen: set<string>, step: Step)
    requires Injective(hash) && Matches(s, l, hash) && Known(s, l, hash, seen)
    requires step.Create? && step.token !in seen
    ensures Matches(Next(s, hash, step), Record(l, s.now, step), hash)
    ensures Known(Next(s, hash, step), Record(l, s.now, step), hash, seen + {step.token})
  {
    assert hash(step.token) !in s.rows;
    var s' := Next(s, hash, step);
    forall h | h in s'.rows ensures exists t :: t in seen + {step.token} && hash(t) == h {
      if h != hash(step.token) {
        var t :| t in seen && hash(t) == h;
        assert t in seen + {step.token};
      } else {
        assert step.token in seen + {step.token};
      }
    }
  }

  lemma NextMatches(s: State, l: Ledger, hash: Hash, seen: set<string>, step: Step)
    requires Injective(hash) && Matches(s, l, hash) && Known(s, l, hash, seen)
    requires !step.Create?
    ensures Matches(Next(s, hash, step), Record(l, s.now, step), hash)
    ensures Known(Next(s, hash, step), Record(l, s.now, step), hash, seen)
  {}

  lemma {:induction false} RunMatches(s: State, l: Ledger, hash: Hash, seen: set<string>, steps: seq<Step>)
    requires Injective(hash) && Matches(s, l, hash) && Known(s, l, hash, seen) && Fresh(seen, steps)
    ensures Matches(Run(s, hash, steps), RunLedger(l, s.now, steps), hash)
    decreases |steps|
  {
    if steps != [] {
      var t := Next(s, hash, steps[0]);
      if steps[0].Create? {
        CreateMatches(s, l, hash, seen, steps[0]);
        RunMatches(t, Record(l, s.now, steps[0]), hash, seen + {steps[0].token}, steps[1..]);
      } else {
        NextMatches(s, l, hash, seen, steps[0]);
        RunMatches(t, Record(l, s.now, steps[0]), hash, seen, steps[1..]);
      }
    }
  }

  function Final(now: nat, hash: Hash, steps: seq<Step>): State {
    Run(State(now, map[]), hash, steps)
  }

  /** After any run a token validates for a user exactly when it is that user's latest, has not been marked used, and
      has not expired; cleaning up changes nothing. */
  lemma ResetTokensRefineLedger(now: nat, hash: Hash, steps: seq<Step>, token: string, user: int)
    requires Injective(hash) && Fresh({}, steps)
    ensures var s := Final(now, hash, steps);
            var l := RunLedger(map[], now, steps);
            Validated(s.rows, hash(token), s.now) == Ok(user) <==>
            user in l && l[user].token == token && s.now <= l[user].expiresAt
  {
    RunMatches(State(now, map[]), map[], hash, {}, steps);
  }

  /** No user ever has two unused tokens, each creation being one step. */
  lemma OneUnusedTokenPerUser(now: nat, hash: Hash, steps: seq<Step>, g: string, h: string)
    requires Injective(hash) && Fresh({}, steps)
    ensures var rows := Final(now, hash, steps).rows;
            g in rows && h in rows && !rows[g].used && !rows[h].used && rows[g].user == rows[h].user ==> g == h
  {
    RunMatches(State(now, map[]), map[], hash, {}, steps);
  }

  function Clock(now: nat, steps: seq<Step>): nat
    decreases |steps|
  {
    if steps == [] then now else Clock(now + if steps[0].Wait? then steps[0].d else 0, steps[1..])
  }

  lemma {:induction false} LedgerAppends(l: Ledger, now: nat, a: seq<Step>, b: seq<Step>)
    ensures RunLedger(l, now, a + b) == RunLedger(RunLedger(l, now, a), Clock(now, a), b)
    decreases |a|
  {
    if a == [] {
      assert a + b == b;
    } else {
      assert (a + b)[0] == a[0] && (a + b)[1..] == a[1..] + b;
      LedgerAppends(Record(l, now, a[0]), now + if a[0].Wait? then a[0].d else 0, a[1..], b);
    }
  }

  lemma {:induction false} FreshLater(seen: set<string>, steps: seq<Step>, i: nat)
    requires Fresh(seen, steps) && i < |steps| && steps[i].Create?
    ensures steps[i].token !in seen
    ensures forall j :: i < j < |steps| && steps[j].Create? ==> steps[j].token != steps[i].token
    decreases |steps|
  {
    var seen' := if steps[0].Create? then seen + {steps[0].token} else seen;
    if i > 0 {
      FreshLater(seen', steps[1..], i - 1);
      assert forall j :: i < j < |steps| ==> steps[j] == steps[1..][j - 1];
    } else {
      forall j | 0 < j < |steps| && steps[j].Create? ensures steps[j].token != steps[0].token {
        FreshLater(seen', steps[1..], j - 1);
      }
    }
  }

  /** Once marked used, or once its user is issued another, a token validates at no later time. */
  lemma ConsumedNeverValidatesAgain(now: nat, hash: Hash, before: seq<Step>, step: Step, after: seq<Step>, token: string,
                                    user: int)
    requires Injective(hash) && Fresh({}, before + [step] + after)
    requires step == MarkUsed(token) || (step.Create? && step.user == user && step.token != token)
    requires exists i :: 0 <= i < |before| && before[i].Create? && before[i].user == user && before[i].token == token
    ensures var s := Final(now, hash, before + [step] + after);
            Validated(s.rows, hash(token), s.now).Err?
  {
    var steps := before + [step] + after;
    var i :| 0 <= i < |before| && before[i].Create? && before[i].user == user && before[i].token == token;
    FreshLater({}, steps, i);
    ResetTokensRefineLedger(now, hash, steps, token, user);
    assert steps == before + ([step] + after);
    LedgerAppends(map[], now, before, [step] + after);
    var later := Clock(now, before);
    var l := Record(RunLedger(map[], now, before), later, step);
    assert ([step] + after)[1..] == after;
    assert forall j :: 0 <= j < |after| ==> after[j] == steps[|before| + 1 + j];
    NotGrantedToUser(l, later, after, token, user);
    forall v | v != user ensures Validated(Final(now, hash, steps).rows, hash(token), Final(now, hash, steps).now) != Ok(v) {
      forall j | 0 <= j < |steps| && steps[j].Create? && steps[j].user == v ensures steps[j].token != token {
        if j < i { FreshLater({}, steps, j); }
      }
      NotGrantedToUser(map[], now, steps, token, v);
      ResetTokensRefineLedger(now, hash, steps, token, v);
    }
  }

  lemma {:induction false} NotGrantedToUser(l: Ledger, now: nat, steps: seq<Step>, token: string, user: int)
    requires user in l ==> l[user].token != token
    requires forall i :: 0 <= i < |steps| && steps[i].Create? && steps[i].user == user ==> steps[i].token != token
    ensures var l' := RunLedger(l, now, steps); user in l' ==> l'[user].token != token
    decreases |steps|
  {
    if steps != [] {
      NotGrantedToUser(Record(l, now, steps[0]), now + if steps[0].Wait? then steps[0].d else 0, steps[1..], token, user);
    }
  }
}
