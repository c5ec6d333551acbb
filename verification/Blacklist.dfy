/** The token blacklist: expiring Redis keys behave as revocation records that never expire. */
module Blacklist {
  import opened Prelude
  import opened Redis

  const DAY_SECONDS: nat := 86_400
  const REFRESH_SECONDS: nat := 7 * DAY_SECONDS
  const ACCESS_SECONDS: nat := 30 * 60
  const TWO_FACTOR_SECONDS: nat := 5 * 60
  const EXPIRY_BUFFER: nat := HOUR
  const USER_MARK_TTL: nat := 7 * DAY

  // JWT times are whole seconds; `text` distinguishes tokens whose claims agree.
  datatype Jwt = Jwt(text: string, user: int, issuedAt: Option<nat>, expiresAt: nat)

  datatype Key = TokenMark(token: Jwt) | UserMark(user: int)

  datatype Kind = Access | Refresh | TwoFactor

  function Lifetime(kind: Kind): nat {
    match kind
    case Access => ACCESS_SECONDS
    case Refresh => REFRESH_SECONDS
    case TwoFactor => TWO_FACTOR_SECONDS
  }

  /** GenerateToken and GenerateAccessToken, GenerateRefreshToken, Generate2FASessionToken at instant `now`. */
  function Issue(kind: Kind, text: string, user: int, now: nat): Jwt {
    Jwt(text, user, Some(SecondOf(now)), SecondOf(now + Lifetime(kind) * SECOND))
  }

  /** No token outlives the mark that is to cover it. */
  predicate Lawful(t: Jwt) {
    t.issuedAt.Some? ==> t.expiresAt <= t.issuedAt.value + REFRESH_SECONDS
  }

  lemma IssuedTokensAreLawful(kind: Kind, text: string, user: int, now: nat)
    ensures Lawful(Issue(kind, text, user, now))
    ensures Issue(kind, text, user, now).expiresAt == SecondOf(now) + Lifetime(kind)
    ensures Issue(kind, text, user, now) ==
            Jwt(text, user, Some(now / 1_000_000_000),
                now / 1_000_000_000 + match kind case Access => 1_800 case Refresh => 604_800 case TwoFactor => 300)
  {
    var s := SecondOf(now);
    assert s * SECOND + Lifetime(kind) * SECOND == (s + Lifetime(kind)) * SECOND;
  }

  type Store = map<Key, Entry<nat>>

  function MarkToken(store: Store, t: Jwt, now: nat): Store {
    var end := t.expiresAt * SECOND + EXPIRY_BUFFER;
    if end < now then store else store[TokenMark(t) := Stored(0, end - now, now)]
  }

  function MarkUser(store: Store, user: int, now: nat): Store {
    store[UserMark(user) := Stored(SecondOf(now), USER_MARK_TTL, now)]
  }

  function UserBlacklisted(store: Store, user: int, issuedAt: nat, now: nat): bool {
    var mark := Lookup(store, UserMark(user), now);
    mark.Some? && issuedAt < mark.value.value
  }

  /** ValidateTokenWithBlacklist on a token whose signature is good. */
  predicate Validates(store: Store, t: Jwt, now: nat) {
    && now < t.expiresAt * SECOND
    && Lookup(store, TokenMark(t), now).None?
    && (t.issuedAt.Some? ==> !UserBlacklisted(store, t.user, t.issuedAt.value, now))
  }

  // ---- the Redis-backed object ----

  class TokenBlacklist {
    var store: Store

    method BlacklistToken(t: Jwt, now: nat)
      modifies this
      ensures store == MarkToken(old(store), t, now)
      ensures var end := t.expiresAt * 1_000_000_000 + 3_600_000_000_000;
              store == if end < now then old(store)
                       else old(store)[TokenMark(t) := Entry(0, if end == now then None else Some(end))]
    {
      var ttl: int := t.expiresAt * SECOND - now + EXPIRY_BUFFER;
      if ttl < 0 { return; }
      store := store[TokenMark(t) := Stored(0, ttl, now)];
    }

    method RemoveFromBlacklist(t: Jwt)
      modifies this
      ensures store == old(store) - {TokenMark(t)}
    {
      store := store - {TokenMark(t)};
    }

    method BlacklistUserTokens(user: int, now: nat)
      modifies this
      ensures store == MarkUser(old(store), user, now)
      ensures store == old(store)[UserMark(user) := Entry(now / 1_000_000_000, Some(now + 604_800_000_000_000))]
    {
      store := store[UserMark(user) := Stored(SecondOf(now), USER_MARK_TTL, now)];
    }

    method ClearUserTokenBlacklist(user: int)
      modifies this
      ensures store == old(store) - {UserMark(user)}
    {
      store := store - {UserMark(user)};
    }

    method ValidateTokenWithBlacklist(t: Jwt, now: nat) returns (ok: bool)
      ensures ok == Validates(store, t, now)
      ensures ok <==>
                && now < t.expiresAt * 1_000_000_000
                && !(TokenMark(t) in store
                     && (store[TokenMark(t)].expiresAt.Some? ==> now < store[TokenMark(t)].expiresAt.value))
                && !(t.issuedAt.Some? && UserMark(t.user) in store
                     && (store[UserMark(t.user)].expiresAt.Some? ==> now < store[UserMark(t.user)].expiresAt.value)
                     && t.issuedAt.value < store[UserMark(t.user)].value)
    {
      if now >= t.expiresAt * SECOND { return false; }
      if Lookup(store, TokenMark(t), now).Some? { return false; }
      if t.issuedAt.Some? {
        var mark := Lookup(store, UserMark(t.user), now);
        if mark.Some? && t.issuedAt.value < mark.value.value { return false; }
      }
      return true;
    }
  }

  // ---- runs, and what they mean without expiry ----

  datatype Op =
    | Wait(d: nat)
    | RevokeToken(token: Jwt)
    | RevokeUser(user: int)
    | RestoreToken(token: Jwt)
    | RestoreUser(user: int)

  function Apply(store: Store, now: nat, op: Op): Store {
    match op
    case Wait(_) => store
    case RevokeToken(t) => MarkToken(store, t, now)
    case RevokeUser(u) => MarkUser(store, u, now)
    case RestoreToken(t) => store - {TokenMark(t)}
    case RestoreUser(u) => store - {UserMark(u)}
  }

  function Later(now: nat, op: Op): nat {
    if op.Wait? then now + op.d else now
  }

  function RunStore(store: Store, now: nat, ops: seq<Op>): Store
    decreases |ops|
  {
    if ops == [] then store else RunStore(Apply(store, now, ops[0]), Later(now, ops[0]), ops[1..])
  }

  function RunClock(now: nat, ops: seq<Op>): (t: nat)
    ensures now <= t
    decreases |ops|
  {
    if ops == [] then now else RunClock(Later(now, ops[0]), ops[1..])
  }

  /** What was revoked and not restored: tokens, and for each user the latest second of a revocation. */
  datatype Ledger = Ledger(tokens: set<Jwt>, cutoffs: map<int, nat>)

  function Record(l: Ledger, now: nat, op: Op): Ledger {
    match op
    case Wait(_) => l
    case RevokeToken(t) => l.(tokens := l.tokens + {t})
    case RevokeUser(u) => l.(cutoffs := l.cutoffs[u := SecondOf(now)])
    case RestoreToken(t) => l.(tokens := l.tokens - {t})
    case RestoreUser(u) => l.(cutoffs := l.cutoffs - {u})
  }

  function RunLedger(l: Ledger, now: nat, ops: seq<Op>): Ledger
    decreases |ops|
  {
    if ops == [] then l else RunLedger(Record(l, now, ops[0]), Later(now, ops[0]), ops[1..])
  }

  predicate Permits(l: Ledger, t: Jwt) {
    && t !in l.tokens
    && (t.issuedAt.Some? && t.user in l.cutoffs ==> l.cutoffs[t.user] <= t.issuedAt.value)
  }

  /** Each record is either still marked or covers only tokens that have expired. */
  ghost predicate Refines(store: Store, l: Ledger, now: nat) {
    && (forall t :: t !in l.tokens ==> TokenMark(t) !in store)
    && (forall t :: t in l.tokens ==> TokenCovered(store, t, now))
    && (forall u :: u !in l.cutoffs ==> UserMark(u) !in store)
    && (forall u :: u in l.cutoffs ==> UserCovered(store, u, l.cutoffs[u], now))
  }

  predicate TokenCovered(store: Store, t: Jwt, now: nat) {
    now < t.expiresAt * SECOND ==> Lookup(store, TokenMark(t), now).Some?
  }

  predicate UserCovered(store: Store, u: int, cutoff: nat, now: nat) {
    && UserMark(u) in store && store[UserMark(u)].value == cutoff
    && store[UserMark(u)].expiresAt.Some?
    && cutoff * SECOND + USER_MARK_TTL <= store[UserMark(u)].expiresAt.value
    && cutoff * SECOND <= now
  }

  /** A token mark lasts while its token does: it is set to end with it, or an hour later. */
  ghost predicate MarksLast(store: Store) {
    forall t :: TokenMark(t) in store && store[TokenMark(t)].expiresAt.Some? ==>
      t.expiresAt * SECOND + EXPIRY_BUFFER <= store[TokenMark(t)].expiresAt.value
  }

  lemma RefinesStep(store: Store, l: Ledger, now: nat, op: Op)
    requires Refines(store, l, now) && MarksLast(store)
    ensures Refines(Apply(store, now, op), Record(l, now, op), Later(now, op)) && MarksLast(Apply(store, now, op))
  {
    var store', l', now' := Apply(store, now, op), Record(l, now, op), Later(now, op);
    forall t | t in l'.tokens ensures TokenCovered(store', t, now') {
      if t in l.tokens { assert TokenCovered(store, t, now); }
    }
    forall u | u in l'.cutoffs ensures UserCovered(store', u, l'.cutoffs[u], now') {
      if u in l.cutoffs { assert UserCovered(store, u, l.cutoffs[u], now); }
    }
  }

  lemma {:induction false} RefinesRun(store: Store, l: Ledger, now: nat, ops: seq<Op>)
    requires Refines(store, l, now) && MarksLast(store)
    ensures Refines(RunStore(store, now, ops), RunLedger(l, now, ops), RunClock(now, ops))
    decreases |ops|
  {
    if ops != [] {
      RefinesStep(store, l, now, ops[0]);
      RefinesRun(Apply(store, now, ops[0]), Record(l, now, ops[0]), Later(now, ops[0]), ops[1..]);
    }
  }

  /** For every run and every token the generators can issue: it validates exactly when it has not expired and the
      ledger permits it. Marks that expire are as good as marks that do not. */
  lemma BlacklistRefinesLedger(now: nat, ops: seq<Op>, t: Jwt)
    requires Lawful(t)
    ensures Validates(RunStore(map[], now, ops), t, RunClock(now, ops))
       <==> RunClock(now, ops) < t.expiresAt * SECOND && Permits(RunLedger(Ledger({}, map[]), now, ops), t)
  {
    RefinesRun(map[], Ledger({}, map[]), now, ops);
    var store, l, end := RunStore(map[], now, ops), RunLedger(Ledger({}, map[]), now, ops), RunClock(now, ops);
    if t in l.tokens { assert TokenCovered(store, t, end); }
    if t.user in l.cutoffs && t.issuedAt.Some? {
      assert UserCovered(store, t.user, l.cutoffs[t.user], end);
      if t.issuedAt.value < l.cutoffs[t.user] {
        assert t.expiresAt * SECOND <= l.cutoffs[t.user] * SECOND + USER_MARK_TTL;
      }
    }
  }

  /** A run that restores neither the token nor its user. */
  predicate Keeps(ops: seq<Op>, t: Jwt) {
    forall i :: 0 <= i < |ops| ==> ops[i] != RestoreToken(t) && ops[i] != RestoreUser(t.user)
  }

  lemma {:induction false} ForbiddenStays(l: Ledger, now: nat, ops: seq<Op>, t: Jwt)
    requires Keeps(ops, t) && !Permits(l, t)
    requires t.user in l.cutoffs ==> l.cutoffs[t.user] <= SecondOf(now)
    ensures !Permits(RunLedger(l, now, ops), t)
    decreases |ops|
  {
    if ops != [] {
      var now' := Later(now, ops[0]);
      assert SecondOf(now) <= SecondOf(now');
      ForbiddenStays(Record(l, now, ops[0]), now', ops[1..], t);
    }
  }

  lemma {:induction false} RunsCompose(store: Store, l: Ledger, now: nat, a: seq<Op>, b: seq<Op>)
    ensures RunStore(store, now, a + b) == RunStore(RunStore(store, now, a), RunClock(now, a), b)
    ensures RunLedger(l, now, a + b) == RunLedger(RunLedger(l, now, a), RunClock(now, a), b)
    ensures RunClock(now, a + b) == RunClock(RunClock(now, a), b)
    decreases |a|
  {
    if a == [] {
      assert a + b == b;
    } else {
      RunsCompose(Apply(store, now, a[0]), Record(l, now, a[0]), Later(now, a[0]), a[1..], b);
      assert (a + b)[1..] == a[1..] + b;
    }
  }

  lemma {:induction false} CutoffsArePast(l: Ledger, now: nat, ops: seq<Op>, u: int)
    requires u in l.cutoffs ==> l.cutoffs[u] <= SecondOf(now)
    ensures u in RunLedger(l, now, ops).cutoffs ==> RunLedger(l, now, ops).cutoffs[u] <= SecondOf(RunClock(now, ops))
    decreases |ops|
  {
    if ops != [] {
      assert SecondOf(now) <= SecondOf(Later(now, ops[0]));
      CutoffsArePast(Record(l, now, ops[0]), Later(now, ops[0]), ops[1..], u);
    }
  }

  /** Whatever ran before: once the token is blacklisted, or its user is in a later second than the token's,
      it never validates again, across any number of later marks. */
  lemma RevokedNeverReturns(now: nat, before: seq<Op>, op: Op, after: seq<Op>, t: Jwt)
    requires Lawful(t) && Keeps(after, t)
    requires || op == RevokeToken(t)
             || (op == RevokeUser(t.user) && t.issuedAt.Some? && t.issuedAt.value < SecondOf(RunClock(now, before)))
    ensures !Validates(RunStore(map[], now, before + [op] + after), t, RunClock(now, before + [op] + after))
  {
    var l0 := Ledger({}, map[]);
    RunsCompose(map[], l0, now, before + [op], after);
    RunsCompose(map[], l0, now, before, [op]);
    var l, mid := RunLedger(l0, now, before), RunClock(now, before);
    CutoffsArePast(l0, now, before, t.user);
    assert RunLedger(l, mid, [op]) == Record(l, mid, op) && RunClock(mid, [op]) == mid;
    ForbiddenStays(Record(l, mid, op), mid, after, t);
    BlacklistRefinesLedger(now, before + [op] + after, t);
  }
}
