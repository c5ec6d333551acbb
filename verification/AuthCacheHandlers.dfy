/** The code that fills and invalidates the auth cache, tied to the machine of AuthCache. */
module AuthCacheHandlers {
  import opened Prelude
  import Redis
  import opened AuthCache
  import opened AuthCacheFreshness
  import CacheKeys

  type Store = map<string, Redis.Entry<AuthData>>

  function KeyText(key: Key): string {
    CacheKeys.AuthUserKey(key.0, key.1)
  }

  /** A request finds the same under the key's text as the machine finds under the key. */
  predicate SameAt(store: Store, s: State, key: Key)
    requires s.history != []
  {
    Redis.Lookup(store, KeyText(key), Present(s).now) ==
    match Hit(s, key)
    case None => None
    case Some(e) => Some(Redis.Entry(e.data, Some(e.expiresAt)))
  }

  ghost predicate Represents(store: Store, s: State)
    requires s.history != []
  {
    forall key :: SameAt(store, s, key)
  }

  function Selected(store: Store, pattern: string, now: nat): set<string>
    requires CacheKeys.Plain(pattern)
  {
    set text | text in store && Redis.Lookup(store, text, now).Some? && CacheKeys.Matches(pattern, text)
  }

  class Cache {
    var store: Store
    // SCAN visits the keys slot by slot; the cursor names the slot.
    const slots: nat
    const slotOf: string -> nat

    constructor (slots: nat, slotOf: string -> nat)
      requires slots > 0 && forall text :: slotOf(text) < slots
      ensures Valid() && store == map[]
    {
      this.store, this.slots, this.slotOf := map[], slots, slotOf;
    }

    ghost predicate Valid() {
      slots > 0 && forall text :: slotOf(text) < slots
    }

    method Get(key: string, now: nat) returns (data: Option<AuthData>)
      ensures data == match Redis.Lookup(store, key, now) case None => None case Some(e) => Some(e.value)
      ensures data == if key in store && (store[key].expiresAt.Some? ==> now < store[key].expiresAt.value)
                      then Some(store[key].value) else None
    {
      var found := Redis.Lookup(store, key, now);
      data := if found.Some? then Some(found.value.value) else None;
    }

    method Set(key: string, data: AuthData, ttl: nat, now: nat)
      modifies this`store
      ensures store == old(store)[key := Redis.Stored(data, ttl, now)]
      ensures store == old(store)[key := Redis.Entry(data, if ttl == 0 then None else Some(now + ttl))]
    {
      store := store[key := Redis.Stored(data, ttl, now)];
    }

    method Del(keys: set<string>)
      modifies this`store
      ensures store == old(store) - keys
    {
      store := store - keys;
    }

    method Scan(cursor: nat, pattern: string, now: nat) returns (keys: set<string>, next: nat)
      requires Valid() && CacheKeys.Plain(pattern) && cursor < slots
      ensures keys == set text | text in Selected(store, pattern, now) && slotOf(text) == cursor
      ensures next == if cursor + 1 < slots then cursor + 1 else 0
    {
      keys := set text | text in Selected(store, pattern, now) && slotOf(text) == cursor;
      next := if cursor + 1 < slots then cursor + 1 else 0;
    }

    /** The cursor loop, with a clock reading for every SCAN: it deletes only keys the pattern matches, among them all
        that were there before and are readable still at its last reading. */
    method DelByPattern(pattern: string, clock: nat -> nat) returns (ghost gone: set<string>)
      requires Valid() && CacheKeys.Plain(pattern) && forall i, j :: 0 <= i <= j ==> clock(i) <= clock(j)
      modifies this`store
      ensures store == old(store) - gone
      ensures forall text :: text in gone ==> CacheKeys.Matches(pattern, text)
      ensures Selected(old(store), pattern, clock(slots - 1)) <= gone
    {
      var cursor, done := 0, false;
      gone := {};
      while !done
        invariant cursor < slots
        invariant store == old(store) - gone
        invariant forall text :: text in gone ==> CacheKeys.Matches(pattern, text)
        invariant forall text :: text in Selected(old(store), pattern, clock(slots - 1)) && (done || slotOf(text) < cursor) ==>
                    text in gone
        decreases if done then 0 else slots - cursor
      {
        var keys, next := Scan(cursor, pattern, clock(cursor));
        Del(keys);
        forall text | text in Selected(old(store), pattern, clock(slots - 1)) && slotOf(text) == cursor
          ensures text in gone + keys
        {
          assert clock(cursor) <= clock(slots - 1);
        }
        gone := gone + keys;
        cursor := next;
        if cursor == 0 { done := true; }
      }
    }
  }

  // ---- the middleware ----

  datatype Reply = UserNotFound | AccountDeactivated | AccountLocked | Served(permissions: seq<string>)

  function FillOf(db: Db, row: User): AuthData {
    AuthData(row.active, row.locked, RoleName(db, row.role),
             if row.role in db.roleNames then PermissionNames(db, row.role) else [], OrgName(db, row.org))
  }

  /** What the database alone answers. */
  function Uncached(db: Db, user: int, org: int): Reply {
    match FindUser(db, user, org)
    case None => UserNotFound
    case Some(row) =>
      if !row.active then AccountDeactivated else if row.locked then AccountLocked else Served(FillOf(db, row).permissions)
  }

  function Request(h: nat, user: int, org: int): seq<Step> {
    [Begin(h, user, org)] + Proceeds(h, 4)
  }

  /** A request with nothing between its statements does to the cache what the machine's fill does. */
  method JWTMiddleware(cache: Cache, db: Db, user: int, org: int, now: nat, ghost s: State, ghost h: nat)
    returns (reply: Reply)
    requires s.history != [] && Present(s) == Moment(now, db) && h !in s.fills && Represents(cache.store, s)
    modifies cache`store
    ensures Represents(cache.store, Run(s, Request(h, user, org)))
    ensures reply == match Hit(s, (user, org))
                     case None => Uncached(db, user, org)
                     case Some(e) =>
                       if !e.data.active then AccountDeactivated
                       else if e.data.locked then AccountLocked else Served(e.data.permissions)
  {
    assert SameAt(cache.store, s, (user, org));
    RequestAlone(s, h, user, org);
    if Run(s, Request(h, user, org)).cache == s.cache {
      RepresentsSame(cache.store, s, Run(s, Request(h, user, org)));
    }
    var key := CacheKeys.AuthUserKey(user, org);
    var cached := cache.Get(key, now);
    if cached.Some? {
      if !cached.value.active { return AccountDeactivated; }
      if cached.value.locked { return AccountLocked; }
      return Served(cached.value.permissions);
    }
    var found := FindUser(db, user, org);
    if found.None? { return UserNotFound; }
    var row := found.value;
    if !row.active { return AccountDeactivated; }
    if row.locked { return AccountLocked; }
    var roleName, names := "", [];
    if row.role in db.roleNames {
      roleName := db.roleNames[row.role];
      var permissions := if row.role in db.permissions then db.permissions[row.role] else [];
      for i := 0 to |permissions|
        invariant names == Names(permissions)[..i]
      {
        assert Names(permissions)[..i + 1] == Names(permissions)[..i] + [permissions[i].name];
        names := names + [permissions[i].name];
      }
    }
    var data := AuthData(row.active, row.locked, roleName, names, OrgName(db, row.org));
    assert data == FillOf(db, row);
    cache.Set(key, data, ENTRY_TTL, now);
    RepresentsSet(old(cache.store), s, Run(s, Request(h, user, org)), (user, org), data);
    return Served(names);
  }

  /** What a request that misses is answered, from the rows alone: whether the user is found, active and unlocked, and
      then the names of the role's permissions, one by one and in order, none without a role row. */
  lemma MissAnswers(db: Db, user: int, org: int)
    ensures var reply := Uncached(db, user, org);
            var found := user in db.users && db.users[user].org == org;
            && (reply == UserNotFound <==> !found)
            && (reply == AccountDeactivated <==> found && !db.users[user].active)
            && (reply == AccountLocked <==> found && db.users[user].active && db.users[user].locked)
            && (reply.Served? ==>
                  var role := db.users[user].role;
                  var held := if role in db.roleNames && role in db.permissions then db.permissions[role] else [];
                  && |reply.permissions| == |held|
                  && forall i :: 0 <= i < |held| ==> reply.permissions[i] == held[i].name)
  {}

  /** And what it then caches for 15 minutes: the user as read, the role's and the organisation's names, and the list it
      was served. */
  lemma MissCaches(s: State, h: nat, user: int, org: int)
    requires s.history != [] && h !in s.fills && Hit(s, (user, org)).None? && Uncached(Present(s).db, user, org).Served?
    ensures var db, cache := Present(s).db, Run(s, Request(h, user, org)).cache;
            && user in db.users && (user, org) in cache && cache == s.cache[(user, org) := cache[(user, org)]]
            && cache[(user, org)].expiresAt == Present(s).now + 900_000_000_000
            && var role := db.users[user].role;
               cache[(user, org)].data ==
               AuthData(true, false, if role in db.roleNames then db.roleNames[role] else "",
                        Uncached(db, user, org).permissions, if org in db.orgNames then db.orgNames[org] else "")
  {
    RequestAlone(s, h, user, org);
  }

  /** In a reachable state every hit is served: the two refusals of the hit path cannot happen. */
  lemma HitsAreServed(now: nat, db: Db, steps: seq<Step>, user: int, org: int)
    ensures var s := Run(Start(now, db), steps);
            var hit := Hit(s, (user, org));
            hit.Some? ==> hit.value.data.active && !hit.value.data.locked
  {
    if Hit(Run(Start(now, db), steps), (user, org)).Some? { HitsAreRecent(now, db, steps, (user, org)); }
  }

  lemma {:induction false} ProceedsNothing(s: State, h: nat, n: nat)
    requires s.history != [] && h !in s.fills
    ensures Run(s, Proceeds(h, n)).cache == s.cache && Present(Run(s, Proceeds(h, n))) == Present(s)
    decreases n
  {
    if n > 0 {
      var steps := Proceeds(h, n);
      assert steps[0] == Proceed(h) && steps[1..] == Proceeds(h, n - 1);
      ProceedsNothing(Next(s, Proceed(h)), h, n - 1);
    }
  }

  /** A request alone leaves the cache as it is, or adds what the database holds now. */
  lemma RequestAlone(s: State, h: nat, user: int, org: int)
    requires s.history != [] && h !in s.fills
    ensures var s' := Run(s, Request(h, user, org));
            var row := FindUser(Present(s).db, user, org);
            && Present(s') == Present(s)
            && if Hit(s, (user, org)).Some? || !Uncached(Present(s).db, user, org).Served? then s'.cache == s.cache
               else && (user, org) in s'.cache
                    && s'.cache == s.cache[(user, org) := s'.cache[(user, org)]]
                    && s'.cache[(user, org)].data == FillOf(Present(s).db, row.value)
                    && s'.cache[(user, org)].expiresAt == Present(s).now + ENTRY_TTL
  {
    var steps := Request(h, user, org);
    assert steps[0] == Begin(h, user, org) && steps[1..] == Proceeds(h, 4);
    var s1 := Next(s, Begin(h, user, org));
    if Hit(s, (user, org)).Some? || !Uncached(Present(s).db, user, org).Served? {
      ProceedsNothing(s1, h, 4);
    } else {
      FourProceeds(s1, h, Present(s).db, FindUser(Present(s).db, user, org).value);
    }
  }

  lemma FourProceeds(s: State, h: nat, db: Db, row: User)
    requires s.history != [] && Present(s).db == db && h in s.fills
    requires s.fills[h].UserRead? && s.fills[h].row == row
    ensures var s' := Run(s, Proceeds(h, 4));
            var key := s.fills[h].key;
            && Present(s') == Present(s) && key in s'.cache && s'.cache == s.cache[key := s'.cache[key]]
            && s'.cache[key].data == FillOf(db, row) && s'.cache[key].expiresAt == Present(s).now + ENTRY_TTL
  {
    var s1 := Next(s, Proceed(h));
    var s2 := Next(s1, Proceed(h));
    var s3 := Next(s2, Proceed(h));
    var s4 := Next(s3, Proceed(h));
    assert s1.fills[h].RoleRead? && s1.fills[h].roleName == RoleName(db, row.role);
    assert s2.fills[h].PermissionsRead? && s2.fills[h].permissions == FillOf(db, row).permissions;
    assert s3.fills[h].Complete? && s3.fills[h].data == FillOf(db, row);
    OneProceed(s3, h, 1); OneProceed(s2, h, 2); OneProceed(s1, h, 3); OneProceed(s, h, 4);
    assert Run(s4, Proceeds(h, 0)) == s4;
  }

  lemma OneProceed(s: State, h: nat, n: nat)
    requires s.history != [] && n > 0
    ensures Run(s, Proceeds(h, n)) == Run(Next(s, Proceed(h)), Proceeds(h, n - 1))
  {
    assert Proceeds(h, n)[0] == Proceed(h) && Proceeds(h, n)[1..] == Proceeds(h, n - 1);
  }

  lemma RepresentsSame(store: Store, s: State, s': State)
    requires s.history != [] && s'.history != [] && Represents(store, s)
    requires Present(s') == Present(s) && s'.cache == s.cache
    ensures Represents(store, s')
  {
    forall key ensures SameAt(store, s', key) { assert SameAt(store, s, key); }
  }

  lemma RepresentsSet(store: Store, s: State, s': State, key: Key, data: AuthData)
    requires s.history != [] && s'.history != [] && Represents(store, s) && Present(s') == Present(s)
    requires key in s'.cache && s'.cache == s.cache[key := s'.cache[key]]
    requires s'.cache[key].data == data && s'.cache[key].expiresAt == Present(s).now + ENTRY_TTL
    ensures Represents(store[KeyText(key) := Redis.Stored(data, ENTRY_TTL, Present(s).now)], s')
  {
    var store' := store[KeyText(key) := Redis.Stored(data, ENTRY_TTL, Present(s).now)];
    forall k ensures SameAt(store', s', k) {
      assert SameAt(store, s, k);
      if KeyText(k) == KeyText(key) { CacheKeys.KeysAreDistinct(k.0, k.1, key.0, key.1); }
    }
  }

  // ---- the use cases ----

  class Database {
    var db: Db
    // Passwords of the users not marked deleted; a fill does not read them.
    var passwords: map<int, string>
  }

  /** Deleting the texts a scope's pattern selects is the machine's sweep of that scope. */
  lemma RepresentsSweep(store: Store, s: State, scope: Scope, texts: set<string>)
    requires s.history != [] && Represents(store, s)
    requires CacheKeys.Plain(Pattern(scope)) && Selected(store, Pattern(scope), Present(s).now) <= texts
    requires forall text :: text in texts ==> CacheKeys.Matches(Pattern(scope), text)
    ensures Represents(store - texts, Next(s, Sweep(s, scope)))
  {
    var s' := Next(s, Sweep(s, scope));
    forall key ensures SameAt(store - texts, s', key) {
      assert SameAt(store, s, key);
      PatternSelectsItsScope(scope, key.0, key.1);
      if Hit(s, key).Some? && InScope(scope, key) { assert KeyText(key) in Selected(store, Pattern(scope), Present(s).now); }
    }
  }

  lemma RepresentsWrite(store: Store, s: State, db: Db)
    requires s.history != [] && Represents(store, s)
    ensures Represents(store, Next(s, Write(db)))
  {
    forall key ensures SameAt(store, Next(s, Write(db)), key) { assert SameAt(store, s, key); }
  }

  /** The whole use case: the write, then an undisturbed sweep of `scope`. */
  function WriteAndSweep(s: State, db: Db, scope: Scope): (s': State)
    requires s.history != []
  {
    Next(Next(s, Write(db)), Sweep(Next(s, Write(db)), scope))
  }

  function Toggled(db: Db, user: int, org: int): Db {
    if FindUser(db, user, org).None? then db
    else db.(users := db.users[user := db.users[user].(active := !db.users[user].active)])
  }

  method UpdateUserStatus(repo: Database, cache: Cache, user: int, org: int, now: nat, ghost s: State)
    requires s.history != [] && Present(s) == Moment(now, repo.db) && Represents(cache.store, s)
    modifies repo`db, cache`store
    ensures repo.db == Toggled(old(repo.db), user, org)
    ensures repo.db == old(repo.db).(users := repo.db.users) && repo.db.users.Keys == old(repo.db.users).Keys
    ensures forall u :: u in repo.db.users ==>
              var row := old(repo.db.users)[u];
              repo.db.users[u] == if u == user && row.org == org then row.(active := !row.active) else row
    ensures Represents(cache.store, WriteAndSweep(s, repo.db, KeyScope(user, org)))
  {
    if FindUser(repo.db, user, org).Some? {
      var row := repo.db.users[user];
      repo.db := repo.db.(users := repo.db.users[user := row.(active := !row.active)]);
    }
    var key := CacheKeys.AuthUserKey(user, org);
    RepresentsWrite(cache.store, s, repo.db);
    SelectedByKey(cache.store, user, org, now);
    RepresentsSweep(cache.store, Next(s, Write(repo.db)), KeyScope(user, org), {key});
    cache.Del({key});
  }

  lemma SelectedByKey(store: Store, user: int, org: int, now: nat)
    ensures CacheKeys.Plain(CacheKeys.AuthUserKey(user, org))
    ensures CacheKeys.Matches(CacheKeys.AuthUserKey(user, org), CacheKeys.AuthUserKey(user, org))
    ensures Selected(store, CacheKeys.AuthUserKey(user, org), now) <= {CacheKeys.AuthUserKey(user, org)}
  {
    var key := CacheKeys.AuthUserKey(user, org);
    CacheKeys.KeyIsLiteral(user, org);
    CacheKeys.LiteralMatchesItself(key, key);
    forall text | text in Selected(store, key, now) ensures text == key { CacheKeys.LiteralMatchesItself(key, text); }
  }

  /** `owner` is the organisation of the role row found, if any. `rows` are the permissions the repository's
      transaction leaves the role with, or nothing when it is rolled back with an error. */
  method AssignPermissionsToRole(repo: Database, cache: Cache, org: int, role: int, owner: Option<int>,
                                 rows: Option<seq<Permission>>, now: nat, ghost s: State) returns (ok: bool)
    requires cache.Valid() && s.history != [] && Present(s) == Moment(now, repo.db) && Represents(cache.store, s)
    modifies repo`db, cache`store
    ensures ok <==> owner == Some(org) && rows.Some?
    ensures !ok ==> repo.db == old(repo.db) && cache.store == old(cache.store)
    ensures ok ==>
              && repo.db == old(repo.db).(permissions := old(repo.db).permissions[role := rows.value])
              && Represents(cache.store, WriteAndSweep(s, repo.db, OrgScope(org)))
  {
    if owner != Some(org) { return false; }
    if rows.None? { return false; }
    repo.db := repo.db.(permissions := repo.db.permissions[role := rows.value]);
    var pattern := CacheKeys.AuthUserOrgPattern(org);
    CacheKeys.OrgPatternSelectsItsOrg(0, org, org);
    RepresentsWrite(cache.store, s, repo.db);
    ghost var gone := cache.DelByPattern(pattern, _ => now);
    RepresentsSweep(old(cache.store), Next(s, Write(repo.db)), OrgScope(org), gone);
    return true;
  }

  method UpdatePassword(repo: Database, cache: Cache, user: int, password: string, now: nat, ghost s: State)
    returns (ok: bool)
    requires cache.Valid() && s.history != [] && Present(s) == Moment(now, repo.db) && Represents(cache.store, s)
    modifies repo`passwords, cache`store
    ensures ok <==> user in old(repo.passwords)
    ensures !ok ==> repo.passwords == old(repo.passwords) && cache.store == old(cache.store)
    ensures ok ==>
              && repo.passwords == old(repo.passwords)[user := password]
              && Represents(cache.store, WriteAndSweep(s, repo.db, UserScope(user)))
  {
    if user !in repo.passwords { return false; }
    repo.passwords := repo.passwords[user := password];
    var pattern := CacheKeys.AuthUserPattern(user);
    CacheKeys.UserPatternSelectsItsUser(user, user, 0);
    RepresentsWrite(cache.store, s, repo.db);
    ghost var gone := cache.DelByPattern(pattern, _ => now);
    RepresentsSweep(old(cache.store), Next(s, Write(repo.db)), UserScope(user), gone);
    return true;
  }

  /** What the use cases achieve: after one of them, whatever runs later, a hit in its scope was read after its write. */
  lemma UseCaseMakesHitsFresh(s: State, db: Db, scope: Scope, later: seq<Step>, key: Key)
    requires Inv(s) && Quiet(s, scope) && InScope(scope, key)
    requires Hit(Run(WriteAndSweep(s, db, scope), later), key).Some?
    ensures |s.history| <= Hit(Run(WriteAndSweep(s, db, scope), later), key).value.userAt
  {
    var w := Next(s, Write(db));
    var steps := [Sweep(w, scope)] + later;
    assert steps[0] == Sweep(w, scope) && steps[1..] == later;
    SweepIsExact(w, scope, key, later);
    FreshAfterInvalidation(s, db, steps, scope, key);
  }
}
