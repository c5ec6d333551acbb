/** What invalidating after a write guarantees about later hits, and what it does not. */
module AuthCacheFreshness {
  import opened Prelude
  import opened AuthCache
  import CacheKeys

  // The keys a use case invalidates: an organisation's pattern, a user's pattern, or one key.
  datatype Scope = OrgScope(org: int) | UserScope(user: int) | KeyScope(user: int, org: int)

  function Pattern(scope: Scope): string {
    match scope
    case OrgScope(org) => CacheKeys.AuthUserOrgPattern(org)
    case UserScope(user) => CacheKeys.AuthUserPattern(user)
    case KeyScope(user, org) => CacheKeys.AuthUserKey(user, org)
  }

  predicate InScope(scope: Scope, key: Key) {
    match scope
    case OrgScope(org) => key.1 == org
    case UserScope(user) => key.0 == user
    case KeyScope(user, org) => key == (user, org)
  }

  /** Redis, matching the pattern's text against the key's text, selects exactly the scope. */
  lemma PatternSelectsItsScope(scope: Scope, user: int, org: int)
    ensures CacheKeys.Plain(Pattern(scope))
    ensures CacheKeys.Matches(Pattern(scope), CacheKeys.AuthUserKey(user, org)) <==> InScope(scope, (user, org))
  {
    match scope
    case OrgScope(o) => CacheKeys.OrgPatternSelectsItsOrg(user, o, org);
    case UserScope(u) => CacheKeys.UserPatternSelectsItsUser(u, user, org);
    case KeyScope(u, o) =>
      CacheKeys.KeyIsLiteral(u, o);
      CacheKeys.LiteralMatchesItself(CacheKeys.AuthUserKey(u, o), CacheKeys.AuthUserKey(user, org));
      if CacheKeys.AuthUserKey(u, o) == CacheKeys.AuthUserKey(user, org) { CacheKeys.KeysAreDistinct(u, o, user, org); }
  }

  /** No fill of a key in scope is between its first read and its SET. */
  ghost predicate Quiet(s: State, scope: Scope) {
    forall h :: h in s.fills ==> !InScope(scope, s.fills[h].key)
  }

  /** What SCAN promises of the batches in a run: a key of the scope that stays readable throughout is in one. */
  ghost predicate Swept(s: State, steps: seq<Step>, scope: Scope)
    requires s.history != []
  {
    forall key :: InScope(scope, key) && (forall i :: 0 <= i <= |steps| ==> Hit(Run(s, steps[..i]), key).Some?) ==>
      exists i :: 0 <= i < |steps| && Evicts(steps[i], key)
  }

  predicate Evicts(step: Step, key: Key) {
    step.Evict? && key in step.keys
  }

  /** Every fill of a key in scope began at moment `n` or later. */
  ghost predicate FillsSince(s: State, scope: Scope, n: nat) {
    forall h :: h in s.fills && InScope(scope, s.fills[h].key) ==> n <= s.fills[h].userAt
  }

  lemma FillsSinceNext(s: State, step: Step, scope: Scope, n: nat)
    requires s.history != [] && n <= Last(s) && FillsSince(s, scope, n)
    ensures FillsSince(Next(s, step), scope, n) && n <= Last(Next(s, step))
  {}

  /** An entry older than `n` was already there before the step, which did not evict it. */
  lemma OldEntriesOnlyStay(s: State, step: Step, scope: Scope, n: nat, key: Key)
    requires s.history != [] && n <= Last(s) && FillsSince(s, scope, n) && InScope(scope, key)
    requires Hit(Next(s, step), key).Some? && Hit(Next(s, step), key).value.userAt < n
    ensures Hit(s, key) == Hit(Next(s, step), key) && !Evicts(step, key)
  {}

  lemma {:induction false} OldWasThere(s: State, steps: seq<Step>, scope: Scope, n: nat, key: Key)
    requires s.history != [] && n <= Last(s) && FillsSince(s, scope, n) && InScope(scope, key)
    requires Hit(Run(s, steps), key).Some? && Hit(Run(s, steps), key).value.userAt < n
    ensures Hit(s, key) == Hit(Run(s, steps), key)
    ensures forall i :: 0 <= i < |steps| ==> !Evicts(steps[i], key)
    decreases |steps|
  {
    if steps != [] {
      FillsSinceNext(s, steps[0], scope, n);
      OldWasThere(Next(s, steps[0]), steps[1..], scope, n, key);
      OldEntriesOnlyStay(s, steps[0], scope, n, key);
    }
  }

  lemma {:induction false} FillsSinceRun(s: State, steps: seq<Step>, scope: Scope, n: nat)
    requires s.history != [] && n <= Last(s) && FillsSince(s, scope, n)
    ensures FillsSince(Run(s, steps), scope, n) && n <= Last(Run(s, steps))
    decreases |steps|
  {
    if steps != [] {
      FillsSinceNext(s, steps[0], scope, n);
      FillsSinceRun(Next(s, steps[0]), steps[1..], scope, n);
    }
  }

  lemma OldThroughout(s: State, steps: seq<Step>, scope: Scope, n: nat, key: Key)
    requires s.history != [] && n <= Last(s) && FillsSince(s, scope, n) && InScope(scope, key)
    requires Hit(Run(s, steps), key).Some? && Hit(Run(s, steps), key).value.userAt < n
    ensures forall i :: 0 <= i <= |steps| ==> Hit(Run(s, steps[..i]), key).Some?
    ensures forall i :: 0 <= i < |steps| ==> !Evicts(steps[i], key)
  {
    OldWasThere(s, steps, scope, n, key);
    forall i | 0 <= i <= |steps| ensures Hit(Run(s, steps[..i]), key).Some? {
      assert steps == steps[..i] + steps[i..];
      RunTwice(s, steps[..i], steps[i..]);
      FillsSinceRun(s, steps[..i], scope, n);
      OldWasThere(Run(s, steps[..i]), steps[i..], scope, n, key);
    }
  }

  lemma {:induction false} RunTwice(s: State, a: seq<Step>, b: seq<Step>)
    requires s.history != []
    ensures Run(s, a + b) == Run(Run(s, a), b)
    decreases |a|
  {
    if a == [] {
      assert a + b == b;
    } else {
      assert (a + b)[0] == a[0] && (a + b)[1..] == a[1..] + b;
      RunTwice(Next(s, a[0]), a[1..], b);
    }
  }

  /** After a write no fill spans and a sweep of its scope, every hit in the scope was read after the write. */
  lemma FreshAfterInvalidation(s: State, db: Db, steps: seq<Step>, scope: Scope, key: Key)
    requires Inv(s) && Quiet(s, scope) && InScope(scope, key)
    requires Swept(Next(s, Write(db)), steps, scope)
    requires Hit(Run(Next(s, Write(db)), steps), key).Some?
    ensures |s.history| <= Hit(Run(Next(s, Write(db)), steps), key).value.userAt
  {
    var w := Next(s, Write(db));
    InvNext(s, Write(db));
    if Hit(Run(w, steps), key).value.userAt < |s.history| {
      OldThroughout(w, steps, scope, |s.history|, key);
      assert false;
    }
  }

  // ---- the writes the use cases make ----

  /** Whoever has held the role belonged to the organisation at the time. */
  ghost predicate HeldWithin(s: State, role: int, org: int) {
    forall i, u :: 0 <= i < |s.history| && u in s.history[i].db.users && s.history[i].db.users[u].role == role ==>
      s.history[i].db.users[u].org == org
  }

  ghost predicate PermissionsSince(s: State, n: nat, role: int, permissions: seq<Permission>) {
    forall i :: n <= i < |s.history| ==>
      && role in s.history[i].db.roleNames && role in s.history[i].db.permissions
      && s.history[i].db.permissions[role] == permissions
  }

  ghost predicate ExcludedSince(s: State, n: nat, user: int, org: int) {
    forall i :: n <= i < |s.history| ==>
      var row := FindUser(s.history[i].db, user, org);
      row.None? || !row.value.active || row.value.locked
  }

  /** Once a role's permissions are written and its organisation's entries swept, no hit of a holder of that role
      serves any others, provided every holder belongs to that organisation. */
  lemma RolePermissionsAreServed(s: State, db: Db, steps: seq<Step>, role: int, org: int, permissions: seq<Permission>,
                                 key: Key)
    requires Inv(s) && Quiet(s, OrgScope(org)) && Swept(Next(s, Write(db)), steps, OrgScope(org))
    requires var s' := Run(Next(s, Write(db)), steps);
             && HeldWithin(s', role, org) && PermissionsSince(s', |s.history|, role, permissions)
             && Hit(s', key).Some? && Hit(s', key).value.role == role
    ensures var served := Hit(Run(Next(s, Write(db)), steps), key).value.data.permissions;
            |served| == |permissions| && forall i :: 0 <= i < |permissions| ==> served[i] == permissions[i].name
  {
    var w := Next(s, Write(db));
    var s' := Run(w, steps);
    InvNext(s, Write(db));
    InvRun(w, steps);
    var e := Hit(s', key).value;
    assert EntryOk(s'.history, key, e);
    assert key.1 == org;
    FreshAfterInvalidation(s, db, steps, OrgScope(org), key);
  }

  /** Once a user is deactivated, locked or removed and the user's key is deleted, the user gets no hit. */
  lemma ExcludedUserIsRefused(s: State, db: Db, steps: seq<Step>, user: int, org: int)
    requires Inv(s) && Quiet(s, KeyScope(user, org)) && Swept(Next(s, Write(db)), steps, KeyScope(user, org))
    requires ExcludedSince(Run(Next(s, Write(db)), steps), |s.history|, user, org)
    ensures Hit(Run(Next(s, Write(db)), steps), (user, org)).None?
  {
    var w := Next(s, Write(db));
    var s' := Run(w, steps);
    InvNext(s, Write(db));
    InvRun(w, steps);
    if Hit(s', (user, org)).Some? {
      assert EntryOk(s'.history, (user, org), Hit(s', (user, org)).value);
      FreshAfterInvalidation(s, db, steps, KeyScope(user, org), (user, org));
    }
  }

  // ---- why the conditions are needed ----

  /** How many statements a fill has left. */
  function Left(f: Fill): nat {
    match f
    case UserRead(_, _, _) => 4
    case RoleRead(_, _, _, _, _, _) => 3
    case PermissionsRead(_, _, _, _, _, _, _, _) => 2
    case Complete(_, _, _, _, _, _, _) => 1
  }

  function Proceeds(h: nat, n: nat): seq<Step> {
    if n == 0 then [] else [Proceed(h)] + Proceeds(h, n - 1)
  }

  lemma {:induction false} FillLands(s: State, h: nat)
    requires s.history != [] && h in s.fills
    ensures var f := s.fills[h];
            var s' := Run(s, Proceeds(h, Left(f)));
            && Hit(s', f.key).Some? && Hit(s', f.key).value.userAt == f.userAt
            && (f.RoleRead? || f.PermissionsRead? ==> Hit(s', f.key).value.data.roleName == f.roleName)
            && (f.Complete? ==> Hit(s', f.key).value.data == f.data)
    decreases Left(s.fills[h])
  {
    var f := s.fills[h];
    var t := Next(s, Proceed(h));
    var steps := Proceeds(h, Left(f));
    assert steps[0] == Proceed(h) && steps[1..] == Proceeds(h, Left(f) - 1);
    if f.Complete? {
      assert Run(s, steps) == Run(t, []) == t;
    } else {
      assert t.fills[h] == Queried(Present(s).db, Last(s), f);
      FillLands(t, h);
    }
  }

  /** Every fill that spans a write can put what it read before the write back after the sweep. */
  lemma SpanningFillServesOld(s: State, h: nat, db: Db)
    requires Inv(s) && h in s.fills
    ensures var key := s.fills[h].key;
            var s' := Run(Next(s, Write(db)), [Evict({key})] + Proceeds(h, Left(s.fills[h])));
            Hit(s', key).Some? && Hit(s', key).value.userAt < |s.history|
  {
    var f := s.fills[h];
    var w := Next(s, Write(db));
    var t := Next(w, Evict({f.key}));
    assert FillOk(s.history, f);
    assert t.fills[h] == f;
    FillLands(t, h);
    var steps := [Evict({f.key})] + Proceeds(h, Left(f));
    assert steps[0] == Evict({f.key}) && steps[1..] == Proceeds(h, Left(f));
  }

  function Sweep(s: State, scope: Scope): Step {
    Evict(set key | key in s.cache && InScope(scope, key))
  }

  /** An undisturbed sweep ends the hits of its scope and no others: whoever holds a role of the swept organisation
      from outside it is served the old entry as before. */
  lemma SweepIsExact(s: State, scope: Scope, key: Key, later: seq<Step>)
    requires s.history != []
    ensures Swept(s, [Sweep(s, scope)] + later, scope)
    ensures Hit(Next(s, Sweep(s, scope)), key) == if InScope(scope, key) then None else Hit(s, key)
  {
    var steps := [Sweep(s, scope)] + later;
    assert steps[..0] == [] && Run(s, []) == s;
    forall k | InScope(scope, k) && (forall i :: 0 <= i <= |steps| ==> Hit(Run(s, steps[..i]), k).Some?)
      ensures exists i :: 0 <= i < |steps| && Evicts(steps[i], k)
    {
      assert Hit(Run(s, steps[..0]), k).Some?;
      assert Evicts(steps[0], k);
    }
  }

  // ---- a name that was never the user's ----

  lemma {:induction false} ProceedsOnlyRead(s: State, h: nat, n: nat)
    requires s.history != []
    ensures var s' := Run(s, Proceeds(h, n));
            && |s'.history| == |s.history| + n && s.history <= s'.history
            && forall i :: |s.history| <= i < |s'.history| ==> s'.history[i].db == Present(s).db
    decreases n
  {
    if n > 0 {
      var steps := Proceeds(h, n);
      assert steps[0] == Proceed(h) && steps[1..] == Proceeds(h, n - 1);
      ProceedsOnlyRead(Next(s, Proceed(h)), h, n - 1);
    }
  }

  /** The user exists, and the name of the role the user has is one of these. */
  predicate RoleNamed(db: Db, user: int, names: set<string>) {
    user in db.users && db.users[user].role in db.roleNames && db.roleNames[db.users[user].role] in names
  }

  /** Reading the role's name in a statement of its own, a fill can serve a role name the user has had at no moment:
      the user moves from role 1 to role 2, and then role 1 is renamed. */
  lemma ServedRoleNameWasNeverTheUsers(clerk: string, manager: string, auditor: string)
    ensures var db := Db(map[9 := User(3, true, false, 1)], map[1 := clerk, 2 := manager], map[], map[]);
            var moved := db.(users := map[9 := User(3, true, false, 2)]);
            var renamed := moved.(roleNames := map[1 := auditor, 2 := manager]);
            var s := Run(Start(0, db), [Begin(0, 9, 3), Write(moved), Write(renamed)] + Proceeds(0, 4));
            && Hit(s, (9, 3)).Some? && Hit(s, (9, 3)).value.data.roleName == auditor
            && forall i :: 0 <= i < |s.history| ==> RoleNamed(s.history[i].db, 9, {clerk, manager})
  {
    var db := Db(map[9 := User(3, true, false, 1)], map[1 := clerk, 2 := manager], map[], map[]);
    var moved := db.(users := map[9 := User(3, true, false, 2)]);
    var renamed := moved.(roleNames := map[1 := auditor, 2 := manager]);
    TornRun(db, moved, renamed, auditor);
    assert RoleNamed(db, 9, {clerk}) && RoleNamed(moved, 9, {manager}) && RoleNamed(renamed, 9, {manager});
  }

  lemma TornRun(db: Db, moved: Db, renamed: Db, name: string)
    requires db.users == map[9 := User(3, true, false, 1)] && 1 in renamed.roleNames && renamed.roleNames[1] == name
    ensures var s := Run(Start(0, db), [Begin(0, 9, 3), Write(moved), Write(renamed)] + Proceeds(0, 4));
            && Hit(s, (9, 3)).Some? && Hit(s, (9, 3)).value.data.roleName == name
            && forall i :: 0 <= i < |s.history| ==> s.history[i].db in {db, moved, renamed}
  {
    var s := State(map[], map[0 := UserRead((9, 3), User(3, true, false, 1), 0)],
                   [Moment(0, db), Moment(0, db), Moment(0, moved), Moment(0, renamed)]);
    ThreeSteps(db, moved, renamed);
    RunTwice(Start(0, db), [Begin(0, 9, 3), Write(moved), Write(renamed)], Proceeds(0, 4));
    TornFill(s, name);
    var s' := Run(s, Proceeds(0, 4));
    forall i | 0 <= i < |s'.history| ensures s'.history[i].db in {db, moved, renamed} {
      if i < |s.history| { assert s'.history[i] == s.history[i]; }
    }
  }

  lemma ThreeSteps(db: Db, moved: Db, renamed: Db)
    requires db.users == map[9 := User(3, true, false, 1)]
    ensures Run(Start(0, db), [Begin(0, 9, 3), Write(moved), Write(renamed)]) ==
            State(map[], map[0 := UserRead((9, 3), User(3, true, false, 1), 0)],
                  [Moment(0, db), Moment(0, db), Moment(0, moved), Moment(0, renamed)])
  {
    var steps := [Begin(0, 9, 3), Write(moved), Write(renamed)];
    var s1 := Next(Start(0, db), Begin(0, 9, 3));
    assert s1 == State(map[], map[0 := UserRead((9, 3), User(3, true, false, 1), 0)], [Moment(0, db), Moment(0, db)]);
    assert steps[1..] == [Write(moved), Write(renamed)] && steps[1..][1..] == [Write(renamed)];
    var s2 := Next(s1, Write(moved));
    var s3 := Next(s2, Write(renamed));
    assert s2.history == [Moment(0, db), Moment(0, db), Moment(0, moved)];
    assert s3.history == [Moment(0, db), Moment(0, db), Moment(0, moved), Moment(0, renamed)];
    assert Run(s2, [Write(renamed)]) == Run(s3, []) == s3;
    assert Run(s1, steps[1..]) == Run(s2, steps[1..][1..]);
    assert Run(Start(0, db), steps) == Run(s1, steps[1..]);
  }

  lemma TornFill(s: State, name: string)
    requires s.history != [] && 1 in Present(s).db.roleNames && Present(s).db.roleNames[1] == name
    requires s.fills == map[0 := UserRead((9, 3), User(3, true, false, 1), 0)]
    ensures var s' := Run(s, Proceeds(0, 4));
            && Hit(s', (9, 3)).Some? && Hit(s', (9, 3)).value.data.roleName == name
            && |s'.history| == |s.history| + 4 && s.history <= s'.history
            && forall i :: |s.history| <= i < |s'.history| ==> s'.history[i].db == Present(s).db
  {
    var steps := Proceeds(0, 4);
    assert steps[0] == Proceed(0) && steps[1..] == Proceeds(0, 3);
    assert Next(s, Proceed(0)).fills[0].RoleRead? && Next(s, Proceed(0)).fills[0].roleName == name;
    FillLands(Next(s, Proceed(0)), 0);
    ProceedsOnlyRead(s, 0, 4);
  }
}
