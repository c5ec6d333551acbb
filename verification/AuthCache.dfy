/** The auth cache beside the database, in every interleaving of fills, writers and evictions. */
module AuthCache {
  import opened Prelude

  const ENTRY_TTL: nat := 15 * MINUTE

  // ---- the database, as far as a fill reads it ----

  datatype User = User(org: int, active: bool, locked: bool, role: int)

  datatype Permission = Permission(id: int, name: string)

  datatype Db = Db(users: map<int, User>, roleNames: map<int, string>, permissions: map<int, seq<Permission>>,
                   orgNames: map<int, string>)

  function FindUser(db: Db, user: int, org: int): Option<User> {
    if user in db.users && db.users[user].org == org then Some(db.users[user]) else None
  }

  function Names(permissions: seq<Permission>): seq<string> {
    seq(|permissions|, i requires 0 <= i < |permissions| => permissions[i].name)
  }

  function RoleName(db: Db, role: int): string {
    if role in db.roleNames then db.roleNames[role] else ""
  }

  function PermissionNames(db: Db, role: int): seq<string> {
    if role in db.permissions then Names(db.permissions[role]) else []
  }

  function OrgName(db: Db, org: int): string {
    if org in db.orgNames then db.orgNames[org] else ""
  }

  // ---- the cache ----

  datatype AuthData = AuthData(active: bool, locked: bool, roleName: string, permissions: seq<string>, orgName: string)

  // The `At` fields index the history and only record when each statement of the fill ran.
  datatype Entry = Entry(data: AuthData, expiresAt: nat, role: int, userAt: nat, roleAt: nat, permissionsAt: nat,
                         orgAt: nat, setAt: nat)

  type Key = (int, int)

  // A fill between two of its statements; the role is missing when the user's role row was not found.
  datatype Fill =
    | UserRead(key: Key, row: User, userAt: nat)
    | RoleRead(key: Key, row: User, userAt: nat, hasRole: bool, roleName: string, roleAt: nat)
    | PermissionsRead(key: Key, row: User, userAt: nat, hasRole: bool, roleName: string, roleAt: nat,
                      permissions: seq<string>, permissionsAt: nat)
    | Complete(key: Key, data: AuthData, role: int, userAt: nat, roleAt: nat, permissionsAt: nat, orgAt: nat)

  datatype Moment = Moment(now: nat, db: Db)

  // `history` has one moment for every state of the run so far, the present one last.
  datatype State = State(cache: map<Key, Entry>, fills: map<nat, Fill>, history: seq<Moment>)

  datatype Step =
    | Advance(d: nat)
    | Write(db: Db)                       // any writer, whether or not it invalidates
    | Evict(keys: set<Key>)               // DEL, or one batch of DelByPattern
    | Begin(h: nat, user: int, org: int)
    | Proceed(h: nat)

  function Start(now: nat, db: Db): State {
    State(map[], map[], [Moment(now, db)])
  }

  function Last(s: State): nat
    requires s.history != []
  {
    |s.history| - 1
  }

  function Present(s: State): Moment
    requires s.history != []
  {
    s.history[|s.history| - 1]
  }

  /** The entry a request is served from. */
  function Hit(s: State, key: Key): Option<Entry>
    requires s.history != []
  {
    if key in s.cache && Present(s).now < s.cache[key].expiresAt then Some(s.cache[key]) else None
  }

  /** The first query; a missing, deactivated or locked user starts no fill. */
  function DoBegin(s: State, h: nat, user: int, org: int): State
    requires s.history != []
  {
    var row := FindUser(Present(s).db, user, org);
    if h in s.fills || Hit(s, (user, org)).Some? || row.None? || !row.value.active || row.value.locked then s
    else s.(fills := s.fills[h := UserRead((user, org), row.value, Last(s))])
  }

  /** The next query of a fill that has not read everything yet, run at the history's last moment. */
  function Queried(db: Db, at: nat, f: Fill): Fill
    requires !f.Complete?
  {
    match f
    case UserRead(key, row, u) => RoleRead(key, row, u, row.role in db.roleNames, RoleName(db, row.role), at)
    case RoleRead(key, row, u, has, name, r) =>
      PermissionsRead(key, row, u, has, name, r, if has then PermissionNames(db, row.role) else [], at)
    case PermissionsRead(key, row, u, has, name, r, names, p) =>
      Complete(key, AuthData(row.active, row.locked, name, names, OrgName(db, row.org)), row.role, u, r, p, at)
  }

  function Cached(f: Fill, now: nat, at: nat): Entry
    requires f.Complete?
  {
    Entry(f.data, now + ENTRY_TTL, f.role, f.userAt, f.roleAt, f.permissionsAt, f.orgAt, at)
  }

  function DoProceed(s: State, h: nat): State
    requires s.history != []
  {
    if h !in s.fills then s
    else if s.fills[h].Complete? then
      s.(cache := s.cache[s.fills[h].key := Cached(s.fills[h], Present(s).now, Last(s))], fills := s.fills - {h})
    else s.(fills := s.fills[h := Queried(Present(s).db, Last(s), s.fills[h])])
  }

  function Recorded(s: State, now: nat, db: Db): State {
    s.(history := s.history + [Moment(now, db)])
  }

  function Acted(s: State, step: Step): (s': State)
    requires s.history != []
    ensures s'.history == s.history
  {
    match step
    case Advance(_) => s
    case Write(_) => s
    case Evict(keys) => s.(cache := s.cache - keys)
    case Begin(h, user, org) => DoBegin(s, h, user, org)
    case Proceed(h) => DoProceed(s, h)
  }

  function Next(s: State, step: Step): (s': State)
    requires s.history != []
    ensures s'.history != []
  {
    Recorded(Acted(s, step),
             Present(s).now + if step.Advance? then step.d else 0,
             if step.Write? then step.db else Present(s).db)
  }

  function Run(s: State, steps: seq<Step>): (s': State)
    requires s.history != []
    ensures s'.history != []
    decreases |steps|
  {
    if steps == [] then s else Run(Next(s, steps[0]), steps[1..])
  }

  // ---- what entries are made of ----

  predicate UserOk(history: seq<Moment>, key: Key, at: nat, row: User) {
    at < |history| && FindUser(history[at].db, key.0, key.1) == Some(row) && row.active && !row.locked
  }

  predicate RoleOk(history: seq<Moment>, role: int, from: nat, at: nat, name: string) {
    from <= at < |history| && name == RoleName(history[at].db, role)
  }

  predicate PermissionsOk(history: seq<Moment>, role: int, roleAt: nat, at: nat, names: seq<string>) {
    && roleAt <= at < |history|
    && names == if role in history[roleAt].db.roleNames then PermissionNames(history[at].db, role) else []
  }

  predicate OrgOk(history: seq<Moment>, org: int, from: nat, at: nat, name: string) {
    from <= at < |history| && name == OrgName(history[at].db, org)
  }

  predicate FillOk(history: seq<Moment>, f: Fill) {
    match f
    case UserRead(key, row, u) => UserOk(history, key, u, row)
    case RoleRead(key, row, u, has, name, r) =>
      && UserOk(history, key, u, row) && RoleOk(history, row.role, u, r, name)
      && (has <==> row.role in history[r].db.roleNames)
    case PermissionsRead(key, row, u, has, name, r, names, p) =>
      && UserOk(history, key, u, row) && RoleOk(history, row.role, u, r, name)
      && PermissionsOk(history, row.role, r, p, names)
    case Complete(key, data, role, u, r, p, o) => DataOk(history, key, data, role, u, r, p, o)
  }

  /** Each field is what its own query read, at its own moment, in order; the user was active and unlocked. */
  predicate DataOk(history: seq<Moment>, key: Key, data: AuthData, role: int, u: nat, r: nat, p: nat, o: nat) {
    && UserOk(history, key, u, User(key.1, data.active, data.locked, role))
    && RoleOk(history, role, u, r, data.roleName)
    && PermissionsOk(history, role, r, p, data.permissions)
    && OrgOk(history, key.1, p, o, data.orgName)
  }

  predicate EntryOk(history: seq<Moment>, key: Key, e: Entry) {
    && DataOk(history, key, e.data, e.role, e.userAt, e.roleAt, e.permissionsAt, e.orgAt)
    && e.orgAt <= e.setAt < |history|
    && e.expiresAt == history[e.setAt].now + ENTRY_TTL
  }

  ghost predicate Ordered(history: seq<Moment>) {
    forall i, j :: 0 <= i < j < |history| ==> history[i].now <= history[j].now
  }

  ghost predicate CacheOk(history: seq<Moment>, cache: map<Key, Entry>) {
    forall key :: key in cache ==> EntryOk(history, key, cache[key])
  }

  ghost predicate FillsOk(history: seq<Moment>, fills: map<nat, Fill>) {
    forall h :: h in fills ==> FillOk(history, fills[h])
  }

  ghost predicate Inv(s: State) {
    s.history != [] && Ordered(s.history) && CacheOk(s.history, s.cache) && FillsOk(s.history, s.fills)
  }

  lemma QueriedOk(history: seq<Moment>, f: Fill)
    requires history != [] && FillOk(history, f) && !f.Complete?
    ensures FillOk(history, Queried(history[|history| - 1].db, |history| - 1, f))
  {}

  lemma CompleteOk(history: seq<Moment>, f: Fill)
    requires history != [] && FillOk(history, f) && f.Complete?
    ensures EntryOk(history, f.key, Cached(f, history[|history| - 1].now, |history| - 1))
  {}

  lemma InvBegin(s: State, h: nat, user: int, org: int)
    requires Inv(s)
    ensures Inv(DoBegin(s, h, user, org))
  {}

  lemma CacheCompletes(history: seq<Moment>, cache: map<Key, Entry>, f: Fill)
    requires history != [] && CacheOk(history, cache) && FillOk(history, f) && f.Complete?
    ensures CacheOk(history, cache[f.key := Cached(f, history[|history| - 1].now, |history| - 1)])
  {
    CompleteOk(history, f);
    CacheGains(history, cache, f.key, Cached(f, history[|history| - 1].now, |history| - 1));
  }

  lemma FillsLose(history: seq<Moment>, fills: map<nat, Fill>, h: nat)
    requires FillsOk(history, fills)
    ensures FillsOk(history, fills - {h})
  {}

  lemma FillsQuery(history: seq<Moment>, fills: map<nat, Fill>, h: nat)
    requires history != [] && FillsOk(history, fills) && h in fills && !fills[h].Complete?
    ensures FillsOk(history, fills[h := Queried(history[|history| - 1].db, |history| - 1, fills[h])])
  {
    QueriedOk(history, fills[h]);
    FillsGain(history, fills, h, Queried(history[|history| - 1].db, |history| - 1, fills[h]));
  }

  lemma InvCompletes(s: State, h: nat)
    requires Inv(s) && h in s.fills && s.fills[h].Complete?
    ensures Inv(DoProceed(s, h))
  {
    assert FillOk(s.history, s.fills[h]);
    CacheCompletes(s.history, s.cache, s.fills[h]);
    FillsLose(s.history, s.fills, h);
    var s' := DoProceed(s, h);
    assert s'.history == s.history && s'.fills == s.fills - {h};
  }

  lemma InvQueries(s: State, h: nat)
    requires Inv(s) && h in s.fills && !s.fills[h].Complete?
    ensures Inv(DoProceed(s, h))
  {
    FillsQuery(s.history, s.fills, h);
    var s' := DoProceed(s, h);
    assert s'.history == s.history && s'.cache == s.cache;
  }

  lemma InvProceed(s: State, h: nat)
    requires Inv(s)
    ensures Inv(DoProceed(s, h))
  {
    if h !in s.fills {
      assert DoProceed(s, h) == s;
    } else if s.fills[h].Complete? {
      InvCompletes(s, h);
    } else {
      InvQueries(s, h);
    }
  }

  lemma CacheGains(history: seq<Moment>, cache: map<Key, Entry>, key: Key, e: Entry)
    requires CacheOk(history, cache) && EntryOk(history, key, e)
    ensures CacheOk(history, cache[key := e])
  {}

  lemma FillsGain(history: seq<Moment>, fills: map<nat, Fill>, h: nat, f: Fill)
    requires FillsOk(history, fills) && FillOk(history, f)
    ensures FillsOk(history, fills[h := f])
  {}

  lemma EntryStaysOk(history: seq<Moment>, m: Moment, key: Key, e: Entry)
    requires EntryOk(history, key, e)
    ensures EntryOk(history + [m], key, e)
  {}

  lemma FillStaysOk(history: seq<Moment>, m: Moment, f: Fill)
    requires FillOk(history, f)
    ensures FillOk(history + [m], f)
  {}

  /** History only grows, so what was read stays read. */
  lemma InvRecorded(s: State, now: nat, db: Db)
    requires Inv(s) && Present(s).now <= now
    ensures Inv(Recorded(s, now, db))
  {
    forall key | key in s.cache ensures EntryOk(s.history + [Moment(now, db)], key, s.cache[key]) {
      EntryStaysOk(s.history, Moment(now, db), key, s.cache[key]);
    }
    forall h | h in s.fills ensures FillOk(s.history + [Moment(now, db)], s.fills[h]) {
      FillStaysOk(s.history, Moment(now, db), s.fills[h]);
    }
  }

  lemma InvEvict(s: State, keys: set<Key>)
    requires Inv(s)
    ensures Inv(s.(cache := s.cache - keys))
  {}

  lemma InvActed(s: State, step: Step)
    requires Inv(s)
    ensures Inv(Acted(s, step))
  {
    match step
    case Advance(_) =>
    case Write(_) =>
    case Evict(keys) => InvEvict(s, keys);
    case Begin(h, user, org) => InvBegin(s, h, user, org);
    case Proceed(h) => InvProceed(s, h);
  }

  lemma InvNext(s: State, step: Step)
    requires Inv(s)
    ensures Inv(Next(s, step))
  {
    InvActed(s, step);
    var s' := Next(s, step);
    InvRecorded(Acted(s, step), Present(s').now, Present(s').db);
    assert s' == Recorded(Acted(s, step), Present(s').now, Present(s').db);
  }

  lemma {:induction false} InvRun(s: State, steps: seq<Step>)
    requires Inv(s)
    ensures Inv(Run(s, steps))
    decreases |steps|
  {
    if steps != [] {
      InvNext(s, steps[0]);
      InvRun(Next(s, steps[0]), steps[1..]);
    }
  }

  // ---- bounded staleness ----

  /** How long the fill took from its first read to its SET. */
  function FillDelay(s: State, e: Entry): int
    requires e.userAt < |s.history| && e.setAt < |s.history|
  {
    s.history[e.setAt].now - s.history[e.userAt].now
  }

  /** Each field of the entry is what the database held at a moment later than 15 minutes and the fill's own delay ago,
      and the account was active and unlocked. */
  ghost predicate Recent(s: State, key: Key, e: Entry)
    requires s.history != []
  {
    && EntryOk(s.history, key, e)
    && (forall m :: e.userAt <= m < |s.history| ==>
          Present(s).now < s.history[m].now + ENTRY_TTL + FillDelay(s, e))
    && e.data.active && !e.data.locked
  }

  /** On every hit of every run; so neither 403 branch of the hit path is taken. */
  lemma HitsAreRecent(now: nat, db: Db, steps: seq<Step>, key: Key)
    requires Hit(Run(Start(now, db), steps), key).Some?
    ensures Recent(Run(Start(now, db), steps), key, Hit(Run(Start(now, db), steps), key).value)
  {
    InvRun(Start(now, db), steps);
    HitIsRecent(Run(Start(now, db), steps), key);
  }

  /** What a served entry says, in the database's own terms: the user's row, of that organisation, active and unlocked,
      at one moment, the name of its role at a later one, and the organisation's name at the last; it is served for 15
      minutes after its SET. */
  lemma HitFields(now: nat, db: Db, steps: seq<Step>, key: Key)
    requires Hit(Run(Start(now, db), steps), key).Some?
    ensures var s := Run(Start(now, db), steps);
            var e := Hit(s, key).value;
            && e.userAt <= e.roleAt <= e.permissionsAt <= e.orgAt <= e.setAt < |s.history|
            && s.history[e.setAt].now <= s.history[|s.history| - 1].now < s.history[e.setAt].now + 900_000_000_000
            && key.0 in s.history[e.userAt].db.users
            && s.history[e.userAt].db.users[key.0] == User(key.1, true, false, e.role)
            && e.data.active && !e.data.locked
            && e.data.roleName == (var names := s.history[e.roleAt].db.roleNames; if e.role in names then names[e.role] else "")
            && e.data.orgName == (var names := s.history[e.orgAt].db.orgNames; if key.1 in names then names[key.1] else "")
  {
    ReachedEntry(now, db, steps, key);
    EntryFields(Run(Start(now, db), steps).history, key, Hit(Run(Start(now, db), steps), key).value);
  }

  lemma ReachedEntry(now: nat, db: Db, steps: seq<Step>, key: Key)
    requires Hit(Run(Start(now, db), steps), key).Some?
    ensures var s := Run(Start(now, db), steps);
            var e := Hit(s, key).value;
            EntryOk(s.history, key, e) && Ordered(s.history) && s.history[|s.history| - 1].now < e.expiresAt
  {
    InvRun(Start(now, db), steps);
  }

  lemma EntryFields(history: seq<Moment>, key: Key, e: Entry)
    requires EntryOk(history, key, e) && Ordered(history) && history[|history| - 1].now < e.expiresAt
    ensures e.userAt <= e.roleAt <= e.permissionsAt <= e.orgAt <= e.setAt < |history|
    ensures history[e.setAt].now <= history[|history| - 1].now < history[e.setAt].now + 900_000_000_000
    ensures key.0 in history[e.userAt].db.users
    ensures history[e.userAt].db.users[key.0] == User(key.1, true, false, e.role) && e.data.active && !e.data.locked
    ensures e.data.roleName ==
            var names := history[e.roleAt].db.roleNames; if e.role in names then names[e.role] else ""
    ensures e.data.orgName ==
            var names := history[e.orgAt].db.orgNames; if key.1 in names then names[key.1] else ""
  {}

  /** And the permissions it serves are the names of those the role had at their own moment, one by one and in order, or
      none if the role had no row when its name was read. */
  lemma HitPermissions(now: nat, db: Db, steps: seq<Step>, key: Key)
    requires Hit(Run(Start(now, db), steps), key).Some?
    ensures var s := Run(Start(now, db), steps);
            var e := Hit(s, key).value;
            && e.roleAt < |s.history| && e.permissionsAt < |s.history|
            && var rows := s.history[e.permissionsAt].db.permissions;
               var held := if e.role in s.history[e.roleAt].db.roleNames && e.role in rows then rows[e.role] else [];
               |e.data.permissions| == |held| && forall i :: 0 <= i < |held| ==> e.data.permissions[i] == held[i].name
  {
    ReachedEntry(now, db, steps, key);
    PermissionFields(Run(Start(now, db), steps).history, key, Hit(Run(Start(now, db), steps), key).value);
  }

  lemma PermissionFields(history: seq<Moment>, key: Key, e: Entry)
    requires EntryOk(history, key, e)
    ensures e.roleAt < |history| && e.permissionsAt < |history|
    ensures var rows := history[e.permissionsAt].db.permissions;
            var held := if e.role in history[e.roleAt].db.roleNames && e.role in rows then rows[e.role] else [];
            |e.data.permissions| == |held| && forall i :: 0 <= i < |held| ==> e.data.permissions[i] == held[i].name
  {}

  lemma HitIsRecent(s: State, key: Key)
    requires Inv(s) && Hit(s, key).Some?
    ensures Recent(s, key, Hit(s, key).value)
  {
    var e := s.cache[key];
    assert EntryOk(s.history, key, e);
    assert e.userAt <= e.setAt && e.data.active && !e.data.locked;
    MomentsSince(s.history, e.userAt);
  }

  lemma MomentsSince(history: seq<Moment>, from: nat)
    requires Ordered(history) && from < |history|
    ensures forall m :: from <= m < |history| ==> history[from].now <= history[m].now
  {}

  /** The role name is the name of the role the user had when the fill began. If the user still had that role
      when the name was read, it is the user's role name at that moment. */
  lemma RoleNameIsTheUsers(now: nat, db: Db, steps: seq<Step>, key: Key)
    requires Hit(Run(Start(now, db), steps), key).Some?
    ensures var s := Run(Start(now, db), steps);
            var e := Hit(s, key).value;
            && e.roleAt < |s.history|
            && (key.0 in s.history[e.roleAt].db.users && s.history[e.roleAt].db.users[key.0].role == e.role ==>
                  var moment := s.history[e.roleAt].db;
                  e.data.roleName == if e.role in moment.roleNames then moment.roleNames[e.role] else "")
  {
    InvRun(Start(now, db), steps);
  }
}
