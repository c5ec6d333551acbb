/** Roles, permissions and who holds what: the tables the seeder and the role screen write. */
module RoleAssignments {
  datatype Permission = Permission(name: string, description: string)

  datatype PermissionRow = PermissionRow(id: nat, description: string)

  datatype RoleRow = RoleRow(id: nat, assignable: bool)

  // A role's name is unique within its organisation.
  type RoleKey = (string, int)

  // `next…` are the sequences that hand out ids; `grants` holds (role, permission) pairs.
  datatype Db = Db(permissions: map<string, PermissionRow>, nextPermission: nat, roles: map<RoleKey, RoleRow>,
                   nextRole: nat, grants: set<(nat, nat)>)

  function PermissionIds(db: Db): set<nat> {
    set n | n in db.permissions :: db.permissions[n].id
  }

  function RoleIds(db: Db): set<nat> {
    set k | k in db.roles :: db.roles[k].id
  }

  /** Ids are unique and already handed out, and every assignment refers to rows that exist. */
  ghost predicate Valid(db: Db) {
    && (forall n :: n in db.permissions ==> db.permissions[n].id < db.nextPermission)
    && (forall m, n :: m in db.permissions && n in db.permissions && db.permissions[m].id == db.permissions[n].id ==> m == n)
    && (forall k :: k in db.roles ==> db.roles[k].id < db.nextRole)
    && (forall j, k :: j in db.roles && k in db.roles && db.roles[j].id == db.roles[k].id ==> j == k)
    && (forall a :: a in db.grants ==> a.0 in RoleIds(db) && a.1 in PermissionIds(db))
  }

  function Held(db: Db, role: nat): set<string> {
    set n | n in db.permissions && (role, db.permissions[n].id) in db.grants
  }

  function IdsOf(db: Db, names: set<string>): set<nat> {
    set n | n in names && n in db.permissions :: db.permissions[n].id
  }

  function HeldIds(grants: set<(nat, nat)>, role: nat): set<nat> {
    set a | a in grants && a.0 == role :: a.1
  }

  function Pairs(role: nat, ids: set<nat>): set<(nat, nat)> {
    set id | id in ids :: (role, id)
  }

  /** The role holds exactly these permissions and every other role what it held. */
  function Replaced(grants: set<(nat, nat)>, role: nat, ids: set<nat>): (r: set<(nat, nat)>)
    ensures forall a :: a in r <==> if a.0 == role then a.1 in ids else a in grants
  {
    (set a | a in grants && a.0 != role) + Pairs(role, ids)
  }

  // ---- three ways to replace a role's permissions ----

  /** updateRolePermissions: add what is missing, then remove what is left over. */
  function ByDiff(grants: set<(nat, nat)>, role: nat, ids: set<nat>): set<(nat, nat)> {
    grants + Pairs(role, ids - HeldIds(grants, role)) - Pairs(role, HeldIds(grants, role) - ids)
  }

  /** assignPermissionsToRole: delete whatever the role holds, then insert. */
  function ByClearing(grants: set<(nat, nat)>, role: nat, ids: set<nat>): set<(nat, nat)> {
    grants - Pairs(role, HeldIds(grants, role)) + Pairs(role, ids)
  }

  /** The role screen: delete what is not wanted, then insert what is missing. */
  function ByExtras(grants: set<(nat, nat)>, role: nat, ids: set<nat>): set<(nat, nat)> {
    (set a | a in grants && (a.0 != role || a.1 in ids)) + Pairs(role, ids)
  }

  lemma ReplacementsAgree(grants: set<(nat, nat)>, role: nat, ids: set<nat>)
    ensures ByDiff(grants, role, ids) == ByClearing(grants, role, ids) == ByExtras(grants, role, ids)
    ensures ByDiff(grants, role, ids) == Replaced(grants, role, ids)
  {
    forall a ensures a in ByDiff(grants, role, ids) <==> a in Replaced(grants, role, ids) {
      if a in grants && a.0 == role { assert a.1 in HeldIds(grants, role); }
      if a.0 == role { assert a == (role, a.1); }
    }
    forall a ensures a in ByClearing(grants, role, ids) <==> a in Replaced(grants, role, ids) {
      if a in grants && a.0 == role { assert a.1 in HeldIds(grants, role); }
      if a.0 == role { assert a == (role, a.1); }
    }
    forall a ensures a in ByExtras(grants, role, ids) <==> a in Replaced(grants, role, ids) {
      if a.0 == role { assert a == (role, a.1); }
    }
  }

  /** What the seeder does with a list of names, an empty one leaving the role as it is. */
  function SeederReplaced(grants: set<(nat, nat)>, role: nat, ids: set<nat>): set<(nat, nat)> {
    if ids == {} then grants else ByDiff(grants, role, ids)
  }

  /** The seeder and the role screen differ exactly on emptying a role that holds something. */
  lemma SeederAgreesWithScreenExactly(grants: set<(nat, nat)>, role: nat, ids: set<nat>)
    ensures SeederReplaced(grants, role, ids) == ByExtras(grants, role, ids) <==>
            ids != {} || HeldIds(grants, role) == {}
  {
    ReplacementsAgree(grants, role, ids);
    if ids == {} && HeldIds(grants, role) != {} {
      var id :| id in HeldIds(grants, role);
      assert (role, id) in grants && (role, id) !in Replaced(grants, role, ids);
    }
    if ids == {} && HeldIds(grants, role) == {} {
      forall a | a in grants ensures a.0 != role { assert a.0 == role ==> a.1 in HeldIds(grants, role); }
    }
  }

  /** By name, replacing gives the role the wanted names and leaves every other role's. */
  lemma ReplacedHolds(db: Db, role: nat, names: set<string>)
    requires Valid(db) && names <= db.permissions.Keys
    ensures var d := db.(grants := Replaced(db.grants, role, IdsOf(db, names)));
            && Held(d, role) == names
            && (forall r: nat :: r != role ==> Held(d, r) == Held(db, r))
            && (role in RoleIds(db) ==> Valid(d))
  {
    var d := db.(grants := Replaced(db.grants, role, IdsOf(db, names)));
    assert RoleIds(d) == RoleIds(db) && PermissionIds(d) == PermissionIds(db);
    forall n ensures n in Held(d, role) <==> n in names {
      if n in names { assert db.permissions[n].id in IdsOf(db, names); }
    }
    if role in RoleIds(db) {
      forall a | a in d.grants ensures a.0 in RoleIds(d) && a.1 in PermissionIds(d) {
        if a.0 == role { assert a.1 in PermissionIds(db); }
      }
    }
  }

  /** Replacing what a role holds by the same changes nothing. */
  lemma ReplacedBySame(db: Db, role: nat)
    requires Valid(db)
    ensures Replaced(db.grants, role, IdsOf(db, Held(db, role))) == db.grants
  {
    forall a ensures a in Replaced(db.grants, role, IdsOf(db, Held(db, role))) <==> a in db.grants {
      if a in db.grants && a.0 == role {
        assert a.1 in PermissionIds(db);
        var n :| n in db.permissions && db.permissions[n].id == a.1;
        assert n in Held(db, role);
      }
      if a.0 == role && a.1 in IdsOf(db, Held(db, role)) {
        var n :| n in Held(db, role) && db.permissions[n].id == a.1;
        assert (role, db.permissions[n].id) == a;
      }
    }
  }

  // ---- seeding ----

  const SUPER_ADMIN: string := "SuperAdmin"
  const ORGS_ADMIN: string := "OrgsAdmin"

  predicate IsSystemName(role: string) {
    role == SUPER_ADMIN || role == ORGS_ADMIN
  }

  function DeclaredNames(declared: seq<Permission>): set<string> {
    set i | 0 <= i < |declared| :: declared[i].name
  }

  function Prefix(role: string): string {
    if role == SUPER_ADMIN then "admin." else "tenant."
  }

  function WithPrefix(names: set<string>, prefix: string): set<string> {
    set n | n in names && prefix <= n
  }

  function Target(declared: seq<Permission>, role: string): set<string> {
    WithPrefix(DeclaredNames(declared), Prefix(role))
  }

  function Upserted(db: Db, p: Permission): Db {
    var id := if p.name in db.permissions then db.permissions[p.name].id else db.nextPermission;
    db.(permissions := db.permissions[p.name := PermissionRow(id, p.description)], nextPermission := db.nextPermission + 1)
  }

  function AllUpserted(db: Db, declared: seq<Permission>): Db {
    if declared == [] then db
    else Upserted(AllUpserted(db, declared[..|declared| - 1]), declared[|declared| - 1])
  }

  /** Delete permissions after their assignments. */
  function Dropped(db: Db, names: set<string>): Db {
    db.(permissions := db.permissions - names,
        grants := set a | a in db.grants && a.1 !in IdsOf(db, names))
  }

  function PermissionsSeeded(db: Db, declared: seq<Permission>): Db {
    Dropped(AllUpserted(db, declared), db.permissions.Keys - DeclaredNames(declared))
  }

  function RoleAdded(db: Db, key: RoleKey): Db {
    if key in db.roles then db
    else db.(roles := db.roles[key := RoleRow(db.nextRole, false)], nextRole := db.nextRole + 1)
  }

  function RolesSeeded(db: Db, org: int): Db {
    RoleAdded(RoleAdded(db, (SUPER_ADMIN, org)), (ORGS_ADMIN, org))
  }

  function RoleSeeded(db: Db, key: RoleKey, names: set<string>): Db {
    if key !in db.roles || names == {} then db
    else db.(grants := Replaced(db.grants, db.roles[key].id, IdsOf(db, names)))
  }

  function RolePermissionsSeeded(db: Db, declared: seq<Permission>, org: int): Db {
    RoleSeeded(RoleSeeded(db, (SUPER_ADMIN, org), Target(declared, SUPER_ADMIN)),
               (ORGS_ADMIN, org), Target(declared, ORGS_ADMIN))
  }

  function OrgSeeded(db: Db, declared: seq<Permission>, org: int): Db {
    RolePermissionsSeeded(RolesSeeded(db, org), declared, org)
  }

  function OrgsSeeded(db: Db, declared: seq<Permission>, orgs: seq<int>): Db {
    if orgs == [] then db else OrgSeeded(OrgsSeeded(db, declared, orgs[..|orgs| - 1]), declared, orgs[|orgs| - 1])
  }

  function AutoSeeded(db: Db, declared: seq<Permission>, orgs: seq<int>): Db {
    OrgsSeeded(PermissionsSeeded(db, declared), declared, orgs)
  }

  // ---- permissions converge ----

  function LastDescription(declared: seq<Permission>, name: string): string
    requires name in DeclaredNames(declared)
  {
    if declared[|declared| - 1].name == name then declared[|declared| - 1].description
    else LastDescription(declared[..|declared| - 1], name)
  }

  lemma NamesOfPrefix(declared: seq<Permission>)
    requires declared != []
    ensures DeclaredNames(declared) == DeclaredNames(declared[..|declared| - 1]) + {declared[|declared| - 1].name}
  {
    var before := declared[..|declared| - 1];
    forall n | n in DeclaredNames(declared) ensures n in DeclaredNames(before) + {declared[|declared| - 1].name} {
      var i :| 0 <= i < |declared| && declared[i].name == n;
      if i < |before| { assert before[i].name == n; }
    }
    forall n | n in DeclaredNames(before) ensures n in DeclaredNames(declared) {
      var i :| 0 <= i < |before| && before[i].name == n;
      assert declared[i].name == n;
    }
  }

  /** `d` came from `db` by upserting these permissions. */
  ghost predicate UpsertsReached(d: Db, db: Db, declared: seq<Permission>) {
    && Valid(d) && d.roles == db.roles && d.nextRole == db.nextRole && d.grants == db.grants
    && db.nextPermission <= d.nextPermission
    && d.permissions.Keys == db.permissions.Keys + DeclaredNames(declared)
    && (forall n :: n in db.permissions ==> d.permissions[n].id == db.permissions[n].id)
    && (forall n :: n in d.permissions && n !in db.permissions ==> d.permissions[n].id >= db.nextPermission)
    && (forall n :: n in DeclaredNames(declared) ==> d.permissions[n].description == LastDescription(declared, n))
  }

  lemma {:induction false} AllUpsertedHolds(db: Db, declared: seq<Permission>)
    requires Valid(db)
    ensures UpsertsReached(AllUpserted(db, declared), db, declared)
  {
    if declared != [] {
      AllUpsertedHolds(db, declared[..|declared| - 1]);
      UpsertedHolds(AllUpserted(db, declared[..|declared| - 1]), db, declared);
    }
  }

  lemma UpsertedHolds(e: Db, db: Db, declared: seq<Permission>)
    requires declared != [] && UpsertsReached(e, db, declared[..|declared| - 1])
    ensures UpsertsReached(Upserted(e, declared[|declared| - 1]), db, declared)
  {
    var p := declared[|declared| - 1];
    UpsertedValid(e, p);
    NamesOfPrefix(declared);
    UpsertedRows(e, db, declared[..|declared| - 1], p);
    DescribedLast(e, declared);
  }

  lemma UpsertedRows(e: Db, db: Db, before: seq<Permission>, p: Permission)
    requires UpsertsReached(e, db, before)
    ensures var d := Upserted(e, p);
            && d.permissions.Keys == db.permissions.Keys + (DeclaredNames(before) + {p.name})
            && (forall n :: n in db.permissions ==> d.permissions[n].id == db.permissions[n].id)
            && (forall n :: n in d.permissions && n !in db.permissions ==> d.permissions[n].id >= db.nextPermission)
  {
    assert Upserted(e, p).permissions.Keys == e.permissions.Keys + {p.name};
  }

  lemma DescribedLast(e: Db, declared: seq<Permission>)
    requires declared != []
    requires forall n :: n in DeclaredNames(declared[..|declared| - 1]) ==>
               n in e.permissions && e.permissions[n].description == LastDescription(declared[..|declared| - 1], n)
    ensures var d := Upserted(e, declared[|declared| - 1]);
            forall n :: n in DeclaredNames(declared) ==>
              n in d.permissions && d.permissions[n].description == LastDescription(declared, n)
  {
    NamesOfPrefix(declared);
  }

  lemma UpsertedValid(db: Db, p: Permission)
    requires Valid(db)
    ensures Valid(Upserted(db, p))
  {
    var d := Upserted(db, p);
    forall a | a in d.grants ensures a.0 in RoleIds(d) && a.1 in PermissionIds(d) {
      assert a.0 in RoleIds(db) && a.1 in PermissionIds(db);
      var n :| n in db.permissions && db.permissions[n].id == a.1;
      assert d.permissions[n].id == a.1;
      var k :| k in db.roles && db.roles[k].id == a.0;
      assert d.roles[k].id == a.0;
    }
  }

  lemma DroppedHolds(db: Db, names: set<string>)
    requires Valid(db)
    ensures Valid(Dropped(db, names))
    ensures forall r: nat :: Held(Dropped(db, names), r) == Held(db, r) - names
  {
    var d := Dropped(db, names);
    forall a | a in d.grants ensures a.0 in RoleIds(d) && a.1 in PermissionIds(d) {
      var n :| n in db.permissions && db.permissions[n].id == a.1;
      assert n in names ==> a.1 in IdsOf(db, names);
      assert d.permissions[n].id == a.1;
      var k :| k in db.roles && db.roles[k].id == a.0;
      assert d.roles[k].id == a.0;
    }
    forall n | n in d.permissions ensures db.permissions[n].id !in IdsOf(db, names) {
      assert forall m :: m in names && m in db.permissions ==> m != n;
    }
    forall r: nat, n ensures n in Held(d, r) <==> n in Held(db, r) - names {}
  }

  lemma UpsertsKeepHeld(e: Db, db: Db, declared: seq<Permission>)
    requires Valid(db) && UpsertsReached(e, db, declared)
    ensures forall r: nat :: Held(e, r) == Held(db, r)
  {
    assert forall a :: a in db.grants ==> a.1 in PermissionIds(db);
    assert forall a :: a in db.grants ==> a.1 < db.nextPermission;
    forall r: nat, n ensures n in Held(e, r) <==> n in Held(db, r) {}
  }

  /** Afterwards the permissions are exactly the declared ones, kept permissions keep their ids, and every role has lost
      exactly the obsolete ones it held. */
  lemma PermissionsConverge(db: Db, declared: seq<Permission>)
    requires Valid(db)
    ensures var d := PermissionsSeeded(db, declared);
            && Valid(d) && d.roles == db.roles && d.nextRole == db.nextRole
            && d.permissions.Keys == DeclaredNames(declared)
            && (forall n :: n in d.permissions ==> d.permissions[n].description == LastDescription(declared, n))
            && (forall n :: n in d.permissions && n in db.permissions ==> d.permissions[n].id == db.permissions[n].id)
            && (forall r: nat :: Held(d, r) == Held(db, r) * DeclaredNames(declared))
  {
    var obsolete := db.permissions.Keys - DeclaredNames(declared);
    var e := AllUpserted(db, declared);
    AllUpsertedHolds(db, declared);
    DroppedHolds(e, obsolete);
    UpsertsKeepHeld(e, db, declared);
    assert PermissionsSeeded(db, declared).permissions.Keys == DeclaredNames(declared);
  }

  /** Declared permissions with their descriptions are left as they are. */
  lemma DeclaredPermissionsStay(d: Db, declared: seq<Permission>)
    requires Valid(d) && d.permissions.Keys == DeclaredNames(declared)
    requires forall n :: n in d.permissions ==> d.permissions[n].description == LastDescription(declared, n)
    ensures PermissionsSeeded(d, declared) == d.(nextPermission := PermissionsSeeded(d, declared).nextPermission)
  {
    var e := AllUpserted(d, declared);
    AllUpsertedHolds(d, declared);
    UpsertsLeaveRows(e, d, declared);
    DroppingNothing(e);
    assert d.permissions.Keys - DeclaredNames(declared) == {};
  }

  lemma UpsertsLeaveRows(e: Db, d: Db, declared: seq<Permission>)
    requires UpsertsReached(e, d, declared) && d.permissions.Keys == DeclaredNames(declared)
    requires forall n :: n in d.permissions ==> d.permissions[n].description == LastDescription(declared, n)
    ensures e.permissions == d.permissions
  {
    forall n | n in d.permissions ensures e.permissions[n] == d.permissions[n] {}
  }

  lemma DroppingNothing(db: Db)
    ensures Dropped(db, {}) == db
  {
    assert IdsOf(db, {}) == {};
  }

  /** Seeding permissions a second time changes no row. */
  lemma PermissionsSeededTwice(db: Db, declared: seq<Permission>)
    requires Valid(db)
    ensures var d := PermissionsSeeded(db, declared);
            PermissionsSeeded(d, declared) == d.(nextPermission := PermissionsSeeded(d, declared).nextPermission)
  {
    PermissionsConverge(db, declared);
    DeclaredPermissionsStay(PermissionsSeeded(db, declared), declared);
  }

  // ---- organisations converge ----

  predicate IsSystem(key: RoleKey, orgs: seq<int>) {
    IsSystemName(key.0) && key.1 in orgs
  }

  /** What a role is to hold after seeding these organisations from `db`. */
  function Goal(db: Db, declared: seq<Permission>, orgs: seq<int>, key: RoleKey): set<string> {
    if IsSystem(key, orgs) && Target(declared, key.0) != {} then Target(declared, key.0)
    else if key in db.roles then Held(db, db.roles[key].id)
    else {}
  }

  /** `d` came from `db` by seeding these organisations. */
  ghost predicate Reached(d: Db, db: Db, declared: seq<Permission>, orgs: seq<int>) {
    && Valid(d) && d.permissions == db.permissions && d.nextPermission == db.nextPermission
    && (forall k :: k in d.roles <==> k in db.roles || IsSystem(k, orgs))
    && (forall k :: k in db.roles ==> d.roles[k] == db.roles[k])
    && (forall k :: k in d.roles ==> Held(d, d.roles[k].id) == Goal(db, declared, orgs, k))
    && (forall k :: k in d.roles && k !in db.roles ==> !d.roles[k].assignable)
  }

  /** `d` is `db` with these role rows, the new ones holding nothing. */
  ghost predicate Grown(d: Db, db: Db, keys: set<RoleKey>) {
    && Valid(d) && d.permissions == db.permissions && d.nextPermission == db.nextPermission
    && d.roles.Keys == db.roles.Keys + keys
    && (forall k :: k in db.roles ==> d.roles[k] == db.roles[k])
    && (forall k :: k in d.roles ==> Held(d, d.roles[k].id) == if k in db.roles then Held(db, db.roles[k].id) else {})
    && (forall k :: k in d.roles && k !in db.roles ==> !d.roles[k].assignable)
  }

  lemma RoleAddedValid(db: Db, key: RoleKey)
    requires Valid(db)
    ensures Valid(RoleAdded(db, key))
    ensures forall a :: a in db.grants ==> a.0 < db.nextRole
  {
    var d := RoleAdded(db, key);
    forall a | a in d.grants ensures a.0 in RoleIds(d) && a.1 in PermissionIds(d) && a.0 < db.nextRole {
      assert a.0 in RoleIds(db) && a.1 in PermissionIds(db);
      var k :| k in db.roles && db.roles[k].id == a.0;
      assert d.roles[k].id == a.0;
    }
  }

  lemma RoleAddedHolds(db: Db, key: RoleKey)
    requires Valid(db)
    ensures Grown(RoleAdded(db, key), db, {key})
  {
    RoleAddedValid(db, key);
    RoleAddedHeld(db, key);
  }

  lemma RoleAddedHeld(db: Db, key: RoleKey)
    requires forall a :: a in db.grants ==> a.0 < db.nextRole
    ensures var d := RoleAdded(db, key);
            forall k :: k in d.roles ==> Held(d, d.roles[k].id) == if k in db.roles then Held(db, db.roles[k].id) else {}
  {
    var d := RoleAdded(db, key);
    assert forall r: nat :: Held(d, r) == Held(db, r);
    assert Held(db, db.nextRole) == {};
  }

  lemma GrownTwice(e: Db, d: Db, db: Db, j: RoleKey, k: RoleKey)
    requires Grown(d, db, {j}) && Grown(e, d, {k})
    ensures Grown(e, db, {j, k})
  {
    forall i | i in e.roles ensures Held(e, e.roles[i].id) == if i in db.roles then Held(db, db.roles[i].id) else {} {
      if i in d.roles { assert Held(d, d.roles[i].id) == if i in db.roles then Held(db, db.roles[i].id) else {}; }
    }
  }

  lemma RoleSeededHolds(db: Db, key: RoleKey, names: set<string>)
    requires Valid(db) && key in db.roles && names <= db.permissions.Keys
    ensures var d := RoleSeeded(db, key, names);
            && Valid(d) && d.permissions == db.permissions && d.roles == db.roles
            && (forall k :: k in d.roles ==>
                  Held(d, d.roles[k].id) == if k == key && names != {} then names else Held(db, db.roles[k].id))
  {
    assert db.roles[key].id in RoleIds(db);
    ReplacedHolds(db, db.roles[key].id, names);
  }

  lemma RolesSeededHolds(db: Db, org: int)
    requires Valid(db)
    ensures Grown(RolesSeeded(db, org), db, {(SUPER_ADMIN, org), (ORGS_ADMIN, org)})
  {
    var a := RoleAdded(db, (SUPER_ADMIN, org));
    RoleAddedHolds(db, (SUPER_ADMIN, org));
    RoleAddedHolds(a, (ORGS_ADMIN, org));
    GrownTwice(RolesSeeded(db, org), a, db, (SUPER_ADMIN, org), (ORGS_ADMIN, org));
  }

  lemma RolePermissionsSeededHolds(db: Db, declared: seq<Permission>, org: int)
    requires Valid(db) && DeclaredNames(declared) <= db.permissions.Keys
    requires (SUPER_ADMIN, org) in db.roles && (ORGS_ADMIN, org) in db.roles
    ensures var d := RolePermissionsSeeded(db, declared, org);
            && Valid(d) && d.permissions == db.permissions && d.nextPermission == db.nextPermission && d.roles == db.roles
            && (forall k :: k in d.roles ==>
                  Held(d, d.roles[k].id) ==
                  if IsSystemName(k.0) && k.1 == org && Target(declared, k.0) != {} then Target(declared, k.0)
                  else Held(db, db.roles[k].id))
  {
    var c := RoleSeeded(db, (SUPER_ADMIN, org), Target(declared, SUPER_ADMIN));
    var d := RoleSeeded(c, (ORGS_ADMIN, org), Target(declared, ORGS_ADMIN));
    RoleSeededHolds(db, (SUPER_ADMIN, org), Target(declared, SUPER_ADMIN));
    RoleSeededHolds(c, (ORGS_ADMIN, org), Target(declared, ORGS_ADMIN));
    forall k | k in d.roles
      ensures Held(d, d.roles[k].id) ==
              if IsSystemName(k.0) && k.1 == org && Target(declared, k.0) != {} then Target(declared, k.0)
              else Held(db, db.roles[k].id)
    {
      assert IsSystemName(k.0) && k.1 == org <==> k == (SUPER_ADMIN, org) || k == (ORGS_ADMIN, org);
    }
  }

  lemma OrgSeededReaches(db: Db, declared: seq<Permission>, org: int)
    requires Valid(db) && DeclaredNames(declared) <= db.permissions.Keys
    ensures Reached(OrgSeeded(db, declared, org), db, declared, [org])
  {
    var b, d := RolesSeeded(db, org), OrgSeeded(db, declared, org);
    RolesSeededHolds(db, org);
    RolePermissionsSeededHolds(b, declared, org);
    SystemKeysOf(org);
    forall k | k in d.roles ensures Held(d, d.roles[k].id) == Goal(db, declared, [org], k) {
      GoalOfOne(db, declared, org, k);
    }
  }

  lemma SystemKeysOf(org: int)
    ensures forall k :: IsSystem(k, [org]) <==> k in {(SUPER_ADMIN, org), (ORGS_ADMIN, org)}
  {}

  lemma GoalOfOne(db: Db, declared: seq<Permission>, org: int, k: RoleKey)
    ensures Goal(db, declared, [org], k) ==
            if IsSystemName(k.0) && k.1 == org && Target(declared, k.0) != {} then Target(declared, k.0)
            else if k in db.roles then Held(db, db.roles[k].id) else {}
  {}

  lemma GoalExtends(d: Db, db: Db, declared: seq<Permission>, before: seq<int>, org: int, k: RoleKey)
    requires k in d.roles ==> Held(d, d.roles[k].id) == Goal(db, declared, before, k)
    requires k in d.roles <==> k in db.roles || IsSystem(k, before)
    ensures Goal(d, declared, [org], k) == Goal(db, declared, before + [org], k)
    ensures IsSystem(k, before + [org]) <==> IsSystem(k, before) || IsSystem(k, [org])
  {}

  lemma ReachedExtends(e: Db, d: Db, db: Db, declared: seq<Permission>, orgs: seq<int>)
    requires orgs != []
    requires Reached(d, db, declared, orgs[..|orgs| - 1]) && Reached(e, d, declared, [orgs[|orgs| - 1]])
    ensures Reached(e, db, declared, orgs)
  {
    var before, org := orgs[..|orgs| - 1], orgs[|orgs| - 1];
    assert orgs == before + [org];
    forall k
      ensures Goal(d, declared, [org], k) == Goal(db, declared, orgs, k)
      ensures IsSystem(k, orgs) <==> IsSystem(k, before) || IsSystem(k, [org])
    {
      GoalExtends(d, db, declared, before, org, k);
    }
  }

  lemma ReachedAtOnce(db: Db, declared: seq<Permission>)
    requires Valid(db)
    ensures Reached(db, db, declared, [])
  {}

  lemma OneMoreOrg(d: Db, db: Db, declared: seq<Permission>, orgs: seq<int>)
    requires orgs != [] && Reached(d, db, declared, orgs[..|orgs| - 1]) && DeclaredNames(declared) <= db.permissions.Keys
    ensures Reached(OrgSeeded(d, declared, orgs[|orgs| - 1]), db, declared, orgs)
  {
    OrgSeededReaches(d, declared, orgs[|orgs| - 1]);
    ReachedExtends(OrgSeeded(d, declared, orgs[|orgs| - 1]), d, db, declared, orgs);
  }

  lemma {:induction false} OrgsSeededReaches(db: Db, declared: seq<Permission>, orgs: seq<int>)
    requires Valid(db) && DeclaredNames(declared) <= db.permissions.Keys
    ensures Reached(OrgsSeeded(db, declared, orgs), db, declared, orgs)
  {
    if orgs == [] {
      ReachedAtOnce(db, declared);
    } else {
      OrgsSeededReaches(db, declared, orgs[..|orgs| - 1]);
      OneMoreOrg(OrgsSeeded(db, declared, orgs[..|orgs| - 1]), db, declared, orgs);
    }
  }

  /** From any database, start-up seeding ends with exactly the declared permissions; with each organisation's two
      system roles holding exactly the declared names of their prefix; and with every other role as it was, less the
      obsolete permissions. (A system role without any declared name of its prefix counts as another role.) */
  lemma AutoSeedConverges(db: Db, declared: seq<Permission>, orgs: seq<int>)
    requires Valid(db)
    ensures var d := AutoSeeded(db, declared, orgs);
            && Valid(d) && d.permissions.Keys == DeclaredNames(declared)
            && (forall n :: n in d.permissions ==> d.permissions[n].description == LastDescription(declared, n))
            && (forall n :: n in d.permissions && n in db.permissions ==> d.permissions[n].id == db.permissions[n].id)
            && (forall k :: k in d.roles <==> k in db.roles || IsSystem(k, orgs))
            && (forall k :: k in db.roles ==> d.roles[k] == db.roles[k])
            && (forall k :: k in d.roles && k !in db.roles ==> !d.roles[k].assignable)
            && (forall k :: k in d.roles ==>
                  Held(d, d.roles[k].id) ==
                  if IsSystem(k, orgs) && Target(declared, k.0) != {} then Target(declared, k.0)
                  else if k in db.roles then Held(db, db.roles[k].id) * DeclaredNames(declared) else {})
  {
    PermissionsConverge(db, declared);
    OrgsSeededReaches(PermissionsSeeded(db, declared), declared, orgs);
  }

  /** The last of the declarations of one name gives its description. */
  lemma {:induction false} LastWins(declared: seq<Permission>, i: nat)
    requires i < |declared| && forall j :: i < j < |declared| ==> declared[j].name != declared[i].name
    ensures declared[i].name in DeclaredNames(declared)
    ensures LastDescription(declared, declared[i].name) == declared[i].description
    decreases |declared|
  {
    if i < |declared| - 1 { LastWins(declared[..|declared| - 1], i); }
  }

  /** What start-up seeding leaves, name by name: in each organisation listed, SuperAdmin holds a permission exactly when
      it is declared and begins with "admin.", and OrgsAdmin exactly when it is declared and begins with "tenant.". A role
      that existed before keeps what it held, less the obsolete, if no declared name begins so. */
  lemma SystemRolesHold(db: Db, declared: seq<Permission>, orgs: seq<int>, org: int)
    requires Valid(db) && org in orgs
    ensures var d := AutoSeeded(db, declared, orgs);
            && ("SuperAdmin", org) in d.roles && ("OrgsAdmin", org) in d.roles
            && (forall n :: n in d.permissions <==> exists p :: p in declared && p.name == n)
            && ((exists p :: p in declared && "admin." <= p.name) || ("SuperAdmin", org) !in db.roles ==>
                  forall n :: n in d.permissions ==>
                    ((d.roles[("SuperAdmin", org)].id, d.permissions[n].id) in d.grants <==> "admin." <= n))
            && ((exists p :: p in declared && "tenant." <= p.name) || ("OrgsAdmin", org) !in db.roles ==>
                  forall n :: n in d.permissions ==>
                    ((d.roles[("OrgsAdmin", org)].id, d.permissions[n].id) in d.grants <==> "tenant." <= n))
  {
    var d := AutoSeeded(db, declared, orgs);
    AutoSeedConverges(db, declared, orgs);
    assert IsSystem(("SuperAdmin", org), orgs) && IsSystem(("OrgsAdmin", org), orgs);
    forall n ensures n in d.permissions <==> exists p :: p in declared && p.name == n {
      DeclaredByName(declared, n);
    }
    RoleHolds(d, declared, "SuperAdmin", "admin.", org);
    RoleHolds(d, declared, "OrgsAdmin", "tenant.", org);
    if p :| p in declared && "admin." <= p.name { TargetHas(declared, "SuperAdmin", p); }
    if p :| p in declared && "tenant." <= p.name { TargetHas(declared, "OrgsAdmin", p); }
  }

  lemma DeclaredByName(declared: seq<Permission>, n: string)
    ensures n in DeclaredNames(declared) <==> exists p :: p in declared && p.name == n
  {
    if n in DeclaredNames(declared) {
      var i :| 0 <= i < |declared| && declared[i].name == n;
      assert declared[i] in declared;
    }
    if p :| p in declared && p.name == n {
      var i :| 0 <= i < |declared| && declared[i] == p;
      assert declared[i].name == n;
    }
  }

  lemma TargetHas(declared: seq<Permission>, role: string, p: Permission)
    requires p in declared && Prefix(role) <= p.name
    ensures Target(declared, role) != {}
  {
    DeclaredByName(declared, p.name);
    assert p.name in Target(declared, role);
  }

  lemma RoleHolds(d: Db, declared: seq<Permission>, role: string, prefix: string, org: int)
    requires d.permissions.Keys == DeclaredNames(declared) && Prefix(role) == prefix && (role, org) in d.roles
    ensures Held(d, d.roles[(role, org)].id) == Target(declared, role) ==>
              forall n :: n in d.permissions ==>
                ((d.roles[(role, org)].id, d.permissions[n].id) in d.grants <==> prefix <= n)
  {
    forall n | n in d.permissions ensures n in Target(declared, role) <==> prefix <= n {}
    forall n | n in d.permissions
      ensures (d.roles[(role, org)].id, d.permissions[n].id) in d.grants <==> n in Held(d, d.roles[(role, org)].id)
    {}
  }

  /** Every permission row is described as the last declaration of its name says. */
  lemma DescribedAsDeclared(db: Db, declared: seq<Permission>, orgs: seq<int>, i: nat)
    requires Valid(db) && i < |declared| && forall j :: i < j < |declared| ==> declared[j].name != declared[i].name
    ensures var d := AutoSeeded(db, declared, orgs);
            declared[i].name in d.permissions && d.permissions[declared[i].name].description == declared[i].description
  {
    AutoSeedConverges(db, declared, orgs);
    LastWins(declared, i);
  }

  /** A seeded organisation is left alone. */
  lemma OrgSeededAgain(d: Db, declared: seq<Permission>, org: int)
    requires Valid(d) && (SUPER_ADMIN, org) in d.roles && (ORGS_ADMIN, org) in d.roles
    requires forall role :: IsSystemName(role) && Target(declared, role) != {} ==>
               Held(d, d.roles[(role, org)].id) == Target(declared, role)
    ensures OrgSeeded(d, declared, org) == d
  {
    assert IsSystemName(SUPER_ADMIN) && IsSystemName(ORGS_ADMIN);
    ReplacedBySame(d, d.roles[(SUPER_ADMIN, org)].id);
    ReplacedBySame(d, d.roles[(ORGS_ADMIN, org)].id);
  }

  lemma {:induction false} OrgsSeededAgain(d: Db, declared: seq<Permission>, orgs: seq<int>)
    requires Valid(d)
    requires forall k :: IsSystem(k, orgs) ==>
               && k in d.roles
               && (Target(declared, k.0) != {} ==> Held(d, d.roles[k].id) == Target(declared, k.0))
    ensures OrgsSeeded(d, declared, orgs) == d
  {
    if orgs != [] {
      var org := orgs[|orgs| - 1];
      assert IsSystem((SUPER_ADMIN, org), orgs) && IsSystem((ORGS_ADMIN, org), orgs);
      OrgsSeededAgain(d, declared, orgs[..|orgs| - 1]);
      OrgSeededAgain(d, declared, org);
    }
  }

  /** A second start changes no row of any table. */
  lemma AutoSeedTwice(db: Db, declared: seq<Permission>, orgs: seq<int>)
    requires Valid(db)
    ensures var d := AutoSeeded(db, declared, orgs);
            AutoSeeded(d, declared, orgs) == d.(nextPermission := AutoSeeded(d, declared, orgs).nextPermission)
  {
    var d := AutoSeeded(db, declared, orgs);
    AutoSeedConverges(db, declared, orgs);
    SeededIsFixed(d, declared, orgs);
  }

  lemma SeededIsFixed(d: Db, declared: seq<Permission>, orgs: seq<int>)
    requires Valid(d) && d.permissions.Keys == DeclaredNames(declared)
    requires forall n :: n in d.permissions ==> d.permissions[n].description == LastDescription(declared, n)
    requires forall k :: IsSystem(k, orgs) ==>
               && k in d.roles
               && (Target(declared, k.0) != {} ==> Held(d, d.roles[k].id) == Target(declared, k.0))
    ensures AutoSeeded(d, declared, orgs) == d.(nextPermission := AutoSeeded(d, declared, orgs).nextPermission)
  {
    DeclaredPermissionsStay(d, declared);
    PermissionsConverge(d, declared);
    OrgsSeededAgain(PermissionsSeeded(d, declared), declared, orgs);
  }

  // ---- a new organisation ----

  /** SeedOrgDefaults: create or reset the two roles, then give each every permission row of its prefix. */
  function RoleUpserted(db: Db, key: RoleKey): Db {
    var id := if key in db.roles then db.roles[key].id else db.nextRole;
    db.(roles := db.roles[key := RoleRow(id, false)], nextRole := db.nextRole + 1)
  }

  function Granted(db: Db, key: RoleKey): Db
    requires key in db.roles
  {
    db.(grants := db.grants + Pairs(db.roles[key].id, IdsOf(db, WithPrefix(db.permissions.Keys, Prefix(key.0)))))
  }

  function OrgDefaults(db: Db, org: int): Db {
    Granted(Granted(RoleUpserted(RoleUpserted(db, (SUPER_ADMIN, org)), (ORGS_ADMIN, org)), (SUPER_ADMIN, org)),
            (ORGS_ADMIN, org))
  }

  lemma GrantedIsSeeded(db: Db, key: RoleKey)
    requires Valid(db) && key in db.roles && Held(db, db.roles[key].id) == {}
    ensures Granted(db, key) == RoleSeeded(db, key, WithPrefix(db.permissions.Keys, Prefix(key.0)))
  {
    var role, names := db.roles[key].id, WithPrefix(db.permissions.Keys, Prefix(key.0));
    forall a | a in db.grants ensures a.0 != role {
      assert a.1 in PermissionIds(db);
      var n :| n in db.permissions && db.permissions[n].id == a.1;
      assert a == (a.0, db.permissions[n].id);
      assert a.0 == role ==> n in Held(db, role);
    }
    if names == {} { assert IdsOf(db, names) == {}; }
    assert Granted(db, key).grants == RoleSeeded(db, key, names).grants;
  }

  lemma NewRolesAlike(db: Db, org: int)
    requires (SUPER_ADMIN, org) !in db.roles && (ORGS_ADMIN, org) !in db.roles
    ensures RolesSeeded(db, org) == RoleUpserted(RoleUpserted(db, (SUPER_ADMIN, org)), (ORGS_ADMIN, org))
  {}

  lemma BothSeededHold(b: Db, j: RoleKey, k: RoleKey, m: set<string>, n: set<string>)
    requires Valid(b) && j in b.roles && k in b.roles && j != k
    requires Held(b, b.roles[j].id) == {} && Held(b, b.roles[k].id) == {}
    requires m <= b.permissions.Keys && n <= b.permissions.Keys
    ensures var d := RoleSeeded(RoleSeeded(b, j, m), k, n);
            Held(d, b.roles[j].id) == m && Held(d, b.roles[k].id) == n
  {
    RoleSeededHolds(b, j, m);
    RoleSeededHolds(RoleSeeded(b, j, m), k, n);
  }

  function RowsWithPrefix(db: Db, role: string): set<string> {
    WithPrefix(db.permissions.Keys, Prefix(role))
  }

  lemma DefaultsAsSeeded(db: Db, org: int)
    requires Valid(db)
    requires (SUPER_ADMIN, org) !in db.roles && (ORGS_ADMIN, org) !in db.roles
    ensures var b := RolesSeeded(db, org);
            OrgDefaults(db, org) == RoleSeeded(RoleSeeded(b, (SUPER_ADMIN, org), RowsWithPrefix(db, SUPER_ADMIN)),
                                               (ORGS_ADMIN, org), RowsWithPrefix(db, ORGS_ADMIN))
  {
    var b := RolesSeeded(db, org);
    NewRolesAlike(db, org);
    RolesSeededHolds(db, org);
    GrantedIsSeeded(b, (SUPER_ADMIN, org));
    RoleSeededHolds(b, (SUPER_ADMIN, org), RowsWithPrefix(db, SUPER_ADMIN));
    GrantedIsSeeded(Granted(b, (SUPER_ADMIN, org)), (ORGS_ADMIN, org));
  }

  /** Every declared name a system role is to hold has a row; otherwise seeding its permissions fails. */
  predicate CanSeed(db: Db, declared: seq<Permission>) {
    Target(declared, SUPER_ADMIN) <= db.permissions.Keys && Target(declared, ORGS_ADMIN) <= db.permissions.Keys
  }

  /** For an organisation without system roles the new-organisation seeder leaves exactly the database that seeding its
      roles and their permissions leaves, if and only if the permission rows of the two prefixes are the declared ones. */
  lemma NewOrganisationIsSeededAlike(db: Db, declared: seq<Permission>, org: int)
    requires Valid(db)
    requires (SUPER_ADMIN, org) !in db.roles && (ORGS_ADMIN, org) !in db.roles
    ensures CanSeed(db, declared) && OrgDefaults(db, org) == OrgSeeded(db, declared, org) <==>
            && RowsWithPrefix(db, SUPER_ADMIN) == Target(declared, SUPER_ADMIN)
            && RowsWithPrefix(db, ORGS_ADMIN) == Target(declared, ORGS_ADMIN)
  {
    var b := RolesSeeded(db, org);
    DefaultsAsSeeded(db, org);
    RolesSeededHolds(db, org);
    if CanSeed(db, declared) && OrgDefaults(db, org) == OrgSeeded(db, declared, org) {
      BothSeededHold(b, (SUPER_ADMIN, org), (ORGS_ADMIN, org), RowsWithPrefix(db, SUPER_ADMIN), RowsWithPrefix(db, ORGS_ADMIN));
      BothSeededHold(b, (SUPER_ADMIN, org), (ORGS_ADMIN, org), Target(declared, SUPER_ADMIN), Target(declared, ORGS_ADMIN));
    }
  }

  /** So it holds after the permissions have been seeded. */
  lemma DeclaredRowsSeedAlike(db: Db, declared: seq<Permission>, org: int)
    requires Valid(db) && db.permissions.Keys == DeclaredNames(declared)
    requires (SUPER_ADMIN, org) !in db.roles && (ORGS_ADMIN, org) !in db.roles
    ensures OrgDefaults(db, org) == OrgSeeded(db, declared, org)
  {
    NewOrganisationIsSeededAlike(db, declared, org);
  }

  /** What SeedOrgDefaults leaves, name by name, in any database: SuperAdmin has gained every permission row whose name
      begins with "admin." and OrgsAdmin every one that begins with "tenant."; roles that existed keep their id, and no
      other role row or assignment changes. In an organisation that had no such roles that is all they hold. */
  lemma DefaultsHold(db: Db, org: int)
    requires Valid(db)
    ensures var d := OrgDefaults(db, org);
            var s, o := ("SuperAdmin", org), ("OrgsAdmin", org);
            && d.permissions == db.permissions && d.roles.Keys == db.roles.Keys + {s, o}
            && !d.roles[s].assignable && !d.roles[o].assignable
            && (s in db.roles ==> d.roles[s].id == db.roles[s].id) && (o in db.roles ==> d.roles[o].id == db.roles[o].id)
            && (forall k :: k in db.roles && k != s && k != o ==> d.roles[k] == db.roles[k])
            && (forall n :: n in d.permissions ==>
                  && ((d.roles[s].id, d.permissions[n].id) in d.grants <==>
                        "admin." <= n || (s in db.roles && (db.roles[s].id, db.permissions[n].id) in db.grants))
                  && ((d.roles[o].id, d.permissions[n].id) in d.grants <==>
                        "tenant." <= n || (o in db.roles && (db.roles[o].id, db.permissions[n].id) in db.grants)))
            && (forall a: (nat, nat) :: a.0 != d.roles[s].id && a.0 != d.roles[o].id ==> (a in d.grants <==> a in db.grants))
  {
    var s, o := ("SuperAdmin", org), ("OrgsAdmin", org);
    var b := RoleUpserted(RoleUpserted(db, s), o);
    BothUpserted(db, s, o);
    var c := Granted(b, s);
    var d := Granted(c, o);
    assert d == OrgDefaults(db, org);
    forall n | n in db.permissions
      ensures (b.roles[s].id, db.permissions[n].id) in d.grants <==>
                "admin." <= n || (b.roles[s].id, db.permissions[n].id) in db.grants
      ensures (b.roles[o].id, db.permissions[n].id) in d.grants <==>
                "tenant." <= n || (b.roles[o].id, db.permissions[n].id) in db.grants
    {
      GrantedGains(b, s, n);
      GrantedGains(c, o, n);
      GrantedKeeps(b, s);
      GrantedKeeps(c, o);
    }
    GrantedKeeps(b, s);
    GrantedKeeps(c, o);
  }

  /** The two rows are distinct, and a new one has no assignments yet. */
  lemma BothUpserted(db: Db, s: RoleKey, o: RoleKey)
    requires Valid(db) && s != o
    ensures var b := RoleUpserted(RoleUpserted(db, s), o);
            && b.permissions == db.permissions && b.grants == db.grants && b.roles.Keys == db.roles.Keys + {s, o}
            && !b.roles[s].assignable && !b.roles[o].assignable && b.roles[s].id != b.roles[o].id
            && (s in db.roles ==> b.roles[s].id == db.roles[s].id) && (o in db.roles ==> b.roles[o].id == db.roles[o].id)
            && (forall k :: k in db.roles && k != s && k != o ==> b.roles[k] == db.roles[k])
            && (forall a :: a in db.grants ==> (s !in db.roles ==> a.0 != b.roles[s].id) && (o !in db.roles ==> a.0 != b.roles[o].id))
  {
    forall a | a in db.grants ensures a.0 < db.nextRole {
      assert a.0 in RoleIds(db);
    }
  }

  lemma GrantedGains(db: Db, key: RoleKey, n: string)
    requires key in db.roles && n in db.permissions
    requires forall m :: m in db.permissions && db.permissions[m].id == db.permissions[n].id ==> m == n
    ensures (db.roles[key].id, db.permissions[n].id) in Granted(db, key).grants <==>
              Prefix(key.0) <= n || (db.roles[key].id, db.permissions[n].id) in db.grants
  {
    var names := WithPrefix(db.permissions.Keys, Prefix(key.0));
    assert db.permissions[n].id in IdsOf(db, names) <==> n in names;
  }

  lemma GrantedKeeps(db: Db, key: RoleKey)
    requires key in db.roles
    ensures Granted(db, key).permissions == db.permissions && Granted(db, key).roles == db.roles
    ensures forall a: (nat, nat) :: a.0 != db.roles[key].id ==> (a in Granted(db, key).grants <==> a in db.grants)
  {}
}
