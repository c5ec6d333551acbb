/** The seeder's and the role screen's code, statement by statement, proved against RoleAssignments. */
module Seeder {
  import opened Prelude
  import opened RoleAssignments

  datatype SeedError = RoleNotFound | PermissionNotFound

  function Elements(names: seq<string>): set<string> {
    set i | 0 <= i < |names| :: names[i]
  }

  lemma ElementsOfPrefix(names: seq<string>, i: nat)
    requires i < |names|
    ensures Elements(names[..i + 1]) == Elements(names[..i]) + {names[i]}
  {
    var longer, shorter := names[..i + 1], names[..i];
    forall n | n in Elements(longer) ensures n in Elements(shorter) + {names[i]} {
      var j :| 0 <= j < |longer| && longer[j] == n;
      if j < i { assert shorter[j] == n; }
    }
    forall n | n in Elements(shorter) + {names[i]} ensures n in Elements(longer) {
      if n in Elements(shorter) {
        var j :| 0 <= j < |shorter| && shorter[j] == n;
        assert longer[j] == n;
      } else {
        assert longer[i] == n;
      }
    }
  }

  lemma ElementsAppend(names: seq<string>, name: string)
    ensures Elements(names + [name]) == Elements(names) + {name}
  {
    var longer := names + [name];
    assert longer[..|names|] == names && longer[..|names| + 1] == longer;
    ElementsOfPrefix(longer, |names|);
  }

  /** The names of `a` that `b` lacks, in whatever order the map yields them, each once. */
  method Difference(a: set<string>, b: set<string>) returns (names: seq<string>)
    ensures Elements(names) == a - b && |names| == |a - b|
  {
    names := [];
    var rest := a;
    while rest != {}
      invariant rest <= a && Elements(names) == a - rest - b && |names| == |a - rest - b|
      decreases |rest|
    {
      var name :| name in rest;
      var done := a - rest - b;
      rest := rest - {name};
      if name in b {
        assert a - rest - b == done;
      } else {
        assert a - rest - b == done + {name};
        ElementsAppend(names, name);
        names := names + [name];
      }
    }
    assert a - {} - b == a - b;
  }

  lemma DroppedOneMore(db: Db, names: set<string>, name: string)
    requires Valid(db) && name in db.permissions && name !in names
    ensures var d := Dropped(db, names);
            && name in d.permissions
            && Dropped(db, names + {name}) ==
               d.(permissions := d.permissions - {name}, grants := set a | a in d.grants && a.1 != d.permissions[name].id)
  {
    assert IdsOf(db, names + {name}) == IdsOf(db, names) + {db.permissions[name].id};
  }

  lemma AllUpsertedOneMore(db: Db, declared: seq<Permission>, i: nat)
    requires i < |declared|
    ensures AllUpserted(db, declared[..i + 1]) == Upserted(AllUpserted(db, declared[..i]), declared[i])
  {
    assert declared[..i + 1][..i] == declared[..i];
  }

  lemma DeclaredOneMore(declared: seq<Permission>, i: nat)
    requires i < |declared|
    ensures DeclaredNames(declared[..i + 1]) == DeclaredNames(declared[..i]) + {declared[i].name}
  {
    NamesOfPrefix(declared[..i + 1]);
    assert declared[..i + 1][..i] == declared[..i];
  }

  /** A failed update has added some of the wanted permissions to that role, and changed nothing else. */
  predicate PartlyAdded(before: Db, after: Db, key: RoleKey, names: set<string>) {
    && (key !in before.roles ==> after == before)
    && (key in before.roles ==>
          && after == before.(grants := after.grants) && before.grants <= after.grants
          && after.grants <= before.grants + Pairs(before.roles[key].id, IdsOf(before, names)))
  }

  predicate Assignable(db: Db, key: RoleKey, names: set<string>) {
    names == {} || (key in db.roles && names <= db.permissions.Keys)
  }

  /** The roles were updated in this order and one update failed: the first, or after the first the second. */
  predicate FailedInOrder(before: Db, after: Db, j: RoleKey, m: set<string>, k: RoleKey, n: set<string>) {
    if !Assignable(before, j, m) then PartlyAdded(before, after, j, m)
    else !Assignable(before, k, n) && PartlyAdded(RoleSeeded(before, j, m), after, k, n)
  }

  lemma PrefixPairs(db: Db, role: nat, names: seq<string>, i: nat)
    requires i <= |names|
    ensures Pairs(role, IdsOf(db, Elements(names[..i]))) <= Pairs(role, IdsOf(db, Elements(names)))
  {
    forall n | n in Elements(names[..i]) ensures n in Elements(names) {
      var j :| 0 <= j < i && names[..i][j] == n;
      assert names[j] == n;
    }
    assert IdsOf(db, Elements(names[..i])) <= IdsOf(db, Elements(names));
  }

  class SeedManager {
    var db: Db

    method SeedPermissions(declared: seq<Permission>)
      requires Valid(db)
      modifies this
      ensures db == PermissionsSeeded(old(db), declared)
    {
      var current: set<string> := {};
      for i := 0 to |declared|
        invariant current == DeclaredNames(declared[..i]) && db == old(db)
      {
        DeclaredOneMore(declared, i);
        current := current + {declared[i].name};
      }
      assert declared[..|declared|] == declared;
      var existing := db.permissions.Keys;
      for i := 0 to |declared|
        invariant db == AllUpserted(old(db), declared[..i])
      {
        AllUpsertedOneMore(old(db), declared, i);
        db := Upserted(db, declared[i]);
      }
      AllUpsertedHolds(old(db), declared);
      RemoveObsolete(existing, current);
    }

    /** The obsolete names in whatever order the map yields them. */
    method RemoveObsolete(existing: set<string>, current: set<string>)
      requires Valid(db) && existing <= db.permissions.Keys
      modifies this
      ensures db == Dropped(old(db), existing - current)
    {
      var rest := existing;
      assert IdsOf(db, {}) == {};
      while rest != {}
        invariant rest <= existing && db == Dropped(old(db), existing - rest - current)
        decreases |rest|
      {
        var name :| name in rest;
        ghost var gone := existing - rest - current;
        rest := rest - {name};
        if name !in current {
          DroppedOneMore(old(db), gone, name);
          assert existing - rest - current == gone + {name};
          var id := db.permissions[name].id;
          db := db.(grants := set a | a in db.grants && a.1 != id);
          db := db.(permissions := db.permissions - {name});
        } else {
          assert existing - rest - current == gone;
        }
      }
      assert existing - {} - current == existing - current;
    }

    method SeedRoles(org: int)
      modifies this
      ensures db == RolesSeeded(old(db), org)
    {
      var existing := set k | k in db.roles && k.1 == org :: k.0;
      if SUPER_ADMIN !in existing {
        assert (SUPER_ADMIN, org) !in db.roles;
        db := db.(roles := db.roles[(SUPER_ADMIN, org) := RoleRow(db.nextRole, false)], nextRole := db.nextRole + 1);
      }
      if ORGS_ADMIN !in existing {
        assert (ORGS_ADMIN, org) !in old(db).roles;
        db := db.(roles := db.roles[(ORGS_ADMIN, org) := RoleRow(db.nextRole, false)], nextRole := db.nextRole + 1);
      }
    }

    /** Succeeds exactly when there is nothing to set, or the role and all the names exist; then the role holds exactly
        the names, and the counts say what was added and removed. A missing name leaves some of the others added. */
    method UpdateRolePermissions(key: RoleKey, names: seq<string>) returns (r: Result<(nat, nat), SeedError>)
      requires Valid(db)
      modifies this
      ensures r.Ok? <==> names == [] || (key in old(db).roles && Elements(names) <= old(db).permissions.Keys)
      ensures r.Ok? ==> db == RoleSeeded(old(db), key, Elements(names))
      ensures r.Ok? && names != [] ==>
                var held := Held(old(db), old(db).roles[key].id);
                r.value == (|Elements(names) - held|, |held - Elements(names)|)
      ensures r.Ok? && names == [] ==> r.value == (0, 0)
      ensures r.Err? ==> PartlyAdded(old(db), db, key, Elements(names))
    {
      if names == [] { return Ok((0, 0)); }
      assert names[0] in Elements(names);
      if key !in db.roles { return Err(RoleNotFound); }
      var role := db.roles[key].id;
      var current := Held(db, role);
      var wanted := {};
      for i := 0 to |names|
        invariant wanted == Elements(names[..i]) && db == old(db)
      {
        ElementsOfPrefix(names, i);
        wanted := wanted + {names[i]};
      }
      assert names[..|names|] == names;
      var toAdd := Difference(wanted, current);
      var toRemove := Difference(current, wanted);
      assert Pairs(role, IdsOf(db, wanted - current)) <= Pairs(role, IdsOf(db, wanted)) by {
        assert IdsOf(db, wanted - current) <= IdsOf(db, wanted);
      }
      var ok := AddAll(role, toAdd);
      if !ok { return Err(PermissionNotFound); }
      RemoveAll(role, toRemove);
      DiffByName(old(db), role, wanted);
      assert wanted <= old(db).permissions.Keys;
      return Ok((|toAdd|, |toRemove|));
    }

    /** A name without a permission row makes its INSERT fail; earlier ones stay. */
    method AddAll(role: nat, names: seq<string>) returns (ok: bool)
      modifies this
      ensures ok <==> Elements(names) <= old(db).permissions.Keys
      ensures ok ==> db == old(db).(grants := old(db).grants + Pairs(role, IdsOf(old(db), Elements(names))))
      ensures !ok ==> db == old(db).(grants := db.grants)
                      && old(db).grants <= db.grants <= old(db).grants + Pairs(role, IdsOf(old(db), Elements(names)))
    {
      for i := 0 to |names|
        invariant Elements(names[..i]) <= db.permissions.Keys
        invariant db == old(db).(grants := old(db).grants + Pairs(role, IdsOf(old(db), Elements(names[..i]))))
      {
        ElementsOfPrefix(names, i);
        if names[i] !in db.permissions {
          assert names[i] in Elements(names);
          PrefixPairs(old(db), role, names, i);
          return false;
        }
        PairsGain(old(db), role, Elements(names[..i]), names[i]);
        db := db.(grants := db.grants + {(role, db.permissions[names[i]].id)});
      }
      assert names[..|names|] == names;
      return true;
    }

    method RemoveAll(role: nat, names: seq<string>)
      requires Elements(names) <= db.permissions.Keys
      modifies this
      ensures db == old(db).(grants := old(db).grants - Pairs(role, IdsOf(old(db), Elements(names))))
    {
      for i := 0 to |names|
        invariant db == old(db).(grants := old(db).grants - Pairs(role, IdsOf(old(db), Elements(names[..i]))))
      {
        ElementsOfPrefix(names, i);
        assert names[i] in Elements(names);
        PairsGain(old(db), role, Elements(names[..i]), names[i]);
        db := db.(grants := db.grants - {(role, db.permissions[names[i]].id)});
      }
      assert names[..|names|] == names;
    }

    /** A missing name leaves the role cleared: there is no transaction. */
    method AssignPermissionsToRole(key: RoleKey, names: seq<string>) returns (r: Result<(), SeedError>)
      requires Valid(db)
      modifies this
      ensures r.Ok? <==> names == [] || (key in old(db).roles && Elements(names) <= old(db).permissions.Keys)
      ensures r.Ok? ==> db == RoleSeeded(old(db), key, Elements(names))
      ensures r.Err? && key !in old(db).roles ==> db == old(db)
      ensures r.Err? && key in old(db).roles ==>
                db == old(db).(grants := Replaced(old(db).grants, old(db).roles[key].id, {}))
    {
      if names == [] { return Ok(()); }
      assert names[0] in Elements(names);
      if key !in db.roles { return Err(RoleNotFound); }
      var role := db.roles[key].id;
      db := db.(grants := set a | a in db.grants && a.0 != role);
      var values: seq<(nat, nat)> := [];
      for i := 0 to |names|
        invariant db == old(db).(grants := set a | a in old(db).grants && a.0 != role)
        invariant Elements(names[..i]) <= db.permissions.Keys
        invariant (set v | v in values) == Pairs(role, IdsOf(old(db), Elements(names[..i])))
      {
        ElementsOfPrefix(names, i);
        if names[i] !in db.permissions {
          assert names[i] in Elements(names);
          assert Pairs(role, {}) == {};
          return Err(PermissionNotFound);
        }
        PairsGain(old(db), role, Elements(names[..i]), names[i]);
        values := values + [(role, db.permissions[names[i]].id)];
      }
      assert names[..|names|] == names;
      db := db.(grants := db.grants + set v | v in values);
      return Ok(());
    }

    /** The two roles are updated in whatever order the map yields them. */
    method SeedRolePermissions(declared: seq<Permission>, org: int) returns (r: Result<(), SeedError>)
      requires Valid(db)
      modifies this
      ensures var superAdmin, orgsAdmin := (SUPER_ADMIN, org), (ORGS_ADMIN, org);
              var admins, tenants := Target(declared, SUPER_ADMIN), Target(declared, ORGS_ADMIN);
              && (r.Ok? <==> Assignable(old(db), superAdmin, admins) && Assignable(old(db), orgsAdmin, tenants))
              && (r.Ok? ==> db == RolePermissionsSeeded(old(db), declared, org))
              && (r.Err? ==> FailedInOrder(old(db), db, superAdmin, admins, orgsAdmin, tenants)
                             || FailedInOrder(old(db), db, orgsAdmin, tenants, superAdmin, admins))
    {
      var admin, tenant := [], [];
      for i := 0 to |declared|
        invariant db == old(db)
        invariant Elements(admin) == WithPrefix(DeclaredNames(declared[..i]), "admin.")
        invariant Elements(tenant) == WithPrefix(DeclaredNames(declared[..i]), "tenant.")
      {
        DeclaredOneMore(declared, i);
        var name := declared[i].name;
        if "admin." <= name {
          assert name[0] == 'a' && !("tenant." <= name);
          ElementsAppend(admin, name);
          admin := admin + [name];
        } else if "tenant." <= name {
          ElementsAppend(tenant, name);
          tenant := tenant + [name];
        }
      }
      assert declared[..|declared|] == declared;
      RolesSeedInAnyOrder(db, (SUPER_ADMIN, org), Elements(admin), (ORGS_ADMIN, org), Elements(tenant));
      var first, second := ((SUPER_ADMIN, org), admin), ((ORGS_ADMIN, org), tenant);
      if * { first, second := second, first; }
      r := UpdateBoth(first.0, first.1, second.0, second.1);
    }

    method UpdateBoth(j: RoleKey, m: seq<string>, k: RoleKey, n: seq<string>) returns (r: Result<(), SeedError>)
      requires Valid(db)
      modifies this
      ensures r.Ok? <==> Assignable(old(db), j, Elements(m)) && Assignable(old(db), k, Elements(n))
      ensures r.Ok? ==> db == RoleSeeded(RoleSeeded(old(db), j, Elements(m)), k, Elements(n))
      ensures r.Err? ==> FailedInOrder(old(db), db, j, Elements(m), k, Elements(n))
    {
      NoElements(m);
      NoElements(n);
      var a := UpdateRolePermissions(j, m);
      if a.Err? { return Err(a.error); }
      ValidStays(old(db), j, Elements(m), m);
      var b := UpdateRolePermissions(k, n);
      if b.Err? { return Err(b.error); }
      return Ok(());
    }

    method SeedOrgDefaults(org: int)
      requires Valid(db)
      modifies this
      ensures db == OrgDefaults(old(db), org)
    {
      db := RoleUpserted(db, (SUPER_ADMIN, org));
      var superAdmin := db.roles[(SUPER_ADMIN, org)].id;
      db := RoleUpserted(db, (ORGS_ADMIN, org));
      var orgsAdmin := db.roles[(ORGS_ADMIN, org)].id;
      GrantByPrefix(superAdmin, orgsAdmin);
      assert Prefix(SUPER_ADMIN) == "admin." && Prefix(ORGS_ADMIN) == "tenant.";
    }

    /** Every permission row, in whatever order the query yields them. */
    method GrantByPrefix(superAdmin: nat, orgsAdmin: nat)
      modifies this
      ensures db == DefaultsGranted(old(db), superAdmin, orgsAdmin, old(db).permissions.Keys)
    {
      ghost var base := db;
      var all := db.permissions.Keys;
      var rest := all;
      NothingGranted(base, superAdmin, orgsAdmin);
      while rest != {}
        invariant rest <= all && db == DefaultsGranted(base, superAdmin, orgsAdmin, all - rest)
        decreases |rest|
      {
        var name :| name in rest;
        GrantOneMore(base, superAdmin, orgsAdmin, all - rest, name);
        assert all - (rest - {name}) == all - rest + {name};
        rest := rest - {name};
        if "admin." <= name {
          db := db.(grants := db.grants + {(superAdmin, db.permissions[name].id)});
        } else if "tenant." <= name {
          db := db.(grants := db.grants + {(orgsAdmin, db.permissions[name].id)});
        }
      }
      assert all - {} == all;
    }

    method SeedOrg(declared: seq<Permission>, org: int) returns (r: Result<(), SeedError>)
      requires Valid(db) && DeclaredNames(declared) <= db.permissions.Keys
      modifies this
      ensures r.Ok? && db == OrgSeeded(old(db), declared, org)
    {
      RolesSeededHolds(db, org);
      SeedRoles(org);
      r := SeedRolePermissions(declared, org);
    }

    /** Start-up seeding of every organisation found. */
    method AutoSeed(declared: seq<Permission>, orgs: seq<int>) returns (r: Result<(), SeedError>)
      requires Valid(db)
      modifies this
      ensures r.Ok? && db == AutoSeeded(old(db), declared, orgs)
    {
      PermissionsConverge(db, declared);
      SeedPermissions(declared);
      ghost var d := db;
      for i := 0 to |orgs|
        invariant db == OrgsSeeded(d, declared, orgs[..i])
      {
        OrgsSeededReaches(d, declared, orgs[..i]);
        assert orgs[..i + 1][..i] == orgs[..i];
        var seeded := SeedOrg(declared, orgs[i]);
        if seeded.Err? { return seeded; }
      }
      assert orgs[..|orgs|] == orgs;
      return Ok(());
    }
  }

  function DefaultsGranted(base: Db, superAdmin: nat, orgsAdmin: nat, names: set<string>): Db {
    base.(grants := base.grants + Pairs(superAdmin, IdsOf(base, WithPrefix(names, "admin.")))
                    + Pairs(orgsAdmin, IdsOf(base, WithPrefix(names, "tenant."))))
  }

  lemma NothingGranted(base: Db, superAdmin: nat, orgsAdmin: nat)
    ensures DefaultsGranted(base, superAdmin, orgsAdmin, {}) == base
  {
    assert IdsOf(base, WithPrefix({}, "admin.")) == {} && IdsOf(base, WithPrefix({}, "tenant.")) == {};
  }

  lemma PrefixGains(names: set<string>, name: string, prefix: string)
    ensures WithPrefix(names + {name}, prefix) == WithPrefix(names, prefix) + if prefix <= name then {name} else {}
  {}

  lemma GrantOneMore(base: Db, superAdmin: nat, orgsAdmin: nat, names: set<string>, name: string)
    requires name in base.permissions
    ensures var d := DefaultsGranted(base, superAdmin, orgsAdmin, names);
            DefaultsGranted(base, superAdmin, orgsAdmin, names + {name}) ==
            if "admin." <= name then d.(grants := d.grants + {(superAdmin, base.permissions[name].id)})
            else if "tenant." <= name then d.(grants := d.grants + {(orgsAdmin, base.permissions[name].id)})
            else d
  {
    PrefixGains(names, name, "admin.");
    PrefixGains(names, name, "tenant.");
    PairsGain(base, superAdmin, WithPrefix(names, "admin."), name);
    PairsGain(base, orgsAdmin, WithPrefix(names, "tenant."), name);
    assert WithPrefix(names, "admin.") + {} == WithPrefix(names, "admin.");
    assert WithPrefix(names, "tenant.") + {} == WithPrefix(names, "tenant.");
    if "admin." <= name { assert name[0] == 'a' && !("tenant." <= name); }
  }

  lemma PairsGain(db: Db, role: nat, names: set<string>, name: string)
    requires name in db.permissions
    ensures Pairs(role, IdsOf(db, names + {name})) == Pairs(role, IdsOf(db, names)) + {(role, db.permissions[name].id)}
  {
    assert IdsOf(db, names + {name}) == IdsOf(db, names) + {db.permissions[name].id};
  }

  /** Adding and removing by name is adding and removing by id. */
  lemma DiffByName(db: Db, role: nat, wanted: set<string>)
    requires Valid(db)
    ensures var held := Held(db, role);
            db.grants + Pairs(role, IdsOf(db, wanted - held)) - Pairs(role, IdsOf(db, held - wanted)) ==
            Replaced(db.grants, role, IdsOf(db, wanted))
  {
    var held := Held(db, role);
    var result := db.grants + Pairs(role, IdsOf(db, wanted - held)) - Pairs(role, IdsOf(db, held - wanted));
    forall a ensures a in result <==> a in Replaced(db.grants, role, IdsOf(db, wanted)) {
      if a.0 == role && a.1 in PermissionIds(db) {
        var n :| n in db.permissions && db.permissions[n].id == a.1;
        NamedById(db, n, wanted);
        NamedById(db, n, wanted - held);
        NamedById(db, n, held - wanted);
        assert a == (role, a.1);
        assert n in held <==> a in db.grants;
      }
    }
  }

  lemma NamedById(db: Db, name: string, names: set<string>)
    requires Valid(db) && name in db.permissions
    ensures db.permissions[name].id in IdsOf(db, names) <==> name in names
  {}

  lemma NoElements(names: seq<string>)
    ensures Elements(names) == {} <==> names == []
  {
    if names != [] { assert names[0] in Elements(names); }
  }

  lemma RolesSeedInAnyOrder(db: Db, j: RoleKey, m: set<string>, k: RoleKey, n: set<string>)
    requires Valid(db) && j != k
    ensures RoleSeeded(RoleSeeded(db, j, m), k, n) == RoleSeeded(RoleSeeded(db, k, n), j, m)
  {
    var a, b := RoleSeeded(RoleSeeded(db, j, m), k, n), RoleSeeded(RoleSeeded(db, k, n), j, m);
    assert IdsOf(RoleSeeded(db, j, m), n) == IdsOf(db, n) && IdsOf(RoleSeeded(db, k, n), m) == IdsOf(db, m);
    assert a.grants == b.grants;
  }

  lemma ValidStays(db: Db, key: RoleKey, names: set<string>, list: seq<string>)
    requires Valid(db) && names == Elements(list)
    requires list == [] || (key in db.roles && names <= db.permissions.Keys)
    ensures Valid(RoleSeeded(db, key, names))
  {
    if list != [] { RoleSeededHolds(db, key, names); }
  }

  // ---- the role screen ----

  /** Which assignments the tables accept, by their rows. */
  lemma AcceptedExactly(db: Db, role: nat, ids: seq<int>)
    ensures var wanted := set id: nat | id in ids && id > 0;
            wanted == {} || (role in RoleIds(db) && wanted <= PermissionIds(db)) <==>
              || (forall id :: id in ids ==> id <= 0)
              || ((exists k :: k in db.roles && db.roles[k].id == role)
                  && forall id :: id in ids && id > 0 ==> exists n :: n in db.permissions && db.permissions[n].id == id)
  {
    var wanted := set id: nat | id in ids && id > 0;
    if id :| id in ids && id > 0 { assert id in wanted; }
    forall id | id in ids && id > 0
      ensures id in PermissionIds(db) <==> exists n :: n in db.permissions && db.permissions[n].id == id
    {}
    assert wanted <= PermissionIds(db) <==> forall id :: id in ids && id > 0 ==> id in PermissionIds(db);
  }

  class RoleRepository {
    var db: Db

    /** One transaction: unless the wanted ids, those above zero, are all permissions and the role exists, nothing
        changes; otherwise the role holds exactly the wanted ids. */
    method AssignPermissionsToRole(role: nat, ids: seq<int>) returns (ok: bool)
      modifies this
      ensures var wanted := set id: nat | id in ids && id > 0;
              && (ok <==> wanted == {} || (role in RoleIds(old(db)) && wanted <= PermissionIds(old(db))))
              && db == if ok then old(db).(grants := Replaced(old(db).grants, role, wanted)) else old(db)
      ensures ok <==>
                || (forall id :: id in ids ==> id <= 0)
                || ((exists k :: k in old(db).roles && old(db).roles[k].id == role)
                    && forall id :: id in ids && id > 0 ==>
                         exists n :: n in old(db).permissions && old(db).permissions[n].id == id)
      ensures !ok ==> db == old(db)
      ensures ok ==> db == old(db).(grants := db.grants)
                     && forall a: (nat, nat) ::
                          a in db.grants <==> if a.0 == role then a.1 in ids && a.1 > 0 else a in old(db).grants
    {
      AcceptedExactly(db, role, ids);
      var seen: set<nat> := {};
      var out: seq<nat> := [];
      for i := 0 to |ids|
        invariant db == old(db)
        invariant seen == set id: nat | id in ids[..i] && id > 0
        invariant forall id :: id in out <==> id in seen
      {
        var id := ids[i];
        assert ids[..i + 1] == ids[..i] + [id];
        if id <= 0 { continue; }
        if id in seen { continue; }
        seen := seen + {id};
        out := out + [id];
      }
      assert ids[..|ids|] == ids;
      if |out| == 0 {
        assert forall id :: id in seen ==> id in out;
        assert seen == {};
        db := db.(grants := set a | a in db.grants && a.0 != role);
        assert db.grants == Replaced(old(db).grants, role, {});
        return true;
      }
      assert out[0] in seen;
      ReplacementsAgree(db.grants, role, seen);
      var before := db;
      db := db.(grants := set a | a in db.grants && (a.0 != role || a.1 in out));
      if role !in RoleIds(db) || exists id :: id in out && id !in PermissionIds(db) {
        db := before;
        return false;
      }
      db := db.(grants := db.grants + set id | id in out :: (role, id));
      assert db.grants == ByExtras(before.grants, role, seen);
      return true;
    }
  }
}
