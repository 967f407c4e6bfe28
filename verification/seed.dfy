/**
 * The seed script (`prisma/seed.ts`): three roles, thirteen permissions,
 * the role-permission wiring, three users and their roles, each written
 * with an upsert whose `update` is empty.
 */
module Seed {
  import opened Wrappers
  import opened Tables
  import Authz
  import Auth

  /** A permission as the seed script lists it. */
  datatype PermissionDef = PermissionDef(name: string, description: string)

  function DefName(d: PermissionDef): string { d.name }

  const AdminRoleName := "admin"
  const UserRoleName := "user"
  const ManagerRoleName := "manager"

  const SeedPermissions: seq<PermissionDef> := [
    PermissionDef("users:read", "Can view users"),
    PermissionDef("users:create", "Can create users"),
    PermissionDef("users:update", "Can update users"),
    PermissionDef("users:delete", "Can delete users"),
    PermissionDef("roles:read", "Can view roles"),
    PermissionDef("roles:create", "Can create roles"),
    PermissionDef("roles:update", "Can update roles"),
    PermissionDef("roles:delete", "Can delete roles"),
    PermissionDef("permissions:read", "Can view permissions"),
    PermissionDef("permissions:create", "Can create permissions"),
    PermissionDef("permissions:update", "Can update permissions"),
    PermissionDef("permissions:delete", "Can delete permissions"),
    PermissionDef("dashboard:access", "Can access dashboard")
  ]

  /** The names the `user` role is granted. */
  const UserGrantNames: seq<string> := ["users:read", "dashboard:access"]

  /** The names the `manager` role is granted. */
  const ManagerGrantNames: seq<string> :=
    ["users:read", "users:create", "users:update", "roles:read", "permissions:read", "dashboard:access"]


  // The database generates the ids of created rows; the seed model names
  // them after the row's unique column instead.
  function RoleKey(name: string): string { "role-" + name }
  function PermissionKey(name: string): string { "permission-" + name }
  function UserKey(email: string): string { "user-" + email }
  function GrantKey(roleId: string, permissionId: string): string { roleId + "_" + permissionId }

  function NewRoleRow(name: string, description: string): Role {
    Role(RoleKey(name), name, Some(description))
  }

  function NewPermissionRow(d: PermissionDef): Permission {
    Permission(PermissionKey(d.name), d.name, Some(d.description))
  }

  function NewUserRow(name: string, email: string, passwordHash: string, image: string): User {
    User(UserKey(email), Some(name), email, Some(passwordHash), Some(image))
  }

  /** The table after an upsert, and the row the upsert answers with. */
  datatype Upserted<T> = Upserted(rows: seq<T>, row: T)

  /**
   * `upsert({ where: { <unique column>: k }, update: {}, create })`: the
   * existing row is answered untouched; otherwise `create` is appended.
   */
  function UpsertBy<T>(rows: seq<T>, key: T -> string, create: T): (u: Upserted<T>)
    ensures rows <= u.rows
    ensures Find(u.rows, key, key(create)) == Some(u.row)
    ensures Has(rows, key, key(create)) ==> u.rows == rows
    ensures !Has(rows, key, key(create)) ==> u.rows == rows + [create] && u.row == create
  {
    match Find(rows, key, key(create))
    case Some(r) => Upserted(rows, r)
    case None => FindAppended(rows, create, key); Upserted(rows + [create], create)
  }

  /** An upsert never changes what a successful lookup finds. */
  lemma UpsertKeepsFound<T>(rows: seq<T>, key: T -> string, create: T, k: string)
    requires Find(rows, key, k).Some?
    ensures Find(UpsertBy(rows, key, create).rows, key, k) == Find(rows, key, k)
  {
    if !Has(rows, key, key(create)) {
      FindExtends(rows, [create], key, k);
    }
  }

  /** An upsert repeated answers the same row and writes nothing. */
  lemma UpsertTwice<T>(rows: seq<T>, key: T -> string, create: T)
    ensures var u := UpsertBy(rows, key, create);
      UpsertBy(u.rows, key, create) == u
  {
  }

  /** The permission loop: one upsert per listed permission, in list order. */
  function UpsertPermissions(rows: seq<Permission>, defs: seq<PermissionDef>): (r: seq<Permission>)
    ensures rows <= r
    decreases |defs|
  {
    if defs == [] then rows
    else UpsertPermissions(UpsertBy(rows, PermissionName, NewPermissionRow(defs[0])).rows, defs[1..])
  }

  /** After the loop every listed name is present. */
  lemma {:induction false} UpsertPermissionsCovers(rows: seq<Permission>, defs: seq<PermissionDef>)
    ensures forall i :: 0 <= i < |defs| ==> Has(UpsertPermissions(rows, defs), PermissionName, defs[i].name)
    decreases |defs|
  {
    if defs != [] {
      var next := UpsertBy(rows, PermissionName, NewPermissionRow(defs[0])).rows;
      var r := UpsertPermissions(next, defs[1..]);
      UpsertPermissionsCovers(next, defs[1..]);
      HasExtends(next, r, PermissionName, defs[0].name);
      assert forall i :: 1 <= i < |defs| ==> defs[i] == defs[1..][i - 1];
    }
  }

  /** A re-run finds every listed permission and writes nothing. */
  lemma {:induction false} UpsertPermissionsPresent(rows: seq<Permission>, defs: seq<PermissionDef>)
    requires forall i :: 0 <= i < |defs| ==> Has(rows, PermissionName, defs[i].name)
    ensures UpsertPermissions(rows, defs) == rows
    decreases |defs|
  {
    if defs != [] {
      assert forall i :: 1 <= i < |defs| ==> defs[i] == defs[1..][i - 1];
      UpsertPermissionsPresent(rows, defs[1..]);
    }
  }

  function PermissionRows(defs: seq<PermissionDef>): (ps: seq<Permission>)
    ensures |ps| == |defs|
    ensures forall i :: 0 <= i < |defs| ==> ps[i] == NewPermissionRow(defs[i])
  {
    seq(|defs|, i requires 0 <= i < |defs| => NewPermissionRow(defs[i]))
  }

  lemma PermissionRowsCons(defs: seq<PermissionDef>)
    requires |defs| > 0
    ensures PermissionRows(defs) == [NewPermissionRow(defs[0])] + PermissionRows(defs[1..])
  {
  }

  lemma UpsertPermissionsStep(rows: seq<Permission>, defs: seq<PermissionDef>)
    requires |defs| > 0
    ensures UpsertPermissions(rows, defs)
         == UpsertPermissions(UpsertBy(rows, PermissionName, NewPermissionRow(defs[0])).rows, defs[1..])
  {
  }

  lemma AppendAssociates<T>(a: seq<T>, b: seq<T>, c: seq<T>)
    ensures (a + b) + c == a + (b + c)
  {
  }

  /** On a table holding none of the names, every listed permission is created, in order. */
  lemma {:induction false} UpsertPermissionsFresh(rows: seq<Permission>, defs: seq<PermissionDef>)
    requires Distinct(Column(defs, DefName))
    requires forall i :: 0 <= i < |defs| ==> !Has(rows, PermissionName, defs[i].name)
    ensures UpsertPermissions(rows, defs) == rows + PermissionRows(defs)
    decreases |defs|
  {
    if defs != [] {
      var row := NewPermissionRow(defs[0]);
      FreshStep(rows, defs);
      UpsertPermissionsStep(rows, defs);
      UpsertPermissionsFresh(rows + [row], defs[1..]);
      PermissionRowsCons(defs);
      AppendAssociates(rows, [row], PermissionRows(defs[1..]));
    }
  }

  /** The induction step of `UpsertPermissionsFresh`: the first permission is created and the rest are still new. */
  lemma FreshStep(rows: seq<Permission>, defs: seq<PermissionDef>)
    requires |defs| > 0
    requires Distinct(Column(defs, DefName))
    requires forall i :: 0 <= i < |defs| ==> !Has(rows, PermissionName, defs[i].name)
    ensures UpsertBy(rows, PermissionName, NewPermissionRow(defs[0])).rows == rows + [NewPermissionRow(defs[0])]
    ensures Distinct(Column(defs[1..], DefName))
    ensures forall i :: 0 <= i < |defs| - 1 ==> !Has(rows + [NewPermissionRow(defs[0])], PermissionName, defs[1..][i].name)
  {
    var row := NewPermissionRow(defs[0]);
    var tail := defs[1..];
    assert !Has(rows, PermissionName, PermissionName(row));
    forall i, j | 0 <= i < j < |tail| ensures Column(tail, DefName)[i] != Column(tail, DefName)[j] {
      assert Column(defs, DefName)[i + 1] != Column(defs, DefName)[j + 1];
    }
    forall i | 0 <= i < |tail| ensures !Has(rows + [row], PermissionName, tail[i].name) {
      assert tail[i] == defs[i + 1];
      assert Column(defs, DefName)[0] != Column(defs, DefName)[i + 1];
      HasAppend(rows, row, PermissionName, tail[i].name);
    }
  }

  /** `rolePermission.upsert` on the (roleId, permissionId) index. */
  function UpsertGrant(grants: seq<Grant>, roleId: string, permissionId: string): (r: seq<Grant>)
    ensures grants <= r
    ensures Granted(r, roleId, permissionId)
    ensures Granted(grants, roleId, permissionId) ==> r == grants
    ensures !Granted(grants, roleId, permissionId) ==> r == grants + [Grant(GrantKey(roleId, permissionId), roleId, permissionId)]
  {
    if Granted(grants, roleId, permissionId) then grants
    else
      var r := grants + [Grant(GrantKey(roleId, permissionId), roleId, permissionId)];
      assert r[|grants|].roleId == roleId && r[|grants|].permissionId == permissionId;
      r
  }

  /** A grant survives in every extension of the table. */
  lemma GrantedExtends(grants: seq<Grant>, longer: seq<Grant>, roleId: string, permissionId: string)
    requires grants <= longer
    requires Granted(grants, roleId, permissionId)
    ensures Granted(longer, roleId, permissionId)
  {
    var i :| 0 <= i < |grants| && grants[i].roleId == roleId && grants[i].permissionId == permissionId;
    assert longer[i] == grants[i];
  }

  /** One grant upsert per permission, for one role. */
  function GrantEach(grants: seq<Grant>, roleId: string, perms: seq<Permission>): (r: seq<Grant>)
    ensures grants <= r
    ensures forall i :: 0 <= i < |perms| ==> Granted(r, roleId, perms[i].id)
    decreases |perms|
  {
    if perms == [] then grants
    else
      var next := UpsertGrant(grants, roleId, perms[0].id);
      var r := GrantEach(next, roleId, perms[1..]);
      GrantedExtends(next, r, roleId, perms[0].id);
      assert forall i :: 1 <= i < |perms| ==> perms[i] == perms[1..][i - 1];
      r
  }

  /** Exactly the grants already there, plus this role for each listed permission. */
  lemma {:induction false} GrantEachGrants(grants: seq<Grant>, roleId: string, perms: seq<Permission>, rid: string, pid: string)
    ensures Granted(GrantEach(grants, roleId, perms), rid, pid) <==>
      (Granted(grants, rid, pid) || (rid == roleId && exists p :: p in perms && p.id == pid))
    decreases |perms|
  {
    if perms != [] {
      var next := UpsertGrant(grants, roleId, perms[0].id);
      GrantEachGrants(next, roleId, perms[1..], rid, pid);
      assert forall p :: p in perms <==> p == perms[0] || p in perms[1..];
      if Granted(next, rid, pid) && !Granted(grants, rid, pid) {
        var i :| 0 <= i < |next| && next[i].roleId == rid && next[i].permissionId == pid;
        assert i == |grants|;
      }
      if Granted(grants, rid, pid) {
        GrantedExtends(grants, next, rid, pid);
      }
    }
  }

  /** A re-run over permissions the role already holds writes nothing. */
  lemma {:induction false} GrantEachPresent(grants: seq<Grant>, roleId: string, perms: seq<Permission>)
    requires forall i :: 0 <= i < |perms| ==> Granted(grants, roleId, perms[i].id)
    ensures GrantEach(grants, roleId, perms) == grants
    decreases |perms|
  {
    if perms != [] {
      assert forall i :: 1 <= i < |perms| ==> perms[i] == perms[1..][i - 1];
      GrantEachPresent(grants, roleId, perms[1..]);
    }
  }

  /** `findMany({ where: { name: { in: names } } })` */
  function NameIn(names: seq<string>): Permission -> bool {
    (p: Permission) => p.name in names
  }

  /** The script's data: the permissions it lists and the names the user and manager roles are given. */
  datatype Plan = Plan(permissions: seq<PermissionDef>, userGrants: seq<string>, managerGrants: seq<string>)

  const Script := Plan(SeedPermissions, UserGrantNames, ManagerGrantNames)

  /** The three grant loops: admin gets every permission, user and manager the ones they list. */
  function SeedGrants(grants: seq<Grant>, adminId: string, userId: string, managerId: string,
                      perms: seq<Permission>, plan: Plan): (r: seq<Grant>)
    ensures grants <= r
  {
    var g1 := GrantEach(grants, adminId, perms);
    var g2 := GrantEach(g1, userId, Where(perms, NameIn(plan.userGrants)));
    GrantEach(g2, managerId, Where(perms, NameIn(plan.managerGrants)))
  }

  /**
   * The seeded grants: those already present, admin for every permission,
   * and user and manager for the permissions whose names they list.
   */
  lemma SeedGrantsExact(grants: seq<Grant>, adminId: string, userId: string, managerId: string,
                        perms: seq<Permission>, plan: Plan, rid: string, pid: string)
    ensures Granted(SeedGrants(grants, adminId, userId, managerId, perms, plan), rid, pid) <==>
      || Granted(grants, rid, pid)
      || (rid == adminId && exists p :: p in perms && p.id == pid)
      || (rid == userId && exists p :: p in perms && p.id == pid && p.name in plan.userGrants)
      || (rid == managerId && exists p :: p in perms && p.id == pid && p.name in plan.managerGrants)
  {
    var g1 := GrantEach(grants, adminId, perms);
    var wu := Where(perms, NameIn(plan.userGrants));
    var g2 := GrantEach(g1, userId, wu);
    var wm := Where(perms, NameIn(plan.managerGrants));
    GrantEachGrants(grants, adminId, perms, rid, pid);
    GrantEachGrants(g1, userId, wu, rid, pid);
    GrantEachGrants(g2, managerId, wm, rid, pid);
    assert (exists p :: p in wu && p.id == pid) <==> (exists p :: p in perms && p.id == pid && p.name in plan.userGrants);
    assert (exists p :: p in wm && p.id == pid) <==> (exists p :: p in perms && p.id == pid && p.name in plan.managerGrants);
  }

  /** Re-running the grant loops over their own result writes nothing. */
  lemma SeedGrantsIdempotent(grants: seq<Grant>, adminId: string, userId: string, managerId: string,
                             perms: seq<Permission>, plan: Plan)
    ensures var r := SeedGrants(grants, adminId, userId, managerId, perms, plan);
      SeedGrants(r, adminId, userId, managerId, perms, plan) == r
  {
    var r := SeedGrants(grants, adminId, userId, managerId, perms, plan);
    var wu := Where(perms, NameIn(plan.userGrants));
    var wm := Where(perms, NameIn(plan.managerGrants));
    forall i | 0 <= i < |perms| ensures Granted(r, adminId, perms[i].id) {
      SeedGrantsExact(grants, adminId, userId, managerId, perms, plan, adminId, perms[i].id);
    }
    GrantEachPresent(r, adminId, perms);
    forall i | 0 <= i < |wu| ensures Granted(r, userId, wu[i].id) {
      assert wu[i] in perms;
      SeedGrantsExact(grants, adminId, userId, managerId, perms, plan, userId, wu[i].id);
    }
    GrantEachPresent(r, userId, wu);
    forall i | 0 <= i < |wm| ensures Granted(r, managerId, wm[i].id) {
      assert wm[i] in perms;
      SeedGrantsExact(grants, adminId, userId, managerId, perms, plan, managerId, wm[i].id);
    }
    GrantEachPresent(r, managerId, wm);
  }

  /** `userRole.upsert` on the (userId, roleId) index. */
  function UpsertAssignment(assignments: seq<Assignment>, userId: string, roleId: string): (r: seq<Assignment>)
    ensures assignments <= r
    ensures forall u, ro :: Assigned(r, u, ro) <==> Assigned(assignments, u, ro) || (u == userId && ro == roleId)
  {
    if Assigned(assignments, userId, roleId) then assignments
    else
      var r := assignments + [Assignment(userId, roleId)];
      assert r[|assignments|] == Assignment(userId, roleId);
      assert forall i :: 0 <= i < |assignments| ==> r[i] == assignments[i];
      r
  }

  /** The three role-assignment upserts, one per seed user. */
  function SeedAssignments(assignments: seq<Assignment>, adminUserId: string, adminId: string,
                           regularUserId: string, userId: string, managerUserId: string, managerId: string): (r: seq<Assignment>)
    ensures assignments <= r
    ensures forall u, ro :: Assigned(r, u, ro) <==>
      || Assigned(assignments, u, ro)
      || (u == adminUserId && ro == adminId)
      || (u == regularUserId && ro == userId)
      || (u == managerUserId && ro == managerId)
  {
    var a1 := UpsertAssignment(assignments, adminUserId, adminId);
    var a2 := UpsertAssignment(a1, regularUserId, userId);
    UpsertAssignment(a2, managerUserId, managerId)
  }

  /** Re-running the assignment upserts over their own result writes nothing. */
  lemma SeedAssignmentsIdempotent(assignments: seq<Assignment>, adminUserId: string, adminId: string,
                                  regularUserId: string, userId: string, managerUserId: string, managerId: string)
    ensures var r := SeedAssignments(assignments, adminUserId, adminId, regularUserId, userId, managerUserId, managerId);
      SeedAssignments(r, adminUserId, adminId, regularUserId, userId, managerUserId, managerId) == r
  {
  }

  /** A table after three upserts, and the three rows they answered with. */
  datatype Three<T> = Three(rows: seq<T>, first: T, second: T, third: T)

  /** Three upserts on one unique column, in order. */
  function UpsertThree<T>(rows: seq<T>, key: T -> string, a: T, b: T, c: T): (t: Three<T>)
    ensures rows <= t.rows
    ensures Find(t.rows, key, key(a)) == Some(t.first)
    ensures Find(t.rows, key, key(b)) == Some(t.second)
    ensures Find(t.rows, key, key(c)) == Some(t.third)
  {
    var ua := UpsertBy(rows, key, a);
    var ub := UpsertBy(ua.rows, key, b);
    var uc := UpsertBy(ub.rows, key, c);
    UpsertKeepsFound(ua.rows, key, b, key(a));
    UpsertKeepsFound(ub.rows, key, c, key(a));
    UpsertKeepsFound(ub.rows, key, c, key(b));
    Three(uc.rows, ua.row, ub.row, uc.row)
  }

  /** Three upserts whose keys are all found answer the rows found and write nothing. */
  lemma UpsertThreeFound<T>(rows: seq<T>, key: T -> string, a: T, b: T, c: T, x: T, y: T, z: T)
    requires Find(rows, key, key(a)) == Some(x)
    requires Find(rows, key, key(b)) == Some(y)
    requires Find(rows, key, key(c)) == Some(z)
    ensures UpsertThree(rows, key, a, b, c) == Three(rows, x, y, z)
  {
  }

  const AdminRoleRow := NewRoleRow(AdminRoleName, "Administrator with full access")
  const UserRoleRow := NewRoleRow(UserRoleName, "Regular user with limited access")
  const ManagerRoleRow := NewRoleRow(ManagerRoleName, "Manager with elevated access")

  function AdminUserRow(hash: string -> string): User {
    NewUserRow("Admin User", "admin@example.com", hash("Admin123!"), "https://ui-avatars.com/api/?name=Admin+User")
  }
  function RegularUserRow(hash: string -> string): User {
    NewUserRow("Regular User", "user@example.com", hash("User123!"), "https://ui-avatars.com/api/?name=Regular+User")
  }
  function ManagerUserRow(hash: string -> string): User {
    NewUserRow("Manager User", "manager@example.com", hash("Manager123!"), "https://ui-avatars.com/api/?name=Manager+User")
  }

  /** The seeded store and the rows the script's upserts answered with. */
  datatype Seeded = Seeded(store: Store, admin: Role, user: Role, manager: Role,
                           adminUser: User, regularUser: User, managerUser: User)

  /**
   * `main()` of the seed script, for a given plan. `hash` stands for
   * bcrypt's `hash`. Every upsert has an empty `update`, so every table
   * only grows: the rows already there stay, unchanged and in place.
   */
  function Run(plan: Plan, s: Store, hash: string -> string): (out: Seeded)
    ensures s.roles <= out.store.roles && s.permissions <= out.store.permissions && s.users <= out.store.users
    ensures s.grants <= out.store.grants && s.assignments <= out.store.assignments
  {
    var roles := UpsertThree(s.roles, RoleName, AdminRoleRow, UserRoleRow, ManagerRoleRow);
    var perms := UpsertPermissions(s.permissions, plan.permissions);
    var grants := SeedGrants(s.grants, roles.first.id, roles.second.id, roles.third.id, perms, plan);
    var users := UpsertThree(s.users, UserEmail, AdminUserRow(hash), RegularUserRow(hash), ManagerUserRow(hash));
    var assignments := SeedAssignments(s.assignments, users.first.id, roles.first.id, users.second.id, roles.second.id,
                                       users.third.id, roles.third.id);
    Seeded(Store(roles.rows, perms, users.rows, grants, assignments),
           roles.first, roles.second, roles.third, users.first, users.second, users.third)
  }

  /** The seed script itself: every table only grows, the rows already there kept in place. */
  function RunSeed(s: Store, hash: string -> string): (out: Seeded)
    ensures s.roles <= out.store.roles && s.permissions <= out.store.permissions && s.users <= out.store.users
    ensures s.grants <= out.store.grants && s.assignments <= out.store.assignments
  {
    Run(Script, s, hash)
  }

  /** After seeding, the seeded role names and user emails look up the rows the script answered with. */
  lemma RunFinds(plan: Plan, s: Store, hash: string -> string)
    ensures var out := Run(plan, s, hash);
      && Find(out.store.roles, RoleName, AdminRoleName) == Some(out.admin)
      && Find(out.store.roles, RoleName, UserRoleName) == Some(out.user)
      && Find(out.store.roles, RoleName, ManagerRoleName) == Some(out.manager)
      && Find(out.store.users, UserEmail, "admin@example.com") == Some(out.adminUser)
      && Find(out.store.users, UserEmail, "user@example.com") == Some(out.regularUser)
      && Find(out.store.users, UserEmail, "manager@example.com") == Some(out.managerUser)
  {
  }

  /** After seeding every listed permission exists. */
  lemma RunCovers(plan: Plan, s: Store, hash: string -> string)
    ensures forall i :: 0 <= i < |plan.permissions| ==>
      Has(Run(plan, s, hash).store.permissions, PermissionName, plan.permissions[i].name)
  {
    UpsertPermissionsCovers(s.permissions, plan.permissions);
  }

  /** After seeding the admin role holds every permission in the store. */
  lemma AdminHoldsEverything(plan: Plan, s: Store, hash: string -> string)
    ensures var out := Run(plan, s, hash);
      forall i :: 0 <= i < |out.store.permissions| ==> Granted(out.store.grants, out.admin.id, out.store.permissions[i].id)
  {
    var out := Run(plan, s, hash);
    var perms := out.store.permissions;
    forall i | 0 <= i < |perms| ensures Granted(out.store.grants, out.admin.id, perms[i].id) {
      SeedGrantsExact(s.grants, out.admin.id, out.user.id, out.manager.id, perms, plan, out.admin.id, perms[i].id);
    }
  }

  /** After seeding each seed user holds its namesake role. */
  lemma SeedUsersHoldTheirRoles(plan: Plan, s: Store, hash: string -> string)
    ensures var out := Run(plan, s, hash);
      && Assigned(out.store.assignments, out.adminUser.id, out.admin.id)
      && Assigned(out.store.assignments, out.regularUser.id, out.user.id)
      && Assigned(out.store.assignments, out.managerUser.id, out.manager.id)
  {
  }

  /** Running the seed twice leaves the store as one run left it (the upserts' empty `update`). */
  lemma RunIdempotent(plan: Plan, s: Store, hash: string -> string, hash': string -> string)
    ensures Run(plan, Run(plan, s, hash).store, hash') == Run(plan, s, hash)
  {
    var out := Run(plan, s, hash);
    var t := out.store;
    RunFinds(plan, s, hash);
    RunCovers(plan, s, hash);
    UpsertThreeFound(t.roles, RoleName, AdminRoleRow, UserRoleRow, ManagerRoleRow, out.admin, out.user, out.manager);
    UpsertThreeFound(t.users, UserEmail, AdminUserRow(hash'), RegularUserRow(hash'), ManagerUserRow(hash'),
                     out.adminUser, out.regularUser, out.managerUser);
    UpsertPermissionsPresent(t.permissions, plan.permissions);
    SeedGrantsIdempotent(s.grants, out.admin.id, out.user.id, out.manager.id, t.permissions, plan);
    SeedAssignmentsIdempotent(s.assignments, out.adminUser.id, out.admin.id, out.regularUser.id, out.user.id,
                              out.managerUser.id, out.manager.id);
  }

  // ---- a fresh database ---------------------------------------------------------

  /** On an empty table three upserts with distinct keys create the three rows in order. */
  lemma FreshThree<T>(key: T -> string, a: T, b: T, c: T)
    requires key(a) != key(b) && key(a) != key(c) && key(b) != key(c)
    ensures UpsertThree([], key, a, b, c) == Three([a, b, c], a, b, c)
  {
    assert UpsertBy([], key, a) == Upserted([a], a) by {
      assert [] + [a] == [a];
    }
    assert UpsertBy([a], key, b) == Upserted([a, b], b) by {
      HasAppend([], a, key, key(b));
      assert [] + [a] == [a] && [a] + [b] == [a, b];
    }
    assert UpsertBy([a, b], key, c) == Upserted([a, b, c], c) by {
      HasAppend([a], b, key, key(c));
      HasAppend([], a, key, key(c));
      assert [] + [a] == [a] && [a] + [b] == [a, b] && [a, b] + [c] == [a, b, c];
    }
  }

  /**
   * Seeding an empty database creates the three roles and the three users,
   * and the upserts answer with exactly those rows.
   */
  lemma FreshRun(plan: Plan, hash: string -> string)
    ensures var out := Run(plan, EmptyStore, hash);
      && out.store.roles == [AdminRoleRow, UserRoleRow, ManagerRoleRow]
      && out.admin == AdminRoleRow && out.user == UserRoleRow && out.manager == ManagerRoleRow
      && out.store.users == [AdminUserRow(hash), RegularUserRow(hash), ManagerUserRow(hash)]
      && out.adminUser == AdminUserRow(hash) && out.regularUser == RegularUserRow(hash)
      && out.managerUser == ManagerUserRow(hash)
  {
    FreshThree(RoleName, AdminRoleRow, UserRoleRow, ManagerRoleRow);
    FreshThree(UserEmail, AdminUserRow(hash), RegularUserRow(hash), ManagerUserRow(hash));
  }

  /** Seeding an empty database creates the listed permissions, in list order. */
  lemma FreshPermissions(plan: Plan, hash: string -> string)
    requires Distinct(Column(plan.permissions, DefName))
    ensures Run(plan, EmptyStore, hash).store.permissions == PermissionRows(plan.permissions)
  {
    UpsertPermissionsFresh([], plan.permissions);
  }

  /** Every permission the seed creates has an id made from its name. */
  predicate NameKeyed(rows: seq<Permission>) {
    forall i :: 0 <= i < |rows| ==> rows[i].id == PermissionKey(rows[i].name)
  }

  lemma {:induction false} UpsertPermissionsKeyed(rows: seq<Permission>, defs: seq<PermissionDef>)
    requires NameKeyed(rows)
    ensures NameKeyed(UpsertPermissions(rows, defs))
    decreases |defs|
  {
    if defs != [] {
      var next := UpsertBy(rows, PermissionName, NewPermissionRow(defs[0])).rows;
      assert NameKeyed(next) by {
        if next != rows {
          assert next == rows + [NewPermissionRow(defs[0])];
        }
      }
      UpsertPermissionsKeyed(next, defs[1..]);
    }
  }

  /** Distinct names make distinct stand-in ids. */
  lemma PermissionKeyInjective(a: string, b: string)
    requires PermissionKey(a) == PermissionKey(b)
    ensures a == b
  {
    assert a == PermissionKey(a)[|"permission-"|..];
    assert b == PermissionKey(b)[|"permission-"|..];
  }

  /** Granting from an empty table with three distinct roles and name-keyed permissions. */
  lemma SeedGrantsFresh(adminId: string, userId: string, managerId: string, perms: seq<Permission>, plan: Plan, p: Permission)
    requires adminId != userId && adminId != managerId && userId != managerId
    requires forall q :: q in perms ==> q.id == PermissionKey(q.name)
    requires p in perms
    ensures var grants := SeedGrants([], adminId, userId, managerId, perms, plan);
      && Granted(grants, adminId, p.id)
      && (Granted(grants, userId, p.id) <==> p.name in plan.userGrants)
      && (Granted(grants, managerId, p.id) <==> p.name in plan.managerGrants)
  {
    forall q | q in perms && q.id == p.id ensures q.name == p.name {
      PermissionKeyInjective(q.name, p.name);
    }
    SeedGrantsExact([], adminId, userId, managerId, perms, plan, adminId, p.id);
    SeedGrantsExact([], adminId, userId, managerId, perms, plan, userId, p.id);
    SeedGrantsExact([], adminId, userId, managerId, perms, plan, managerId, p.id);
  }

  /**
   * On a fresh database the seeded grants are exact: admin holds every
   * permission, and user and manager hold a permission iff their list
   * names it.
   */
  lemma FreshGrants(plan: Plan, hash: string -> string, p: Permission)
    requires p in Run(plan, EmptyStore, hash).store.permissions
    ensures var out := Run(plan, EmptyStore, hash);
      && Granted(out.store.grants, out.admin.id, p.id)
      && (Granted(out.store.grants, out.user.id, p.id) <==> p.name in plan.userGrants)
      && (Granted(out.store.grants, out.manager.id, p.id) <==> p.name in plan.managerGrants)
  {
    var out := Run(plan, EmptyStore, hash);
    FreshRun(plan, hash);
    UpsertPermissionsKeyed([], plan.permissions);
    SeedGrantsFresh(RoleKey(AdminRoleName), RoleKey(UserRoleName), RoleKey(ManagerRoleName), out.store.permissions, plan, p);
  }

  /** Assignment upserts into an empty table for three distinct users create one row each, in order. */
  lemma SeedAssignmentsFresh(adminUserId: string, adminId: string, regularUserId: string, userId: string,
                             managerUserId: string, managerId: string)
    requires adminUserId != regularUserId && adminUserId != managerUserId && regularUserId != managerUserId
    ensures SeedAssignments([], adminUserId, adminId, regularUserId, userId, managerUserId, managerId)
         == [Assignment(adminUserId, adminId), Assignment(regularUserId, userId), Assignment(managerUserId, managerId)]
  {
    var a1 := [Assignment(adminUserId, adminId)];
    var a2 := a1 + [Assignment(regularUserId, userId)];
    assert UpsertAssignment([], adminUserId, adminId) == a1;
    assert UpsertAssignment(a1, regularUserId, userId) == a2;
    assert UpsertAssignment(a2, managerUserId, managerId) == a2 + [Assignment(managerUserId, managerId)];
  }

  /** On a fresh database each seed user holds exactly its namesake role, one row each. */
  lemma FreshAssignments(plan: Plan, hash: string -> string)
    ensures var out := Run(plan, EmptyStore, hash);
      out.store.assignments == [Assignment(out.adminUser.id, out.admin.id), Assignment(out.regularUser.id, out.user.id),
                                Assignment(out.managerUser.id, out.manager.id)]
  {
    var out := Run(plan, EmptyStore, hash);
    FreshRun(plan, hash);
    SeedAssignmentsFresh(out.adminUser.id, out.admin.id, out.regularUser.id, out.user.id, out.managerUser.id, out.manager.id);
  }

  // ---- the seeded store keeps every constraint -----------------------------------------

  /** A grant upsert keeps the (role, permission) index unique. */
  lemma UpsertGrantKeepsPairsUnique(grants: seq<Grant>, roleId: string, permissionId: string)
    requires GrantPairsUnique(grants)
    ensures GrantPairsUnique(UpsertGrant(grants, roleId, permissionId))
  {
    if !Granted(grants, roleId, permissionId) {
      var g := Grant(GrantKey(roleId, permissionId), roleId, permissionId);
      forall i | 0 <= i < |grants|
        ensures GrantPair(grants[i]) != GrantPair(g)
      {
        assert !(grants[i].roleId == roleId && grants[i].permissionId == permissionId);
      }
      KeysUniqueAppend(grants, g, GrantPair);
    }
  }

  /** A grant loop keeps the (role, permission) index unique. */
  lemma {:induction false} GrantEachKeepsPairsUnique(grants: seq<Grant>, roleId: string, perms: seq<Permission>)
    requires GrantPairsUnique(grants)
    ensures GrantPairsUnique(GrantEach(grants, roleId, perms))
    decreases |perms|
  {
    if perms != [] {
      UpsertGrantKeepsPairsUnique(grants, roleId, perms[0].id);
      GrantEachKeepsPairsUnique(UpsertGrant(grants, roleId, perms[0].id), roleId, perms[1..]);
    }
  }

  /** Every row a grant loop leaves was there before, or grants the role one of the loop's permissions. */
  lemma {:induction false} GrantEachRows(grants: seq<Grant>, roleId: string, perms: seq<Permission>, g: Grant)
    requires g in GrantEach(grants, roleId, perms)
    ensures g in grants || (g.roleId == roleId && exists p :: p in perms && p.id == g.permissionId)
    decreases |perms|
  {
    if perms != [] {
      var next := UpsertGrant(grants, roleId, perms[0].id);
      GrantEachRows(next, roleId, perms[1..], g);
      if g in next && g !in grants {
        assert g == next[|grants|];
        assert perms[0] in perms;
      }
      if exists p :: p in perms[1..] && p.id == g.permissionId {
        var p :| p in perms[1..] && p.id == g.permissionId;
        assert p in perms;
      }
    }
  }

  /** Every row the three grant loops leave was there before, or grants a seeded role a loop permission. */
  lemma SeedGrantsRows(grants: seq<Grant>, adminId: string, userId: string, managerId: string,
                       perms: seq<Permission>, plan: Plan, g: Grant)
    requires g in SeedGrants(grants, adminId, userId, managerId, perms, plan)
    ensures || g in grants
            || ((g.roleId == adminId || g.roleId == userId || g.roleId == managerId)
                && exists p :: p in perms && p.id == g.permissionId)
  {
    var g1 := GrantEach(grants, adminId, perms);
    var wu := Where(perms, NameIn(plan.userGrants));
    var g2 := GrantEach(g1, userId, wu);
    var wm := Where(perms, NameIn(plan.managerGrants));
    GrantEachRows(g2, managerId, wm, g);
    if g in g2 {
      GrantEachRows(g1, userId, wu, g);
      if g in g1 {
        GrantEachRows(grants, adminId, perms, g);
      }
    }
  }

  /** The three grant loops keep the (role, permission) index unique. */
  lemma SeedGrantsKeepPairsUnique(grants: seq<Grant>, adminId: string, userId: string, managerId: string,
                                  perms: seq<Permission>, plan: Plan)
    requires GrantPairsUnique(grants)
    ensures GrantPairsUnique(SeedGrants(grants, adminId, userId, managerId, perms, plan))
  {
    var g1 := GrantEach(grants, adminId, perms);
    var g2 := GrantEach(g1, userId, Where(perms, NameIn(plan.userGrants)));
    GrantEachKeepsPairsUnique(grants, adminId, perms);
    GrantEachKeepsPairsUnique(g1, userId, Where(perms, NameIn(plan.userGrants)));
    GrantEachKeepsPairsUnique(g2, managerId, Where(perms, NameIn(plan.managerGrants)));
  }

  /** Distinct listed names give created permission rows with unique names and unique ids. */
  lemma PermissionRowsUnique(defs: seq<PermissionDef>)
    requires Distinct(Column(defs, DefName))
    ensures KeysUnique(PermissionRows(defs), PermissionName)
    ensures KeysUnique(PermissionRows(defs), PermissionId)
  {
    var rows := PermissionRows(defs);
    forall i, j | 0 <= i < j < |rows|
      ensures PermissionName(rows[i]) != PermissionName(rows[j]) && PermissionId(rows[i]) != PermissionId(rows[j])
    {
      assert Column(defs, DefName)[i] != Column(defs, DefName)[j];
      if PermissionKey(rows[i].name) == PermissionKey(rows[j].name) {
        PermissionKeyInjective(rows[i].name, rows[j].name);
      }
    }
  }

  /** Three roles, three users and one assignment per user, all with distinct keys, keep their constraints. */
  lemma ThreeOfEachValid(t: Store)
    requires |t.roles| == 3 && |t.users| == 3
    requires t.roles[0].id != t.roles[1].id && t.roles[0].id != t.roles[2].id && t.roles[1].id != t.roles[2].id
    requires t.roles[0].name != t.roles[1].name && t.roles[0].name != t.roles[2].name && t.roles[1].name != t.roles[2].name
    requires t.users[0].id != t.users[1].id && t.users[0].id != t.users[2].id && t.users[1].id != t.users[2].id
    requires t.users[0].email != t.users[1].email && t.users[0].email != t.users[2].email
    requires t.users[1].email != t.users[2].email
    requires t.assignments == [Assignment(t.users[0].id, t.roles[0].id), Assignment(t.users[1].id, t.roles[1].id),
                               Assignment(t.users[2].id, t.roles[2].id)]
    ensures KeysUnique(t.roles, RoleId) && KeysUnique(t.roles, RoleName)
    ensures KeysUnique(t.users, UserId) && KeysUnique(t.users, UserEmail)
    ensures AssignmentsResolve(t) && AssignmentPairsUnique(t.assignments)
  {
    forall i | 0 <= i < 3
      ensures Has(t.users, UserId, t.assignments[i].userId) && Has(t.roles, RoleId, t.assignments[i].roleId)
    {
      assert UserId(t.users[i]) == t.assignments[i].userId && RoleId(t.roles[i]) == t.assignments[i].roleId;
    }
  }

  /** The roles, users and assignments a fresh run creates keep their constraints. */
  lemma FreshRowsValid(plan: Plan, hash: string -> string)
    ensures var t := Run(plan, EmptyStore, hash).store;
      && KeysUnique(t.roles, RoleId) && KeysUnique(t.roles, RoleName)
      && KeysUnique(t.users, UserId) && KeysUnique(t.users, UserEmail)
      && AssignmentsResolve(t) && AssignmentPairsUnique(t.assignments)
  {
    FreshRun(plan, hash);
    FreshAssignments(plan, hash);
    SeedKeysDistinct();
    ThreeOfEachValid(Run(plan, EmptyStore, hash).store);
  }

  /** Grants made by the three loops from an empty table, for three stored roles, resolve and are unique. */
  lemma LoopGrantsValid(t: Store, plan: Plan)
    requires |t.roles| == 3
    requires t.grants == SeedGrants([], t.roles[0].id, t.roles[1].id, t.roles[2].id, t.permissions, plan)
    ensures GrantsResolve(t) && GrantPairsUnique(t.grants)
  {
    SeedGrantsKeepPairsUnique([], t.roles[0].id, t.roles[1].id, t.roles[2].id, t.permissions, plan);
    forall i | 0 <= i < |t.grants|
      ensures Has(t.roles, RoleId, t.grants[i].roleId) && Has(t.permissions, PermissionId, t.grants[i].permissionId)
    {
      var g := t.grants[i];
      SeedGrantsRows([], t.roles[0].id, t.roles[1].id, t.roles[2].id, t.permissions, plan, g);
      assert RoleId(t.roles[0]) == t.roles[0].id && RoleId(t.roles[1]) == t.roles[1].id;
      assert RoleId(t.roles[2]) == t.roles[2].id;
      var p :| p in t.permissions && p.id == g.permissionId;
      var k :| 0 <= k < |t.permissions| && t.permissions[k] == p;
      assert PermissionId(t.permissions[k]) == g.permissionId;
    }
  }

  /** The grants a fresh run creates point at seeded roles and permissions, each pair once. */
  lemma FreshGrantsValid(plan: Plan, hash: string -> string)
    ensures GrantsResolve(Run(plan, EmptyStore, hash).store)
    ensures GrantPairsUnique(Run(plan, EmptyStore, hash).store.grants)
  {
    FreshRun(plan, hash);
    LoopGrantsValid(Run(plan, EmptyStore, hash).store, plan);
  }

  /** Seeding an empty database with distinct permission names leaves a store that keeps every constraint. */
  lemma FreshRunValid(plan: Plan, hash: string -> string)
    requires Distinct(Column(plan.permissions, DefName))
    ensures Valid(Run(plan, EmptyStore, hash).store)
  {
    FreshPermissions(plan, hash);
    PermissionRowsUnique(plan.permissions);
    FreshRowsValid(plan, hash);
    FreshGrantsValid(plan, hash);
  }

  // ---- the script's own data --------------------------------------------------------

  /** The thirteen permission names are pairwise distinct. */
  lemma SeedPermissionNamesDistinct()
    ensures |SeedPermissions| == 13
    ensures Distinct(Column(SeedPermissions, DefName))
  {
  }

  /** A user holds a permission through one role that is assigned to it and granted the permission. */
  lemma EffectiveThrough(t: Store, userId: string, role: Role, p: Permission)
    requires role in t.roles && p in t.permissions
    requires Assigned(t.assignments, userId, role.id) && Granted(t.grants, role.id, p.id)
    ensures Auth.Effective(t, userId, p.name)
  {
    var ai :| 0 <= ai < |t.assignments| && t.assignments[ai].userId == userId && t.assignments[ai].roleId == role.id;
    var gi :| 0 <= gi < |t.grants| && t.grants[gi].roleId == role.id && t.grants[gi].permissionId == p.id;
    assert t.assignments[ai] in t.assignments && t.grants[gi] in t.grants;
  }

  /** A user whose only role grants nothing outside `names` holds nothing outside `names`. */
  lemma EffectiveOnlyThrough(t: Store, userId: string, roleId: string, names: seq<string>, name: string)
    requires forall i :: 0 <= i < |t.assignments| && t.assignments[i].userId == userId ==> t.assignments[i].roleId == roleId
    requires forall p :: p in t.permissions && Granted(t.grants, roleId, p.id) ==> p.name in names
    requires name !in names
    ensures !Auth.Effective(t, userId, name)
  {
    if Auth.Effective(t, userId, name) {
      assert false;
    }
  }

  /** Whatever the store held before, the seeded admin user holds every listed permission. */
  lemma AdminHoldsListed(plan: Plan, s: Store, hash: string -> string, i: int, name: string)
    requires 0 <= i < |plan.permissions| && plan.permissions[i].name == name
    ensures var out := Run(plan, s, hash);
      Auth.Effective(out.store, out.adminUser.id, name)
  {
    var out := Run(plan, s, hash);
    var t := out.store;
    RunCovers(plan, s, hash);
    var k :| 0 <= k < |t.permissions| && PermissionName(t.permissions[k]) == plan.permissions[i].name;
    AdminHoldsEverything(plan, s, hash);
    SeedUsersHoldTheirRoles(plan, s, hash);
    RunFinds(plan, s, hash);
    EffectiveThrough(t, out.adminUser.id, out.admin, t.permissions[k]);
  }

  /** The stand-in ids of the seeded roles, and of the seeded users, are pairwise distinct. */
  lemma SeedKeysDistinct()
    ensures RoleKey(AdminRoleName) != RoleKey(UserRoleName) && RoleKey(AdminRoleName) != RoleKey(ManagerRoleName)
    ensures RoleKey(UserRoleName) != RoleKey(ManagerRoleName)
    ensures UserKey("admin@example.com") != UserKey("user@example.com")
    ensures UserKey("admin@example.com") != UserKey("manager@example.com")
    ensures UserKey("user@example.com") != UserKey("manager@example.com")
  {
    assert RoleKey(AdminRoleName)[5] == 'a' && RoleKey(UserRoleName)[5] == 'u' && RoleKey(ManagerRoleName)[5] == 'm';
    assert UserKey("admin@example.com")[5] == 'a' && UserKey("user@example.com")[5] == 'u';
    assert UserKey("manager@example.com")[5] == 'm';
  }

  /** In a table of three assignments to distinct users, the second user holds only the second role. */
  lemma SecondOfThree(assignments: seq<Assignment>, a: Assignment, b: Assignment, c: Assignment)
    requires assignments == [a, b, c]
    requires b.userId != a.userId && b.userId != c.userId
    ensures forall i :: 0 <= i < |assignments| && assignments[i].userId == b.userId ==> assignments[i].roleId == b.roleId
  {
  }

  /** On a fresh database the regular user's only role is `user`. */
  lemma FreshRegularUserRole(plan: Plan, hash: string -> string)
    ensures var out := Run(plan, EmptyStore, hash);
      forall i :: 0 <= i < |out.store.assignments| && out.store.assignments[i].userId == out.regularUser.id ==>
        out.store.assignments[i].roleId == out.user.id
  {
    var out := Run(plan, EmptyStore, hash);
    FreshRun(plan, hash);
    SeedKeysDistinct();
    FreshAssignments(plan, hash);
    SecondOfThree(out.store.assignments, Assignment(out.adminUser.id, out.admin.id), Assignment(out.regularUser.id, out.user.id),
                  Assignment(out.managerUser.id, out.manager.id));
  }

  /** On a fresh database the `user` role is granted only permissions its list names. */
  lemma FreshUserRoleGrantsListed(plan: Plan, hash: string -> string)
    ensures var out := Run(plan, EmptyStore, hash);
      forall p :: p in out.store.permissions && Granted(out.store.grants, out.user.id, p.id) ==> p.name in plan.userGrants
  {
    var out := Run(plan, EmptyStore, hash);
    forall p | p in out.store.permissions && Granted(out.store.grants, out.user.id, p.id) ensures p.name in plan.userGrants {
      FreshGrants(plan, hash, p);
    }
  }

  /** On a fresh database the regular user holds no permission outside the `user` role's list. */
  lemma RegularUserLacks(plan: Plan, hash: string -> string, name: string)
    requires name !in plan.userGrants
    ensures var out := Run(plan, EmptyStore, hash);
      !Auth.Effective(out.store, out.regularUser.id, name)
  {
    var out := Run(plan, EmptyStore, hash);
    FreshRegularUserRole(plan, hash);
    FreshUserRoleGrantsListed(plan, hash);
    EffectiveOnlyThrough(out.store, out.regularUser.id, out.user.id, plan.userGrants, name);
  }

  /** On a fresh database the `user` role holds exactly `users:read` and `dashboard:access`. */
  lemma UserRoleGrantsExactly(hash: string -> string, p: Permission)
    requires p in RunSeed(EmptyStore, hash).store.permissions
    ensures var out := RunSeed(EmptyStore, hash);
      Granted(out.store.grants, out.user.id, p.id) <==> p.name in UserGrantNames
  {
    FreshGrants(Script, hash, p);
  }

  /** On a fresh database the `manager` role holds exactly its six permissions. */
  lemma ManagerRoleGrantsExactly(hash: string -> string, p: Permission)
    requires p in RunSeed(EmptyStore, hash).store.permissions
    ensures var out := RunSeed(EmptyStore, hash);
      Granted(out.store.grants, out.manager.id, p.id) <==> p.name in ManagerGrantNames
  {
    FreshGrants(Script, hash, p);
  }

  /** Whatever the store held before, the seeded admin user may delete permissions. */
  lemma AdminMayDeletePermissions(s: Store, hash: string -> string)
    ensures var out := RunSeed(s, hash);
      Auth.Effective(out.store, out.adminUser.id, "permissions:delete")
  {
    assert Script.permissions[11].name == "permissions:delete";
    AdminHoldsListed(Script, s, hash, 11, "permissions:delete");
  }

  /** On a fresh database the seeded regular user may not read roles. */
  lemma RegularUserMayNotReadRoles(hash: string -> string)
    ensures var out := RunSeed(EmptyStore, hash);
      !Auth.Effective(out.store, out.regularUser.id, "roles:read")
  {
    assert "roles:read" !in Script.userGrants;
    RegularUserLacks(Script, hash, "roles:read");
  }

  /** The seed script run on an empty database leaves a store that keeps every constraint. */
  lemma SeededStoreValid(hash: string -> string)
    ensures Valid(RunSeed(EmptyStore, hash).store)
  {
    SeedPermissionNamesDistinct();
    FreshRunValid(Script, hash);
  }

  /** In a valid store, the permission check on a user's sign-in claim agrees with the user's effective permissions. */
  lemma ClaimCheckIsEffective(t: Store, u: User, name: string)
    requires Valid(t)
    ensures Authz.HasPermission(Auth.Claims(Auth.LoadUser(t, u)).permissions, name) <==> Auth.Effective(t, u.id, name)
  {
    Auth.ClaimsAreEffective(t, u, name);
    Authz.HasPermissionIsMembership(Auth.Claims(Auth.LoadUser(t, u)).permissions, name);
  }

  /**
   * After seeding an empty database, the admin user's sign-in claim passes
   * the routes' `hasPermission` check for every listed permission.
   */
  lemma AdminClaimHoldsListed(plan: Plan, hash: string -> string, i: int, name: string)
    requires Distinct(Column(plan.permissions, DefName))
    requires 0 <= i < |plan.permissions| && plan.permissions[i].name == name
    ensures var out := Run(plan, EmptyStore, hash);
      Authz.HasPermission(Auth.Claims(Auth.LoadUser(out.store, out.adminUser)).permissions, name)
  {
    var out := Run(plan, EmptyStore, hash);
    FreshRunValid(plan, hash);
    AdminHoldsListed(plan, EmptyStore, hash, i, name);
    ClaimCheckIsEffective(out.store, out.adminUser, name);
  }

  /**
   * After seeding an empty database, the regular user's sign-in claim fails
   * the routes' `hasPermission` check for every name the `user` list lacks.
   */
  lemma RegularClaimLacks(plan: Plan, hash: string -> string, name: string)
    requires Distinct(Column(plan.permissions, DefName))
    requires name !in plan.userGrants
    ensures var out := Run(plan, EmptyStore, hash);
      !Authz.HasPermission(Auth.Claims(Auth.LoadUser(out.store, out.regularUser)).permissions, name)
  {
    var out := Run(plan, EmptyStore, hash);
    FreshRunValid(plan, hash);
    RegularUserLacks(plan, hash, name);
    ClaimCheckIsEffective(out.store, out.regularUser, name);
  }

  /** After seeding an empty database, the admin user's sign-in claim allows deleting permissions. */
  lemma AdminClaimAllowsDeletingPermissions(hash: string -> string)
    ensures var out := RunSeed(EmptyStore, hash);
      Authz.HasPermission(Auth.Claims(Auth.LoadUser(out.store, out.adminUser)).permissions, "permissions:delete")
  {
    SeedPermissionNamesDistinct();
    assert Script.permissions[11].name == "permissions:delete";
    AdminClaimHoldsListed(Script, hash, 11, "permissions:delete");
  }

  /** After seeding an empty database, the regular user's sign-in claim does not allow reading roles. */
  lemma RegularClaimForbidsReadingRoles(hash: string -> string)
    ensures var out := RunSeed(EmptyStore, hash);
      !Authz.HasPermission(Auth.Claims(Auth.LoadUser(out.store, out.regularUser)).permissions, "roles:read")
  {
    SeedPermissionNamesDistinct();
    assert "roles:read" !in Script.userGrants;
    RegularClaimLacks(Script, hash, "roles:read");
  }
}
