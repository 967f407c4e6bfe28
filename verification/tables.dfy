/**
 * The relational store behind the Prisma client, as immutable tables:
 * roles, permissions, users, grants (role-permission join rows) and
 * assignments (user-role join rows), each a sequence in storage order.
 */
module Tables {
  import opened Wrappers

  datatype Role = Role(id: string, name: string, description: Option<string>)
  datatype Permission = Permission(id: string, name: string, description: Option<string>)
  datatype User = User(id: string, name: Option<string>, email: string, password: Option<string>, image: Option<string>)
  /** A `rolePermission` row. */
  datatype Grant = Grant(id: string, roleId: string, permissionId: string)
  /** A `userRole` row. */
  datatype Assignment = Assignment(userId: string, roleId: string)

  datatype Store = Store(
    roles: seq<Role>,
    permissions: seq<Permission>,
    users: seq<User>,
    grants: seq<Grant>,
    assignments: seq<Assignment>)

  const EmptyStore := Store([], [], [], [], [])

  // Column accessors, used as first-class key functions.
  function RoleId(r: Role): string { r.id }
  function RoleName(r: Role): string { r.name }
  function PermissionId(p: Permission): string { p.id }
  function PermissionName(p: Permission): string { p.name }

  /** One column of a list of rows, in row order: `rows.map(r => r.column)`. */
  function Column<T>(rows: seq<T>, column: T -> string): (values: seq<string>)
    ensures |values| == |rows|
    ensures forall i :: 0 <= i < |rows| ==> values[i] == column(rows[i])
  {
    seq(|rows|, i requires 0 <= i < |rows| => column(rows[i]))
  }
  function UserId(u: User): string { u.id }
  function UserEmail(u: User): string { u.email }
  function GrantPermission(g: Grant): string { g.permissionId }
  function AssignedRole(a: Assignment): string { a.roleId }

  /** Some row has key `k`. */
  predicate Has<T>(rows: seq<T>, key: T -> string, k: string) {
    exists i :: 0 <= i < |rows| && key(rows[i]) == k
  }

  /** No two rows share a key: the column carries a unique index. */
  predicate KeysUnique<T, K(==)>(rows: seq<T>, key: T -> K) {
    forall i, j :: 0 <= i < j < |rows| ==> key(rows[i]) != key(rows[j])
  }

  /** `findUnique`/`findFirst` on one column: the first row with key `k`. */
  function Find<T>(rows: seq<T>, key: T -> string, k: string): (r: Option<T>)
    ensures r.Some? ==> r.value in rows && key(r.value) == k
    ensures r.None? <==> !Has(rows, key, k)
    decreases |rows|
  {
    if |rows| == 0 then None
    else if key(rows[0]) == k then Some(rows[0])
    else
      var r := Find(rows[1..], key, k);
      assert forall i :: 1 <= i < |rows| ==> rows[i] == rows[1..][i - 1];
      r
  }

  /** Under a unique index the row found is the only row with that key. */
  lemma FindUnique<T>(rows: seq<T>, key: T -> string, i: int)
    requires KeysUnique(rows, key)
    requires 0 <= i < |rows|
    ensures Find(rows, key, key(rows[i])) == Some(rows[i])
  {
    var r := Find(rows, key, key(rows[i]));
    var j :| 0 <= j < |rows| && rows[j] == r.value;
    assert key(rows[j]) == key(rows[i]);
  }

  /** `deleteMany`/`where` on a predicate: the rows kept, in storage order. */
  function Where<T(!new)>(rows: seq<T>, keep: T -> bool): (r: seq<T>)
    ensures forall x :: x in r <==> x in rows && keep(x)
    ensures |r| <= |rows|
    decreases |rows|
  {
    if |rows| == 0 then []
    else
      var rest := Where(rows[1..], keep);
      assert forall x :: x in rows <==> x == rows[0] || x in rows[1..];
      if keep(rows[0]) then [rows[0]] + rest else rest
  }

  /** Filtering distributes over concatenation. */
  lemma {:induction false} WhereAppend<T(!new)>(a: seq<T>, b: seq<T>, keep: T -> bool)
    ensures Where(a + b, keep) == Where(a, keep) + Where(b, keep)
    decreases |a|
  {
    if |a| == 0 {
      assert a + b == b;
    } else {
      assert (a + b)[1..] == a[1..] + b;
      WhereAppend(a[1..], b, keep);
    }
  }

  /** Filtering with a predicate no row satisfies keeps nothing. */
  lemma {:induction false} WhereNone<T(!new)>(rows: seq<T>, keep: T -> bool)
    requires forall i :: 0 <= i < |rows| ==> !keep(rows[i])
    ensures Where(rows, keep) == []
    decreases |rows|
  {
    if |rows| > 0 {
      WhereNone(rows[1..], keep);
    }
  }

  /** Filtering with a predicate every row satisfies keeps everything. */
  lemma {:induction false} WhereAll<T(!new)>(rows: seq<T>, keep: T -> bool)
    requires forall i :: 0 <= i < |rows| ==> keep(rows[i])
    ensures Where(rows, keep) == rows
    decreases |rows|
  {
    if |rows| > 0 {
      WhereAll(rows[1..], keep);
      assert rows == [rows[0]] + rows[1..];
    }
  }

  /** A narrower filter after a wider one is just the narrower filter. */
  lemma {:induction false} WhereWhere<T(!new)>(rows: seq<T>, wide: T -> bool, narrow: T -> bool)
    requires forall i :: 0 <= i < |rows| ==> narrow(rows[i]) ==> wide(rows[i])
    ensures Where(Where(rows, wide), narrow) == Where(rows, narrow)
    decreases |rows|
  {
    if |rows| > 0 {
      WhereWhere(rows[1..], wide, narrow);
    }
  }

  /** Filtering keeps a unique index unique. */
  lemma {:induction false} WhereKeysUnique<T(!new), K>(rows: seq<T>, keep: T -> bool, key: T -> K)
    requires KeysUnique(rows, key)
    ensures KeysUnique(Where(rows, keep), key)
    decreases |rows|
  {
    if |rows| > 0 {
      WhereKeysUnique(rows[1..], keep, key);
      var rest := Where(rows[1..], keep);
      if keep(rows[0]) {
        forall j | 0 <= j < |rest|
          ensures key(rows[0]) != key(rest[j])
        {
          assert rest[j] in rows[1..];
          var k :| 0 <= k < |rows[1..]| && rows[1..][k] == rest[j];
          assert rows[k + 1] == rest[j];
        }
        var r := [rows[0]] + rest;
        forall i, j | 0 <= i < j < |r|
          ensures key(r[i]) != key(r[j])
        {
          if i > 0 {
            assert r[i] == rest[i - 1] && r[j] == rest[j - 1];
          } else {
            assert r[j] == rest[j - 1];
          }
        }
      }
    }
  }

  /** No element occurs twice. */
  predicate Distinct<T(==)>(xs: seq<T>) {
    forall i, j :: 0 <= i < j < |xs| ==> xs[i] != xs[j]
  }

  /**
   * A relation `include`: each join row replaced by the row its foreign
   * key points at, in join-row order; a join row whose target is missing
   * contributes nothing.
   */
  function Follow<J, T(!new)>(joins: seq<J>, target: J -> string, rows: seq<T>, key: T -> string): (r: seq<T>)
    ensures |r| <= |joins|
    ensures forall x :: x in r ==> x in rows && exists j :: j in joins && target(j) == key(x)
    decreases |joins|
  {
    if |joins| == 0 then []
    else
      match Find(rows, key, target(joins[0]))
      case None => Follow(joins[1..], target, rows, key)
      case Some(x) => [x] + Follow(joins[1..], target, rows, key)
  }

  /** When every foreign key resolves, `Follow` yields exactly one row per join row. */
  lemma {:induction false} FollowResolved<J, T(!new)>(joins: seq<J>, target: J -> string, rows: seq<T>, key: T -> string)
    requires forall i :: 0 <= i < |joins| ==> Has(rows, key, target(joins[i]))
    ensures |Follow(joins, target, rows, key)| == |joins|
    ensures forall i :: 0 <= i < |joins| ==> key(Follow(joins, target, rows, key)[i]) == target(joins[i])
    decreases |joins|
  {
    if |joins| > 0 {
      assert Has(rows, key, target(joins[0]));
      FollowResolved(joins[1..], target, rows, key);
    }
  }

  /** Follow distributes over concatenation of join rows. */
  lemma {:induction false} FollowAppend<J, T(!new)>(a: seq<J>, b: seq<J>, target: J -> string, rows: seq<T>, key: T -> string)
    ensures Follow(a + b, target, rows, key) == Follow(a, target, rows, key) + Follow(b, target, rows, key)
    decreases |a|
  {
    if |a| == 0 {
      assert a + b == b;
    } else {
      assert (a + b)[1..] == a[1..] + b;
      FollowAppend(a[1..], b, target, rows, key);
    }
  }

  /** `x` is reached by `Follow` iff it is a row some join row points at (keys unique). */
  lemma {:induction false} FollowMembership<J, T(!new)>(joins: seq<J>, target: J -> string, rows: seq<T>, key: T -> string, x: T)
    requires KeysUnique(rows, key)
    ensures x in Follow(joins, target, rows, key) <==> x in rows && exists j :: j in joins && target(j) == key(x)
    decreases |joins|
  {
    if |joins| > 0 {
      FollowMembership(joins[1..], target, rows, key, x);
      var f := Find(rows, key, target(joins[0]));
      if f.Some? && x in rows && key(x) == target(joins[0]) {
        var i :| 0 <= i < |rows| && rows[i] == x;
        FindUnique(rows, key, i);
      }
      if exists j :: j in joins && target(j) == key(x) {
        var j :| j in joins && target(j) == key(x);
        if j != joins[0] {
          assert j in joins[1..];
        }
      }
    }
  }

  /** A row whose key is new keeps an index unique when appended. */
  lemma KeysUniqueAppend<T, K>(rows: seq<T>, x: T, key: T -> K)
    requires KeysUnique(rows, key)
    requires forall i :: 0 <= i < |rows| ==> key(rows[i]) != key(x)
    ensures KeysUnique(rows + [x], key)
  {
    var r := rows + [x];
    forall i, j | 0 <= i < j < |r|
      ensures key(r[i]) != key(r[j])
    {
      assert r[i] == rows[i];
    }
  }

  /** Appending rows never changes what a successful lookup finds. */
  lemma {:induction false} FindExtends<T>(rows: seq<T>, more: seq<T>, key: T -> string, k: string)
    requires Find(rows, key, k).Some?
    ensures Find(rows + more, key, k) == Find(rows, key, k)
    decreases |rows|
  {
    if key(rows[0]) != k {
      assert (rows + more)[1..] == rows[1..] + more;
      FindExtends(rows[1..], more, key, k);
    }
  }

  /** When no row has its key, an appended row is the one a lookup finds. */
  lemma {:induction false} FindAppended<T>(rows: seq<T>, x: T, key: T -> string)
    requires !Has(rows, key, key(x))
    ensures Find(rows + [x], key, key(x)) == Some(x)
    decreases |rows|
  {
    if |rows| > 0 {
      assert key(rows[0]) != key(x);
      assert (rows + [x])[1..] == rows[1..] + [x];
      FindAppended(rows[1..], x, key);
    }
  }

  /** A key is present after appending a row iff it was before or the row carries it. */
  lemma HasAppend<T>(rows: seq<T>, x: T, key: T -> string, k: string)
    ensures Has(rows + [x], key, k) <==> Has(rows, key, k) || key(x) == k
  {
    var r := rows + [x];
    assert r[|rows|] == x;
    if Has(r, key, k) && key(x) != k {
      var i :| 0 <= i < |r| && key(r[i]) == k;
      assert r[i] == rows[i];
    }
    if Has(rows, key, k) {
      var i :| 0 <= i < |rows| && key(rows[i]) == k;
      assert r[i] == rows[i];
    }
  }

  /** A key present in a table is present in every extension of it. */
  lemma HasExtends<T>(rows: seq<T>, longer: seq<T>, key: T -> string, k: string)
    requires rows <= longer
    requires Has(rows, key, k)
    ensures Has(longer, key, k)
  {
    var i :| 0 <= i < |rows| && key(rows[i]) == k;
    assert longer[i] == rows[i];
  }

  /** Appending rows never loses a key. */
  lemma HasGrows<T>(rows: seq<T>, more: seq<T>, key: T -> string, k: string)
    requires Has(rows, key, k)
    ensures Has(rows + more, key, k)
  {
    var i :| 0 <= i < |rows| && key(rows[i]) == k;
    assert (rows + more)[i] == rows[i];
  }

  /** Under a unique key, a row occurs exactly once. */
  lemma SingleOccurrence<T, K>(rows: seq<T>, key: T -> K, x: int)
    requires KeysUnique(rows, key)
    requires 0 <= x < |rows|
    ensures multiset(rows)[rows[x]] == 1
  {
    var before := rows[..x];
    var after := rows[x + 1..];
    assert rows == before + [rows[x]] + after;
    assert rows[x] !in before by {
      forall k | 0 <= k < |before|
        ensures before[k] != rows[x]
      {
        assert key(rows[k]) != key(rows[x]);
      }
    }
    assert rows[x] !in after by {
      forall k | 0 <= k < |after|
        ensures after[k] != rows[x]
      {
        assert after[k] == rows[x + 1 + k];
        assert key(rows[x]) != key(rows[x + 1 + k]);
      }
    }
  }

  /** A value at two positions occurs at least twice. */
  lemma TwoOccurrences<T>(rows: seq<T>, a: int, b: int)
    requires 0 <= a < b < |rows| && rows[a] == rows[b]
    ensures multiset(rows)[rows[a]] >= 2
  {
    assert rows == rows[..a] + [rows[a]] + rows[a + 1..b] + [rows[b]] + rows[b + 1..];
  }

  /** A rearrangement of rows with a unique key still has a unique key. */
  lemma PermutationKeepsKeysUnique<T, K>(rows: seq<T>, perm: seq<T>, key: T -> K)
    requires KeysUnique(rows, key)
    requires multiset(perm) == multiset(rows)
    ensures KeysUnique(perm, key)
  {
    forall a, b | 0 <= a < b < |perm|
      ensures key(perm[a]) != key(perm[b])
    {
      if key(perm[a]) == key(perm[b]) {
        assert perm[a] in multiset(rows) && perm[b] in multiset(rows);
        var x :| 0 <= x < |rows| && rows[x] == perm[a];
        var y :| 0 <= y < |rows| && rows[y] == perm[b];
        if x == y {
          TwoOccurrences(perm, a, b);
          SingleOccurrence(rows, key, x);
          assert false;
        } else if x < y {
          assert false;
        } else {
          assert false;
        }
      }
    }
  }

  // ---- join tables --------------------------------------------------------

  // Row filters, named so that every use denotes the same predicate.
  function GrantOfRole(roleId: string): Grant -> bool { (g: Grant) => g.roleId == roleId }
  function GrantNotOfRole(roleId: string): Grant -> bool { (g: Grant) => g.roleId != roleId }
  function AssignmentOfUser(userId: string): Assignment -> bool { (a: Assignment) => a.userId == userId }
  function AssignmentNotOfRole(roleId: string): Assignment -> bool { (a: Assignment) => a.roleId != roleId }
  function RoleOtherThan(roleId: string): Role -> bool { (r: Role) => r.id != roleId }

  /** The grant rows of one role. */
  function GrantsOf(grants: seq<Grant>, roleId: string): (gs: seq<Grant>)
    ensures forall g :: g in gs <==> g in grants && g.roleId == roleId
  {
    Where(grants, GrantOfRole(roleId))
  }

  /** The assignment rows of one user. */
  function AssignmentsOf(assignments: seq<Assignment>, userId: string): (as_: seq<Assignment>)
    ensures forall a :: a in as_ <==> a in assignments && a.userId == userId
  {
    Where(assignments, AssignmentOfUser(userId))
  }

  /** `role.rolepermission[].permission`: the permissions granted to a role, one per grant row. */
  function GrantedPermissions(s: Store, roleId: string): seq<Permission> {
    Follow(GrantsOf(s.grants, roleId), GrantPermission, s.permissions, PermissionId)
  }

  /** `user.userrole[].role`: the roles assigned to a user, one per assignment row. */
  function AssignedRoles(s: Store, userId: string): seq<Role> {
    Follow(AssignmentsOf(s.assignments, userId), AssignedRole, s.roles, RoleId)
  }

  /** True when `roleId` has been granted `permissionId`. */
  predicate Granted(grants: seq<Grant>, roleId: string, permissionId: string) {
    exists i :: 0 <= i < |grants| && grants[i].roleId == roleId && grants[i].permissionId == permissionId
  }

  /** True when `userId` holds `roleId`. */
  predicate Assigned(assignments: seq<Assignment>, userId: string, roleId: string) {
    exists i :: 0 <= i < |assignments| && assignments[i].userId == userId && assignments[i].roleId == roleId
  }

  // ---- integrity ------------------------------------------------------------

  /** Every grant row points at an existing role and an existing permission. */
  predicate GrantsResolve(s: Store) {
    forall i :: 0 <= i < |s.grants| ==>
      Has(s.roles, RoleId, s.grants[i].roleId) && Has(s.permissions, PermissionId, s.grants[i].permissionId)
  }

  /** Every assignment row points at an existing user and an existing role. */
  predicate AssignmentsResolve(s: Store) {
    forall i :: 0 <= i < |s.assignments| ==>
      Has(s.users, UserId, s.assignments[i].userId) && Has(s.roles, RoleId, s.assignments[i].roleId)
  }

  function GrantPair(g: Grant): (string, string) { (g.roleId, g.permissionId) }
  function AssignmentPair(a: Assignment): (string, string) { (a.userId, a.roleId) }

  /** The unique index on (roleId, permissionId). */
  predicate GrantPairsUnique(grants: seq<Grant>) {
    KeysUnique(grants, GrantPair)
  }

  /** The unique index on (userId, roleId). */
  predicate AssignmentPairsUnique(assignments: seq<Assignment>) {
    KeysUnique(assignments, AssignmentPair)
  }

  /**
   * The database constraints: primary keys, the unique names and emails,
   * foreign keys of both join tables and their composite unique indexes.
   */
  predicate Valid(s: Store) {
    && KeysUnique(s.roles, RoleId) && KeysUnique(s.roles, RoleName)
    && KeysUnique(s.permissions, PermissionId) && KeysUnique(s.permissions, PermissionName)
    && KeysUnique(s.users, UserId) && KeysUnique(s.users, UserEmail)
    && GrantsResolve(s) && GrantPairsUnique(s.grants)
    && AssignmentsResolve(s) && AssignmentPairsUnique(s.assignments)
  }

  /** In a valid store a role's granted permissions line up one-to-one with its grant rows. */
  lemma GrantedPermissionsPerRow(s: Store, roleId: string)
    requires GrantsResolve(s)
    ensures |GrantedPermissions(s, roleId)| == |GrantsOf(s.grants, roleId)|
    ensures forall i :: 0 <= i < |GrantsOf(s.grants, roleId)| ==>
      GrantedPermissions(s, roleId)[i].id == GrantsOf(s.grants, roleId)[i].permissionId
  {
    var gs := GrantsOf(s.grants, roleId);
    forall i | 0 <= i < |gs|
      ensures Has(s.permissions, PermissionId, GrantPermission(gs[i]))
    {
      assert gs[i] in s.grants;
      var k :| 0 <= k < |s.grants| && s.grants[k] == gs[i];
    }
    FollowResolved(gs, GrantPermission, s.permissions, PermissionId);
  }

  /** In a valid store a user's assigned roles line up one-to-one with the assignment rows. */
  lemma AssignedRolesPerRow(s: Store, userId: string)
    requires AssignmentsResolve(s)
    ensures |AssignedRoles(s, userId)| == |AssignmentsOf(s.assignments, userId)|
    ensures forall i :: 0 <= i < |AssignmentsOf(s.assignments, userId)| ==>
      AssignedRoles(s, userId)[i].id == AssignmentsOf(s.assignments, userId)[i].roleId
  {
    var as_ := AssignmentsOf(s.assignments, userId);
    forall i | 0 <= i < |as_|
      ensures Has(s.roles, RoleId, AssignedRole(as_[i]))
    {
      assert as_[i] in s.assignments;
      var k :| 0 <= k < |s.assignments| && s.assignments[k] == as_[i];
    }
    FollowResolved(as_, AssignedRole, s.roles, RoleId);
  }
}
