/**
 * The `/api/users` route (`src/app/api/users/route.ts`): GET lists every
 * user with the names of its roles, never the password.
 */
module UsersApi {
  import opened Wrappers
  import opened Tables
  import opened Auth
  import opened Http

  const UsersRead := "users:read"

  /** A user as the listing exposes it: no password column. */
  datatype SafeUser = SafeUser(id: string, name: Option<string>, email: string, image: Option<string>, roles: seq<string>)

  datatype UsersPayload = Users(users: seq<SafeUser>)

  /** The catch block's answer; the permission check sits inside the `try` here. */
  function Failed(): Response<UsersPayload> {
    Response(StatusServerError, Error("Failed to fetch users"))
  }


  /**
   * `{ id, name, email, image, roles: user.userrole.map(ur => ur.role.name) }`:
   * the user's public columns and at most one role name per assignment
   * row, each the name of a stored role.
   */
  function Project(s: Store, u: User): (p: SafeUser)
    ensures p.id == u.id && p.name == u.name && p.email == u.email && p.image == u.image
    ensures |p.roles| <= |AssignmentsOf(s.assignments, u.id)|
    ensures forall k :: 0 <= k < |p.roles| ==> exists r :: r in s.roles && r.name == p.roles[k]
  {
    var rs := AssignedRoles(s, u.id);
    assert forall k :: 0 <= k < |rs| ==> rs[k] in s.roles;
    SafeUser(u.id, u.name, u.email, u.image, Column(rs, RoleName))
  }

  /** GET: every user in store order with its role names. Never writes. */
  function GetUsers(session: Option<Session>, s: Store, fault: bool): (out: Step<UsersPayload>)
    ensures out.store == s
    ensures session.None? ==> out.response == Response(StatusUnauthorized, Error("Unauthorized"))
    ensures Decide(session, [UsersRead]) == Forbidden ==> out.response == Response(StatusForbidden, Error("Forbidden"))
    ensures Decide(session, [UsersRead]) == ClaimMissing ==> out.response == Failed()
    ensures Decide(session, [UsersRead]) == Admitted && fault ==> out.response == Failed()
    ensures out.response.status == StatusOk <==> Decide(session, [UsersRead]) == Admitted && !fault
    ensures out.response.status == StatusOk ==>
      && Decide(session, [UsersRead]) == Admitted && !fault
      && out.response.body.Json?
      && var listed := out.response.body.value.users;
         && |listed| == |s.users|
         && forall i :: 0 <= i < |s.users| ==>
              && listed[i].id == s.users[i].id && listed[i].name == s.users[i].name
              && listed[i].email == s.users[i].email && listed[i].image == s.users[i].image
  {
    var d := Decide(session, [UsersRead]);
    if d != Admitted then Step(Refusal(d, Failed()), s)
    else if fault then Step(Failed(), s)
    else Step(Response(StatusOk, Json(Users(seq(|s.users|, i requires 0 <= i < |s.users| => Project(s, s.users[i]))))), s)
  }

  /**
   * Each listed user's roles are exactly the names of its assigned roles:
   * one entry per assignment row in a valid store.
   */
  lemma ListedRolesAreAssigned(session: Option<Session>, s: Store, i: int, name: string)
    requires Valid(s)
    requires GetUsers(session, s, false).response.status == StatusOk
    requires 0 <= i < |s.users|
    ensures var listed := GetUsers(session, s, false).response.body.value.users;
      && |listed[i].roles| == |AssignmentsOf(s.assignments, s.users[i].id)|
      && (name in listed[i].roles <==>
            exists a, r :: a in s.assignments && r in s.roles && a.userId == s.users[i].id
                           && r.id == a.roleId && r.name == name)
  {
    var listed := GetUsers(session, s, false).response.body.value.users;
    assert listed[i] == Project(s, s.users[i]);
    AssignedNamesIff(s, s.users[i].id, name);
  }

  /** A user's role names line up with its assignment rows and are exactly the names of its assigned roles. */
  lemma AssignedNamesIff(s: Store, userId: string, name: string)
    requires AssignmentsResolve(s) && KeysUnique(s.roles, RoleId)
    ensures |Column(AssignedRoles(s, userId), RoleName)| == |AssignmentsOf(s.assignments, userId)|
    ensures name in Column(AssignedRoles(s, userId), RoleName) <==>
      exists a, r :: a in s.assignments && r in s.roles && a.userId == userId
                     && r.id == a.roleId && r.name == name
  {
    AssignedRolesPerRow(s, userId);
    if name in Column(AssignedRoles(s, userId), RoleName) {
      ListedNameIsAssigned(s, userId, name);
    }
    if exists a, r :: a in s.assignments && r in s.roles && a.userId == userId && r.id == a.roleId && r.name == name {
      var a, r :| a in s.assignments && r in s.roles && a.userId == userId && r.id == a.roleId && r.name == name;
      AssignedNameIsListed(s, userId, a, r);
    }
  }

  /** A listed role name comes from an assignment row of the user and the role it points at. */
  lemma ListedNameIsAssigned(s: Store, userId: string, name: string)
    requires KeysUnique(s.roles, RoleId)
    requires name in Column(AssignedRoles(s, userId), RoleName)
    ensures exists a, r :: a in s.assignments && r in s.roles && a.userId == userId
                           && r.id == a.roleId && r.name == name
  {
    var as_ := AssignmentsOf(s.assignments, userId);
    var rs := AssignedRoles(s, userId);
    var names := Column(rs, RoleName);
    var k :| 0 <= k < |names| && names[k] == name;
    FollowMembership(as_, AssignedRole, s.roles, RoleId, rs[k]);
    var a :| a in as_ && AssignedRole(a) == RoleId(rs[k]);
    assert a in s.assignments && rs[k] in s.roles && a.userId == userId && rs[k].id == a.roleId && rs[k].name == name;
  }

  /** The role an assignment row of the user points at is listed by name. */
  lemma AssignedNameIsListed(s: Store, userId: string, a: Assignment, r: Role)
    requires KeysUnique(s.roles, RoleId)
    requires a in s.assignments && r in s.roles && a.userId == userId && r.id == a.roleId
    ensures r.name in Column(AssignedRoles(s, userId), RoleName)
  {
    var rs := AssignedRoles(s, userId);
    assert a in AssignmentsOf(s.assignments, userId);
    FollowMembership(AssignmentsOf(s.assignments, userId), AssignedRole, s.roles, RoleId, r);
    var k :| 0 <= k < |rs| && rs[k] == r;
    assert Column(rs, RoleName)[k] == r.name;
  }

  /** The listing and the sign-in claims agree on every user's roles. */
  lemma ListingAgreesWithSignIn(session: Option<Session>, s: Store, i: int)
    requires GetUsers(session, s, false).response.status == StatusOk
    requires 0 <= i < |s.users|
    ensures GetUsers(session, s, false).response.body.value.users[i].roles == Claims(LoadUser(s, s.users[i])).roles
  {
    var u := s.users[i];
    var lrs := LoadRoles(s, AssignedRoles(s, u.id));
    assert RoleNames(lrs) == Column(AssignedRoles(s, u.id), RoleName);
  }
}
