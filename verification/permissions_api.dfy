/**
 * The `/api/permissions` route (`src/app/api/permissions/route.ts`): GET
 * lists every permission by ascending name to anyone who may read either
 * permissions or roles; POST creates a permission with a new unique name.
 */
module PermissionsApi {
  import opened Wrappers
  import opened Tables
  import opened Ordering
  import opened Auth
  import opened Http

  const PermissionsRead := "permissions:read"
  const PermissionsCreate := "permissions:create"
  const RolesRead := "roles:read"

  datatype PermissionsPayload =
    | All(permissions: seq<Permission>)  // GET
    | Created(permission: Permission)     // POST

  /** The POST body. */
  datatype NewPermission = NewPermission(name: string, description: Option<string>)

  /** GET: every permission, ordered by name. Never writes. */
  function GetPermissions(session: Option<Session>, s: Store, fault: bool): (out: Step<PermissionsPayload>)
    ensures out.store == s
    ensures session.None? ==> out.response == Response(StatusUnauthorized, Error("Unauthorized"))
    ensures out.response.status == StatusForbidden <==>
      session.Some? && session.value.user.permissions.Some? &&
      PermissionsRead !in session.value.user.permissions.value && RolesRead !in session.value.user.permissions.value
    ensures Decide(session, [PermissionsRead, RolesRead]) == ClaimMissing ==> out.response == CrashResponse()
    ensures Decide(session, [PermissionsRead, RolesRead]) == Admitted && fault ==> out.response == ServerError()
    ensures out.response.status == StatusOk <==> Decide(session, [PermissionsRead, RolesRead]) == Admitted && !fault
    ensures out.response.status == StatusOk ==>
      && !fault && out.response.body.Json? && out.response.body.value.All?
      && var listed := out.response.body.value.permissions;
         SortedBy(listed, PermissionName) && multiset(listed) == multiset(s.permissions)
  {
    var d := Decide(session, [PermissionsRead, RolesRead]);
    assert d == Admitted <==>
             session.Some? && session.value.user.permissions.Some? &&
             (PermissionsRead in session.value.user.permissions.value || RolesRead in session.value.user.permissions.value) by {
      var any := [PermissionsRead, RolesRead];
      assert any[0] == PermissionsRead && any[1] == RolesRead;
    }
    if d != Admitted then Step(Refusal(d, CrashResponse()), s)
    else if fault then Step(ServerError(), s)
    else Step(Response(StatusOk, Json(All(SortBy(s.permissions, PermissionName)))), s)
  }

  /** POST: create a permission under the fresh id `newId` (the route's `crypto.randomUUID()`). */
  function PostPermission(session: Option<Session>, body: NewPermission, newId: string, s: Store, fault: bool)
    : (out: Step<PermissionsPayload>)
    ensures out.response.status != StatusCreated ==> out.store == s
    ensures session.None? ==> out.response == Response(StatusUnauthorized, Error("Unauthorized"))
    ensures Decide(session, [PermissionsCreate]) == Forbidden ==> out.response == Response(StatusForbidden, Error("Forbidden"))
    ensures Decide(session, [PermissionsCreate]) == ClaimMissing ==> out.response == CrashResponse()
    ensures Decide(session, [PermissionsCreate]) == Admitted && body.name == "" ==>
      out.response == Response(StatusBadRequest, Error("Permission name is required"))
    ensures (Decide(session, [PermissionsCreate]) == Admitted && body.name != "" && !fault
      && Has(s.permissions, PermissionName, body.name)) ==>
      out.response == Response(StatusBadRequest, Error("Permission with this name already exists"))
    ensures Decide(session, [PermissionsCreate]) == Admitted && body.name != "" && fault ==> out.response == ServerError()
    ensures (Decide(session, [PermissionsCreate]) == Admitted && body.name != "" && !fault
      && !Has(s.permissions, PermissionName, body.name)) ==>
      (out.response.status == StatusCreated <==> !Has(s.permissions, PermissionId, newId))
    ensures out.response.status == StatusCreated ==>
      && Decide(session, [PermissionsCreate]) == Admitted && body.name != ""
      && !Has(s.permissions, PermissionName, body.name) && !Has(s.permissions, PermissionId, newId)
      && out.response.body == Json(Created(Permission(newId, body.name, body.description)))
      && out.store == s.(permissions := s.permissions + [Permission(newId, body.name, body.description)])
  {
    var d := Decide(session, [PermissionsCreate]);
    if d != Admitted then Step(Refusal(d, CrashResponse()), s)
    else if body.name == "" then Step(Response(StatusBadRequest, Error("Permission name is required")), s)
    else if fault then Step(ServerError(), s)
    else if Find(s.permissions, PermissionName, body.name).Some? then
      Step(Response(StatusBadRequest, Error("Permission with this name already exists")), s)
    else if Has(s.permissions, PermissionId, newId) then Step(ServerError(), s)
    else
      var p := Permission(newId, body.name, body.description);
      Step(Response(StatusCreated, Json(Created(p))), s.(permissions := s.permissions + [p]))
  }

  // ---- properties -------------------------------------------------------------------

  /**
   * In a store whose names are unique the listing is strictly ascending:
   * each permission appears once, at the place its name determines.
   */
  lemma ListingStrictlyAscending(session: Option<Session>, s: Store, i: int, j: int)
    requires KeysUnique(s.permissions, PermissionName)
    requires GetPermissions(session, s, false).response.status == StatusOk
    requires 0 <= i < j < |s.permissions|
    ensures var listed := GetPermissions(session, s, false).response.body.value.permissions;
      |listed| == |s.permissions| && !LexLe(listed[j].name, listed[i].name)
  {
    var listed := SortBy(s.permissions, PermissionName);
    assert |listed| == |multiset(listed)| == |multiset(s.permissions)| == |s.permissions|;
    PermutationKeepsKeysUnique(s.permissions, listed, PermissionName);
    SortedDistinctIsStrict(listed, PermissionName, i, j);
  }

  /** POST keeps permission names pairwise distinct, and every other constraint too. */
  lemma PostPermissionKeepsValid(session: Option<Session>, body: NewPermission, newId: string, s: Store, fault: bool)
    requires Valid(s)
    ensures Valid(PostPermission(session, body, newId, s, fault).store)
  {
    var out := PostPermission(session, body, newId, s, fault);
    if out.response.status == StatusCreated {
      var p := Permission(newId, body.name, body.description);
      KeysUniqueAppend(s.permissions, p, PermissionId);
      KeysUniqueAppend(s.permissions, p, PermissionName);
      forall i | 0 <= i < |s.grants|
        ensures Has(out.store.permissions, PermissionId, s.grants[i].permissionId)
      {
        HasGrows(s.permissions, [p], PermissionId, s.grants[i].permissionId);
      }
    }
  }
}
