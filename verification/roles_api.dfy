/**
 * The `/api/roles` route (`src/app/api/roles/route.ts`): GET, POST, PATCH
 * and DELETE as transitions of the store. Each handler answers 401 without
 * a session, then 403 without its `roles:*` permission, then validates the
 * request, then reads and writes the store.
 */
module RolesApi {
  import opened Wrappers
  import opened Tables
  import opened Auth
  import opened Http

  const RolesRead := "roles:read"
  const RolesCreate := "roles:create"
  const RolesUpdate := "roles:update"
  const RolesDelete := "roles:delete"

  datatype PermissionRef = PermissionRef(id: string, name: string)
  datatype RoleDetail = RoleDetail(id: string, name: string, description: Option<string>, permissions: seq<PermissionRef>)
  datatype RoleSummary = RoleSummary(id: string, name: string, description: Option<string>, permissions: seq<string>)

  datatype RolesPayload =
    | Detail(detail: RoleDetail)       // GET of one role
    | Listing(roles: seq<RoleSummary>) // GET of the collection
    | Saved(role: Role)                // the row POST created or PATCH updated

  /** The POST body; `permissions` is the list of permission ids to grant. */
  datatype NewRole = NewRole(name: string, description: Option<string>, permissions: Option<seq<string>>)

  /** A Prisma `data` field: `undefined` leaves the column alone, anything else overwrites it. */
  datatype FieldUpdate = Keep | Set(value: Option<string>)

  /** The PATCH body. */
  datatype RoleChange = RoleChange(id: string, name: string, description: FieldUpdate, permissions: Option<seq<string>>)

  // ---- the role id in the path ----------------------------------------------------

  /** `pathname.split('/')` followed by taking the last part: the longest suffix without a '/'. */
  function LastSegment(path: string): (seg: string)
    ensures '/' !in seg
    ensures |seg| <= |path| && seg == path[|path| - |seg|..]
    ensures |seg| < |path| ==> path[|path| - |seg| - 1] == '/'
    decreases |path|
  {
    if |path| == 0 then ""
    else if path[|path| - 1] == '/' then ""
    else
      var prefix := path[..|path| - 1];
      var init := LastSegment(prefix);
      var seg := init + [path[|path| - 1]];
      assert path[|path| - |seg|..] == prefix[|prefix| - |init|..] + [path[|path| - 1]];
      assert '/' !in seg by {
        assert forall x :: x in seg ==> x in init || x == path[|path| - 1];
      }
      seg
  }

  /**
   * The role a path designates: the non-empty, slash-free text after the
   * path's last '/', unless that is the collection's own name `roles`.
   */
  function TargetRole(path: string): (id: Option<string>)
    ensures id.Some? ==>
      && id.value != "" && id.value != "roles" && '/' !in id.value
      && |id.value| <= |path| && path[|path| - |id.value|..] == id.value
      && (|id.value| < |path| ==> path[|path| - |id.value| - 1] == '/')
    ensures id.None? ==>
      || |path| == 0 || path[|path| - 1] == '/'
      || (|path| >= 5 && path[|path| - 5..] == "roles" && (|path| == 5 || path[|path| - 6] == '/'))
  {
    var seg := LastSegment(path);
    if seg == "" || seg == "roles" then None else Some(seg)
  }

  // ---- projections ------------------------------------------------------------

  function PermissionRefs(ps: seq<Permission>): (refs: seq<PermissionRef>)
    ensures |refs| == |ps|
    ensures forall i :: 0 <= i < |ps| ==> refs[i] == PermissionRef(ps[i].id, ps[i].name)
  {
    seq(|ps|, i requires 0 <= i < |ps| => PermissionRef(ps[i].id, ps[i].name))
  }

  /**
   * The single-role answer: the role's own columns, and at most one
   * (id, name) pair per grant row of the role, each naming a stored permission.
   */
  function DetailOf(s: Store, r: Role): (d: RoleDetail)
    ensures d.id == r.id && d.name == r.name && d.description == r.description
    ensures |d.permissions| <= |GrantsOf(s.grants, r.id)|
    ensures forall k :: 0 <= k < |d.permissions| ==>
      exists p :: p in s.permissions && p.id == d.permissions[k].id && p.name == d.permissions[k].name
  {
    var ps := GrantedPermissions(s, r.id);
    assert forall k :: 0 <= k < |ps| ==> ps[k] in s.permissions;
    RoleDetail(r.id, r.name, r.description, PermissionRefs(ps))
  }

  /** One entry of the listing: the role with the names of its granted permissions. */
  function SummaryOf(s: Store, r: Role): RoleSummary {
    RoleSummary(r.id, r.name, r.description, Column(GrantedPermissions(s, r.id), PermissionName))
  }

  function Summaries(s: Store): (out: seq<RoleSummary>)
    ensures |out| == |s.roles|
    ensures forall i :: 0 <= i < |s.roles| ==> out[i] == SummaryOf(s, s.roles[i])
  {
    seq(|s.roles|, i requires 0 <= i < |s.roles| => SummaryOf(s, s.roles[i]))
  }

  // ---- grant insertion ----------------------------------------------------------

  /** The composite id `${roleId}_${permissionId}` given to a grant row: the role id, an underscore, the permission id. */
  function GrantId(roleId: string, permissionId: string): (id: string)
    ensures |id| == |roleId| + 1 + |permissionId|
    ensures id[..|roleId|] == roleId && id[|roleId|] == '_' && id[|roleId| + 1..] == permissionId
  {
    roleId + "_" + permissionId
  }

  /** Role ids without an underscore make the composite id determine both halves. */
  lemma GrantIdDeterminesPair(r1: string, p1: string, r2: string, p2: string)
    requires '_' !in r1 && '_' !in r2
    requires GrantId(r1, p1) == GrantId(r2, p2)
    ensures r1 == r2 && p1 == p2
  {
    var id := GrantId(r1, p1);
    if |r1| < |r2| {
      assert false;
    } else if |r2| < |r1| {
      assert false;
    }
  }

  /** An underscore inside a role id lets two different pairs share a composite id. */
  lemma GrantIdCollision()
    ensures GrantId("a_b", "c") == GrantId("a", "b_c")
  {
  }

  /** The grant rows created for `roleId`, one per permission id, in list order. */
  function NewGrants(roleId: string, permissionIds: seq<string>): (gs: seq<Grant>)
    ensures |gs| == |permissionIds|
    ensures forall i :: 0 <= i < |gs| ==>
      gs[i] == Grant(GrantId(roleId, permissionIds[i]), roleId, permissionIds[i])
  {
    seq(|permissionIds|, i requires 0 <= i < |permissionIds| =>
      Grant(GrantId(roleId, permissionIds[i]), roleId, permissionIds[i]))
  }

  /** The rows made for a batch grant the role exactly the listed ids, each pair once when the ids are distinct. */
  lemma NewGrantsGrantExactly(roleId: string, permissionIds: seq<string>, r: string, p: string)
    ensures Granted(NewGrants(roleId, permissionIds), r, p) <==> r == roleId && p in permissionIds
    ensures Distinct(permissionIds) ==> GrantPairsUnique(NewGrants(roleId, permissionIds))
  {
    var gs := NewGrants(roleId, permissionIds);
    if r == roleId && p in permissionIds {
      var i :| 0 <= i < |permissionIds| && permissionIds[i] == p;
      assert gs[i].roleId == r && gs[i].permissionId == p;
    }
    if Distinct(permissionIds) {
      forall i, j | 0 <= i < j < |gs|
        ensures GrantPair(gs[i]) != GrantPair(gs[j])
      {
        assert gs[i].permissionId == permissionIds[i] && gs[j].permissionId == permissionIds[j];
      }
    }
  }

  /**
   * One grant `create`: refused by the database (None) when the permission
   * does not exist (foreign key) or the role already holds it (the unique
   * index on roleId and permissionId).
   */
  function InsertGrant(s: Store, roleId: string, permissionId: string): (r: Option<Store>)
    ensures r.None? <==> !Has(s.permissions, PermissionId, permissionId) || Granted(s.grants, roleId, permissionId)
    ensures r.Some? ==> r.value == s.(grants := s.grants + [Grant(GrantId(roleId, permissionId), roleId, permissionId)])
  {
    if !Has(s.permissions, PermissionId, permissionId) || Granted(s.grants, roleId, permissionId) then None
    else Some(s.(grants := s.grants + [Grant(GrantId(roleId, permissionId), roleId, permissionId)]))
  }

  /** The store after a run of inserts, and whether all of them went through. */
  datatype Batch = Batch(store: Store, complete: bool)

  /**
   * Grant creations one after another, stopping at the first the database
   * refuses; the rows already written stay written.
   */
  function InsertGrants(s: Store, roleId: string, permissionIds: seq<string>): (b: Batch)
    ensures b.store == s.(grants := b.store.grants)
    ensures b.complete ==> b.store.grants == s.grants + NewGrants(roleId, permissionIds)
    ensures !b.complete ==>
              exists k :: 0 <= k < |permissionIds| && b.store.grants == s.grants + NewGrants(roleId, permissionIds[..k])
    decreases |permissionIds|
  {
    if |permissionIds| == 0 then Batch(s, true)
    else
      match InsertGrant(s, roleId, permissionIds[0])
      case None =>
        assert permissionIds[..0] == [];
        Batch(s, false)
      case Some(s1) =>
        var b := InsertGrants(s1, roleId, permissionIds[1..]);
        InsertGrantsStep(s, s1, roleId, permissionIds, b);
        b
  }

  /** One step of `InsertGrants`: the first insert went through, the rest produced `b`. */
  lemma InsertGrantsStep(s: Store, s1: Store, roleId: string, permissionIds: seq<string>, b: Batch)
    requires |permissionIds| > 0
    requires s1 == s.(grants := s.grants + [Grant(GrantId(roleId, permissionIds[0]), roleId, permissionIds[0])])
    requires b.store == s1.(grants := b.store.grants)
    requires b.complete ==> b.store.grants == s1.grants + NewGrants(roleId, permissionIds[1..])
    requires !b.complete ==>
      exists k :: 0 <= k < |permissionIds[1..]| && b.store.grants == s1.grants + NewGrants(roleId, permissionIds[1..][..k])
    ensures b.store == s.(grants := b.store.grants)
    ensures b.complete ==> b.store.grants == s.grants + NewGrants(roleId, permissionIds)
    ensures !b.complete ==>
      exists k :: 0 <= k < |permissionIds| && b.store.grants == s.grants + NewGrants(roleId, permissionIds[..k])
  {
    if b.complete {
      GrantsAfterFirst(s.grants, roleId, permissionIds, |permissionIds| - 1);
      assert permissionIds[1..][..|permissionIds| - 1] == permissionIds[1..];
      assert permissionIds[..|permissionIds|] == permissionIds;
    } else {
      var k :| 0 <= k < |permissionIds[1..]| && b.store.grants == s1.grants + NewGrants(roleId, permissionIds[1..][..k]);
      GrantsAfterFirst(s.grants, roleId, permissionIds, k);
    }
  }

  /** The first id's grant followed by the grants for the next `k` ids are the grants for the first `k + 1` ids. */
  lemma GrantsAfterFirst(base: seq<Grant>, roleId: string, permissionIds: seq<string>, k: nat)
    requires k < |permissionIds|
    ensures (base + [Grant(GrantId(roleId, permissionIds[0]), roleId, permissionIds[0])]) + NewGrants(roleId, permissionIds[1..][..k])
      == base + NewGrants(roleId, permissionIds[..k + 1])
  {
    var g0 := [Grant(GrantId(roleId, permissionIds[0]), roleId, permissionIds[0])];
    NewGrantsCons(roleId, permissionIds, k);
    assert (base + g0) + NewGrants(roleId, permissionIds[1..][..k]) == base + (g0 + NewGrants(roleId, permissionIds[1..][..k]));
  }

  /** The grants for a prefix of `k + 1` ids: the first id's grant, then those for the next `k`. */
  lemma NewGrantsCons(roleId: string, permissionIds: seq<string>, k: nat)
    requires k < |permissionIds|
    ensures NewGrants(roleId, permissionIds[..k + 1]) ==
      [Grant(GrantId(roleId, permissionIds[0]), roleId, permissionIds[0])] + NewGrants(roleId, permissionIds[1..][..k])
  {
    var lhs := NewGrants(roleId, permissionIds[..k + 1]);
    var rhs := [Grant(GrantId(roleId, permissionIds[0]), roleId, permissionIds[0])] + NewGrants(roleId, permissionIds[1..][..k]);
    assert |lhs| == |rhs|;
    forall i | 0 <= i < |lhs|
      ensures lhs[i] == rhs[i]
    {
      if i > 0 {
        assert permissionIds[1..][..k][i - 1] == permissionIds[i];
      }
    }
  }

  // ---- handlers -------------------------------------------------------------------

  /** GET: one role by the id at the end of the path, or every role. Never writes. */
  function GetRoles(session: Option<Session>, path: string, s: Store, fault: bool): (out: Step<RolesPayload>)
    ensures out.store == s
    ensures session.None? ==> out.response == Response(StatusUnauthorized, Error("Unauthorized"))
    ensures Decide(session, [RolesRead]) == Forbidden ==> out.response == Response(StatusForbidden, Error("Forbidden"))
    ensures Decide(session, [RolesRead]) == ClaimMissing ==> out.response == CrashResponse()
    ensures Decide(session, [RolesRead]) == Admitted && fault ==> out.response.status == StatusServerError
    ensures Decide(session, [RolesRead]) == Admitted && !fault && TargetRole(path).Some? ==>
      (out.response.status == StatusNotFound <==> !Has(s.roles, RoleId, TargetRole(path).value))
    ensures Decide(session, [RolesRead]) == Admitted && !fault ==>
      (out.response.status == StatusOk <==> TargetRole(path).None? || Has(s.roles, RoleId, TargetRole(path).value))
    ensures out.response.status == StatusOk ==> Decide(session, [RolesRead]) == Admitted && !fault
  {
    var d := Decide(session, [RolesRead]);
    if d != Admitted then Step(Refusal(d, CrashResponse()), s)
    else if fault then Step(ServerError(), s)
    else
      match TargetRole(path)
      case Some(id) =>
        (match Find(s.roles, RoleId, id)
         case None => Step(Response(StatusNotFound, Error("Role not found")), s)
         case Some(r) => Step(Response(StatusOk, Json(Detail(DetailOf(s, r)))), s))
      case None => Step(Response(StatusOk, Json(Listing(Summaries(s)))), s)
  }

  /** The permission ids a request asks for; an absent list asks for none. */
  function Requested(permissions: Option<seq<string>>): seq<string> {
    permissions.GetOr([])
  }

  /** The store once the new role row is written, before its grants. */
  function WithRole(s: Store, body: NewRole, newId: string): Store {
    s.(roles := s.roles + [Role(newId, body.name, body.description)])
  }

  /** Every grant insert a POST issues for its new role goes through. */
  predicate CreationCompletes(s: Store, body: NewRole, newId: string) {
    InsertGrants(WithRole(s, body, newId), newId, Requested(body.permissions)).complete
  }

  /**
   * POST: create a role under the fresh id `newId` (the route's
   * `crypto.randomUUID()`) and its grants, in one transaction.
   */
  function PostRole(session: Option<Session>, body: NewRole, newId: string, s: Store, fault: bool): (out: Step<RolesPayload>)
    ensures out.response.status != StatusOk ==> out.store == s
    ensures session.None? ==> out.response == Response(StatusUnauthorized, Error("Unauthorized"))
    ensures Decide(session, [RolesCreate]) == Forbidden ==> out.response == Response(StatusForbidden, Error("Forbidden"))
    ensures Decide(session, [RolesCreate]) == ClaimMissing ==> out.response == CrashResponse()
    ensures Decide(session, [RolesCreate]) == Admitted && body.name == "" ==>
      out.response == Response(StatusBadRequest, Error("Role name is required"))
    ensures Decide(session, [RolesCreate]) == Admitted && body.name != "" && !fault && Has(s.roles, RoleName, body.name) ==>
      out.response == Response(StatusBadRequest, Error("Role name already exists"))
    ensures Decide(session, [RolesCreate]) == Admitted && body.name != "" && !fault && !Has(s.roles, RoleName, body.name) ==>
      (out.response.status == StatusOk <==> !Has(s.roles, RoleId, newId) && CreationCompletes(s, body, newId))
    ensures Decide(session, [RolesCreate]) == Admitted && body.name != "" && fault ==> out.response == ServerError()
    ensures out.response.status == StatusOk ==>
      && Decide(session, [RolesCreate]) == Admitted && body.name != "" && !Has(s.roles, RoleName, body.name)
      && out.response.body == Json(Saved(Role(newId, body.name, body.description)))
      && out.store == s.(roles := s.roles + [Role(newId, body.name, body.description)],
                         grants := s.grants + NewGrants(newId, Requested(body.permissions)))
  {
    var d := Decide(session, [RolesCreate]);
    if d != Admitted then Step(Refusal(d, CrashResponse()), s)
    else if body.name == "" then Step(Response(StatusBadRequest, Error("Role name is required")), s)
    else if fault then Step(ServerError(), s)
    else if Find(s.roles, RoleName, body.name).Some? then
      Step(Response(StatusBadRequest, Error("Role name already exists")), s)
    else if Has(s.roles, RoleId, newId) then Step(ServerError(), s)
    else
      var role := Role(newId, body.name, body.description);
      var s1 := WithRole(s, body, newId);
      if body.permissions.Some? && |body.permissions.value| > 0 then
        var b := InsertGrants(s1, newId, body.permissions.value);
        if b.complete then Step(Response(StatusOk, Json(Saved(role))), b.store)
        else Step(ServerError(), s)
      else
        assert NewGrants(newId, Requested(body.permissions)) == [];
        assert InsertGrants(s1, newId, Requested(body.permissions)).complete;
        Step(Response(StatusOk, Json(Saved(role))), s1)
  }

  /** Some role other than `id` is called `name`. */
  predicate NameHeldByOther(roles: seq<Role>, name: string, id: string) {
    exists i :: 0 <= i < |roles| && roles[i].name == name && roles[i].id != id
  }

  function Apply(u: FieldUpdate, current: Option<string>): Option<string> {
    match u
    case Keep => current
    case Set(v) => v
  }

  /** `role.update({ where: { id }, data: { name, description } })` */
  function Rename(roles: seq<Role>, id: string, name: string, description: FieldUpdate): (rs: seq<Role>)
    ensures |rs| == |roles|
    ensures forall i :: 0 <= i < |roles| ==>
      rs[i] == if roles[i].id == id then Role(id, name, Apply(description, roles[i].description)) else roles[i]
  {
    seq(|roles|, i requires 0 <= i < |roles| =>
      if roles[i].id == id then Role(id, name, Apply(description, roles[i].description)) else roles[i])
  }

  /**
   * PATCH: rename a role, and when a permission list is given replace its
   * grants by exactly that list. The writes are separate statements, not a
   * transaction: a grant the database refuses ends the request with 500
   * and leaves the rename, the deletion and the grants before it in place.
   */
  function PatchRole(session: Option<Session>, body: RoleChange, s: Store, fault: bool): (out: Step<RolesPayload>)
    ensures Decide(session, [RolesUpdate]) != Admitted ==> out.store == s
    ensures session.None? ==> out.response == Response(StatusUnauthorized, Error("Unauthorized"))
    ensures Decide(session, [RolesUpdate]) == Forbidden ==> out.response == Response(StatusForbidden, Error("Forbidden"))
    ensures Decide(session, [RolesUpdate]) == ClaimMissing ==> out.response == CrashResponse()
    ensures Decide(session, [RolesUpdate]) == Admitted && body.id == "" ==>
      out.response == Response(StatusBadRequest, Error("Role ID is required")) && out.store == s
    ensures Decide(session, [RolesUpdate]) == Admitted && body.id != "" && body.name == "" ==>
      out.response == Response(StatusBadRequest, Error("Role name is required")) && out.store == s
    ensures Decide(session, [RolesUpdate]) == Admitted && body.id != "" && body.name != "" && fault ==>
      out.response == ServerError() && out.store == s
    ensures (Decide(session, [RolesUpdate]) == Admitted && body.id != "" && body.name != "" && !fault
      && !Has(s.roles, RoleId, body.id)) ==>
      out.response == Response(StatusNotFound, Error("Role not found")) && out.store == s
    ensures (Decide(session, [RolesUpdate]) == Admitted && body.id != "" && body.name != "" && !fault
      && Has(s.roles, RoleId, body.id) && NameHeldByOther(s.roles, body.name, body.id)) ==>
      out.response == Response(StatusBadRequest, Error("Another role with this name already exists")) && out.store == s
    ensures (Decide(session, [RolesUpdate]) == Admitted && body.id != "" && body.name != "" && !fault
      && Has(s.roles, RoleId, body.id) && !NameHeldByOther(s.roles, body.name, body.id)) ==>
      (out.response.status == StatusOk <==> ReplacementCompletes(s, body))
    ensures out.response.status == StatusOk ==>
      && Decide(session, [RolesUpdate]) == Admitted && !fault && Has(s.roles, RoleId, body.id)
      && !NameHeldByOther(s.roles, body.name, body.id)
      && out.store.roles == Rename(s.roles, body.id, body.name, body.description)
      && out.store.permissions == s.permissions && out.store.users == s.users
      && out.store.assignments == s.assignments
      && (body.permissions.None? ==> out.store.grants == s.grants)
      && (body.permissions.Some? ==>
            out.store.grants == Where(s.grants, GrantNotOfRole(body.id)) + NewGrants(body.id, body.permissions.value))
  {
    var d := Decide(session, [RolesUpdate]);
    if d != Admitted then Step(Refusal(d, CrashResponse()), s)
    else if body.id == "" then Step(Response(StatusBadRequest, Error("Role ID is required")), s)
    else if body.name == "" then Step(Response(StatusBadRequest, Error("Role name is required")), s)
    else if fault then Step(ServerError(), s)
    else
      match Find(s.roles, RoleId, body.id)
      case None => Step(Response(StatusNotFound, Error("Role not found")), s)
      case Some(existing) =>
        if NameHeldByOther(s.roles, body.name, body.id) then
          Step(Response(StatusBadRequest, Error("Another role with this name already exists")), s)
        else ApplyChange(s, body, existing)
  }

  /** The store once an accepted PATCH has renamed the role and, when a list is given, dropped its grants. */
  function Cleared(s: Store, body: RoleChange): Store {
    var s1 := s.(roles := Rename(s.roles, body.id, body.name, body.description));
    if body.permissions.Some? then s1.(grants := Where(s1.grants, GrantNotOfRole(body.id))) else s1
  }

  /** Every grant insert an accepted PATCH issues goes through; without a list there are none. */
  predicate ReplacementCompletes(s: Store, body: RoleChange) {
    body.permissions.None? || InsertGrants(Cleared(s, body), body.id, body.permissions.value).complete
  }

  /**
   * The writes of an accepted PATCH: the rename, then, when a list is
   * given, the deletion of the role's grants and one insert per id.
   */
  function ApplyChange(s: Store, body: RoleChange, existing: Role): (out: Step<RolesPayload>)
    ensures out.store.roles == Rename(s.roles, body.id, body.name, body.description)
    ensures out.store.permissions == s.permissions && out.store.users == s.users
    ensures out.store.assignments == s.assignments
    ensures out.response.status == StatusOk || out.response == ServerError()
    ensures out.response.status == StatusOk <==> ReplacementCompletes(s, body)
    ensures out.response.status == StatusOk ==>
      && (body.permissions.None? ==> out.store.grants == s.grants)
      && (body.permissions.Some? ==>
            out.store.grants == Where(s.grants, GrantNotOfRole(body.id)) + NewGrants(body.id, body.permissions.value))
  {
    var updated := Role(body.id, body.name, Apply(body.description, existing.description));
    match body.permissions
    case None => Step(Response(StatusOk, Json(Saved(updated))), Cleared(s, body))
    case Some(ps) =>
      var s2 := Cleared(s, body);
      if |ps| > 0 then
        var b := InsertGrants(s2, body.id, ps);
        if b.complete then Step(Response(StatusOk, Json(Saved(updated))), b.store)
        else Step(ServerError(), b.store)
      else
        assert NewGrants(body.id, ps) == [];
        assert InsertGrants(s2, body.id, ps).complete;
        Step(Response(StatusOk, Json(Saved(updated))), s2)
  }

  /**
   * DELETE: remove the role's grants, then its assignments, then the role
   * itself, and answer 204 with no body.
   */
  function DeleteRole(session: Option<Session>, path: string, s: Store, fault: bool): (out: Step<RolesPayload>)
    ensures out.response.status != StatusNoContent ==> out.store == s
    ensures session.None? ==> out.response == Response(StatusUnauthorized, Error("Unauthorized"))
    ensures Decide(session, [RolesDelete]) == Forbidden ==> out.response == Response(StatusForbidden, Error("Forbidden"))
    ensures Decide(session, [RolesDelete]) == ClaimMissing ==> out.response == CrashResponse()
    ensures Decide(session, [RolesDelete]) == Admitted && TargetRole(path).None? ==>
      out.response == Response(StatusBadRequest, Error("Role ID is required"))
    ensures Decide(session, [RolesDelete]) == Admitted && TargetRole(path).Some? && !fault ==>
      (out.response.status == StatusNotFound <==> !Has(s.roles, RoleId, TargetRole(path).value))
      && (out.response.status == StatusNoContent <==> Has(s.roles, RoleId, TargetRole(path).value))
    ensures Decide(session, [RolesDelete]) == Admitted && TargetRole(path).Some? && fault ==> out.response == ServerError()
    ensures out.response.status == StatusNoContent ==>
      && Decide(session, [RolesDelete]) == Admitted && TargetRole(path).Some?
      && Has(s.roles, RoleId, TargetRole(path).value)
      && out.response.body == Empty
      && var id := TargetRole(path).value;
         out.store == Store(Where(s.roles, RoleOtherThan(id)), s.permissions, s.users,
                            Where(s.grants, GrantNotOfRole(id)), Where(s.assignments, AssignmentNotOfRole(id)))
  {
    var d := Decide(session, [RolesDelete]);
    if d != Admitted then Step(Refusal(d, CrashResponse()), s)
    else
      match TargetRole(path)
      case None => Step(Response(StatusBadRequest, Error("Role ID is required")), s)
      case Some(id) =>
        if fault then Step(ServerError(), s)
        else if Find(s.roles, RoleId, id).None? then Step(Response(StatusNotFound, Error("Role not found")), s)
        else
          var s1 := s.(grants := Where(s.grants, GrantNotOfRole(id)));
          var s2 := s1.(assignments := Where(s1.assignments, AssignmentNotOfRole(id)));
          var s3 := s2.(roles := Where(s2.roles, RoleOtherThan(id)));
          Step(Response(StatusNoContent, Empty), s3)
  }

  // ---- properties -------------------------------------------------------------------

  /**
   * The gate runs before anything else: a refused request gets the same
   * answer whatever the path, body, store or store health, and changes nothing.
   */
  lemma RefusalPrecedesEverything(session: Option<Session>, path1: string, path2: string,
                                  body1: NewRole, body2: NewRole, change1: RoleChange, change2: RoleChange,
                                  id1: string, id2: string, s1: Store, s2: Store, fault1: bool, fault2: bool)
    ensures Decide(session, [RolesRead]) != Admitted ==>
      GetRoles(session, path1, s1, fault1).response == GetRoles(session, path2, s2, fault2).response
    ensures Decide(session, [RolesCreate]) != Admitted ==>
      PostRole(session, body1, id1, s1, fault1).response == PostRole(session, body2, id2, s2, fault2).response
    ensures Decide(session, [RolesUpdate]) != Admitted ==>
      PatchRole(session, change1, s1, fault1).response == PatchRole(session, change2, s2, fault2).response
    ensures Decide(session, [RolesDelete]) != Admitted ==>
      DeleteRole(session, path1, s1, fault1).response == DeleteRole(session, path2, s2, fault2).response
  {
  }

  /** The role id is whatever follows the last '/'. */
  lemma {:induction false} LastSegmentAfterSlash(prefix: string, seg: string)
    requires '/' !in seg
    ensures LastSegment(prefix + "/" + seg) == seg
    decreases |seg|
  {
    var path := prefix + "/" + seg;
    if |seg| > 0 {
      var init := seg[..|seg| - 1];
      assert path[..|path| - 1] == prefix + "/" + init;
      assert '/' !in init by {
        assert forall c :: c in init ==> c in seg;
      }
      LastSegmentAfterSlash(prefix, init);
      assert seg == init + [seg[|seg| - 1]];
    }
  }

  /** The collection path and a trailing slash both mean "all roles"; anything else names a role. */
  lemma CollectionPaths(prefix: string, id: string)
    requires '/' !in id && id != "" && id != "roles"
    ensures TargetRole(prefix + "/" + "roles") == None
    ensures TargetRole(prefix + "/" + "") == None
    ensures TargetRole(prefix + "/" + id) == Some(id)
  {
    LastSegmentAfterSlash(prefix, "roles");
    LastSegmentAfterSlash(prefix, "");
    LastSegmentAfterSlash(prefix, id);
  }

  /**
   * GET of an existing role: exactly one (id, name) pair per grant row of
   * that role, in row order, each naming the permission the row points at.
   */
  lemma GetRoleListsEachGrant(session: Option<Session>, path: string, s: Store)
    requires Valid(s)
    requires Decide(session, [RolesRead]) == Admitted
    requires TargetRole(path).Some? && Has(s.roles, RoleId, TargetRole(path).value)
    ensures var id := TargetRole(path).value;
      var out := GetRoles(session, path, s, false);
      && out.response.status == StatusOk && out.response.body.Json? && out.response.body.value.Detail?
      && var d := out.response.body.value.detail;
         && d.id == id
         && |d.permissions| == |GrantsOf(s.grants, id)|
         && forall i :: 0 <= i < |d.permissions| ==>
              d.permissions[i].id == GrantsOf(s.grants, id)[i].permissionId &&
              exists p :: p in s.permissions && p.id == d.permissions[i].id && p.name == d.permissions[i].name
  {
    var id := TargetRole(path).value;
    var r := Find(s.roles, RoleId, id).value;
    GrantedPermissionsPerRow(s, id);
    var ps := GrantedPermissions(s, id);
    forall i | 0 <= i < |ps|
      ensures ps[i] in s.permissions
    {
      assert ps[i] in ps;
    }
  }

  /**
   * GET of the collection: one entry per stored role, in store order, whose
   * permission names are exactly the names of the permissions granted to it.
   */
  lemma ListingNamesGrantedPermissions(session: Option<Session>, path: string, s: Store, i: int, name: string)
    requires Valid(s)
    requires Decide(session, [RolesRead]) == Admitted && TargetRole(path).None?
    requires 0 <= i < |s.roles|
    ensures var out := GetRoles(session, path, s, false);
      && out.response == Response(StatusOk, Json(Listing(Summaries(s))))
      && |Summaries(s)| == |s.roles| && Summaries(s)[i].id == s.roles[i].id
      && (name in Summaries(s)[i].permissions <==>
            exists g, p :: g in s.grants && p in s.permissions && g.roleId == s.roles[i].id
                           && p.id == g.permissionId && p.name == name)
  {
    assert Summaries(s)[i] == SummaryOf(s, s.roles[i]);
    GrantedNamesIff(s, s.roles[i].id, name);
  }

  /** A role's listed permission names are exactly the names of the permissions its grant rows point at. */
  lemma GrantedNamesIff(s: Store, roleId: string, name: string)
    requires KeysUnique(s.permissions, PermissionId)
    ensures name in Column(GrantedPermissions(s, roleId), PermissionName) <==>
      exists g, p :: g in s.grants && p in s.permissions && g.roleId == roleId
                     && p.id == g.permissionId && p.name == name
  {
    if name in Column(GrantedPermissions(s, roleId), PermissionName) {
      ListedNameIsGranted(s, roleId, name);
    }
    if exists g, p :: g in s.grants && p in s.permissions && g.roleId == roleId && p.id == g.permissionId && p.name == name {
      var g, p :| g in s.grants && p in s.permissions && g.roleId == roleId && p.id == g.permissionId && p.name == name;
      GrantedNameIsListed(s, roleId, g, p);
    }
  }

  /** A listed permission name comes from a grant row of the role and the permission it points at. */
  lemma ListedNameIsGranted(s: Store, roleId: string, name: string)
    requires KeysUnique(s.permissions, PermissionId)
    requires name in Column(GrantedPermissions(s, roleId), PermissionName)
    ensures exists g, p :: g in s.grants && p in s.permissions && g.roleId == roleId
                           && p.id == g.permissionId && p.name == name
  {
    var gs := GrantsOf(s.grants, roleId);
    var ps := GrantedPermissions(s, roleId);
    var names := Column(ps, PermissionName);
    var k :| 0 <= k < |names| && names[k] == name;
    FollowMembership(gs, GrantPermission, s.permissions, PermissionId, ps[k]);
    var g :| g in gs && GrantPermission(g) == PermissionId(ps[k]);
    assert g in s.grants && ps[k] in s.permissions && g.roleId == roleId && ps[k].id == g.permissionId && ps[k].name == name;
  }

  /** The permission a grant row of the role points at is listed by name. */
  lemma GrantedNameIsListed(s: Store, roleId: string, g: Grant, p: Permission)
    requires KeysUnique(s.permissions, PermissionId)
    requires g in s.grants && p in s.permissions && g.roleId == roleId && p.id == g.permissionId
    ensures p.name in Column(GrantedPermissions(s, roleId), PermissionName)
  {
    var ps := GrantedPermissions(s, roleId);
    assert g in GrantsOf(s.grants, roleId);
    FollowMembership(GrantsOf(s.grants, roleId), GrantPermission, s.permissions, PermissionId, p);
    var k :| 0 <= k < |ps| && ps[k] == p;
    assert Column(ps, PermissionName)[k] == p.name;
  }

  /** A batch of grant inserts goes through iff every id exists, none repeats, and none is already granted. */
  lemma {:induction false} InsertGrantsCompleteIff(s: Store, roleId: string, permissionIds: seq<string>)
    ensures InsertGrants(s, roleId, permissionIds).complete <==>
      && (forall i :: 0 <= i < |permissionIds| ==> Has(s.permissions, PermissionId, permissionIds[i]))
      && Distinct(permissionIds)
      && (forall i :: 0 <= i < |permissionIds| ==> !Granted(s.grants, roleId, permissionIds[i]))
    decreases |permissionIds|
  {
    if |permissionIds| > 0 {
      var p0 := permissionIds[0];
      var rest := permissionIds[1..];
      match InsertGrant(s, roleId, p0)
      case None =>
      case Some(s1) =>
        InsertGrantsCompleteIff(s1, roleId, rest);
        var g0 := Grant(GrantId(roleId, p0), roleId, p0);
        assert forall x :: Granted(s1.grants, roleId, x) <==> Granted(s.grants, roleId, x) || x == p0 by {
          forall x
            ensures Granted(s1.grants, roleId, x) <==> Granted(s.grants, roleId, x) || x == p0
          {
            if Granted(s.grants, roleId, x) {
              var i :| 0 <= i < |s.grants| && s.grants[i].roleId == roleId && s.grants[i].permissionId == x;
              assert s1.grants[i] == s.grants[i];
            }
            if x == p0 {
              assert s1.grants[|s.grants|] == g0;
            }
            if Granted(s1.grants, roleId, x) {
              var i :| 0 <= i < |s1.grants| && s1.grants[i].roleId == roleId && s1.grants[i].permissionId == x;
              if i < |s.grants| {
                assert s1.grants[i] == s.grants[i];
              }
            }
          }
        }
        forall i | 0 <= i < |rest|
          ensures rest[i] == permissionIds[i + 1]
        {
        }
        if InsertGrants(s, roleId, permissionIds).complete {
          forall i, j | 0 <= i < j < |permissionIds|
            ensures permissionIds[i] != permissionIds[j]
          {
            if i == 0 {
              assert !Granted(s1.grants, roleId, rest[j - 1]);
            } else {
              assert rest[i - 1] != rest[j - 1];
            }
          }
        }
    }
  }

  /** Grant inserts keep the foreign keys resolving and the (role, permission) index unique. */
  lemma {:induction false} InsertGrantsKeepsIntegrity(s: Store, roleId: string, permissionIds: seq<string>)
    requires Has(s.roles, RoleId, roleId)
    requires GrantsResolve(s) && GrantPairsUnique(s.grants)
    ensures GrantsResolve(InsertGrants(s, roleId, permissionIds).store)
    ensures GrantPairsUnique(InsertGrants(s, roleId, permissionIds).store.grants)
    decreases |permissionIds|
  {
    if |permissionIds| > 0 {
      var p0 := permissionIds[0];
      match InsertGrant(s, roleId, p0)
      case None =>
      case Some(s1) =>
        var g0 := Grant(GrantId(roleId, p0), roleId, p0);
        assert s1.grants == s.grants + [g0];
        forall i | 0 <= i < |s.grants|
          ensures GrantPair(s.grants[i]) != GrantPair(g0)
        {
          if GrantPair(s.grants[i]) == GrantPair(g0) {
            assert Granted(s.grants, roleId, p0);
          }
        }
        KeysUniqueAppend(s.grants, g0, GrantPair);
        forall i | 0 <= i < |s1.grants|
          ensures Has(s1.roles, RoleId, s1.grants[i].roleId) && Has(s1.permissions, PermissionId, s1.grants[i].permissionId)
        {
          if i < |s.grants| {
            assert s1.grants[i] == s.grants[i];
          }
        }
        InsertGrantsKeepsIntegrity(s1, roleId, permissionIds[1..]);
    }
  }

  /** Adding a role under a fresh id and name, and growing the roles table, keeps the other foreign keys resolving. */
  lemma AddRoleKeepsValid(s: Store, role: Role)
    requires Valid(s)
    requires !Has(s.roles, RoleId, role.id) && !Has(s.roles, RoleName, role.name)
    ensures Valid(s.(roles := s.roles + [role]))
  {
    var s1 := s.(roles := s.roles + [role]);
    KeysUniqueAppend(s.roles, role, RoleId);
    KeysUniqueAppend(s.roles, role, RoleName);
    forall i | 0 <= i < |s.grants|
      ensures Has(s1.roles, RoleId, s.grants[i].roleId)
    {
      HasGrows(s.roles, [role], RoleId, s.grants[i].roleId);
    }
    forall i | 0 <= i < |s.assignments|
      ensures Has(s1.roles, RoleId, s.assignments[i].roleId)
    {
      HasGrows(s.roles, [role], RoleId, s.assignments[i].roleId);
    }
  }

  /** POST keeps every database constraint, names included, whatever it answers. */
  lemma PostRoleKeepsValid(session: Option<Session>, body: NewRole, newId: string, s: Store, fault: bool)
    requires Valid(s)
    ensures Valid(PostRole(session, body, newId, s, fault).store)
  {
    var out := PostRole(session, body, newId, s, fault);
    if out.response.status == StatusOk {
      var role := Role(newId, body.name, body.description);
      var s1 := s.(roles := s.roles + [role]);
      AddRoleKeepsValid(s, role);
      if body.permissions.Some? && |body.permissions.value| > 0 {
        assert Has(s1.roles, RoleId, newId) by {
          assert s1.roles[|s.roles|] == role;
        }
        InsertGrantsKeepsIntegrity(s1, newId, body.permissions.value);
      }
    }
  }

  /** A successful POST grants the new role exactly the requested permissions, in request order. */
  lemma PostRoleGrantsExactlyRequested(session: Option<Session>, body: NewRole, newId: string, s: Store, fault: bool)
    requires GrantsResolve(s)
    requires PostRole(session, body, newId, s, fault).response.status == StatusOk
    ensures GrantsOf(PostRole(session, body, newId, s, fault).store.grants, newId) == NewGrants(newId, Requested(body.permissions))
  {
    var ps := Requested(body.permissions);
    assert !Has(s.roles, RoleId, newId);
    forall i | 0 <= i < |s.grants|
      ensures !GrantOfRole(newId)(s.grants[i])
    {
      assert Has(s.roles, RoleId, s.grants[i].roleId);
    }
    WhereNone(s.grants, GrantOfRole(newId));
    WhereAll(NewGrants(newId, ps), GrantOfRole(newId));
    WhereAppend(s.grants, NewGrants(newId, ps), GrantOfRole(newId));
  }

  /**
   * On a valid store an admitted POST with a new name and a fresh id
   * succeeds exactly when the requested ids name distinct existing
   * permissions: the new role holds no grant that could clash.
   */
  lemma PostRoleSucceedsIff(session: Option<Session>, body: NewRole, newId: string, s: Store)
    requires Valid(s)
    requires Decide(session, [RolesCreate]) == Admitted && body.name != ""
    requires !Has(s.roles, RoleName, body.name) && !Has(s.roles, RoleId, newId)
    ensures PostRole(session, body, newId, s, false).response.status == StatusOk <==>
      && (forall i :: 0 <= i < |Requested(body.permissions)| ==>
            Has(s.permissions, PermissionId, Requested(body.permissions)[i]))
      && Distinct(Requested(body.permissions))
  {
    var s1 := WithRole(s, body, newId);
    var ids := Requested(body.permissions);
    forall k | 0 <= k < |s1.grants|
      ensures s1.grants[k].roleId != newId
    {
      assert Has(s.roles, RoleId, s.grants[k].roleId);
    }
    InsertGrantsCompleteIff(s1, newId, ids);
  }

  /** Renaming one role to a name no other role holds keeps every constraint. */
  lemma RenameKeepsValid(s: Store, id: string, name: string, description: FieldUpdate)
    requires Valid(s)
    requires !NameHeldByOther(s.roles, name, id)
    ensures Valid(s.(roles := Rename(s.roles, id, name, description)))
  {
    var rs := Rename(s.roles, id, name, description);
    var s1 := s.(roles := rs);
    assert forall i :: 0 <= i < |rs| ==> rs[i].id == s.roles[i].id;
    forall i, j | 0 <= i < j < |rs|
      ensures rs[i].name != rs[j].name
    {
      if s.roles[i].id == id {
        assert s.roles[j].id != id;
      } else if s.roles[j].id == id {
        assert s.roles[i].id != id;
      }
    }
    assert forall k :: Has(rs, RoleId, k) <==> Has(s.roles, RoleId, k) by {
      forall k
        ensures Has(rs, RoleId, k) <==> Has(s.roles, RoleId, k)
      {
        if Has(s.roles, RoleId, k) {
          var i :| 0 <= i < |s.roles| && RoleId(s.roles[i]) == k;
          assert RoleId(rs[i]) == k;
        }
      }
    }
  }

  /** Dropping one role's grants keeps every constraint. */
  lemma DropGrantsKeepsValid(s: Store, id: string)
    requires Valid(s)
    ensures Valid(s.(grants := Where(s.grants, GrantNotOfRole(id))))
  {
    var gs := Where(s.grants, GrantNotOfRole(id));
    WhereKeysUnique(s.grants, GrantNotOfRole(id), GrantPair);
    forall i | 0 <= i < |gs|
      ensures Has(s.roles, RoleId, gs[i].roleId) && Has(s.permissions, PermissionId, gs[i].permissionId)
    {
      assert gs[i] in s.grants;
      var k :| 0 <= k < |s.grants| && s.grants[k] == gs[i];
    }
  }

  /**
   * PATCH keeps every database constraint whatever it answers, including
   * the 500 that leaves a partial replacement of the grants behind.
   */
  lemma PatchRoleKeepsValid(session: Option<Session>, body: RoleChange, s: Store, fault: bool)
    requires Valid(s)
    ensures Valid(PatchRole(session, body, s, fault).store)
  {
    if Decide(session, [RolesUpdate]) == Admitted && body.id != "" && body.name != "" && !fault
       && Find(s.roles, RoleId, body.id).Some? && !NameHeldByOther(s.roles, body.name, body.id) {
      ApplyChangeKeepsValid(s, body, Find(s.roles, RoleId, body.id).value);
    }
  }

  /** The writes of an accepted PATCH keep every constraint, however far the grant inserts get. */
  lemma ApplyChangeKeepsValid(s: Store, body: RoleChange, existing: Role)
    requires Valid(s)
    requires Find(s.roles, RoleId, body.id).Some? && !NameHeldByOther(s.roles, body.name, body.id)
    ensures Valid(ApplyChange(s, body, existing).store)
  {
    var s1 := s.(roles := Rename(s.roles, body.id, body.name, body.description));
    RenameKeepsValid(s, body.id, body.name, body.description);
    RenameKeepsRole(s.roles, body.id, body.name, body.description);
    if body.permissions.Some? {
      ReplaceGrantsKeepsValid(s1, body.id, body.permissions.value);
    }
  }

  /** The renamed role is still there under its id. */
  lemma RenameKeepsRole(roles: seq<Role>, id: string, name: string, description: FieldUpdate)
    requires Find(roles, RoleId, id).Some?
    ensures Has(Rename(roles, id, name, description), RoleId, id)
  {
    var i :| 0 <= i < |roles| && roles[i].id == id;
    assert Rename(roles, id, name, description)[i].id == id;
  }

  /** Dropping a role's grants and inserting new ones, however far the inserts get, keeps every constraint. */
  lemma ReplaceGrantsKeepsValid(s: Store, id: string, permissionIds: seq<string>)
    requires Valid(s)
    requires Has(s.roles, RoleId, id)
    ensures Valid(s.(grants := Where(s.grants, GrantNotOfRole(id))))
    ensures Valid(InsertGrants(s.(grants := Where(s.grants, GrantNotOfRole(id))), id, permissionIds).store)
  {
    var s2 := s.(grants := Where(s.grants, GrantNotOfRole(id)));
    DropGrantsKeepsValid(s, id);
    InsertGrantsKeepsIntegrity(s2, id, permissionIds);
  }

  /**
   * A successful PATCH with a permission list leaves the role holding
   * exactly that list, in order; every other role keeps its grant rows.
   */
  lemma PatchRoleReplacesGrants(session: Option<Session>, body: RoleChange, s: Store, fault: bool, other: string)
    requires body.permissions.Some?
    requires PatchRole(session, body, s, fault).response.status == StatusOk
    requires other != body.id
    ensures GrantsOf(PatchRole(session, body, s, fault).store.grants, body.id) == NewGrants(body.id, body.permissions.value)
    ensures GrantsOf(PatchRole(session, body, s, fault).store.grants, other) == GrantsOf(s.grants, other)
  {
    var id := body.id;
    var ps := body.permissions.value;
    var kept := Where(s.grants, GrantNotOfRole(id));
    WhereAppend(kept, NewGrants(id, ps), GrantOfRole(id));
    forall i | 0 <= i < |kept|
      ensures !GrantOfRole(id)(kept[i])
    {
      assert kept[i] in kept;
    }
    WhereNone(kept, GrantOfRole(id));
    WhereAll(NewGrants(id, ps), GrantOfRole(id));
    WhereAppend(kept, NewGrants(id, ps), GrantOfRole(other));
    WhereNone(NewGrants(id, ps), GrantOfRole(other));
    WhereWhere(s.grants, GrantNotOfRole(id), GrantOfRole(other));
  }

  /**
   * On a valid store an admitted PATCH of an existing role to a name no
   * other role holds succeeds exactly when it carries no list, or a list
   * of distinct existing permission ids: the role's old grants are gone
   * before the inserts, so none of them can clash.
   */
  lemma PatchRoleSucceedsIff(session: Option<Session>, body: RoleChange, s: Store)
    requires Valid(s)
    requires Decide(session, [RolesUpdate]) == Admitted && body.id != "" && body.name != ""
    requires Has(s.roles, RoleId, body.id) && !NameHeldByOther(s.roles, body.name, body.id)
    ensures PatchRole(session, body, s, false).response.status == StatusOk <==>
      || body.permissions.None?
      || (&& (forall i :: 0 <= i < |body.permissions.value| ==>
                Has(s.permissions, PermissionId, body.permissions.value[i]))
          && Distinct(body.permissions.value))
  {
    if body.permissions.Some? {
      var ids := body.permissions.value;
      var c := Cleared(s, body);
      forall k | 0 <= k < |c.grants|
        ensures c.grants[k].roleId != body.id
      {
        assert c.grants[k] in c.grants;
      }
      InsertGrantsCompleteIff(c, body.id, ids);
    }
  }

  /** Keeping a role's own name is no clash: in a valid store no other role holds it. */
  lemma OwnNameIsFree(s: Store, i: int)
    requires Valid(s) && 0 <= i < |s.roles|
    ensures !NameHeldByOther(s.roles, s.roles[i].name, s.roles[i].id)
  {
    forall j | 0 <= j < |s.roles| && j != i
      ensures s.roles[j].name != s.roles[i].name
    {
      if j < i {
        assert RoleName(s.roles[j]) != RoleName(s.roles[i]);
      } else {
        assert RoleName(s.roles[i]) != RoleName(s.roles[j]);
      }
    }
  }

  /** A PATCH that keeps the role's own name and sends no list succeeds on a valid store. */
  lemma PatchKeepingOwnNameSucceeds(session: Option<Session>, s: Store, i: int, description: FieldUpdate)
    requires Valid(s) && 0 <= i < |s.roles|
    requires Decide(session, [RolesUpdate]) == Admitted && s.roles[i].id != "" && s.roles[i].name != ""
    ensures PatchRole(session, RoleChange(s.roles[i].id, s.roles[i].name, description, None), s, false).response.status
      == StatusOk
  {
    OwnNameIsFree(s, i);
    assert Has(s.roles, RoleId, s.roles[i].id) by {
      assert RoleId(s.roles[i]) == s.roles[i].id;
    }
    PatchRoleSucceedsIff(session, RoleChange(s.roles[i].id, s.roles[i].name, description, None), s);
  }

  /**
   * A successful DELETE removes the role and every join row that points
   * at it, and keeps every other row of every table.
   */
  lemma DeleteRoleCascades(session: Option<Session>, path: string, s: Store, fault: bool)
    requires DeleteRole(session, path, s, fault).response.status == StatusNoContent
    ensures var id := TargetRole(path).value;
      var t := DeleteRole(session, path, s, fault).store;
      && !Has(t.roles, RoleId, id)
      && (forall g :: g in t.grants <==> g in s.grants && g.roleId != id)
      && (forall a :: a in t.assignments <==> a in s.assignments && a.roleId != id)
      && (forall r :: r in t.roles <==> r in s.roles && r.id != id)
      && t.permissions == s.permissions && t.users == s.users
  {
    var id := TargetRole(path).value;
    var t := DeleteRole(session, path, s, fault).store;
    forall i | 0 <= i < |t.roles|
      ensures RoleId(t.roles[i]) != id
    {
      assert t.roles[i] in t.roles;
    }
  }

  /** The store the DELETE cascade leaves: the role, its grant rows and its assignments gone, the rest kept. */
  function Cascade(s: Store, id: string): (c: Store)
    ensures c.permissions == s.permissions && c.users == s.users
    ensures forall r :: r in c.roles <==> r in s.roles && r.id != id
    ensures forall g :: g in c.grants <==> g in s.grants && g.roleId != id
    ensures forall a :: a in c.assignments <==> a in s.assignments && a.roleId != id
  {
    Store(Where(s.roles, RoleOtherThan(id)), s.permissions, s.users,
          Where(s.grants, GrantNotOfRole(id)), Where(s.assignments, AssignmentNotOfRole(id)))
  }

  /** After the cascade every remaining grant row still points at a role and a permission. */
  lemma CascadeGrantsResolve(s: Store, id: string)
    requires GrantsResolve(s)
    ensures GrantsResolve(Cascade(s, id))
  {
    var t := Cascade(s, id);
    forall i | 0 <= i < |t.grants|
      ensures Has(t.roles, RoleId, t.grants[i].roleId) && Has(t.permissions, PermissionId, t.grants[i].permissionId)
    {
      var g := t.grants[i];
      assert g in t.grants;
      var k :| 0 <= k < |s.grants| && s.grants[k] == g;
      var j :| 0 <= j < |s.roles| && RoleId(s.roles[j]) == g.roleId;
      assert s.roles[j] in t.roles;
      var m :| 0 <= m < |t.roles| && t.roles[m] == s.roles[j];
    }
  }

  /** After the cascade every remaining assignment still points at a user and a role. */
  lemma CascadeAssignmentsResolve(s: Store, id: string)
    requires AssignmentsResolve(s)
    ensures AssignmentsResolve(Cascade(s, id))
  {
    var t := Cascade(s, id);
    forall i | 0 <= i < |t.assignments|
      ensures Has(t.users, UserId, t.assignments[i].userId) && Has(t.roles, RoleId, t.assignments[i].roleId)
    {
      var a := t.assignments[i];
      assert a in t.assignments;
      var k :| 0 <= k < |s.assignments| && s.assignments[k] == a;
      var j :| 0 <= j < |s.roles| && RoleId(s.roles[j]) == a.roleId;
      assert s.roles[j] in t.roles;
      var m :| 0 <= m < |t.roles| && t.roles[m] == s.roles[j];
    }
  }

  /** DELETE keeps every database constraint: the cascade leaves no dangling join row. */
  lemma DeleteRoleKeepsValid(session: Option<Session>, path: string, s: Store, fault: bool)
    requires Valid(s)
    ensures Valid(DeleteRole(session, path, s, fault).store)
  {
    var out := DeleteRole(session, path, s, fault);
    if out.response.status == StatusNoContent {
      var id := TargetRole(path).value;
      assert out.store == Cascade(s, id);
      WhereKeysUnique(s.roles, RoleOtherThan(id), RoleId);
      WhereKeysUnique(s.roles, RoleOtherThan(id), RoleName);
      WhereKeysUnique(s.grants, GrantNotOfRole(id), GrantPair);
      WhereKeysUnique(s.assignments, AssignmentNotOfRole(id), AssignmentPair);
      CascadeGrantsResolve(s, id);
      CascadeAssignmentsResolve(s, id);
    }
  }
}
