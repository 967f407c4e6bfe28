/**
 * Sign-in and session claims (`src/lib/auth.ts`): the credentials
 * provider's `authorize`, which turns a user's role assignments into a
 * list of role names and a flattened list of permission names, and the
 * `jwt` and `session` callbacks that carry those claims from the token
 * into the session.
 */
module Auth {
  import opened Wrappers
  import opened Tables

  /** The submitted credentials; "" stands for a missing or empty field. */
  datatype Credentials = Credentials(email: string, password: string)

  /** A role together with its granted permissions, as loaded by the nested `include`. */
  datatype LoadedRole = LoadedRole(role: Role, permissions: seq<Permission>)

  /** A user together with its assigned roles, as loaded by the nested `include`. */
  datatype LoadedUser = LoadedUser(user: User, roles: seq<LoadedRole>)

  /** The next-auth `User` that `authorize` returns. */
  datatype AuthUser = AuthUser(
    id: string,
    name: Option<string>,
    email: string,
    image: Option<string>,
    roles: seq<string>,
    permissions: seq<string>)

  // ---- loading ---------------------------------------------------------------

  function LoadRole(s: Store, r: Role): LoadedRole {
    LoadedRole(r, GrantedPermissions(s, r.id))
  }

  function LoadRoles(s: Store, rs: seq<Role>): (lrs: seq<LoadedRole>)
    ensures |lrs| == |rs|
    ensures forall i :: 0 <= i < |rs| ==> lrs[i] == LoadRole(s, rs[i])
  {
    seq(|rs|, i requires 0 <= i < |rs| => LoadRole(s, rs[i]))
  }

  /**
   * `findUnique({ where: { email }, include: { userrole: { include: { role: { include: { rolepermission: ... }}}}}})`:
   * the user with at most one loaded role per assignment row, every role and
   * permission loaded being a stored row.
   */
  function LoadUser(s: Store, u: User): (lu: LoadedUser)
    ensures lu.user == u
    ensures |lu.roles| <= |AssignmentsOf(s.assignments, u.id)|
    ensures forall i :: 0 <= i < |lu.roles| ==> lu.roles[i].role in s.roles
    ensures forall i, j :: 0 <= i < |lu.roles| && 0 <= j < |lu.roles[i].permissions| ==>
      lu.roles[i].permissions[j] in s.permissions
  {
    var rs := AssignedRoles(s, u.id);
    var lrs := LoadRoles(s, rs);
    assert forall i :: 0 <= i < |rs| ==> rs[i] in s.roles;
    assert forall i, j :: 0 <= i < |lrs| && 0 <= j < |lrs[i].permissions| ==>
      lrs[i].permissions[j] in GrantedPermissions(s, rs[i].id);
    LoadedUser(u, lrs)
  }

  // ---- claims ----------------------------------------------------------------


  /** `user.userrole.map(ur => ur.role.name)` */
  function RoleNames(lrs: seq<LoadedRole>): (names: seq<string>)
    ensures |names| == |lrs|
    ensures forall i :: 0 <= i < |lrs| ==> names[i] == lrs[i].role.name
  {
    seq(|lrs|, i requires 0 <= i < |lrs| => lrs[i].role.name)
  }

  /** `user.userrole.flatMap(ur => ur.role.rolepermission.map(rp => rp.permission.name))` */
  function FlatPermissionNames(lrs: seq<LoadedRole>): seq<string>
    decreases |lrs|
  {
    if |lrs| == 0 then [] else Column(lrs[0].permissions, PermissionName) + FlatPermissionNames(lrs[1..])
  }

  /** Total number of grant rows across the loaded roles. */
  function GrantCount(lrs: seq<LoadedRole>): nat
    decreases |lrs|
  {
    if |lrs| == 0 then 0 else |lrs[0].permissions| + GrantCount(lrs[1..])
  }

  /**
   * The claims object built once the password has been accepted: the
   * user's columns, one role name per loaded role and one permission name
   * per grant row, duplicates kept.
   */
  function Claims(lu: LoadedUser): (c: AuthUser)
    ensures c.id == lu.user.id && c.name == lu.user.name && c.email == lu.user.email && c.image == lu.user.image
    ensures |c.roles| == |lu.roles|
    ensures |c.permissions| == GrantCount(lu.roles)
  {
    FlatKeepsDuplicates(lu.roles);
    AuthUser(lu.user.id, lu.user.name, lu.user.email, lu.user.image,
             RoleNames(lu.roles), FlatPermissionNames(lu.roles))
  }

  /**
   * `authorize(credentials)`. `passwordMatches(plain, hash)` stands for
   * bcrypt's `compare`. Missing credentials answer null before any lookup;
   * an unknown email, a user without a (non-empty) stored password, or a
   * failed comparison answer null too.
   */
  function Authorize(creds: Option<Credentials>, s: Store, passwordMatches: (string, string) -> bool): (r: Option<AuthUser>)
    ensures creds.None? || creds.value.email == "" || creds.value.password == "" ==> r.None?
    ensures r.Some? ==>
      exists u :: u in s.users && u.email == creds.value.email && u.password.Some? && u.password.value != ""
        && passwordMatches(creds.value.password, u.password.value) && r.value == Claims(LoadUser(s, u))
    ensures creds.Some? && creds.value.email != "" && creds.value.password != "" && !Has(s.users, UserEmail, creds.value.email)
      ==> r.None?
  {
    match creds
    case None => None
    case Some(c) =>
      if c.email == "" || c.password == "" then None
      else
        match Find(s.users, UserEmail, c.email)
        case None => None
        case Some(u) =>
          match u.password
          case None => None
          case Some(hash) =>
            if hash == "" then None
            else if !passwordMatches(c.password, hash) then None
            else Some(Claims(LoadUser(s, u)))
  }

  /** With an email, a password, and a user whose stored hash accepts it, sign-in succeeds. */
  lemma AuthorizeSucceeds(c: Credentials, s: Store, passwordMatches: (string, string) -> bool, i: int)
    requires KeysUnique(s.users, UserEmail)
    requires 0 <= i < |s.users| && s.users[i].email == c.email
    requires c.email != "" && c.password != ""
    requires s.users[i].password.Some? && s.users[i].password.value != ""
    requires passwordMatches(c.password, s.users[i].password.value)
    ensures Authorize(Some(c), s, passwordMatches) == Some(Claims(LoadUser(s, s.users[i])))
  {
    FindUnique(s.users, UserEmail, i);
  }

  /** Missing credentials never look at the store: the answer is the same for every store. */
  lemma MissingCredentialsNeedNoLookup(creds: Option<Credentials>, s1: Store, s2: Store, passwordMatches: (string, string) -> bool)
    requires creds.None? || creds.value.email == "" || creds.value.password == ""
    ensures Authorize(creds, s1, passwordMatches) == Authorize(creds, s2, passwordMatches) == None
  {
  }

  /** The role claim has exactly one entry per loaded assignment: its role's name, in order. */
  lemma ClaimsRolesPerAssignment(lu: LoadedUser)
    ensures |Claims(lu).roles| == |lu.roles|
    ensures forall i :: 0 <= i < |lu.roles| ==> Claims(lu).roles[i] == lu.roles[i].role.name
  {
  }

  /** Flattening distributes over concatenation of the role list. */
  lemma {:induction false} FlatAppend(a: seq<LoadedRole>, b: seq<LoadedRole>)
    ensures FlatPermissionNames(a + b) == FlatPermissionNames(a) + FlatPermissionNames(b)
    decreases |a|
  {
    if |a| == 0 {
      assert a + b == b;
    } else {
      assert (a + b)[1..] == a[1..] + b;
      FlatAppend(a[1..], b);
    }
  }

  /** A name is claimed iff some assigned role grants a permission of that name. */
  lemma {:induction false} FlatMembership(lrs: seq<LoadedRole>, name: string)
    ensures name in FlatPermissionNames(lrs) <==>
      exists i, j :: 0 <= i < |lrs| && 0 <= j < |lrs[i].permissions| && lrs[i].permissions[j].name == name
    decreases |lrs|
  {
    if |lrs| > 0 {
      FlatMembership(lrs[1..], name);
      var head := Column(lrs[0].permissions, PermissionName);
      if name in head {
        var j :| 0 <= j < |head| && head[j] == name;
        assert lrs[0].permissions[j].name == name;
      }
      if exists i, j :: 0 <= i < |lrs| && 0 <= j < |lrs[i].permissions| && lrs[i].permissions[j].name == name {
        var i, j :| 0 <= i < |lrs| && 0 <= j < |lrs[i].permissions| && lrs[i].permissions[j].name == name;
        if i == 0 {
          assert head[j] == name;
        } else {
          assert lrs[1..][i - 1] == lrs[i];
        }
      }
      if name in FlatPermissionNames(lrs[1..]) {
        var i, j :| 0 <= i < |lrs[1..]| && 0 <= j < |lrs[1..][i].permissions| && lrs[1..][i].permissions[j].name == name;
        assert lrs[i + 1] == lrs[1..][i];
      }
    }
  }

  /** Duplicates across roles are kept: the claim has one entry per grant row of every assigned role. */
  lemma {:induction false} FlatKeepsDuplicates(lrs: seq<LoadedRole>)
    ensures |FlatPermissionNames(lrs)| == GrantCount(lrs)
    decreases |lrs|
  {
    if |lrs| > 0 {
      FlatKeepsDuplicates(lrs[1..]);
    }
  }

  /** The claimed set of names does not depend on the order of the roles. */
  lemma ClaimedSetIgnoresRoleOrder(a: seq<LoadedRole>, b: seq<LoadedRole>)
    ensures (set n | n in FlatPermissionNames(a + b)) == (set n | n in FlatPermissionNames(b + a))
  {
    FlatAppend(a, b);
    FlatAppend(b, a);
  }

  /** A user with no role assignments gets empty claims. */
  lemma NoRolesNoClaims(lu: LoadedUser)
    requires lu.roles == []
    ensures Claims(lu).roles == [] && Claims(lu).permissions == []
  {
  }

  /**
   * The relational reading of a user's effective permissions: some
   * assignment of the user names an existing role, some grant of that
   * role names an existing permission, and that permission is called `name`.
   */
  predicate Effective(s: Store, userId: string, name: string) {
    exists a, r, g, p ::
      a in s.assignments && r in s.roles && g in s.grants && p in s.permissions &&
      a.userId == userId && r.id == a.roleId && g.roleId == r.id && p.id == g.permissionId && p.name == name
  }

  /** Every claimed name is effective. */
  lemma ClaimedIsEffective(s: Store, u: User, name: string)
    requires KeysUnique(s.roles, RoleId) && KeysUnique(s.permissions, PermissionId)
    requires name in Claims(LoadUser(s, u)).permissions
    ensures Effective(s, u.id, name)
  {
    var roles := AssignedRoles(s, u.id);
    var lrs := LoadRoles(s, roles);
    FlatMembership(lrs, name);
    var i, j :| 0 <= i < |lrs| && 0 <= j < |lrs[i].permissions| && lrs[i].permissions[j].name == name;
    var r := roles[i];
    var p := lrs[i].permissions[j];
    FollowMembership(AssignmentsOf(s.assignments, u.id), AssignedRole, s.roles, RoleId, r);
    var a :| a in AssignmentsOf(s.assignments, u.id) && AssignedRole(a) == RoleId(r);
    FollowMembership(GrantsOf(s.grants, r.id), GrantPermission, s.permissions, PermissionId, p);
    var g :| g in GrantsOf(s.grants, r.id) && GrantPermission(g) == PermissionId(p);
    assert a in s.assignments && r in s.roles && g in s.grants && p in s.permissions;
  }

  /** Every effective name is claimed: the witnessing rows put it in the claim. */
  lemma EffectiveIsClaimed(s: Store, u: User, a: Assignment, r: Role, g: Grant, p: Permission)
    requires KeysUnique(s.roles, RoleId) && KeysUnique(s.permissions, PermissionId)
    requires a in s.assignments && r in s.roles && g in s.grants && p in s.permissions
    requires a.userId == u.id && r.id == a.roleId && g.roleId == r.id && p.id == g.permissionId
    ensures p.name in Claims(LoadUser(s, u)).permissions
  {
    var roles := AssignedRoles(s, u.id);
    var as_ := AssignmentsOf(s.assignments, u.id);
    assert a in as_;
    FollowMembership(as_, AssignedRole, s.roles, RoleId, r);
    var i :| 0 <= i < |roles| && roles[i] == r;
    var gs := GrantsOf(s.grants, r.id);
    assert g in gs;
    FollowMembership(gs, GrantPermission, s.permissions, PermissionId, p);
    var lrs := LoadRoles(s, roles);
    assert lrs[i].permissions == GrantedPermissions(s, r.id);
    var j :| 0 <= j < |lrs[i].permissions| && lrs[i].permissions[j] == p;
    FlatMembership(lrs, p.name);
  }

  /**
   * Sign-in resolves exactly the effective permissions: in a valid store
   * a name is in the claimed permission list iff the user's roles grant a
   * permission of that name.
   */
  lemma ClaimsAreEffective(s: Store, u: User, name: string)
    requires Valid(s)
    ensures name in Claims(LoadUser(s, u)).permissions <==> Effective(s, u.id, name)
  {
    if name in Claims(LoadUser(s, u)).permissions {
      ClaimedIsEffective(s, u, name);
    }
    if Effective(s, u.id, name) {
      var a, r, g, p :|
        a in s.assignments && r in s.roles && g in s.grants && p in s.permissions &&
        a.userId == u.id && r.id == a.roleId && g.roleId == r.id && p.id == g.permissionId && p.name == name;
      EffectiveIsClaimed(s, u, a, r, g, p);
    }
  }

  // ---- token and session -------------------------------------------------------

  /** The `trigger` argument of the `jwt` callback. */
  datatype Trigger = SignIn | SignUp | Update | NoTrigger

  /**
   * The JWT payload: the claims this application stores (each possibly
   * absent) plus whatever other fields next-auth keeps (`sub`, `picture`,
   * `iat`, ...), which this code never touches.
   */
  datatype Token = Token(
    id: Option<string>,
    name: Option<string>,
    email: Option<string>,
    image: Option<string>,
    roles: Option<seq<string>>,
    permissions: Option<seq<string>>,
    rest: map<string, string>)

  /** `session.user`; a field that is `None` is absent. */
  datatype SessionUser = SessionUser(
    id: Option<string>,
    name: Option<string>,
    email: Option<string>,
    image: Option<string>,
    roles: Option<seq<string>>,
    permissions: Option<seq<string>>)

  datatype Session = Session(user: SessionUser, expires: string)

  /** Object spread of one field: a present field overrides, an absent one keeps the base. */
  function Over<T>(top: Option<T>, base: Option<T>): Option<T> {
    if top.Some? then top else base
  }

  /**
   * `t` is `token` spread over by `u`: each of the six user fields is `u`'s
   * when `u` carries it and the token's otherwise; nothing else differs.
   */
  predicate SpreadOver(t: Token, token: Token, u: SessionUser) {
    && t.rest == token.rest
    && (u.id.Some? ==> t.id == u.id) && (u.id.None? ==> t.id == token.id)
    && (u.name.Some? ==> t.name == u.name) && (u.name.None? ==> t.name == token.name)
    && (u.email.Some? ==> t.email == u.email) && (u.email.None? ==> t.email == token.email)
    && (u.image.Some? ==> t.image == u.image) && (u.image.None? ==> t.image == token.image)
    && (u.roles.Some? ==> t.roles == u.roles) && (u.roles.None? ==> t.roles == token.roles)
    && (u.permissions.Some? ==> t.permissions == u.permissions) && (u.permissions.None? ==> t.permissions == token.permissions)
  }

  /** `{ ...token, ...session.user }` */
  function Overlay(token: Token, u: SessionUser): (t: Token)
    ensures SpreadOver(t, token, u)
  {
    token.(id := Over(u.id, token.id), name := Over(u.name, token.name), email := Over(u.email, token.email),
           image := Over(u.image, token.image), roles := Over(u.roles, token.roles),
           permissions := Over(u.permissions, token.permissions))
  }

  /** The `jwt` callback. */
  function Jwt(token: Token, user: Option<AuthUser>, trigger: Trigger, session: Option<Session>): (t: Token)
    ensures t.rest == token.rest
    ensures trigger == Update && session.Some? ==> SpreadOver(t, token, session.value.user)
    ensures !(trigger == Update && session.Some?) && user.Some? ==>
      && t.id == Some(user.value.id) && t.name == user.value.name && t.email == Some(user.value.email)
      && t.image == user.value.image && t.roles == Some(user.value.roles)
      && t.permissions == Some(user.value.permissions)
    ensures !(trigger == Update && session.Some?) && user.None? ==> t == token
  {
    if trigger == Update && session.Some? then Overlay(token, session.value.user)
    else if user.Some? then
      var u := user.value;
      token.(id := Some(u.id), name := u.name, email := Some(u.email), image := u.image,
             roles := Some(u.roles), permissions := Some(u.permissions))
    else token
  }

  /** The spread is determined field by field: only one token is `token` spread over by `u`. */
  lemma SpreadOverUnique(t1: Token, t2: Token, token: Token, u: SessionUser)
    requires SpreadOver(t1, token, u) && SpreadOver(t2, token, u)
    ensures t1 == t2
  {
  }

  /** Spreading the same session user twice changes nothing the first spread did not. */
  lemma OverlayIdempotent(token: Token, u: SessionUser)
    ensures Overlay(Overlay(token, u), u) == Overlay(token, u)
  {
    var once := Overlay(token, u);
    SpreadOverUnique(Overlay(once, u), once, once, u);
  }

  /** An update whose session user carries no field leaves the token as it was. */
  lemma EmptyUpdateKeepsToken(token: Token, user: Option<AuthUser>, session: Session)
    requires session.user == SessionUser(None, None, None, None, None, None)
    ensures Jwt(token, user, Update, Some(session)) == token
  {
    SpreadOverUnique(Jwt(token, user, Update, Some(session)), token, token, session.user);
  }

  /** The `session` callback: copies `id`, `roles` and `permissions` from the token. */
  function SessionCallback(session: Session, token: Option<Token>): (r: Session)
    ensures r.expires == session.expires
    ensures r.user.name == session.user.name && r.user.email == session.user.email && r.user.image == session.user.image
    ensures token.Some? ==>
      r.user.id == token.value.id && r.user.roles == token.value.roles && r.user.permissions == token.value.permissions
    ensures token.None? ==> r == session
  {
    match token
    case None => session
    case Some(t) => session.(user := session.user.(id := t.id, roles := t.roles, permissions := t.permissions))
  }

  /**
   * Sign-in round trip: the claims `authorize` produced reach the session
   * unchanged, whatever the token and session held before.
   */
  lemma SignInReachesSession(token: Token, user: AuthUser, trigger: Trigger, session: Session)
    requires trigger != Update
    ensures var t := Jwt(token, Some(user), trigger, None);
      var s := SessionCallback(session, Some(t));
      s.user.id == Some(user.id) && s.user.roles == Some(user.roles) && s.user.permissions == Some(user.permissions)
  {
  }

  /**
   * Claims are stale until refreshed: a `jwt` call with neither a user nor
   * an update leaves the claims the session will see as they were, whatever
   * has happened to the store since sign-in.
   */
  lemma ClaimsStayUntilRefresh(token: Token, trigger: Trigger, update: Option<Session>, session: Session)
    requires !(trigger == Update && update.Some?)
    ensures SessionCallback(session, Some(Jwt(token, None, trigger, update))).user.permissions == token.permissions
  {
  }
}
