/**
 * The create-user page (`src/app/dashboard/users/create/page.tsx`): the
 * form state, its field updaters, the role checkboxes and the effect
 * that keeps users without `users:create` away from the form.
 */
module UserForm {
  import opened Wrappers
  import opened Auth
  import opened Client
  import RoleForm

  const UsersCreate := "users:create"
  const UsersListPath := "/dashboard/users"

  /** The page's `formData`, which is also the body it posts. */
  datatype FormData = FormData(name: string, email: string, password: string, selectedRoles: seq<string>)

  const InitialForm := FormData("", "", "", [])

  /** The name input's `onChange`: `{ ...prev, name: value }`. */
  function SetName(f: FormData, value: string): (g: FormData)
    ensures g.name == value
    ensures g.email == f.email && g.password == f.password && g.selectedRoles == f.selectedRoles
  {
    f.(name := value)
  }

  /** The email input's `onChange`: `{ ...prev, email: value }`. */
  function SetEmail(f: FormData, value: string): (g: FormData)
    ensures g.email == value
    ensures g.name == f.name && g.password == f.password && g.selectedRoles == f.selectedRoles
  {
    f.(email := value)
  }

  /** The password input's `onChange`: `{ ...prev, password: value }`. */
  function SetPassword(f: FormData, value: string): (g: FormData)
    ensures g.password == value
    ensures g.name == f.name && g.email == f.email && g.selectedRoles == f.selectedRoles
  {
    f.(password := value)
  }

  /**
   * A role checkbox's `onCheckedChange`: checking appends the role id,
   * unchecking drops every occurrence of it.
   */
  function CheckRole(f: FormData, roleId: string, checked: bool): (g: FormData)
    ensures g.name == f.name && g.email == f.email && g.password == f.password
    ensures checked ==> roleId in g.selectedRoles && |g.selectedRoles| == |f.selectedRoles| + 1
    ensures !checked ==> roleId !in g.selectedRoles
    ensures forall y :: y != roleId ==> (y in g.selectedRoles <==> y in f.selectedRoles)
  {
    f.(selectedRoles := if checked then f.selectedRoles + [roleId] else Without(f.selectedRoles, roleId))
  }

  /** The three text updaters commute: each writes only its own field. */
  lemma TextUpdatersCommute(f: FormData, name: string, email: string, password: string)
    ensures SetEmail(SetName(f, name), email) == SetName(SetEmail(f, email), name)
    ensures SetPassword(SetName(f, name), password) == SetName(SetPassword(f, password), name)
    ensures SetPassword(SetEmail(f, email), password) == SetEmail(SetPassword(f, password), email)
  {
  }

  /** A role checkbox and a text updater commute. */
  lemma CheckRoleCommutesWithText(f: FormData, roleId: string, checked: bool, value: string)
    ensures CheckRole(SetName(f, value), roleId, checked) == SetName(CheckRole(f, roleId, checked), value)
  {
  }

  /**
   * The checkbox shows `selectedRoles.includes(role.id)`, so a click asks
   * for the opposite state; with that, a click is the create-role page's toggle.
   */
  lemma CheckboxClickIsToggle(f: FormData, roleId: string)
    ensures CheckRole(f, roleId, roleId !in f.selectedRoles).selectedRoles == RoleForm.Toggle(f.selectedRoles, roleId)
  {
  }

  /** Checking a role and unchecking it again leaves the other ids as they were, in order. */
  lemma CheckThenUncheck(f: FormData, roleId: string)
    ensures CheckRole(CheckRole(f, roleId, true), roleId, false).selectedRoles == Without(f.selectedRoles, roleId)
  {
    WithoutAppend(f.selectedRoles, [roleId], roleId);
    assert Without([roleId], roleId) == [];
    assert Without(f.selectedRoles, roleId) + [] == Without(f.selectedRoles, roleId);
  }

  /** What the page's effect does with the session. */
  function PageEffect(status: SessionStatus, session: Option<Session>): (e: Effect)
    ensures status == SignedIn && session.Some? && session.value.user.permissions.Some? ==>
      (e == LoadData <==> UsersCreate in session.value.user.permissions.value)
  {
    CreatePageEffect(status, session, UsersCreate, UsersListPath)
  }

  /** An authenticated user without `users:create` is sent back to the users list. */
  lemma WithoutUsersCreateRedirected(session: Session)
    requires session.user.permissions.Some?
    requires UsersCreate !in session.user.permissions.value
    ensures PageEffect(SignedIn, Some(session)) == Redirect(UsersListPath)
  {
    LackingPermissionRedirects(session, UsersCreate, UsersListPath);
  }
}
