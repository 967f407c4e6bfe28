/**
 * The create-role page (`src/app/dashboard/roles/create/page.tsx`): the
 * permission checkboxes toggle ids in `selectedPermissions`, and the
 * submitted body carries that list unchanged to the roles route.
 */
module RoleForm {
  import opened Wrappers
  import opened Tables
  import opened Auth
  import opened Http
  import opened Client
  import RolesApi

  const RolesListPath := "/dashboard/roles"

  /** `handlePermissionChange`: remove every occurrence of a selected id, append an unselected one. */
  function Toggle(selected: seq<string>, id: string): (r: seq<string>)
    ensures id in r <==> id !in selected
    ensures forall y :: y != id ==> (y in r <==> y in selected)
  {
    if id in selected then Without(selected, id) else selected + [id]
  }

  /** The other ids are untouched and keep their relative order. */
  lemma ToggleKeepsOthers(selected: seq<string>, id: string)
    ensures Without(Toggle(selected, id), id) == Without(selected, id)
  {
    if id in selected {
      WithoutIdempotent(selected, id);
    } else {
      WithoutAppend(selected, [id], id);
      assert Without([id], id) == [];
      assert Without(selected, id) + [] == Without(selected, id);
    }
  }

  /** Toggling an unselected id on and off again restores the list exactly. */
  lemma ToggleTwiceRestores(selected: seq<string>, id: string)
    requires id !in selected
    ensures Toggle(Toggle(selected, id), id) == selected
  {
    WithoutAppend(selected, [id], id);
    WithoutAbsent(selected, id);
    assert Without([id], id) == [];
    assert selected + [] == selected;
  }

  /** Toggling keeps the selection free of duplicates. */
  lemma ToggleKeepsDistinct(selected: seq<string>, id: string)
    requires Distinct(selected)
    ensures Distinct(Toggle(selected, id))
  {
    if id in selected {
      WithoutKeepsDistinct(selected, id);
    } else {
      var r := selected + [id];
      forall i, j | 0 <= i < j < |r| ensures r[i] != r[j] {
        if j == |selected| {
          assert r[i] == selected[i];
        } else {
          assert r[i] == selected[i] && r[j] == selected[j];
        }
      }
    }
  }

  /**
   * The body `handleSubmit` posts: `{ name, description, permissions:
   * selectedPermissions }`. The description field is always a string.
   */
  function Submission(name: string, description: string, selected: seq<string>): (body: RolesApi.NewRole)
    ensures RolesApi.Requested(body.permissions) == selected
    ensures body.name == name && body.description == Some(description)
  {
    RolesApi.NewRole(name, Some(description), Some(selected))
  }

  /** A successful submission grants the new role exactly the selected permissions, in order. */
  lemma SubmittedSelectionIsGranted(session: Option<Session>, name: string, description: string,
                                    selected: seq<string>, newId: string, s: Store, fault: bool)
    requires RolesApi.PostRole(session, Submission(name, description, selected), newId, s, fault).response.status == StatusOk
    ensures RolesApi.PostRole(session, Submission(name, description, selected), newId, s, fault).store.grants
      == s.grants + RolesApi.NewGrants(newId, selected)
  {
  }

  /** What the page's effect does with the session. */
  function PageEffect(status: SessionStatus, session: Option<Session>): (e: Effect)
    ensures status == SignedIn && session.Some? && session.value.user.permissions.Some? ==>
      (e == LoadData <==> RolesApi.RolesCreate in session.value.user.permissions.value)
  {
    CreatePageEffect(status, session, RolesApi.RolesCreate, RolesListPath)
  }
}
