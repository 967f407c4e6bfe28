/**
 * What the two "create" pages of the dashboard share: removing an id from
 * a selection list (`prev.filter((id) => id !== x)`) and the effect that
 * decides, from the session, whether the page may load its data.
 */
module Client {
  import opened Wrappers
  import opened Tables
  import opened Authz
  import opened Auth

  /** `xs.filter((y) => y !== id)`: every occurrence of `id` dropped, the rest in order. */
  function Without(xs: seq<string>, id: string): (r: seq<string>)
    ensures |r| <= |xs|
    ensures id !in r
    ensures forall y :: y in r <==> y in xs && y != id
    decreases |xs|
  {
    if |xs| == 0 then []
    else (if xs[0] == id then [] else [xs[0]]) + Without(xs[1..], id)
  }

  /** Filtering an id that is absent changes nothing. */
  lemma {:induction false} WithoutAbsent(xs: seq<string>, id: string)
    requires id !in xs
    ensures Without(xs, id) == xs
    decreases |xs|
  {
    if |xs| > 0 {
      WithoutAbsent(xs[1..], id);
    }
  }

  /** Filtering distributes over concatenation, so the survivors keep their relative order. */
  lemma {:induction false} WithoutAppend(a: seq<string>, b: seq<string>, id: string)
    ensures Without(a + b, id) == Without(a, id) + Without(b, id)
    decreases |a|
  {
    if |a| > 0 {
      assert (a + b)[1..] == a[1..] + b;
      WithoutAppend(a[1..], b, id);
    } else {
      assert a + b == b;
    }
  }

  /** Filtering twice by the same id is filtering once. */
  lemma WithoutIdempotent(xs: seq<string>, id: string)
    ensures Without(Without(xs, id), id) == Without(xs, id)
  {
    WithoutAbsent(Without(xs, id), id);
  }

  /** Filtering keeps a list free of duplicates. */
  lemma {:induction false} WithoutKeepsDistinct(xs: seq<string>, id: string)
    requires Distinct(xs)
    ensures Distinct(Without(xs, id))
    decreases |xs|
  {
    if |xs| > 0 {
      assert Distinct(xs[1..]) by {
        forall i, j | 0 <= i < j < |xs[1..]| ensures xs[1..][i] != xs[1..][j] {
          assert xs[1..][i] == xs[i + 1] && xs[1..][j] == xs[j + 1];
        }
      }
      WithoutKeepsDistinct(xs[1..], id);
      var head := if xs[0] == id then [] else [xs[0]];
      var tail := Without(xs[1..], id);
      assert xs[0] !in xs[1..] by {
        forall m | 0 <= m < |xs[1..]| ensures xs[1..][m] != xs[0] {
          assert xs[1..][m] == xs[m + 1];
        }
      }
      forall i, j | 0 <= i < j < |head + tail| ensures (head + tail)[i] != (head + tail)[j] {
        if i < |head| {
          assert (head + tail)[j] in tail;
        } else {
          assert (head + tail)[i] == tail[i - |head|] && (head + tail)[j] == tail[j - |head|];
        }
      }
    }
  }

  /** `useSession().status` */
  datatype SessionStatus = Loading | SignedOut | SignedIn

  /** What the page's `useEffect` does on a render. */
  datatype Effect =
    | Wait                      // the session is still loading
    | Redirect(path: string)    // `router.push(path)`
    | LoadData                  // the permission is held: fetch the lists the form needs
    | Throws                    // `hasPermission(undefined, ...)`: the claim is absent

  const LoginPath := "/login"

  /**
   * The effect both create pages run: signed-out users go to the login
   * page, signed-in users without `required` go back to `listPath`, and
   * the others load the form's data.
   */
  function CreatePageEffect(status: SessionStatus, session: Option<Session>, required: string, listPath: string): (e: Effect)
    ensures e == Wait <==> status == Loading
    ensures status == SignedOut ==> e == Redirect(LoginPath)
    ensures e == Throws <==>
      status == SignedIn && (session.None? || session.value.user.permissions.None?)
    ensures e == LoadData <==>
      status == SignedIn && session.Some? && session.value.user.permissions.Some? &&
      required in session.value.user.permissions.value
    ensures status == SignedIn && e.Redirect? ==>
      e.path == listPath && session.Some? && session.value.user.permissions.Some? &&
      required !in session.value.user.permissions.value
  {
    match status
    case Loading => Wait
    case SignedOut => Redirect(LoginPath)
    case SignedIn =>
      if session.None? || session.value.user.permissions.None? then Throws
      else if HasPermission(session.value.user.permissions.value, required) then LoadData
      else Redirect(listPath)
  }

  /** A signed-in user lacking the permission is sent to the list page and never loads the form's data. */
  lemma LackingPermissionRedirects(session: Session, required: string, listPath: string)
    requires session.user.permissions.Some?
    requires required !in session.user.permissions.value
    ensures CreatePageEffect(SignedIn, Some(session), required, listPath) == Redirect(listPath)
  {
  }
}
