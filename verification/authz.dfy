/**
 * The authorization check of `src/lib/utils.ts`: a permission is granted
 * exactly when its name occurs in the session's list of permission names.
 */
module Authz {

  /**
   * `userPermissions.includes(requiredPermission)`: a left-to-right scan
   * comparing names with exact string equality (no case folding, prefix
   * or wildcard matching).
   */
  function HasPermission(userPermissions: seq<string>, required: string): (granted: bool)
    ensures granted <==> exists i :: 0 <= i < |userPermissions| && userPermissions[i] == required
    decreases |userPermissions|
  {
    if |userPermissions| == 0 then false
    else if userPermissions[0] == required then true
    else
      var rest := HasPermission(userPermissions[1..], required);
      assert forall i :: 1 <= i < |userPermissions| ==> userPermissions[i] == userPermissions[1..][i - 1];
      rest
  }

  /** The "either-of" gate: some name of `anyOf` is granted. */
  function HasAnyPermission(userPermissions: seq<string>, anyOf: seq<string>): (granted: bool)
    ensures granted <==> exists j :: 0 <= j < |anyOf| && anyOf[j] in userPermissions
    decreases |anyOf|
  {
    if |anyOf| == 0 then false
    else if HasPermission(userPermissions, anyOf[0]) then true
    else
      var rest := HasAnyPermission(userPermissions, anyOf[1..]);
      assert forall j :: 1 <= j < |anyOf| ==> anyOf[j] == anyOf[1..][j - 1];
      rest
  }

  /** The check is plain membership. */
  lemma HasPermissionIsMembership(userPermissions: seq<string>, required: string)
    ensures HasPermission(userPermissions, required) <==> required in userPermissions
  {
  }

  /** An empty permission list grants nothing. */
  lemma EmptyGrantsNothing(required: string)
    ensures !HasPermission([], required)
  {
  }

  /** A one-element list grants exactly its own name. */
  lemma SingletonGrantsExactlyItself(held: string, required: string)
    ensures HasPermission([held], required) <==> held == required
  {
  }

  /** Matching is exact: no wildcard, no case folding. */
  lemma NoWildcardNoCaseFolding()
    ensures !HasPermission(["users:*"], "users:read")
    ensures !HasPermission(["users:read"], "Users:Read")
    ensures !HasPermission(["users"], "users:read")
  {
    SingletonGrantsExactlyItself("users:*", "users:read");
    SingletonGrantsExactlyItself("users:read", "Users:Read");
    SingletonGrantsExactlyItself("users", "users:read");
  }

  /** Granting is monotone: extending the list on either side never revokes. */
  lemma {:induction false} Monotone(userPermissions: seq<string>, more: seq<string>, required: string)
    requires HasPermission(userPermissions, required)
    ensures HasPermission(userPermissions + more, required)
    ensures HasPermission(more + userPermissions, required)
  {
    var i :| 0 <= i < |userPermissions| && userPermissions[i] == required;
    assert (userPermissions + more)[i] == required;
    assert (more + userPermissions)[|more| + i] == required;
  }

  /** Only the set of names matters: order and repetition are irrelevant. */
  lemma OnlyTheSetMatters(a: seq<string>, b: seq<string>, required: string)
    requires (set x | x in a) == (set x | x in b)
    ensures HasPermission(a, required) == HasPermission(b, required)
  {
    HasPermissionIsMembership(a, required);
    HasPermissionIsMembership(b, required);
    var sa := set x | x in a;
    var sb := set x | x in b;
    assert required in a <==> required in sa;
    assert required in b <==> required in sb;
  }
}
