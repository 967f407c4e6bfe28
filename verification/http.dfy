/**
 * What the route handlers share: the response shape, the status codes
 * they use, and the session gate every handler runs first.
 */
module Http {
  import opened Wrappers
  import opened Tables
  import opened Authz
  import opened Auth

  const StatusOk := 200
  const StatusCreated := 201
  const StatusNoContent := 204
  const StatusBadRequest := 400
  const StatusUnauthorized := 401
  const StatusForbidden := 403
  const StatusNotFound := 404
  const StatusServerError := 500

  /**
   * A JSON payload, a JSON `{ error }` object, no body at all, or the
   * framework's own answer to an exception the handler did not catch.
   */
  datatype Body<T> = Json(value: T) | Error(message: string) | Empty | Uncaught

  datatype Response<T> = Response(status: int, body: Body<T>)

  /** A handler's answer together with the store it leaves behind. */
  datatype Step<T> = Step(response: Response<T>, store: Store)

  /** The outcome of the session and permission checks at the top of a handler. */
  datatype Decision =
    | Unauthenticated   // no session
    | ClaimMissing      // a session without a permissions claim: `hasPermission(undefined, ...)` throws
    | Forbidden         // none of the required permissions is held
    | Admitted

  /**
   * `if (!session) ... 401; if (!hasPermission(session.user.permissions, p) && ...) ... 403`,
   * where the handler accepts any one of `anyOf`.
   */
  function Decide(session: Option<Session>, anyOf: seq<string>): (d: Decision)
    ensures d == Unauthenticated <==> session.None?
    ensures d == ClaimMissing <==> session.Some? && session.value.user.permissions.None?
    ensures d == Admitted <==>
      session.Some? && session.value.user.permissions.Some? &&
      exists j :: 0 <= j < |anyOf| && anyOf[j] in session.value.user.permissions.value
  {
    match session
    case None => Unauthenticated
    case Some(s) =>
      match s.user.permissions
      case None => ClaimMissing
      case Some(ps) => if HasAnyPermission(ps, anyOf) then Admitted else Forbidden
  }

  /** The answer to a refused request; `onThrow` is what the handler does with the exception. */
  function Refusal<T>(d: Decision, onThrow: Response<T>): (r: Response<T>)
    requires d != Admitted
    ensures d == Unauthenticated ==> r == Response(StatusUnauthorized, Error("Unauthorized"))
    ensures d == Forbidden ==> r == Response(StatusForbidden, Error("Forbidden"))
    ensures d == ClaimMissing ==> r == onThrow
  {
    match d
    case Unauthenticated => Response(StatusUnauthorized, Error("Unauthorized"))
    case Forbidden => Response(StatusForbidden, Error("Forbidden"))
    case ClaimMissing => onThrow
  }

  /** A request refused for want of a session or a permission. */
  predicate IsRefusal<T>(r: Response<T>) {
    r.status == StatusUnauthorized || r.status == StatusForbidden || r.body == Uncaught
  }

  /** The exception the route leaves to the framework. */
  function CrashResponse<T>(): Response<T> {
    Response(StatusServerError, Uncaught)
  }

  function ServerError<T>(): Response<T> {
    Response(StatusServerError, Error("Internal Server Error"))
  }

  /**
   * Fail-closed: a session is admitted only when its own permission claim
   * holds one of the required names; a session with no claim, or a claim
   * lacking them all, is refused.
   */
  lemma FailClosed(session: Option<Session>, anyOf: seq<string>)
    requires Decide(session, anyOf) == Admitted
    ensures session.Some? && session.value.user.permissions.Some?
    ensures HasAnyPermission(session.value.user.permissions.value, anyOf)
  {
  }

  /** A signed-in session is admitted to `p` iff one of the user's roles grants it. */
  lemma SignedInGate(s: Store, u: User, token: Token, trigger: Trigger, session: Session, p: string)
    requires Valid(s)
    requires trigger != Update
    ensures var claims := Claims(LoadUser(s, u));
      var signedIn := SessionCallback(session, Some(Jwt(token, Some(claims), trigger, None)));
      Decide(Some(signedIn), [p]) == Admitted <==> Effective(s, u.id, p)
  {
    var claims := Claims(LoadUser(s, u));
    SignInReachesSession(token, claims, trigger, session);
    ClaimsAreEffective(s, u, p);
  }
}
