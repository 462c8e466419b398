/**
 * The newer bearer-token guard (backend/server/middlewares/authorizer.py):
 * missing token, decode outcome, user lookup and role check, in that order.
 * The user lookup `get_user_by_id` is the parameter `getUserById`, giving
 * its success flag and the user found; `User.is_admin` is `isAdmin`.
 */
module TokenValidation {
  import opened Wrappers
  import opened Json
  import opened HttpReply
  import opened Jwt

  const TokenMissing := Error(401, "Token is missing!")
  const UserMissing := Error(401, "User does not exist!")
  const NotAuthorized := Error(403, "Not authorized!")
  const TokenExpired := Error(401, "Token has expired!")
  const TokenInvalid := Error(401, "Token is invalid!")
  const ServerError := Error(500, "Server error")

  /**
   * `token_validation(f, require_admin)` up to the handler call. A claims
   * dictionary without `user_id` raises `KeyError` inside the `try`, which
   * the generic handler maps to 500.
   */
  function Validate<U>(header: Option<string>, decode: string -> Decoded,
                       getUserById: Value -> (bool, Option<U>), isAdmin: U -> bool,
                       requireAdmin: bool): Gate<U>
  {
    match ReadToken(header)
    case Unindexable => Raised
    case NoHeader => Refused(TokenMissing)
    case Token(t) =>
      if t == "" then Refused(TokenMissing)
      else
        match decode(t)
        case Expired => Refused(TokenExpired)
        case Invalid => Refused(TokenInvalid)
        case Other => Refused(ServerError)
        case Ok(claims) =>
          if "user_id" !in claims then Refused(ServerError)
          else
            var (success, user) := getUserById(claims["user_id"]);
            if !success || user.None? then Refused(UserMissing)
            else if requireAdmin && !isAdmin(user.value) then Refused(NotAuthorized)
            else Admitted(user.value)
  }

  /** `user_token_required`. */
  function UserTokenRequired<U>(header: Option<string>, decode: string -> Decoded,
                                getUserById: Value -> (bool, Option<U>), isAdmin: U -> bool): Gate<U>
  {
    Validate(header, decode, getUserById, isAdmin, false)
  }

  /** `admin_token_required`. */
  function AdminTokenRequired<U>(header: Option<string>, decode: string -> Decoded,
                                 getUserById: Value -> (bool, Option<U>), isAdmin: U -> bool): Gate<U>
  {
    Validate(header, decode, getUserById, isAdmin, true)
  }

  /** No header, `"Bearer "` or any empty second word: 401 "Token is missing!", decode never consulted. */
  lemma MissingTokenRefused<U>(header: Option<string>, decode: string -> Decoded,
                               getUserById: Value -> (bool, Option<U>), isAdmin: U -> bool, requireAdmin: bool)
    requires header.None? || ReadToken(header) == Token("")
    ensures Validate(header, decode, getUserById, isAdmin, requireAdmin) == Refused(TokenMissing)
  {
  }

  lemma BearerAloneRefused<U>(decode: string -> Decoded, getUserById: Value -> (bool, Option<U>),
                              isAdmin: U -> bool, requireAdmin: bool)
    ensures Validate(Some("Bearer "), decode, getUserById, isAdmin, requireAdmin) == Refused(TokenMissing)
  {
    BearerAloneIsEmpty();
  }

  /** A header with no space raises outside the `try`: no 401 and no 500 reply is produced. */
  lemma NoSpaceRaises<U>(h: string, decode: string -> Decoded, getUserById: Value -> (bool, Option<U>),
                         isAdmin: U -> bool, requireAdmin: bool)
    requires ' ' !in h
    ensures Validate(Some(h), decode, getUserById, isAdmin, requireAdmin) == Raised
  {
    NoSpaceUnindexable(h);
  }

  /** Decode failures: expired and invalid give 401, anything else 500, each with its own message. */
  lemma DecodeFailures<U>(header: Option<string>, decode: string -> Decoded,
                          getUserById: Value -> (bool, Option<U>), isAdmin: U -> bool, requireAdmin: bool)
    requires ReadToken(header).Token? && ReadToken(header).token != ""
    ensures var d := decode(ReadToken(header).token);
            var g := Validate(header, decode, getUserById, isAdmin, requireAdmin);
            && (d == Expired ==> g == Refused(TokenExpired))
            && (d == Invalid ==> g == Refused(TokenInvalid))
            && (d == Other ==> g == Refused(ServerError))
  {
  }

  /**
   * The existence check precedes the role check: an unknown user gets 401,
   * never 403, even on an admin route.
   */
  lemma UnknownUserBeforeRole<U>(header: Option<string>, decode: string -> Decoded,
                                 getUserById: Value -> (bool, Option<U>), isAdmin: U -> bool)
    requires ReadToken(header).Token? && ReadToken(header).token != ""
    requires decode(ReadToken(header).token).Ok?
    requires "user_id" in decode(ReadToken(header).token).claims
    requires var (ok, u) := getUserById(decode(ReadToken(header).token).claims["user_id"]); !ok || u.None?
    ensures AdminTokenRequired(header, decode, getUserById, isAdmin) == Refused(UserMissing)
    ensures UserTokenRequired(header, decode, getUserById, isAdmin) == Refused(UserMissing)
  {
  }

  /**
   * The guard admits exactly a user found by the token's `user_id`, who must
   * be an administrator when the route requires one.
   */
  lemma AdmittedExactly<U>(header: Option<string>, decode: string -> Decoded,
                           getUserById: Value -> (bool, Option<U>), isAdmin: U -> bool,
                           requireAdmin: bool, u: U)
    ensures Validate(header, decode, getUserById, isAdmin, requireAdmin) == Admitted(u) <==>
      && ReadToken(header).Token? && ReadToken(header).token != ""
      && decode(ReadToken(header).token).Ok?
      && "user_id" in decode(ReadToken(header).token).claims
      && getUserById(decode(ReadToken(header).token).claims["user_id"]) == (true, Some(u))
      && (requireAdmin ==> isAdmin(u))
  {
  }

  /** A found user who is not an administrator gets 403 on an admin route. */
  lemma NonAdminForbidden<U>(header: Option<string>, decode: string -> Decoded,
                             getUserById: Value -> (bool, Option<U>), isAdmin: U -> bool, u: U)
    requires ReadToken(header).Token? && ReadToken(header).token != ""
    requires decode(ReadToken(header).token).Ok?
    requires "user_id" in decode(ReadToken(header).token).claims
    requires getUserById(decode(ReadToken(header).token).claims["user_id"]) == (true, Some(u))
    requires !isAdmin(u)
    ensures AdminTokenRequired(header, decode, getUserById, isAdmin) == Refused(NotAuthorized)
    ensures UserTokenRequired(header, decode, getUserById, isAdmin) == Admitted(u)
  {
  }

  /** Every refusal is 401, 403 or 500, and 403 only on an admin route. */
  lemma RefusalCodes<U>(header: Option<string>, decode: string -> Decoded,
                        getUserById: Value -> (bool, Option<U>), isAdmin: U -> bool, requireAdmin: bool)
    ensures var g := Validate(header, decode, getUserById, isAdmin, requireAdmin);
            g.Refused? ==> g.reply.code in {401, 403, 500} && (g.reply.code == 403 ==> requireAdmin)
  {
  }

  /** On success the handler receives the user first and the other arguments unchanged. */
  lemma HandlerGetsUser<U, A, R>(header: Option<string>, decode: string -> Decoded,
                                 getUserById: Value -> (bool, Option<U>), isAdmin: U -> bool,
                                 requireAdmin: bool, handler: (U, A) -> R, args: A)
    ensures var g := Validate(header, decode, getUserById, isAdmin, requireAdmin);
            Behind(g, handler, args).Handled? <==> g.Admitted?
    ensures var g := Validate(header, decode, getUserById, isAdmin, requireAdmin);
            g.Admitted? ==> Behind(g, handler, args) == Handled(handler(g.value, args))
  {
  }
}
