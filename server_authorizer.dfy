/**
 * The older bearer-token guard (server/middleware/authorizer.py): missing
 * token, decode outcome, an explicit `exp` test against the current time,
 * and a lookup of the users whose id is the token's `user_id`. It injects
 * the first such user's id, and has no role check. The lookup `get_users`
 * is the parameter `usersWithId`, giving the ids of the matching users (it
 * returns no users when its query fails); the clock is `now`, the
 * seconds since the epoch as `datetime.now(timezone.utc).timestamp()`
 * gives them, fraction included.
 */
module TokenRequired {
  import opened Wrappers
  import opened Json
  import opened HttpReply
  import opened Jwt

  const TokenMissing := Error(401, "Token is missing!")
  const TokenExpired := Error(401, "Failed to access endpoint, token has expired!")
  const TokenInvalid := Error(401, "Failed to access endpoint, token is invalid!")
  const UserMissing := Error(401, "Failed to access endpoint, user does not exist!")
  const ServerError := Error(500, "Failed to access endpoint - server error")

  /**
   * `data['exp'] < now`: `None` for a value Python cannot compare with a
   * number (a `TypeError`); booleans compare as 0 and 1.
   */
  function ExpiredAt(exp: Value, now: real): Option<bool> {
    match exp
    case Int(e) => Some(e as real < now)
    case Real(r) => Some(r < now)
    case Bool(b) => Some((if b then 1.0 else 0.0) < now)
    case _ => None
  }

  /**
   * `token_required(f)` up to the handler call. A missing `exp` or
   * `user_id` claim raises `KeyError` inside the `try`, which the generic
   * handler maps to 500.
   */
  function Validate(header: Option<string>, decode: string -> Decoded, now: real,
                    usersWithId: Value -> seq<int>): Gate<int>
  {
    match ReadToken(header)
    case Unindexable => Raised
    case NoHeader => Refused(TokenMissing)
    case Token(t) =>
      if t == "" then Refused(TokenMissing)
      else
        match decode(t)
        case Expired => Refused(TokenExpired)
        case Invalid => Refused(TokenInvalid)
        case Other => Refused(ServerError)
        case Ok(claims) =>
          if "exp" !in claims then Refused(ServerError)
          else
            match ExpiredAt(claims["exp"], now)
            case None => Refused(ServerError)
            case Some(true) => Refused(TokenExpired)
            case Some(false) =>
              if "user_id" !in claims then Refused(ServerError)
              else
                var users := usersWithId(claims["user_id"]);
                if users == [] then Refused(UserMissing) else Admitted(users[0])
  }

  /** The claims of a token that decodes, when there is one. */
  predicate DecodesTo(header: Option<string>, decode: string -> Decoded, claims: Dict) {
    ReadToken(header).Token? && ReadToken(header).token != "" && decode(ReadToken(header).token) == Ok(claims)
  }

  /** No header or an empty token: 401 "Token is missing!", the decoder never consulted. */
  lemma MissingTokenRefused(header: Option<string>, decode: string -> Decoded, now: real, usersWithId: Value -> seq<int>)
    requires header.None? || ReadToken(header) == Token("")
    ensures Validate(header, decode, now, usersWithId) == Refused(TokenMissing)
  {
  }

  /** Decoding exceptions: expired and invalid give 401, anything else 500. */
  lemma DecodeFailures(header: Option<string>, decode: string -> Decoded, now: real, usersWithId: Value -> seq<int>)
    requires ReadToken(header).Token? && ReadToken(header).token != ""
    ensures var d := decode(ReadToken(header).token);
            var g := Validate(header, decode, now, usersWithId);
            && (d == Expired ==> g == Refused(TokenExpired))
            && (d == Invalid ==> g == Refused(TokenInvalid))
            && (d == Other ==> g == Refused(ServerError))
  {
  }

  /**
   * An integer `exp` strictly before `now` is refused as expired; an `exp`
   * equal to `now` passes the test, and the outcome is then the lookup's.
   * The clock has a fraction, so an `exp` of a whole second is expired at
   * any time after that second began.
   */
  lemma ExpiryBoundary(header: Option<string>, decode: string -> Decoded, now: real,
                       usersWithId: Value -> seq<int>, claims: Dict)
    requires DecodesTo(header, decode, claims)
    requires "exp" in claims && claims["exp"].Int?
    ensures claims["exp"].i as real < now ==> Validate(header, decode, now, usersWithId) == Refused(TokenExpired)
    ensures claims["exp"].i as real == now && "user_id" in claims ==>
      Validate(header, decode, now, usersWithId) ==
        (if usersWithId(claims["user_id"]) == [] then Refused(UserMissing)
         else Admitted(usersWithId(claims["user_id"])[0]))
  {
  }

  /**
   * There is no role check: any decodable, unexpired token whose `user_id`
   * matches a user admits that user's id, the first match's.
   */
  lemma AdmitsFirstMatch(header: Option<string>, decode: string -> Decoded, now: real,
                         usersWithId: Value -> seq<int>, id: int)
    ensures Validate(header, decode, now, usersWithId) == Admitted(id) <==>
      exists claims :: DecodesTo(header, decode, claims)
        && "exp" in claims && ExpiredAt(claims["exp"], now) == Some(false)
        && "user_id" in claims && usersWithId(claims["user_id"]) != []
        && usersWithId(claims["user_id"])[0] == id
  {
    if Validate(header, decode, now, usersWithId) == Admitted(id) {
      var claims := decode(ReadToken(header).token).claims;
      assert DecodesTo(header, decode, claims);
    }
  }

  /** Every refusal is 401 or 500; this guard never answers 403. */
  lemma RefusalCodes(header: Option<string>, decode: string -> Decoded, now: real, usersWithId: Value -> seq<int>)
    ensures var g := Validate(header, decode, now, usersWithId);
            g.Refused? ==> g.reply.code in {401, 500}
  {
  }

  /** On success the handler receives the user's id first and the other arguments unchanged. */
  lemma HandlerGetsUserId<A, R>(header: Option<string>, decode: string -> Decoded, now: real,
                                usersWithId: Value -> seq<int>, handler: (int, A) -> R, args: A)
    ensures var g := Validate(header, decode, now, usersWithId);
            g.Admitted? ==> Behind(g, handler, args) == Handled(handler(g.value, args))
    ensures var g := Validate(header, decode, now, usersWithId);
            !g.Admitted? ==> !Behind(g, handler, args).Handled?
  {
  }
}
