/**
 * The older server's user routes (server/api/user.py): the route bodies,
 * which repeat the handlers of server/handlers/user.py with small
 * differences, and the decorators stacked on them. `/register`, `/delete`
 * and `/update` are wrapped by the older rate limiter (50 requests per 30
 * seconds) outside `token_required` (the last two); `/user-details` by
 * `token_required` outside the rate limiter.
 *
 * `token_required` calls the route with the user id as first argument, but
 * `delete()` and `update()` take none, so once both guards admit a request
 * those two routes raise `TypeError` instead of running.
 *
 * The rate limiter's `abort(429, "Too many requests.")` is modelled as the
 * reply 429 with that description as `error_info`; the formatting of the
 * abort page is not modelled.
 */
module ServerUserApi {
  import opened Wrappers
  import opened Json
  import opened HttpReply
  import opened UserTable
  import Outcomes
  import UserSchema
  import Text
  import Jwt
  import RateLimit
  import LegacyRateLimit
  import TokenRequired
  import ServerUserHandlers

  const MaxRequests := 50
  const TimeWindow := 30
  const TooManyRequests := Error(429, "Too many requests.")

  // ---------------------------------------------------------------------------
  // Route bodies
  // ---------------------------------------------------------------------------

  function Register(request: Dict, parses: (UserSchema.Kind, Value) -> bool, registerUser: Dict -> (bool, string)): Reply {
    var errors := UserSchema.Errors(request, UserSchema.Whole, parses);
    if errors != map[] then ServerUserHandlers.SchemaErrors(errors)
    else
      var (success, message) := registerUser(request);
      if success then Reply(201, Info(message))
      else if Text.Contains(message, Outcomes.DuplicateEmail) then Error(409, message)
      else Error(500, message)
  }

  function Authorize(request: Dict, rows: Rows, nextId: int, checkPassword: (Value, Value) -> bool,
                     encode: Dict -> Option<string>, now: int): Reply {
    var email := Get(request, "email");
    var password := Get(request, "password");
    if !Truthy(email) || !Truthy(password) then Error(400, ServerUserHandlers.CredentialsRequired)
    else
      var user := FindByEmail(rows, nextId, email);
      if user.Some? && checkPassword(Get(rows[user.value], "password_hash"), password) then
        match encode(map["user_id" := Int(user.value), "exp" := Int(now + 3600)])
        case Some(token) => Reply(200, Single("user_token", Str(token)))
        case None => Error(500, ServerUserHandlers.EncodingFailed)
      else Error(401, ServerUserHandlers.InvalidCredentials)
  }

  function Delete(request: Dict, parses: (UserSchema.Kind, Value) -> bool, deleteUser: Dict -> (bool, string)): Reply {
    var errors := UserSchema.Errors(request, UserSchema.EmailOnly, parses);
    if errors != map[] then ServerUserHandlers.SchemaErrors(errors)
    else
      var (success, message) := deleteUser(request);
      if success then Reply(201, Info(message)) else Error(409, message)
  }

  function Update(request: Dict, parses: (UserSchema.Kind, Value) -> bool, updateUser: Dict -> (bool, string)): Reply {
    var errors := UserSchema.Errors(request, UserSchema.Partial, parses);
    if errors != map[] then ServerUserHandlers.SchemaErrors(errors)
    else
      var (success, message) := updateUser(request);
      if success then Reply(201, Info(message))
      else if Text.Contains(message, Outcomes.DuplicateEmail) then Error(409, message)
      else Error(500, message)
  }

  /** `user_details(current_user_id)`; `details` is absent when the service raises. */
  function UserDetails(details: Option<(bool, string, Dict)>): Reply {
    match details
    case None => Error(500, ServerUserHandlers.DetailsFailed)
    case Some((success, message, user)) =>
      if success then Reply(200, Single("user_details", Object(user)))
      else if message == Outcomes.UserDoesNotExist then Error(400, message)
      else Error(500, message)
  }

  // ---------------------------------------------------------------------------
  // Decorators
  // ---------------------------------------------------------------------------

  /**
   * What the rate limiter sees of one request: `g.rate_limit` (or its
   * absence), whether the key is an attribute of `g`, the key and the time.
   */
  datatype Limiter = Limiter(table: Option<RateLimit.Table>, keyIsAttribute: bool, key: string, now: int)

  /** What `token_required` sees: the header, the decoder, the user lookup and the time. */
  datatype Bearer = Bearer(header: Option<string>, decode: string -> Jwt.Decoded, usersWithId: Value -> seq<int>, now: real)

  /** `@rate_limit(50, 30)` as a guard, with the table it leaves. */
  function Limited(l: Limiter): (Gate<()>, Option<RateLimit.Table>) {
    var (d, t) := LegacyRateLimit.LegacyAdmit(l.table, l.keyIsAttribute, l.key, l.now, MaxRequests, TimeWindow);
    (match d
     case Allowed => Admitted(())
     case TooManyRequests => Refused(TooManyRequests)
     case Raised => Raised,
     t)
  }

  function Authenticated(b: Bearer): Gate<int> {
    TokenRequired.Validate(b.header, b.decode, b.now, b.usersWithId)
  }

  function RegisterRoute(l: Limiter, request: Dict, parses: (UserSchema.Kind, Value) -> bool,
                         registerUser: Dict -> (bool, string)): (Served<Reply>, Option<RateLimit.Table>) {
    var (g, t) := Limited(l);
    (Behind(g, (_: (), r: Dict) => Register(r, parses, registerUser), request), t)
  }

  /** `/authorize`: the rate limit, then the log-in body. */
  function AuthorizeRoute(l: Limiter, request: Dict, rows: Rows, nextId: int, checkPassword: (Value, Value) -> bool,
                          encode: Dict -> Option<string>, now: int): (Served<Reply>, Option<RateLimit.Table>) {
    var (g, t) := Limited(l);
    (Behind(g, (_: (), r: Dict) => Authorize(r, rows, nextId, checkPassword, encode, now), request), t)
  }

  /**
   * A route taking no arguments behind `token_required`: refusals reply,
   * and an admitted request raises `TypeError`.
   */
  function CalledWithUserId(g: Gate<int>): Served<Reply> {
    match g
    case Refused(r) => Replied(r)
    case Admitted(_) => Crashed
    case Raised => Crashed
  }

  function DeleteRoute(l: Limiter, b: Bearer): (Served<Reply>, Option<RateLimit.Table>) {
    var (g, t) := Limited(l);
    match g
    case Refused(r) => (Replied(r), t)
    case Raised => (Crashed, t)
    case Admitted(_) => (CalledWithUserId(Authenticated(b)), t)
  }

  /** `/update` is stacked the same way as `/delete` and fails the same way. */
  function UpdateRoute(l: Limiter, b: Bearer): (Served<Reply>, Option<RateLimit.Table>) {
    var (g, t) := Limited(l);
    match g
    case Refused(r) => (Replied(r), t)
    case Raised => (Crashed, t)
    case Admitted(_) => (CalledWithUserId(Authenticated(b)), t)
  }

  /** `/delete` with a route that accepts (and ignores) the injected id. */
  function DeleteRouteAsIntended(l: Limiter, b: Bearer, request: Dict, parses: (UserSchema.Kind, Value) -> bool,
                                 deleteUser: Dict -> (bool, string)): (Served<Reply>, Option<RateLimit.Table>) {
    var (g, t) := Limited(l);
    match g
    case Refused(r) => (Replied(r), t)
    case Raised => (Crashed, t)
    case Admitted(_) => (Behind(Authenticated(b), (_: int, r: Dict) => Delete(r, parses, deleteUser), request), t)
  }

  /** `/update` with a route that accepts (and ignores) the injected id. */
  function UpdateRouteAsIntended(l: Limiter, b: Bearer, request: Dict, parses: (UserSchema.Kind, Value) -> bool,
                                 updateUser: Dict -> (bool, string)): (Served<Reply>, Option<RateLimit.Table>) {
    var (g, t) := Limited(l);
    match g
    case Refused(r) => (Replied(r), t)
    case Raised => (Crashed, t)
    case Admitted(_) => (Behind(Authenticated(b), (_: int, r: Dict) => Update(r, parses, updateUser), request), t)
  }

  /** `/user-details`: the token is checked first, then the rate limit passes the id on. */
  function UserDetailsRoute(l: Limiter, b: Bearer, detailsOf: int -> Option<(bool, string, Dict)>)
    : (Served<Reply>, Option<RateLimit.Table>)
  {
    match Authenticated(b)
    case Refused(r) => (Replied(r), l.table)
    case Raised => (Crashed, l.table)
    case Admitted(id) =>
      var (g, t) := Limited(l);
      (Behind(g, (_: (), uid: int) => UserDetails(detailsOf(uid)), id), t)
  }

  // ---------------------------------------------------------------------------
  // Properties of the route bodies
  // ---------------------------------------------------------------------------

  /**
   * Registering: schema errors are a 400; success is 201; a failure is 409
   * exactly when its message holds the duplicate-e-mail text, else 500.
   */
  lemma RegisterOutcomes(request: Dict, parses: (UserSchema.Kind, Value) -> bool, registerUser: Dict -> (bool, string))
    ensures UserSchema.Errors(request, UserSchema.Whole, parses) != map[] ==> Register(request, parses, registerUser).code == 400
    ensures UserSchema.Errors(request, UserSchema.Whole, parses) == map[] && !registerUser(request).0 ==>
      (Register(request, parses, registerUser).code == 409 <==> Text.Contains(registerUser(request).1, Outcomes.DuplicateEmail)) &&
      Register(request, parses, registerUser).code in {409, 500}
    ensures UserSchema.Errors(request, UserSchema.Whole, parses) == map[] && registerUser(request).0 ==>
      Register(request, parses, registerUser) == Reply(201, Info(registerUser(request).1))
  {
  }

  /**
   * The route and the handler register alike except for a failure whose
   * message is exactly "User does not exist": 500 here, 400 there.
   */
  lemma RegisterAgainstHandler(request: Dict, parses: (UserSchema.Kind, Value) -> bool, registerUser: Dict -> (bool, string))
    ensures Register(request, parses, registerUser) != ServerUserHandlers.HandleRegisterUser(request, parses, registerUser) <==>
      UserSchema.Errors(request, UserSchema.Whole, parses) == map[] && registerUser(request) == (false, Outcomes.UserDoesNotExist)
  {
    var m := registerUser(request).1;
    if m == Outcomes.UserDoesNotExist && Text.Contains(m, Outcomes.DuplicateEmail) {
      Text.ContainsNotLonger(m, Outcomes.DuplicateEmail);
    }
  }

  /** Log-in, deletion, update and details are the handlers' logic, reply for reply. */
  lemma BodiesAgreeWithHandlers(request: Dict, parses: (UserSchema.Kind, Value) -> bool, service: Dict -> (bool, string),
                                rows: Rows, nextId: int, checkPassword: (Value, Value) -> bool,
                                encode: Dict -> Option<string>, now: int, details: Option<(bool, string, Dict)>)
    ensures Authorize(request, rows, nextId, checkPassword, encode, now) ==
      ServerUserHandlers.HandleAuthorizeUser(request, rows, nextId, checkPassword, encode, now)
    ensures Delete(request, parses, service) == ServerUserHandlers.HandleDeleteUser(request, parses, service)
    ensures Update(request, parses, service) == ServerUserHandlers.HandleUpdateUser(request, parses, service)
    ensures UserDetails(details) == ServerUserHandlers.HandleUserDetails(details)
  {
    assert map["user_id" := Int(FindByEmail(rows, nextId, Get(request, "email")).GetOr(0)), "exp" := Int(now + 3600)] ==
           ServerUserHandlers.Claims(FindByEmail(rows, nextId, Get(request, "email")).GetOr(0), now);
  }

  // ---------------------------------------------------------------------------
  // Properties of the decorator stacks
  // ---------------------------------------------------------------------------

  /**
   * Without `g.rate_limit` every one of the five rate-limited routes raises
   * before its body; `/user-details` gets that far only for a request its
   * token admits.
   */
  lemma MissingTableCrashes(l: Limiter, b: Bearer, request: Dict, parses: (UserSchema.Kind, Value) -> bool,
                            registerUser: Dict -> (bool, string), detailsOf: int -> Option<(bool, string, Dict)>,
                            rows: Rows, nextId: int, checkPassword: (Value, Value) -> bool,
                            encode: Dict -> Option<string>, now: int)
    requires l.table.None?
    ensures RegisterRoute(l, request, parses, registerUser) == (Crashed, None)
    ensures AuthorizeRoute(l, request, rows, nextId, checkPassword, encode, now) == (Crashed, None)
    ensures DeleteRoute(l, b) == (Crashed, None)
    ensures UpdateRoute(l, b) == (Crashed, None)
    ensures Authenticated(b).Admitted? ==> UserDetailsRoute(l, b, detailsOf) == (Crashed, None)
  {
  }

  /**
   * With the map created when absent, as the newer limiter does, the
   * unauthenticated routes run their bodies and record the request, and
   * the authenticated ones reach the token guard.
   */
  lemma CreatedMapRunsBodies(l: Limiter, b: Bearer, request: Dict, parses: (UserSchema.Kind, Value) -> bool,
                             registerUser: Dict -> (bool, string), rows: Rows, nextId: int,
                             checkPassword: (Value, Value) -> bool, encode: Dict -> Option<string>, now: int)
    requires !l.keyIsAttribute
    ensures var created := l.(table := Some(l.table.GetOr(map[])));
            var after := Some(l.table.GetOr(map[])[l.key := RateLimit.Counter(1, l.now)]);
            RegisterRoute(created, request, parses, registerUser) == (Handled(Register(request, parses, registerUser)), after) &&
            AuthorizeRoute(created, request, rows, nextId, checkPassword, encode, now) ==
              (Handled(Authorize(request, rows, nextId, checkPassword, encode, now)), after) &&
            DeleteRoute(created, b) == (CalledWithUserId(Authenticated(b)), after) &&
            UpdateRoute(created, b) == (CalledWithUserId(Authenticated(b)), after)
  {
    LimiterAlwaysAdmits(l.table.GetOr(map[]), l.key, l.now);
  }

  /**
   * As written, `/delete` and `/update` never run their bodies: a request
   * both guards admit raises, while the intended stack runs the body.
   */
  lemma DeleteAndUpdateNeverRun(l: Limiter, b: Bearer)
    ensures !DeleteRoute(l, b).0.Handled? && !UpdateRoute(l, b).0.Handled?
    ensures Limited(l).0.Admitted? && Authenticated(b).Admitted? ==>
      DeleteRoute(l, b).0 == Crashed && UpdateRoute(l, b).0 == Crashed
  {
  }

  lemma IntendedStackRunsBody(l: Limiter, b: Bearer, request: Dict, parses: (UserSchema.Kind, Value) -> bool,
                              service: Dict -> (bool, string))
    ensures Limited(l).0.Admitted? && Authenticated(b).Admitted? ==>
      DeleteRouteAsIntended(l, b, request, parses, service).0 == Handled(Delete(request, parses, service)) &&
      UpdateRouteAsIntended(l, b, request, parses, service).0 == Handled(Update(request, parses, service))
    ensures DeleteRouteAsIntended(l, b, request, parses, service).0.Handled? <==> Limited(l).0.Admitted? && Authenticated(b).Admitted?
    ensures DeleteRouteAsIntended(l, b, request, parses, service).1 == DeleteRoute(l, b).1
  {
  }

  /**
   * Decorator order: `/delete` counts a request in the rate table whatever
   * its token, while `/user-details` touches the table only for a request
   * whose token is admitted, and then runs with that user's id.
   */
  lemma DecoratorOrder(l: Limiter, b: Bearer, detailsOf: int -> Option<(bool, string, Dict)>)
    ensures DeleteRoute(l, b).1 == Limited(l).1
    ensures !Authenticated(b).Admitted? ==> UserDetailsRoute(l, b, detailsOf).1 == l.table
    ensures !Authenticated(b).Admitted? ==> UserDetailsRoute(l, b, detailsOf).0 == CalledWithUserId(Authenticated(b))
    ensures Authenticated(b).Admitted? ==>
      UserDetailsRoute(l, b, detailsOf).1 == Limited(l).1 &&
      UserDetailsRoute(l, b, detailsOf).0 ==
        (if Limited(l).0.Admitted? then Handled(UserDetails(detailsOf(Authenticated(b).value)))
         else if Limited(l).0.Refused? then Replied(TooManyRequests) else Crashed)
  {
  }

  /**
   * With the table present and the key not an attribute of `g`, the limiter
   * re-seeds the entry on every call and admits every request.
   */
  lemma LimiterAlwaysAdmits(m: RateLimit.Table, key: string, now: int)
    ensures Limited(Limiter(Some(m), false, key, now)) == (Admitted(()), Some(m[key := RateLimit.Counter(1, now)]))
  {
    LegacyRateLimit.LegacyAlwaysAllows(m, key, now, MaxRequests, TimeWindow);
  }
}
