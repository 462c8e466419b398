/**
 * The newer server's log-in (backend/server/services/auth.py and
 * backend/server/handlers/auth.py). The user is the first holding the
 * e-mail; `check_password_hash` is the parameter `checkPassword`; the role
 * query is `roleName` (absent when there is no role with that id, so that
 * reading `.name` raises); `jwt.encode` is `encode` (absent when it raises);
 * `datetime.utcnow()` is `now`, whole seconds since the epoch.
 */
module BackendAuth {
  import opened Wrappers
  import opened Json
  import opened HttpReply
  import opened UserTable

  const Authorized := "User authorized successfully"
  const PasswordInvalid := "Password is invalid"
  const UserDoesNotExist := "User does not exist"
  const Unexpected := "Unexpected error occurred"
  const CredentialsRequired := "Email and password are required"

  /** One day, the lifetime of a token issued here. */
  const TokenLifetime := 86400

  /** The claims of the token issued to user `id` with role `role` at time `now`. */
  function Claims(id: int, role: Value, now: int): Dict {
    map["user_id" := Int(id), "user_role" := role, "exp" := Int(now + TokenLifetime)]
  }

  /**
   * `login_user(email, password)` as written. When no user holds the e-mail,
   * the `elif` reads `user.password_hash` of `None` and the exception
   * handler answers; the final `else` can never be reached.
   */
  function LoginUser(rows: Rows, nextId: int, email: Value, password: Value, checkPassword: (Value, Value) -> bool,
                     roleName: Value -> Option<Value>, encode: Dict -> Option<string>, now: int): (bool, string, string)
  {
    var user := FindByEmail(rows, nextId, email);
    if user.Some? && checkPassword(Get(rows[user.value], "password_hash"), password) then
      match roleName(Get(rows[user.value], "role_id"))
      case None => (false, Unexpected, "")
      case Some(name) =>
        match encode(Claims(user.value, name, now))
        case None => (false, Unexpected, "")
        case Some(token) => (true, Authorized, token)
    else if user.None? then (false, Unexpected, "")
    else if !checkPassword(Get(rows[user.value], "password_hash"), password) then (false, PasswordInvalid, "")
    else assert false; (false, UserDoesNotExist, "")
  }

  /** `login_user` with an unknown e-mail answered by the 'User does not exist' branch. */
  function LoginUserAsIntended(rows: Rows, nextId: int, email: Value, password: Value, checkPassword: (Value, Value) -> bool,
                               roleName: Value -> Option<Value>, encode: Dict -> Option<string>, now: int): (bool, string, string)
  {
    var user := FindByEmail(rows, nextId, email);
    if user.None? then (false, UserDoesNotExist, "")
    else if !checkPassword(Get(rows[user.value], "password_hash"), password) then (false, PasswordInvalid, "")
    else
      match roleName(Get(rows[user.value], "role_id"))
      case None => (false, Unexpected, "")
      case Some(name) =>
        match encode(Claims(user.value, name, now))
        case None => (false, Unexpected, "")
        case Some(token) => (true, Authorized, token)
  }

  /** `handle_login(request_data)`; `login` is `login_user`, consulted only with both credentials. */
  function HandleLogin(request: Dict, login: (Value, Value) -> (bool, string, string)): Reply {
    var email := Get(request, "email");
    var password := Get(request, "password");
    if !Truthy(email) || !Truthy(password) then Error(400, CredentialsRequired)
    else
      var (success, message, token) := login(email, password);
      if success then Reply(200, map["info" := Str(message), "user_token" := Str(token)])
      else Error(401, message)
  }

  /** `handle_logout`, `handle_forgot_password` and `handle_reset_password`: stubs returning `None`. */
  function HandleLogout(request: Dict): Option<Reply> {
    None
  }

  function HandleForgotPassword(request: Dict): Option<Reply> {
    None
  }

  function HandleResetPassword(request: Dict): Option<Reply> {
    None
  }

  // ---------------------------------------------------------------------------
  // Properties
  // ---------------------------------------------------------------------------

  /**
   * Matching credentials give a token whose claims are the user's id, its
   * role's name and an expiry one day from now. Every failure carries the
   * empty token.
   */
  lemma LoginSuccess(rows: Rows, nextId: int, email: Value, password: Value, checkPassword: (Value, Value) -> bool,
                     roleName: Value -> Option<Value>, encode: Dict -> Option<string>, now: int)
    requires TableValid(rows, nextId)
    ensures var r := LoginUser(rows, nextId, email, password, checkPassword, roleName, encode, now);
            r.0 ==> r.1 == Authorized && (exists k :: k in rows && EmailOf(rows[k]) == email &&
                                            checkPassword(Get(rows[k], "password_hash"), password) &&
                                            roleName(Get(rows[k], "role_id")).Some? &&
                                            Some(r.2) == encode(Claims(k, roleName(Get(rows[k], "role_id")).value, now)))
    ensures var r := LoginUser(rows, nextId, email, password, checkPassword, roleName, encode, now);
            !r.0 ==> r.2 == "" && r.1 in {PasswordInvalid, Unexpected}
  {
  }

  /** The claims name the user and its role and expire exactly one day after issue. */
  lemma ClaimsContents(id: int, role: Value, now: int)
    ensures Claims(id, role, now).Keys == {"user_id", "user_role", "exp"}
    ensures Claims(id, role, now)["exp"] == Int(now + 24 * 60 * 60)
  {
  }

  /**
   * As written, an unknown e-mail gives 'Unexpected error occurred', never
   * 'User does not exist'; a known e-mail with a wrong password gives
   * 'Password is invalid'; a role or encoding failure is unexpected.
   */
  lemma LoginFailures(rows: Rows, nextId: int, email: Value, password: Value, checkPassword: (Value, Value) -> bool,
                      roleName: Value -> Option<Value>, encode: Dict -> Option<string>, now: int)
    requires TableValid(rows, nextId)
    ensures (forall k :: k in rows ==> EmailOf(rows[k]) != email) ==>
      LoginUser(rows, nextId, email, password, checkPassword, roleName, encode, now) == (false, Unexpected, "")
    ensures LoginUser(rows, nextId, email, password, checkPassword, roleName, encode, now).1 != UserDoesNotExist
    ensures forall k :: k in rows && EmailOf(rows[k]) == email && email != Null ==>
      (!checkPassword(Get(rows[k], "password_hash"), password) ==>
        LoginUser(rows, nextId, email, password, checkPassword, roleName, encode, now) == (false, PasswordInvalid, "")) &&
      (checkPassword(Get(rows[k], "password_hash"), password) && roleName(Get(rows[k], "role_id")).None? ==>
        LoginUser(rows, nextId, email, password, checkPassword, roleName, encode, now) == (false, Unexpected, ""))
  {
    FindByEmailExact(rows, nextId, email);
    MessagesDistinct();
    LoginSuccess(rows, nextId, email, password, checkPassword, roleName, encode, now);
    forall k | k in rows && EmailOf(rows[k]) == email && email != Null
      ensures (!checkPassword(Get(rows[k], "password_hash"), password) ==>
                LoginUser(rows, nextId, email, password, checkPassword, roleName, encode, now) == (false, PasswordInvalid, "")) &&
              (checkPassword(Get(rows[k], "password_hash"), password) && roleName(Get(rows[k], "role_id")).None? ==>
                LoginUser(rows, nextId, email, password, checkPassword, roleName, encode, now) == (false, Unexpected, ""))
    {
      KnownUserFailures(rows, nextId, email, password, checkPassword, roleName, encode, now, k);
    }
  }

  /** The user found is `k`: a wrong password or a missing role fails with its own message. */
  lemma KnownUserFailures(rows: Rows, nextId: int, email: Value, password: Value, checkPassword: (Value, Value) -> bool,
                          roleName: Value -> Option<Value>, encode: Dict -> Option<string>, now: int, k: int)
    requires TableValid(rows, nextId) && k in rows && EmailOf(rows[k]) == email && email != Null
    ensures !checkPassword(Get(rows[k], "password_hash"), password) ==>
      LoginUser(rows, nextId, email, password, checkPassword, roleName, encode, now) == (false, PasswordInvalid, "")
    ensures checkPassword(Get(rows[k], "password_hash"), password) && roleName(Get(rows[k], "role_id")).None? ==>
      LoginUser(rows, nextId, email, password, checkPassword, roleName, encode, now) == (false, Unexpected, "")
  {
    FindByEmailExact(rows, nextId, email);
    assert FindByEmail(rows, nextId, email) == Some(k);
  }

  /** No message `login_user` gives as written is 'User does not exist'. */
  lemma MessagesDistinct()
    ensures UserDoesNotExist !in {Authorized, PasswordInvalid, Unexpected}
  {
    assert UserDoesNotExist[0] != PasswordInvalid[0];
    assert |UserDoesNotExist| != |Authorized| && |UserDoesNotExist| != |Unexpected|;
  }

  /**
   * As intended, an unknown e-mail is reported as 'User does not exist';
   * for a known one both versions agree.
   */
  lemma IntendedLoginReportsMissingUser(rows: Rows, nextId: int, email: Value, password: Value,
                                        checkPassword: (Value, Value) -> bool, roleName: Value -> Option<Value>,
                                        encode: Dict -> Option<string>, now: int)
    requires TableValid(rows, nextId)
    ensures (forall k :: k in rows ==> EmailOf(rows[k]) != email) <==>
      LoginUserAsIntended(rows, nextId, email, password, checkPassword, roleName, encode, now) == (false, UserDoesNotExist, "")
    ensures (exists k :: k in rows && EmailOf(rows[k]) == email) ==>
      LoginUserAsIntended(rows, nextId, email, password, checkPassword, roleName, encode, now) ==
        LoginUser(rows, nextId, email, password, checkPassword, roleName, encode, now)
  {
    FindByEmailExact(rows, nextId, email);
  }

  /**
   * The handler: missing credentials are a 400 without calling the service;
   * success is 200 with the message and the token; every failure of the
   * service is 401 carrying its message.
   */
  lemma LoginReplies(request: Dict, login: (Value, Value) -> (bool, string, string), other: (Value, Value) -> (bool, string, string))
    ensures !Truthy(Get(request, "email")) || !Truthy(Get(request, "password")) ==>
      HandleLogin(request, login) == Error(400, CredentialsRequired) && HandleLogin(request, login) == HandleLogin(request, other)
    ensures var r := login(Get(request, "email"), Get(request, "password"));
            Truthy(Get(request, "email")) && Truthy(Get(request, "password")) ==>
              HandleLogin(request, login) ==
                if r.0 then Reply(200, map["info" := Str(r.1), "user_token" := Str(r.2)]) else Error(401, r.1)
  {
  }

  /** An unknown e-mail therefore gets 401 'Unexpected error occurred'. */
  lemma UnknownEmailLogin(rows: Rows, nextId: int, request: Dict, checkPassword: (Value, Value) -> bool,
                          roleName: Value -> Option<Value>, encode: Dict -> Option<string>, now: int)
    requires TableValid(rows, nextId)
    requires Truthy(Get(request, "email")) && Truthy(Get(request, "password"))
    requires forall k :: k in rows ==> EmailOf(rows[k]) != Get(request, "email")
    ensures var service := (e: Value, p: Value) => LoginUser(rows, nextId, e, p, checkPassword, roleName, encode, now);
            HandleLogin(request, service) == Error(401, Unexpected)
  {
    LoginFailures(rows, nextId, Get(request, "email"), Get(request, "password"), checkPassword, roleName, encode, now);
  }

  /** The three stubs return `None` for every request. */
  lemma StubsReturnNone(request: Dict)
    ensures HandleLogout(request).None? && HandleForgotPassword(request).None? && HandleResetPassword(request).None?
  {
  }
}
