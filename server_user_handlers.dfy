/**
 * The older server's user handlers (server/handlers/user.py): each checks
 * the request against `UserSchema`, calls its service and maps the outcome
 * to a reply. The services are parameters; `schema.load` returns the data
 * it validated (the conversion of dates and floats is not modelled). Log
 * lines are left out.
 *
 * The login check reads the `users` table directly: the first user holding
 * the e-mail, `check_password_hash` as the parameter `checkPassword`, and
 * `jwt.encode` as `encode` (absent when it raises). `datetime.utcnow()` is
 * `now`, whole seconds since the epoch.
 *
 * server/handlers/global_functions.py, whose classifier the register handler
 * calls, is not part of this model; the handler uses the newer server's
 * classifier, `Outcomes.Classify`.
 */
module ServerUserHandlers {
  import opened Wrappers
  import opened Json
  import opened HttpReply
  import opened UserTable
  import Outcomes
  import UserSchema
  import ServerUsers
  import Text

  const CredentialsRequired := "Email and password are required"
  const EncodingFailed := "Internal server error during JWT encoding"
  const InvalidCredentials := "Invalid credentials"
  const DetailsFailed := "Internal server error"

  /** One hour, the lifetime of a token issued here. */
  const TokenLifetime := 3600

  /** `{"error_info": errors}` with marshmallow's error dict. */
  function SchemaErrors(errors: Dict): Reply {
    Reply(400, Single("error_info", Object(errors)))
  }

  function HandleRegisterUser(request: Dict, parses: (UserSchema.Kind, Value) -> bool,
                              registerUser: Dict -> (bool, string)): Reply {
    var errors := UserSchema.Errors(request, UserSchema.Whole, parses);
    if errors != map[] then SchemaErrors(errors)
    else
      var (success, message) := registerUser(request);
      if success then Reply(201, Info(message)) else Outcomes.Classify(message)
  }

  /** The claims of the token issued to user `id` at time `now`. */
  function Claims(id: int, now: int): Dict {
    map["user_id" := Int(id), "exp" := Int(now + TokenLifetime)]
  }

  function HandleAuthorizeUser(request: Dict, rows: Rows, nextId: int, checkPassword: (Value, Value) -> bool,
                               encode: Dict -> Option<string>, now: int): Reply {
    var email := Get(request, "email");
    var password := Get(request, "password");
    if !Truthy(email) || !Truthy(password) then Error(400, CredentialsRequired)
    else
      var user := FindByEmail(rows, nextId, email);
      if user.Some? && checkPassword(Get(rows[user.value], "password_hash"), password) then
        match encode(Claims(user.value, now))
        case Some(token) => Reply(200, Single("user_token", Str(token)))
        case None => Error(500, EncodingFailed)
      else Error(401, InvalidCredentials)
  }

  function HandleDeleteUser(request: Dict, parses: (UserSchema.Kind, Value) -> bool,
                            deleteUser: Dict -> (bool, string)): Reply {
    var errors := UserSchema.Errors(request, UserSchema.EmailOnly, parses);
    if errors != map[] then SchemaErrors(errors)
    else
      var (success, message) := deleteUser(request);
      if success then Reply(201, Info(message)) else Error(409, message)
  }

  function HandleUpdateUser(request: Dict, parses: (UserSchema.Kind, Value) -> bool,
                            updateUser: Dict -> (bool, string)): Reply {
    var errors := UserSchema.Errors(request, UserSchema.Partial, parses);
    if errors != map[] then SchemaErrors(errors)
    else
      var (success, message) := updateUser(request);
      if success then Reply(201, Info(message))
      else if Text.Contains(message, Outcomes.DuplicateEmail) then Error(409, message)
      else Error(500, message)
  }

  /** `handle_user_details(current_user_id)`; `details` is absent when the service raises. */
  function HandleUserDetails(details: Option<(bool, string, Dict)>): Reply {
    match details
    case None => Error(500, DetailsFailed)
    case Some((success, message, user)) =>
      if success then Reply(200, Single("user_details", Object(user)))
      else if message == Outcomes.UserDoesNotExist then Error(400, message)
      else Error(500, message)
  }

  // ---------------------------------------------------------------------------
  // Properties
  // ---------------------------------------------------------------------------

  /**
   * Registering: schema errors are a 400 carrying them, whatever the service
   * would do; otherwise success is 201 with `{info: message}` and a failure
   * is classified, a duplicate e-mail giving 409 with the table unchanged.
   */
  lemma RegisterOutcomes(request: Dict, parses: (UserSchema.Kind, Value) -> bool,
                         registerUser: Dict -> (bool, string), other: Dict -> (bool, string))
    ensures var errors := UserSchema.Errors(request, UserSchema.Whole, parses);
            errors != map[] ==>
              HandleRegisterUser(request, parses, registerUser) == Reply(400, Single("error_info", Object(errors))) &&
              HandleRegisterUser(request, parses, registerUser) == HandleRegisterUser(request, parses, other)
    ensures UserSchema.Errors(request, UserSchema.Whole, parses) == map[] ==>
      HandleRegisterUser(request, parses, registerUser) ==
        if registerUser(request).0 then Reply(201, Info(registerUser(request).1)) else Outcomes.Classify(registerUser(request).1)
  {
  }

  lemma DuplicateRegisterIs409(rows: Rows, nextId: int, request: Dict, parses: (UserSchema.Kind, Value) -> bool,
                               hashPassword: Value -> Value, fault: Fault)
    requires UserSchema.Errors(request, UserSchema.Whole, parses) == map[]
    requires EmailInUse(rows, Get(request, "email")) && fault != Unexpected
    ensures var service := (d: Dict) => var r := ServerUsers.RegisterUser(rows, nextId, d, hashPassword, fault); (r.success, r.message);
            HandleRegisterUser(request, parses, service) == Error(409, Outcomes.DuplicateEmail)
  {
    ServerUsers.DuplicateRegisterIsConflict(rows, nextId, request, hashPassword, fault);
  }

  /**
   * Logging in: a missing or empty e-mail or password is a 400 without
   * looking at the table; the user holding the e-mail with a matching
   * password gets a token whose claims are its id and an expiry one hour
   * from now (500 when encoding fails); an unknown e-mail and a wrong
   * password both give the same 401 "Invalid credentials".
   */
  lemma AuthorizeOutcomes(request: Dict, rows: Rows, nextId: int, checkPassword: (Value, Value) -> bool,
                          encode: Dict -> Option<string>, now: int, rows2: Rows)
    requires TableValid(rows, nextId)
    ensures !Truthy(Get(request, "email")) || !Truthy(Get(request, "password")) ==>
      HandleAuthorizeUser(request, rows, nextId, checkPassword, encode, now) == Error(400, CredentialsRequired) &&
      HandleAuthorizeUser(request, rows2, nextId, checkPassword, encode, now) == Error(400, CredentialsRequired)
    ensures Truthy(Get(request, "email")) && Truthy(Get(request, "password")) ==>
      ((forall k :: k in rows ==> EmailOf(rows[k]) != Get(request, "email")) ==>
        HandleAuthorizeUser(request, rows, nextId, checkPassword, encode, now) == Error(401, InvalidCredentials))
    ensures forall k :: k in rows && Truthy(Get(request, "password")) && EmailOf(rows[k]) == Get(request, "email") && Truthy(EmailOf(rows[k])) ==>
      HandleAuthorizeUser(request, rows, nextId, checkPassword, encode, now) ==
        if !checkPassword(Get(rows[k], "password_hash"), Get(request, "password")) then Error(401, InvalidCredentials)
        else if encode(Claims(k, now)).Some? then Reply(200, Single("user_token", Str(encode(Claims(k, now)).value)))
        else Error(500, EncodingFailed)
  {
    FindByEmailExact(rows, nextId, Get(request, "email"));
  }

  /** The claims name the user and expire exactly one hour after issue. */
  lemma ClaimsContents(id: int, now: int)
    ensures Claims(id, now).Keys == {"user_id", "exp"}
    ensures Claims(id, now)["user_id"] == Int(id) && Claims(id, now)["exp"] == Int(now + 3600)
  {
  }

  /**
   * Deleting: success is 201; every failure is 409, "User does not exist"
   * for an unknown e-mail included, and then the table is unchanged.
   */
  lemma DeleteOutcomes(rows: Rows, nextId: int, request: Dict, parses: (UserSchema.Kind, Value) -> bool, fault: Fault)
    requires TableValid(rows, nextId)
    requires UserSchema.Errors(request, UserSchema.EmailOnly, parses) == map[]
    ensures var service := (d: Dict) => var r := ServerUsers.DeleteUser(rows, nextId, d, fault); (r.success, r.message);
            var r := ServerUsers.DeleteUser(rows, nextId, request, fault);
            HandleDeleteUser(request, parses, service) == if r.success then Reply(201, Info(r.message)) else Error(409, r.message)
    ensures var service := (d: Dict) => var r := ServerUsers.DeleteUser(rows, nextId, d, fault); (r.success, r.message);
            (forall k :: k in rows ==> EmailOf(rows[k]) != Get(request, "email")) ==>
              HandleDeleteUser(request, parses, service) == Error(409, Outcomes.UserDoesNotExist)
  {
    var service := (d: Dict) => var r := ServerUsers.DeleteUser(rows, nextId, d, fault); (r.success, r.message);
    var r := ServerUsers.DeleteUser(rows, nextId, request, fault);
    assert service(request) == (r.success, r.message);
    DeleteReplies(request, parses, service);
    ServerUsers.DeleteByEmail(rows, nextId, request, fault);
  }

  /** Past the schema, the reply is 201 with the message on success and 409 with it otherwise. */
  lemma DeleteReplies(request: Dict, parses: (UserSchema.Kind, Value) -> bool, deleteUser: Dict -> (bool, string))
    requires UserSchema.Errors(request, UserSchema.EmailOnly, parses) == map[]
    ensures HandleDeleteUser(request, parses, deleteUser) ==
      if deleteUser(request).0 then Reply(201, Info(deleteUser(request).1)) else Error(409, deleteUser(request).1)
  {
  }

  /**
   * Updating: a message holding the duplicate-e-mail text is 409; any other
   * failure, "User does not exist" included, is 500.
   */
  lemma UpdateOutcomes(request: Dict, parses: (UserSchema.Kind, Value) -> bool, updateUser: Dict -> (bool, string))
    requires UserSchema.Errors(request, UserSchema.Partial, parses) == map[]
    ensures var (success, message) := updateUser(request);
            !success ==> (HandleUpdateUser(request, parses, updateUser).code == 409 <==> Text.Contains(message, Outcomes.DuplicateEmail))
    ensures var (success, message) := updateUser(request);
            !success ==> HandleUpdateUser(request, parses, updateUser).code in {409, 500}
    ensures updateUser(request) == (false, Outcomes.UserDoesNotExist) ==>
      HandleUpdateUser(request, parses, updateUser) == Error(500, Outcomes.UserDoesNotExist)
  {
    if Text.Contains(Outcomes.UserDoesNotExist, Outcomes.DuplicateEmail) {
      Text.ContainsNotLonger(Outcomes.UserDoesNotExist, Outcomes.DuplicateEmail);
    }
  }

  /**
   * Details: success is 200 with `{user_details}`; exactly "User does not
   * exist" is 400; any other failure or an exception is 500.
   */
  lemma DetailsOutcomes(rows: Rows, id: int, fault: Fault, message: string, user: Dict)
    ensures HandleUserDetails(None) == Error(500, DetailsFailed)
    ensures HandleUserDetails(Some((false, message, user))).code == 400 <==> message == Outcomes.UserDoesNotExist
    ensures HandleUserDetails(Some((false, message, user))).code in {400, 500}
    ensures var r := ServerUsers.GetUserDetails(rows, id, fault);
            HandleUserDetails(Some((r.success, r.message, r.details))) ==
              if fault != NoFault then Error(500, ServerUsers.LookupUnexpected)
              else if id !in rows then Error(400, Outcomes.UserDoesNotExist)
              else Reply(200, Single("user_details", Object(rows[id])))
  {
  }
}
