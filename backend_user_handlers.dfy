/**
 * The newer server's user handlers (backend/server/handlers/user.py): each
 * maps a schema check and a service result to a reply through
 * `unified_response`. The services are parameters, so that a handler that
 * does not call its service is seen not to depend on it; a stored user is
 * its `to_dict()` row, and a service that hands back no user (`None` or
 * `{}`) makes the handler's `user.to_dict()` raise.
 */
module BackendUserHandlers {
  import opened Wrappers
  import opened Json
  import opened HttpReply
  import opened Outcomes
  import UserTable
  import BackendUsers

  const InvalidCreate := "Failed to create user. Provided data was not valid."
  const InvalidUpdate := "Failed to update user. Provided data was not valid."
  // written in pieces so that the verifier can see it holds no colon
  const PasswordNotHere := "Password updates " + "are not allowed " + "here. Please use " + "the dedicated " +
                           "password update " + "endpoint."
  const NotFound := "User not found"

  /** What a handler does: reply, return `None`, or raise before replying. */
  datatype Answer = Answered(reply: Reply) | ReturnsNone | Throws

  /** A list of strings as a JSON value. */
  function Strings(ms: seq<string>): Value {
    List(seq(|ms|, i requires 0 <= i < |ms| => Str(ms[i])))
  }

  /** A list of users as a JSON value. */
  function UserList(users: seq<UserTable.Row>): Value {
    List(seq(|users|, i requires 0 <= i < |users| => Object(users[i])))
  }

  function HandleCreateUser(v: Validated, createUser: Dict -> (bool, string)): Reply {
    match v
    case Invalid(ms) => UnifiedResponse(false, InvalidCreate, Single("error_info", Strings(ms)), 400)
    case Valid(d) =>
      var (success, message) := createUser(d);
      UnifiedResponse(success, message, Info(message), if success then 201 else 500)
  }

  function HandleGetUsers(isAdmin: bool, users: (bool, string, seq<UserTable.Row>)): Answer {
    if !isAdmin then ReturnsNone
    else
      var (success, message, list) := users;
      if !success then Answered(UnifiedResponse(false, message, map[], 500))
      else Answered(UnifiedResponse(true, message, Single("users", UserList(list)), 200))
  }

  /** `handle_get_user(user)`: `None` stands for a value that is not a `User`. */
  function HandleGetUser(user: Option<UserTable.Row>): Reply {
    match user
    case None => UnifiedResponse(false, NotFound, map[], 404)
    case Some(u) => UnifiedResponse(true, "Success", Single("user", Object(u)), 200)
  }

  function HandleGetUserById(found: (bool, string, Option<UserTable.Row>)): Answer {
    var (success, message, user) := found;
    if !success then Answered(UnifiedResponse(false, message, map[], 500))
    else if user.None? then Throws
    else Answered(UnifiedResponse(true, message, Single("user", Object(user.value)), 200))
  }

  /** `handle_update_user(user, request_data)`; `updateUser` is `update_user` on the current user. */
  function HandleUpdateUser(request: Dict, v: Validated, updateUser: Dict -> (bool, string, Option<UserTable.Row>)): Answer {
    if "password" in request then Answered(UnifiedResponse(false, PasswordNotHere, map[], 400))
    else
      match v
      case Invalid(ms) => Answered(UnifiedResponse(false, InvalidUpdate, Single("error_info", Strings(ms)), 400))
      case Valid(d) =>
        var (success, message, user) := updateUser(d);
        // `user.to_dict()` is evaluated before `unified_response` is called
        if user.None? then Throws
        else Answered(UnifiedResponse(success, message, Single("user", Object(user.value)), if success then 200 else 500))
  }

  function HandleUpdateUserById(id: int, request: Dict, v: Validated,
                                updateUserById: (int, Dict) -> (bool, string, Option<UserTable.Row>)): Answer {
    if "password" in request then Answered(UnifiedResponse(false, PasswordNotHere, map[], 400))
    else
      match v
      case Invalid(ms) => Answered(UnifiedResponse(false, InvalidUpdate, Single("error_info", Strings(ms)), 400))
      case Valid(d) =>
        var (success, message, user) := updateUserById(id, d);
        if !success then Answered(UnifiedResponse(false, message, map[], 500))
        else if user.None? then Throws
        else Answered(UnifiedResponse(success, message, Single("user", Object(user.value)), 200))
  }

  /**
   * `handle_delete_user(user)` as written: it unpacks three values from the
   * pair `delete_user` returns, so it raises after the service has run.
   */
  function HandleDeleteUser(deleted: (bool, string)): Answer {
    Throws
  }

  /** `handle_delete_user(user)` with the pair unpacked as the service returns it. */
  function HandleDeleteUserAsIntended(deleted: (bool, string)): Reply {
    var (success, message) := deleted;
    if !success then UnifiedResponse(false, message, map[], 500)
    else UnifiedResponse(true, message, Info(message), 200)
  }

  function HandleDeleteUserById(id: int, deleteUserById: int -> (bool, string)): Reply {
    var (success, message) := deleteUserById(id);
    if !success then UnifiedResponse(false, message, map[], 500)
    else UnifiedResponse(true, message, Info(message), 200)
  }

  // ---------------------------------------------------------------------------
  // Properties
  // ---------------------------------------------------------------------------

  /**
   * Creation: invalid data is a 500 (the classifier ignores the 400 passed
   * in) without calling the service; success is 201 with `{info: message}`;
   * a failure is classified.
   */
  lemma CreateOutcomes(ms: seq<string>, d: Dict, createUser: Dict -> (bool, string), other: Dict -> (bool, string))
    ensures HandleCreateUser(Invalid(ms), createUser) == Error(500, InvalidCreate)
    ensures HandleCreateUser(Invalid(ms), createUser) == HandleCreateUser(Invalid(ms), other)
    ensures createUser(d).0 ==> HandleCreateUser(Valid(d), createUser) == Reply(201, Info(createUser(d).1))
    ensures !createUser(d).0 ==> HandleCreateUser(Valid(d), createUser) == Classify(createUser(d).1)
  {
    ShortMessageIs500(InvalidCreate);
    assert Info(createUser(d).1) != map[] by { assert "info" in Info(createUser(d).1); }
  }

  /** A non-administrator gets `None`; an administrator the users or the classified failure. */
  lemma GetUsersOutcomes(isAdmin: bool, users: (bool, string, seq<UserTable.Row>))
    ensures !isAdmin <==> HandleGetUsers(isAdmin, users) == ReturnsNone
    ensures isAdmin && users.0 ==> HandleGetUsers(isAdmin, users) == Answered(Reply(200, Single("users", UserList(users.2))))
    ensures isAdmin && !users.0 ==> HandleGetUsers(isAdmin, users) == Answered(Classify(users.1))
  {
    assert "users" in Single("users", UserList(users.2));
  }

  /** A value that is not a user gives 'User not found' with 500, not 404. */
  lemma GetUserNotFound()
    ensures HandleGetUser(None) == Error(500, NotFound)
  {
    ShortMessageIs500(NotFound);
  }

  /**
   * By id: the lookup succeeds with no user for an unknown id, and then the
   * handler raises; a stored user is returned with 200.
   */
  lemma GetUserByIdOutcomes(rows: UserTable.Rows, id: int)
    ensures var r := BackendUsers.GetUserById(rows, id, UserTable.NoFault);
            id !in rows ==> HandleGetUserById((r.success, r.message, r.user)) == Throws
    ensures var r := BackendUsers.GetUserById(rows, id, UserTable.NoFault);
            id in rows ==> HandleGetUserById((r.success, r.message, r.user)) == Answered(Reply(200, Single("user", Object(rows[id]))))
  {
    if id in rows {
      FoundUserReplies("Success", rows[id]);
    }
  }

  /** A successful lookup that found a user replies 200 with that user. */
  lemma FoundUserReplies(message: string, user: UserTable.Row)
    ensures HandleGetUserById((true, message, Some(user))) == Answered(Reply(200, Single("user", Object(user))))
  {
    assert "user" in Single("user", Object(user));
    assert UnifiedResponse(true, message, Single("user", Object(user)), 200) == Reply(200, Single("user", Object(user)));
  }

  /**
   * Updating: a request naming "password" and data failing the schema are
   * both 500 (not the 400 passed in), whatever the service would do.
   */
  lemma UpdateRejections(request: Dict, v: Validated, ms: seq<string>,
                         updateUser: Dict -> (bool, string, Option<UserTable.Row>),
                         updateUserById: (int, Dict) -> (bool, string, Option<UserTable.Row>), id: int)
    ensures "password" in request ==> HandleUpdateUser(request, v, updateUser) == Answered(Error(500, PasswordNotHere))
    ensures "password" in request ==> HandleUpdateUserById(id, request, v, updateUserById) == Answered(Error(500, PasswordNotHere))
    ensures "password" !in request ==> HandleUpdateUser(request, Invalid(ms), updateUser) == Answered(Error(500, InvalidUpdate))
    ensures "password" !in request ==> HandleUpdateUserById(id, request, Invalid(ms), updateUserById) == Answered(Error(500, InvalidUpdate))
  {
    PasswordRejected(request, v, updateUser, updateUserById, id);
    InvalidRejected(request, ms, updateUser, updateUserById, id);
  }

  lemma PasswordRejected(request: Dict, v: Validated,
                         updateUser: Dict -> (bool, string, Option<UserTable.Row>),
                         updateUserById: (int, Dict) -> (bool, string, Option<UserTable.Row>), id: int)
    ensures "password" in request ==> HandleUpdateUser(request, v, updateUser) == Answered(Error(500, PasswordNotHere))
    ensures "password" in request ==> HandleUpdateUserById(id, request, v, updateUserById) == Answered(Error(500, PasswordNotHere))
  {
    PlainMessageIs500(PasswordNotHere);
  }

  lemma InvalidRejected(request: Dict, ms: seq<string>,
                        updateUser: Dict -> (bool, string, Option<UserTable.Row>),
                        updateUserById: (int, Dict) -> (bool, string, Option<UserTable.Row>), id: int)
    ensures "password" !in request ==> HandleUpdateUser(request, Invalid(ms), updateUser) == Answered(Error(500, InvalidUpdate))
    ensures "password" !in request ==> HandleUpdateUserById(id, request, Invalid(ms), updateUserById) == Answered(Error(500, InvalidUpdate))
  {
    ShortMessageIs500(InvalidUpdate);
  }

  /**
   * A failed update of the current user raises instead of replying: the
   * service returns `{}` as the user on every failure.
   */
  lemma FailedUpdateThrows(rows: UserTable.Rows, id: int, items: seq<(string, Value)>, fault: UserTable.Fault,
                           request: Dict, d: Dict)
    requires id in rows && "password" !in request
    ensures var r := BackendUsers.UpdateUser(rows, id, items, fault);
            !r.success ==> HandleUpdateUser(request, Valid(d), _ => (r.success, r.message, r.user)) == Throws
    ensures var r := BackendUsers.UpdateUser(rows, id, items, fault);
            r.success ==>
              HandleUpdateUser(request, Valid(d), _ => (r.success, r.message, r.user)) ==
                Answered(Reply(200, Single("user", Object(r.user.value))))
  {
    var r := BackendUsers.UpdateUser(rows, id, items, fault);
    var service := _ => (r.success, r.message, r.user);
    assert service(d) == (r.success, r.message, r.user);
    if r.success {
      UpdateWithUserReplies(request, d, service, r.message, r.user.value);
    }
  }

  /** An update service that returns a user makes the handler answer 200 with that user. */
  lemma UpdateWithUserReplies(request: Dict, d: Dict, updateUser: Dict -> (bool, string, Option<UserTable.Row>),
                              message: string, user: UserTable.Row)
    requires "password" !in request && updateUser(d) == (true, message, Some(user))
    ensures HandleUpdateUser(request, Valid(d), updateUser) == Answered(Reply(200, Single("user", Object(user))))
  {
    assert "user" in Single("user", Object(user));
    assert UnifiedResponse(true, message, Single("user", Object(user)), 200) == Reply(200, Single("user", Object(user)));
  }

  /** Updating an unknown id is 'User does not exist' with 400; nothing is written. */
  lemma UnknownIdUpdateIs400(rows: UserTable.Rows, id: int, items: seq<(string, Value)>, fault: UserTable.Fault,
                             request: Dict, d: Dict)
    requires id !in rows && "password" !in request
    ensures var service := (i: int, _: Dict) => var r := BackendUsers.UpdateUserById(rows, i, items, fault); (r.success, r.message, r.user);
            HandleUpdateUserById(id, request, Valid(d), service) == Answered(Error(400, UserDoesNotExist))
  {
  }

  /**
   * As written, deleting the current user always raises, after the service
   * has run; as intended it replies 200 with `{info: message}` or the
   * classified failure.
   */
  lemma DeleteUserAlwaysThrows(deleted: (bool, string))
    ensures HandleDeleteUser(deleted) == Throws
    ensures HandleDeleteUser(deleted) != Answered(HandleDeleteUserAsIntended(deleted))
  {
  }

  lemma IntendedDeleteReplies(rows: UserTable.Rows, id: int, fault: UserTable.Fault)
    requires id in rows
    ensures var r := BackendUsers.DeleteUser(rows, id, fault);
            HandleDeleteUserAsIntended((r.success, r.message)) ==
              if r.success then Reply(200, Info(BackendUsers.Deleted)) else Error(500, BackendUsers.DeleteUnexpected)
  {
    assert "info" in Info(BackendUsers.Deleted);
    ShortMessageIs500(BackendUsers.DeleteUnexpected);
  }

  /** Deleting by id: an unknown id is 400, a success 200 with `{info: message}`. */
  lemma DeleteByIdOutcomes(rows: UserTable.Rows, id: int, fault: UserTable.Fault)
    ensures var service := (i: int) => var r := BackendUsers.DeleteUserById(rows, i, fault); (r.success, r.message);
            HandleDeleteUserById(id, service) ==
              if id !in rows then Error(400, UserDoesNotExist)
              else if fault == UserTable.NoFault then Reply(200, Info(BackendUsers.Deleted))
              else Error(500, BackendUsers.DeleteUnexpected)
  {
    assert "info" in Info(BackendUsers.Deleted);
    ShortMessageIs500(BackendUsers.DeleteUnexpected);
  }
}
