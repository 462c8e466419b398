/**
 * The older server's user service (server/services/user.py) over the
 * in-memory users table: registration, and deletion and update of the user
 * named by the request's `email`, and the details of a user by key.
 *
 * `User(**user_dict)` followed by `session.merge` is modelled as writing the
 * request's fields over the stored user's, the rest kept. The password
 * setter is the parameter `hashPassword`.
 */
module ServerUsers {
  import opened Wrappers
  import opened Json
  import opened UserTable
  import Outcomes

  const Registered := "User registered successfully"
  const CouldNotRegister := "Integrity Error: Could not register user"
  const RegisterUnexpected := "Unexpected error occured. Could not register user"
  const Deleted := "User deleted successfully"
  const DeleteUnexpected := "Unexpected error occured. Could not delete user"
  const Updated := "User updated successfully"
  const CouldNotUpdate := "Integrity Error: Could not update user"
  const UpdateUnexpected := "Unexpected error occurred. Could not update user"
  const LookupUnexpected := "Unexpected error occurred"

  /** A service result: the flag, the message, the details returned and the table after. */
  datatype Result = Result(success: bool, message: string, details: Dict, rows: Rows)

  /**
   * The row `register_user` builds. Height and weight are read from the keys
   * "height" and "weight", not from the schema's `height_cm` and `weight_kg`.
   */
  function RegisteredRow(d: Dict, hashPassword: Value -> Value): Row {
    map["first_name" := Get(d, "first_name"), "last_name" := Get(d, "last_name"),
        "date_of_birth" := Get(d, "date_of_birth"), "height_cm" := Get(d, "height"),
        "weight_kg" := Get(d, "weight"), "gender" := Get(d, "gender"),
        "email" := Get(d, "email"), "password_hash" := hashPassword(Get(d, "password"))]
  }

  /** `register_user(user_dict)`; a new user gets the key `nextId`. */
  function RegisterUser(rows: Rows, nextId: int, d: Dict, hashPassword: Value -> Value, fault: Fault): Result {
    var row := RegisteredRow(d, hashPassword);
    if fault == Unexpected then Result(false, RegisterUnexpected, map[], rows)
    else if EmailInUse(rows, EmailOf(row)) then Result(false, Outcomes.DuplicateEmail, map[], rows)
    else if fault == OtherIntegrity then Result(false, CouldNotRegister, map[], rows)
    else Result(true, Registered, map[], rows[nextId := row])
  }

  /** `delete_user(user_dict)`: the user whose email is `user_dict['email']`. */
  function DeleteUser(rows: Rows, nextId: int, d: Dict, fault: Fault): Result {
    match FindByEmail(rows, nextId, Get(d, "email"))
    case None => Result(false, Outcomes.UserDoesNotExist, map[], rows)
    case Some(k) =>
      if fault != NoFault then Result(false, DeleteUnexpected, map[], rows)
      else Result(true, Deleted, map[], rows - {k})
  }

  /** `user_dict['email'] = user_dict.pop('new_email')` when `new_email` is present. */
  function RenameNewEmail(d: Dict): Dict {
    if "new_email" in d then (d - {"new_email"})["email" := d["new_email"]] else d
  }

  /** `update_user(user_dict)`: found by the old email, then the (renamed) fields written over it. */
  function UpdateUser(rows: Rows, nextId: int, d: Dict, fault: Fault): Result {
    match FindByEmail(rows, nextId, Get(d, "email"))
    case None => Result(false, Outcomes.UserDoesNotExist, map[], rows)
    case Some(k) =>
      var user := rows[k] + RenameNewEmail(d);
      if fault == Unexpected then Result(false, UpdateUnexpected, map[], rows)
      else if EmailInUse(rows - {k}, EmailOf(user)) then Result(false, Outcomes.DuplicateEmail, map[], rows)
      else if fault == OtherIntegrity then Result(false, CouldNotUpdate, map[], rows)
      else Result(true, Updated, map[], rows[k := user])
  }

  /** `get_user_details(user_id)`. */
  function GetUserDetails(rows: Rows, id: int, fault: Fault): Result {
    if fault != NoFault then Result(false, LookupUnexpected, map[], rows)
    else if id !in rows then Result(false, Outcomes.UserDoesNotExist, map[], rows)
    else Result(true, "Success", rows[id], rows)
  }

  class Users {
    var rows: Rows
    var nextId: int

    ghost predicate Valid()
      reads this
    {
      TableValid(rows, nextId)
    }

    constructor ()
      ensures rows == map[] && nextId == 1 && Valid()
    {
      rows, nextId := map[], 1;
    }

    method Register(d: Dict, hashPassword: Value -> Value, fault: Fault) returns (success: bool, message: string)
      requires Valid()
      modifies this
      ensures var r := RegisterUser(old(rows), old(nextId), d, hashPassword, fault);
              success == r.success && message == r.message && rows == r.rows
      ensures nextId == if success then old(nextId) + 1 else old(nextId)
      ensures Valid()
    {
      var row := RegisteredRow(d, hashPassword);
      if fault == Unexpected {
        return false, RegisterUnexpected;
      }
      if EmailInUse(rows, EmailOf(row)) {
        return false, Outcomes.DuplicateEmail;
      }
      if fault == OtherIntegrity {
        return false, CouldNotRegister;
      }
      RegisterKeepsTableValid(rows, nextId, d, hashPassword, fault);
      rows := rows[nextId := row];
      nextId := nextId + 1;
      return true, Registered;
    }

    method Delete(d: Dict, fault: Fault) returns (success: bool, message: string)
      requires Valid()
      modifies this`rows
      ensures var r := DeleteUser(old(rows), nextId, d, fault);
              success == r.success && message == r.message && rows == r.rows
      ensures Valid()
    {
      var found := FindByEmail(rows, nextId, Get(d, "email"));
      if found.None? {
        return false, Outcomes.UserDoesNotExist;
      }
      if fault != NoFault {
        return false, DeleteUnexpected;
      }
      rows := rows - {found.value};
      return true, Deleted;
    }

    method Update(d: Dict, fault: Fault) returns (success: bool, message: string)
      requires Valid()
      modifies this`rows
      ensures var r := UpdateUser(old(rows), nextId, d, fault);
              success == r.success && message == r.message && rows == r.rows
      ensures Valid()
    {
      var found := FindByEmail(rows, nextId, Get(d, "email"));
      if found.None? {
        return false, Outcomes.UserDoesNotExist;
      }
      var k := found.value;
      var user := rows[k] + RenameNewEmail(d);
      if fault == Unexpected {
        return false, UpdateUnexpected;
      }
      if EmailInUse(rows - {k}, EmailOf(user)) {
        return false, Outcomes.DuplicateEmail;
      }
      if fault == OtherIntegrity {
        return false, CouldNotUpdate;
      }
      PutKeepsUnique(rows, k, user);
      rows := rows[k := user];
      return true, Updated;
    }
  }

  // ---------------------------------------------------------------------------
  // Properties of the operations
  // ---------------------------------------------------------------------------

  /**
   * Registration succeeds exactly when the commit goes through and no user
   * holds the email; the user is then added under a fresh key, and the table
   * invariant is kept either way.
   */
  lemma RegisterKeepsTableValid(rows: Rows, nextId: int, d: Dict, hashPassword: Value -> Value, fault: Fault)
    requires TableValid(rows, nextId)
    ensures var r := RegisterUser(rows, nextId, d, hashPassword, fault);
            && (r.success <==> fault == NoFault && !EmailInUse(rows, Get(d, "email")))
            && (r.success ==> nextId !in rows && r.rows == rows[nextId := RegisteredRow(d, hashPassword)])
            && (!r.success ==> r.rows == rows)
            && TableValid(r.rows, if r.success then nextId + 1 else nextId)
  {
    var row := RegisteredRow(d, hashPassword);
    assert EmailOf(row) == Get(d, "email");
    if fault == NoFault && !EmailInUse(rows, EmailOf(row)) {
      assert rows - {nextId} == rows;
      PutKeepsUnique(rows, nextId, row);
    }
  }

  /** A duplicate email: the integrity message, a 409 from the classifier, the table unchanged. */
  lemma DuplicateRegisterIsConflict(rows: Rows, nextId: int, d: Dict, hashPassword: Value -> Value, fault: Fault)
    requires EmailInUse(rows, Get(d, "email")) && fault != Unexpected
    ensures RegisterUser(rows, nextId, d, hashPassword, fault) == Result(false, Outcomes.DuplicateEmail, map[], rows)
    ensures Outcomes.Classify(RegisterUser(rows, nextId, d, hashPassword, fault).message).code == 409
  {
    assert EmailOf(RegisteredRow(d, hashPassword)) == Get(d, "email");
    Outcomes.DuplicateAnywhereIs409("", "");
    assert "" + Outcomes.DuplicateEmail + "" == Outcomes.DuplicateEmail;
  }

  /** Input under `height_cm` and `weight_kg` is not stored; "height" and "weight" are. */
  lemma HeightAndWeightKeys(d: Dict, hashPassword: Value -> Value)
    ensures RegisteredRow(d, hashPassword)["height_cm"] == Get(d, "height")
    ensures RegisteredRow(d, hashPassword)["weight_kg"] == Get(d, "weight")
    ensures "height" !in d && "weight" !in d ==>
      RegisteredRow(d, hashPassword)["height_cm"] == Null && RegisteredRow(d, hashPassword)["weight_kg"] == Null
  {
  }

  /**
   * Deleting by email: with no user holding it, "User does not exist" and
   * nothing removed; on success exactly the one user holding it is removed.
   */
  lemma DeleteByEmail(rows: Rows, nextId: int, d: Dict, fault: Fault)
    requires TableValid(rows, nextId)
    ensures (forall k :: k in rows ==> EmailOf(rows[k]) != Get(d, "email")) ==>
      DeleteUser(rows, nextId, d, fault) == Result(false, Outcomes.UserDoesNotExist, map[], rows)
    ensures DeleteUser(rows, nextId, d, fault).success ==>
      exists k :: k in rows && EmailOf(rows[k]) == Get(d, "email") && DeleteUser(rows, nextId, d, fault).rows == rows - {k}
    ensures !DeleteUser(rows, nextId, d, fault).success ==> DeleteUser(rows, nextId, d, fault).rows == rows
  {
    FindByEmailExact(rows, nextId, Get(d, "email"));
  }

  /** A present `new_email` becomes the email and disappears as a key; otherwise the dict is kept. */
  lemma NewEmailReplacesEmail(d: Dict)
    ensures "new_email" in d ==>
      && RenameNewEmail(d)["email"] == d["new_email"]
      && "new_email" !in RenameNewEmail(d)
      && forall k :: k in d && k != "new_email" && k != "email" ==> k in RenameNewEmail(d) && RenameNewEmail(d)[k] == d[k]
    ensures "new_email" !in d ==> RenameNewEmail(d) == d
  {
  }

  /**
   * An update finds the user by the request's `email`: unknown, it fails
   * with "User does not exist" and nothing changes; on success only that
   * user changes, to its old fields overwritten by the request's, and the
   * invariant is kept.
   */
  lemma UpdateByEmail(rows: Rows, nextId: int, d: Dict, fault: Fault)
    requires TableValid(rows, nextId)
    ensures (forall k :: k in rows ==> EmailOf(rows[k]) != Get(d, "email")) ==>
      UpdateUser(rows, nextId, d, fault) == Result(false, Outcomes.UserDoesNotExist, map[], rows)
    ensures UpdateUser(rows, nextId, d, fault).success ==>
      exists k :: k in rows && EmailOf(rows[k]) == Get(d, "email") &&
        UpdateUser(rows, nextId, d, fault).rows == rows[k := rows[k] + RenameNewEmail(d)]
    ensures !UpdateUser(rows, nextId, d, fault).success ==> UpdateUser(rows, nextId, d, fault).rows == rows
    ensures TableValid(UpdateUser(rows, nextId, d, fault).rows, nextId)
  {
    FindByEmailExact(rows, nextId, Get(d, "email"));
    var found := FindByEmail(rows, nextId, Get(d, "email"));
    if found.Some? {
      var k := found.value;
      var user := rows[k] + RenameNewEmail(d);
      if !EmailInUse(rows - {k}, EmailOf(user)) {
        PutKeepsUnique(rows, k, user);
      }
    }
  }

  /** Details: an unknown key gives "User does not exist" and no data; a stored key its row. */
  lemma DetailsResults(rows: Rows, id: int)
    ensures id !in rows ==> GetUserDetails(rows, id, NoFault) == Result(false, Outcomes.UserDoesNotExist, map[], rows)
    ensures id in rows ==> GetUserDetails(rows, id, NoFault) == Result(true, "Success", rows[id], rows)
  {
  }
}
