/**
 * The newer server's user service (backend/server/services/user.py) over
 * the in-memory users table. Each operation is a function from the table
 * before to its result and the table after; the class `Users` holds the
 * table and runs the operations in place, the `setattr` loop included.
 *
 * The password setter is the parameter `hashPassword`; a `User` object
 * passed in by the caller is its primary key, which is in the table.
 */
module BackendUsers {
  import opened Wrappers
  import opened Json
  import opened UserTable
  import Outcomes

  const Created := "User created successfully"
  const CouldNotCreate := "Integrity Error: Could not create user"
  const CreateUnexpected := "Unexpected error occured. Could not create user"
  const Updated := "User updated successfully"
  const CouldNotUpdate := "Integrity Error: Could not update user"
  const UpdateUnexpected := "Unexpected error occurred. Could not update user"
  const Deleted := "User deleted successfully"
  const DeleteUnexpected := "Unexpected error occurred. Could not delete user"
  const LookupUnexpected := "Unexpected error occurred"

  /** A service result: the flag, the message, the user returned (if any) and the table after. */
  datatype Result = Result(success: bool, message: string, user: Option<Row>, rows: Rows)

  /** The row `create_user` builds: names and email from the dict, the password through the setter. */
  function NewRow(d: Dict, hashPassword: Value -> Value): Row {
    map["first_name" := Get(d, "first_name"), "last_name" := Get(d, "last_name"),
        "email" := Get(d, "email"), "password_hash" := hashPassword(Get(d, "password"))]
  }

  /** `create_user(user_dict)`; a new user gets the key `nextId`. */
  function CreateUser(rows: Rows, nextId: int, d: Dict, hashPassword: Value -> Value, fault: Fault): Result {
    var row := NewRow(d, hashPassword);
    if fault == Unexpected then Result(false, CreateUnexpected, None, rows)
    else if EmailInUse(rows, EmailOf(row)) then Result(false, Outcomes.DuplicateEmail, None, rows)
    else if fault == OtherIntegrity then Result(false, CouldNotCreate, None, rows)
    else Result(true, Created, Some(row), rows[nextId := row])
  }

  /** `for key, value in user_dict.items(): setattr(user, key, value)`. */
  function Assigned(row: Row, items: seq<(string, Value)>): Row
    decreases |items|
  {
    if items == [] then row
    else Assigned(row, items[..|items| - 1])[items[|items| - 1].0 := items[|items| - 1].1]
  }

  /** `update_user(user, user_dict)` for the user with key `id`. */
  function UpdateUser(rows: Rows, id: int, items: seq<(string, Value)>, fault: Fault): Result
    requires id in rows
  {
    var user := Assigned(rows[id], items);
    if fault == Unexpected then Result(false, UpdateUnexpected, None, rows)
    else if EmailInUse(rows - {id}, EmailOf(user)) then Result(false, Outcomes.DuplicateEmail, None, rows)
    else if fault == OtherIntegrity then Result(false, CouldNotUpdate, None, rows)
    else Result(true, Updated, Some(user), rows[id := user])
  }

  /** `update_user_by_id(user_id, user_dict)`. */
  function UpdateUserById(rows: Rows, id: int, items: seq<(string, Value)>, fault: Fault): Result {
    if id !in rows then Result(false, Outcomes.UserDoesNotExist, None, rows)
    else UpdateUser(rows, id, items, fault)
  }

  /** `delete_user(user)`: every exception is caught by the generic handler. */
  function DeleteUser(rows: Rows, id: int, fault: Fault): Result
    requires id in rows
  {
    if fault != NoFault then Result(false, DeleteUnexpected, None, rows)
    else Result(true, Deleted, None, rows - {id})
  }

  /** `delete_user_by_id(user_id)`. */
  function DeleteUserById(rows: Rows, id: int, fault: Fault): Result {
    if id !in rows then Result(false, Outcomes.UserDoesNotExist, None, rows)
    else DeleteUser(rows, id, fault)
  }

  /** `get_user_by_id(user_id)`: a query that fails, or the user found, or none. */
  function GetUserById(rows: Rows, id: int, fault: Fault): Result {
    if fault != NoFault then Result(false, LookupUnexpected, None, rows)
    else Result(true, "Success", if id in rows then Some(rows[id]) else None, rows)
  }

  /** `get_users()`: every user, or none when the query fails. */
  function GetUsers(rows: Rows, fault: Fault): (bool, string, Rows) {
    if fault != NoFault then (false, LookupUnexpected, map[]) else (true, "Success", rows)
  }

  class Users {
    var rows: Rows
    var nextId: int

    ghost predicate Valid()
      reads this
    {
      TableValid(rows, nextId)
    }

    constructor ()
      ensures rows == map[] && nextId == 1 && Valid()
    {
      rows, nextId := map[], 1;
    }

    method Create(d: Dict, hashPassword: Value -> Value, fault: Fault) returns (success: bool, message: string)
      requires Valid()
      modifies this
      ensures var r := CreateUser(old(rows), old(nextId), d, hashPassword, fault);
              success == r.success && message == r.message && rows == r.rows
      ensures nextId == if success then old(nextId) + 1 else old(nextId)
      ensures Valid()
    {
      var row := NewRow(d, hashPassword);
      if fault == Unexpected {
        return false, CreateUnexpected;
      }
      if EmailInUse(rows, EmailOf(row)) {
        return false, Outcomes.DuplicateEmail;
      }
      if fault == OtherIntegrity {
        return false, CouldNotCreate;
      }
      CreateKeepsTableValid(rows, nextId, d, hashPassword, fault);
      rows := rows[nextId := row];
      nextId := nextId + 1;
      return true, Created;
    }

    /** The `setattr` loop on a copy of the stored attributes. */
    static method Assign(row: Row, items: seq<(string, Value)>) returns (user: Row)
      ensures user == Assigned(row, items)
    {
      user := row;
      var i := 0;
      while i < |items|
        invariant 0 <= i <= |items|
        invariant user == Assigned(row, items[..i])
      {
        assert items[..i + 1][..i] == items[..i];
        user := user[items[i].0 := items[i].1];
        i := i + 1;
      }
      assert items[..|items|] == items;
    }

    method Update(id: int, items: seq<(string, Value)>, fault: Fault)
      returns (success: bool, message: string, user: Option<Row>)
      requires Valid() && id in rows
      modifies this`rows
      ensures var r := UpdateUser(old(rows), id, items, fault);
              success == r.success && message == r.message && user == r.user && rows == r.rows
      ensures Valid()
    {
      var updated := Assign(rows[id], items);
      if fault == Unexpected {
        return false, UpdateUnexpected, None;
      }
      if EmailInUse(rows - {id}, EmailOf(updated)) {
        return false, Outcomes.DuplicateEmail, None;
      }
      if fault == OtherIntegrity {
        return false, CouldNotUpdate, None;
      }
      UpdateKeepsTableValid(rows, nextId, id, items, fault);
      rows := rows[id := updated];
      return true, Updated, Some(updated);
    }

    method UpdateById(id: int, items: seq<(string, Value)>, fault: Fault)
      returns (success: bool, message: string, user: Option<Row>)
      requires Valid()
      modifies this`rows
      ensures var r := UpdateUserById(old(rows), id, items, fault);
              success == r.success && message == r.message && user == r.user && rows == r.rows
      ensures Valid()
    {
      if id !in rows {
        return false, Outcomes.UserDoesNotExist, None;
      }
      success, message, user := Update(id, items, fault);
    }

    method Delete(id: int, fault: Fault) returns (success: bool, message: string)
      requires Valid() && id in rows
      modifies this`rows
      ensures var r := DeleteUser(old(rows), id, fault);
              success == r.success && message == r.message && rows == r.rows
      ensures Valid()
    {
      if fault != NoFault {
        return false, DeleteUnexpected;
      }
      rows := rows - {id};
      return true, Deleted;
    }

    method DeleteById(id: int, fault: Fault) returns (success: bool, message: string)
      requires Valid()
      modifies this`rows
      ensures var r := DeleteUserById(old(rows), id, fault);
              success == r.success && message == r.message && rows == r.rows
      ensures Valid()
    {
      if id !in rows {
        return false, Outcomes.UserDoesNotExist;
      }
      success, message := Delete(id, fault);
    }
  }

  // ---------------------------------------------------------------------------
  // Properties of the operations
  // ---------------------------------------------------------------------------

  /**
   * Creation succeeds exactly when the commit goes through and no user holds
   * the new email; the new user is then added under a fresh key and nothing
   * else changes. The table invariant is kept either way.
   */
  lemma CreateKeepsTableValid(rows: Rows, nextId: int, d: Dict, hashPassword: Value -> Value, fault: Fault)
    requires TableValid(rows, nextId)
    ensures var r := CreateUser(rows, nextId, d, hashPassword, fault);
            && (r.success <==> fault == NoFault && !EmailInUse(rows, Get(d, "email")))
            && (r.success ==> nextId !in rows && r.rows == rows[nextId := NewRow(d, hashPassword)])
            && TableValid(r.rows, if r.success then nextId + 1 else nextId)
  {
    var row := NewRow(d, hashPassword);
    assert EmailOf(row) == Get(d, "email");
    if fault == NoFault && !EmailInUse(rows, EmailOf(row)) {
      assert rows - {nextId} == rows;
      PutKeepsUnique(rows, nextId, row);
    }
  }

  /**
   * A duplicate email is reported with the integrity message (unless the
   * commit fails otherwise first), and the classifier turns it into 409.
   */
  lemma DuplicateCreateIsConflict(rows: Rows, nextId: int, d: Dict, hashPassword: Value -> Value, fault: Fault)
    requires EmailInUse(rows, Get(d, "email")) && fault != Unexpected
    ensures CreateUser(rows, nextId, d, hashPassword, fault) == Result(false, Outcomes.DuplicateEmail, None, rows)
    ensures Outcomes.Classify(CreateUser(rows, nextId, d, hashPassword, fault).message).code == 409
  {
    assert EmailOf(NewRow(d, hashPassword)) == Get(d, "email");
    Outcomes.DuplicateAnywhereIs409("", "");
    assert "" + Outcomes.DuplicateEmail + "" == Outcomes.DuplicateEmail;
  }

  /** Every failure, of every operation, leaves the table as it was (the rollback). */
  lemma FailuresLeaveTableUnchanged(rows: Rows, nextId: int, d: Dict, hashPassword: Value -> Value,
                                    id: int, items: seq<(string, Value)>, fault: Fault)
    ensures !CreateUser(rows, nextId, d, hashPassword, fault).success ==> CreateUser(rows, nextId, d, hashPassword, fault).rows == rows
    ensures !UpdateUserById(rows, id, items, fault).success ==> UpdateUserById(rows, id, items, fault).rows == rows
    ensures !DeleteUserById(rows, id, fault).success ==> DeleteUserById(rows, id, fault).rows == rows
    ensures !UpdateUserById(rows, id, items, fault).success ==> UpdateUserById(rows, id, items, fault).user == None
  {
  }

  /** The last assignment to a key decides its value. */
  lemma {:induction false} AssignedLastWins(row: Row, items: seq<(string, Value)>, i: int)
    requires 0 <= i < |items|
    requires forall j :: i < j < |items| ==> items[j].0 != items[i].0
    ensures items[i].0 in Assigned(row, items) && Assigned(row, items)[items[i].0] == items[i].1
    decreases |items|
  {
    if i < |items| - 1 {
      var front := items[..|items| - 1];
      assert forall j :: i < j < |front| ==> front[j] == items[j];
      AssignedLastWins(row, front, i);
    }
  }

  /** A key the dict does not name keeps its value, present or absent. */
  lemma {:induction false} AssignedUntouched(row: Row, items: seq<(string, Value)>, k: string)
    requires forall j :: 0 <= j < |items| ==> items[j].0 != k
    ensures (k in Assigned(row, items) <==> k in row)
    ensures k in row ==> Assigned(row, items)[k] == row[k]
    decreases |items|
  {
    if items != [] {
      var front := items[..|items| - 1];
      assert forall j :: 0 <= j < |front| ==> front[j] == items[j];
      AssignedUntouched(row, front, k);
    }
  }

  /**
   * An update keeps the table invariant; it succeeds exactly when the commit
   * goes through and no other user holds the resulting email, and then only
   * that user's row changes, to the assigned attributes.
   */
  lemma UpdateKeepsTableValid(rows: Rows, nextId: int, id: int, items: seq<(string, Value)>, fault: Fault)
    requires TableValid(rows, nextId) && id in rows
    ensures var r := UpdateUser(rows, id, items, fault);
            && (r.success <==> fault == NoFault && !EmailInUse(rows - {id}, EmailOf(Assigned(rows[id], items))))
            && (r.success ==> r.rows == rows[id := Assigned(rows[id], items)] && r.user == Some(Assigned(rows[id], items)))
            && TableValid(r.rows, nextId)
  {
    var user := Assigned(rows[id], items);
    if fault == NoFault && !EmailInUse(rows - {id}, EmailOf(user)) {
      PutKeepsUnique(rows, id, user);
    }
  }

  /** An empty update of a stored user succeeds and leaves the table unchanged. */
  lemma EmptyUpdateSucceeds(rows: Rows, id: int)
    requires UniqueEmails(rows) && id in rows
    ensures UpdateUser(rows, id, [], NoFault) == Result(true, Updated, Some(rows[id]), rows)
  {
  }

  /** An unknown key: "User does not exist" (a 400 reply), and nothing is modified. */
  lemma UnknownIdRejected(rows: Rows, id: int, items: seq<(string, Value)>, fault: Fault)
    requires id !in rows
    ensures UpdateUserById(rows, id, items, fault) == Result(false, Outcomes.UserDoesNotExist, None, rows)
    ensures DeleteUserById(rows, id, fault) == Result(false, Outcomes.UserDoesNotExist, None, rows)
    ensures Outcomes.Classify(UpdateUserById(rows, id, items, fault).message).code == 400
  {
  }

  /** A successful delete by key removes exactly that user. */
  lemma DeleteRemovesExactly(rows: Rows, id: int, fault: Fault)
    ensures DeleteUserById(rows, id, fault).success <==> id in rows && fault == NoFault
    ensures DeleteUserById(rows, id, fault).success ==>
      DeleteUserById(rows, id, fault).rows.Keys == rows.Keys - {id} &&
      forall k :: k in rows && k != id ==> DeleteUserById(rows, id, fault).rows[k] == rows[k]
  {
  }

  /**
   * Looking up an unknown key is a success carrying no user; a stored key
   * gives its row.
   */
  lemma LookupByIdResults(rows: Rows, id: int)
    ensures id !in rows ==> GetUserById(rows, id, NoFault) == Result(true, "Success", None, rows)
    ensures id in rows ==> GetUserById(rows, id, NoFault).user == Some(rows[id])
    ensures GetUserById(rows, id, Unexpected) == Result(false, LookupUnexpected, None, rows)
  {
  }

  /** Listing the users gives every stored user; a failing query gives the error message and no users. */
  lemma ListUsersResults(rows: Rows, fault: Fault)
    ensures fault == NoFault ==> GetUsers(rows, fault) == (true, "Success", rows)
    ensures fault != NoFault ==> GetUsers(rows, fault) == (false, LookupUnexpected, map[])
  {
  }
}
