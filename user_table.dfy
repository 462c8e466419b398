/**
 * The `users` table both servers keep through SQLAlchemy, as an in-memory
 * map from primary key to the user's attributes. The table has a unique
 * constraint on `email` (SQL lets several rows hold NULL there). A commit
 * either applies a change or, after a rollback, leaves the table as it was.
 */
module UserTable {
  import opened Wrappers
  import opened Json

  /** A user's attributes by column name. */
  type Row = Dict

  type Rows = map<int, Row>

  /**
   * What the database does at commit apart from the unique-email check,
   * which the model decides itself: nothing, another integrity violation,
   * or some other exception.
   */
  datatype Fault = NoFault | OtherIntegrity | Unexpected

  function EmailOf(row: Row): Value {
    Get(row, "email")
  }

  /** Some row holds the non-null `email` (the unique constraint would fail). */
  predicate EmailInUse(rows: Rows, email: Value) {
    email != Null && exists k :: k in rows && EmailOf(rows[k]) == email
  }

  /** No two rows share a non-null email. */
  predicate UniqueEmails(rows: Rows) {
    forall a, b :: a in rows && b in rows && a != b && EmailOf(rows[a]) != Null ==> EmailOf(rows[a]) != EmailOf(rows[b])
  }

  /**
   * The table invariant: unique emails, and every key positive and below the
   * next key to hand out.
   */
  predicate TableValid(rows: Rows, nextId: int) {
    UniqueEmails(rows) && nextId >= 1 && forall k :: k in rows ==> 0 < k < nextId
  }

  /** The first key in `[lo, hi)` whose row holds `email` (`filter_by(email=...).first()`). */
  function FirstWithEmail(rows: Rows, email: Value, lo: int, hi: int): (r: Option<int>)
    ensures r.Some? ==> lo <= r.value < hi && r.value in rows && EmailOf(rows[r.value]) == email
    ensures r.Some? ==> (forall k :: lo <= k < r.value && k in rows ==> EmailOf(rows[k]) != email)
    ensures r.None? ==> (forall k :: lo <= k < hi && k in rows ==> EmailOf(rows[k]) != email)
    decreases hi - lo
  {
    if lo >= hi then None
    else if lo in rows && EmailOf(rows[lo]) == email then Some(lo)
    else FirstWithEmail(rows, email, lo + 1, hi)
  }

  /** The user holding `email` in a table whose keys lie in `[1, nextId)`. */
  function FindByEmail(rows: Rows, nextId: int, email: Value): Option<int> {
    FirstWithEmail(rows, email, 1, nextId)
  }

  /**
   * In a valid table the lookup finds a user exactly when some row holds the
   * email; for a non-null email it is the only such row.
   */
  lemma FindByEmailExact(rows: Rows, nextId: int, email: Value)
    requires TableValid(rows, nextId)
    ensures FindByEmail(rows, nextId, email).None? <==> forall k :: k in rows ==> EmailOf(rows[k]) != email
    ensures FindByEmail(rows, nextId, email).Some? && email != Null ==>
      forall k :: k in rows && EmailOf(rows[k]) == email ==> k == FindByEmail(rows, nextId, email).value
  {
  }

  /** Putting a row whose email no other row holds keeps the emails unique. */
  lemma PutKeepsUnique(rows: Rows, id: int, row: Row)
    requires UniqueEmails(rows)
    requires !EmailInUse(rows - {id}, EmailOf(row))
    ensures UniqueEmails(rows[id := row])
  {
    var r := rows[id := row];
    forall a, b | a in r && b in r && a != b && EmailOf(r[a]) != Null
      ensures EmailOf(r[a]) != EmailOf(r[b])
    {
      if a == id {
        assert b in rows - {id};
      } else if b == id {
        assert a in rows - {id};
      }
    }
  }
}
