/**
 * The maintenance commands of manage.py that change the user table:
 * `setup_general`, `register_user`, `delete_user` and `update_user`, with
 * `update_user`'s coercion of the command-line text to the attribute's type.
 *
 * server/models is not part of this model: a user is the row of attributes
 * its constructor is given (the password stored through `hashPassword`),
 * and `Role.insert_roles()` is the set of role names it leaves. The console
 * answer to the password prompt is the parameter `answer`; `int()`,
 * `float()` and `json.loads` are the parameters of `Parsers`.
 */
module Manage {
  import opened Wrappers
  import opened Json
  import opened UserTable
  import Text

  /** The settings `setup_general` reads from `Config`. */
  datatype Settings = Settings(adminEmail: string, adminPassword: string, fakeEmail: string,
                               fakePassword: string, flaskConfig: string)

  function AdminRow(s: Settings, hashPassword: string -> Value): Row {
    map["first_name" := Str("Admin"), "last_name" := Str("Account"), "password_hash" := hashPassword(s.adminPassword),
        "confirmed" := Bool(true), "email" := Str(s.adminEmail)]
  }

  function FakeRow(s: Settings, hashPassword: string -> Value): Row {
    map["first_name" := Str(s.flaskConfig), "last_name" := Str("Fake"), "password_hash" := hashPassword(s.fakePassword),
        "confirmed" := Bool(true), "email" := Str(s.fakeEmail)]
  }

  /** Add `row` under `nextId` unless some user already holds `email`. */
  function AddUnlessPresent(rows: Rows, nextId: int, email: string, row: Row): (Rows, int) {
    if FindByEmail(rows, nextId, Str(email)).Some? then (rows, nextId) else (rows[nextId := row], nextId + 1)
  }

  /** `setup_general()` once `Role.insert_roles()` has left the roles `roles`. */
  function SetupGeneral(rows: Rows, nextId: int, roles: set<string>, s: Settings, hashPassword: string -> Value): (Rows, int) {
    var (r1, n1) := if "Administrator" in roles then AddUnlessPresent(rows, nextId, s.adminEmail, AdminRow(s, hashPassword))
                    else (rows, nextId);
    if "User" in roles then AddUnlessPresent(r1, n1, s.fakeEmail, FakeRow(s, hashPassword)) else (r1, n1)
  }

  /** The table after a command, and whether the command ended with an exception it does not catch. */
  datatype Run = Run(rows: Rows, nextId: int, raised: bool)

  /** `register_user(...)`; `roleId` is `int(role_id)`, absent when that raises. */
  function RegisterUser(rows: Rows, nextId: int, email: string, firstName: Value, lastName: Value, password: string,
                        roleId: Option<int>, hashPassword: string -> Value): Run {
    if FindByEmail(rows, nextId, Str(email)).Some? then Run(rows, nextId, false)
    else if roleId.None? then Run(rows, nextId, true)
    else
      var row := map["first_name" := firstName, "last_name" := lastName, "password_hash" := hashPassword(password),
                     "confirmed" := Bool(true), "email" := Str(email), "role_id" := Int(roleId.value)];
      Run(rows[nextId := row], nextId + 1, false)
  }

  function DeleteUser(rows: Rows, nextId: int, email: string): Rows {
    match FindByEmail(rows, nextId, Str(email))
    case None => rows
    case Some(k) => rows - {k}
  }

  // ---------------------------------------------------------------------------
  // update_user and its coercion
  // ---------------------------------------------------------------------------

  /** `type(getattr(user, attribute))`, as far as the coercion tells types apart. */
  datatype AttributeType = BoolType | IntType | FloatType | StrType | ListType | DictType | OtherType

  function TypeOf(v: Value): AttributeType {
    match v
    case Bool(_) => BoolType
    case Int(_) => IntType
    case Real(_) => FloatType
    case Str(_) => StrType
    case List(_) => ListType
    case Object(_) => DictType
    case _ => OtherType
  }

  /** Python's `int`, `float` and `json.loads` on a string; absent when they raise. */
  datatype Parsers = Parsers(parseInt: string -> Option<int>, parseFloat: string -> Option<real>,
                             parseJson: string -> Option<Value>)

  predicate IsBracket(c: char) {
    c == '[' || c == ']'
  }

  /** `s.lstrip("[]")`: every leading bracket removed. */
  function StripLeadingBrackets(s: string): (r: string)
    ensures |r| <= |s| && r == s[|s| - |r|..]
    ensures |r| > 0 ==> !IsBracket(r[0])
    ensures forall i :: 0 <= i < |s| - |r| ==> IsBracket(s[i])
  {
    if |s| > 0 && IsBracket(s[0]) then StripLeadingBrackets(s[1..]) else s
  }

  /** `s.rstrip("[]")`: every trailing bracket removed. */
  function StripTrailingBrackets(s: string): (r: string)
    ensures |r| <= |s| && r == s[..|r|]
    ensures |r| > 0 ==> !IsBracket(r[|r| - 1])
    ensures forall i :: |r| <= i < |s| ==> IsBracket(s[i])
  {
    if |s| > 0 && IsBracket(s[|s| - 1]) then StripTrailingBrackets(s[..|s| - 1]) else s
  }

  /** `s.strip("[]")`: every leading and trailing bracket removed. */
  function StripBrackets(s: string): string {
    StripTrailingBrackets(StripLeadingBrackets(s))
  }

  /** `value.strip("[]").replace(" ", "").split(",")`. */
  function ListItems(value: string): seq<string> {
    Text.Split(Text.RemoveAll(StripBrackets(value), ' '), ',')
  }

  /**
   * The coercion of the text `value` to the attribute's type; absent when
   * the `try` block raises (then `update_user` returns without a change).
   * A type with no branch keeps the text.
   */
  function Coerce(t: AttributeType, value: string, p: Parsers): Option<Value> {
    match t
    case BoolType =>
      if Text.Contains(Text.ToLower(value), "false") then Some(Bool(false))
      else if Text.Contains(Text.ToLower(value), "true") then Some(Bool(true))
      else None
    case IntType => if p.parseInt(value).Some? then Some(Int(p.parseInt(value).value)) else None
    case FloatType => if p.parseFloat(value).Some? then Some(Real(p.parseFloat(value).value)) else None
    case StrType => Some(Str(value))
    case ListType => Some(List(seq(|ListItems(value)|, i requires 0 <= i < |ListItems(value)| => Str(ListItems(value)[i]))))
    case DictType => p.parseJson(value)
    case OtherType => Some(Str(value))
  }

  /**
   * `update_user(email, attribute, value)`: nothing happens without a user,
   * after an 'n' to the password prompt, or when the coercion raises;
   * reading an attribute the user does not have raises.
   */
  function UpdateUser(rows: Rows, nextId: int, email: string, attribute: string, value: string, answer: string,
                      p: Parsers): Run {
    match FindByEmail(rows, nextId, Str(email))
    case None => Run(rows, nextId, false)
    case Some(k) =>
      if attribute == "password" && answer == "n" then Run(rows, nextId, false)
      else if attribute !in rows[k] then Run(rows, nextId, true)
      else
        match Coerce(TypeOf(rows[k][attribute]), value, p)
        case None => Run(rows, nextId, false)
        case Some(v) =>
          var row := rows[k][attribute := v];
          // the commit raises on the unique e-mail constraint, and nothing is written
          if EmailInUse(rows - {k}, EmailOf(row)) then Run(rows, nextId, true)
          else Run(rows[k := row], nextId, false)
  }

  /** The database the commands work on. */
  class Database {
    var rows: Rows
    var nextId: int
    var roles: set<string>

    ghost predicate Valid()
      reads this
    {
      TableValid(rows, nextId)
    }

    constructor ()
      ensures rows == map[] && nextId == 1 && roles == {} && Valid()
    {
      rows := map[];
      nextId := 1;
      roles := {};
    }

    /** `setup_general()`; `inserted` is what `Role.insert_roles()` adds. */
    method Setup(inserted: set<string>, s: Settings, hashPassword: string -> Value)
      requires Valid()
      modifies this
      ensures roles == old(roles) + inserted
      ensures (rows, nextId) == SetupGeneral(old(rows), old(nextId), roles, s, hashPassword)
      ensures Valid()
    {
      roles := roles + inserted;
      SetupKeepsTableValid(rows, nextId, roles, s, hashPassword);
      if "Administrator" in roles {
        if FindByEmail(rows, nextId, Str(s.adminEmail)).None? {
          rows := rows[nextId := AdminRow(s, hashPassword)];
          nextId := nextId + 1;
        }
      }
      if "User" in roles {
        if FindByEmail(rows, nextId, Str(s.fakeEmail)).None? {
          rows := rows[nextId := FakeRow(s, hashPassword)];
          nextId := nextId + 1;
        }
      }
    }

    method Register(email: string, firstName: Value, lastName: Value, password: string, roleId: Option<int>,
                    hashPassword: string -> Value) returns (raised: bool)
      requires Valid()
      modifies this`rows, this`nextId
      ensures Run(rows, nextId, raised) == RegisterUser(old(rows), old(nextId), email, firstName, lastName, password, roleId, hashPassword)
      ensures Valid()
    {
      RegisterKeepsTableValid(rows, nextId, email, firstName, lastName, password, roleId, hashPassword);
      if FindByEmail(rows, nextId, Str(email)).Some? {
        return false;
      }
      if roleId.None? {
        return true;
      }
      var row := map["first_name" := firstName, "last_name" := lastName, "password_hash" := hashPassword(password),
                     "confirmed" := Bool(true), "email" := Str(email), "role_id" := Int(roleId.value)];
      rows := rows[nextId := row];
      nextId := nextId + 1;
      raised := false;
    }

    method Delete(email: string)
      requires Valid()
      modifies this`rows
      ensures rows == DeleteUser(old(rows), nextId, email)
      ensures Valid()
    {
      var found := FindByEmail(rows, nextId, Str(email));
      if found.Some? {
        rows := rows - {found.value};
      }
    }

    method Update(email: string, attribute: string, value: string, answer: string, p: Parsers) returns (raised: bool)
      requires Valid()
      modifies this`rows
      ensures Run(rows, nextId, raised) == UpdateUser(old(rows), nextId, email, attribute, value, answer, p)
      ensures Valid()
    {
      UpdateKeepsTableValid(rows, nextId, email, attribute, value, answer, p);
      var found := FindByEmail(rows, nextId, Str(email));
      if found.None? {
        return false;
      }
      var k := found.value;
      if attribute == "password" && answer == "n" {
        return false;
      }
      if attribute !in rows[k] {
        return true;
      }
      var coerced := Coerce(TypeOf(rows[k][attribute]), value, p);
      if coerced.None? {
        return false;
      }
      var row := rows[k][attribute := coerced.value];
      if EmailInUse(rows - {k}, EmailOf(row)) {
        return true;
      }
      rows := rows[k := row];
      raised := false;
    }
  }

  // ---------------------------------------------------------------------------
  // Properties
  // ---------------------------------------------------------------------------

  /** Adding unless present keeps the table valid, and afterwards the e-mail is held. */
  lemma AddKeepsTableValid(rows: Rows, nextId: int, email: string, row: Row)
    requires TableValid(rows, nextId) && EmailOf(row) == Str(email)
    ensures var (r, n) := AddUnlessPresent(rows, nextId, email, row);
            TableValid(r, n) && FindByEmail(r, n, Str(email)).Some? && r.Keys >= rows.Keys
  {
    FindByEmailExact(rows, nextId, Str(email));
    var (r, n) := AddUnlessPresent(rows, nextId, email, row);
    if FindByEmail(rows, nextId, Str(email)).None? {
      assert rows - {nextId} == rows;
      PutKeepsUnique(rows, nextId, row);
      assert r[nextId] == row;
      FindByEmailExact(r, n, Str(email));
    }
  }

  lemma SetupKeepsTableValid(rows: Rows, nextId: int, roles: set<string>, s: Settings, hashPassword: string -> Value)
    requires TableValid(rows, nextId)
    ensures TableValid(SetupGeneral(rows, nextId, roles, s, hashPassword).0, SetupGeneral(rows, nextId, roles, s, hashPassword).1)
  {
    var (r1, n1) := if "Administrator" in roles then AddUnlessPresent(rows, nextId, s.adminEmail, AdminRow(s, hashPassword))
                    else (rows, nextId);
    if "Administrator" in roles {
      AddKeepsTableValid(rows, nextId, s.adminEmail, AdminRow(s, hashPassword));
    }
    if "User" in roles {
      AddKeepsTableValid(r1, n1, s.fakeEmail, FakeRow(s, hashPassword));
    }
  }

  /** Adding a row for an e-mail already held changes nothing. */
  lemma AddPresentIsNoOp(rows: Rows, nextId: int, email: string, row: Row, other: Row)
    requires TableValid(rows, nextId) && EmailOf(row) == Str(email)
    ensures var (r, n) := AddUnlessPresent(rows, nextId, email, row);
            AddUnlessPresent(r, n, email, other) == (r, n)
  {
    AddKeepsTableValid(rows, nextId, email, row);
  }

  /**
   * Running the set-up twice adds nothing the first run did not: the
   * administrator and the fake user are each added at most once.
   */
  lemma SetupIdempotent(rows: Rows, nextId: int, roles: set<string>, s: Settings, hashPassword: string -> Value)
    requires TableValid(rows, nextId)
    ensures var (r, n) := SetupGeneral(rows, nextId, roles, s, hashPassword);
            SetupGeneral(r, n, roles, s, hashPassword) == (r, n)
  {
    var admin := AdminRow(s, hashPassword);
    var fake := FakeRow(s, hashPassword);
    RowEmails(s, hashPassword);
    var (r1, n1) := if "Administrator" in roles then AddUnlessPresent(rows, nextId, s.adminEmail, admin) else (rows, nextId);
    if "Administrator" in roles {
      AddKeepsTableValid(rows, nextId, s.adminEmail, admin);
      AddTwice(rows, nextId, s.adminEmail, admin);
    }
    if "User" in roles {
      AddTwice(r1, n1, s.fakeEmail, fake);
      if "Administrator" in roles {
        AddKeepsHeld(r1, n1, s.adminEmail, s.fakeEmail, fake);
      }
    }
  }

  /** The administrator's row holds the administrator's e-mail, the fake user's row the fake user's. */
  lemma RowEmails(s: Settings, hashPassword: string -> Value)
    ensures EmailOf(AdminRow(s, hashPassword)) == Str(s.adminEmail)
    ensures EmailOf(FakeRow(s, hashPassword)) == Str(s.fakeEmail)
  {
  }

  /** Adding a user a second time changes nothing: after the first, the e-mail is held. */
  lemma AddTwice(rows: Rows, nextId: int, email: string, row: Row)
    requires TableValid(rows, nextId) && EmailOf(row) == Str(email)
    ensures var (r, n) := AddUnlessPresent(rows, nextId, email, row);
            TableValid(r, n) && AddUnlessPresent(r, n, email, row) == (r, n)
  {
    AddKeepsTableValid(rows, nextId, email, row);
  }

  /** An e-mail held before an addition is still held after it. */
  lemma AddKeepsHeld(rows: Rows, nextId: int, held: string, email: string, row: Row)
    requires TableValid(rows, nextId) && EmailOf(row) == Str(email)
    requires FindByEmail(rows, nextId, Str(held)).Some?
    ensures var (r, n) := AddUnlessPresent(rows, nextId, email, row);
            FindByEmail(r, n, Str(held)).Some?
  {
    var (r, n) := AddUnlessPresent(rows, nextId, email, row);
    AddKeepsTableValid(rows, nextId, email, row);
    var k := FindByEmail(rows, nextId, Str(held)).value;
    assert k in r && r[k] == rows[k];
    FindByEmailExact(r, n, Str(held));
  }

  /** Registering an e-mail already held, or deleting or updating one nobody holds, changes nothing. */
  lemma NoOps(rows: Rows, nextId: int, email: string, firstName: Value, lastName: Value, password: string,
              roleId: Option<int>, hashPassword: string -> Value, attribute: string, value: string, answer: string, p: Parsers)
    requires TableValid(rows, nextId)
    ensures (exists k :: k in rows && EmailOf(rows[k]) == Str(email)) ==>
      RegisterUser(rows, nextId, email, firstName, lastName, password, roleId, hashPassword) == Run(rows, nextId, false)
    ensures (forall k :: k in rows ==> EmailOf(rows[k]) != Str(email)) ==>
      DeleteUser(rows, nextId, email) == rows && UpdateUser(rows, nextId, email, attribute, value, answer, p) == Run(rows, nextId, false)
  {
    FindByEmailExact(rows, nextId, Str(email));
  }

  /** Registration keeps the table valid, and a new user holds the e-mail it was given. */
  lemma RegisterKeepsTableValid(rows: Rows, nextId: int, email: string, firstName: Value, lastName: Value, password: string,
                                roleId: Option<int>, hashPassword: string -> Value)
    requires TableValid(rows, nextId)
    ensures var r := RegisterUser(rows, nextId, email, firstName, lastName, password, roleId, hashPassword);
            TableValid(r.rows, r.nextId) && (r.raised ==> r.rows == rows) && FindByEmail(r.rows, r.nextId, Str(email)).Some? == !r.raised
  {
    var r := RegisterUser(rows, nextId, email, firstName, lastName, password, roleId, hashPassword);
    if FindByEmail(rows, nextId, Str(email)).None? && roleId.Some? {
      var row := map["first_name" := firstName, "last_name" := lastName, "password_hash" := hashPassword(password),
                     "confirmed" := Bool(true), "email" := Str(email), "role_id" := Int(roleId.value)];
      AddKeepsTableValid(rows, nextId, email, row);
    }
  }

  /**
   * Deleting removes exactly the one user holding the e-mail, or nothing.
   */
  lemma DeleteRemovesHolder(rows: Rows, nextId: int, email: string)
    requires TableValid(rows, nextId)
    ensures TableValid(DeleteUser(rows, nextId, email), nextId)
    ensures forall k :: k in rows ==> (k !in DeleteUser(rows, nextId, email) <==> EmailOf(rows[k]) == Str(email))
  {
    FindByEmailExact(rows, nextId, Str(email));
  }

  /**
   * Updating: an 'n' to the password prompt or a failed coercion leaves the
   * table as it was; otherwise only the one attribute of the one user
   * changes, to the coerced value; a valid table stays valid, and taking
   * another user's e-mail raises at the commit with nothing written.
   */
  lemma UpdateChangesOneAttribute(rows: Rows, nextId: int, email: string, attribute: string, value: string, answer: string,
                                  p: Parsers)
    ensures attribute == "password" && answer == "n" ==> UpdateUser(rows, nextId, email, attribute, value, answer, p) == Run(rows, nextId, false)
    ensures var r := UpdateUser(rows, nextId, email, attribute, value, answer, p);
            r.rows != rows ==>
              (exists k :: k in rows && EmailOf(rows[k]) == Str(email) && attribute in rows[k] &&
                 Coerce(TypeOf(rows[k][attribute]), value, p).Some? &&
                 r.rows == rows[k := rows[k][attribute := Coerce(TypeOf(rows[k][attribute]), value, p).value]])
    ensures var r := UpdateUser(rows, nextId, email, attribute, value, answer, p);
            TableValid(rows, nextId) ==> TableValid(r.rows, r.nextId) && r.nextId == nextId
    ensures TableValid(rows, nextId) && value != email &&
            (exists k :: k in rows && EmailOf(rows[k]) == Str(email)) &&
            (exists j :: j in rows && EmailOf(rows[j]) == Str(value)) ==>
              UpdateUser(rows, nextId, email, "email", value, answer, p) == Run(rows, nextId, true)
  {
    if TableValid(rows, nextId) {
      UpdateKeepsTableValid(rows, nextId, email, attribute, value, answer, p);
      DuplicateEmailRefused(rows, nextId, email, value, answer, p);
    }
  }

  /** An update commits only a row whose e-mail no other user holds, so the table stays valid. */
  lemma UpdateKeepsTableValid(rows: Rows, nextId: int, email: string, attribute: string, value: string, answer: string,
                              p: Parsers)
    requires TableValid(rows, nextId)
    ensures var r := UpdateUser(rows, nextId, email, attribute, value, answer, p);
            TableValid(r.rows, r.nextId) && r.nextId == nextId
  {
    var r := UpdateUser(rows, nextId, email, attribute, value, answer, p);
    if r.rows != rows {
      var k := FindByEmail(rows, nextId, Str(email)).value;
      var row := rows[k][attribute := Coerce(TypeOf(rows[k][attribute]), value, p).value];
      PutKeepsUnique(rows, k, row);
    }
  }

  /** Changing a user's e-mail to one another user holds raises at the commit and writes nothing. */
  lemma DuplicateEmailRefused(rows: Rows, nextId: int, email: string, value: string, answer: string, p: Parsers)
    requires TableValid(rows, nextId)
    ensures value != email && (exists k :: k in rows && EmailOf(rows[k]) == Str(email)) &&
            (exists j :: j in rows && EmailOf(rows[j]) == Str(value)) ==>
              UpdateUser(rows, nextId, email, "email", value, answer, p) == Run(rows, nextId, true)
  {
    if value != email && (exists k :: k in rows && EmailOf(rows[k]) == Str(email)) &&
       (exists j :: j in rows && EmailOf(rows[j]) == Str(value)) {
      FindByEmailExact(rows, nextId, Str(email));
      var k := FindByEmail(rows, nextId, Str(email)).value;
      var j :| j in rows && EmailOf(rows[j]) == Str(value);
      var row := rows[k]["email" := Str(value)];
      assert Coerce(TypeOf(rows[k]["email"]), value, p) == Some(Str(value));
      assert "email" in rows[k] && rows[k]["email"] == Str(email);
      assert j != k && j in rows - {k} && EmailOf(row) == Str(value);
    }
  }

  /**
   * Boolean text: any 'false' wins over 'true' (so "truefalse" is False),
   * a lone 'true' gives True, and text with neither is rejected.
   */
  lemma BoolCoercion(value: string, p: Parsers)
    ensures Text.Contains(Text.ToLower(value), "false") ==> Coerce(BoolType, value, p) == Some(Bool(false))
    ensures !Text.Contains(Text.ToLower(value), "false") && Text.Contains(Text.ToLower(value), "true") ==>
      Coerce(BoolType, value, p) == Some(Bool(true))
    ensures !Text.Contains(Text.ToLower(value), "false") && !Text.Contains(Text.ToLower(value), "true") ==>
      Coerce(BoolType, value, p).None?
  {
  }

  lemma TrueFalseIsFalse(p: Parsers)
    ensures Coerce(BoolType, "truefalse", p) == Some(Bool(false))
  {
    Text.LowercaseUnchanged("truefalse");
    Text.ContainsInfix("true", "false", "");
    assert "true" + "false" + "" == "truefalse";
  }

  /**
   * List text: the items are the comma-separated pieces once the outer
   * brackets and every space are removed, so no item holds a space or a comma.
   */
  lemma ListCoercion(value: string, p: Parsers)
    ensures Coerce(ListType, value, p).Some? && Coerce(ListType, value, p).value.List?
    ensures var items := Coerce(ListType, value, p).value.items;
            |items| == |ListItems(value)| &&
            forall i :: 0 <= i < |items| ==> items[i].Str? && ' ' !in items[i].s && ',' !in items[i].s
  {
    var pieces := ListItems(value);
    var spaced := Text.RemoveAll(StripBrackets(value), ' ');
    forall i | 0 <= i < |pieces|
      ensures ' ' !in pieces[i]
    {
      SplitPiecesFrom(spaced, ',', ' ');
    }
  }

  /** The command-line form of a list: "[a, b]" becomes the items "a" and "b". */
  lemma ListExample()
    ensures ListItems("[a, b]") == ["a", "b"]
  {
    BracketsExample();
    SpacesExample();
    CommaExample();
  }

  lemma CommaExample()
    ensures Text.Split("a,b", ',') == ["a", "b"]
  {
    Text.NoSeparatorSplit("b", ',');
    Text.SplitAfterPiece("a", ',', "b");
    assert "a" + [','] + "b" == "a,b";
  }

  lemma BracketsExample()
    ensures StripBrackets("[a, b]") == "a, b"
  {
    LeadingBracketExample();
    TrailingBracketExample();
  }

  lemma LeadingBracketExample()
    ensures StripLeadingBrackets("[a, b]") == "a, b]"
  {
    assert "[a, b]"[1..] == "a, b]";
    assert StripLeadingBrackets("a, b]") == "a, b]";
  }

  lemma TrailingBracketExample()
    ensures StripTrailingBrackets("a, b]") == "a, b"
  {
    assert "a, b]"[..4] == "a, b";
    assert StripTrailingBrackets("a, b") == "a, b";
  }

  lemma SpacesExample()
    ensures Text.RemoveAll("a, b", ' ') == "a,b"
  {
    assert "a, b"[1..] == ", b" && ", b"[1..] == " b" && " b"[1..] == "b" && "b"[1..] == "";
    assert Text.RemoveAll("b", ' ') == "b";
    assert Text.RemoveAll(" b", ' ') == "b";
    assert Text.RemoveAll(", b", ' ') == ",b";
  }

  /** The pieces of a split contain no character the whole string lacks. */
  lemma {:induction false} SplitPiecesFrom(s: string, sep: char, c: char)
    requires c !in s
    ensures forall i :: 0 <= i < |Text.Split(s, sep)| ==> c !in Text.Split(s, sep)[i]
    decreases |s|
  {
    if |s| > 0 {
      assert c !in s[1..] by {
        forall j | 0 <= j < |s[1..]| ensures s[1..][j] != c { assert s[1..][j] == s[j + 1]; }
      }
      SplitPiecesFrom(s[1..], sep, c);
    }
  }
}
