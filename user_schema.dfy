/**
 * The older server's `UserSchema` (server/schema/user.py) as a validation
 * function: for the data to check it gives marshmallow's error dict, one
 * entry per failing key. The schema is used whole, with `partial=True`
 * (absent fields are not errors) or with `only=["email"]`. Keys the schema
 * does not load are rejected as unknown, marshmallow's default. Parsing a
 * date, a float or an e-mail address is the parameter `parses`.
 */
module UserSchema {
  import opened Wrappers
  import opened Json

  /** The declared type of a field; a string field carries its minimum length. */
  datatype Kind = Text(minLength: nat) | DateField | FloatField | EmailField

  datatype Field = Field(name: string, kind: Kind, required: bool)

  /** The declared fields by name, in declaration order. */
  function FieldNamed(name: string): Option<Field> {
    if name == "first_name" then Some(Field(name, Text(1), true))
    else if name == "last_name" then Some(Field(name, Text(1), true))
    else if name == "date_of_birth" then Some(Field(name, DateField, true))
    else if name == "height_cm" then Some(Field(name, FloatField, true))
    else if name == "weight_kg" then Some(Field(name, FloatField, true))
    else if name == "gender" then Some(Field(name, Text(4), true))
    else if name == "email" then Some(Field(name, EmailField, true))
    else if name == "password" then Some(Field(name, Text(6), true))
    else if name == "new_email" then Some(Field(name, EmailField, false))
    else None
  }

  const FieldNames: set<string> := {"first_name", "last_name", "date_of_birth", "height_cm", "weight_kg",
                                    "gender", "email", "password", "new_email"}

  /** How the schema is instantiated: `only=[...]` and `partial=...`. */
  datatype Mode = Mode(only: Option<set<string>>, partial: bool)

  const Whole := Mode(None, false)
  const Partial := Mode(None, true)
  const EmailOnly := Mode(Some({"email"}), false)

  const MissingMessage := "Missing data for required field."
  const NullMessage := "Field may not be null."
  const UnknownMessage := "Unknown field."
  const InvalidMessage := "Invalid value."

  /** A field the schema loads under `mode`. */
  function Loaded(name: string, mode: Mode): Option<Field> {
    match FieldNamed(name)
    case None => None
    case Some(f) => if mode.only.None? || name in mode.only.value then Some(f) else None
  }

  /** A non-null value of the right type that meets the field's length rule. */
  predicate Accepts(kind: Kind, v: Value, parses: (Kind, Value) -> bool) {
    match kind
    case Text(n) => v.Str? && |v.s| >= n
    case _ => parses(kind, v)
  }

  /** The message marshmallow reports for the key `name` of `d`, if any. */
  function Problem(d: Dict, name: string, mode: Mode, parses: (Kind, Value) -> bool): Option<string> {
    match Loaded(name, mode)
    case None => if name in d then Some(UnknownMessage) else None
    case Some(f) =>
      if name !in d then (if f.required && !mode.partial then Some(MissingMessage) else None)
      else if d[name] == Null then Some(NullMessage)
      else if !Accepts(f.kind, d[name], parses) then Some(InvalidMessage)
      else None
  }

  /** `UserSchema(only=..., partial=...).validate(d)`: failing key to its list of messages. */
  function Errors(d: Dict, mode: Mode, parses: (Kind, Value) -> bool): (e: Dict)
    ensures forall k :: k in e <==> (k in d || k in FieldNames) && Problem(d, k, mode, parses).Some?
  {
    map k | k in d.Keys + FieldNames && Problem(d, k, mode, parses).Some? :: List([Str(Problem(d, k, mode, parses).value)])
  }

  // ---------------------------------------------------------------------------
  // Properties
  // ---------------------------------------------------------------------------

  /** The declared names are exactly the fields, and all of them but `new_email` are required. */
  lemma DeclaredNames(k: string)
    ensures FieldNamed(k).Some? <==> k in FieldNames
    ensures FieldNamed(k).Some? ==> FieldNamed(k).value.name == k && (FieldNamed(k).value.required <==> k != "new_email")
  {
  }

  /** The whole schema reports every absent required field as missing, and never `new_email`. */
  lemma RequiredFields(d: Dict, parses: (Kind, Value) -> bool)
    ensures forall k :: k in FieldNames && k != "new_email" && k !in d ==>
      k in Errors(d, Whole, parses) && Errors(d, Whole, parses)[k] == List([Str(MissingMessage)])
    ensures "new_email" !in d ==> "new_email" !in Errors(d, Whole, parses)
  {
    forall k | k in FieldNames && k != "new_email" && k !in d
      ensures k in Errors(d, Whole, parses) && Errors(d, Whole, parses)[k] == List([Str(MissingMessage)])
    {
      DeclaredNames(k);
      assert Problem(d, k, Whole, parses) == Some(MissingMessage);
    }
    if "new_email" !in d {
      assert Loaded("new_email", Whole).value.required == false;
    }
  }

  /**
   * The names must be non-empty, the gender at least four characters and the
   * password at least six: a shorter string is an error, a long enough one is not.
   */
  lemma MinimumLengths(d: Dict, parses: (Kind, Value) -> bool, mode: Mode)
    requires mode.only.None?
    ensures forall k :: k in {"first_name", "last_name", "gender", "password"} && k in d && d[k].Str? ==>
      (k in Errors(d, mode, parses) <==> |d[k].s| < MinLength(k))
  {
    forall k | k in {"first_name", "last_name", "gender", "password"} && k in d && d[k].Str?
      ensures k in Errors(d, mode, parses) <==> |d[k].s| < MinLength(k)
    {
      assert Loaded(k, mode) == Some(Field(k, Text(MinLength(k)), true));
    }
  }

  function MinLength(k: string): nat {
    if k == "gender" then 4 else if k == "password" then 6 else 1
  }

  /** With `partial=True` an absent field is never an error. */
  lemma PartialReportsOnlyGivenKeys(d: Dict, parses: (Kind, Value) -> bool)
    ensures forall k :: k in Errors(d, Partial, parses) ==> k in d
  {
  }

  /** A key the schema does not declare is always an error. */
  lemma UndeclaredKeysRejected(d: Dict, mode: Mode, parses: (Kind, Value) -> bool)
    ensures forall k :: k in d && k !in FieldNames ==>
      k in Errors(d, mode, parses) && Errors(d, mode, parses)[k] == List([Str(UnknownMessage)])
  {
    forall k | k in d && k !in FieldNames
      ensures k in Errors(d, mode, parses) && Errors(d, mode, parses)[k] == List([Str(UnknownMessage)])
    {
      DeclaredNames(k);
      assert Problem(d, k, mode, parses) == Some(UnknownMessage);
    }
  }

  /**
   * `UserSchema(only=["email"])` accepts exactly a dict holding an e-mail
   * address under "email" and nothing else.
   */
  lemma EmailOnlyAccepts(d: Dict, parses: (Kind, Value) -> bool)
    ensures Errors(d, EmailOnly, parses) == map[] <==>
      d.Keys == {"email"} && d["email"] != Null && parses(EmailField, d["email"])
  {
    assert "email" in FieldNames;
  }
}
