/**
 * How the newer server turns a service's `(success, message, data)` into a
 * reply (backend/server/handlers/global_functions.py and the helpers at the
 * top of backend/server/handlers/user.py and service.py): the message
 * classifier, `unified_response` and `validate_schema`.
 *
 * `handle_status_code` is not part of this model; its result is the pair
 * `Reply(code, data)`. Marshmallow's `schema.validate` and `schema.load` are
 * inputs: the per-field error lists, in the order of the error dict, and the
 * loaded data.
 */
module Outcomes {
  import opened Json
  import opened HttpReply
  import Text

  const UserDoesNotExist := "User does not exist"
  const DuplicateEmail := "Integrity Error: User with that email already exists"

  /** `check_not_success_message_and_get_code_and_response(message)`. */
  function Classify(message: string): Reply {
    if message == UserDoesNotExist then Error(400, message)
    else if Text.Contains(message, DuplicateEmail) then Error(409, message)
    else Error(500, message)
  }

  /**
   * `unified_response(success, message, data, code)`. An absent `data` is
   * the empty dict: both are false in Python.
   */
  function UnifiedResponse(success: bool, message: string, data: Dict, code: int): Reply {
    if success then
      if data != map[] then Reply(code, data) else Reply(code, Info(message))
    else Classify(message)
  }

  /** The outcome of `validate_schema`: the loaded data, or one message per failing field. */
  datatype Validated = Valid(data: Dict) | Invalid(messages: seq<string>)

  /** `f"{field}: {', '.join(errors)}"`. */
  function FieldMessage(field: string, errors: seq<string>): string {
    field + ": " + Text.JoinWith(errors, ", ")
  }

  /** `validate_schema(data, schema, partial)` given what the schema reports. */
  function ValidateSchema(errors: seq<(string, seq<string>)>, loaded: Dict): Validated {
    if errors == [] then Valid(loaded)
    else Invalid(seq(|errors|, i requires 0 <= i < |errors| => FieldMessage(errors[i].0, errors[i].1)))
  }

  // ---------------------------------------------------------------------------
  // The classifier
  // ---------------------------------------------------------------------------

  /** Every classified reply is 400, 409 or 500 and carries the message as `error_info`. */
  lemma ClassifierCodes(message: string)
    ensures Classify(message).code in {400, 409, 500}
    ensures Classify(message).data == ErrorInfo(message)
  {
  }

  /** 400 exactly for the message "User does not exist". */
  lemma MissingUserIs400(message: string)
    ensures Classify(message).code == 400 <==> message == UserDoesNotExist
  {
  }

  /** 409 exactly for a message that contains the duplicate-email text, wherever it occurs. */
  lemma ConflictExactly(message: string)
    ensures Classify(message).code == 409 <==> Text.Contains(message, DuplicateEmail)
  {
    if message == UserDoesNotExist && Text.Contains(message, DuplicateEmail) {
      Text.ContainsNotLonger(message, DuplicateEmail);
    }
  }

  lemma DuplicateAnywhereIs409(before: string, after: string)
    ensures Classify(before + DuplicateEmail + after) == Error(409, before + DuplicateEmail + after)
  {
    Text.ContainsInfix(before, DuplicateEmail, after);
    ConflictExactly(before + DuplicateEmail + after);
  }

  /** A near miss such as "User does not exist!" is a server error, not a 400. */
  lemma NearMissIs500()
    ensures Classify("User does not exist!") == Error(500, "User does not exist!")
  {
    if Text.Contains("User does not exist!", DuplicateEmail) {
      Text.ContainsNotLonger("User does not exist!", DuplicateEmail);
    }
  }

  /** A message without a colon, other than "User does not exist", is a 500. */
  lemma PlainMessageIs500(message: string)
    requires ':' !in message && message != UserDoesNotExist
    ensures Classify(message) == Error(500, message)
  {
    assert DuplicateEmail[15] == ':';
    Text.MissingCharNotContained(message, DuplicateEmail, ':');
  }

  /** A message shorter than the duplicate-email text, other than "User does not exist", is a 500. */
  lemma ShortMessageIs500(message: string)
    requires |message| < |DuplicateEmail| && message != UserDoesNotExist
    ensures Classify(message) == Error(500, message)
  {
    if Text.Contains(message, DuplicateEmail) {
      Text.ContainsNotLonger(message, DuplicateEmail);
    }
  }

  // ---------------------------------------------------------------------------
  // unified_response
  // ---------------------------------------------------------------------------

  /**
   * On success the given code is kept and the data is used as it is, or
   * `{info: message}` when it is empty; the reply's data is never empty.
   */
  lemma SuccessKeepsCode(message: string, data: Dict, code: int)
    ensures UnifiedResponse(true, message, data, code).code == code
    ensures UnifiedResponse(true, message, data, code).data == (if data == map[] then Info(message) else data)
    ensures UnifiedResponse(true, message, data, code).data != map[]
  {
    assert "info" in Info(message);
  }

  /** On failure neither the data nor the code passed in matters: the classifier decides. */
  lemma FailureIgnoresCode(message: string, data1: Dict, code1: int, data2: Dict, code2: int)
    ensures UnifiedResponse(false, message, data1, code1) == UnifiedResponse(false, message, data2, code2)
    ensures UnifiedResponse(false, message, data1, code1) == Classify(message)
  {
  }

  // ---------------------------------------------------------------------------
  // validate_schema
  // ---------------------------------------------------------------------------

  /**
   * With no schema errors the loaded data is returned; otherwise one message
   * per failing field, in order, reading "field: " followed by that field's
   * errors joined with ", ".
   */
  lemma ValidationMessages(errors: seq<(string, seq<string>)>, loaded: Dict)
    ensures errors == [] <==> ValidateSchema(errors, loaded).Valid?
    ensures errors == [] ==> ValidateSchema(errors, loaded).data == loaded
    ensures errors != [] ==>
      && |ValidateSchema(errors, loaded).messages| == |errors|
      && forall i :: 0 <= i < |errors| ==>
           && Text.StartsWith(ValidateSchema(errors, loaded).messages[i], errors[i].0 + ": ")
           && ValidateSchema(errors, loaded).messages[i][|errors[i].0| + 2..] == Text.JoinWith(errors[i].1, ", ")
  {
    if errors != [] {
      var ms := ValidateSchema(errors, loaded).messages;
      forall i | 0 <= i < |errors|
        ensures Text.StartsWith(ms[i], errors[i].0 + ": ")
        ensures ms[i][|errors[i].0| + 2..] == Text.JoinWith(errors[i].1, ", ")
      {
        assert ms[i] == (errors[i].0 + ": ") + Text.JoinWith(errors[i].1, ", ");
      }
    }
  }

  /** A field with a single error reads "field: error". */
  lemma SingleErrorMessage(field: string, error: string)
    ensures FieldMessage(field, [error]) == field + ": " + error
  {
  }
}
