/**
 * The older login page (frontend/src/pages/loginold.tsx): `parseJwt` reads
 * the payload segment of a token, and `handleSubmit` stores the token and
 * the role from its payload after a successful login. `atob` followed by
 * `JSON.parse` is the parameter `decode`, absent when either throws; the
 * login request is a parameter too, absent when it or its body fails.
 */
module LoginOld {
  import opened Wrappers
  import Text
  import Json

  /** What `parseJwt` gives: `undefined`, the decoded payload, or an exception. */
  datatype Parsed = Undefined | Decoded(payload: Json.Value) | Thrown

  /** `base64Url.replace('-', '+').replace('_', '/')`: a string pattern replaces its first match only. */
  function ToBase64(segment: string): string {
    Text.ReplaceFirst(Text.ReplaceFirst(segment, '-', '+'), '_', '/')
  }

  /** `token.split('.')[1]` is `undefined` without a `.`, and calling `replace` on it throws. */
  function ParseJwt(token: string, decode: string -> Option<Json.Value>): Parsed {
    if token == "" then Undefined
    else
      var parts := Text.Split(token, '.');
      if |parts| < 2 then Thrown
      else if decode(ToBase64(parts[1])).Some? then Decoded(decode(ToBase64(parts[1])).value)
      else Thrown
  }

  /** The login response: `response.ok`, `data.data.user_token` and `data.message`. */
  datatype LoginResponse = LoginResponse(ok: bool, userToken: string, message: string)

  /** `decodedToken.user_role`: the field of an object payload, `undefined` when it is missing. */
  datatype RoleRead = Missing | Present(value: Json.Value)

  /** The local storage writes, the alert shown and whether the page moved on to `/`. */
  datatype Submitted = Submitted(storedToken: Option<string>, storedRole: Option<RoleRead>, alert: Option<string>, redirectHome: bool)

  const ErrorAlert := "An error occurred during login"

  function RoleOf(payload: Json.Value): RoleRead {
    if payload.Object? && "user_role" in payload.fields then Present(payload.fields["user_role"]) else Missing
  }

  /**
   * `handleSubmit`. On an ok response the token is stored first; reading
   * `user_role` then throws on `undefined` or `null`, which leaves the
   * token stored, stores no role and shows the error alert.
   */
  function HandleSubmit(response: Option<LoginResponse>, decode: string -> Option<Json.Value>): Submitted {
    if response.None? then Submitted(None, None, Some(ErrorAlert), false)
    else if !response.value.ok then Submitted(None, None, Some("Login failed: " + response.value.message), false)
    else
      var token := response.value.userToken;
      var parsed := ParseJwt(token, decode);
      if parsed.Decoded? && !parsed.payload.Null? then Submitted(Some(token), Some(RoleOf(parsed.payload)), None, true)
      else Submitted(Some(token), None, Some(ErrorAlert), false)
  }

  /**
   * The translation meant here: every `-` to `+` and every `_` to `/`
   * (section 5 of RFC 4648 against section 4), as `replace(/-/g, '+')` and
   * `replace(/_/g, '/')` do.
   */
  function ToBase64All(segment: string): (r: string)
    ensures |r| == |segment|
  {
    seq(|segment|, i requires 0 <= i < |segment| =>
      if segment[i] == '-' then '+' else if segment[i] == '_' then '/' else segment[i])
  }

  /** The way back, from the standard alphabet to the URL-safe one. */
  function ToBase64Url(segment: string): (r: string)
    ensures |r| == |segment|
  {
    seq(|segment|, i requires 0 <= i < |segment| =>
      if segment[i] == '+' then '-' else if segment[i] == '/' then '_' else segment[i])
  }

  /** `parseJwt` with the full translation. */
  function ParseJwtIntended(token: string, decode: string -> Option<Json.Value>): Parsed {
    if token == "" then Undefined
    else
      var parts := Text.Split(token, '.');
      if |parts| < 2 then Thrown
      else if decode(ToBase64All(parts[1])).Some? then Decoded(decode(ToBase64All(parts[1])).value)
      else Thrown
  }

  // ---------------------------------------------------------------------------
  // Properties
  // ---------------------------------------------------------------------------

  /**
   * An empty token is `undefined`, a token without `.` throws, and a
   * three-segment token is decoded from its middle segment.
   */
  lemma {:induction false} ParseJwtSegments(header: string, payload: string, signature: string, decode: string -> Option<Json.Value>)
    requires '.' !in header && '.' !in payload && '.' !in signature
    ensures ParseJwt("", decode) == Undefined
    ensures header != "" ==> ParseJwt(header, decode) == Thrown
    ensures ParseJwt(header + "." + payload + "." + signature, decode) ==
      (if decode(ToBase64(payload)).Some? then Decoded(decode(ToBase64(payload)).value) else Thrown)
  {
    Text.NoSeparatorSplit(header, '.');
    Text.NoSeparatorSplit(signature, '.');
    Text.SplitAfterPiece(payload, '.', signature);
    Text.SplitAfterPiece(header, '.', payload + ['.'] + signature);
    var token := header + "." + payload + "." + signature;
    assert token == header + ['.'] + (payload + ['.'] + signature);
    assert Text.Split(token, '.') == [header, payload, signature];
    assert token[|header|] == '.';
  }

  /**
   * Only the first `-` and the first `_` are translated: every other
   * character of the segment is kept, so a later `-` or `_` reaches `atob`,
   * which rejects it.
   */
  lemma ToBase64FirstOnly(segment: string)
    ensures |ToBase64(segment)| == |segment|
    ensures forall j :: 0 <= j < |segment| && segment[j] != '-' && segment[j] != '_' ==> ToBase64(segment)[j] == segment[j]
    ensures forall j :: 0 <= j < |segment| && segment[j] == '-' && ('-' !in segment[..j]) ==> ToBase64(segment)[j] == '+'
  {
    var once := Text.ReplaceFirst(segment, '-', '+');
    Text.ReplaceFirstChangesOnlyFirst(segment, '-', '+');
    Text.ReplaceFirstChangesOnlyFirst(once, '_', '/');
    forall j | 0 <= j < |segment| && segment[j] != '-' && segment[j] != '_'
      ensures ToBase64(segment)[j] == segment[j]
    {
      assert once[j] == segment[j];
    }
    forall j | 0 <= j < |segment| && segment[j] == '-' && ('-' !in segment[..j])
      ensures ToBase64(segment)[j] == '+'
    {
      Text.FirstOccurrence(segment, '-', j);
      assert once[j] == '+';
    }
  }

  /** A payload segment with two `-` keeps its second one through `ToBase64`. */
  lemma SecondDashKept()
    ensures ToBase64("ab-c-d") == "ab+c-d"
    ensures '-' in ToBase64("ab-c-d")
  {
    FirstDashReplaced();
    NoUnderscoreReplaced();
    assert "ab+c-d"[4] == '-';
  }

  lemma FirstDashReplaced()
    ensures Text.ReplaceFirst("ab-c-d", '-', '+') == "ab+c-d"
  {
    Text.IndexOfAfter("ab", '-', "c-d");
    assert "ab-c-d" == "ab" + ['-'] + "c-d";
  }

  lemma NoUnderscoreReplaced()
    ensures Text.ReplaceFirst("ab+c-d", '_', '/') == "ab+c-d"
  {
    assert '_' !in "ab+c-d";
  }

  /**
   * With the full translation no `-` or `_` is left, and translating back
   * gives the segment, for any segment over the URL-safe alphabet (no `+`
   * or `/`).
   */
  lemma IntendedTranslationIsBase64(segment: string)
    ensures '-' !in ToBase64All(segment) && '_' !in ToBase64All(segment)
    ensures '+' !in segment && '/' !in segment ==> ToBase64Url(ToBase64All(segment)) == segment
  {
  }

  /**
   * A successful login stores the token; only a payload that decodes to
   * something other than `null` also stores a role and moves on to `/`. A
   * failed login stores nothing and shows its message.
   */
  lemma SubmitOutcomes(response: Option<LoginResponse>, decode: string -> Option<Json.Value>)
    ensures HandleSubmit(response, decode).storedToken.Some? <==> response.Some? && response.value.ok
    ensures HandleSubmit(response, decode).storedToken.Some? ==> HandleSubmit(response, decode).storedToken.value == response.value.userToken
    ensures HandleSubmit(response, decode).storedRole.Some? <==> HandleSubmit(response, decode).redirectHome
    ensures HandleSubmit(response, decode).redirectHome <==> HandleSubmit(response, decode).alert.None?
    ensures HandleSubmit(response, decode).redirectHome ==>
      response.Some? && response.value.ok && ParseJwt(response.value.userToken, decode).Decoded? &&
      HandleSubmit(response, decode).storedRole == Some(RoleOf(ParseJwt(response.value.userToken, decode).payload))
    ensures response.Some? && response.value.ok && response.value.userToken == "" ==> !HandleSubmit(response, decode).redirectHome
    ensures response.Some? && !response.value.ok ==> HandleSubmit(response, decode).alert == Some("Login failed: " + response.value.message)
  {
  }
}
