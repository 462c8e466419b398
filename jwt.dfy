/**
 * The bearer token as the authorizers read it, and what decoding it can
 * give. Decoding and signing (PyJWT, HS256) are not modelled: a decoded
 * token arrives as `Decoded`, with its claims (`user_id`, `user_role`,
 * `exp`; section 4.1.4 of RFC 7519 for `exp`) as a JSON dictionary.
 */
module Jwt {
  import opened Wrappers
  import opened Json
  import Text

  /** The result of `jwt.decode`: the claims, or the exception it raised. */
  datatype Decoded = Ok(claims: Dict) | Expired | Invalid | Other

  /** `request.headers['Authorization'].split(" ")[1]`, when the header is present. */
  datatype TokenRead = NoHeader | Token(token: string) | Unindexable

  function ReadToken(header: Option<string>): (r: TokenRead)
  {
    match header
    case None => NoHeader
    case Some(h) =>
      var words := Text.Split(h, ' ');
      if |words| < 2 then Unindexable else Token(words[1])
  }

  /** A header holding no space cannot be indexed at 1: the read raises `IndexError`. */
  lemma NoSpaceUnindexable(h: string)
    ensures ReadToken(Some(h)) == Unindexable <==> ' ' !in h
  {
    Text.CountPositive(h, ' ');
  }

  /** `"<scheme> <token>"` with a space-free scheme and token yields the token. */
  lemma SchemeAndToken(scheme: string, token: string)
    requires ' ' !in scheme && ' ' !in token
    ensures ReadToken(Some(scheme + " " + token)) == Token(token)
  {
    assert scheme + " " + token == scheme + [' '] + token;
    Text.SplitAfterPiece(scheme, ' ', token);
    Text.NoSeparatorSplit(token, ' ');
  }

  /** `"Bearer "` has an empty second word, which the authorizers treat as a missing token. */
  lemma BearerAloneIsEmpty()
    ensures ReadToken(Some("Bearer ")) == Token("")
  {
    SchemeAndToken("Bearer", "");
    assert "Bearer" + " " + "" == "Bearer ";
  }
}
