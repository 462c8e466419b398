/**
 * The CORS preflight hook (server/middlewares/preflight.py), run before every
 * request: an OPTIONS request is answered at once with an empty response
 * carrying four headers, added in this order; any other request goes on to
 * its route.
 */
module Preflight {
  import opened Wrappers

  type Header = (string, string)

  const PreflightHeaders: seq<Header> := [
    ("Access-Control-Allow-Origin", "*"),
    ("Access-Control-Allow-Headers", "Content-Type,Authorization,ngrok-skip-browser-warning"),
    ("Access-Control-Allow-Methods", "GET, POST, OPTIONS"),
    ("Access-Control-Max-Age", "3600")
  ]

  /** The response the hook returns, or `None` to let processing continue. */
  function PreflightHandler(httpMethod: string): Option<seq<Header>> {
    if httpMethod == "OPTIONS" then Some(PreflightHeaders) else None
  }

  /** The values of `name` among `headers`, in the order they were added. */
  function Values(headers: seq<Header>, name: string): (vs: seq<string>)
    ensures |vs| <= |headers|
  {
    if headers == [] then []
    else (if headers[0].0 == name then [headers[0].1] else []) + Values(headers[1..], name)
  }

  /**
   * Only OPTIONS short-circuits; its response allows every origin, the
   * three request headers, GET/POST/OPTIONS, and caches the answer for an
   * hour, each header once.
   */
  lemma PreflightAnswersOptions(httpMethod: string)
    ensures PreflightHandler(httpMethod).Some? <==> httpMethod == "OPTIONS"
    ensures httpMethod == "OPTIONS" ==>
      var hs := PreflightHandler(httpMethod).value;
      && Values(hs, "Access-Control-Allow-Origin") == ["*"]
      && Values(hs, "Access-Control-Allow-Headers") == ["Content-Type,Authorization,ngrok-skip-browser-warning"]
      && Values(hs, "Access-Control-Allow-Methods") == ["GET, POST, OPTIONS"]
      && Values(hs, "Access-Control-Max-Age") == ["3600"]
      && |hs| == 4
  {
  }
}
