/**
 * The constant table of HTTP status codes (server/utils/http_status_codes.py):
 * each code maps to its category and its reason phrase. Categories follow the
 * first digit as in section 15 of RFC 9110; 418 "I'm a teapot" comes from
 * section 2.3.2 of RFC 2324.
 */
module HttpStatus {
  import opened Wrappers

  datatype Entry = Entry(status: string, message: string)

  /**
   * `HTTP_STATUS_CODES.get(code)`: the dictionary literal, one case per key,
   * its keys looked up within their hundred.
   */
  function Lookup(code: int): Option<Entry> {
    if code < 100 || 600 <= code then None
    else if code < 200 then Informational(code)
    else if code < 300 then Successful(code)
    else if code < 400 then Redirection(code)
    else if code < 500 then ClientError(code)
    else ServerError(code)
  }

  /** The 1xx keys. */
  function Informational(code: int): Option<Entry> {
    match code
    case 100 => Some(Entry("informational", "Continue"))
    case 101 => Some(Entry("informational", "Switching Protocols"))
    case 102 => Some(Entry("informational", "Processing"))
    case _ => None
  }

  /** The 2xx keys. */
  function Successful(code: int): Option<Entry> {
    match code
    case 200 => Some(Entry("success", "OK"))
    case 201 => Some(Entry("success", "Created"))
    case 202 => Some(Entry("success", "Accepted"))
    case 203 => Some(Entry("success", "Non-Authoritative Information"))
    case 204 => Some(Entry("success", "No Content"))
    case 205 => Some(Entry("success", "Reset Content"))
    case 206 => Some(Entry("success", "Partial Content"))
    case 207 => Some(Entry("success", "Multi-Status"))
    case 208 => Some(Entry("success", "Already Reported"))
    case 226 => Some(Entry("success", "IM Used"))
    case _ => None
  }

  /** The 3xx keys. */
  function Redirection(code: int): Option<Entry> {
    match code
    case 300 => Some(Entry("redirection", "Multiple Choices"))
    case 301 => Some(Entry("redirection", "Moved Permanently"))
    case 302 => Some(Entry("redirection", "Found"))
    case 303 => Some(Entry("redirection", "See Other"))
    case 304 => Some(Entry("redirection", "Not Modified"))
    case 305 => Some(Entry("redirection", "Use Proxy"))
    case 307 => Some(Entry("redirection", "Temporary Redirect"))
    case 308 => Some(Entry("redirection", "Permanent Redirect"))
    case _ => None
  }

  /** The 4xx keys. */
  function ClientError(code: int): Option<Entry> {
    match code
    case 400 => Some(Entry("client error", "Bad Request"))
    case 401 => Some(Entry("client error", "Unauthorized"))
    case 402 => Some(Entry("client error", "Payment Required"))
    case 403 => Some(Entry("client error", "Forbidden"))
    case 404 => Some(Entry("client error", "Not Found"))
    case 405 => Some(Entry("client error", "Method Not Allowed"))
    case 406 => Some(Entry("client error", "Not Acceptable"))
    case 407 => Some(Entry("client error", "Proxy Authentication Required"))
    case 408 => Some(Entry("client error", "Request Timeout"))
    case 409 => Some(Entry("client error", "Conflict"))
    case 410 => Some(Entry("client error", "Gone"))
    case 411 => Some(Entry("client error", "Length Required"))
    case 412 => Some(Entry("client error", "Precondition Failed"))
    case 413 => Some(Entry("client error", "Payload Too Large"))
    case 414 => Some(Entry("client error", "URI Too Long"))
    case 415 => Some(Entry("client error", "Unsupported Media Type"))
    case 416 => Some(Entry("client error", "Range Not Satisfiable"))
    case 417 => Some(Entry("client error", "Expectation Failed"))
    case 418 => Some(Entry("client error", "I'm a teapot"))
    case 421 => Some(Entry("client error", "Misdirected Request"))
    case 422 => Some(Entry("client error", "Unprocessable Entity"))
    case 423 => Some(Entry("client error", "Locked"))
    case 424 => Some(Entry("client error", "Failed Dependency"))
    case 426 => Some(Entry("client error", "Upgrade Required"))
    case 428 => Some(Entry("client error", "Precondition Required"))
    case 429 => Some(Entry("client error", "Too Many Requests"))
    case 431 => Some(Entry("client error", "Request Header Fields Too Large"))
    case 451 => Some(Entry("client error", "Unavailable For Legal Reasons"))
    case _ => None
  }

  /** The 5xx keys. */
  function ServerError(code: int): Option<Entry> {
    match code
    case 500 => Some(Entry("server error", "Internal Server Error"))
    case 501 => Some(Entry("server error", "Not Implemented"))
    case 502 => Some(Entry("server error", "Bad Gateway"))
    case 503 => Some(Entry("server error", "Service Unavailable"))
    case 504 => Some(Entry("server error", "Gateway Timeout"))
    case 505 => Some(Entry("server error", "HTTP Version Not Supported"))
    case 506 => Some(Entry("server error", "Variant Also Negotiates"))
    case 507 => Some(Entry("server error", "Insufficient Storage"))
    case 508 => Some(Entry("server error", "Loop Detected"))
    case 510 => Some(Entry("server error", "Not Extended"))
    case 511 => Some(Entry("server error", "Network Authentication Required"))
    case _ => None
  }

  /** The table's keys, grouped by hundreds. */
  const Keys1xx: set<int> := {100, 101, 102}
  const Keys2xx: set<int> := {200, 201, 202, 203, 204, 205, 206, 207, 208, 226}
  const Keys3xx: set<int> := {300, 301, 302, 303, 304, 305, 307, 308}
  const Keys4xx: set<int> := {400, 401, 402, 403, 404, 405, 406, 407, 408, 409, 410, 411, 412, 413, 414, 415, 416, 417, 418, 421, 422, 423, 424, 426, 428, 429, 431, 451}
  const Keys5xx: set<int> := {500, 501, 502, 503, 504, 505, 506, 507, 508, 510, 511}
  const Keys: set<int> := Keys1xx + Keys2xx + Keys3xx + Keys4xx + Keys5xx

  /** The category a code's first digit names. */
  function Category(code: int): string
    requires 100 <= code < 600
  {
    match code / 100
    case 1 => "informational"
    case 2 => "success"
    case 3 => "redirection"
    case 4 => "client error"
    case 5 => "server error"
  }

  /** Within one hundred, the table holds exactly that hundred's keys, all of that hundred's category. */
  lemma Hundred(code: int, h: int)
    requires 1 <= h <= 5 && h * 100 <= code < h * 100 + 100
    ensures h == 1 ==> (Lookup(code).Some? <==> code in Keys1xx)
    ensures h == 2 ==> (Lookup(code).Some? <==> code in Keys2xx)
    ensures h == 3 ==> (Lookup(code).Some? <==> code in Keys3xx)
    ensures h == 4 ==> (Lookup(code).Some? <==> code in Keys4xx)
    ensures h == 5 ==> (Lookup(code).Some? <==> code in Keys5xx)
    ensures Lookup(code).Some? ==> Lookup(code).value.status == Category(code)
  {
    assert code / 100 == h;
    if h == 1 {
      InformationalCodes(code);
    } else if h == 2 {
      SuccessfulCodes(code);
    } else if h == 3 {
      RedirectionCodes(code);
    } else if h == 4 {
      ClientErrorCodes(code);
    } else {
      ServerErrorCodes(code);
    }
  }

  lemma InformationalCodes(code: int)
    requires 100 <= code < 200
    ensures Lookup(code).Some? <==> code in Keys1xx
    ensures Lookup(code).Some? ==> Lookup(code).value.status == "informational"
  {
  }

  lemma SuccessfulCodes(code: int)
    requires 200 <= code < 300
    ensures Lookup(code).Some? <==> code in Keys2xx
    ensures Lookup(code).Some? ==> Lookup(code).value.status == "success"
  {
  }

  lemma RedirectionCodes(code: int)
    requires 300 <= code < 400
    ensures Lookup(code).Some? <==> code in Keys3xx
    ensures Lookup(code).Some? ==> Lookup(code).value.status == "redirection"
  {
  }

  lemma ClientErrorCodes(code: int)
    requires 400 <= code < 500
    ensures Lookup(code).Some? <==> code in Keys4xx
    ensures Lookup(code).Some? ==> Lookup(code).value.status == "client error"
  {
  }

  lemma ServerErrorCodes(code: int)
    requires 500 <= code < 600
    ensures Lookup(code).Some? <==> code in Keys5xx
    ensures Lookup(code).Some? ==> Lookup(code).value.status == "server error"
  {
  }

  /** Each group of keys lies within its hundred. */
  lemma GroupRange(c: int)
    ensures c in Keys1xx ==> 100 <= c < 200
    ensures c in Keys2xx ==> 200 <= c < 300
    ensures c in Keys3xx ==> 300 <= c < 400
    ensures c in Keys4xx ==> 400 <= c < 500
    ensures c in Keys5xx ==> 500 <= c <= 511
  {
  }

  /** Outside the hundreds 1xx to 5xx there are neither entries nor keys. */
  lemma OutsideHundreds(code: int)
    requires code < 100 || 600 <= code
    ensures Lookup(code).None? && code !in Keys
  {
    GroupRange(code);
    assert code !in Keys;
    if code < 100 {
      BelowTableAbsent(code);
    } else {
      AboveTableAbsent(code);
    }
  }

  lemma BelowTableAbsent(code: int)
    requires code < 100
    ensures Lookup(code).None?
  {
  }

  lemma AboveTableAbsent(code: int)
    requires 600 <= code
    ensures Lookup(code).None?
  {
  }

  /** Within one hundred, a code is a key of the whole table exactly when it is a key of its group. */
  lemma InsideHundred(code: int, h: int)
    requires 1 <= h <= 5 && h * 100 <= code < h * 100 + 100
    ensures Lookup(code).Some? <==> code in Keys
  {
    GroupRange(code);
    Hundred(code, h);
  }

  /** The keys of the table are exactly `Keys`, all within [100, 511]. */
  lemma KeysExact(code: int)
    ensures Lookup(code).Some? <==> code in Keys
    ensures code in Keys ==> 100 <= code <= 511
  {
    GroupRange(code);
    if code < 100 || 600 <= code {
      OutsideHundreds(code);
    } else {
      InsideHundred(code, code / 100);
    }
  }

  /** Every entry's category is the one its code's hundreds digit names. */
  lemma CategoryFollowsHundreds(code: int)
    requires Lookup(code).Some?
    ensures 100 <= code <= 511
    ensures Lookup(code).value.status == Category(code)
  {
    KeysExact(code);
    Hundred(code, code / 100);
  }

  /** The entries the rest of the server relies on. */
  lemma KnownEntries()
    ensures Lookup(418) == Some(Entry("client error", "I'm a teapot"))
    ensures Lookup(429) == Some(Entry("client error", "Too Many Requests"))
    ensures Lookup(401) == Some(Entry("client error", "Unauthorized"))
    ensures Lookup(403) == Some(Entry("client error", "Forbidden"))
    ensures Lookup(409) == Some(Entry("client error", "Conflict"))
    ensures Lookup(500) == Some(Entry("server error", "Internal Server Error"))
  {
  }

  /** 306 and 509 are not in the table, so a lookup finds nothing. */
  lemma GapsAreAbsent()
    ensures Lookup(306) == None && Lookup(509) == None
  {
  }
}
