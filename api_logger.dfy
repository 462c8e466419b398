/**
 * The response logger (server/middleware/api_logger.py). It logs at most the
 * first 500 bytes of a response body, marks a longer body as truncated, and
 * returns the response untouched. Writing the log line and decoding the
 * bytes as UTF-8 are not modelled; the logged bytes are.
 */
module ApiLogger {
  import opened Wrappers

  type byte = x: int | 0 <= x < 256

  const MaxLength := 500

  /** The bytes of `"... [Truncated]"`. */
  const TruncatedMarker: seq<byte> := [46, 46, 46, 32, 91, 84, 114, 117, 110, 99, 97, 116, 101, 100, 93]

  /** The value handed to the logger: a Flask `Response` (whose data may be unreadable) or some other value. */
  datatype Logged = FlaskResponse(status: string, data: Option<seq<byte>>) | OtherResponse(status: string)

  /** What ends up in the log line after the status. */
  datatype LogBody = Body(bytes: seq<byte>) | DataNotAccessible | DirectPassthrough

  /** The body that is logged for `data`. */
  function TruncatedBody(data: seq<byte>): seq<byte> {
    var head := if |data| <= MaxLength then data else data[..MaxLength];
    if |data| > MaxLength then head + TruncatedMarker else head
  }

  /** `log_response`: the returned value, and what is logged about it. */
  function LogResponse(response: Logged): (Logged, LogBody) {
    match response
    case OtherResponse(_) => (response, DirectPassthrough)
    case FlaskResponse(_, None) => (response, DataNotAccessible)
    case FlaskResponse(_, Some(data)) => (response, Body(TruncatedBody(data)))
  }

  /**
   * The logged body starts with the first 500 bytes of the data (all of it
   * when shorter), and the marker follows exactly when the data is longer
   * than 500 bytes.
   */
  lemma TruncationShape(data: seq<byte>)
    ensures var b := TruncatedBody(data);
            && (|data| <= MaxLength ==> b == data)
            && (|data| > MaxLength ==> b[..MaxLength] == data[..MaxLength] && b[MaxLength..] == TruncatedMarker)
            && (|b| > MaxLength <==> |data| > MaxLength)
  {
  }

  /**
   * The logger returns the very value it was given, whatever it logs; a
   * non-`Response` value is logged without reading its data.
   */
  lemma ReturnsSameResponse(response: Logged)
    ensures LogResponse(response).0 == response
    ensures response.OtherResponse? ==> LogResponse(response).1 == DirectPassthrough
    ensures response.FlaskResponse? && response.data.None? ==> LogResponse(response).1 == DataNotAccessible
  {
  }
}
