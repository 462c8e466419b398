/**
 * The after-request envelope (server/middleware/response_manipulator.py).
 * A Flask response gets a status text and a message from the status table
 * when it has none, a metadata record and two headers, all in place; any
 * other value is replaced by a fresh 500 response whose JSON body holds the
 * status, the message and the metadata.
 *
 * Timing is abstract: `startTime` is `g.start_time` when it was recorded,
 * and the elapsed time is kept in whole milliseconds rather than formatted
 * as a float; `timestamp` is the ISO text of the current UTC time.
 */
module ResponseEnvelope {
  import opened Wrappers
  import opened Json
  import HttpStatus

  datatype ResponseTime = Elapsed(milliseconds: int) | Unavailable

  datatype Metadata = Metadata(timestamp: string, responseTime: ResponseTime)

  const JsonContentType := ("Content-Type", "application/json")
  const CustomHeader := ("X-Custom-Header", "Custom Value")

  class Response {
    var statusCode: int
    /** The `status` and `message` attributes, absent until set. */
    var status: Option<string>
    var message: Option<string>
    var metadata: Option<Metadata>
    var headers: map<string, string>
    var body: Dict

    constructor (statusCode: int, body: Dict)
      ensures this.statusCode == statusCode && this.body == body
      ensures status == None && message == None && metadata == None && headers == map[]
    {
      this.statusCode := statusCode;
      this.body := body;
      status, message, metadata, headers := None, None, None, map[];
    }
  }

  /** What the hook receives: a Flask `Response`, or any other value. */
  datatype Returned = FlaskResponse(response: Response) | NotAResponse

  /** "Unavailable" without a recorded start, else the time since it. */
  function MeasureResponseTime(startTime: Option<int>, nowMs: int): (t: ResponseTime)
    ensures t == Unavailable <==> startTime.None?
  {
    match startTime
    case None => Unavailable
    case Some(s) => Elapsed(nowMs - s)
  }

  /** `HTTP_STATUS_CODES.get(code, {}).get(field, default)` for the two fields. */
  function TableStatus(code: int, default: string): string {
    match HttpStatus.Lookup(code)
    case Some(e) => e.status
    case None => default
  }

  function TableMessage(code: int, default: string): string {
    match HttpStatus.Lookup(code)
    case Some(e) => e.message
    case None => default
  }

  /** The status kept if present, else the table's, else "Couldn't obtain status". */
  function ResolveStatus(current: Option<string>, code: int): string {
    if current.Some? then current.value else TableStatus(code, "Couldn't obtain status")
  }

  /** The message kept if present, else the table's, else "Couldn't obtain message". */
  function ResolveMessage(current: Option<string>, code: int): string {
    if current.Some? then current.value else TableMessage(code, "Couldn't obtain message")
  }

  /** The JSON body of the 500 envelope that replaces a non-`Response` value. */
  function ErrorBody(meta: Metadata): Dict {
    map[
      "status" := Str(TableStatus(500, "Couldn't obtain status")),
      "message" := Str(TableMessage(500, "An unexpected error occurred")),
      "metadata" := Object(map["timestamp" := Str(meta.timestamp), "responseTime" := ResponseTimeValue(meta.responseTime)])
    ]
  }

  function ResponseTimeValue(t: ResponseTime): Value {
    match t
    case Elapsed(ms) => Int(ms)
    case Unavailable => Str("Unavailable")
  }

  /** `response_manipulator(response)`. */
  method ResponseManipulator(input: Returned, startTime: Option<int>, nowMs: int, timestamp: string)
    returns (out: Response)
    modifies if input.FlaskResponse? then {input.response} else {}
    ensures out.headers == old(if input.FlaskResponse? then input.response.headers else map[])[JsonContentType.0 := JsonContentType.1][CustomHeader.0 := CustomHeader.1]
    ensures input.FlaskResponse? ==>
      && out == input.response
      && out.metadata == Some(Metadata(timestamp + "Z", MeasureResponseTime(startTime, nowMs)))
      && out.statusCode == old(out.statusCode) && out.body == old(out.body)
      && out.status == Some(ResolveStatus(old(out.status), out.statusCode))
      && out.message == Some(ResolveMessage(old(out.message), out.statusCode))
    ensures input.NotAResponse? ==>
      && fresh(out) && out.statusCode == 500 && out.status == None && out.message == None && out.metadata == None
      && out.body == ErrorBody(Metadata(timestamp + "Z", MeasureResponseTime(startTime, nowMs)))
  {
    var meta := Metadata(timestamp + "Z", MeasureResponseTime(startTime, nowMs));
    match input
    case FlaskResponse(r) =>
      var code := r.statusCode;
      r.status := Some(ResolveStatus(r.status, code));
      r.message := Some(ResolveMessage(r.message, code));
      r.metadata := Some(meta);
      r.headers := r.headers[JsonContentType.0 := JsonContentType.1];
      r.headers := r.headers[CustomHeader.0 := CustomHeader.1];
      out := r;
    case NotAResponse =>
      // the metadata goes into the JSON body only
      out := new Response(500, ErrorBody(meta));
      out.headers := out.headers[JsonContentType.0 := JsonContentType.1];
      out.headers := out.headers[CustomHeader.0 := CustomHeader.1];
  }

  /**
   * A present status or message is kept; an absent one comes from the table,
   * and from the fixed fallback for a code the table lacks.
   */
  lemma ResolutionRules(current: Option<string>, code: int)
    ensures current.Some? ==> ResolveStatus(current, code) == current.value && ResolveMessage(current, code) == current.value
    ensures current.None? && HttpStatus.Lookup(code).Some? ==>
      ResolveStatus(current, code) == HttpStatus.Lookup(code).value.status &&
      ResolveMessage(current, code) == HttpStatus.Lookup(code).value.message
    ensures current.None? && HttpStatus.Lookup(code).None? ==>
      ResolveStatus(current, code) == "Couldn't obtain status" && ResolveMessage(current, code) == "Couldn't obtain message"
  {
  }

  /** A response without status text for 418 becomes "client error" / "I'm a teapot". */
  lemma TeapotResolved()
    ensures ResolveStatus(None, 418) == "client error" && ResolveMessage(None, 418) == "I'm a teapot"
  {
    HttpStatus.KnownEntries();
  }

  /**
   * The fallback envelope reads "server error" / "Internal Server Error"
   * (the table has 500, so neither default is used) and carries the metadata.
   */
  lemma ErrorEnvelopeContents(meta: Metadata)
    ensures ErrorBody(meta)["status"] == Str("server error")
    ensures ErrorBody(meta)["message"] == Str("Internal Server Error")
    ensures ErrorBody(meta)["metadata"].fields["timestamp"] == Str(meta.timestamp)
    ensures ErrorBody(meta)["metadata"].fields["responseTime"] == (if meta.responseTime.Unavailable? then Str("Unavailable") else Int(meta.responseTime.milliseconds))
  {
    HttpStatus.KnownEntries();
  }
}
