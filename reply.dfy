/**
 * What a route returns: a status code with a JSON body, and the three ways
 * a guard decorator can end (refuse with a reply, let the handler run with
 * an injected first argument, or raise an exception that no handler maps).
 */
module HttpReply {
  import opened Json

  /** `handle_status_code(code, data)` paired with `code`. */
  datatype Reply = Reply(code: int, data: Dict)

  /** The outcome of a guard: it replies itself, admits with a value for the handler, or raises. */
  datatype Gate<U> = Refused(reply: Reply) | Admitted(value: U) | Raised

  /** The outcome of a decorated route. */
  datatype Served<R> = Replied(reply: Reply) | Handled(result: R) | Crashed

  /**
   * Running the wrapped handler behind a guard: the handler is called, with
   * the admitted value first and the caller's arguments unchanged, exactly
   * when the guard admits.
   */
  function Behind<U, A, R>(g: Gate<U>, handler: (U, A) -> R, args: A): (s: Served<R>)
    ensures s.Handled? <==> g.Admitted?
    ensures g.Admitted? ==> s.result == handler(g.value, args)
    ensures g.Refused? ==> s == Replied(g.reply)
  {
    match g
    case Refused(r) => Replied(r)
    case Admitted(u) => Handled(handler(u, args))
    case Raised => Crashed
  }

  /** `handle_status_code(code, data={"error_info": message})`. */
  function Error(code: int, message: string): Reply {
    Reply(code, ErrorInfo(message))
  }
}
