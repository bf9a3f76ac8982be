/** Results shared by every part of the interpreter model. */
module Outcomes {

  /** How a handler can go wrong.
      Raised:  a VPOLException; `run` catches it, reports the line and stops.
      Crashed: any other Python exception (ValueError, re.error, EOFError,
               RecursionError); nothing in the interpreter catches it. */
  datatype Failure = Raised(message: string) | Crashed(reason: string)

  /** A value that may be missing; a regular expression that does not match
      gives None. */
  datatype Option<+T> = None | Some(value: T)

  /** A value or the failure that prevented it. */
  datatype Result<+T> = Ok(value: T) | Err(failure: Failure)

  /** What a statement handler returns: it finished, or it failed. */
  datatype Outcome = Done | Fail(failure: Failure)

  /** The externally visible actions of a script, in the order they happen.
      Only what the interpreter hands to the outside world is recorded; what
      the outside world answers (ping output, HTTP status, packet replies) is
      not part of the model. */
  datatype Effect =
    | Print(text: string)                 // terminal.print: text plus a newline on stdout
    | SetTitle(title: string)             // terminal.set_title
    | ClearScreen                         // cls()
    | Ping(host: string)                  // network.ping: the ping utility, 4 probes
    | HttpCheck(url: string)              // network.http_check: GET with a 5 s timeout
    | SendPacket(ip: string, port: int, protocol: string, size: int)
    | Prompt(text: string)                // terminal.input writes its prompt before reading

  /** Joins two partial results the way a left-to-right accumulation does:
      the first failure wins, otherwise the strings are concatenated. */
  function Concat(a: Result<string>, b: Result<string>): (r: Result<string>)
    ensures r.Ok? <==> a.Ok? && b.Ok?
    ensures r.Ok? ==> r.value == a.value + b.value
    ensures a.Err? ==> r == a
    ensures a.Ok? && b.Err? ==> r == b
  {
    match a
    case Err(_) => a
    case Ok(x) =>
      match b
      case Err(_) => b
      case Ok(y) => Ok(x + y)
  }

  /** Accumulating in two steps is accumulating in one. */
  lemma ConcatAssociative(a: Result<string>, b: Result<string>, c: Result<string>)
    ensures Concat(Concat(a, b), c) == Concat(a, Concat(b, c))
  {
    if a.Ok? && b.Ok? && c.Ok? {
      assert (a.value + b.value) + c.value == a.value + (b.value + c.value);
    }
  }
}
