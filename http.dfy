/**
 * The protocol vocabulary of the handler: its limits, the statuses it can
 * answer with, the request value it builds, and the outcome of a step that
 * may raise.
 */
module Http {

  /** Longest line accepted, in bytes (64 KiB). */
  const MaxLine: nat := 65536

  /** Most header lines accepted in one request. */
  const MaxHeaders: nat := 100

  /** The only methods a request line may name. */
  const AllowedMethods: set<string> := {"GET", "HEAD"}

  /** The value of the `Server` response header. */
  const ServerName: string := "HTTPServer/1.0"

  /** The statuses the handler sends, with the numbers and reason phrases of
    * Python's `http.HTTPStatus` as of Python 3.8 to 3.12 (from 3.13 on, 414
    * reads "URI Too Long"). */
  datatype Status =
    | OK
    | BadRequest
    | NotFound
    | MethodNotAllowed
    | RequestUriTooLong
    | RequestHeaderFieldsTooLarge
    | NotImplemented
  {
    function Code(): (n: nat)
      ensures 200 <= n < 600
      ensures n < 400 <==> this == OK
    {
      match this
      case OK => 200
      case BadRequest => 400
      case NotFound => 404
      case MethodNotAllowed => 405
      case RequestUriTooLong => 414
      case RequestHeaderFieldsTooLarge => 431
      case NotImplemented => 501
    }

    function Phrase(): (p: string)
      ensures p != []
    {
      match this
      case OK => "OK"
      case BadRequest => "Bad Request"
      case NotFound => "Not Found"
      case MethodNotAllowed => "Method Not Allowed"
      case RequestUriTooLong => "Request-URI Too Long"
      case RequestHeaderFieldsTooLarge => "Request Header Fields Too Large"
      case NotImplemented => "Not Implemented"
    }
  }

  /** A parsed request; `verb` is the request method. Only the header values
    * are kept: the names are dropped while parsing. */
  datatype Request = Request(verb: string, path: string, proto: string, headers: seq<string>)

  /** The exceptions the handler can raise. */
  datatype Exception =
    | WriteToClosedFile   // a second response written after the first closed the stream
    | ExtendWithNone      // header values missing when attaching them to the request
    | IsADirectory        // the resolved path names a directory, which cannot be opened

  /** What a step of the handler ends with: a returned value or a raised
    * exception that unwinds the rest of the connection. */
  datatype Outcome<T> = Return(value: T) | Raise(exc: Exception)

  datatype Option<T> = None | Some(value: T)

  datatype Result<T, E> = Ok(value: T) | Err(error: E)
}
