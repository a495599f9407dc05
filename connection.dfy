/**
 * One connection handled from start to end, as functions of its state: the
 * bytes not yet read, the bytes written, whether the write side is closed,
 * and the handler's header buffer. Each step of the handler returns the
 * new state together with its outcome, a value or a raised exception.
 */
module Connection {
  import opened Text
  import opened Http
  import opened Wire
  import opened Requests
  import opened Responses
  import opened Documents

  /** What the handler works with besides the connection: the document
    * root, the `Date` value, the path part of the decoded URL
    * (`urlparse(unquote(...)).path`), and the filesystem. */
  datatype Env = Env(root: string, date: string, urlPath: string -> string, files: map<string, Entry>)

  /** The state of a connection. */
  datatype Conn = Conn(rest: string, output: string, closed: bool, buffer: seq<string>)

  /** A fresh connection on which the peer sent `input`. */
  function Start(input: string): Conn
  {
    Conn(input, [], false, [])
  }

  /** `send_response`: the status line, the buffered headers followed by
    * the framing ones, a blank line and the body, then the stream is
    * closed. On a closed stream the first write raises and nothing changes. */
  function SendResponse(c: Conn, env: Env, status: Status, body: seq<string>): (r: (Conn, Outcome<()>))
    ensures r.1.Raise? <==> c.closed
    ensures r.1.Raise? ==> r.0 == c && r.1.exc == WriteToClosedFile
    ensures r.0.closed && r.0.rest == c.rest
  {
    if c.closed then (c, Raise(WriteToClosedFile))
    else
      var headers := c.buffer + Framing(env.date);
      (Conn(c.rest, c.output + ResponseBytes(status, headers, body), true, headers), Return(()))
  }

  /** `send_error`: a response with an empty body. */
  function SendError(c: Conn, env: Env, status: Status): (r: (Conn, Outcome<()>))
  {
    SendResponse(c, env, status, [])
  }

  /** A step that answered with an error returns `None` to its caller, unless
    * writing the answer raised. */
  function Abandon<T>(r: (Conn, Outcome<()>)): (Conn, Outcome<Option<T>>)
  {
    (r.0, if r.1.Raise? then Raise(r.1.exc) else Return(None))
  }

  /** `parse_requestline`: one read, then the checks on the stripped line. */
  function RequestLineStep(c: Conn, env: Env): (Conn, Outcome<Option<Request>>)
  {
    var raw := LineAt(c.rest, ReadLimit);
    var c1 := c.(rest := c.rest[|raw|..]);
    match CheckRequestLine(raw)
    case Ok(req) => (c1, Return(Some(req)))
    case Err(status) => Abandon(SendError(c1, env, status))
  }

  /** `parse_headers`: the lines of the block are read one at a time until
    * the block ends or is refused; only the lines looked at are consumed. */
  function HeadersStep(c: Conn, env: Env): (Conn, Outcome<Option<seq<string>>>)
  {
    var r := ReadHeaders(ReadLines(c.rest, ReadLimit), []);
    var c1 := c.(rest := Skip(c.rest, ReadLimit, r.1));
    if r.0.Values? then (c1, Return(Some(r.0.values)))
    else Abandon(SendError(c1, env, r.0.status))
  }

  /** `HeadersStep` when the block is refused after `k` lines. */
  lemma {:induction false} HeadersStepRejected(c: Conn, env: Env, status: Status, k: nat)
    requires ReadHeaders(ReadLines(c.rest, ReadLimit), []) == (Rejected(status), k)
    ensures HeadersStep(c, env).0 == SendError(c.(rest := Skip(c.rest, ReadLimit, k)), env, status).0
    ensures HeadersStep(c, env).1 == Abandon(SendError(c.(rest := Skip(c.rest, ReadLimit, k)), env, status)).1
  {
  }

  /** `HeadersStep` when the block ends after `k` lines with the values
    * `vs`. */
  lemma {:induction false} HeadersStepAccepted(c: Conn, env: Env, vs: seq<string>, k: nat)
    requires ReadHeaders(ReadLines(c.rest, ReadLimit), []) == (Values(vs), k)
    ensures HeadersStep(c, env) == (c.(rest := Skip(c.rest, ReadLimit, k)), Return(Some(vs)))
  {
  }

  /** The first half of `process_request`: the request line, then the
    * headers whatever became of the request line, then the header values
    * attached to the request. Attaching a missing list raises. */
  function Receive(c: Conn, env: Env): (Conn, Outcome<Option<Request>>)
  {
    var r1 := RequestLineStep(c, env);
    if r1.1.Raise? then r1
    else
      var r2 := HeadersStep(r1.0, env);
      if r2.1.Raise? then (r2.0, Raise(r2.1.exc))
      else if r1.1.value.None? then (r2.0, Return(None))
      else if r2.1.value.None? then (r2.0, Raise(ExtendWithNone))
      else
        var req := r1.1.value.value;
        (r2.0, Return(Some(req.(headers := req.headers + r2.1.value.value))))
  }

  /** `open_document`: resolve the path; a missing file is answered with
    * 404; a regular file gets its Content-Type and Content-Length headers
    * buffered and is opened; a directory gets `text/html` buffered and
    * then cannot be opened. */
  function OpenDocument(c: Conn, env: Env, path: string): (r: (Conn, Outcome<Option<string>>))
  {
    var p := DocumentPath(env.root, env.urlPath(path));
    if p !in env.files then Abandon(SendError(c, env, NotFound))
    else
      match env.files[p]
      case File(content) =>
        var headers := [HeaderLine("Content-Type", ContentType(p)), HeaderLine("Content-Length", Decimal(|content|))];
        (c.(buffer := c.buffer + headers), Return(Some(content)))
      case Dir =>
        (c.(buffer := c.buffer + [HeaderLine("Content-Type", DirectoryType)]), Raise(IsADirectory))
  }

  /** `process_GET`: the document's lines are the body. */
  function Get(c: Conn, env: Env, path: string): (Conn, Outcome<()>)
  {
    var r := OpenDocument(c, env, path);
    if r.1.Raise? then (r.0, Raise(r.1.exc))
    else if r.1.value.None? then (r.0, Return(()))
    else SendResponse(r.0, env, OK, Lines(r.1.value.value))
  }

  /** `process_HEAD`: the same headers as GET, no body. */
  function Head(c: Conn, env: Env, path: string): (Conn, Outcome<()>)
  {
    var r := OpenDocument(c, env, path);
    if r.1.Raise? then (r.0, Raise(r.1.exc))
    else if r.1.value.None? then (r.0, Return(()))
    else SendResponse(r.0, env, OK, [])
  }

  /** The handler looked up by method name; a method without one would be
    * answered with 501. */
  function Dispatch(c: Conn, env: Env, req: Request): (Conn, Outcome<()>)
  {
    if req.verb == "GET" then Get(c, env, req.path)
    else if req.verb == "HEAD" then Head(c, env, req.path)
    else SendError(c, env, NotImplemented)
  }

  /** `process_request`. */
  function ProcessRequest(c: Conn, env: Env): (Conn, Outcome<()>)
  {
    var r := Receive(c, env);
    if r.1.Raise? then (r.0, Raise(r.1.exc))
    else if r.1.value.None? then (r.0, Return(()))
    else Dispatch(r.0, env, r.1.value.value)
  }

  /** What a connection on which the peer sent `input` writes back, and how
    * handling it ends. */
  function Serve(input: string, env: Env): (string, Outcome<()>)
  {
    var r := ProcessRequest(Start(input), env);
    (r.0.output, r.1)
  }
}
