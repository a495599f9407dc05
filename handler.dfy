/**
 * The handler object of one connection: it reads from `rfile`, writes to
 * `wfile` and collects response headers in `headersBuffer`. Every method is
 * proved to do to the connection what the matching function of module
 * `Connection` says.
 */
module Handler {
  import opened Text
  import opened Http
  import opened Wire
  import opened Requests
  import opened Responses
  import opened Documents
  import opened Connection

  class Handler {
    const rfile: Reader
    const wfile: Writer
    var headersBuffer: seq<string>
    const env: Env

    ghost predicate Valid()
      reads this, rfile
    {
      rfile.Valid()
    }

    /** The connection as the functions of module `Connection` see it. */
    ghost function State(): Conn
      requires Valid()
      reads this, rfile, wfile
    {
      Conn(rfile.data[rfile.pos..], wfile.written, wfile.closed, headersBuffer)
    }

    constructor (input: string, env: Env)
      ensures Valid() && State() == Start(input) && this.env == env
      ensures fresh(rfile) && fresh(wfile)
    {
      rfile := new Reader(input);
      wfile := new Writer();
      headersBuffer := [];
      this.env := env;
      new;
      assert rfile.data[rfile.pos..] == input;
    }

    /** `_append_header`. */
    method AppendHeader(key: string, value: string)
      requires Valid()
      modifies this
      ensures Valid()
      ensures State() == old(State()).(buffer := old(State()).buffer + [HeaderLine(key, value)])
    {
      headersBuffer := headersBuffer + [HeaderLine(key, value)];
    }

    /** `_start_headers`: the framing headers go after whatever is already
      * buffered. */
    method StartHeaders()
      requires Valid()
      modifies this
      ensures Valid()
      ensures State() == old(State()).(buffer := old(State()).buffer + Framing(env.date))
    {
      AppendHeader("Date", env.date);
      AppendHeader("Server", ServerName);
      AppendHeader("Connection", "close");
    }

    /** Writes the chunks one after the other, as the loops of
      * `_send_headers` and `send_response` do. */
    method WriteAll(chunks: seq<string>)
      requires !wfile.closed
      modifies wfile
      ensures !wfile.closed
      ensures wfile.written == old(wfile.written) + Concat(chunks)
    {
      for i := 0 to |chunks|
        invariant !wfile.closed
        invariant wfile.written == old(wfile.written) + Concat(chunks[..i])
      {
        var _ := wfile.Write(chunks[i]);
        ConcatSnoc(chunks[..i], chunks[i]);
        assert chunks[..i + 1] == chunks[..i] + [chunks[i]];
      }
      assert chunks[..|chunks|] == chunks;
    }

    /** `_send_headers`: buffer the framing headers, write every buffered
      * header in order, then the blank line. */
    method SendHeaders()
      requires Valid() && !wfile.closed
      modifies this, wfile
      ensures Valid() && !wfile.closed
      ensures headersBuffer == old(headersBuffer) + Framing(env.date)
      ensures wfile.written == old(wfile.written) + Concat(headersBuffer) + "\r\n"
    {
      StartHeaders();
      WriteAll(headersBuffer);
      var _ := wfile.Write("\r\n");
    }

    /** `send_response`. */
    method SendResponse(status: Status, body: seq<string>) returns (r: Outcome<()>)
      requires Valid()
      modifies this, wfile
      ensures Valid()
      ensures State() == Connection.SendResponse(old(State()), env, status, body).0
      ensures r == Connection.SendResponse(old(State()), env, status, body).1
    {
      ghost var c := State();
      var ok := wfile.Write(StatusLine(status));
      if !ok {
        return Raise(WriteToClosedFile);
      }
      SendHeaders();
      WriteAll(body);
      wfile.Close();
      r := Return(());
      WrittenInParts(c.output, status, headersBuffer, body);
      assert headersBuffer == c.buffer + Framing(env.date);
    }

    /** `send_error`. */
    method SendError(status: Status) returns (r: Outcome<()>)
      requires Valid()
      modifies this, wfile
      ensures Valid()
      ensures State() == Connection.SendError(old(State()), env, status).0
      ensures r == Connection.SendError(old(State()), env, status).1
    {
      r := SendResponse(status, []);
    }

    /** `parse_requestline`. */
    method ParseRequestLine() returns (r: Outcome<Option<Request>>)
      requires Valid()
      modifies this, rfile, wfile
      ensures Valid()
      ensures State() == RequestLineStep(old(State()), env).0
      ensures r == RequestLineStep(old(State()), env).1
    {
      var raw := rfile.ReadLine(ReadLimit);
      assert rfile.data[rfile.pos..] == old(State()).rest[|raw|..];
      var checked := CheckRequestLine(raw);
      if checked.Ok? {
        return Return(Some(checked.value));
      }
      var e := SendError(checked.error);
      r := if e.Raise? then Raise(e.exc) else Return(None);
    }

    /** The end of `parse_headers` for a refused block: the error response,
      * and no values. */
    method RefuseHeaders(status: Status, ghost c0: Conn, ghost k: nat) returns (r: Outcome<Option<seq<string>>>)
      requires Valid()
      requires ReadHeaders(ReadLines(c0.rest, ReadLimit), []) == (Rejected(status), k)
      requires State() == c0.(rest := Skip(c0.rest, ReadLimit, k))
      modifies this, wfile
      ensures Valid()
      ensures State() == HeadersStep(c0, env).0 && r == HeadersStep(c0, env).1
    {
      var e := SendError(status);
      r := if e.Raise? then Raise(e.exc) else Return(None);
      HeadersStepRejected(c0, env, status, k);
    }

    /** `parse_headers`: read lines until the block ends, keeping the value
      * of each header line; refuse an overlong line, a line without a colon
      * and one value too many. */
    method ParseHeaders() returns (r: Outcome<Option<seq<string>>>)
      requires Valid()
      modifies this, rfile, wfile
      ensures Valid()
      ensures State() == HeadersStep(old(State()), env).0
      ensures r == HeadersStep(old(State()), env).1
    {
      ghost var c0 := State();
      ghost var s0 := c0.rest;
      ghost var lines := ReadLines(s0, ReadLimit);
      ghost var verdict := ReadHeaders(lines, []);
      ghost var i := 0;
      ghost var consumed := 0;
      var headers: seq<string> := [];
      var refused: Option<Status> := None;
      while true
        invariant Valid() && i <= |lines| && |headers| <= MaxHeaders
        invariant wfile.written == old(wfile.written) && wfile.closed == old(wfile.closed)
        invariant headersBuffer == old(headersBuffer) && refused == None
        invariant rfile.data[rfile.pos..] == Skip(s0, ReadLimit, i)
        invariant ReadLines(Skip(s0, ReadLimit, i), ReadLimit) == lines[i..]
        invariant ReadHeaders(lines[i..], headers) == (verdict.0, verdict.1 - i)
        decreases |rfile.data| - rfile.pos
      {
        var raw := rfile.ReadLine(ReadLimit);
        ReadOn(s0, ReadLimit, lines, i);
        ReadHeadersAt(lines, i, headers, raw, verdict);
        consumed := i + 1;
        if |raw| > MaxLine {
          refused := Some(RequestUriTooLong);
          break;
        }
        if raw == "\r\n" || raw == "\n" || raw == "" {
          consumed := if i < |lines| then i + 1 else i;
          break;
        }
        var v := HeaderValue(raw);
        if v.None? {
          refused := Some(BadRequest);
          break;
        }
        headers := headers + [v.value];
        if |headers| > MaxHeaders {
          refused := Some(RequestHeaderFieldsTooLarge);
          break;
        }
        i := i + 1;
      }
      if refused.Some? {
        r := RefuseHeaders(refused.value, c0, consumed);
      } else {
        r := Return(Some(headers));
        HeadersStepAccepted(c0, env, headers, consumed);
      }
    }

    /** `open_document`: a missing file is answered with 404; a regular
      * file gets Content-Type and Content-Length buffered and is opened; a
      * directory gets Content-Type `text/html` buffered and cannot be
      * opened. */
    method OpenDocument(path: string) returns (r: Outcome<Option<string>>)
      requires Valid()
      modifies this, wfile
      ensures Valid()
      ensures State() == Connection.OpenDocument(old(State()), env, path).0
      ensures r == Connection.OpenDocument(old(State()), env, path).1
    {
      var p := DocumentPath(env.root, env.urlPath(path));
      if p !in env.files {
        var e := SendError(NotFound);
        return if e.Raise? then Raise(e.exc) else Return(None);
      }
      match env.files[p]
      case File(content) =>
        AppendHeader("Content-Type", ContentType(p));
        AppendHeader("Content-Length", Decimal(|content|));
        r := Return(Some(content));
      case Dir =>
        AppendHeader("Content-Type", DirectoryType);
        r := Raise(IsADirectory);
    }

    /** `process_GET`: the document's lines are the body. */
    method ProcessGet(req: Request) returns (r: Outcome<()>)
      requires Valid()
      modifies this, wfile
      ensures Valid()
      ensures State() == Get(old(State()), env, req.path).0
      ensures r == Get(old(State()), env, req.path).1
    {
      var document := OpenDocument(req.path);
      if document.Raise? {
        return Raise(document.exc);
      }
      if document.value.Some? {
        r := SendResponse(OK, Lines(document.value.value));
      } else {
        r := Return(());
      }
    }

    /** `process_HEAD`: the same headers, no body. */
    method ProcessHead(req: Request) returns (r: Outcome<()>)
      requires Valid()
      modifies this, wfile
      ensures Valid()
      ensures State() == Head(old(State()), env, req.path).0
      ensures r == Head(old(State()), env, req.path).1
    {
      var document := OpenDocument(req.path);
      if document.Raise? {
        return Raise(document.exc);
      }
      if document.value.Some? {
        r := SendResponse(OK, []);
      } else {
        r := Return(());
      }
    }

    /** `process_request`. */
    method ProcessRequest() returns (r: Outcome<()>)
      requires Valid()
      modifies this, rfile, wfile
      ensures Valid()
      ensures State() == Connection.ProcessRequest(old(State()), env).0
      ensures r == Connection.ProcessRequest(old(State()), env).1
    {
      var request := ParseRequestLine();
      if request.Raise? {
        return Raise(request.exc);
      }
      var headers := ParseHeaders();
      if headers.Raise? {
        return Raise(headers.exc);
      }
      if request.value.None? {
        return Return(());
      }
      if headers.value.None? {
        return Raise(ExtendWithNone);
      }
      var req := request.value.value;
      req := req.(headers := req.headers + headers.value.value);
      if req.verb == "GET" {
        r := ProcessGet(req);
      } else if req.verb == "HEAD" {
        r := ProcessHead(req);
      } else {
        r := SendError(NotImplemented);
      }
    }
  }

  /** A connection from accept to close: the handler is built on it and
    * handles the one request. */
  method Handle(input: string, env: Env) returns (output: string, r: Outcome<()>)
    ensures (output, r) == Serve(input, env)
  {
    var h := new Handler(input, env);
    r := h.ProcessRequest();
    output := h.wfile.written;
  }
}
