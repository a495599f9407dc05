/**
 * What a whole connection writes back and how handling it ends, for each
 * way a request can go: a refused request line, a refused header block, a
 * missing document, a file served by GET or HEAD, and a directory.
 */
module Behaviour {
  import opened Text
  import opened Http
  import opened Wire
  import opened Requests
  import opened Responses
  import opened Documents
  import opened Connection

  /** The request line the handler reads first. */
  function FirstRead(input: string): string
  {
    LineAt(input, ReadLimit)
  }

  /** What follows the request line. */
  function AfterFirstRead(input: string): string
  {
    input[|FirstRead(input)|..]
  }

  /** The verdict on the header block that follows the request line. */
  function Block(input: string): (HeaderBlock, nat)
  {
    ReadHeaders(ReadLines(AfterFirstRead(input), ReadLimit), [])
  }

  /** An error response as the handler sends it on a fresh connection: no
    * headers but the framing ones, no body. */
  function ErrorResponse(status: Status, env: Env): string
  {
    ResponseBytes(status, Framing(env.date), [])
  }

  /** The state after answering an error on a fresh connection. */
  lemma {:induction false} FirstErrorSent(c: Conn, env: Env, status: Status)
    requires c.output == [] && !c.closed && c.buffer == []
    ensures SendError(c, env, status) == (Conn(c.rest, ErrorResponse(status, env), true, Framing(env.date)), Return(()))
  {
    assert [] + Framing(env.date) == Framing(env.date);
    assert [] + ErrorResponse(status, env) == ErrorResponse(status, env);
  }

  /** A refused request line is answered with its status. */
  lemma {:induction false} RequestLineRefused(input: string, env: Env)
    requires CheckRequestLine(FirstRead(input)).Err?
    ensures RequestLineStep(Start(input), env)
         == (Conn(AfterFirstRead(input), ErrorResponse(CheckRequestLine(FirstRead(input)).error, env), true, Framing(env.date)),
             Return(None))
  {
    FirstErrorSent(Start(input).(rest := AfterFirstRead(input)), env, CheckRequestLine(FirstRead(input)).error);
  }

  /** A request line that is refused is answered with exactly one error
    * response carrying its status; the header block after it is still
    * read, and when it ends normally the connection ends without error. */
  lemma {:induction false} RefusedRequestLine(input: string, env: Env)
    requires CheckRequestLine(FirstRead(input)).Err?
    requires Block(input).0.Values?
    ensures Serve(input, env) == (ErrorResponse(CheckRequestLine(FirstRead(input)).error, env), Return(()))
  {
    RequestLineRefused(input, env);
  }

  /** When the header block after a refused request line is refused too,
    * the second error response cannot be written: the connection ends with
    * a write to the closed stream, after the first response only. */
  lemma {:induction false} RefusedTwice(input: string, env: Env)
    requires CheckRequestLine(FirstRead(input)).Err?
    requires Block(input).0.Rejected?
    ensures Serve(input, env) == (ErrorResponse(CheckRequestLine(FirstRead(input)).error, env), Raise(WriteToClosedFile))
  {
    RequestLineRefused(input, env);
  }

  /** A good request line followed by a refused header block: the block's
    * error response is written, then attaching the missing header values
    * to the request raises. */
  lemma {:induction false} RefusedHeaderBlock(input: string, env: Env)
    requires CheckRequestLine(FirstRead(input)).Ok?
    requires Block(input).0.Rejected?
    ensures Serve(input, env) == (ErrorResponse(Block(input).0.status, env), Raise(ExtendWithNone))
  {
    var c1 := Start(input).(rest := AfterFirstRead(input));
    assert RequestLineStep(Start(input), env) == (c1, Return(Some(CheckRequestLine(FirstRead(input)).value)));
    FirstErrorSent(c1.(rest := Skip(c1.rest, ReadLimit, Block(input).1)), env, Block(input).0.status);
  }

  /** The request handed to the method handler: the parsed request line
    * with the header values attached, on a connection where nothing has
    * been written and nothing is buffered. */
  lemma {:induction false} RequestReceived(input: string, env: Env)
    requires CheckRequestLine(FirstRead(input)).Ok?
    requires Block(input).0.Values?
    ensures Receive(Start(input), env)
         == (Start(Skip(AfterFirstRead(input), ReadLimit, Block(input).1)),
             Return(Some(CheckRequestLine(FirstRead(input)).value.(headers := Block(input).0.values))))
  {
    var c1 := Start(input).(rest := AfterFirstRead(input));
    assert RequestLineStep(Start(input), env) == (c1, Return(Some(CheckRequestLine(FirstRead(input)).value)));
    assert [] + Block(input).0.values == Block(input).0.values;
  }

  /** The only requests that reach the method lookup are GET and HEAD, so
    * the 501 answer is never sent. */
  lemma {:induction false} DispatchFindsHandler(c: Conn, env: Env)
    requires Receive(c, env).1.Return? && Receive(c, env).1.value.Some?
    ensures Receive(c, env).1.value.value.verb in AllowedMethods
  {
    var raw := LineAt(c.rest, ReadLimit);
    assert CheckRequestLine(raw).Ok?;
    ParsedMethodIsAllowed(raw);
  }

  /** The request handed to the method handler. */
  function Received(input: string): Request
    requires CheckRequestLine(FirstRead(input)).Ok? && Block(input).0.Values?
  {
    CheckRequestLine(FirstRead(input)).value.(headers := Block(input).0.values)
  }

  /** The file a received request names. */
  function Target(input: string, env: Env): string
    requires CheckRequestLine(FirstRead(input)).Ok? && Block(input).0.Values?
  {
    DocumentPath(env.root, env.urlPath(Received(input).path))
  }

  /** A received request is handled by GET or HEAD on a connection where
    * nothing has been written and nothing is buffered. */
  lemma {:induction false} ServeDispatches(input: string, env: Env)
    requires CheckRequestLine(FirstRead(input)).Ok? && Block(input).0.Values?
    ensures Received(input).verb == "GET" || Received(input).verb == "HEAD"
    ensures Serve(input, env).0
         == Dispatch(Start(Skip(AfterFirstRead(input), ReadLimit, Block(input).1)), env, Received(input)).0.output
    ensures Serve(input, env).1
         == Dispatch(Start(Skip(AfterFirstRead(input), ReadLimit, Block(input).1)), env, Received(input)).1
  {
    RequestReceived(input, env);
    ParsedMethodIsAllowed(FirstRead(input));
  }

  /** A request for a path with nothing behind it is answered with 404,
    * which carries no Content-Type or Content-Length header. */
  lemma {:induction false} MissingDocument(input: string, env: Env)
    requires CheckRequestLine(FirstRead(input)).Ok? && Block(input).0.Values?
    requires Target(input, env) !in env.files
    ensures Serve(input, env) == (ErrorResponse(NotFound, env), Return(()))
  {
    ServeDispatches(input, env);
    var c := Start(Skip(AfterFirstRead(input), ReadLimit, Block(input).1));
    FirstErrorSent(c, env, NotFound);
  }

  /** The headers buffered for a regular file: its content type by
    * extension, then its size in decimal. */
  function FileHeaders(path: string, content: string): seq<string>
  {
    [HeaderLine("Content-Type", ContentType(path)), HeaderLine("Content-Length", Decimal(|content|))]
  }

  /** A regular file is served with status 200, its Content-Type and
    * Content-Length headers ahead of the framing ones, and for GET its
    * lines as the body; HEAD sends the same headers and no body. */
  lemma {:induction false} ServedFile(input: string, env: Env, content: string)
    requires CheckRequestLine(FirstRead(input)).Ok? && Block(input).0.Values?
    requires Target(input, env) in env.files && env.files[Target(input, env)] == File(content)
    ensures Serve(input, env)
         == (ResponseBytes(OK, FileHeaders(Target(input, env), content) + Framing(env.date),
                           if Received(input).verb == "GET" then Lines(content) else []),
             Return(()))
  {
    ServeDispatches(input, env);
    var c := Start(Skip(AfterFirstRead(input), ReadLimit, Block(input).1));
    var hs := FileHeaders(Target(input, env), content);
    assert OpenDocument(c, env, Received(input).path) == (c.(buffer := hs), Return(Some(content))) by {
      assert [] + hs == hs;
    }
    assert [] + ResponseBytes(OK, hs + Framing(env.date), Lines(content)) == ResponseBytes(OK, hs + Framing(env.date), Lines(content));
    assert [] + ResponseBytes(OK, hs + Framing(env.date), []) == ResponseBytes(OK, hs + Framing(env.date), []);
  }

  /** On the wire, a GET of a regular file is the status line, the two
    * file headers, the framing headers, a blank line and the file's bytes
    * unchanged; a HEAD stops before the file's bytes. */
  lemma {:induction false} ServedFileBytes(input: string, env: Env, content: string)
    requires CheckRequestLine(FirstRead(input)).Ok? && Block(input).0.Values?
    requires Target(input, env) in env.files && env.files[Target(input, env)] == File(content)
    ensures Serve(input, env).0
         == StatusLine(OK) + Concat(FileHeaders(Target(input, env), content) + Framing(env.date)) + "\r\n"
            + (if Received(input).verb == "GET" then content else [])
  {
    ServedFile(input, env, content);
    LinesConcat(content);
  }

  /** A path that names a directory gets Content-Type `text/html` buffered,
    * then opening it raises: nothing is written at all. */
  lemma {:induction false} DirectoryRequested(input: string, env: Env)
    requires CheckRequestLine(FirstRead(input)).Ok? && Block(input).0.Values?
    requires Target(input, env) in env.files && env.files[Target(input, env)] == Dir
    ensures Serve(input, env) == ([], Raise(IsADirectory))
  {
    ServeDispatches(input, env);
  }

  /** A full line at the head of the input is what one `readline` returns. */
  lemma {:induction false} FullLineRead(line: string, more: string)
    requires IsFullLine(line, ReadLimit)
    ensures LineAt(line + more, ReadLimit) == line
  {
    var s := line + more;
    assert s[..|line|] == line;
    assert forall i :: 0 <= i < |line| - 1 ==> s[i] == line[i];
    LineAtIs(s, ReadLimit, |line|);
  }

  /** `METHOD SP PATH SP VERSION CRLF` with whitespace-free tokens is a full
    * line. */
  lemma {:induction false} RequestLineIsFull(verb: string, path: string, proto: string)
    requires IsToken(verb) && IsToken(path) && IsToken(proto)
    requires |verb| + |path| + |proto| + 4 <= ReadLimit
    ensures IsFullLine(verb + " " + path + " " + proto + "\r\n", ReadLimit)
  {
    var line := verb + " " + path + " " + proto + "\r\n";
    forall i | 0 <= i < |line| - 1
      ensures line[i] != '\n'
    {
      if i < |verb| {
        assert line[i] == verb[i];
      } else if |verb| < i < |verb| + 1 + |path| {
        assert line[i] == path[i - |verb| - 1];
      } else if |verb| + 1 + |path| < i < |verb| + 2 + |path| + |proto| {
        assert line[i] == proto[i - |verb| - |path| - 2];
      }
    }
  }

  /** A request as a well-behaved peer sends it: a request line that passes
    * the checks, header lines that fit the limits, and an empty line. The
    * handler receives exactly that method, path and protocol, with the
    * header values in the order they were sent, and consumes nothing after
    * the empty line. */
  lemma {:induction false} WellFormedRequest(verb: string, path: string, proto: string, ls: seq<string>, rest: string)
    requires IsToken(verb) && IsToken(path) && IsToken(proto)
    requires verb in AllowedMethods && "/" <= path && "HTTP" <= proto
    requires |verb| + |path| + |proto| + 4 <= ReadLimit
    requires |ls| <= MaxHeaders
    requires forall k :: 0 <= k < |ls| ==> WellFormedHeaderLine(ls[k])
    ensures CheckRequestLine(FirstRead(verb + " " + path + " " + proto + "\r\n" + Concat(ls) + "\r\n" + rest))
         == Ok(Request(verb, path, proto, []))
    ensures Block(verb + " " + path + " " + proto + "\r\n" + Concat(ls) + "\r\n" + rest)
         == (Values(ValuesOf(ls)), |ls| + 1)
    ensures Skip(AfterFirstRead(verb + " " + path + " " + proto + "\r\n" + Concat(ls) + "\r\n" + rest), ReadLimit, |ls| + 1)
         == rest
  {
    var line := verb + " " + path + " " + proto + "\r\n";
    var block := Concat(ls) + "\r\n" + rest;
    assert line + Concat(ls) + "\r\n" + rest == line + block;
    WellFormedRequestLineRead(verb, path, proto, block);
    WellFormedBlockRead(ls, rest);
  }

  /** The request line part: one read returns the line, which passes the
    * checks, and the block follows. */
  lemma {:induction false} WellFormedRequestLineRead(verb: string, path: string, proto: string, block: string)
    requires IsToken(verb) && IsToken(path) && IsToken(proto)
    requires verb in AllowedMethods && "/" <= path && "HTTP" <= proto
    requires |verb| + |path| + |proto| + 4 <= ReadLimit
    ensures FirstRead(verb + " " + path + " " + proto + "\r\n" + block) == verb + " " + path + " " + proto + "\r\n"
    ensures AfterFirstRead(verb + " " + path + " " + proto + "\r\n" + block) == block
    ensures CheckRequestLine(verb + " " + path + " " + proto + "\r\n") == Ok(Request(verb, path, proto, []))
  {
    var line := verb + " " + path + " " + proto + "\r\n";
    RequestLineIsFull(verb, path, proto);
    FullLineRead(line, block);
    assert (line + block)[|line|..] == block;
    assert AllSpace("\r\n") by {
      assert IsSpace('\r') && IsSpace('\n');
    }
    WellFormedRequestLine(verb, path, proto, "\r\n");
  }

  /** The header part: the block is accepted with the lines' values and
    * exactly its lines and the empty line are consumed. */
  lemma {:induction false} WellFormedBlockRead(ls: seq<string>, rest: string)
    requires |ls| <= MaxHeaders
    requires forall k :: 0 <= k < |ls| ==> WellFormedHeaderLine(ls[k])
    ensures ReadHeaders(ReadLines(Concat(ls) + "\r\n" + rest, ReadLimit), []) == (Values(ValuesOf(ls)), |ls| + 1)
    ensures Skip(Concat(ls) + "\r\n" + rest, ReadLimit, |ls| + 1) == rest
  {
    HeaderBlockAccepted(ls, "\r\n", rest);
    ConcatSnoc(ls, "\r\n");
    BlockLinesAreFull(ls);
    SkipFullLines(ls + ["\r\n"], rest, ReadLimit);
  }

  /** Header lines that fit the limit, then the empty line: every one of
    * them is a full line for the reads. */
  lemma {:induction false} BlockLinesAreFull(ls: seq<string>)
    requires forall k :: 0 <= k < |ls| ==> WellFormedHeaderLine(ls[k])
    ensures forall k :: 0 <= k < |ls| + 1 ==> IsFullLine((ls + ["\r\n"])[k], ReadLimit)
  {
    var full := ls + ["\r\n"];
    forall k | 0 <= k < |full|
      ensures IsFullLine(full[k], ReadLimit)
    {
      if k < |ls| {
        assert full[k] == ls[k] && WellFormedHeaderLine(ls[k]);
      } else {
        assert full[k] == "\r\n";
      }
    }
  }

  /** The write side holds nothing while open, and one `ResponseBytes`
    * value once closed. */
  ghost predicate AtMostOneResponse(c: Conn) {
    if c.closed then exists status, headers, body :: c.output == ResponseBytes(status, headers, body)
    else c.output == []
  }

  /** Sending keeps the output empty while the stream is open and one
    * `ResponseBytes` value once it is closed: the first send writes one
    * response and closes the stream, a later one raises and writes nothing. */
  lemma {:induction false} SendKeepsOneResponse(c: Conn, env: Env, status: Status, body: seq<string>)
    requires AtMostOneResponse(c)
    ensures AtMostOneResponse(SendResponse(c, env, status, body).0)
  {
    var r := SendResponse(c, env, status, body).0;
    if c.closed {
      assert r == c;
    } else {
      var out := ResponseBytes(status, c.buffer + Framing(env.date), body);
      assert r.output == out by {
        assert [] + out == out;
      }
      assert r.closed;
    }
  }

  /** The responses a connection can write: an error response with only the
    * framing headers and no body, or the 200 response for a regular file,
    * its Content-Type and Content-Length ahead of the framing headers, with
    * the file's lines as the body (GET) or no body (HEAD). */
  ghost predicate IsAnswer(out: string, env: Env) {
    (exists status :: out == ErrorResponse(status, env))
    || (exists p, content :: p in env.files && env.files[p] == File(content)
          && (out == ResponseBytes(OK, FileHeaders(p, content) + Framing(env.date), Lines(content))
              || out == ResponseBytes(OK, FileHeaders(p, content) + Framing(env.date), [])))
  }

  /** Whatever the peer sends and whatever the filesystem holds, a
    * connection writes nothing at all (a directory) or exactly one of the
    * responses above: the first response closes the stream and any later
    * one raises instead of being written. */
  lemma {:induction false} ServeWritesAtMostOneResponse(input: string, env: Env)
    ensures Serve(input, env).0 == [] || IsAnswer(Serve(input, env).0, env)
  {
    var line := CheckRequestLine(FirstRead(input));
    if line.Err? {
      if Block(input).0.Values? {
        RefusedRequestLine(input, env);
      } else {
        RefusedTwice(input, env);
      }
      assert Serve(input, env).0 == ErrorResponse(line.error, env);
    } else if Block(input).0.Rejected? {
      RefusedHeaderBlock(input, env);
      assert Serve(input, env).0 == ErrorResponse(Block(input).0.status, env);
    } else {
      var p := Target(input, env);
      if p !in env.files {
        MissingDocument(input, env);
        assert Serve(input, env).0 == ErrorResponse(NotFound, env);
      } else {
        match env.files[p]
        case File(content) =>
          ServedFile(input, env, content);
          var hs := FileHeaders(p, content) + Framing(env.date);
          if Received(input).verb == "GET" {
            assert Serve(input, env).0 == ResponseBytes(OK, hs, Lines(content));
          } else {
            assert Serve(input, env).0 == ResponseBytes(OK, hs, []);
          }
        case Dir =>
          DirectoryRequested(input, env);
      }
    }
  }
}
