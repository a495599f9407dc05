# A model of the request handler of `httpd.py`

`httpd.py` is a small HTTP/1.1 file server. The model covers each connection's handler (`BaseHTTPHandler` and `MainHTTPHandler`):
- It reads one request line and one header block from the socket.
- It answers a refused line or block with an error response.
- It serves GET and HEAD from a document root.
- It writes at most one response. A request for a directory gets none; in every other case exactly one response is written and the stream is then closed.

The model has three layers:

- **Value level** (modules `Text`, `Wire`, `Requests`, `Responses`, `Documents`).
  - Python's `strip()`, `split()`, `split(sep)`, `''.join` and `str(n)` are written over ISO-8859-1 text, one `char` per byte.
  - `readline(limit)` is the function `LineAt`; successive reads are `ReadLines`.
  - What `parse_requestline` and `parse_headers` decide about the lines they read is the pair `CheckRequestLine` and `ReadHeaders`.
  - The bytes of a response are `ResponseBytes`.
  - Path resolution is `DocumentPath`, built on `os.path.join` (`JoinPath`); the content type is `ContentType`.
- **Connection level** (module `Connection`). Each step of the handler is a function from the connection's state to the new state and an outcome. The state is:
  - the bytes not yet read;
  - the bytes written;
  - whether the write side is closed;
  - the header buffer.

  An outcome is a returned value or a raised exception. The steps are request line, header block, document lookup, GET, HEAD and dispatch. `Serve` is a whole connection.
- **Object level** (module `Handler`). The class `Handler` has the handler's fields:
  - `rfile`, a `Reader` cursor over the input;
  - `wfile`, a `Writer` holding the written bytes and a closed flag;
  - `headersBuffer`.

  Its methods follow the source's methods step by step. One departure is `ParseHeaders`. The source sends the error and returns from inside its loop. The model's loop records the refusal status and leaves the loop, and the error is sent once, right after it. Nothing is read or written in between, so the connection ends the same way. The loops of `parse_headers`, `_send_headers` and `send_response` are `while`/`for` loops. Each method that models a step of the connection is proved to leave the object in the state the matching `Connection` function gives. The helpers `AppendHeader`, `StartHeaders`, `WriteAll` and `SendHeaders` state their new state directly.

The lemmas of module `Behaviour` state what a whole connection writes and how it ends, for each way a request can go.

The model follows the code in these places, where the server's stated intent differs:
- **Request-line length.** The 414 check applies to the line after `strip()`. An overlong line that begins or ends with whitespace loses that whitespace first and can escape the 414.
- **Header-line length.** The 414 check applies to the raw line, line ending included. A header line of 65535 bytes plus CRLF is refused.
- **Refused request line.** The header block is still read after the request line is refused.
- **Second error.** When the header block is refused too, the second error response is written to a closed stream. The connection then ends with an exception after the first response. A 70000-byte request line is the usual case.
- **Refused block after a good line.** When the request line is good and the block is refused, attaching the missing header list raises after the error response.

Finally, resolution keeps `..` segments, so a request can name a file outside the root (`ParentSegmentsAreKept`).

## Model

| member | source | states |
|---|---|---|
| Text.StripIsBlankTrimmedSlice | httpd.py:119 | `strip()` removes only whitespace and only at the two ends. Its result is a slice of the input that neither starts nor ends with whitespace. |
| Text.StripKeepsTrimmed | httpd.py:119 | A line that starts and ends with non-whitespace is left unchanged by `strip()`. |
| Text.WordsAreTokens | httpd.py:123 | Every piece of `split()` is non-empty and free of whitespace. |
| Text.WordsOfThree | httpd.py:123-127 | Three tokens joined by single spaces split back into exactly those three tokens, in order. |
| Text.JoinSplitOn | httpd.py:216-220 | `split('/')` loses nothing: joining the pieces with the separator gives the input back. |
| Text.SplitOnPieces | httpd.py:216-220 | No piece of `split(sep)` holds `sep`. If the text neither starts with `sep` nor has two in a row, every piece but the last is non-empty. |
| Text.LastPieceOfSuffix | httpd.py:225 | `split('.')[-1]` of `base + '.' + ext` is `ext` whenever `ext` has no dot, whatever `base` holds. |
| Text.Decimal | httpd.py:232 | `str(n)` is a non-empty string of decimal digits without a leading zero. |
| Text.DecimalRoundTrip | httpd.py:232 | The Content-Length text reads back as the number it was made from. |
| Wire.LineAtShape | httpd.py:118 | `readline(limit)` returns a prefix of the unread input without an inner newline. It stops at the limit, at the end of input, or right after a newline. |
| Wire.LineAtIs | httpd.py:142 | Those three properties determine the line read: any prefix that has them is the line. |
| Wire.ReadLinesConcat | httpd.py:141-142 | Successive reads consume the input exactly: their concatenation is the input. |
| Wire.SkipFullLines | httpd.py:141-147 | Reading past k full lines leaves exactly what follows them. |
| Wire.LinesConcat | httpd.py:205 | The chunks of iterating a file in binary mode concatenate to the file's bytes. |
| Wire.Reader.ReadLine | httpd.py:118 | The method returns `readline(limit)` of the unread input and advances the cursor by exactly its length. |
| Wire.Writer.Write | httpd.py:162 | On an open stream the bytes are appended. On a closed one the write fails and nothing changes. |
| Http.Status.Code | httpd.py:161 | Every status code is in 200..599, and only OK is below 400. |
| Requests.CheckRequestLine | httpd.py:117-137 | 414 if and only if the stripped line exceeds `MaxLine`. 405 if and only if it has three words and the first is not GET or HEAD. Success if and only if all checks pass, and then the request holds the three words and no headers. Any other error is 400. |
| Requests.ParsedMethodIsAllowed | httpd.py:128-130 | Every accepted request line names GET or HEAD. |
| Requests.WellFormedRequestLine | httpd.py:117-137 | `METHOD SP PATH SP VERSION` followed by whitespace parses back into exactly those three fields. |
| Requests.OverlongRequestLine | httpd.py:118-122 | A full-length read that begins and ends with non-whitespace is refused with 414. |
| Requests.LeadingSpaceEscapesLengthCheck | httpd.py:119-120 | The same read starting with a space is not refused with 414, because the bound is applied after `strip()`. |
| Requests.HeaderValue | httpd.py:148-153 | A header line has no value exactly when it has no colon. |
| Requests.HeaderLineVerdict | httpd.py:143-157 | A line ends the block exactly when it is within the limit and is CRLF, LF or empty. A value is kept only while fewer than `MaxHeaders` are held, and it is the line's value. A refusal is 414, 400 or 431. |
| Requests.ReadHeaders | httpd.py:139-158 | The block consumes no more lines than there are. Accepted values extend those already kept and number at most `MaxHeaders`. A refusal consumes at least the line that caused it and is 414, 400 or 431. |
| Requests.ReadHeadersAt | httpd.py:141-157 | One step of the loop: the next line read either settles the block with the verdict the source gives, or keeps one more value and leaves the rest to the following lines. |
| Requests.ReadHeadersKeeps | httpd.py:148-155 | Well-formed lines are consumed one by one and their values kept in input order, while there is room for them. |
| Requests.HeaderBlockAccepted | httpd.py:139-158 | At most `MaxHeaders` well-formed lines closed by CRLF or LF are accepted whatever follows. The result is their values in order, and the terminator is the last line consumed. |
| Requests.HeaderBlockAtEnd | httpd.py:146-147 | A block of well-formed lines that runs to the end of the input is accepted: the empty read closes it. |
| Requests.TerminatorEndsBlock | httpd.py:146-147 | A bare CRLF or LF ends the block with the values kept so far. |
| Requests.TooManyHeaders | httpd.py:154-157 | The header line after `MaxHeaders` well-formed ones is refused with 431 as soon as it is read. Nothing after it is consumed. |
| Requests.OneHeaderTooMany | httpd.py:154-157 | A well-formed line read when `MaxHeaders` values are held is refused with 431. |
| Requests.OverlongHeaderLine | httpd.py:142-145 | A header line longer than `MaxLine` is refused with 414 after reading `MaxLine + 1` bytes of it. |
| Requests.HeaderLineWithoutColon | httpd.py:149-152 | A line without a colon that does not end the block is refused with 400. |
| Responses.HeaderLineRoundTrip | httpd.py:174-176 | A `key: value` line written by `_append_header` is parsed back into that value. This holds when the key has no colon and the value has no whitespace at either end. |
| Responses.HeaderValuesRoundTrip | httpd.py:174-176 | Headers written as lines are all well-formed, and they parse back into their values in the order written. |
| Documents.ContentTypeIsKnown | httpd.py:225-226 | Every file is served with a type from the table or with `application/octet-stream`. |
| Documents.ContentTypeByExtension | httpd.py:15-24 | `base.ext` gets the table's type for `ext`, or the default when the table has none. |
| Documents.DotInDirectoryName | httpd.py:225-226 | A dot in a directory name followed by a dot-less file name yields the default type, because the extension is taken from the whole path. |
| Documents.DocumentPathUnderRoot | httpd.py:212-220 | An absolute path without doubled slashes resolves to the root's directory prefix followed by the path, plus `index.html` when the path ends with a slash. |
| Documents.ResolveSlash | httpd.py:213-214 | `/` resolves to `index.html` at the root. |
| Documents.ResolveDirectoryPath | httpd.py:215-217 | An absolute path other than `/` that ends with a slash and has no doubled slashes resolves to the root's directory prefix, the path, then `index.html`. |
| Documents.ResolveFilePath | httpd.py:218-220 | An absolute path that does not end with a slash and has no doubled slashes resolves to the root's directory prefix followed by the path. |
| Documents.JoinAppend | httpd.py:217 | `os.path.join` in two goes is `os.path.join` once. |
| Documents.ParentSegmentsAreKept | httpd.py:212-220 | `/../rest` resolves to a path that climbs out of the root: no traversal guard. |
| Connection.SendResponse | httpd.py:160-168 | Sending raises exactly when the stream is already closed, and then nothing changes. Sending never reads, and always leaves the stream closed. |
| Handler.Handler.constructor | httpd.py:97-101 | The handler starts on fresh read and write sides in the state of a fresh connection. |
| Handler.Handler.AppendHeader | httpd.py:174-176 | The encoded header line is appended to the buffer and nothing else changes. |
| Handler.Handler.StartHeaders | httpd.py:178-181 | Date, Server and Connection are appended, in this order, after the buffered headers. |
| Handler.Handler.WriteAll | httpd.py:188-189 | Writing the chunks in turn appends their concatenation. |
| Handler.Handler.SendHeaders | httpd.py:186-190 | The framing headers are buffered, then the whole buffer and a blank line are written. |
| Handler.Handler.SendResponse | httpd.py:160-168 | The method writes the status line, the headers, the blank line and the body one after the other, then closes the stream. Together these append exactly the response's bytes, as `Connection.SendResponse` says. On a stream that is already closed, the first write raises and nothing changes. |
| Handler.Handler.SendError | httpd.py:170-172 | The method sends a response with the buffered headers and an empty body. |
| Handler.Handler.ParseRequestLine | httpd.py:117-137 | One read, then the connection and the outcome `RequestLineStep` gives. |
| Handler.Handler.ParseHeaders | httpd.py:139-158 | The read loop consumes exactly the lines `ReadHeaders` looks at. It returns the values or answers the refusal, as `HeadersStep` says. |
| Handler.Handler.OpenDocument | httpd.py:211-233 | A missing path is answered with 404. A file gets Content-Type and Content-Length buffered and is opened. A directory gets `text/html` buffered and raises. |
| Handler.Handler.ProcessGet | httpd.py:202-209 | An opened document is sent with status 200, its lines as the body. |
| Handler.Handler.ProcessHead | httpd.py:194-200 | An opened document is answered with status 200 and no body. |
| Handler.Handler.ProcessRequest | httpd.py:104-115 | Request line, then headers, then dispatch by method, as `Connection.ProcessRequest` says. |
| Handler.Handle | httpd.py:97-102 | Building the handler on a connection writes exactly `Serve(input, env)` and ends the same way. |
| Behaviour.FirstErrorSent | httpd.py:170-172 | An error on a fresh connection writes only the framing headers and closes the stream. |
| Behaviour.RefusedRequestLine | httpd.py:104-108 | A refused request line is answered with one error response carrying its status. The connection then ends normally when the header block after it is accepted. |
| Behaviour.RefusedTwice | httpd.py:104-106 | When the block after a refused request line is refused too, only the first response is written. The connection ends by writing to the closed stream. |
| Behaviour.RefusedHeaderBlock | httpd.py:104-108 | A good request line followed by a refused block writes the block's error response. Attaching the missing values then raises. |
| Behaviour.RequestReceived | httpd.py:104-108 | The request handed on is the parsed line with the block's values attached, on a connection where nothing is written or buffered. |
| Behaviour.DispatchFindsHandler | httpd.py:109-111 | Every request that reaches the method lookup is GET or HEAD, so 501 is never sent. |
| Behaviour.ServeDispatches | httpd.py:104-114 | A received request is handled by GET or HEAD on a fresh connection. |
| Behaviour.MissingDocument | httpd.py:221-223 | A missing path is answered with 404 and no Content-Type or Content-Length header. |
| Behaviour.ServedFile | httpd.py:194-209 | A file is served with status 200, then Content-Type and Content-Length ahead of the framing headers. GET sends the file's lines; HEAD sends no body. |
| Behaviour.ServedFileBytes | httpd.py:202-209 | On the wire, GET sends the file's bytes unchanged after the blank line, and HEAD sends nothing after it. |
| Behaviour.DirectoryRequested | httpd.py:228-230 | A directory writes nothing and ends with a raise. |
| Behaviour.WellFormedRequest | httpd.py:117-158 | A request a well-behaved peer sends is received with exactly its method, path and protocol and its header values in order. Nothing after the empty line is consumed. |
| Behaviour.SendKeepsOneResponse | httpd.py:160-168 | Sending keeps the output empty while the stream is open, and one `ResponseBytes` value once it is closed. |
| Behaviour.ServeWritesAtMostOneResponse | httpd.py:104-115 | A connection's whole output is one of three things. It may be nothing (a directory). It may be one error response with only the framing headers and no body. Or it may be one 200 response for a regular file in the filesystem, with its Content-Type and Content-Length ahead of the framing headers and its lines (GET) or no body (HEAD). |

## Left out

- `TCPServer`, `HTTPServer`, the worker threads, `parse_arguments`, `main` and logging are not modelled. The model starts at one accepted connection.
- `HTTPServer.py` is an unfinished draft of the same server and is not part of this model.
- The socket is the finite string the peer sends. A read that would block is not modelled: the end of the string is the end of input.
- Closing `rfile`, the socket and the document, and flushing `wfile`, have no effect on the bytes exchanged. Only the closing of the write side is kept.
- `urlparse(unquote(path)).path` is a function parameter of the environment (`Env.urlPath`). Percent-decoding and URL parsing are not modelled.
- `datetime.utcnow()` is one fixed `Date` value per connection (`Env.date`).
- The filesystem is a map from paths to regular files and directories. `os.path.exists`, `isfile` and `isdir` are lookups in it. Other kinds of entry are not modelled.
- The `fstat` size is the length of the file's content.
- `Response.headers` is never read by the source, and the model has no such field.
- A `process_<method>` attribute other than GET and HEAD is not modelled (the lookup by `hasattr`). A method outside GET and HEAD is refused with 405 before dispatch, which is proved.
- Exceptions end the connection with the outcome `Raise`. What the worker thread does afterwards is not modelled.
- Handler.Handler.SendHeaders: requires an open write side. Its only caller, `SendResponse`, reaches it only after the status line was written.
- Http.Status.Phrase: the reason phrases are those of `http.HTTPStatus` in Python 3.8 to 3.12. From Python 3.13 on, 414 is sent as "URI Too Long" rather than "Request-URI Too Long", and the model does not follow that version.
