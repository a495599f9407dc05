/**
 * The decisions `parse_requestline` and `parse_headers` make about the lines
 * they read, as functions of those lines. The handler's methods read the
 * lines off the connection and are proved to follow these functions.
 */
module Requests {
  import opened Text
  import opened Http
  import opened Wire

  /** What `parse_requestline` decides about the line it read: the checks run
    * in a fixed order and the first one that fails picks the status. */
  function CheckRequestLine(raw: string): (r: Result<Request, Status>)
    ensures r == Err(RequestUriTooLong) <==> |Strip(raw)| > MaxLine
    ensures r == Err(MethodNotAllowed) <==>
              |Strip(raw)| <= MaxLine && |Words(Strip(raw))| == 3 && Words(Strip(raw))[0] !in AllowedMethods
    ensures r.Ok? <==>
              |Strip(raw)| <= MaxLine && |Words(Strip(raw))| == 3 && Words(Strip(raw))[0] in AllowedMethods
              && "HTTP" <= Words(Strip(raw))[2] && "/" <= Words(Strip(raw))[1]
    ensures r.Ok? ==> Words(Strip(raw)) == [r.value.verb, r.value.path, r.value.proto] && r.value.headers == []
    ensures r.Err? ==> r.error in {RequestUriTooLong, MethodNotAllowed, BadRequest}
  {
    var line := Strip(raw);
    if |line| > MaxLine then Err(RequestUriTooLong)
    else
      var tokens := Words(line);
      if |tokens| != 3 then Err(BadRequest)
      else if tokens[0] !in AllowedMethods then Err(MethodNotAllowed)
      else if !("HTTP" <= tokens[2]) then Err(BadRequest)
      else if !("/" <= tokens[1]) then Err(BadRequest)
      else Ok(Request(tokens[0], tokens[1], tokens[2], []))
  }

  /** Every request that passes the checks names GET or HEAD, so the handler
    * lookup by method always succeeds. */
  lemma {:induction false} ParsedMethodIsAllowed(raw: string)
    requires CheckRequestLine(raw).Ok?
    ensures CheckRequestLine(raw).value.verb == "GET" || CheckRequestLine(raw).value.verb == "HEAD"
  {
    var r := CheckRequestLine(raw);
    assert r.value.verb in AllowedMethods;
  }

  /** A request line written as `METHOD SP PATH SP VERSION` followed by any
    * whitespace (normally CRLF) is parsed back into exactly those three
    * fields, when they pass the checks and the line is not too long. */
  lemma {:induction false} WellFormedRequestLine(verb: string, path: string, proto: string, eol: string)
    requires IsToken(verb) && IsToken(path) && IsToken(proto)
    requires verb in AllowedMethods && "/" <= path && "HTTP" <= proto
    requires AllSpace(eol)
    requires |verb| + |path| + |proto| + 2 <= MaxLine
    ensures CheckRequestLine(verb + " " + path + " " + proto + eol) == Ok(Request(verb, path, proto, []))
  {
    var line := verb + " " + path + " " + proto;
    StripTrailingSpace(line, eol);
    WordsOfThree(verb, path, proto);
  }

  /** Cutting off trailing whitespace and stripping gives the same result as
    * stripping a line that starts and ends with non-whitespace. */
  lemma {:induction false} StripTrailingSpace(line: string, eol: string)
    requires line != [] && !IsSpace(line[0]) && !IsSpace(line[|line| - 1])
    requires AllSpace(eol)
    ensures Strip(line + eol) == line
    decreases |eol|
  {
    var s := line + eol;
    assert s[0] == line[0];
    assert TrimLeft(s) == s;
    TrimRightBlank(line, eol);
  }

  lemma {:induction false} TrimRightBlank(line: string, eol: string)
    requires line != [] && !IsSpace(line[|line| - 1])
    requires AllSpace(eol)
    ensures TrimRight(line + eol) == line
    decreases |eol|
  {
    if eol == [] {
      assert line + eol == line;
    } else {
      var s := line + eol;
      assert s[|s| - 1] == eol[|eol| - 1];
      assert s[..|s| - 1] == line + eol[..|eol| - 1];
      TrimRightBlank(line, eol[..|eol| - 1]);
    }
  }

  /** A request line whose first `MaxLine + 1` bytes begin and end with
    * non-whitespace is rejected with 414. */
  lemma {:induction false} OverlongRequestLine(raw: string)
    requires |raw| == MaxLine + 1
    requires !IsSpace(raw[0]) && !IsSpace(raw[|raw| - 1])
    ensures CheckRequestLine(raw) == Err(RequestUriTooLong)
  {
    StripKeepsTrimmed(raw);
  }

  /** The length bound is applied after `strip()`: the same overlong line
    * read with one leading space loses that space and is not rejected as
    * too long. */
  lemma {:induction false} LeadingSpaceEscapesLengthCheck(raw: string)
    requires |raw| == MaxLine + 1 && raw[0] == ' '
    requires !IsSpace(raw[1]) && !IsSpace(raw[|raw| - 1])
    ensures CheckRequestLine(raw) != Err(RequestUriTooLong)
  {
    var rest := raw[1..];
    StripKeepsTrimmed(rest);
    assert TrimLeft(raw) == TrimLeft(rest);
  }

  /** A line ending the header block: bare CRLF, bare LF, or nothing at all
    * (end of input). */
  predicate IsTerminator(raw: string) {
    raw == "\r\n" || raw == "\n" || raw == ""
  }

  /** What `parse_headers` keeps of one header line: the stripped text after
    * the first colon; a line without a colon has no value. */
  function HeaderValue(raw: string): (v: Option<string>)
    ensures v.None? <==> ':' !in raw
  {
    if ':' !in raw then None else Some(Strip(raw[IndexOf(raw, ':') + 1..]))
  }

  /** The outcome of reading a header block: the values in input order, or
    * the status it was rejected with. */
  datatype HeaderBlock = Values(values: seq<string>) | Rejected(status: Status)

  /** What `parse_headers` does with one line it read, having kept `count`
    * values so far: stop, reject with a status, or keep a value. */
  datatype LineVerdict = End | Reject(status: Status) | Keep(value: string)

  function HeaderLineVerdict(raw: string, count: nat): (d: LineVerdict)
    ensures d.End? <==> |raw| <= MaxLine && IsTerminator(raw)
    ensures d.Keep? ==> count < MaxHeaders && HeaderValue(raw) == Some(d.value)
    ensures d.Reject? ==> d.status in {RequestUriTooLong, BadRequest, RequestHeaderFieldsTooLarge}
  {
    if |raw| > MaxLine then Reject(RequestUriTooLong)
    else if IsTerminator(raw) then End
    else
      var v := HeaderValue(raw);
      if v.None? then Reject(BadRequest)
      else if count + 1 > MaxHeaders then Reject(RequestHeaderFieldsTooLarge)
      else Keep(v.value)
  }

  /** The limit `parse_headers` and `parse_requestline` pass to `readline`. */
  const ReadLimit: nat := MaxLine + 1

  /** What `parse_headers` makes of the lines it reads, having already kept
    * the values `acc`: the block's outcome and how many lines it consumed.
    * Once the input is used up `readline` returns the empty string, which
    * ends the block. */
  function ReadHeaders(lines: seq<string>, acc: seq<string>): (r: (HeaderBlock, nat))
    requires |acc| <= MaxHeaders
    ensures r.1 <= |lines|
    ensures r.0.Values? ==> |r.0.values| <= MaxHeaders && acc <= r.0.values
    ensures r.0.Rejected? ==> r.1 > 0 && r.0.status in {RequestUriTooLong, BadRequest, RequestHeaderFieldsTooLarge}
    decreases |lines|
  {
    if lines == [] then (Values(acc), 0)
    else
      var d := HeaderLineVerdict(lines[0], |acc|);
      if d.Keep? then
        var r := ReadHeaders(lines[1..], acc + [d.value]);
        (r.0, r.1 + 1)
      else if d.Reject? then (Rejected(d.status), 1)
      else (Values(acc), 1)
  }

  /** The block read from lines starting with `lines[0]`, by the verdict
    * on that line. */
  lemma {:induction false} ReadHeadersFirst(lines: seq<string>, acc: seq<string>)
    requires |acc| <= MaxHeaders && lines != []
    ensures HeaderLineVerdict(lines[0], |acc|).End? ==> ReadHeaders(lines, acc) == (Values(acc), 1)
    ensures HeaderLineVerdict(lines[0], |acc|).Reject? ==>
              ReadHeaders(lines, acc) == (Rejected(HeaderLineVerdict(lines[0], |acc|).status), 1)
    ensures HeaderLineVerdict(lines[0], |acc|).Keep? ==>
              ReadHeaders(lines, acc).0 == ReadHeaders(lines[1..], acc + [HeaderLineVerdict(lines[0], |acc|).value]).0
              && ReadHeaders(lines, acc).1 == ReadHeaders(lines[1..], acc + [HeaderLineVerdict(lines[0], |acc|).value]).1 + 1
  {
  }

  /** Reading the block one line at a time: with `acc` kept after `i`
    * lines, the next line `raw` (empty once the lines run out) settles the
    * block or leaves the rest of it to the following lines. */
  lemma {:induction false} ReadHeadersAt(lines: seq<string>, i: nat, acc: seq<string>, raw: string, total: (HeaderBlock, nat))
    requires i <= |lines| && |acc| <= MaxHeaders
    requires ReadHeaders(lines[i..], acc) == (total.0, total.1 - i)
    requires i < |lines| ==> lines[i] == raw
    requires i == |lines| ==> raw == []
    ensures |raw| > MaxLine ==> total == (Rejected(RequestUriTooLong), i + 1)
    ensures |raw| <= MaxLine && IsTerminator(raw) ==> total == (Values(acc), if i < |lines| then i + 1 else i)
    ensures |raw| <= MaxLine && !IsTerminator(raw) && ':' !in raw ==> total == (Rejected(BadRequest), i + 1)
    ensures |raw| <= MaxLine && !IsTerminator(raw) && ':' in raw && |acc| == MaxHeaders ==>
              total == (Rejected(RequestHeaderFieldsTooLarge), i + 1)
    ensures |raw| <= MaxLine && !IsTerminator(raw) && ':' in raw && |acc| < MaxHeaders ==>
              i < |lines| && ReadHeaders(lines[i + 1..], acc + [HeaderValue(raw).value]) == (total.0, total.1 - (i + 1))
  {
    if i < |lines| {
      var here := lines[i..];
      assert here[0] == raw && here[1..] == lines[i + 1..];
      ReadHeadersFirst(here, acc);
    }
  }

  /** A header line as a well-behaved peer sends it: short enough, with a
    * colon, ending in its only newline. */
  predicate WellFormedHeaderLine(line: string) {
    IsFullLine(line, MaxLine) && ':' in line
  }

  /** The values of header lines, in order. */
  function ValuesOf(lines: seq<string>): (vs: seq<string>)
    requires forall k :: 0 <= k < |lines| ==> WellFormedHeaderLine(lines[k])
    ensures |vs| == |lines|
  {
    if lines == [] then []
    else
      assert WellFormedHeaderLine(lines[0]);
      [HeaderValue(lines[0]).value] + ValuesOf(lines[1..])
  }

  /** A well-formed header line is kept, with its value, while there is room
    * for one more value. */
  lemma {:induction false} WellFormedLineKept(line: string, count: nat)
    requires WellFormedHeaderLine(line) && count < MaxHeaders
    ensures HeaderLineVerdict(line, count) == Keep(HeaderValue(line).value)
  {
    assert !IsTerminator(line) by {
      assert ':' !in "\r\n" && ':' !in "\n";
    }
  }

  /** One kept line: the block goes on with the next line and one more
    * value. */
  lemma {:induction false} ReadHeadersKeepOne(lines: seq<string>, acc: seq<string>, v: string)
    requires |acc| < MaxHeaders && lines != []
    requires HeaderLineVerdict(lines[0], |acc|) == Keep(v)
    ensures ReadHeaders(lines, acc).0 == ReadHeaders(lines[1..], acc + [v]).0
    ensures ReadHeaders(lines, acc).1 == ReadHeaders(lines[1..], acc + [v]).1 + 1
  {
  }

  /** Well-formed header lines are consumed one by one, their values kept in
    * input order, as long as there is room for them; reading then goes on
    * with whatever follows. */
  lemma {:induction false} ReadHeadersKeeps(ls: seq<string>, more: seq<string>, acc: seq<string>)
    requires |acc| + |ls| <= MaxHeaders
    requires forall k :: 0 <= k < |ls| ==> WellFormedHeaderLine(ls[k])
    ensures ReadHeaders(ls + more, acc).0 == ReadHeaders(more, acc + ValuesOf(ls)).0
    ensures ReadHeaders(ls + more, acc).1 == |ls| + ReadHeaders(more, acc + ValuesOf(ls)).1
    decreases |ls|
  {
    if ls == [] {
      assert ls + more == more && acc + ValuesOf(ls) == acc;
    } else {
      ReadHeadersKeepsStep(ls, more, acc);
    }
  }

  lemma {:induction false} ReadHeadersKeepsStep(ls: seq<string>, more: seq<string>, acc: seq<string>)
    requires ls != [] && |acc| + |ls| <= MaxHeaders
    requires forall k :: 0 <= k < |ls| ==> WellFormedHeaderLine(ls[k])
    ensures ReadHeaders(ls + more, acc).0 == ReadHeaders(more, acc + ValuesOf(ls)).0
    ensures ReadHeaders(ls + more, acc).1 == |ls| + ReadHeaders(more, acc + ValuesOf(ls)).1
    decreases |ls|, 0
  {
    var line, tail := ls[0], ls[1..];
    assert WellFormedHeaderLine(line);
    var v := HeaderValue(line).value;
    var lines := ls + more;
    assert lines[0] == line && lines[1..] == tail + more;
    var acc' := acc + [v];
    assert acc + ValuesOf(ls) == acc' + ValuesOf(tail) by {
      assert ValuesOf(ls) == [v] + ValuesOf(tail);
    }
    assert forall k :: 0 <= k < |tail| ==> WellFormedHeaderLine(tail[k]) by {
      assert forall k :: 0 <= k < |tail| ==> tail[k] == ls[k + 1];
    }
    WellFormedLineKept(line, |acc|);
    ReadHeadersKeepOne(lines, acc, v);
    ReadHeadersKeeps(tail, more, acc');
  }

  /** Well-formed lines fit the `readline` limit, so they are read one by
    * one. */
  lemma {:induction false} HeaderLinesRead(ls: seq<string>, rest: string)
    requires forall k :: 0 <= k < |ls| ==> WellFormedHeaderLine(ls[k])
    ensures ReadLines(Concat(ls) + rest, ReadLimit) == ls + ReadLines(rest, ReadLimit)
  {
    assert forall k :: 0 <= k < |ls| ==> IsFullLine(ls[k], ReadLimit);
    ReadLinesOfFullLines(ls, rest, ReadLimit);
  }

  /** A block of at most `MaxHeaders` well-formed lines closed by CRLF or LF
    * is accepted whatever follows it: the result is the lines' values in
    * input order, and the terminator is the last line consumed. */
  lemma {:induction false} HeaderBlockAccepted(ls: seq<string>, term: string, rest: string)
    requires |ls| <= MaxHeaders
    requires forall k :: 0 <= k < |ls| ==> WellFormedHeaderLine(ls[k])
    requires term == "\r\n" || term == "\n"
    ensures ReadHeaders(ReadLines(Concat(ls) + term + rest, ReadLimit), [])
         == (Values(ValuesOf(ls)), |ls| + 1)
  {
    assert ReadLines(Concat(ls) + term + rest, ReadLimit) == ls + [term] + ReadLines(rest, ReadLimit) by {
      BlockLinesRead(ls, term, rest);
    }
    BlockOfLines(ls, term, ReadLines(rest, ReadLimit));
  }

  /** The lines of a header block followed by its terminator are read back
    * one by one. */
  lemma {:induction false} BlockLinesRead(ls: seq<string>, term: string, rest: string)
    requires forall k :: 0 <= k < |ls| ==> WellFormedHeaderLine(ls[k])
    requires term == "\r\n" || term == "\n"
    ensures ReadLines(Concat(ls) + term + rest, ReadLimit) == ls + [term] + ReadLines(rest, ReadLimit)
  {
    var more := ReadLines(term + rest, ReadLimit);
    assert ReadLines(Concat(ls) + term + rest, ReadLimit) == ls + more by {
      assert Concat(ls) + term + rest == Concat(ls) + (term + rest);
      HeaderLinesRead(ls, term + rest);
    }
    assert more == [term] + ReadLines(rest, ReadLimit) by {
      assert IsFullLine(term, ReadLimit);
      ReadLinesFullLine(term, rest, ReadLimit);
    }
    assert ls + ([term] + ReadLines(rest, ReadLimit)) == ls + [term] + ReadLines(rest, ReadLimit);
  }

  /** Over lines: well-formed header lines, then a terminator, whatever
    * follows. */
  lemma {:induction false} BlockOfLines(ls: seq<string>, term: string, tail: seq<string>)
    requires |ls| <= MaxHeaders
    requires forall k :: 0 <= k < |ls| ==> WellFormedHeaderLine(ls[k])
    requires term == "\r\n" || term == "\n"
    ensures ReadHeaders(ls + [term] + tail, []) == (Values(ValuesOf(ls)), |ls| + 1)
  {
    var more := [term] + tail;
    assert ls + [term] + tail == ls + more;
    ReadHeadersKeeps(ls, more, []);
    assert [] + ValuesOf(ls) == ValuesOf(ls);
    TerminatorEndsBlock(more, ValuesOf(ls));
  }

  /** A bare CRLF or LF ends the block with the values kept so far. */
  lemma {:induction false} TerminatorEndsBlock(lines: seq<string>, acc: seq<string>)
    requires |acc| <= MaxHeaders && lines != []
    requires lines[0] == "\r\n" || lines[0] == "\n"
    ensures ReadHeaders(lines, acc) == (Values(acc), 1)
  {
    assert HeaderLineVerdict(lines[0], |acc|) == End;
  }

  /** A block of well-formed lines that runs to the end of the input is
    * accepted too: the empty read at the end closes it. */
  lemma {:induction false} HeaderBlockAtEnd(ls: seq<string>)
    requires |ls| <= MaxHeaders
    requires forall k :: 0 <= k < |ls| ==> WellFormedHeaderLine(ls[k])
    ensures ReadHeaders(ReadLines(Concat(ls), ReadLimit), []) == (Values(ValuesOf(ls)), |ls|)
  {
    assert Concat(ls) + [] == Concat(ls);
    HeaderLinesRead(ls, []);
    assert ls + [] == ls;
    ReadHeadersKeeps(ls, [], []);
    assert [] + ValuesOf(ls) == ValuesOf(ls);
  }

  /** The header line after `MaxHeaders` well-formed ones is refused with 431
    * as soon as it is read: nothing after it is consumed. */
  lemma {:induction false} TooManyHeaders(ls: seq<string>, rest: string)
    requires |ls| == MaxHeaders + 1
    requires forall k :: 0 <= k < |ls| ==> WellFormedHeaderLine(ls[k])
    ensures ReadHeaders(ReadLines(Concat(ls) + rest, ReadLimit), []) == (Rejected(RequestHeaderFieldsTooLarge), MaxHeaders + 1)
  {
    var first, last := ls[..MaxHeaders], ls[MaxHeaders];
    var tail := ReadLines(rest, ReadLimit);
    var more := [last] + tail;
    assert ls + tail == first + more;
    assert forall k :: 0 <= k < |first| ==> first[k] == ls[k];
    HeaderLinesRead(ls, rest);
    ReadHeadersKeeps(first, more, []);
    assert |[] + ValuesOf(first)| == MaxHeaders;
    assert WellFormedHeaderLine(last);
    OneHeaderTooMany(more, [] + ValuesOf(first));
  }

  /** A well-formed line read when `MaxHeaders` values are already kept
    * is refused with 431. */
  lemma {:induction false} OneHeaderTooMany(lines: seq<string>, acc: seq<string>)
    requires |acc| == MaxHeaders && lines != [] && WellFormedHeaderLine(lines[0])
    ensures ReadHeaders(lines, acc) == (Rejected(RequestHeaderFieldsTooLarge), 1)
  {
    var line := lines[0];
    assert !IsTerminator(line) by {
      assert ':' !in "\r\n" && ':' !in "\n";
    }
    assert HeaderLineVerdict(line, |acc|) == Reject(RequestHeaderFieldsTooLarge);
  }

  /** A header line longer than `MaxLine` bytes is refused with 414 once it
    * is reached, and only the first `MaxLine + 1` of its bytes are consumed. */
  lemma {:induction false} OverlongHeaderLine(s: string)
    requires |s| > MaxLine
    requires forall i :: 0 <= i < MaxLine ==> s[i] != '\n'
    ensures ReadLines(s, ReadLimit) != [] && |ReadLines(s, ReadLimit)[0]| == MaxLine + 1
    ensures ReadHeaders(ReadLines(s, ReadLimit), []) == (Rejected(RequestUriTooLong), 1)
  {
    LineAtIs(s, ReadLimit, ReadLimit);
    ReadLinesStep(s, ReadLimit, ReadLimit);
  }

  /** A line with no colon that does not end the block is refused with 400. */
  lemma {:induction false} HeaderLineWithoutColon(line: string, more: seq<string>, acc: seq<string>)
    requires |acc| <= MaxHeaders && |line| <= MaxLine
    requires ':' !in line && !IsTerminator(line)
    ensures ReadHeaders([line] + more, acc) == (Rejected(BadRequest), 1)
  {
    assert ([line] + more)[0] == line;
  }
}
