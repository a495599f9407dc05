/**
 * The bytes of a response: the status line, the `Key: Value` header lines
 * kept in the handler's header buffer, and the three framing headers added
 * when a response is sent.
 */
module Responses {
  import opened Text
  import opened Http
  import opened Requests

  /** `_append_header`: one encoded header line. */
  function HeaderLine(key: string, value: string): string
  {
    key + ": " + value + "\r\n"
  }

  /** The status line of `send_response`. */
  function StatusLine(status: Status): string
  {
    "HTTP/1.1 " + Decimal(status.Code()) + " " + status.Phrase() + "\r\n"
  }

  /** `_start_headers`: the headers every response ends its header block
    * with, in this order. */
  function Framing(date: string): (hs: seq<string>)
    ensures |hs| == 3
  {
    [HeaderLine("Date", date), HeaderLine("Server", ServerName), HeaderLine("Connection", "close")]
  }

  /** Everything a response puts on the wire: the status line, the buffered
    * headers in insertion order, one blank line, then the body chunks. */
  function ResponseBytes(status: Status, headers: seq<string>, body: seq<string>): string
  {
    StatusLine(status) + Concat(headers) + "\r\n" + Concat(body)
  }

  /** Writing the status line, the headers, the blank line and the body one
    * after the other appends the response's bytes. */
  lemma {:induction false} WrittenInParts(out: string, status: Status, headers: seq<string>, body: seq<string>)
    ensures out + StatusLine(status) + Concat(headers) + "\r\n" + Concat(body)
         == out + ResponseBytes(status, headers, body)
  {
    var a, b, c, d := StatusLine(status), Concat(headers), "\r\n", Concat(body);
    assert out + a + b + c + d == out + (a + b + c + d);
  }

  /** A value without whitespace at either end, under a key without a colon,
    * is read back unchanged by the header parser: the value `parse_headers`
    * keeps for a line `_append_header` wrote is the value written. */
  lemma {:induction false} HeaderLineRoundTrip(key: string, value: string)
    requires ':' !in key
    requires value != [] ==> !IsSpace(value[0]) && !IsSpace(value[|value| - 1])
    ensures HeaderValue(HeaderLine(key, value)) == Some(value)
  {
    var after := " " + value + "\r\n";
    assert HeaderLine(key, value) == key + [':'] + after;
    TextAfterFirstColon(key, after);
    StripPadded(value);
  }

  /** The text after the first colon of `key: rest`, for a key without one. */
  lemma {:induction false} TextAfterFirstColon(key: string, rest: string)
    requires ':' !in key
    ensures var line := key + [':'] + rest;
            ':' in line && IndexOf(line, ':') == |key| && line[|key| + 1..] == rest
  {
    var line := key + [':'] + rest;
    assert line[|key|] == ':';
    assert forall k :: 0 <= k < |key| ==> line[k] == key[k];
    assert line[|key| + 1..] == rest;
  }

  /** The space after the colon and the CRLF are what `strip()` removes. */
  lemma {:induction false} StripPadded(value: string)
    requires value != [] ==> !IsSpace(value[0]) && !IsSpace(value[|value| - 1])
    ensures Strip(" " + value + "\r\n") == value
  {
    var after := " " + value + "\r\n";
    assert after[0] == ' ' && after[1..] == value + "\r\n";
    assert TrimLeft(after) == TrimLeft(value + "\r\n");
    if value == [] {
      assert value + "\r\n" == "\r\n";
      assert TrimLeft("\r\n") == TrimLeft("\n") == TrimLeft("") == "";
    } else {
      StripTrailingSpace(value, "\r\n");
      assert TrimLeft(value + "\r\n") == value + "\r\n";
    }
  }

  /** A header a well-behaved peer can send: a key without a colon, a value
    * without whitespace at either end, on one line that fits the limit. */
  predicate Sendable(key: string, value: string) {
    ':' !in key
    && (value != [] ==> !IsSpace(value[0]) && !IsSpace(value[|value| - 1]))
    && WellFormedHeaderLine(HeaderLine(key, value))
  }

  /** The lines of the given headers, in order. */
  function HeaderLines(fields: seq<(string, string)>): (ls: seq<string>)
    ensures |ls| == |fields|
    ensures forall k :: 0 <= k < |fields| ==> ls[k] == HeaderLine(fields[k].0, fields[k].1)
  {
    seq(|fields|, k requires 0 <= k < |fields| => HeaderLine(fields[k].0, fields[k].1))
  }

  /** The values of the given headers, in order. */
  function FieldValues(fields: seq<(string, string)>): (vs: seq<string>)
    ensures |vs| == |fields|
    ensures forall k :: 0 <= k < |fields| ==> vs[k] == fields[k].1
  {
    seq(|fields|, k requires 0 <= k < |fields| => fields[k].1)
  }

  /** Header lines written as `Key: Value` are parsed back into their
    * values, in the order they were written; the keys are dropped. */
  lemma {:induction false} HeaderValuesRoundTrip(fields: seq<(string, string)>)
    requires forall k :: 0 <= k < |fields| ==> Sendable(fields[k].0, fields[k].1)
    ensures forall k :: 0 <= k < |fields| ==> WellFormedHeaderLine(HeaderLines(fields)[k])
    ensures ValuesOf(HeaderLines(fields)) == FieldValues(fields)
    decreases |fields|
  {
    var ls := HeaderLines(fields);
    if fields != [] {
      var tail := fields[1..];
      assert HeaderLines(tail) == ls[1..];
      assert forall k :: 0 <= k < |tail| ==> tail[k] == fields[k + 1];
      HeaderValuesRoundTrip(tail);
      HeaderLineRoundTrip(fields[0].0, fields[0].1);
      assert FieldValues(fields) == [fields[0].1] + FieldValues(tail);
    }
  }
}
