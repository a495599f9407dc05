/**
 * The two byte streams of a connection: the read side (`rfile`), a cursor
 * over the bytes the peer sent, and the write side (`wfile`), the bytes
 * written back so far and whether the stream has been closed.
 */
module Wire {
  import opened Text

  /** The bytes of `s` up to and including its first newline (all of `s`
    * when it has none). */
  function FirstLine(s: string): (line: string)
    ensures |line| <= |s|
    ensures s != [] ==> line != []
    decreases |s|
  {
    if s == [] then []
    else if s[0] == '\n' then [s[0]]
    else [s[0]] + FirstLine(s[1..])
  }

  /** A line ends after its first newline, or with the input. */
  predicate LineShaped(s: string, line: string) {
    |line| <= |s| && line == s[..|line|]
    && (forall i :: 0 <= i < |line| - 1 ==> line[i] != '\n')
    && (line == s || (line != [] && line[|line| - 1] == '\n'))
  }

  lemma {:induction false} FirstLineShape(s: string)
    ensures LineShaped(s, FirstLine(s))
    decreases |s|
  {
    if s != [] && s[0] != '\n' {
      var t := FirstLine(s[1..]);
      FirstLineShape(s[1..]);
      assert [s[0]] + t == s[..1 + |t|];
    }
  }

  /** `readline(limit)` on the rest of the input `s`: the bytes up to and
    * including the first newline, but never more than `limit` of them. */
  function LineAt(s: string, limit: nat): (line: string)
    ensures |line| <= |s| && |line| <= limit
    ensures limit > 0 && s != [] ==> line != []
  {
    FirstLine(if |s| <= limit then s else s[..limit])
  }

  /** What `readline(limit)` returns is a prefix of the input without an
    * inner newline, which stops at the limit, at the end of the input or
    * right after a newline. */
  lemma {:induction false} LineAtShape(s: string, limit: nat)
    ensures var line := LineAt(s, limit);
            line == s[..|line|] && (forall i :: 0 <= i < |line| - 1 ==> line[i] != '\n')
            && (|line| == limit || line == s || (line != [] && line[|line| - 1] == '\n'))
  {
    var t := if |s| <= limit then s else s[..limit];
    FirstLineShape(t);
    var line := FirstLine(t);
    assert line == s[..|line|];
  }

  lemma {:induction false} FirstLineIs(s: string, n: nat)
    requires n <= |s|
    requires forall i :: 0 <= i < n - 1 ==> s[i] != '\n'
    requires n == |s| || (n > 0 && s[n - 1] == '\n')
    ensures FirstLine(s) == s[..n]
    decreases n
  {
    if n > 0 {
      if s[0] == '\n' {
        assert n == 1;
      } else {
        assert forall i :: 0 <= i < n - 2 ==> s[1..][i] == s[i + 1];
        FirstLineIs(s[1..], n - 1);
        assert s[..n] == [s[0]] + s[1..][..n - 1];
      }
    }
  }

  /** The three properties of `LineAt` determine it: a prefix without an
    * inner newline that stops at the limit, at the end of input or after a
    * newline is the line. */
  lemma {:induction false} LineAtIs(s: string, limit: nat, n: nat)
    requires n <= |s| && n <= limit
    requires forall i :: 0 <= i < n - 1 ==> s[i] != '\n'
    requires n == |s| || n == limit || (n > 0 && s[n - 1] == '\n')
    ensures LineAt(s, limit) == s[..n]
  {
    var t := if |s| <= limit then s else s[..limit];
    assert t[..n] == s[..n];
    FirstLineIs(t, n);
  }

  /** The lines that successive calls of `readline(limit)` return on input
    * `s`, until the input is used up (after which `readline` returns the
    * empty string). */
  function ReadLines(s: string, limit: nat): (lines: seq<string>)
    requires limit > 0
    decreases |s|
  {
    if s == [] then []
    else
      var line := LineAt(s, limit);
      [line] + ReadLines(s[|line|..], limit)
  }

  /** One step of `ReadLines`: the first line read, then the lines of
    * what follows it. */
  lemma {:induction false} ReadLinesStep(s: string, limit: nat, n: nat)
    requires limit > 0 && s != [] && n <= |s|
    requires LineAt(s, limit) == s[..n]
    ensures ReadLines(s, limit) == [s[..n]] + ReadLines(s[n..], limit)
  {
  }

  lemma {:induction false} ConcatCons(line: string, rest: seq<string>)
    ensures Concat([line] + rest) == line + Concat(rest)
  {
    assert ([line] + rest)[1..] == rest;
  }

  /** Reading line after line consumes the input exactly: nothing is lost
    * or repeated. */
  lemma {:induction false} ReadLinesConcat(s: string, limit: nat)
    requires limit > 0
    ensures Concat(ReadLines(s, limit)) == s
    decreases |s|
  {
    if s != [] {
      var n := |LineAt(s, limit)|;
      LineAtShape(s, limit);
      assert s == s[..n] + s[n..];
      ReadLinesStep(s, limit, n);
      ReadLinesConcat(s[n..], limit);
      ConcatCons(s[..n], ReadLines(s[n..], limit));
    }
  }

  /** A line that ends in its only newline and fits the limit. */
  predicate IsFullLine(line: string, limit: nat) {
    0 < |line| <= limit && line[|line| - 1] == '\n'
    && (forall i :: 0 <= i < |line| - 1 ==> line[i] != '\n')
  }

  /** A full line at the head of the input is what `readline` returns, and
    * reading goes on right after it. */
  lemma {:induction false} ReadLinesFullLine(line: string, tail: string, limit: nat)
    requires limit > 0 && IsFullLine(line, limit)
    ensures ReadLines(line + tail, limit) == [line] + ReadLines(tail, limit)
  {
    var s := line + tail;
    assert s[..|line|] == line && s[|line|..] == tail;
    assert forall i :: 0 <= i < |line| - 1 ==> s[i] == line[i];
    LineAtIs(s, limit, |line|);
    ReadLinesStep(s, limit, |line|);
  }

  /** Lines that each end in their only newline are read back one by one,
    * whatever follows them. */
  lemma {:induction false} ReadLinesOfFullLines(ls: seq<string>, rest: string, limit: nat)
    requires limit > 0
    requires forall k :: 0 <= k < |ls| ==> IsFullLine(ls[k], limit)
    ensures ReadLines(Concat(ls) + rest, limit) == ls + ReadLines(rest, limit)
    decreases |ls|
  {
    if ls == [] {
      assert Concat(ls) + rest == rest;
    } else {
      ReadLinesOfFullLinesStep(ls, rest, limit);
    }
  }

  lemma {:induction false} ReadLinesOfFullLinesStep(ls: seq<string>, rest: string, limit: nat)
    requires limit > 0 && ls != []
    requires forall k :: 0 <= k < |ls| ==> IsFullLine(ls[k], limit)
    ensures ReadLines(Concat(ls) + rest, limit) == ls + ReadLines(rest, limit)
    decreases |ls|, 0
  {
    var line, more := ls[0], ls[1..];
    var tail := Concat(more) + rest;
    var r := ReadLines(rest, limit);
    assert Concat(ls) + rest == line + tail by {
      assert ls == [line] + more;
      ConcatCons(line, more);
    }
    assert ls + r == [line] + (more + r) by {
      assert ls == [line] + more;
    }
    ReadLinesFullLine(line, tail, limit);
    ReadLinesOfFullLines(more, rest, limit);
  }

  /** The input left after `k` calls of `readline(limit)` on `s`. */
  function Skip(s: string, limit: nat, k: nat): (t: string)
    ensures |t| <= |s|
    decreases k
  {
    if k == 0 then s else Skip(s[|LineAt(s, limit)|..], limit, k - 1)
  }

  /** One more read takes the next line off what the first `k` left. */
  lemma {:induction false} SkipOneMore(s: string, limit: nat, k: nat)
    ensures Skip(s, limit, k + 1) == Skip(s, limit, k)[|LineAt(Skip(s, limit, k), limit)|..]
    decreases k
  {
    if k > 0 {
      SkipOneMore(s[|LineAt(s, limit)|..], limit, k - 1);
    }
  }

  /** One more `readline` while reading lines one by one: it returns the
    * next line and leaves the lines after it, or, once the input is used
    * up, returns the empty string. */
  lemma {:induction false} ReadOn(s: string, limit: nat, lines: seq<string>, k: nat)
    requires limit > 0 && k <= |lines|
    requires ReadLines(Skip(s, limit, k), limit) == lines[k..]
    ensures Skip(s, limit, k + 1) == Skip(s, limit, k)[|LineAt(Skip(s, limit, k), limit)|..]
    ensures Skip(s, limit, k) == [] ==> LineAt(Skip(s, limit, k), limit) == [] && k == |lines|
    ensures Skip(s, limit, k) != [] ==>
              k < |lines| && lines[k] == LineAt(Skip(s, limit, k), limit)
              && ReadLines(Skip(s, limit, k + 1), limit) == lines[k + 1..]
  {
    SkipOneMore(s, limit, k);
    var t := Skip(s, limit, k);
    if t != [] {
      var line := LineAt(t, limit);
      assert lines[k..] == [line] + ReadLines(t[|line|..], limit);
      assert lines[k..][0] == lines[k] && lines[k..][1..] == lines[k + 1..];
    }
  }

  /** Skipping full lines leaves exactly what follows them. */
  lemma {:induction false} SkipFullLines(ls: seq<string>, rest: string, limit: nat)
    requires limit > 0
    requires forall k :: 0 <= k < |ls| ==> IsFullLine(ls[k], limit)
    ensures Skip(Concat(ls) + rest, limit, |ls|) == rest
    decreases |ls|
  {
    if ls == [] {
      assert Concat(ls) + rest == rest;
    } else {
      SkipFullLinesStep(ls, rest, limit);
    }
  }

  lemma {:induction false} SkipFullLinesStep(ls: seq<string>, rest: string, limit: nat)
    requires limit > 0 && ls != []
    requires forall k :: 0 <= k < |ls| ==> IsFullLine(ls[k], limit)
    ensures Skip(Concat(ls) + rest, limit, |ls|) == rest
    decreases |ls|, 0
  {
    var line, more := ls[0], ls[1..];
    var s := Concat(ls) + rest;
    assert s == line + (Concat(more) + rest) by {
      assert ls == [line] + more;
      ConcatCons(line, more);
    }
    assert LineAt(s, limit) == line by {
      assert s[..|line|] == line;
      assert forall i :: 0 <= i < |line| - 1 ==> s[i] == line[i];
      LineAtIs(s, limit, |line|);
    }
    assert s[|line|..] == Concat(more) + rest;
    assert forall k :: 0 <= k < |more| ==> more[k] == ls[k + 1];
    SkipFullLines(more, rest, limit);
  }

  /** The chunks that iterating over a file opened in binary mode yields:
    * its lines, each ending after a newline except perhaps the last. */
  function Lines(s: string): seq<string>
  {
    if s == [] then [] else ReadLines(s, |s|)
  }

  /** Writing the chunks one after the other reproduces the file exactly. */
  lemma {:induction false} LinesConcat(s: string)
    ensures Concat(Lines(s)) == s
  {
    if s != [] {
      ReadLinesConcat(s, |s|);
    }
  }

  /** The read side of a connection: the bytes the peer sent and how far
    * they have been consumed. */
  class Reader {
    const data: string
    var pos: nat

    ghost predicate Valid()
      reads this
    {
      pos <= |data|
    }

    constructor (data: string)
      ensures Valid() && this.data == data && pos == 0
    {
      this.data := data;
      pos := 0;
    }

    /** `rfile.readline(limit)`: consumes and returns the next line. */
    method ReadLine(limit: nat) returns (line: string)
      requires Valid()
      modifies this
      ensures Valid()
      ensures line == LineAt(data[old(pos)..], limit)
      ensures pos == old(pos) + |line|
      ensures data[pos..] == data[old(pos)..][|line|..]
    {
      var j := pos;
      while j < |data| && j - pos < limit && (j == pos || data[j - 1] != '\n')
        invariant pos <= j <= |data| && j - pos <= limit
        invariant forall i :: pos <= i < j - 1 ==> data[i] != '\n'
      {
        j := j + 1;
      }
      line := data[pos..j];
      LineAtIs(data[pos..], limit, j - pos);
      assert data[pos..][..j - pos] == line;
      pos := j;
    }
  }

  /** The write side of a connection: what has been written and whether the
    * stream is closed. Writing to a closed stream raises in the source; here
    * `Write` reports it instead, and writes nothing. */
  class Writer {
    var written: string
    var closed: bool

    constructor ()
      ensures written == [] && !closed
    {
      written := [];
      closed := false;
    }

    method Write(s: string) returns (ok: bool)
      modifies this
      ensures ok == !old(closed) && closed == old(closed)
      ensures written == if ok then old(written) + s else old(written)
    {
      ok := !closed;
      if ok {
        written := written + s;
      }
    }

    method Close()
      modifies this
      ensures closed && written == old(written)
    {
      closed := true;
    }
  }
}
