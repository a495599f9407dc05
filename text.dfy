/**
 * String primitives the handler relies on, written over ISO-8859-1 text:
 * every `char` here stands for one byte of the connection, because decoding
 * with ISO-8859-1 maps byte b to code point b.
 *
 * They follow Python's `str` methods: `strip()`, `split()` (no argument),
 * `split(sep)`, `startswith`, `endswith`, and `str(n)` on a natural number.
 */
module Text {

  /** Python's `str.isspace()` restricted to the code points 0..255. */
  predicate IsSpace(c: char) {
    var n := c as int;
    (9 <= n <= 13) || (28 <= n <= 32) || n == 0x85 || n == 0xA0
  }

  predicate NoSpace(s: string) {
    forall i :: 0 <= i < |s| ==> !IsSpace(s[i])
  }

  /** A token of `split()`: non-empty and free of whitespace. */
  predicate IsToken(w: string) {
    w != [] && NoSpace(w)
  }

  predicate AllSpace(s: string) {
    forall i :: 0 <= i < |s| ==> IsSpace(s[i])
  }

  /** Removes the leading whitespace (the left half of `strip()`). */
  function TrimLeft(s: string): (r: string)
    ensures |r| <= |s|
    decreases |s|
  {
    if s != [] && IsSpace(s[0]) then TrimLeft(s[1..]) else s
  }

  /** `TrimLeft` cuts a blank prefix and nothing more: what is left is a
    * suffix that starts with non-whitespace. */
  lemma {:induction false} TrimLeftShape(s: string)
    ensures var r := TrimLeft(s);
            r == s[|s| - |r|..] && AllSpace(s[..|s| - |r|]) && (r != [] ==> !IsSpace(r[0]))
    decreases |s|
  {
    if s != [] && IsSpace(s[0]) {
      TrimLeftShape(s[1..]);
      var r := TrimLeft(s[1..]);
      assert s[|s| - |r|..] == s[1..][|s| - 1 - |r|..];
      assert s[..|s| - |r|] == [s[0]] + s[1..][..|s| - 1 - |r|];
    }
  }

  /** Removes the trailing whitespace (the right half of `strip()`). */
  function TrimRight(s: string): (r: string)
    ensures |r| <= |s|
    decreases |s|
  {
    if s != [] && IsSpace(s[|s| - 1]) then TrimRight(s[..|s| - 1]) else s
  }

  /** `TrimRight` cuts a blank suffix and nothing more: what is left is a
    * prefix that ends with non-whitespace. */
  lemma {:induction false} TrimRightShape(s: string)
    ensures var r := TrimRight(s);
            r == s[..|r|] && AllSpace(s[|r|..]) && (r != [] ==> !IsSpace(r[|r| - 1]))
    decreases |s|
  {
    if s != [] && IsSpace(s[|s| - 1]) {
      var t := s[..|s| - 1];
      TrimRightShape(t);
      var r := TrimRight(t);
      assert s[..|r|] == t[..|r|];
      assert s[|r|..] == t[|r|..] + [s[|s| - 1]];
    }
  }

  /** Python's `str.strip()`. */
  function Strip(s: string): (r: string)
    ensures |r| <= |s|
  {
    TrimRight(TrimLeft(s))
  }

  /** `strip()` only cuts whitespace, and only at the two ends: its result
    * is the slice of `s` between a blank prefix and a blank suffix, and it
    * neither starts nor ends with whitespace. */
  lemma {:induction false} StripIsBlankTrimmedSlice(s: string)
    ensures var r := Strip(s);
            (r != [] ==> !IsSpace(r[0]) && !IsSpace(r[|r| - 1]))
            && exists i :: 0 <= i <= |s| - |r| && r == s[i..i + |r|]
                           && AllSpace(s[..i]) && AllSpace(s[i + |r|..])
  {
    var l := TrimLeft(s);
    var r := TrimRight(l);
    var i := |s| - |l|;
    assert l == s[i..] && AllSpace(s[..i]) && (l != [] ==> !IsSpace(l[0])) by {
      TrimLeftShape(s);
    }
    assert r == l[..|r|] && AllSpace(l[|r|..]) && (r != [] ==> !IsSpace(r[|r| - 1])) by {
      TrimRightShape(l);
    }
    assert r != [] ==> r[0] == l[0];
    assert r == s[i..i + |r|];
    assert s[i + |r|..] == l[|r|..];
  }

  /** A string that already starts and ends with non-whitespace is left
    * unchanged by `strip()`. */
  lemma {:induction false} StripKeepsTrimmed(s: string)
    requires s != [] ==> !IsSpace(s[0]) && !IsSpace(s[|s| - 1])
    ensures Strip(s) == s
  {
    assert TrimLeft(s) == s;
  }

  /** The longest prefix of `s` without whitespace. */
  function Word(s: string): (w: string)
    ensures |w| <= |s|
    ensures s != [] && !IsSpace(s[0]) ==> w != []
    decreases |s|
  {
    if s == [] || IsSpace(s[0]) then [] else [s[0]] + Word(s[1..])
  }

  /** Python's `str.split()` with no separator: the maximal runs of
    * non-whitespace, in order. */
  function Words(s: string): (ws: seq<string>)
    decreases |s|
  {
    var t := TrimLeft(s);
    if t == [] then []
    else
      TrimLeftShape(s);
      var w := Word(t);
      [w] + Words(t[|w|..])
  }

  /** `Word` stops at the first whitespace and keeps what precedes it. */
  lemma {:induction false} WordShape(s: string)
    ensures var w := Word(s);
            w == s[..|w|] && NoSpace(w) && (|w| < |s| ==> IsSpace(s[|w|]))
    decreases |s|
  {
    if s != [] && !IsSpace(s[0]) {
      WordShape(s[1..]);
      var w := Word(s[1..]);
      assert [s[0]] + w == s[..1 + |w|];
    }
  }

  /** Every word of `split()` is a token. */
  lemma {:induction false} WordsAreTokens(s: string)
    ensures forall k :: 0 <= k < |Words(s)| ==> IsToken(Words(s)[k])
    decreases |s|
  {
    var t := TrimLeft(s);
    if t != [] {
      TrimLeftShape(s);
      var w := Word(t);
      WordShape(t);
      WordsAreTokens(t[|w|..]);
      assert Words(s) == [w] + Words(t[|w|..]);
    }
  }

  lemma {:induction false} WordOfSpaced(w: string, rest: string)
    requires NoSpace(w)
    requires rest == [] || IsSpace(rest[0])
    ensures Word(w + rest) == w
    decreases |w|
  {
    if w == [] {
      assert w + rest == rest;
    } else {
      var s := w + rest;
      assert s[0] == w[0] && !IsSpace(s[0]);
      assert s[1..] == w[1..] + rest;
      WordOfSpaced(w[1..], rest);
      assert Word(s) == [s[0]] + Word(s[1..]);
      assert w == [w[0]] + w[1..];
    }
  }

  /** A leading token, ended by whitespace or by the end of input, is the
    * first word. */
  lemma {:induction false} WordsOfLeadingWord(w: string, rest: string)
    requires w != [] && NoSpace(w)
    requires rest == [] || IsSpace(rest[0])
    ensures Words(w + rest) == [w] + Words(rest)
  {
    var s := w + rest;
    assert s[0] == w[0];
    assert TrimLeft(s) == s;
    WordOfSpaced(w, rest);
    assert s[|w|..] == rest;
  }

  /** A token followed by a space and more text: the token, then the words of
    * the rest. */
  lemma {:induction false} WordsOfTokenSpace(w: string, rest: string)
    requires IsToken(w)
    ensures Words(w + " " + rest) == [w] + Words(rest)
  {
    assert w + " " + rest == w + (" " + rest);
    WordsOfLeadingWord(w, " " + rest);
    WordsSkipsSpace(" " + rest);
    assert (" " + rest)[1..] == rest;
  }

  /** A single token is its own only word. */
  lemma {:induction false} WordsOfToken(w: string)
    requires IsToken(w)
    ensures Words(w) == [w]
  {
    WordsOfLeadingWord(w, []);
    assert w + [] == w;
  }

  /** Three tokens joined by single spaces split back into exactly those
    * three tokens. */
  lemma {:induction false} WordsOfThree(a: string, b: string, c: string)
    requires IsToken(a) && IsToken(b) && IsToken(c)
    ensures Words(a + " " + b + " " + c) == [a, b, c]
  {
    var bc := b + " " + c;
    assert a + " " + b + " " + c == a + " " + bc;
    assert [a, b, c] == [a] + ([b] + [c]);
    WordsOfToken(c);
    WordsOfTokenSpace(b, c);
    WordsOfTokenSpace(a, bc);
  }

  lemma {:induction false} WordsSkipsSpace(s: string)
    requires s != [] && IsSpace(s[0])
    ensures Words(s) == Words(s[1..])
  {
  }

  /** Python's `str.split(sep)`: the pieces between occurrences of `sep`,
    * empty pieces included. */
  function SplitOn(s: string, sep: char): (parts: seq<string>)
    ensures |parts| >= 1
    decreases |s|
  {
    if sep !in s then [s]
    else
      var i := IndexOf(s, sep);
      [s[..i]] + SplitOn(s[i + 1..], sep)
  }

  /** The index of the first occurrence of `c`. */
  function IndexOf(s: string, c: char): (i: nat)
    requires c in s
    ensures i < |s| && s[i] == c
    ensures forall k :: 0 <= k < i ==> s[k] != c
  {
    if s[0] == c then 0 else 1 + IndexOf(s[1..], c)
  }

  /** `sep.join(parts)`. */
  function JoinWith(parts: seq<string>, sep: char): string
    requires |parts| >= 1
  {
    if |parts| == 1 then parts[0] else parts[0] + [sep] + JoinWith(parts[1..], sep)
  }

  /** `split(sep)` loses nothing: joining the pieces back gives the input. */
  lemma {:induction false} JoinSplitOn(s: string, sep: char)
    ensures JoinWith(SplitOn(s, sep), sep) == s
    decreases |s|
  {
    if sep in s {
      var i := IndexOf(s, sep);
      var head, tail := s[..i], s[i + 1..];
      assert s == head + [sep] + tail;
      JoinSplitOn(tail, sep);
      JoinCons(head, SplitOn(tail, sep), sep);
    }
  }

  lemma {:induction false} JoinCons(head: string, rest: seq<string>, sep: char)
    requires |rest| >= 1
    ensures JoinWith([head] + rest, sep) == head + [sep] + JoinWith(rest, sep)
  {
    assert ([head] + rest)[1..] == rest;
  }

  /** `s.split(sep)[-1]`: the text after the last `sep`, or all of `s`. */
  function LastPiece(s: string, sep: char): string
  {
    var parts := SplitOn(s, sep);
    parts[|parts| - 1]
  }

  /** The last piece is the last piece of what follows the first `sep`. */
  lemma {:induction false} LastPieceStep(s: string, sep: char)
    requires sep in s
    ensures LastPiece(s, sep) == LastPiece(s[IndexOf(s, sep) + 1..], sep)
  {
    var i := IndexOf(s, sep);
    var tail := SplitOn(s[i + 1..], sep);
    assert SplitOn(s, sep) == [s[..i]] + tail;
  }

  /** The last piece of `base + [sep] + ext` is `ext` when `ext` holds no
    * `sep`, whatever `base` holds. */
  lemma {:induction false} LastPieceOfSuffix(base: string, sep: char, ext: string)
    requires sep !in ext
    ensures LastPiece(base + [sep] + ext, sep) == ext
    decreases |base|
  {
    var s := base + [sep] + ext;
    assert sep in s by {
      assert s[|base|] == sep;
    }
    LastPieceStep(s, sep);
    var i := IndexOf(s, sep);
    if sep in base {
      var j := IndexOf(base, sep);
      assert i == j by {
        assert s[j] == sep;
        assert forall k :: 0 <= k < j ==> s[k] == base[k];
      }
      assert s[i + 1..] == base[j + 1..] + [sep] + ext;
      LastPieceOfSuffix(base[j + 1..], sep, ext);
    } else {
      assert i == |base| by {
        assert forall k :: 0 <= k < |base| ==> s[k] == base[k];
      }
      assert s[i + 1..] == ext;
    }
  }

  /** The pieces of `split(sep)` never contain `sep`; when `s` neither
    * starts with `sep` nor holds two in a row, every piece but the last is
    * non-empty. */
  lemma {:induction false} SplitOnPieces(s: string, sep: char)
    ensures forall k :: 0 <= k < |SplitOn(s, sep)| ==> sep !in SplitOn(s, sep)[k]
    ensures (s == [] || s[0] != sep) && NoDoubled(s, sep) ==>
              forall k :: 0 <= k < |SplitOn(s, sep)| - 1 ==> SplitOn(s, sep)[k] != []
    decreases |s|
  {
    if sep in s {
      var i := IndexOf(s, sep);
      var t := s[i + 1..];
      SplitOnPieces(t, sep);
      var parts := SplitOn(s, sep);
      assert parts == [s[..i]] + SplitOn(t, sep);
      if (s == [] || s[0] != sep) && NoDoubled(s, sep) {
        assert i > 0;
        assert NoDoubled(t, sep) by {
          assert forall j :: 0 <= j < |t| ==> t[j] == s[i + 1 + j];
        }
        assert t == [] || t[0] != sep;
      }
    }
  }

  /** No two `c` in a row. */
  predicate NoDoubled(s: string, c: char) {
    forall i :: 0 <= i < |s| - 1 ==> !(s[i] == c && s[i + 1] == c)
  }

  /** `''.join(chunks)`. */
  function Concat(chunks: seq<string>): (s: string)
    ensures chunks == [] ==> s == []
  {
    if chunks == [] then [] else chunks[0] + Concat(chunks[1..])
  }

  lemma {:induction false} ConcatAppend(a: seq<string>, b: seq<string>)
    ensures Concat(a + b) == Concat(a) + Concat(b)
    decreases |a|
  {
    if a != [] {
      assert (a + b)[0] == a[0] && (a + b)[1..] == a[1..] + b;
      ConcatAppend(a[1..], b);
    } else {
      assert a + b == b;
    }
  }

  /** Writing one more chunk extends the output by exactly that chunk. */
  lemma {:induction false} ConcatSnoc(chunks: seq<string>, last: string)
    ensures Concat(chunks + [last]) == Concat(chunks) + last
  {
    ConcatAppend(chunks, [last]);
    assert [last][1..] == [];
  }

  function DigitChar(d: nat): (c: char)
    requires d < 10
    ensures '0' <= c <= '9'
  {
    ('0' as int + d) as char
  }

  /** Python's `str(n)` for a natural number: decimal digits without
    * leading zeros. */
  function Decimal(n: nat): (s: string)
    ensures s != [] && (forall i :: 0 <= i < |s| ==> '0' <= s[i] <= '9')
    ensures |s| > 1 ==> s[0] != '0'
  {
    if n < 10 then [DigitChar(n)] else Decimal(n / 10) + [DigitChar(n % 10)]
  }

  /** The value of a string of decimal digits. */
  function DecimalValue(s: string): nat
    requires forall i :: 0 <= i < |s| ==> '0' <= s[i] <= '9'
  {
    if s == [] then 0 else 10 * DecimalValue(s[..|s| - 1]) + (s[|s| - 1] as int - '0' as int)
  }

  /** Reading back what `str(n)` wrote gives `n`, so a Content-Length header
    * states the size it was built from. */
  lemma {:induction false} DecimalRoundTrip(n: nat)
    ensures DecimalValue(Decimal(n)) == n
  {
    if n >= 10 {
      var s := Decimal(n);
      var q, d := n / 10, n % 10;
      assert s == Decimal(q) + [DigitChar(d)];
      assert s[..|s| - 1] == Decimal(q);
      assert s[|s| - 1] as int - '0' as int == d;
      DecimalRoundTrip(q);
      assert n == 10 * q + d;
    }
  }
}
