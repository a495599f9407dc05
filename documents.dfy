/**
 * The string side of `open_document`: how a request path is mapped onto a
 * file under the document root, and which content type a file is served
 * with. The filesystem itself is a map from paths to entries.
 */
module Documents {
  import opened Text

  /** The file served for a path that names a directory. */
  const IndexFile: string := "index.html"

  /** The content type of a file whose extension is not in the table. */
  const DefaultType: string := "application/octet-stream"

  /** The content type of a path that names a directory. */
  const DirectoryType: string := "text/html"

  /** Content types by file extension; the lookup is case-sensitive. */
  const ContentTypes: map<string, string> := map[
    "html" := "text/html",
    "css" := "text/css",
    "js" := "application/javascript",
    "jpg" := "image/jpeg",
    "jpeg" := "image/jpeg",
    "png" := "image/png",
    "gif" := "image/gif",
    "swf" := "application/x-shockwave-flash"
  ]

  /** What the filesystem holds at a path. */
  datatype Entry = File(content: string) | Dir

  /** The content type of a regular file: the table entry for the text after
    * the last dot of the whole path, or the default. */
  function ContentType(path: string): string
  {
    var ext := LastPiece(path, '.');
    if ext in ContentTypes then ContentTypes[ext] else DefaultType
  }

  /** Every file is served with a type from the table or the default. */
  lemma {:induction false} ContentTypeIsKnown(path: string)
    ensures ContentType(path) == DefaultType || ContentType(path) in ContentTypes.Values
  {
    var ext := LastPiece(path, '.');
    if ext in ContentTypes {
      assert ContentTypes[ext] in ContentTypes.Values;
    }
  }

  /** A file named `base.ext`, where `ext` has no dot, gets the type the
    * table gives `ext`, or the default when the table has no entry. */
  lemma {:induction false} ContentTypeByExtension(base: string, ext: string)
    requires '.' !in ext
    ensures ContentType(base + "." + ext) == if ext in ContentTypes then ContentTypes[ext] else DefaultType
  {
    assert base + "." + ext == base + ['.'] + ext;
    LastPieceOfSuffix(base, '.', ext);
  }

  /** The extension is taken from the whole path, not from the file name: a
    * dot in a directory name followed by a dot-less file name yields an
    * "extension" with a slash in it, which is never in the table. */
  lemma {:induction false} DotInDirectoryName(dir: string, ext: string, name: string)
    requires '.' !in ext && '.' !in name
    ensures ContentType(dir + "." + ext + "/" + name) == DefaultType
  {
    var tail := ext + "/" + name;
    assert '.' !in tail;
    assert dir + "." + ext + "/" + name == dir + ['.'] + tail;
    LastPieceOfSuffix(dir, '.', tail);
    assert tail[|ext|] == '/';
    assert forall k | k in ContentTypes :: '/' !in k;
  }

  /** `os.path.join(a, *parts)` with POSIX paths: a part that starts with a
    * slash replaces what came before; otherwise a slash is inserted unless
    * the path so far is empty or already ends with one. */
  function JoinPath(a: string, parts: seq<string>): string
    decreases |parts|
  {
    if parts == [] then a
    else
      var b := parts[0];
      var next :=
        if b != [] && b[0] == '/' then b
        else if a == [] || a[|a| - 1] == '/' then a + b
        else a + "/" + b;
      JoinPath(next, parts[1..])
  }

  /** The root as a directory prefix: unchanged when empty or already ending
    * with a slash, otherwise with one slash added. */
  function DirPrefix(root: string): (d: string)
    ensures d == [] || d[|d| - 1] == '/'
  {
    if root == [] || root[|root| - 1] == '/' then root else root + "/"
  }

  /** The file path `open_document` builds from the decoded URL path `u`. */
  function DocumentPath(root: string, u: string): string
  {
    if u == "/" then JoinPath(root, [IndexFile])
    else if u != [] && u[|u| - 1] == '/' then JoinPath(root, SplitOn(u, '/') + [IndexFile])
    else JoinPath(root, SplitOn(u, '/'))
  }

  /** Joining slash-free pieces, none empty but perhaps the last, onto a
    * directory prefix puts them after it, separated by single slashes. */
  lemma {:induction false} JoinPieces(d: string, parts: seq<string>)
    requires d == [] || d[|d| - 1] == '/'
    requires |parts| >= 1
    requires forall k :: 0 <= k < |parts| ==> '/' !in parts[k]
    requires forall k :: 0 <= k < |parts| - 1 ==> parts[k] != []
    ensures JoinPath(d, parts) == d + JoinWith(parts, '/')
    decreases |parts|
  {
    var b := parts[0];
    assert '/' !in b;
    assert b != [] ==> b[0] != '/';
    if |parts| == 1 {
      assert JoinPath(d, parts) == JoinPath(d + b, []);
    } else {
      var rest := parts[1..];
      assert b != [] && b[|b| - 1] != '/';
      var c := rest[0];
      assert '/' !in c;
      assert JoinPath(d, parts) == JoinPath(d + b, rest);
      assert JoinPath(d + b, rest) == JoinPath(d + b + "/", rest) by {
        assert JoinPath(d + b, rest) == JoinPath(d + b + "/" + c, rest[1..]);
        assert JoinPath(d + b + "/", rest) == JoinPath(d + b + "/" + c, rest[1..]);
      }
      assert forall k :: 0 <= k < |rest| ==> rest[k] == parts[k + 1];
      JoinPieces(d + b + "/", rest);
      JoinCons(b, rest, '/');
      assert parts == [b] + rest;
    }
  }

  /** The leading empty piece of an absolute path turns the root into its
    * directory prefix. */
  lemma {:induction false} JoinLeadingEmpty(root: string, rest: seq<string>)
    ensures JoinPath(root, [[]] + rest) == JoinPath(DirPrefix(root), rest)
  {
    var parts := [[]] + rest;
    assert parts[0] == [] && parts[1..] == rest;
    if root == [] || root[|root| - 1] == '/' {
      assert root + [] == root;
    } else {
      assert root + "/" + [] == root + "/";
    }
  }

  /** An absolute path splits into an empty piece, then the pieces of the
    * rest. */
  lemma {:induction false} SplitAbsolute(u: string)
    requires u != [] && u[0] == '/'
    ensures SplitOn(u, '/') == [[]] + SplitOn(u[1..], '/')
  {
    assert IndexOf(u, '/') == 0;
  }

  /** A relative path without doubled slashes joined onto a directory
    * prefix is appended to it unchanged. */
  lemma {:induction false} JoinRelative(d: string, v: string)
    requires d == [] || d[|d| - 1] == '/'
    requires v != [] && v[0] != '/' && NoDoubled(v, '/')
    ensures JoinPath(d, SplitOn(v, '/')) == d + v
  {
    SplitOnPieces(v, '/');
    JoinPieces(d, SplitOn(v, '/'));
    JoinSplitOn(v, '/');
  }

  /** Path resolution is plain concatenation: for an absolute path without
    * doubled slashes, the file is the root's directory prefix followed by
    * the path, plus `index.html` when the path ends with a slash. Nothing
    * keeps `..` segments from leaving the root. */
  lemma {:induction false} DocumentPathUnderRoot(root: string, u: string)
    requires u != [] && u[0] == '/' && NoDoubled(u, '/')
    ensures DocumentPath(root, u)
         == DirPrefix(root) + u[1..] + (if u[|u| - 1] == '/' then IndexFile else "")
  {
    if u == "/" {
      ResolveSlash(root);
      assert u[1..] == [];
    } else if u[|u| - 1] == '/' {
      ResolveDirectoryPath(root, u);
    } else {
      ResolveFilePath(root, u);
      assert DirPrefix(root) + u[1..] + "" == DirPrefix(root) + u[1..];
    }
  }

  /** The part after the leading slash of an absolute path without doubled
    * slashes is a relative path without doubled slashes. */
  lemma {:induction false} RelativePart(u: string)
    requires |u| > 1 && u[0] == '/' && NoDoubled(u, '/')
    ensures u[1..] != [] && u[1..][0] != '/' && NoDoubled(u[1..], '/')
    ensures u[1..][|u| - 2] == u[|u| - 1]
  {
    var v := u[1..];
    assert forall j :: 0 <= j < |v| ==> v[j] == u[j + 1];
  }

  lemma {:induction false} ResolveFilePath(root: string, u: string)
    requires |u| > 1 && u[0] == '/' && u[|u| - 1] != '/' && NoDoubled(u, '/')
    ensures DocumentPath(root, u) == DirPrefix(root) + u[1..]
  {
    var v := u[1..];
    var d := DirPrefix(root);
    assert DocumentPath(root, u) == JoinPath(root, SplitOn(u, '/'));
    assert JoinPath(root, SplitOn(u, '/')) == d + v by {
      RelativePart(u);
      SplitAbsolute(u);
      JoinRelative(d, v);
      JoinLeadingEmpty(root, SplitOn(v, '/'));
    }
  }

  lemma {:induction false} ResolveDirectoryPath(root: string, u: string)
    requires |u| > 1 && u[0] == '/' && u[|u| - 1] == '/' && NoDoubled(u, '/')
    ensures DocumentPath(root, u) == DirPrefix(root) + u[1..] + IndexFile
  {
    var v := u[1..];
    assert DocumentPath(root, u) == JoinPath(root, SplitOn(u, '/') + [IndexFile]);
    RelativePart(u);
    SplitAbsolute(u);
    ResolveDirectory(root, v);
  }

  /** `/` itself is served from `index.html` at the root. */
  lemma {:induction false} ResolveSlash(root: string)
    ensures DocumentPath(root, "/") == DirPrefix(root) + IndexFile
  {
    assert JoinPath(root, [IndexFile]) == JoinPath(DirPrefix(root) + IndexFile, []);
  }

  /** A path ending in a slash gets `index.html` joined on. */
  lemma {:induction false} ResolveDirectory(root: string, v: string)
    requires v != [] && v[0] != '/' && v[|v| - 1] == '/' && NoDoubled(v, '/')
    ensures JoinPath(root, [[]] + SplitOn(v, '/') + [IndexFile]) == DirPrefix(root) + v + IndexFile
  {
    var d := DirPrefix(root);
    var pieces := SplitOn(v, '/');
    JoinRelative(d, v);
    var dir := d + v;
    assert dir[|dir| - 1] == '/' by {
      assert dir[|d| + |v| - 1] == v[|v| - 1];
    }
    assert [[]] + pieces + [IndexFile] == [[]] + (pieces + [IndexFile]);
    JoinLeadingEmpty(root, pieces + [IndexFile]);
    JoinAppend(d, pieces, [IndexFile]);
    assert JoinPath(dir, [IndexFile]) == JoinPath(dir + IndexFile, []);
  }

  /** Joining in two goes is joining once. */
  lemma {:induction false} JoinAppend(a: string, p: seq<string>, q: seq<string>)
    ensures JoinPath(a, p + q) == JoinPath(JoinPath(a, p), q)
    decreases |p|
  {
    if p == [] {
      assert p + q == q;
    } else {
      var b := p[0];
      var next :=
        if b != [] && b[0] == '/' then b
        else if a == [] || a[|a| - 1] == '/' then a + b
        else a + "/" + b;
      assert (p + q)[0] == b && (p + q)[1..] == p[1..] + q;
      JoinAppend(next, p[1..], q);
    }
  }

  /** A request for `/../rest` resolves to a path that climbs out of the
    * root. */
  lemma {:induction false} ParentSegmentsAreKept(root: string, rest: string)
    requires rest != [] && rest[0] != '/' && rest[|rest| - 1] != '/' && NoDoubled(rest, '/')
    ensures DocumentPath(root, "/../" + rest) == DirPrefix(root) + "../" + rest
  {
    var u := "/../" + rest;
    assert NoDoubled(u, '/') by {
      assert forall j :: 0 <= j < |rest| ==> u[j + 4] == rest[j];
    }
    DocumentPathUnderRoot(root, u);
    assert u[1..] == "../" + rest;
    assert u[|u| - 1] == rest[|rest| - 1];
  }
}
