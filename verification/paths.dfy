/** File-system paths as the loaders see them: a file below a scanned
    directory, the `pathlib` properties used on it, and the separator
    joins that turn it into URI and packet paths. */
module Paths {

  /** A file relative to the scanned directory: its directory components
      (`path.parent.parts`) and its file name (`path.name`). */
  datatype FilePath = FilePath(dirs: seq<string>, name: string)

  /** `sep.join(parts)`. */
  function Join(parts: seq<string>, sep: string): string
    decreases |parts|
  {
    if |parts| == 0 then ""
    else if |parts| == 1 then parts[0]
    else parts[0] + sep + Join(parts[1..], sep)
  }

  /** Joining one more part appends the separator and that part. */
  lemma {:induction false} JoinSnoc(parts: seq<string>, x: string, sep: string)
    requires parts != []
    ensures Join(parts + [x], sep) == Join(parts, sep) + sep + x
    decreases |parts|
  {
    if |parts| > 1 {
      assert (parts + [x])[1..] == parts[1..] + [x];
      JoinSnoc(parts[1..], x, sep);
    }
  }

  /** Index of the first `c` in `s`, `s.find(c)`, when there is one. */
  function IndexOf(s: string, c: char): (i: nat)
    requires c in s
    ensures i < |s| && s[i] == c
    ensures forall j :: 0 <= j < i ==> s[j] != c
  {
    if s[0] == c then 0 else 1 + IndexOf(s[1..], c)
  }

  /** `s.rfind(c)`: the index of the last `c` in `s`, or -1. */
  function LastIndexOf(s: string, c: char): (i: int)
    ensures -1 <= i < |s|
    ensures i == -1 <==> c !in s
    ensures 0 <= i ==> s[i] == c && forall j :: i < j < |s| ==> s[j] != c
    decreases |s|
  {
    if s == [] then -1
    else if s[|s| - 1] == c then |s| - 1
    else LastIndexOf(s[..|s| - 1], c)
  }

  /** `s.split(c)`, for a one-character separator. */
  function Split(s: string, c: char): (r: seq<string>)
    ensures r != []
    decreases |s|
  {
    if c !in s then [s]
    else
      var i := IndexOf(s, c);
      [s[..i]] + Split(s[i + 1..], c)
  }

  /** Splitting undoes joining when no part contains the separator. */
  lemma {:induction false} SplitJoin(parts: seq<string>, c: char)
    requires parts != []
    requires forall i :: 0 <= i < |parts| ==> c !in parts[i]
    ensures Split(Join(parts, [c]), c) == parts
    decreases |parts|
  {
    if |parts| > 1 {
      var s := Join(parts, [c]);
      var rest := Join(parts[1..], [c]);
      assert s == parts[0] + [c] + rest;
      assert s[|parts[0]|] == c;
      assert c in s;
      var i := IndexOf(s, c);
      assert forall j :: 0 <= j < |parts[0]| ==> s[j] == parts[0][j] && parts[0][j] in parts[0];
      assert i == |parts[0]|;
      assert s[..i] == parts[0];
      assert s[i + 1..] == rest;
      SplitJoin(parts[1..], c);
    }
  }

  /** `PurePath.stem`: the name without its last suffix. A leading dot or a
      trailing dot does not start a suffix. */
  function Stem(name: string): string {
    var i := LastIndexOf(name, '.');
    if 0 < i < |name| - 1 then name[..i] else name
  }

  /** The stem of a `.py` file with a non-empty base name is that base name. */
  lemma StemOfPy(base: string)
    requires base != ""
    ensures Stem(base + ".py") == base
  {
    var name := base + ".py";
    var i := LastIndexOf(name, '.');
    assert name[|base|] == '.';
    assert name[|base| + 1] == 'p' && name[|base| + 2] == 'y';
    assert i == |base|;
    assert name[..i] == base;
  }

  /** The stem of an `index` module file. */
  lemma IndexStem()
    ensures Stem("index.py") == "index"
  {
    StemOfPy("index");
    assert "index" + ".py" == "index.py";
  }

  /** The stem of a `view` module file, which is not `index`. */
  lemma ViewStem()
    ensures Stem("view.py") == "view" && Stem("view.py") != "index"
  {
    StemOfPy("view");
    assert "view" + ".py" == "view.py";
    assert |"view"| != |"index"|;
  }

  /** `path.parent.as_posix()` for a relative path: "." when there is no
      directory component. */
  function AsPosix(dirs: seq<string>): string {
    if dirs == [] then "." else Join(dirs, "/")
  }

  /** A name hidden from the loaders. */
  predicate IsPrivate(name: string) {
    |name| > 0 && name[0] == '_'
  }

  /** The exclusion rule of both loaders: the file's own name or the name of
      any directory above it, up to the root, starts with `_`. `full` holds
      every component of the file's path. */
  predicate Excluded(full: seq<string>) {
    exists i :: 0 <= i < |full| && IsPrivate(full[i])
  }

  /** The components of a scanned file's full path. */
  function FullPath(base: seq<string>, p: FilePath): seq<string> {
    base + p.dirs + [p.name]
  }

  /** A private directory anywhere above the scanned directory hides every
      file below it. */
  lemma PrivateBaseExcludes(base: seq<string>, p: FilePath)
    requires Excluded(base)
    ensures Excluded(FullPath(base, p))
  {
    var i :| 0 <= i < |base| && IsPrivate(base[i]);
    assert FullPath(base, p)[i] == base[i];
  }

  /** A file is excluded exactly when a directory above the scanned
      directory, a directory below it, or the file itself is private. */
  lemma ExcludedFullPath(base: seq<string>, p: FilePath)
    ensures Excluded(FullPath(base, p)) <==>
      Excluded(base) || Excluded(p.dirs) || IsPrivate(p.name)
  {
    var full := FullPath(base, p);
    if Excluded(full) {
      var i :| 0 <= i < |full| && IsPrivate(full[i]);
      if i < |base| {
        assert full[i] == base[i];
      } else if i < |base| + |p.dirs| {
        assert full[i] == p.dirs[i - |base|];
      } else {
        assert full[i] == p.name;
      }
    }
    if Excluded(base) {
      PrivateBaseExcludes(base, p);
    }
    if Excluded(p.dirs) {
      var i :| 0 <= i < |p.dirs| && IsPrivate(p.dirs[i]);
      assert full[|base| + i] == p.dirs[i];
    }
    if IsPrivate(p.name) {
      assert full[|full| - 1] == p.name;
    }
  }

  /** A directory component as `pathlib` produces it: non-empty, not ".",
      and free of the separator. */
  predicate Segment(p: string) {
    p != "" && p != "." && '/' !in p
  }

  /** No two consecutive slashes. */
  predicate NoDoubleSlash(s: string) {
    forall i :: 0 <= i < |s| - 1 ==> !(s[i] == '/' && s[i + 1] == '/')
  }

  lemma ConcatNoDoubleSlash(a: string, b: string)
    requires NoDoubleSlash(a) && NoDoubleSlash(b)
    requires a == [] || b == [] || a[|a| - 1] != '/' || b[0] != '/'
    ensures NoDoubleSlash(a + b)
  {
    var s := a + b;
    forall i | 0 <= i < |s| - 1
      ensures !(s[i] == '/' && s[i + 1] == '/')
    {
      if i < |a| - 1 {
        assert s[i] == a[i] && s[i + 1] == a[i + 1];
      } else if i >= |a| {
        assert s[i] == b[i - |a|] && s[i + 1] == b[i - |a| + 1];
      }
    }
  }

  /** Joining segments with "/" gives text that neither starts nor ends with
      a slash, never doubles one, and is never ".". */
  lemma {:induction false} JoinSegments(dirs: seq<string>)
    requires dirs != []
    requires forall i :: 0 <= i < |dirs| ==> Segment(dirs[i])
    ensures var s := Join(dirs, "/");
      && s != "" && s != "."
      && s[0] != '/' && s[|s| - 1] != '/'
      && NoDoubleSlash(s)
    decreases |dirs|
  {
    var s := Join(dirs, "/");
    var d := dirs[0];
    assert d[0] != '/' && d[|d| - 1] != '/' by {
      assert d[0] in d && d[|d| - 1] in d;
    }
    assert NoDoubleSlash(d) by {
      forall i | 0 <= i < |d| - 1 ensures d[i] != '/' {
        assert d[i] in d;
      }
    }
    if |dirs| > 1 {
      var rest := Join(dirs[1..], "/");
      JoinSegments(dirs[1..]);
      ConcatNoDoubleSlash(d, "/");
      ConcatNoDoubleSlash(d + "/", rest);
      assert s == d + "/" + rest;
      assert |s| > 1;
    }
  }
}
