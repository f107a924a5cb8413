/** The HTTP route table (pygweblet/router.py): program files below
    `programs/` become routes keyed by (method, URI path). */
module Router {
  import opened Wrappers
  import opened Python
  import opened Paths
  import opened Routes

  /** The seven HTTP methods a program file may export. */
  const WebMethods: set<string> :=
    {"DELETE", "GET", "HEAD", "OPTIONS", "PATCH", "POST", "PUT"}

  /** A route table key: (method, URI path). */
  type RouteKey = (string, string)

  type RouteTable = map<RouteKey, Route>

  /** The symbols a program file defines once executed: `module.__dict__`. */
  type Namespace = map<string, Obj>

  /** A program file found below the programs directory. */
  datatype ProgramFile = ProgramFile(path: FilePath, symbols: Namespace)

  /** `str.lower()` on one ASCII character. */
  function LowerChar(c: char): char {
    if 'A' <= c <= 'Z' then (c as int - 'A' as int + 'a' as int) as char else c
  }

  /** `str.lower()` on ASCII letters; other characters are kept. */
  function Lower(s: string): (r: string)
    ensures |r| == |s|
    ensures forall i :: 0 <= i < |s| ==> r[i] == LowerChar(s[i])
  {
    if s == [] then [] else [LowerChar(s[0])] + Lower(s[1..])
  }

  /** The URI path of a program file. The parent directory text is copied
      as it is, and the stem follows it with no separator; an `index` stem
      contributes a trailing slash instead, except at the root. */
  function MakePathFrom(p: FilePath): (uri: string)
    ensures |uri| >= 1 && uri[0] == '/'
  {
    var parent := AsPosix(p.dirs);
    var uri := "/" + (if parent != "." then parent else "");
    var stem := Stem(p.name);
    if stem == "index" then
      if uri != "/" then uri + "/" else uri
    else uri + stem
  }

  /** An `index` file at the root is served at exactly "/". */
  lemma RootIndexIsSlash(name: string)
    requires Stem(name) == "index"
    ensures MakePathFrom(FilePath([], name)) == "/"
  {
  }

  /** An `index` file below directories `P` is served at "/P/": the path
      ends with a slash and never doubles one. */
  lemma NestedIndexPath(p: FilePath)
    requires p.dirs != []
    requires forall i :: 0 <= i < |p.dirs| ==> Segment(p.dirs[i])
    requires Stem(p.name) == "index"
    ensures var uri := MakePathFrom(p);
      && uri == "/" + Join(p.dirs, "/") + "/"
      && uri[|uri| - 1] == '/'
      && NoDoubleSlash(uri)
  {
    var j := Join(p.dirs, "/");
    JoinSegments(p.dirs);
    ConcatNoDoubleSlash("/", j);
    ConcatNoDoubleSlash("/" + j, "/");
  }

  /** Any other file is served at "/" + stem at the root and at "/P" + stem
      below directories `P`, with no slash between the two. */
  lemma NonIndexPath(p: FilePath)
    requires forall i :: 0 <= i < |p.dirs| ==> Segment(p.dirs[i])
    requires Stem(p.name) != "index"
    ensures p.dirs == [] ==> MakePathFrom(p) == "/" + Stem(p.name)
    ensures p.dirs != [] ==> MakePathFrom(p) == "/" + Join(p.dirs, "/") + Stem(p.name)
  {
    if p.dirs != [] {
      JoinSegments(p.dirs);
    }
  }

  /** Worked case: the parent directory and the stem are concatenated. */
  lemma BlogViewExample()
    ensures MakePathFrom(FilePath(["blog"], "view.py")) == "/blogview"
  {
    ViewStem();
    assert Segment("blog");
    NonIndexPath(FilePath(["blog"], "view.py"));
    assert "/" + Join(["blog"], "/") + "view" == "/blogview";
  }

  /** Worked case: an `index` file below `blog` is served at "/blog/". */
  lemma BlogIndexExample()
    ensures MakePathFrom(FilePath(["blog"], "index.py")) == "/blog/"
  {
    IndexStem();
    assert Segment("blog");
    NestedIndexPath(FilePath(["blog"], "index.py"));
    assert "/" + Join(["blog"], "/") + "/" == "/blog/";
  }

  /** Worked case: a parenthesised directory is kept as written. */
  lemma ParenthesisedSegmentExample()
    ensures MakePathFrom(FilePath(["blog", "(slug)"], "view.py")) == "/blog/(slug)view"
  {
    ViewStem();
    var dirs := ["blog", "(slug)"];
    assert Segment(dirs[0]) && Segment(dirs[1]);
    NonIndexPath(FilePath(dirs, "view.py"));
    assert Join(dirs, "/") == "blog" + "/" + "(slug)" by {
      assert dirs[1..] == ["(slug)"];
    }
    assert "blog" + "/" + "(slug)" == "blog/(slug)";
    assert "/" + "blog/(slug)" == "/blog/(slug)";
    assert "/blog/(slug)" + "view" == "/blog/(slug)view";
  }

  /** The file exports a handler for `verb`: `getattr(module, verb.lower(),
      None)` is not None. */
  predicate Exports(symbols: Namespace, verb: string) {
    Lower(verb) in symbols && symbols[Lower(verb)] != NoneObj
  }

  /** Every route of a table built from program files sits under its own
      method and path, for one of the seven methods, and holds a program and
      no template. */
  predicate ProgramRoutes(t: RouteTable) {
    forall k :: k in t ==>
      && k.0 in WebMethods
      && t[k].verb == k.0
      && t[k].path == k.1
      && t[k].program.Some?
      && t[k].program.value != NoneObj
      && t[k].template.None?
  }

  /** The keys of the seven methods at one path. */
  function KeysAt(path: string): (ks: set<RouteKey>)
    ensures forall k :: k in ks <==> k.0 in WebMethods && k.1 == path
  {
    set verb | verb in WebMethods :: (verb, path)
  }

  /** The routes one program file served at `path` brings: one per method
      it exports, holding that handler and no template. */
  function Exported(path: string, symbols: Namespace): (m: RouteTable)
    ensures forall k :: k in m <==> k.0 in WebMethods && k.1 == path && Exports(symbols, k.0)
    ensures forall k :: k in m ==>
      Exports(symbols, k.0) && m[k] == Route(path, k.0, Some(symbols[Lower(k.0)]), None)
    ensures ProgramRoutes(m)
  {
    map k | k in KeysAt(path) && Exports(symbols, k.0)
      :: NewRoute(path, k.0, program := Some(symbols[Lower(k.0)]))
  }

  lemma UnionKeepsProgramRoutes(a: RouteTable, b: RouteTable)
    requires ProgramRoutes(b)
    ensures ProgramRoutes(a) ==> ProgramRoutes(a + b)
  {
  }

  /** Registers one program file served at `path`: every method it exports
      gets a fresh route holding that handler and no template, replacing any
      route already at that key. */
  function LoadProgram(t: RouteTable, path: string, symbols: Namespace): (r: RouteTable)
    ensures forall verb :: verb in WebMethods && Exports(symbols, verb) ==>
      (verb, path) in r
      && r[(verb, path)] == Route(path, verb, Some(symbols[Lower(verb)]), None)
    ensures forall k :: k in r <==>
      k in t || (k.0 in WebMethods && k.1 == path && Exports(symbols, k.0))
    ensures forall k :: k in t && !(k.0 in WebMethods && k.1 == path && Exports(symbols, k.0)) ==>
      r[k] == t[k]
    ensures ProgramRoutes(t) ==> ProgramRoutes(r)
  {
    var added := Exported(path, symbols);
    assert forall verb :: verb in WebMethods && Exports(symbols, verb) ==> (verb, path) in added;
    assert ProgramRoutes(t) ==> ProgramRoutes(t + added) by {
      UnionKeepsProgramRoutes(t, added);
    }
    t + added
  }

  /** Loading file `f` below directory `dir` writes key `k`. */
  predicate Writes(dir: seq<string>, f: ProgramFile, k: RouteKey) {
    && !Excluded(FullPath(dir, f.path))
    && k.1 == MakePathFrom(f.path)
    && k.0 in WebMethods
    && Exports(f.symbols, k.0)
  }

  /** Loads one discovered program file, unless the exclusion rule hides it. */
  function LoadFile(t: RouteTable, dir: seq<string>, f: ProgramFile): (r: RouteTable)
    ensures forall k :: k in r <==> k in t || Writes(dir, f, k)
    ensures forall k :: k in t && !Writes(dir, f, k) ==> r[k] == t[k]
    ensures forall k :: Writes(dir, f, k) ==>
      r[k] == Route(k.1, k.0, Some(f.symbols[Lower(k.0)]), None)
    ensures ProgramRoutes(t) ==> ProgramRoutes(r)
  {
    if Excluded(FullPath(dir, f.path)) then t
    else LoadProgram(t, MakePathFrom(f.path), f.symbols)
  }

  /** Loading one more file extends what the earlier files wrote. */
  lemma LoadFileExtends(t: RouteTable, dir: seq<string>, files: seq<ProgramFile>, prev: RouteTable)
    requires files != []
    requires forall k :: k in prev <==>
      k in t || exists i :: 0 <= i < |files| - 1 && Writes(dir, files[i], k)
    requires forall k :: k in t && (forall i :: 0 <= i < |files| - 1 ==> !Writes(dir, files[i], k)) ==>
      prev[k] == t[k]
    ensures var r := LoadFile(prev, dir, files[|files| - 1]);
      && (forall k :: k in r <==> k in t || exists i :: 0 <= i < |files| && Writes(dir, files[i], k))
      && (forall k :: k in t && (forall i :: 0 <= i < |files| ==> !Writes(dir, files[i], k)) ==> r[k] == t[k])
  {
    var f := files[|files| - 1];
    var r := LoadFile(prev, dir, f);
    forall k | k in r
      ensures k in t || exists i :: 0 <= i < |files| && Writes(dir, files[i], k)
    {
      if !Writes(dir, f, k) {
        assert k in prev;
      }
    }
  }

  /** Loads the program files in discovery order. */
  function LoadPrograms(t: RouteTable, dir: seq<string>, files: seq<ProgramFile>): (r: RouteTable)
    ensures forall k :: k in r <==>
      k in t || exists i :: 0 <= i < |files| && Writes(dir, files[i], k)
    ensures forall k :: k in t && (forall i :: 0 <= i < |files| ==> !Writes(dir, files[i], k)) ==>
      r[k] == t[k]
    ensures ProgramRoutes(t) ==> ProgramRoutes(r)
    decreases |files|
  {
    if files == [] then t
    else
      var init := files[..|files| - 1];
      var prev := LoadPrograms(t, dir, init);
      assert forall i :: 0 <= i < |init| ==> init[i] == files[i];
      LoadFileExtends(t, dir, files, prev);
      LoadFile(prev, dir, files[|files| - 1])
  }

  /** Of several program files served at the same method and path, the last
      one loaded holds the route; nothing is merged. */
  lemma {:induction false} LastProgramWins(t: RouteTable, dir: seq<string>, files: seq<ProgramFile>,
                                           i: nat, verb: string)
    requires i < |files|
    requires Writes(dir, files[i], (verb, MakePathFrom(files[i].path)))
    requires forall j :: i < j < |files| ==> !Writes(dir, files[j], (verb, MakePathFrom(files[i].path)))
    ensures var path := MakePathFrom(files[i].path);
      LoadPrograms(t, dir, files)[(verb, path)]
        == Route(path, verb, Some(files[i].symbols[Lower(verb)]), None)
    decreases |files|
  {
    var init := files[..|files| - 1];
    var k := (verb, MakePathFrom(files[i].path));
    if i < |files| - 1 {
      assert forall j :: 0 <= j < |init| ==> init[j] == files[j];
      LastProgramWins(t, dir, init, i, verb);
      assert k in LoadPrograms(t, dir, init);
    }
  }

  /** When a directory above the programs is private, no route is loaded. */
  lemma {:induction false} PrivateDirLoadsNothing(t: RouteTable, dir: seq<string>, files: seq<ProgramFile>)
    requires Excluded(dir)
    ensures LoadPrograms(t, dir, files) == t
    decreases |files|
  {
    if files != [] {
      PrivateBaseExcludes(dir, files[|files| - 1].path);
      PrivateDirLoadsNothing(t, dir, files[..|files| - 1]);
    }
  }

  lemma EmptyProgramRoutes()
    ensures ProgramRoutes(map[])
  {
  }

  /** Template discovery is a stub: it adds nothing to the table. */
  function LoadTemplates(t: RouteTable, templateDir: seq<string>): (r: RouteTable)
    ensures forall k :: k in r <==> k in t
    ensures forall k :: k in t ==> r[k] == t[k]
  {
    t
  }

  /** Loads the routes of a site: program files below `base/programs`, then
      templates below `base/pages`. The table holds exactly the keys some
      program file writes, each a program-only route. */
  function Load(base: seq<string>, programs: seq<ProgramFile>): (r: RouteTable)
    ensures forall k :: k in r <==>
      exists i :: 0 <= i < |programs| && Writes(base + ["programs"], programs[i], k)
    ensures ProgramRoutes(r)
  {
    var loaded := LoadPrograms(map[], base + ["programs"], programs);
    assert ProgramRoutes(loaded) by {
      EmptyProgramRoutes();
    }
    LoadTemplates(loaded, base + ["pages"])
  }
}
