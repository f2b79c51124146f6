/** The part of Python's `ast` module that the repository parsers look at, as a closed
    datatype. A parsed file is given as the sequence of nodes `ast.walk` visits (the
    traversal order itself is an input); every node kind the parsers do not test for is
    `Other`. */
module PyAst {
  import opened Wrappers

  /** One entry of `node.names` in an import statement: `name` and the optional `as` name. */
  datatype Alias = Alias(name: string, asname: Option<string>)

  /** The callee expression of an `ast.Call`: a bare name (`f()`), an attribute on a bare
      name (`m.f()`), an attribute on anything else (`a.b.f()`, `g().f()`), or some other
      expression (`fs[0]()`, `(lambda: 0)()`). */
  datatype CallTarget =
    | NameTarget(id: string)
    | AttrOfName(base: string, attr: string)
    | AttrOfOther(attr: string)
    | OtherTarget

  datatype Node =
    | Import(names: seq<Alias>)
    | ImportFrom(fromModule: Option<string>, names: seq<Alias>)
    | FunctionDef(name: string)
    | ClassDef(name: string)
    | Call(func: CallTarget)
    | Other

  /** A file handed to a parser: its path and the walked nodes, or `None` when reading or
      `ast.parse` failed. */
  datatype SourceFile = SourceFile(path: string, tree: Option<seq<Node>>)

  /** One file as `os.walk` reports it: the directory, the file name, and the parse outcome. */
  datatype WalkEntry = WalkEntry(root: string, fileName: string, tree: Option<seq<Node>>)

  /** `node.module if node.module else ""`: a relative import without a module name reads as "". */
  function ModuleOrEmpty(m: Option<string>): (r: string)
    ensures m.Some? && m.value != "" ==> r == m.value
    ensures m.None? ==> r == ""
  {
    match m
    case Some(s) => s
    case None => ""
  }

  /** The `functions` list every parser collects: the name of every `FunctionDef`, in walk order. */
  function FunctionsOf(nodes: seq<Node>): seq<string> {
    if nodes == [] then []
    else
      var n := nodes[|nodes| - 1];
      FunctionsOf(nodes[..|nodes| - 1]) + (if n.FunctionDef? then [n.name] else [])
  }

  /** The functions listed are exactly the names of the file's `FunctionDef` nodes. */
  lemma {:induction false} FunctionsOfMembers(nodes: seq<Node>)
    ensures forall f :: f in FunctionsOf(nodes) <==> FunctionDef(f) in nodes
  {
    if nodes != [] {
      var init, last := nodes[..|nodes| - 1], nodes[|nodes| - 1];
      FunctionsOfMembers(init);
      assert nodes == init + [last];
    }
  }
}

/** The two path helpers of the Python standard library that the parsers use, for POSIX paths. */
module PyPaths {
  import opened Strings

  /** `os.path.join(root, name)`: an absolute `name` replaces `root`; otherwise a "/" is put
      between them unless `root` is empty or already ends in one. */
  function JoinPath(root: string, name: string): (p: string)
    ensures EndsWith(p, name)
  {
    if StartsWith(name, "/") then name
    else if root == "" || EndsWith(root, "/") then root + name
    else root + "/" + name
  }

  /** `pathlib.PurePosixPath(s).name`: the last component of the path, ignoring empty
      components and "." components (which the path normalises away). */
  function PathName(s: string): (r: string)
    ensures '/' !in r
  {
    LastNamedSegment(Split(s, '/'))
  }

  function LastNamedSegment(segs: seq<string>): (r: string)
    requires forall i :: 0 <= i < |segs| ==> '/' !in segs[i]
    ensures '/' !in r
  {
    if segs == [] then ""
    else if segs[|segs| - 1] != "" && segs[|segs| - 1] != "." then segs[|segs| - 1]
    else LastNamedSegment(segs[..|segs| - 1])
  }
}
