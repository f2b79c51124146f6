/** `backend/parser-cj4.py`: the parser that stores each Python file's functions, imports
    and call dependencies in Neo4j. The database session is modelled by the sequence of
    write transactions it is asked to run, in order; what Cypher's `MERGE` makes of them
    is not part of this model. */
module Neo4jParser {
  import opened Wrappers
  import opened Strings
  import opened PyAst
  import opened PyPaths
  import opened Seqs
  import RepoJson

  /** The characters `strip("/\\")` removes. */
  const Separators: set<char> := {'/', '\\'}

  /** `file_path.replace(repo_path, "").strip("/\\")`. */
  function NormalizedPath(repoPath: string, filePath: string): (p: string)
    ensures p != [] ==> p[0] !in Separators && p[|p| - 1] !in Separators
    ensures |p| <= |filePath|
  {
    StripChars(RemoveAll(filePath, repoPath), Separators)
  }

  /** `s.replace(pat, "")`. An empty `pat` leaves `s` as it is, as Python's `replace` of the
      empty string by the empty string does. */
  function RemoveAll(s: string, pat: string): (r: string)
    ensures |r| <= |s|
  {
    if pat == "" then s
    else
      ReplaceShrinks(s, pat);
      ReplaceAll(s, pat, "")
  }

  /** Removing occurrences never lengthens a string. */
  lemma {:induction false} ReplaceShrinks(s: string, pat: string)
    requires pat != ""
    ensures |ReplaceAll(s, pat, "")| <= |s|
    decreases |s|
  {
    match Find(s, pat)
    case None =>
    case Some(k) =>
      ReplaceShrinks(s[k + |pat|..], pat);
  }

  /** An occurrence at the very start, followed by none in the rest, is the only one removed. */
  lemma RemoveLeading(pat: string, rest: string)
    requires pat != "" && !Contains(rest, pat)
    ensures RemoveAll(pat + rest, pat) == rest
  {
    var s := pat + rest;
    assert OccursAt(s, pat, 0);
    assert Find(s, pat) == Some(0);
    assert s[|pat|..] == rest;
    ReplaceAbsent(rest, pat, "");
  }

  /** Stripping the separators around "/" + `rel` leaves `rel` when it has none at its ends. */
  lemma StripLeadingSeparator(rel: string)
    requires rel != [] ==> rel[0] !in Separators && rel[|rel| - 1] !in Separators
    ensures StripChars("/" + rel, Separators) == rel
  {
    assert ("/" + rel)[1..] == rel;
    assert LStrip("/" + rel, Separators) == rel;
  }

  /** A file below the repository root is stored under its path relative to that root. */
  lemma RelativePathOfFile(repoPath: string, rel: string)
    requires repoPath != "" && !Contains("/" + rel, repoPath)
    requires rel != [] ==> rel[0] !in Separators && rel[|rel| - 1] !in Separators
    ensures NormalizedPath(repoPath, repoPath + "/" + rel) == rel
  {
    assert repoPath + "/" + rel == repoPath + ("/" + rel);
    RemoveLeading(repoPath, "/" + rel);
    StripLeadingSeparator(rel);
  }

  // ---------------------------------------------------------------- extraction

  /** An import entry: an imported name, or `node.module` of a from-import (`None` for
      `from . import x`). */
  type ImportEntry = Option<string>

  /** What a node adds to `imports`: one entry per alias of a plain import, and a single
      entry, the source module, per from-import however many names it imports. */
  function NodeImportEntries(n: Node): (r: seq<ImportEntry>)
    ensures n.Import? ==> |r| == |n.names| && forall j :: 0 <= j < |n.names| ==> r[j] == Some(n.names[j].name)
    ensures n.ImportFrom? ==> r == [n.fromModule]
    ensures !n.Import? && !n.ImportFrom? ==> r == []
  {
    match n
    case Import(names) => AliasEntries(names)
    case ImportFrom(m, _) => [m]
    case _ => []
  }

  function AliasEntries(names: seq<Alias>): (r: seq<ImportEntry>)
    ensures |r| == |names| && forall j :: 0 <= j < |names| ==> r[j] == Some(names[j].name)
  {
    if names == [] then [] else AliasEntries(names[..|names| - 1]) + [Some(names[|names| - 1].name)]
  }

  /** What a call node adds to `dependencies`: the called name, or for `x.m()` the name of the
      object `x`, not the method. */
  function NodeDependencies(n: Node): seq<string> {
    if n.Call? && n.func.NameTarget? then [n.func.id]
    else if n.Call? && n.func.AttrOfName? then [n.func.base]
    else []
  }

  function ImportEntriesOf(nodes: seq<Node>): seq<ImportEntry> {
    if nodes == [] then [] else ImportEntriesOf(nodes[..|nodes| - 1]) + NodeImportEntries(nodes[|nodes| - 1])
  }

  function DependenciesOf(nodes: seq<Node>): seq<string> {
    if nodes == [] then [] else DependenciesOf(nodes[..|nodes| - 1]) + NodeDependencies(nodes[|nodes| - 1])
  }

  /** `node.func.value.id` is read for every attribute call, and only a bare name has an `id`:
      an attribute on anything else (`a.b.c()`, `f().g()`) raises `AttributeError`. */
  predicate RaisesAt(n: Node) {
    n.Call? && n.func.AttrOfOther?
  }

  predicate Raises(nodes: seq<Node>) {
    exists i :: 0 <= i < |nodes| && RaisesAt(nodes[i])
  }

  lemma ExtractStep(nodes: seq<Node>, i: nat)
    requires i < |nodes|
    ensures FunctionsOf(nodes[..i + 1]) == FunctionsOf(nodes[..i]) + (if nodes[i].FunctionDef? then [nodes[i].name] else [])
    ensures ImportEntriesOf(nodes[..i + 1]) == ImportEntriesOf(nodes[..i]) + NodeImportEntries(nodes[i])
    ensures DependenciesOf(nodes[..i + 1]) == DependenciesOf(nodes[..i]) + NodeDependencies(nodes[i])
  {
    TakeStep(nodes, i);
  }

  /** A dependency is recorded exactly when the file calls that name, or calls a method on an
      object of that name. */
  predicate DependsOn(n: Node, d: string) {
    n == Call(NameTarget(d)) || (n.Call? && n.func.AttrOfName? && n.func.base == d)
  }

  lemma {:induction false} DependenciesMembers(nodes: seq<Node>, d: string)
    ensures d in DependenciesOf(nodes) <==> exists k :: 0 <= k < |nodes| && DependsOn(nodes[k], d)
  {
    if nodes != [] {
      var init, last := nodes[..|nodes| - 1], nodes[|nodes| - 1];
      DependenciesMembers(init, d);
      assert d in NodeDependencies(last) <==> DependsOn(last, d);
      if exists k :: 0 <= k < |nodes| && DependsOn(nodes[k], d) {
        var k :| 0 <= k < |nodes| && DependsOn(nodes[k], d);
        if k < |init| {
          assert init[k] == nodes[k];
        }
      }
      if exists k :: 0 <= k < |init| && DependsOn(init[k], d) {
        var k :| 0 <= k < |init| && DependsOn(init[k], d);
        assert nodes[k] == init[k];
      }
    }
  }

  /** `None` is among the imports exactly when some from-import has no module name. */
  lemma {:induction false} NoneImportFromRelative(nodes: seq<Node>)
    ensures None in ImportEntriesOf(nodes) <==> HasRelativeImport(nodes)
  {
    if nodes != [] {
      var init, last := nodes[..|nodes| - 1], nodes[|nodes| - 1];
      NoneImportFromRelative(init);
      var a, b := ImportEntriesOf(init), NodeImportEntries(last);
      assert ImportEntriesOf(nodes) == a + b;
      NoneInNodeEntries(last);
      assert None in a + b <==> None in a || None in b;
      if HasRelativeImport(nodes) {
        var k :| 0 <= k < |nodes| && RelativeImport(nodes[k]);
        if k < |init| {
          assert init[k] == nodes[k];
        }
      }
      if HasRelativeImport(init) {
        var k :| 0 <= k < |init| && RelativeImport(init[k]);
        assert nodes[k] == init[k];
      }
    }
  }

  /** A node contributes `None` exactly when it is a from-import without a module name. */
  lemma NoneInNodeEntries(n: Node)
    ensures None in NodeImportEntries(n) <==> RelativeImport(n)
  {
  }

  /** `from . import x`: a from-import without a module name. */
  predicate RelativeImport(n: Node) {
    n.ImportFrom? && n.fromModule.None?
  }

  predicate HasRelativeImport(nodes: seq<Node>) {
    exists k :: 0 <= k < |nodes| && RelativeImport(nodes[k])
  }

  // ---------------------------------------------------------------- writes

  /** One `session.write_transaction` call and its arguments: `_store_file`,
      `_store_function`, `_store_import` or `_store_dependency`, each with the stored path. */
  datatype Write =
    | StoreFile(path: string)
    | StoreFunction(path: string, functionName: string)
    | StoreImport(path: string, importName: ImportEntry)
    | StoreDependency(path: string, dependency: string)

  function FunctionWrites(path: string, functions: seq<string>): (ws: seq<Write>)
    ensures |ws| == |functions| && forall i :: 0 <= i < |functions| ==> ws[i] == StoreFunction(path, functions[i])
  {
    if functions == [] then [] else FunctionWrites(path, functions[..|functions| - 1]) + [StoreFunction(path, functions[|functions| - 1])]
  }

  function ImportWrites(path: string, imports: seq<ImportEntry>): (ws: seq<Write>)
    ensures |ws| == |imports| && forall i :: 0 <= i < |imports| ==> ws[i] == StoreImport(path, imports[i])
  {
    if imports == [] then [] else ImportWrites(path, imports[..|imports| - 1]) + [StoreImport(path, imports[|imports| - 1])]
  }

  function DependencyWrites(path: string, deps: seq<string>): (ws: seq<Write>)
    ensures |ws| == |deps| && forall i :: 0 <= i < |deps| ==> ws[i] == StoreDependency(path, deps[i])
  {
    if deps == [] then [] else DependencyWrites(path, deps[..|deps| - 1]) + [StoreDependency(path, deps[|deps| - 1])]
  }

  /** The writes `store_in_neo4j` issues for one file. */
  function FileWrites(path: string, functions: seq<string>, imports: seq<ImportEntry>, deps: seq<string>): seq<Write> {
    [StoreFile(path)] + FunctionWrites(path, functions) + ImportWrites(path, imports) + DependencyWrites(path, deps)
  }

  /** The file node is written first, then every function, every import and every
      dependency, each group in list order. */
  lemma FileWritesOrder(path: string, functions: seq<string>, imports: seq<ImportEntry>, deps: seq<string>)
    ensures var ws, f, m := FileWrites(path, functions, imports, deps), |functions|, |imports|;
            |ws| == 1 + f + m + |deps|
            && ws[0] == StoreFile(path)
            && (forall i :: 0 <= i < f ==> ws[1 + i] == StoreFunction(path, functions[i]))
            && (forall i :: 0 <= i < m ==> ws[1 + f + i] == StoreImport(path, imports[i]))
            && (forall i :: 0 <= i < |deps| ==> ws[1 + f + m + i] == StoreDependency(path, deps[i]))
  {
    FunctionWritesAt(path, functions, imports, deps);
    ImportWritesAt(path, functions, imports, deps);
    DependencyWritesAt(path, functions, imports, deps);
  }

  lemma FunctionWritesAt(path: string, functions: seq<string>, imports: seq<ImportEntry>, deps: seq<string>)
    ensures var ws := FileWrites(path, functions, imports, deps);
            forall i :: 0 <= i < |functions| ==> ws[1 + i] == StoreFunction(path, functions[i])
  {
    var x := [StoreFile(path)] + FunctionWrites(path, functions);
    var y := x + ImportWrites(path, imports);
    forall i | 0 <= i < |functions| ensures FileWrites(path, functions, imports, deps)[1 + i] == StoreFunction(path, functions[i]) {
      assert y[1 + i] == x[1 + i];
    }
  }

  lemma ImportWritesAt(path: string, functions: seq<string>, imports: seq<ImportEntry>, deps: seq<string>)
    ensures var ws := FileWrites(path, functions, imports, deps);
            forall i :: 0 <= i < |imports| ==> ws[1 + |functions| + i] == StoreImport(path, imports[i])
  {
    var x := [StoreFile(path)] + FunctionWrites(path, functions);
    var y := x + ImportWrites(path, imports);
    forall i | 0 <= i < |imports| ensures FileWrites(path, functions, imports, deps)[1 + |functions| + i] == StoreImport(path, imports[i]) {
      assert y[1 + |functions| + i] == ImportWrites(path, imports)[i];
    }
  }

  lemma DependencyWritesAt(path: string, functions: seq<string>, imports: seq<ImportEntry>, deps: seq<string>)
    ensures var ws := FileWrites(path, functions, imports, deps);
            forall i :: 0 <= i < |deps| ==> ws[1 + |functions| + |imports| + i] == StoreDependency(path, deps[i])
  {
  }

  /** The writes for one parsed file: its stored path and the three lists of its nodes. */
  function ParsedFileWrites(repoPath: string, filePath: string, nodes: seq<Node>): seq<Write> {
    FileWrites(NormalizedPath(repoPath, filePath), FunctionsOf(nodes), ImportEntriesOf(nodes), DependenciesOf(nodes))
  }

  /** A file whose parse raises: it cannot be read or parsed, or it calls an attribute of
      something other than a bare name. */
  predicate TreeRaises(tree: Option<seq<Node>>) {
    tree.None? || Raises(tree.value)
  }

  /** The writes of `parse_repository` over `entries`, and whether it stopped at an exception
      (no error is caught, so the first raising ".py" file ends the walk). */
  datatype Outcome = Outcome(writes: seq<Write>, raised: bool)

  function WalkOutcome(repoPath: string, entries: seq<WalkEntry>): Outcome {
    if entries == [] then Outcome([], false)
    else
      var o := WalkOutcome(repoPath, entries[..|entries| - 1]);
      var e := entries[|entries| - 1];
      if o.raised || !RepoJson.IsPythonFile(e) then o
      else if TreeRaises(e.tree) then Outcome(o.writes, true)
      else Outcome(o.writes + ParsedFileWrites(repoPath, RepoJson.EntryPath(e), e.tree.value), false)
  }

  /** One more entry: nothing changes once the walk has raised or for a name not ending
      in ".py"; a ".py" file either raises or adds its writes. */
  lemma WalkStep(repoPath: string, entries: seq<WalkEntry>, i: nat)
    requires i < |entries|
    ensures var o, e, o' := WalkOutcome(repoPath, entries[..i]), entries[i], WalkOutcome(repoPath, entries[..i + 1]);
            ((o.raised || !RepoJson.IsPythonFile(e)) ==> o' == o)
            && (!o.raised && PyFileRaises(e) ==> o' == Outcome(o.writes, true))
            && (!o.raised && RepoJson.IsPythonFile(e) && !TreeRaises(e.tree) ==>
                  o' == Outcome(o.writes + ParsedFileWrites(repoPath, RepoJson.EntryPath(e), e.tree.value), false))
  {
    TakeStep(entries, i);
  }

  /** Once a file raises, nothing after it is parsed or written. */
  lemma {:induction false} RaisedStops(repoPath: string, entries: seq<WalkEntry>, more: seq<WalkEntry>)
    requires WalkOutcome(repoPath, entries).raised
    ensures WalkOutcome(repoPath, entries + more) == WalkOutcome(repoPath, entries)
    decreases |more|
  {
    if more != [] {
      var s := entries + more;
      RaisedStops(repoPath, entries, more[..|more| - 1]);
      DropLastOfAppend(entries, more);
      WalkStep(repoPath, s, |s| - 1);
      TakeAll(s);
    } else {
      assert entries + more == entries;
    }
  }

  /** The walk has raised after an entry exactly when it had raised before it or that entry
      is a ".py" file that raises. */
  lemma RaisedStep(repoPath: string, entries: seq<WalkEntry>)
    requires entries != []
    ensures WalkOutcome(repoPath, entries).raised
            == (WalkOutcome(repoPath, entries[..|entries| - 1]).raised || PyFileRaises(entries[|entries| - 1]))
  {
  }

  /** Whether the walk over `entries` has met a ".py" file that raises. */
  predicate Halted(entries: seq<WalkEntry>) {
    entries != [] && (Halted(entries[..|entries| - 1]) || PyFileRaises(entries[|entries| - 1]))
  }

  /** The walk's raise flag is `Halted`. */
  lemma {:induction false} RaisedIsHalted(repoPath: string, entries: seq<WalkEntry>)
    ensures WalkOutcome(repoPath, entries).raised == Halted(entries)
  {
    if entries != [] {
      RaisedStep(repoPath, entries);
      RaisedIsHalted(repoPath, entries[..|entries| - 1]);
    }
  }

  /** `Halted` holds exactly when some ".py" file raises. */
  lemma {:induction false} HaltedIff(entries: seq<WalkEntry>)
    ensures Halted(entries) <==> exists i :: 0 <= i < |entries| && PyFileRaises(entries[i])
  {
    if entries != [] {
      var init := entries[..|entries| - 1];
      HaltedIff(init);
      if exists i :: 0 <= i < |init| && PyFileRaises(init[i]) {
        var i :| 0 <= i < |init| && PyFileRaises(init[i]);
        assert entries[i] == init[i];
      }
      if exists i :: 0 <= i < |entries| && PyFileRaises(entries[i]) {
        var i :| 0 <= i < |entries| && PyFileRaises(entries[i]);
        if i < |init| {
          assert init[i] == entries[i];
        }
      }
    }
  }

  /** The walk raises at every ".py" file that raises, unless it raised before. */
  lemma RaisesComplete(repoPath: string, entries: seq<WalkEntry>, i: nat)
    requires i < |entries| && PyFileRaises(entries[i])
    ensures WalkOutcome(repoPath, entries).raised
  {
    RaisedIsHalted(repoPath, entries);
    HaltedIff(entries);
  }

  /** The walk raises only at a ".py" file that raises. */
  lemma RaisesSound(repoPath: string, entries: seq<WalkEntry>)
    requires WalkOutcome(repoPath, entries).raised
    ensures exists i :: 0 <= i < |entries| && PyFileRaises(entries[i])
  {
    RaisedIsHalted(repoPath, entries);
    HaltedIff(entries);
  }

  predicate PyFileRaises(e: WalkEntry) {
    RepoJson.IsPythonFile(e) && TreeRaises(e.tree)
  }

  /** `RepoParser`: the repository root, and the writes issued through the driver so far. */
  class RepoParser {
    const repoPath: string
    var writes: seq<Write>

    constructor(repoPath: string)
      ensures this.repoPath == repoPath && writes == []
    {
      this.repoPath := repoPath;
      writes := [];
    }

    /** `parse_file`: `raised` when reading, parsing or a `node.func.value.id` raises, and
        then nothing is written; otherwise the file's writes are issued. */
    method ParseFile(filePath: string, tree: Option<seq<Node>>) returns (raised: bool)
      modifies this`writes
      ensures raised <==> TreeRaises(tree)
      ensures raised ==> writes == old(writes)
      ensures !raised ==> writes == old(writes) + ParsedFileWrites(repoPath, filePath, tree.value)
    {
      if tree.None? {
        return true;
      }
      var nodes := tree.value;
      var path := NormalizedPath(repoPath, filePath);
      var functions, imports, dependencies := [], [], [];
      var i := 0;
      while i < |nodes|
        invariant 0 <= i <= |nodes|
        invariant writes == old(writes)
        invariant !Raises(nodes[..i])
        invariant functions == FunctionsOf(nodes[..i])
        invariant imports == ImportEntriesOf(nodes[..i])
        invariant dependencies == DependenciesOf(nodes[..i])
      {
        if RaisesAt(nodes[i]) {
          assert Raises(nodes);
          return true;
        }
        ExtractStep(nodes, i);
        NoRaiseStep(nodes, i);
        functions, imports, dependencies := VisitNode(nodes[i], functions, imports, dependencies);
        i := i + 1;
      }
      TakeAll(nodes);
      StoreInNeo4j(path, functions, imports, dependencies);
      return false;
    }

    /** One iteration of the loop over `ast.walk(tree)`, for a node that does not raise. */
    static method VisitNode(n: Node, functions: seq<string>, imports: seq<ImportEntry>, deps: seq<string>)
        returns (functions': seq<string>, imports': seq<ImportEntry>, deps': seq<string>)
      requires !RaisesAt(n)
      ensures functions' == functions + (if n.FunctionDef? then [n.name] else [])
      ensures imports' == imports + NodeImportEntries(n)
      ensures deps' == deps + NodeDependencies(n)
    {
      functions', imports', deps' := functions, imports, deps;
      match n {
        case FunctionDef(name) =>
          functions' := functions + [name];
        case Import(names) =>
          var added := AliasEntryList(names);
          imports' := imports + added;
        case ImportFrom(m, _) =>
          imports' := imports + [m];
        case Call(NameTarget(id)) =>
          deps' := deps + [id];
        case Call(AttrOfName(base, _)) =>
          deps' := deps + [base];
        case _ =>
      }
      assert functions + [] == functions && imports + [] == imports && deps + [] == deps;
    }

    /** The inner loop over `node.names` of a plain import. */
    static method AliasEntryList(names: seq<Alias>) returns (added: seq<ImportEntry>)
      ensures added == AliasEntries(names)
    {
      added := [];
      var j := 0;
      while j < |names|
        invariant 0 <= j <= |names|
        invariant added == AliasEntries(names[..j])
      {
        TakeStep(names, j);
        added := added + [Some(names[j].name)];
        j := j + 1;
      }
      TakeAll(names);
    }

    /** `store_in_neo4j`: the file node, then one write per function, import and dependency. */
    method StoreInNeo4j(path: string, functions: seq<string>, imports: seq<ImportEntry>, deps: seq<string>)
      modifies this`writes
      ensures writes == old(writes) + FileWrites(path, functions, imports, deps)
    {
      writes := writes + [StoreFile(path)];
      var base1 := writes;
      var i := 0;
      while i < |functions|
        invariant 0 <= i <= |functions|
        invariant writes == base1 + FunctionWrites(path, functions[..i])
      {
        TakeStep(functions, i);
        AppendAssoc(base1, FunctionWrites(path, functions[..i]), [StoreFunction(path, functions[i])]);
        writes := writes + [StoreFunction(path, functions[i])];
        i := i + 1;
      }
      TakeAll(functions);
      var base := writes;
      i := 0;
      while i < |imports|
        invariant 0 <= i <= |imports|
        invariant writes == base + ImportWrites(path, imports[..i])
      {
        TakeStep(imports, i);
        AppendAssoc(base, ImportWrites(path, imports[..i]), [StoreImport(path, imports[i])]);
        writes := writes + [StoreImport(path, imports[i])];
        i := i + 1;
      }
      TakeAll(imports);
      var base2 := writes;
      i := 0;
      while i < |deps|
        invariant 0 <= i <= |deps|
        invariant writes == base2 + DependencyWrites(path, deps[..i])
      {
        TakeStep(deps, i);
        AppendAssoc(base2, DependencyWrites(path, deps[..i]), [StoreDependency(path, deps[i])]);
        writes := writes + [StoreDependency(path, deps[i])];
        i := i + 1;
      }
      TakeAll(deps);
      StoreOrder(old(writes), [StoreFile(path)], FunctionWrites(path, functions), ImportWrites(path, imports), DependencyWrites(path, deps));
    }

    /** `parse_repository`: every walked name ending in ".py" is joined to its directory and
        parsed; the first file that raises ends the walk. */
    method ParseRepository(entries: seq<WalkEntry>) returns (raised: bool)
      modifies this`writes
      ensures var o := WalkOutcome(repoPath, entries);
              raised == o.raised && writes == old(writes) + o.writes
    {
      var i := 0;
      while i < |entries|
        invariant 0 <= i <= |entries|
        invariant !WalkOutcome(repoPath, entries[..i]).raised
        invariant writes == old(writes) + WalkOutcome(repoPath, entries[..i]).writes
      {
        WalkStep(repoPath, entries, i);
        var e := entries[i];
        if RepoJson.IsPythonFile(e) {
          var done := WalkOutcome(repoPath, entries[..i]).writes;
          var r := ParseFile(RepoJson.EntryPath(e), e.tree);
          if r {
            RaisedStops(repoPath, entries[..i + 1], entries[i + 1..]);
            assert entries[..i + 1] + entries[i + 1..] == entries;
            return true;
          }
          AppendAssoc(old(writes), done, ParsedFileWrites(repoPath, RepoJson.EntryPath(e), e.tree.value));
        }
        i := i + 1;
      }
      TakeAll(entries);
      return false;
    }
  }

  /** Extending a prefix that does not raise by a node that does not raise. */
  lemma NoRaiseStep(nodes: seq<Node>, i: nat)
    requires i < |nodes| && !Raises(nodes[..i]) && !RaisesAt(nodes[i])
    ensures !Raises(nodes[..i + 1])
  {
    var p := nodes[..i + 1];
    forall j | 0 <= j < i + 1 ensures !RaisesAt(p[j]) {
      if j < i {
        assert p[j] == nodes[..i][j];
      }
    }
  }

  lemma StoreOrder(w: seq<Write>, a: seq<Write>, b: seq<Write>, c: seq<Write>, d: seq<Write>)
    ensures w + a + b + c + d == w + (a + b + c + d)
  {
  }
}
