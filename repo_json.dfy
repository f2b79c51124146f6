/** What the two JSON repository parsers (`parser/parser.py` and `backend/parser/parser.py`)
    have in common: the three name lists `parse_file` collects from one file, and the
    `repo_data` document `parse_repository` fills, as functions of the walked nodes and of the
    walked files. The two parsers differ only in how they handle failures. */
module RepoJson {
  import opened Wrappers
  import opened Strings
  import opened PyAst
  import opened PyPaths
  import opened Seqs

  // ---------------------------------------------------------------- one file

  /** `name.name` for every alias of an import statement, in order. */
  function AliasNames(names: seq<Alias>): (r: seq<string>)
    ensures |r| == |names|
    ensures forall j :: 0 <= j < |names| ==> r[j] == names[j].name
  {
    if names == [] then [] else AliasNames(names[..|names| - 1]) + [names[|names| - 1].name]
  }

  /** Every `ClassDef` name, in walk order. */
  function ClassesOf(nodes: seq<Node>): seq<string> {
    if nodes == [] then []
    else
      var n := nodes[|nodes| - 1];
      ClassesOf(nodes[..|nodes| - 1]) + (if n.ClassDef? then [n.name] else [])
  }

  /** The imported name of every alias of both import forms, in walk order. */
  function ImportsOf(nodes: seq<Node>): seq<string> {
    if nodes == [] then []
    else
      var n := nodes[|nodes| - 1];
      ImportsOf(nodes[..|nodes| - 1]) + (if n.Import? || n.ImportFrom? then AliasNames(n.names) else [])
  }

  /** The triple `parse_file` returns: `(functions, classes, imports)`. */
  datatype FileFacts = FileFacts(functions: seq<string>, classes: seq<string>, imports: seq<string>)

  const NoFacts := FileFacts([], [], [])

  function FactsOf(nodes: seq<Node>): FileFacts {
    FileFacts(FunctionsOf(nodes), ClassesOf(nodes), ImportsOf(nodes))
  }

  /** One more node extends exactly the list its kind belongs to. */
  lemma WalkStep(nodes: seq<Node>, i: nat)
    requires i < |nodes|
    ensures nodes[i].FunctionDef? ==> FunctionsOf(nodes[..i + 1]) == FunctionsOf(nodes[..i]) + [nodes[i].name]
    ensures !nodes[i].FunctionDef? ==> FunctionsOf(nodes[..i + 1]) == FunctionsOf(nodes[..i])
    ensures nodes[i].ClassDef? ==> ClassesOf(nodes[..i + 1]) == ClassesOf(nodes[..i]) + [nodes[i].name]
    ensures !nodes[i].ClassDef? ==> ClassesOf(nodes[..i + 1]) == ClassesOf(nodes[..i])
    ensures nodes[i].Import? || nodes[i].ImportFrom? ==> ImportsOf(nodes[..i + 1]) == ImportsOf(nodes[..i]) + AliasNames(nodes[i].names)
    ensures !nodes[i].Import? && !nodes[i].ImportFrom? ==> ImportsOf(nodes[..i + 1]) == ImportsOf(nodes[..i])
  {
    TakeStep(nodes, i);
    var f, c, m := FunctionsOf(nodes[..i]), ClassesOf(nodes[..i]), ImportsOf(nodes[..i]);
    assert f + [] == f && c + [] == c && m + [] == m;
  }

  /** The classes listed are exactly the names of the file's `ClassDef` nodes. */
  lemma {:induction false} ClassesOfMembers(nodes: seq<Node>)
    ensures forall c :: c in ClassesOf(nodes) <==> ClassDef(c) in nodes
  {
    if nodes != [] {
      var init, last := nodes[..|nodes| - 1], nodes[|nodes| - 1];
      ClassesOfMembers(init);
      assert nodes == init + [last];
    }
  }

  /** `n` is an import statement, of either form, one of whose aliases imports `x`. */
  predicate ImportsName(n: Node, x: string) {
    (n.Import? || n.ImportFrom?) && x in AliasNames(n.names)
  }

  /** Every name an import statement of the file imports is listed. */
  lemma {:induction false} ImportsComplete(nodes: seq<Node>, k: nat, x: string)
    requires k < |nodes| && ImportsName(nodes[k], x)
    ensures x in ImportsOf(nodes)
  {
    var init := nodes[..|nodes| - 1];
    if k < |init| {
      ImportsComplete(init, k, x);
      assert init[k] == nodes[k];
    }
  }

  /** Every listed import comes from an import statement of the file. */
  lemma {:induction false} ImportsSound(nodes: seq<Node>, x: string)
    requires x in ImportsOf(nodes)
    ensures exists k :: 0 <= k < |nodes| && ImportsName(nodes[k], x)
  {
    var init := nodes[..|nodes| - 1];
    if x in ImportsOf(init) {
      ImportsSound(init, x);
      var k :| 0 <= k < |init| && ImportsName(init[k], x);
      assert nodes[k] == init[k];
    } else {
      assert ImportsName(nodes[|nodes| - 1], x);
    }
  }

  /** Only `name.name` is collected: a from-import contributes the same names as a plain
      import of the same aliases, whatever its source module and `as` names. */
  lemma ImportFormsAgree(m: Option<string>, names: seq<Alias>)
    ensures ImportsOf([ImportFrom(m, names)]) == ImportsOf([Import(names)]) == AliasNames(names)
  {
    assert [ImportFrom(m, names)][..0] == [];
    assert [Import(names)][..0] == [];
  }

  /** The loop of `parse_file` over `ast.walk(tree)`, shared by both parsers: a function
      definition goes to `functions`, a class definition to `classes`, and each alias of
      either import form to `imports`. */
  method WalkNodes(nodes: seq<Node>) returns (facts: FileFacts)
    ensures facts == FactsOf(nodes)
  {
    var functions, classes, imports := [], [], [];
    var i := 0;
    while i < |nodes|
      invariant 0 <= i <= |nodes|
      invariant functions == FunctionsOf(nodes[..i])
      invariant classes == ClassesOf(nodes[..i])
      invariant imports == ImportsOf(nodes[..i])
    {
      WalkStep(nodes, i);
      match nodes[i] {
        case FunctionDef(name) =>
          functions := functions + [name];
        case ClassDef(name) =>
          classes := classes + [name];
        case Import(names) =>
          var added := AliasNameList(names);
          imports := imports + added;
        case ImportFrom(_, names) =>
          var added := AliasNameList(names);
          imports := imports + added;
        case _ =>
      }
      i := i + 1;
    }
    TakeAll(nodes);
    facts := FileFacts(functions, classes, imports);
  }

  /** The inner loop over `node.names`. */
  method AliasNameList(names: seq<Alias>) returns (added: seq<string>)
    ensures added == AliasNames(names)
  {
    added := [];
    var j := 0;
    while j < |names|
      invariant 0 <= j <= |names|
      invariant added == AliasNames(names[..j])
    {
      TakeStep(names, j);
      added := added + [names[j].name];
      j := j + 1;
    }
    TakeAll(names);
  }

  // ---------------------------------------------------------------- the repository document

  /** The `repo_data` dictionary: the four top-level keys `files`, `functions`, `classes`
      and `imports`, the last three keyed by file path. */
  datatype RepoData = RepoData(files: seq<string>, functions: map<string, seq<string>>,
                               classes: map<string, seq<string>>, imports: map<string, seq<string>>)

  const EmptyRepo := RepoData([], map[], map[], map[])

  predicate IsPythonFile(e: WalkEntry) {
    EndsWith(e.fileName, ".py")
  }

  function EntryPath(e: WalkEntry): string {
    JoinPath(e.root, e.fileName)
  }

  /** The facts stored for a file, where a file that failed to read or parse has none. */
  function ParsedFacts(tree: Option<seq<Node>>): FileFacts {
    match tree
    case None => NoFacts
    case Some(nodes) => FactsOf(nodes)
  }

  /** Appending `path` to `files` and setting its entry in the three maps. */
  function Store(d: RepoData, path: string, facts: FileFacts): RepoData {
    RepoData(d.files + [path], d.functions[path := facts.functions],
             d.classes[path := facts.classes], d.imports[path := facts.imports])
  }

  /** The document after visiting `entries` in order, skipping every name not ending in ".py". */
  function Collect(entries: seq<WalkEntry>): RepoData {
    if entries == [] then EmptyRepo
    else
      var last := entries[|entries| - 1];
      var d := Collect(entries[..|entries| - 1]);
      if IsPythonFile(last) then Store(d, EntryPath(last), ParsedFacts(last.tree)) else d
  }

  /** A file's entries in the three maps, read together. */
  function FactsAt(d: RepoData, path: string): FileFacts
    requires path in d.functions && path in d.classes && path in d.imports
  {
    FileFacts(d.functions[path], d.classes[path], d.imports[path])
  }

  lemma CollectStep(entries: seq<WalkEntry>, i: nat)
    requires i < |entries|
    ensures IsPythonFile(entries[i]) ==> Collect(entries[..i + 1]) == Store(Collect(entries[..i]), EntryPath(entries[i]), ParsedFacts(entries[i].tree))
    ensures !IsPythonFile(entries[i]) ==> Collect(entries[..i + 1]) == Collect(entries[..i])
  {
    TakeStep(entries, i);
  }

  /** Visiting one more entry, stated on the whole sequence. */
  lemma CollectLast(entries: seq<WalkEntry>)
    requires entries != []
    ensures var init, last := entries[..|entries| - 1], entries[|entries| - 1];
            (IsPythonFile(last) ==> Collect(entries) == Store(Collect(init), EntryPath(last), ParsedFacts(last.tree)))
            && (!IsPythonFile(last) ==> Collect(entries) == Collect(init))
  {
  }

  /** The three maps each have exactly the paths in `files` as keys. */
  lemma {:induction false} KeysAreFiles(entries: seq<WalkEntry>)
    ensures var d := Collect(entries);
            forall p :: (p in d.functions <==> p in d.files) && (p in d.classes <==> p in d.files)
                        && (p in d.imports <==> p in d.files)
  {
    if entries != [] {
      var init, last := entries[..|entries| - 1], entries[|entries| - 1];
      KeysAreFiles(init);
      CollectLast(entries);
      if IsPythonFile(last) {
        var files := Collect(init).files;
        assert forall p :: p in files + [EntryPath(last)] <==> p in files || p == EntryPath(last);
      }
    }
  }

  /** At most one path per visited entry. */
  lemma {:induction false} FilesCount(entries: seq<WalkEntry>)
    ensures |Collect(entries).files| <= |entries|
  {
    if entries != [] {
      FilesCount(entries[..|entries| - 1]);
      CollectLast(entries);
    }
  }

  /** Every listed path ends in ".py". */
  lemma {:induction false} FilesEndInPy(entries: seq<WalkEntry>)
    ensures var files := Collect(entries).files;
            forall i :: 0 <= i < |files| ==> EndsWith(files[i], ".py")
  {
    if entries != [] {
      var init, last := entries[..|entries| - 1], entries[|entries| - 1];
      FilesEndInPy(init);
      CollectLast(entries);
      if IsPythonFile(last) {
        EndsWithTrans(EntryPath(last), last.fileName, ".py");
      }
    }
  }

  /** `files` lists the path of every visited entry whose name ends in ".py". */
  lemma {:induction false} FilesComplete(entries: seq<WalkEntry>, i: nat)
    requires i < |entries| && IsPythonFile(entries[i])
    ensures EntryPath(entries[i]) in Collect(entries).files
  {
    var init := entries[..|entries| - 1];
    CollectLast(entries);
    if i < |init| {
      FilesComplete(init, i);
      assert init[i] == entries[i];
    }
  }

  /** Every listed path is the path of a visited entry whose name ends in ".py". */
  lemma {:induction false} FilesSound(entries: seq<WalkEntry>, p: string)
    requires p in Collect(entries).files
    ensures exists i :: 0 <= i < |entries| && IsPythonFile(entries[i]) && EntryPath(entries[i]) == p
  {
    var init, last := entries[..|entries| - 1], entries[|entries| - 1];
    CollectLast(entries);
    if p in Collect(init).files {
      FilesSound(init, p);
      var i :| 0 <= i < |init| && IsPythonFile(init[i]) && EntryPath(init[i]) == p;
      assert entries[i] == init[i];
    } else {
      assert IsPythonFile(entries[|entries| - 1]) && EntryPath(entries[|entries| - 1]) == p;
    }
  }

  /** A file's stored lists are what its last visit parsed; a file that failed to read or
      parse is still listed, with three empty lists. */
  lemma {:induction false} LastVisitWins(entries: seq<WalkEntry>, i: nat)
    requires i < |entries| && IsPythonFile(entries[i])
    requires forall j :: i < j < |entries| && IsPythonFile(entries[j]) ==> EntryPath(entries[j]) != EntryPath(entries[i])
    ensures var d, p := Collect(entries), EntryPath(entries[i]);
            p in d.functions && p in d.classes && p in d.imports
            && FactsAt(d, p) == ParsedFacts(entries[i].tree)
            && (entries[i].tree.None? ==> FactsAt(d, p) == NoFacts)
  {
    if i < |entries| - 1 {
      LastVisitWins(entries[..|entries| - 1], i);
    }
  }
}
