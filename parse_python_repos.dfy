/** The repository parser of backend/parse_python_repos.py: a `GitHubRepoParser` that
    clones a remote repository (or takes a local folder), walks every ".py" file, and
    collects one CSV row per import alias, function definition and bare-name call. Unlike
    the parser of backend/_parse_and_classify_python.py it keeps no lookup tables: every
    file is read on its own. */
module ParsePythonRepos {
  import opened Wrappers
  import opened Strings
  import opened PyAst
  import opened PyPaths
  import opened Seqs

  // ---------------------------------------------------------------- rows

  datatype RowType = ImportRow | DefinitionRow | CallRow

  /** The `Type` column. */
  function Label(t: RowType): string {
    match t
    case ImportRow => "Import"
    case DefinitionRow => "Definition"
    case CallRow => "Call"
  }

  /** The order in which `_parse_file` appends the three kinds of rows of one file. */
  function Rank(t: RowType): nat {
    match t
    case ImportRow => 0
    case DefinitionRow => 1
    case CallRow => 2
  }

  /** One entry of `results`: Type, Module, Alias, Function, File. Only an Import row can
      have a missing alias (`name.asname` of `import x` without `as`). */
  datatype Row = Row(rowType: RowType, moduleName: string, alias: Option<string>,
                     functionName: string, file: string)

  const Header: seq<string> := ["Type", "Module", "Alias", "Function", "File"]

  /** The cells `csv.writer` writes for a row; Python's None is written as an empty cell. */
  function Cells(r: Row): (cells: seq<string>)
    ensures |cells| == |Header|
    ensures cells[0] == Label(r.rowType) && cells[4] == r.file
    ensures cells[2] == "" <==> r.alias.None? || r.alias == Some("")
  {
    [Label(r.rowType), r.moduleName, r.alias.GetOr(""), r.functionName, r.file]
  }

  // ---------------------------------------------------------------- source and repo name

  /** `source.startswith("https")`: anything else, "http://" URLs included, is a local folder. */
  predicate IsClonedSource(source: string) {
    StartsWith(source, "https")
  }

  /** `source.split("/")[-1].replace(".git", "")`. */
  function UrlRepoName(source: string): (name: string)
    ensures '/' !in name
  {
    ReplaceAll(LastPiece(source, '/'), ".git", "")
  }

  function RepoNameOf(source: string): string {
    if IsClonedSource(source) then UrlRepoName(source) else PathName(source)
  }

  /** The last segment of a URL, without a ".git" suffix, is the repository name. */
  lemma UrlRepoNameOfUrl(base: string, name: string)
    requires '/' !in name && !Contains(name, ".git")
    ensures UrlRepoName(base + "/" + name) == name
    ensures UrlRepoName(base + "/" + name + ".git") == name
  {
    SplitLast(base, '/', name);
    assert base + "/" + name == base + ['/'] + name;
    ReplaceAbsent(name, ".git", "");
    SplitLast(base, '/', name + ".git");
    assert base + "/" + name + ".git" == base + ['/'] + (name + ".git");
    GitSuffixRemoved(name, ".git");
  }

  /** No trailing "/" is stripped before splitting: a URL ending in "/" names the empty
      repository, so the clone target is the clone directory itself. */
  lemma TrailingSlashNamesNothing(source: string)
    ensures UrlRepoName(source + "/") == ""
  {
    SplitLast(source, '/', "");
    assert source + "/" + "" == source + "/";
  }

  /** "backend/raw/github_<name>_<MMDDYY>_repoai_extract.csv" for a cloned repository,
      "backend/raw/folder_upload_<name>_<MMDDYY>_repoai_extract.csv" for a local folder. */
  function OutputFileName(isCloned: bool, repoName: string, timestamp: string): string {
    (if isCloned then "backend/raw/github_" else "backend/raw/folder_upload_")
    + repoName + "_" + timestamp + "_repoai_extract.csv"
  }

  /** A cloned repository and a local folder never write to the same file. */
  lemma OutputFileNamesSeparateModes(a: string, ta: string, b: string, tb: string)
    ensures OutputFileName(true, a, ta) != OutputFileName(false, b, tb)
  {
    assert OutputFileName(true, a, ta)[12] == 'g';
    assert OutputFileName(false, b, tb)[12] == 'f';
  }

  /** On the same day and in the same mode, two runs write the same file exactly when the
      repository names agree: a later run of the same repository overwrites the earlier CSV. */
  lemma OutputFileNameDeterminesRepo(isCloned: bool, a: string, b: string, timestamp: string)
    ensures OutputFileName(isCloned, a, timestamp) == OutputFileName(isCloned, b, timestamp) <==> a == b
  {
    var p: string := if isCloned then "backend/raw/github_" else "backend/raw/folder_upload_";
    var fa := OutputFileName(isCloned, a, timestamp);
    var fb := OutputFileName(isCloned, b, timestamp);
    if fa == fb {
      assert |a| == |b|;
      assert fa[|p|..|p| + |a|] == a;
      assert fb[|p|..|p| + |b|] == b;
    }
  }

  // ---------------------------------------------------------------- what one file yields

  /** One element of the `imports` list: `{"module": ..., "alias": ...}`. */
  datatype ImportInfo = ImportInfo(moduleName: string, alias: Option<string>)

  /** The imports one node contributes: for `import a as b` the module is the imported name
      and the alias its `as` name; for `from m import f` the module is m (or "") and the
      "alias" is the imported name. */
  function NodeImports(n: Node): (r: seq<ImportInfo>)
    ensures n.Import? ==> r == PlainImports(n.names)
    ensures n.ImportFrom? ==> r == FromImports(ModuleOrEmpty(n.fromModule), n.names)
    ensures !n.Import? && !n.ImportFrom? ==> r == []
  {
    match n
    case Import(names) => PlainImports(names)
    case ImportFrom(m, names) => FromImports(ModuleOrEmpty(m), names)
    case _ => []
  }

  function PlainImports(names: seq<Alias>): (r: seq<ImportInfo>)
    ensures |r| == |names|
    ensures forall i :: 0 <= i < |r| ==> r[i] == ImportInfo(names[i].name, names[i].asname)
  {
    if names == [] then []
    else PlainImports(names[..|names| - 1]) + [ImportInfo(names[|names| - 1].name, names[|names| - 1].asname)]
  }

  function FromImports(moduleName: string, names: seq<Alias>): (r: seq<ImportInfo>)
    ensures |r| == |names|
    ensures forall i :: 0 <= i < |r| ==> r[i] == ImportInfo(moduleName, Some(names[i].name))
  {
    if names == [] then []
    else FromImports(moduleName, names[..|names| - 1]) + [ImportInfo(moduleName, Some(names[|names| - 1].name))]
  }

  /** The `imports` list of `_extract_ast_data`, in walk order. */
  function ImportsOf(nodes: seq<Node>): seq<ImportInfo> {
    if nodes == [] then [] else ImportsOf(nodes[..|nodes| - 1]) + NodeImports(nodes[|nodes| - 1])
  }

  /** The `calls` list: the callee name of every call of a bare name, in walk order; calls of
      attributes (`m.f()`) and of other expressions give nothing. */
  function CallsOf(nodes: seq<Node>): seq<string> {
    if nodes == [] then []
    else
      var n := nodes[|nodes| - 1];
      CallsOf(nodes[..|nodes| - 1]) + (if n.Call? && n.func.NameTarget? then [n.func.id] else [])
  }

  /** One more node extends each of the three lists by what that node contributes, and
      leaves the lists it contributes nothing to as they were. */
  lemma ExtractStep(nodes: seq<Node>, i: nat)
    requires i < |nodes|
    ensures nodes[i].Import? ==> ImportsOf(nodes[..i + 1]) == ImportsOf(nodes[..i]) + PlainImports(nodes[i].names)
    ensures nodes[i].ImportFrom? ==> ImportsOf(nodes[..i + 1]) == ImportsOf(nodes[..i]) + FromImports(ModuleOrEmpty(nodes[i].fromModule), nodes[i].names)
    ensures !nodes[i].Import? && !nodes[i].ImportFrom? ==> ImportsOf(nodes[..i + 1]) == ImportsOf(nodes[..i])
    ensures nodes[i].FunctionDef? ==> FunctionsOf(nodes[..i + 1]) == FunctionsOf(nodes[..i]) + [nodes[i].name]
    ensures !nodes[i].FunctionDef? ==> FunctionsOf(nodes[..i + 1]) == FunctionsOf(nodes[..i])
    ensures nodes[i].Call? && nodes[i].func.NameTarget? ==> CallsOf(nodes[..i + 1]) == CallsOf(nodes[..i]) + [nodes[i].func.id]
    ensures !(nodes[i].Call? && nodes[i].func.NameTarget?) ==> CallsOf(nodes[..i + 1]) == CallsOf(nodes[..i])
  {
    TakeStep(nodes, i);
    var a, f, c := ImportsOf(nodes[..i]), FunctionsOf(nodes[..i]), CallsOf(nodes[..i]);
    assert a + [] == a && f + [] == f && c + [] == c;
  }

  /** The calls listed are exactly the callee names of the file's calls of a bare name. */
  lemma {:induction false} CallsOfMembers(nodes: seq<Node>)
    ensures forall c :: c in CallsOf(nodes) <==> Call(NameTarget(c)) in nodes
  {
    if nodes != [] {
      var init, last := nodes[..|nodes| - 1], nodes[|nodes| - 1];
      CallsOfMembers(init);
      assert nodes == init + [last];
    }
  }

  /** Every alias of every import node in the file appears among the imports. */
  lemma {:induction false} ImportsComplete(nodes: seq<Node>, k: nat, i: nat)
    requires k < |nodes| && (nodes[k].Import? || nodes[k].ImportFrom?) && i < |nodes[k].names|
    ensures NodeImports(nodes[k])[i] in ImportsOf(nodes)
  {
    if k < |nodes| - 1 {
      ImportsComplete(nodes[..|nodes| - 1], k, i);
    }
  }

  /** Every import entry comes from an alias of an import node of the file. */
  lemma {:induction false} ImportsSound(nodes: seq<Node>, x: ImportInfo)
    requires x in ImportsOf(nodes)
    ensures exists k :: 0 <= k < |nodes| && x in NodeImports(nodes[k])
  {
    var init := nodes[..|nodes| - 1];
    if x in ImportsOf(init) {
      ImportsSound(init, x);
      var k :| 0 <= k < |init| && x in NodeImports(init[k]);
      assert nodes[k] == init[k];
    } else {
      assert x in NodeImports(nodes[|nodes| - 1]);
    }
  }

  function ImportRows(imports: seq<ImportInfo>, path: string): (rs: seq<Row>)
    ensures |rs| == |imports|
    ensures forall i :: 0 <= i < |imports| ==> rs[i] == Row(ImportRow, imports[i].moduleName, imports[i].alias, "", path)
  {
    if imports == [] then []
    else
      var x := imports[|imports| - 1];
      ImportRows(imports[..|imports| - 1], path) + [Row(ImportRow, x.moduleName, x.alias, "", path)]
  }

  function DefinitionRows(functions: seq<string>, path: string): (rs: seq<Row>)
    ensures |rs| == |functions|
    ensures forall i :: 0 <= i < |functions| ==> rs[i] == Row(DefinitionRow, "", Some(""), functions[i], path)
  {
    if functions == [] then []
    else DefinitionRows(functions[..|functions| - 1], path) + [Row(DefinitionRow, "", Some(""), functions[|functions| - 1], path)]
  }

  function CallRows(calls: seq<string>, path: string): (rs: seq<Row>)
    ensures |rs| == |calls|
    ensures forall i :: 0 <= i < |calls| ==> rs[i] == Row(CallRow, "", Some(""), calls[i], path)
  {
    if calls == [] then []
    else CallRows(calls[..|calls| - 1], path) + [Row(CallRow, "", Some(""), calls[|calls| - 1], path)]
  }

  /** The rows `_parse_file` appends for one file: none when reading or parsing failed,
      otherwise its imports, then its definitions, then its calls. */
  function FileRows(file: SourceFile): seq<Row> {
    match file.tree
    case None => []
    case Some(nodes) =>
      ImportRows(ImportsOf(nodes), file.path) + DefinitionRows(FunctionsOf(nodes), file.path)
      + CallRows(CallsOf(nodes), file.path)
  }

  /** The rows of a whole scan over the files `rglob("*.py")` yields, in that order. */
  function ScanRows(files: seq<SourceFile>): seq<Row> {
    if files == [] then [] else ScanRows(files[..|files| - 1]) + FileRows(files[|files| - 1])
  }

  /** Every row of a file is stamped with the file's path and carries the empty strings the
      code writes in the columns its kind does not use; Import rows come first, then
      Definition rows, then Call rows. */
  lemma FileRowsShape(file: SourceFile)
    ensures var rs := FileRows(file);
            (forall r :: r in rs ==> r.file == file.path)
            && (forall r :: r in rs && r.rowType == ImportRow ==> r.functionName == "")
            && (forall r :: r in rs && r.rowType != ImportRow ==> r.moduleName == "" && r.alias == Some(""))
            && Grouped(rs)
  {
    if file.tree.Some? {
      var nodes, p := file.tree.value, file.path;
      var a, b, c := ImportRows(ImportsOf(nodes), p), DefinitionRows(FunctionsOf(nodes), p), CallRows(CallsOf(nodes), p);
      assert FileRows(file) == a + b + c;
      ThreeGroups(a, b, c);
    }
  }

  /** Row kinds never decrease in rank along `rs`. */
  predicate Grouped(rs: seq<Row>) {
    forall i, j :: 0 <= i < j < |rs| ==> Rank(rs[i].rowType) <= Rank(rs[j].rowType)
  }

  lemma ThreeGroups(a: seq<Row>, b: seq<Row>, c: seq<Row>)
    requires forall r :: r in a ==> r.rowType == ImportRow
    requires forall r :: r in b ==> r.rowType == DefinitionRow
    requires forall r :: r in c ==> r.rowType == CallRow
    ensures Grouped(a + b + c)
  {
    var rs := a + b + c;
    forall i | 0 <= i < |rs| ensures Rank(rs[i].rowType) == (if i < |a| then 0 else if i < |a| + |b| then 1 else 2) {
      if i < |a| {
        assert rs[i] == a[i];
      } else if i < |a| + |b| {
        assert rs[i] == b[i - |a|];
      } else {
        assert rs[i] == c[i - |a| - |b|];
      }
    }
  }

  /** A parsed file yields one Import row per imported alias, one Definition row per
      definition and one Call row per call of a bare name — and no other rows. */
  lemma FileRowsCount(path: string, nodes: seq<Node>)
    ensures var rs := FileRows(SourceFile(path, Some(nodes)));
            |rs| == |ImportsOf(nodes)| + |FunctionsOf(nodes)| + |CallsOf(nodes)|
            && (forall f :: Row(DefinitionRow, "", Some(""), f, path) in rs <==> FunctionDef(f) in nodes)
            && (forall c :: Row(CallRow, "", Some(""), c, path) in rs <==> Call(NameTarget(c)) in nodes)
  {
    var a, b, c := ImportRows(ImportsOf(nodes), path), DefinitionRows(FunctionsOf(nodes), path), CallRows(CallsOf(nodes), path);
    var rs := a + b + c;
    assert FileRows(SourceFile(path, Some(nodes))) == rs;
    FunctionsOfMembers(nodes);
    CallsOfMembers(nodes);
    forall f ensures Row(DefinitionRow, "", Some(""), f, path) in rs <==> f in FunctionsOf(nodes) {
      DefinitionRowsMembers(FunctionsOf(nodes), path, f);
      assert Row(DefinitionRow, "", Some(""), f, path) !in a;
      assert Row(DefinitionRow, "", Some(""), f, path) !in c;
    }
    forall x ensures Row(CallRow, "", Some(""), x, path) in rs <==> x in CallsOf(nodes) {
      CallRowsMembers(CallsOf(nodes), path, x);
      assert Row(CallRow, "", Some(""), x, path) !in a;
      assert Row(CallRow, "", Some(""), x, path) !in b;
    }
  }

  lemma DefinitionRowsMembers(functions: seq<string>, path: string, f: string)
    ensures Row(DefinitionRow, "", Some(""), f, path) in DefinitionRows(functions, path) <==> f in functions
  {
    var rs := DefinitionRows(functions, path);
    if f in functions {
      var k :| 0 <= k < |functions| && functions[k] == f;
      assert rs[k] == Row(DefinitionRow, "", Some(""), f, path);
    }
  }

  lemma CallRowsMembers(calls: seq<string>, path: string, x: string)
    ensures Row(CallRow, "", Some(""), x, path) in CallRows(calls, path) <==> x in calls
  {
    var rs := CallRows(calls, path);
    if x in calls {
      var k :| 0 <= k < |calls| && calls[k] == x;
      assert rs[k] == Row(CallRow, "", Some(""), x, path);
    }
  }

  lemma ScanRowsUnfold(files: seq<SourceFile>)
    requires files != []
    ensures ScanRows(files) == ScanRows(files[..|files| - 1]) + FileRows(files[|files| - 1])
  {
  }

  /** The rows of a scan are those of each file in turn: a failing file adds none and does
      not disturb the rows of the others. */
  lemma {:induction false} ScanRowsConcat(a: seq<SourceFile>, b: seq<SourceFile>)
    ensures ScanRows(a + b) == ScanRows(a) + ScanRows(b)
    decreases |b|
  {
    if b == [] {
      assert a + b == a;
    } else {
      var init, last := b[..|b| - 1], b[|b| - 1];
      ScanRowsConcat(a, init);
      DropLastOfAppend(a, b);
      ScanRowsUnfold(a + b);
      ScanRowsUnfold(b);
      AppendAssoc(ScanRows(a), ScanRows(init), FileRows(last));
    }
  }

  lemma FailedFileAddsNothing(files: seq<SourceFile>, path: string)
    ensures ScanRows(files + [SourceFile(path, None)]) == ScanRows(files)
  {
    DropLastOfSnoc(files, SourceFile(path, None));
    ScanRowsUnfold(files + [SourceFile(path, None)]);
  }

  // ---------------------------------------------------------------- the parser object

  class GitHubRepoParser {
    const source: string
    const isClonedRepo: bool
    const repoName: string
    var results: seq<Row>

    constructor (source: string)
      ensures this.source == source
      ensures isClonedRepo == IsClonedSource(source) && repoName == RepoNameOf(source)
      ensures results == []
    {
      this.source := source;
      isClonedRepo := IsClonedSource(source);
      repoName := RepoNameOf(source);
      results := [];
    }

    /** `clone_repo`: only a remote source whose target directory is missing is cloned.
        `pathExists` says whether the directory exists and `cloneSucceeds` how `git clone`
        ends; a failing clone raises (`check=True`), returned here as `raised`. */
    method CloneRepo(pathExists: bool, cloneSucceeds: bool) returns (cloned: bool, raised: bool)
      ensures cloned <==> isClonedRepo && !pathExists
      ensures raised <==> cloned && !cloneSucceeds
    {
      cloned, raised := false, false;
      if isClonedRepo {
        if !pathExists {
          cloned := true;
          raised := !cloneSucceeds;
        }
      }
    }

    /** `_extract_ast_data`: one pass over the walked nodes collecting the three lists. */
    method ExtractAstData(nodes: seq<Node>) returns (imports: seq<ImportInfo>, functions: seq<string>, calls: seq<string>)
      ensures imports == ImportsOf(nodes) && functions == FunctionsOf(nodes) && calls == CallsOf(nodes)
    {
      imports, functions, calls := [], [], [];
      var i := 0;
      while i < |nodes|
        invariant 0 <= i <= |nodes|
        invariant imports == ImportsOf(nodes[..i])
        invariant functions == FunctionsOf(nodes[..i]) && calls == CallsOf(nodes[..i])
      {
        ExtractStep(nodes, i);
        match nodes[i] {
          case Import(names) =>
            var added := PlainImportEntries(names);
            imports := imports + added;
          case ImportFrom(m, names) =>
            var moduleName := if m.Some? && m.value != "" then m.value else "";
            var added := FromImportEntries(moduleName, names);
            imports := imports + added;
          case FunctionDef(name) =>
            functions := functions + [name];
          case Call(target) =>
            if target.NameTarget? {
              calls := calls + [target.id];
            }
          case _ =>
        }
        i := i + 1;
      }
      assert nodes[..i] == nodes;
    }

    /** The loop over `node.names` of `import a as b, ...`: module and `as` name per alias. */
    method PlainImportEntries(names: seq<Alias>) returns (added: seq<ImportInfo>)
      ensures added == PlainImports(names)
    {
      added := [];
      var j := 0;
      while j < |names|
        invariant 0 <= j <= |names|
        invariant added == PlainImports(names[..j])
      {
        TakeStep(names, j);
        added := added + [ImportInfo(names[j].name, names[j].asname)];
        j := j + 1;
      }
      TakeAll(names);
    }

    /** The loop over `node.names` of `from m import a, ...`: the source module and the name. */
    method FromImportEntries(moduleName: string, names: seq<Alias>) returns (added: seq<ImportInfo>)
      ensures added == FromImports(moduleName, names)
    {
      added := [];
      var j := 0;
      while j < |names|
        invariant 0 <= j <= |names|
        invariant added == FromImports(moduleName, names[..j])
      {
        TakeStep(names, j);
        added := added + [ImportInfo(moduleName, Some(names[j].name))];
        j := j + 1;
      }
      TakeAll(names);
    }

    /** `_parse_file`: a file that fails to read or parse is logged and skipped; otherwise
        its import, definition and call rows are appended to `results`. */
    method ParseFile(file: SourceFile)
      modifies this`results
      ensures results == old(results) + FileRows(file)
    {
      if file.tree.None? {
        return;
      }
      var imports, functions, calls := ExtractAstData(file.tree.value);
      var path := file.path;
      var k := 0;
      while k < |imports|
        invariant 0 <= k <= |imports|
        invariant results == old(results) + ImportRows(imports[..k], path)
      {
        var row := Row(ImportRow, imports[k].moduleName, imports[k].alias, "", path);
        TakeStep(imports, k);
        assert ImportRows(imports[..k + 1], path) == ImportRows(imports[..k], path) + [row];
        AppendAssoc(old(results), ImportRows(imports[..k], path), [row]);
        results := results + [row];
        k := k + 1;
      }
      assert imports[..k] == imports;
      ghost var afterImports := results;
      k := 0;
      while k < |functions|
        invariant 0 <= k <= |functions|
        invariant results == afterImports + DefinitionRows(functions[..k], path)
      {
        var row := Row(DefinitionRow, "", Some(""), functions[k], path);
        TakeStep(functions, k);
        assert DefinitionRows(functions[..k + 1], path) == DefinitionRows(functions[..k], path) + [row];
        AppendAssoc(afterImports, DefinitionRows(functions[..k], path), [row]);
        results := results + [row];
        k := k + 1;
      }
      assert functions[..k] == functions;
      ghost var afterDefinitions := results;
      k := 0;
      while k < |calls|
        invariant 0 <= k <= |calls|
        invariant results == afterDefinitions + CallRows(calls[..k], path)
      {
        var row := Row(CallRow, "", Some(""), calls[k], path);
        TakeStep(calls, k);
        assert CallRows(calls[..k + 1], path) == CallRows(calls[..k], path) + [row];
        AppendAssoc(afterDefinitions, CallRows(calls[..k], path), [row]);
        results := results + [row];
        k := k + 1;
      }
      assert calls[..k] == calls;
      AppendAssoc(old(results), ImportRows(imports, path), DefinitionRows(functions, path));
      AppendAssoc(old(results), ImportRows(imports, path) + DefinitionRows(functions, path), CallRows(calls, path));
    }

    /** `parse_python_files`: every file `rglob("*.py")` yields, in that order. */
    method ParsePythonFiles(files: seq<SourceFile>)
      modifies this`results
      ensures results == old(results) + ScanRows(files)
    {
      var i := 0;
      while i < |files|
        invariant 0 <= i <= |files|
        invariant results == old(results) + ScanRows(files[..i])
      {
        TakeStep(files, i);
        ScanRowsUnfold(files[..i + 1]);
        AppendAssoc(old(results), ScanRows(files[..i]), FileRows(files[i]));
        ParseFile(files[i]);
        i := i + 1;
      }
      assert files[..i] == files;
    }

    /** `save_results_to_csv`: the file name for the given MMDDYY `timestamp`, and the
        table written to it — the header, then one line per row of `results`. An empty
        `results` still writes the header. */
    method SaveResultsToCsv(timestamp: string) returns (path: string, table: seq<seq<string>>)
      ensures path == OutputFileName(isClonedRepo, repoName, timestamp)
      ensures |table| == |results| + 1 && table[0] == Header
      ensures forall i :: 0 <= i < |results| ==> table[i + 1] == Cells(results[i])
    {
      path := OutputFileName(isClonedRepo, repoName, timestamp);
      table := [Header];
      var i := 0;
      while i < |results|
        invariant 0 <= i <= |results|
        invariant |table| == i + 1 && table[0] == Header
        invariant forall k :: 0 <= k < i ==> table[k + 1] == Cells(results[k])
      {
        table := table + [Cells(results[i])];
        i := i + 1;
      }
    }

    /** `run`: clone if needed, parse, save. A failing clone raises before anything is
        parsed or written (None); otherwise the result is the CSV path and its table. */
    method Run(pathExists: bool, cloneSucceeds: bool, files: seq<SourceFile>, timestamp: string)
      returns (written: Option<(string, seq<seq<string>>)>)
      modifies this`results
      ensures var raised := isClonedRepo && !pathExists && !cloneSucceeds;
              if raised then written == None && results == old(results)
              else results == old(results) + ScanRows(files)
                   && written.Some? && written.value.0 == OutputFileName(isClonedRepo, repoName, timestamp)
                   && |written.value.1| == |results| + 1 && written.value.1[0] == Header
                   && forall i :: 0 <= i < |results| ==> written.value.1[i + 1] == Cells(results[i])
    {
      var _, raised := CloneRepo(pathExists, cloneSucceeds);
      if raised {
        return None;
      }
      ParsePythonFiles(files);
      var path, table := SaveResultsToCsv(timestamp);
      return Some((path, table));
    }
  }
}
