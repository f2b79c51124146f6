/** The repository parser of backend/_parse_and_classify_python.py: a `GitHubRepoParser`
    object that keeps five pieces of state across the whole scan (`results` and the three
    lookup tables `imported_modules`, `defined_functions`, `defined_classes`) and, file by
    file, appends Import, Definition, Call and Class Definition records. */
module ParseAndClassify {
  import opened Wrappers
  import opened Strings
  import opened PyAst
  import opened PyPaths

  // ---------------------------------------------------------------- records

  /** The `type` column. "Class Call" is a label the code can write but never does. */
  datatype Kind = ImportKind | DefinitionKind | ClassDefinitionKind | CallKind | ClassCallKind

  function Label(k: Kind): string {
    match k
    case ImportKind => "Import"
    case DefinitionKind => "Definition"
    case ClassDefinitionKind => "Class Definition"
    case CallKind => "Call"
    case ClassCallKind => "Class Call"
  }

  /** One row: type, module (None for a bare-name call whose name was never imported),
      function, file_defined, file_used. */
  datatype Record = Record(kind: Kind, moduleName: Option<string>, functionName: string,
                           fileDefined: string, fileUsed: string)

  // ---------------------------------------------------------------- source and repo name

  /** A source is cloned from a remote when it looks like an http(s) URL of a git repository. */
  predicate IsRemoteSource(source: string) {
    StartsWith(source, "http") && EndsWith(source, ".git")
  }

  /** `source.rstrip("/").split("/")[-1].replace(".git", "")`. */
  function RemoteRepoName(source: string): (name: string)
    ensures '/' !in name
  {
    ReplaceAll(LastPiece(RStrip(source, {'/'}), '/'), ".git", "")
  }

  function RepoNameOf(source: string): string {
    if IsRemoteSource(source) then RemoteRepoName(source) else PathName(source)
  }

  /** The `rstrip("/")` never acts: a remote source ends in ".git", so not in "/". */
  lemma RemoteSourceUnstripped(source: string)
    requires IsRemoteSource(source)
    ensures RStrip(source, {'/'}) == source
  {
    assert source[|source| - 1] == ".git"[3];
  }

  /** A URL `base/name.git` whose base starts with "http" is a remote source, and the repo
      name derived from it is `name`. */
  lemma RemoteRepoNameOfUrl(base: string, name: string)
    requires StartsWith(base, "http") && '/' !in name && !Contains(name, ".git")
    ensures var source := base + "/" + name + ".git";
            IsRemoteSource(source) && RepoNameOf(source) == name
  {
    var tail := name + ".git";
    var source := base + ['/'] + tail;
    assert base + "/" + name + ".git" == source;
    assert source[..4] == base[..4];
    assert source[|source| - 4..] == tail[|tail| - 4..];
    RemoteSourceUnstripped(source);
    GitTailHasNoSlash(name);
    SplitLast(base, '/', tail);
    GitSuffixRemoved(name, ".git");
  }

  lemma GitTailHasNoSlash(name: string)
    requires '/' !in name
    ensures '/' !in name + ".git"
  {
    var tail := name + ".git";
    assert forall i :: 0 <= i < |tail| ==> tail[i] == (if i < |name| then name[i] else ".git"[i - |name|]);
  }

  // ---------------------------------------------------------------- per-node records

  /** The records of a plain `import a, b as c`: one per alias, module = the imported name. */
  function PlainImportRecords(names: seq<Alias>, file: string): (rs: seq<Record>)
    ensures |rs| == |names|
    ensures forall i :: 0 <= i < |names| ==> rs[i] == Record(ImportKind, Some(names[i].name), "", "", file)
  {
    if names == [] then []
    else PlainImportRecords(names[..|names| - 1], file)
         + [Record(ImportKind, Some(names[|names| - 1].name), "", "", file)]
  }

  /** The records of `from m import a, b`: one per name, module = m (or ""), function = the name. */
  function FromImportRecords(moduleName: string, names: seq<Alias>, file: string): (rs: seq<Record>)
    ensures |rs| == |names|
    ensures forall i :: 0 <= i < |names| ==> rs[i] == Record(ImportKind, Some(moduleName), names[i].name, "", file)
  {
    if names == [] then []
    else FromImportRecords(moduleName, names[..|names| - 1], file)
         + [Record(ImportKind, Some(moduleName), names[|names| - 1].name, "", file)]
  }

  /** `imported_modules[name.name] = value(name)` for each alias in turn. */
  function BindNames(m: map<string, string>, names: seq<Alias>, plain: bool, moduleName: string): (r: map<string, string>)
    ensures forall k :: k in r <==> k in m || k in NamesOf(names)
    ensures forall k :: k in NamesOf(names) ==> r[k] == (if plain then k else moduleName)
    ensures forall k :: k in m && k !in NamesOf(names) ==> r[k] == m[k]
  {
    if names == [] then m
    else
      var a := names[|names| - 1];
      assert NamesOf(names) == NamesOf(names[..|names| - 1]) + {a.name} by {
        assert names == names[..|names| - 1] + [a];
      }
      BindNames(m, names[..|names| - 1], plain, moduleName)[a.name := if plain then a.name else moduleName]
  }

  function NamesOf(names: seq<Alias>): set<string> {
    set a | a in names :: a.name
  }

  function DefinitionRecord(name: string, file: string): Record {
    Record(DefinitionKind, Some(file), name, file, "")
  }

  function ClassDefinitionRecord(name: string, file: string): Record {
    Record(ClassDefinitionKind, Some(file), name, file, "")
  }

  /** The record of a call, if the callee yields a non-empty function name: a bare name looks
      its module up in `imported_modules` (None when absent); an attribute on a bare name
      looks up the base, defaulting to the base itself; any other callee records nothing. */
  function CallRecord(t: CallTarget, imported: map<string, string>, file: string): Option<Record> {
    match t
    case NameTarget(id) =>
      if id != "" then Some(Record(CallKind, if id in imported then Some(imported[id]) else None, id, "", file))
      else None
    case AttrOfName(base, attr) =>
      if attr != "" then Some(Record(CallKind, Some(if base in imported then imported[base] else base), attr, "", file))
      else None
    case AttrOfOther(_) => None
    case OtherTarget => None
  }

  // ---------------------------------------------------------------- the extraction pass

  datatype Tables = Tables(imported: map<string, string>, functions: map<string, string>,
                           classes: map<string, string>)

  /** What `_extract_ast_data` has built after some nodes: the five record lists and the tables. */
  datatype Extraction = Extraction(imports: seq<Record>, functionDefs: seq<Record>, functionCalls: seq<Record>,
                                   classDefs: seq<Record>, classCalls: seq<Record>, tables: Tables)

  /** The test of the class-call branch: a call whose callee is a bare name. */
  predicate IsNameCall(n: Node) {
    n.Call? && n.func.NameTarget?
  }

  function CalledName(n: Node): string {
    if IsNameCall(n) then n.func.id else ""
  }

  /** The record the class-call branch would write: only for a class defined so far. */
  function ClassCallRecords(id: string, classes: map<string, string>, file: string): seq<Record> {
    if id in classes then [Record(ClassCallKind, Some(classes[id]), id + " (init)", classes[id], file)] else []
  }

  /** One iteration of the node loop: the `if`/`elif` chain, tested in the source's order. */
  function StepNode(e: Extraction, n: Node, file: string): Extraction {
    if n.Import? then
      e.(imports := e.imports + PlainImportRecords(n.names, file),
         tables := e.tables.(imported := BindNames(e.tables.imported, n.names, true, "")))
    else if n.ImportFrom? then
      e.(imports := e.imports + FromImportRecords(ModuleOrEmpty(n.fromModule), n.names, file),
         tables := e.tables.(imported := BindNames(e.tables.imported, n.names, false, ModuleOrEmpty(n.fromModule))))
    else if n.FunctionDef? then
      e.(functionDefs := e.functionDefs + [DefinitionRecord(n.name, file)],
         tables := e.tables.(functions := e.tables.functions[n.name := file]))
    else if n.ClassDef? then
      e.(classDefs := e.classDefs + [ClassDefinitionRecord(n.name, file)],
         tables := e.tables.(classes := e.tables.classes[n.name := file]))
    else if n.Call? then
      (match CallRecord(n.func, e.tables.imported, file)
       case Some(r) => e.(functionCalls := e.functionCalls + [r])
       case None => e)
    else if IsNameCall(n) then
      e.(classCalls := e.classCalls + ClassCallRecords(CalledName(n), e.tables.classes, file))
    else e
  }

  /** `_extract_ast_data` over the walked nodes, starting from tables `t`. */
  function Extract(t: Tables, nodes: seq<Node>, file: string): Extraction {
    if nodes == [] then Extraction([], [], [], [], [], t)
    else StepNode(Extract(t, nodes[..|nodes| - 1], file), nodes[|nodes| - 1], file)
  }

  /** What a parsed file adds to `results`, in the order `_parse_file` concatenates the lists. */
  function FileRecords(e: Extraction): seq<Record> {
    e.imports + e.functionDefs + e.functionCalls + e.classDefs + e.classCalls
  }

  datatype ScanState = ScanState(results: seq<Record>, tables: Tables)

  /** `_parse_file`: a file that failed to read or parse changes nothing. */
  function ParseFileSpec(st: ScanState, file: SourceFile): ScanState {
    match file.tree
    case None => st
    case Some(nodes) =>
      var e := Extract(st.tables, nodes, file.path);
      ScanState(st.results + FileRecords(e), e.tables)
  }

  /** The scan loop of `run` over the files `rglob` yields, in that order. */
  function Scan(st: ScanState, files: seq<SourceFile>): ScanState {
    if files == [] then st
    else ParseFileSpec(Scan(st, files[..|files| - 1]), files[|files| - 1])
  }

  function OutputFileName(repoName: string, timestamp: string): string {
    "backend/raw/github_" + repoName + "_" + timestamp + "_repoai_extract.csv"
  }

  // ---------------------------------------------------------------- the parser object

  class GitHubRepoParser {
    const source: string
    const isClonedRepo: bool
    const repoName: string
    var results: seq<Record>
    var importedModules: map<string, string>
    var definedFunctions: map<string, string>
    var definedClasses: map<string, string>

    function State(): ScanState
      reads this
    {
      ScanState(results, Tables(importedModules, definedFunctions, definedClasses))
    }

    constructor (source: string)
      ensures this.source == source
      ensures isClonedRepo == IsRemoteSource(source) && repoName == RepoNameOf(source)
      ensures State() == ScanState([], Tables(map[], map[], map[]))
    {
      this.source := source;
      isClonedRepo := IsRemoteSource(source);
      repoName := RepoNameOf(source);
      results := [];
      importedModules := map[];
      definedFunctions := map[];
      definedClasses := map[];
    }

    /** `clone_repo`: a remote source whose target directory is missing is cloned; an existing
        directory is reused; a failed clone is only logged. `pathExists` is whether the target
        path exists beforehand and `cloneSucceeds` the outcome of `git clone`. */
    method CloneRepo(pathExists: bool, cloneSucceeds: bool) returns (cloned: bool, existsAfter: bool)
      ensures cloned <==> isClonedRepo && !pathExists
      ensures existsAfter <==> pathExists || (cloned && cloneSucceeds)
    {
      cloned := false;
      existsAfter := pathExists;
      if isClonedRepo {
        if !pathExists {
          cloned := true;
          if cloneSucceeds {
            existsAfter := true;
          }
        }
      }
    }

    /** `_extract_ast_data`: one pass over the nodes, appending to the record lists and
        updating the three tables of this object. The class-call list stays empty: its
        branch is never reached (`ExtractNoClassCalls`). */
    method ExtractAstData(nodes: seq<Node>, filePath: string)
      returns (imports: seq<Record>, functionDefs: seq<Record>, functionCalls: seq<Record>,
               classDefs: seq<Record>, classCalls: seq<Record>)
      modifies this
      ensures results == old(results)
      ensures Extraction(imports, functionDefs, functionCalls, classDefs, classCalls, State().tables)
              == Extract(old(State()).tables, nodes, filePath)
      ensures classCalls == []
    {
      ghost var t0 := State().tables;
      imports, functionDefs, functionCalls, classDefs, classCalls := [], [], [], [], [];
      var i := 0;
      while i < |nodes|
        invariant 0 <= i <= |nodes|
        invariant results == old(results)
        invariant Extraction(imports, functionDefs, functionCalls, classDefs, classCalls, State().tables)
                  == Extract(t0, nodes[..i], filePath)
      {
        assert nodes[..i + 1][..i] == nodes[..i];
        imports, functionDefs, functionCalls, classDefs, classCalls :=
          VisitNode(nodes[i], filePath, imports, functionDefs, functionCalls, classDefs, classCalls);
        i := i + 1;
      }
      assert nodes[..i] == nodes;
      ExtractNoClassCalls(t0, nodes, filePath);
    }

    /** The body of the node loop: the `if`/`elif` chain on the kind of `node`. */
    method VisitNode(node: Node, filePath: string, imports: seq<Record>, functionDefs: seq<Record>,
                     functionCalls: seq<Record>, classDefs: seq<Record>, classCalls: seq<Record>)
      returns (imports': seq<Record>, functionDefs': seq<Record>, functionCalls': seq<Record>,
               classDefs': seq<Record>, classCalls': seq<Record>)
      modifies this`importedModules, this`definedFunctions, this`definedClasses
      ensures Extraction(imports', functionDefs', functionCalls', classDefs', classCalls', State().tables)
              == StepNode(Extraction(imports, functionDefs, functionCalls, classDefs, classCalls, old(State()).tables),
                          node, filePath)
    {
      imports', functionDefs', functionCalls', classDefs', classCalls' := imports, functionDefs, functionCalls, classDefs, classCalls;
      if node.Import? {
        imports' := RecordImports(node.names, true, "", filePath, imports);
      } else if node.ImportFrom? {
        var moduleName := if node.fromModule.Some? && node.fromModule.value != "" then node.fromModule.value else "";
        imports' := RecordImports(node.names, false, moduleName, filePath, imports);
      } else if node.FunctionDef? {
        functionDefs' := functionDefs + [Record(DefinitionKind, Some(filePath), node.name, filePath, "")];
        definedFunctions := definedFunctions[node.name := filePath];
      } else if node.ClassDef? {
        classDefs' := classDefs + [Record(ClassDefinitionKind, Some(filePath), node.name, filePath, "")];
        definedClasses := definedClasses[node.name := filePath];
      } else if node.Call? {
        var moduleName: Option<string> := None;
        var functionName := "";
        match node.func {
          case NameTarget(id) =>
            functionName := id;
            moduleName := if id in importedModules then Some(importedModules[id]) else None;
          case AttrOfName(base, attr) =>
            moduleName := Some(if base in importedModules then importedModules[base] else base);
            functionName := attr;
          case AttrOfOther(_) =>
          case OtherTarget =>
        }
        if functionName != "" {
          functionCalls' := functionCalls + [Record(CallKind, moduleName, functionName, "", filePath)];
        }
      } else if IsNameCall(node) {
        classCalls' := classCalls + ClassCallRecords(CalledName(node), definedClasses, filePath);
      }
    }

    /** The inner loop over `node.names` of either import form: one record per name and
        `imported_modules[name.name]` set to the name itself (plain import) or to the source
        module (from-import). */
    method RecordImports(names: seq<Alias>, plain: bool, moduleName: string, filePath: string, imports: seq<Record>)
      returns (imports': seq<Record>)
      modifies this`importedModules
      ensures imports' == imports + (if plain then PlainImportRecords(names, filePath)
                                     else FromImportRecords(moduleName, names, filePath))
      ensures importedModules == BindNames(old(importedModules), names, plain, moduleName)
    {
      imports' := imports;
      var j := 0;
      while j < |names|
        invariant 0 <= j <= |names|
        invariant imports' == imports + (if plain then PlainImportRecords(names[..j], filePath)
                                         else FromImportRecords(moduleName, names[..j], filePath))
        invariant importedModules == BindNames(old(importedModules), names[..j], plain, moduleName)
      {
        assert names[..j + 1][..j] == names[..j];
        if plain {
          imports' := imports' + [Record(ImportKind, Some(names[j].name), "", "", filePath)];
          importedModules := importedModules[names[j].name := names[j].name];
        } else {
          imports' := imports' + [Record(ImportKind, Some(moduleName), names[j].name, "", filePath)];
          importedModules := importedModules[names[j].name := moduleName];
        }
        j := j + 1;
      }
      assert names[..j] == names;
    }

    /** `_parse_file`: a file that fails to read or parse is logged and skipped; otherwise its
        imports, definitions, calls and class definitions are appended to `results`. */
    method ParseFile(file: SourceFile)
      modifies this
      ensures State() == ParseFileSpec(old(State()), file)
    {
      if file.tree.None? {
        return;
      }
      var imports, functionDefs, functionCalls, classDefs, classCalls := ExtractAstData(file.tree.value, file.path);
      results := results + (imports + functionDefs + functionCalls + classDefs + classCalls);
    }

    /** `run`: clone if needed, give up with None when the repository path is missing, parse
        every file, and give up with None when nothing at all was collected. */
    method Run(pathExists: bool, cloneSucceeds: bool, files: seq<SourceFile>, timestamp: string)
      returns (csvPath: Option<string>)
      modifies this
      ensures var existsAfter := pathExists || (isClonedRepo && !pathExists && cloneSucceeds);
              if !existsAfter then csvPath == None && State() == old(State())
              else State() == Scan(old(State()), files)
                   && csvPath == (if results == [] then None else Some(OutputFileName(repoName, timestamp)))
    {
      var _, existsAfter := CloneRepo(pathExists, cloneSucceeds);
      if !existsAfter {
        return None;
      }
      var i := 0;
      while i < |files|
        invariant 0 <= i <= |files|
        invariant State() == Scan(old(State()), files[..i])
      {
        assert files[..i + 1][..i] == files[..i];
        ParseFile(files[i]);
        i := i + 1;
      }
      assert files[..i] == files;
      if results == [] {
        return None;
      }
      return Some(OutputFileName(repoName, timestamp));
    }
  }

  // ---------------------------------------------------------------- properties of the pass

  /** Every import record, in walk order, independently of the tables. */
  function ImportsOf(nodes: seq<Node>, file: string): seq<Record> {
    if nodes == [] then []
    else
      ImportsOf(nodes[..|nodes| - 1], file) +
      (match nodes[|nodes| - 1]
       case Import(names) => PlainImportRecords(names, file)
       case ImportFrom(m, names) => FromImportRecords(ModuleOrEmpty(m), names, file)
       case _ => [])
  }

  /** The definition records, one per `FunctionDef` in walk order. */
  function DefinitionsOf(nodes: seq<Node>, file: string): (rs: seq<Record>)
    ensures forall r :: r in rs ==> r.kind == DefinitionKind && r.moduleName == Some(file)
                                    && r.fileDefined == file && r.fileUsed == ""
  {
    if nodes == [] then []
    else
      DefinitionsOf(nodes[..|nodes| - 1], file) +
      (match nodes[|nodes| - 1]
       case FunctionDef(name) => [DefinitionRecord(name, file)]
       case _ => [])
  }

  /** The class definition records, one per `ClassDef` in walk order. */
  function ClassDefinitionsOf(nodes: seq<Node>, file: string): (rs: seq<Record>)
    ensures forall r :: r in rs ==> r.kind == ClassDefinitionKind && r.moduleName == Some(file)
                                    && r.fileDefined == file && r.fileUsed == ""
  {
    if nodes == [] then []
    else
      ClassDefinitionsOf(nodes[..|nodes| - 1], file) +
      (match nodes[|nodes| - 1]
       case ClassDef(name) => [ClassDefinitionRecord(name, file)]
       case _ => [])
  }

  /** The number of call nodes that yield a record whatever the tables hold. */
  function RecordedCalls(nodes: seq<Node>): nat {
    if nodes == [] then 0
    else
      RecordedCalls(nodes[..|nodes| - 1]) +
      (match nodes[|nodes| - 1]
       case Call(NameTarget(id)) => if id != "" then 1 else 0
       case Call(AttrOfName(_, attr)) => if attr != "" then 1 else 0
       case _ => 0)
  }

  /** The import records of the single pass are those of each import node in walk order,
      whatever the tables hold. */
  lemma {:induction false} ExtractImports(t: Tables, nodes: seq<Node>, file: string)
    ensures Extract(t, nodes, file).imports == ImportsOf(nodes, file)
  {
    if nodes != [] {
      ExtractImports(t, nodes[..|nodes| - 1], file);
    }
  }

  /** The definition records are one per `FunctionDef`, in walk order. */
  lemma {:induction false} ExtractDefinitions(t: Tables, nodes: seq<Node>, file: string)
    ensures Extract(t, nodes, file).functionDefs == DefinitionsOf(nodes, file)
  {
    if nodes != [] {
      ExtractDefinitions(t, nodes[..|nodes| - 1], file);
    }
  }

  /** The class definition records are one per `ClassDef`, in walk order. */
  lemma {:induction false} ExtractClassDefinitions(t: Tables, nodes: seq<Node>, file: string)
    ensures Extract(t, nodes, file).classDefs == ClassDefinitionsOf(nodes, file)
  {
    if nodes != [] {
      ExtractClassDefinitions(t, nodes[..|nodes| - 1], file);
    }
  }

  /** Every call whose callee yields a non-empty name, and no other node, gives one Call
      record stamped with the current file as file_used. */
  lemma {:induction false} ExtractCalls(t: Tables, nodes: seq<Node>, file: string)
    ensures |Extract(t, nodes, file).functionCalls| == RecordedCalls(nodes)
    ensures forall r :: r in Extract(t, nodes, file).functionCalls ==>
              r.kind == CallKind && r.fileUsed == file && r.fileDefined == "" && r.functionName != ""
  {
    if nodes != [] {
      ExtractCalls(t, nodes[..|nodes| - 1], file);
    }
  }

  /** The class-call branch never fires: it is tested only on a node that the earlier
      `isinstance(node, ast.Call)` branch has already turned away, and it needs a Call. */
  lemma {:induction false} ExtractNoClassCalls(t: Tables, nodes: seq<Node>, file: string)
    ensures Extract(t, nodes, file).classCalls == []
  {
    if nodes != [] {
      ExtractNoClassCalls(t, nodes[..|nodes| - 1], file);
    }
  }

  /** No record of any scan is a "Class Call". */
  lemma {:induction false} NoClassCalls(st: ScanState, files: seq<SourceFile>)
    requires forall r :: r in st.results ==> r.kind != ClassCallKind
    ensures forall r :: r in Scan(st, files).results ==> r.kind != ClassCallKind
  {
    if files != [] {
      NoClassCalls(st, files[..|files| - 1]);
      var prev := Scan(st, files[..|files| - 1]);
      var f := files[|files| - 1];
      if f.tree.Some? {
        NoClassCallsInFile(prev.tables, f.tree.value, f.path);
      }
    }
  }

  lemma NoClassCallsInFile(t: Tables, nodes: seq<Node>, file: string)
    ensures forall r :: r in FileRecords(Extract(t, nodes, file)) ==> r.kind != ClassCallKind
  {
    var e := Extract(t, nodes, file);
    ExtractImportKinds(t, nodes, file);
    ExtractDefinitions(t, nodes, file);
    ExtractCalls(t, nodes, file);
    ExtractClassDefinitions(t, nodes, file);
    ExtractNoClassCalls(t, nodes, file);
    assert FileRecords(e) == e.imports + e.functionDefs + e.functionCalls + e.classDefs + [];
  }

  lemma {:induction false} ExtractImportKinds(t: Tables, nodes: seq<Node>, file: string)
    ensures forall r :: r in Extract(t, nodes, file).imports ==> r.kind == ImportKind
  {
    if nodes != [] {
      ExtractImportKinds(t, nodes[..|nodes| - 1], file);
    }
  }

  /** The table value an import node gives to `k`, if it binds `k` at all. */
  function Binding(n: Node, k: string): Option<string> {
    match n
    case Import(names) => if k in NamesOf(names) then Some(k) else None
    case ImportFrom(m, names) => if k in NamesOf(names) then Some(ModuleOrEmpty(m)) else None
    case _ => None
  }

  /** The value of the last import among `nodes` that binds `k`. */
  function LastBinding(nodes: seq<Node>, k: string): Option<string> {
    if nodes == [] then None
    else match Binding(nodes[|nodes| - 1], k)
      case Some(v) => Some(v)
      case None => LastBinding(nodes[..|nodes| - 1], k)
  }

  /** `imported_modules` after a file keeps what it held before, overwritten by the last
      import of the file that binds each name (it is never reset between files either:
      the table `t` is whatever earlier files left behind). */
  lemma {:induction false} ImportedLastWins(t: Tables, nodes: seq<Node>, file: string, k: string)
    ensures var imp := Extract(t, nodes, file).tables.imported;
            (k in imp <==> k in t.imported || LastBinding(nodes, k).Some?)
            && (LastBinding(nodes, k).Some? ==> imp[k] == LastBinding(nodes, k).value)
            && (LastBinding(nodes, k).None? && k in t.imported ==> imp[k] == t.imported[k])
  {
    if nodes != [] {
      ImportedLastWins(t, nodes[..|nodes| - 1], file, k);
      StepImported(Extract(t, nodes[..|nodes| - 1], file), nodes[|nodes| - 1], file, k);
    }
  }

  /** How one node changes the entry for `k` in `imported_modules`. */
  lemma StepImported(e: Extraction, n: Node, file: string, k: string)
    ensures var before, after := e.tables.imported, StepNode(e, n, file).tables.imported;
            match Binding(n, k)
            case Some(v) => k in after && after[k] == v
            case None => (k in after <==> k in before) && (k in before ==> after[k] == before[k])
  {
  }

  /** A call looks its module up in the table as built by every node before it: a bare-name
      call gets the moduleName of the last import binding that name (None when none did and the
      earlier files left none), an attribute call on `base` gets the moduleName bound to `base`,
      or `base` itself. */
  lemma CallSeesEarlierImports(t: Tables, nodes: seq<Node>, target: CallTarget, file: string)
    requires target.NameTarget? || target.AttrOfName?
    ensures var key := if target.NameTarget? then target.id else target.base;
            var name := if target.NameTarget? then target.id else target.attr;
            var bound := match LastBinding(nodes, key)
                         case Some(v) => Some(v)
                         case None => if key in t.imported then Some(t.imported[key]) else None;
            var moduleName := if target.NameTarget? then bound else Some(bound.GetOr(target.base));
            Extract(t, nodes + [Call(target)], file).functionCalls
            == Extract(t, nodes, file).functionCalls
               + (if name != "" then [Record(CallKind, moduleName, name, "", file)] else [])
  {
    var key := if target.NameTarget? then target.id else target.base;
    ImportedLastWins(t, nodes, file, key);
    assert (nodes + [Call(target)])[..|nodes|] == nodes;
  }

  /** How one node changes the two definition tables. */
  lemma StepTables(e: Extraction, n: Node, file: string)
    ensures var t := StepNode(e, n, file).tables;
            t.functions == (if n.FunctionDef? then e.tables.functions[n.name := file] else e.tables.functions)
            && t.classes == (if n.ClassDef? then e.tables.classes[n.name := file] else e.tables.classes)
  {
  }

  /** `defined_functions` after a file maps every name the file defines to that file and
      leaves the other names alone. */
  lemma {:induction false} DefinedFunctionsInFile(t: Tables, nodes: seq<Node>, file: string, name: string)
    ensures var fs := Extract(t, nodes, file).tables.functions;
            (name in fs <==> name in t.functions || FunctionDef(name) in nodes)
            && (FunctionDef(name) in nodes ==> fs[name] == file)
            && (FunctionDef(name) !in nodes && name in t.functions ==> fs[name] == t.functions[name])
  {
    if nodes != [] {
      var init, last := nodes[..|nodes| - 1], nodes[|nodes| - 1];
      DefinedFunctionsInFile(t, init, file, name);
      StepTables(Extract(t, init, file), last, file);
      assert nodes == init + [last];
      assert FunctionDef(name) in nodes <==> FunctionDef(name) in init || last == FunctionDef(name);
    }
  }

  /** The path of the last parsed file among whose nodes is `n`. */
  function LastFileWith(files: seq<SourceFile>, n: Node): Option<string> {
    if files == [] then None
    else
      var f := files[|files| - 1];
      if f.tree.Some? && n in f.tree.value then Some(f.path)
      else LastFileWith(files[..|files| - 1], n)
  }

  /** Across a whole scan, `defined_functions[name]` is the last parsed file defining `name`:
      a later definition silently overwrites an earlier one. */
  lemma {:induction false} DefinedFunctionsLastWins(st: ScanState, files: seq<SourceFile>, name: string)
    ensures var fs, last := Scan(st, files).tables.functions, LastFileWith(files, FunctionDef(name));
            (name in fs <==> name in st.tables.functions || last.Some?)
            && (last.Some? ==> fs[name] == last.value)
            && (last.None? && name in st.tables.functions ==> fs[name] == st.tables.functions[name])
  {
    if files != [] {
      DefinedFunctionsLastWins(st, files[..|files| - 1], name);
      var f := files[|files| - 1];
      if f.tree.Some? {
        DefinedFunctionsInFile(Scan(st, files[..|files| - 1]).tables, f.tree.value, f.path, name);
      }
    }
  }

  /** `defined_classes` after a file maps every class the file defines to that file and
      leaves the other names alone. */
  lemma {:induction false} DefinedClassesInFile(t: Tables, nodes: seq<Node>, file: string, name: string)
    ensures var cs := Extract(t, nodes, file).tables.classes;
            (name in cs <==> name in t.classes || ClassDef(name) in nodes)
            && (ClassDef(name) in nodes ==> cs[name] == file)
            && (ClassDef(name) !in nodes && name in t.classes ==> cs[name] == t.classes[name])
  {
    if nodes != [] {
      var init, last := nodes[..|nodes| - 1], nodes[|nodes| - 1];
      DefinedClassesInFile(t, init, file, name);
      StepTables(Extract(t, init, file), last, file);
      assert nodes == init + [last];
      assert ClassDef(name) in nodes <==> ClassDef(name) in init || last == ClassDef(name);
    }
  }

  /** Across a whole scan, `defined_classes[name]` is the last parsed file defining class
      `name`. */
  lemma {:induction false} DefinedClassesLastWins(st: ScanState, files: seq<SourceFile>, name: string)
    ensures var cs, last := Scan(st, files).tables.classes, LastFileWith(files, ClassDef(name));
            (name in cs <==> name in st.tables.classes || last.Some?)
            && (last.Some? ==> cs[name] == last.value)
            && (last.None? && name in st.tables.classes ==> cs[name] == st.tables.classes[name])
  {
    if files != [] {
      DefinedClassesLastWins(st, files[..|files| - 1], name);
      var f := files[|files| - 1];
      if f.tree.Some? {
        DefinedClassesInFile(Scan(st, files[..|files| - 1]).tables, f.tree.value, f.path, name);
      }
    }
  }

  /** `results` only grows: each file appends its records after those of earlier files, and a
      file that fails to parse appends nothing. */
  lemma {:induction false} ScanAppends(st: ScanState, files: seq<SourceFile>, file: SourceFile)
    ensures var before := Scan(st, files).results;
            var after := Scan(st, files + [file]).results;
            |before| <= |after| && after[..|before|] == before
            && (file.tree.None? ==> after == before)
  {
    assert (files + [file])[..|files|] == files;
  }
}
