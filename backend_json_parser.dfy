/** `backend/parser/parser.py`: the JSON repository parser that tolerates failures. A file
    that cannot be read or parsed is logged and stored with three empty lists; a repository
    path that does not exist yields only an error object. */
module BackendJsonParser {
  import opened Wrappers
  import opened PyAst
  import opened RepoJson
  import opened Seqs

  /** The JSON document `parse_repository` returns. */
  datatype Output = ErrorObject(error: string) | RepoObject(data: RepoData)

  const MissingPathError := "Repository path does not exist"

  /** `parse_file`: `(functions, classes, imports)` of the parsed file, or three empty
      lists when `open` or `ast.parse` raised (`tree` is `None`). */
  method ParseFile(tree: Option<seq<Node>>) returns (functions: seq<string>, classes: seq<string>, imports: seq<string>)
    ensures tree.None? ==> functions == [] && classes == [] && imports == []
    ensures tree.Some? ==> FileFacts(functions, classes, imports) == FactsOf(tree.value)
  {
    if tree.None? {
      return [], [], [];
    }
    var facts := WalkNodes(tree.value);
    functions, classes, imports := facts.functions, facts.classes, facts.imports;
  }

  /** `parse_repository`: the error object when the path is missing; otherwise every walked
      name ending in ".py" is joined to its directory, parsed, appended to `files` and keyed
      in the three maps. */
  method ParseRepository(pathExists: bool, entries: seq<WalkEntry>) returns (out: Output)
    ensures !pathExists ==> out == ErrorObject(MissingPathError)
    ensures pathExists ==> out == RepoObject(Collect(entries))
  {
    if !pathExists {
      return ErrorObject(MissingPathError);
    }
    var data := EmptyRepo;
    var i := 0;
    while i < |entries|
      invariant 0 <= i <= |entries|
      invariant data == Collect(entries[..i])
    {
      CollectStep(entries, i);
      var e := entries[i];
      if IsPythonFile(e) {
        var filepath := EntryPath(e);
        var functions, classes, imports := ParseFile(e.tree);
        data := RepoData(data.files + [filepath], data.functions[filepath := functions],
                         data.classes[filepath := classes], data.imports[filepath := imports]);
      }
      i := i + 1;
    }
    TakeAll(entries);
    out := RepoObject(data);
  }
}
