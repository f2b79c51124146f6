/** `parser/parser.py`: the JSON repository parser without error handling. The first file
    that cannot be read or parsed raises out of `parse_repository`, so no document at all is
    produced; a missing repository path walks no files and gives the empty document. */
module JsonParser {
  import opened Wrappers
  import opened PyAst
  import opened RepoJson
  import opened Seqs

  /** `parse_file`: `None` stands for the exception `open` or `ast.parse` raises. */
  method ParseFile(tree: Option<seq<Node>>) returns (r: Option<FileFacts>)
    ensures r.None? <==> tree.None?
    ensures r.Some? ==> r.value == FactsOf(tree.value)
  {
    if tree.None? {
      return None;
    }
    var facts := WalkNodes(tree.value);
    return Some(facts);
  }

  /** A visited file ending in ".py" that fails to read or parse. */
  predicate Fails(e: WalkEntry) {
    IsPythonFile(e) && e.tree.None?
  }

  predicate SomePythonFileFails(entries: seq<WalkEntry>) {
    exists i :: 0 <= i < |entries| && Fails(entries[i])
  }

  /** `parse_repository`: `None` when the walk reaches a ".py" file that fails (the exception
      aborts the whole parse); otherwise the same document the failure-tolerant parser
      builds, in which every stored file was parsed successfully. */
  method ParseRepository(entries: seq<WalkEntry>) returns (r: Option<RepoData>)
    ensures r.None? <==> SomePythonFileFails(entries)
    ensures r.Some? ==> r.value == Collect(entries)
  {
    var data := EmptyRepo;
    var i := 0;
    while i < |entries|
      invariant 0 <= i <= |entries|
      invariant data == Collect(entries[..i])
      invariant !SomePythonFileFails(entries[..i])
    {
      CollectStep(entries, i);
      var e := entries[i];
      if IsPythonFile(e) {
        var parsed := ParseFile(e.tree);
        if parsed.None? {
          assert Fails(entries[i]);
          return None;
        }
        var filepath := EntryPath(e);
        data := RepoData(data.files + [filepath], data.functions[filepath := parsed.value.functions],
                         data.classes[filepath := parsed.value.classes], data.imports[filepath := parsed.value.imports]);
      }
      NoFailureStep(entries, i);
      i := i + 1;
    }
    TakeAll(entries);
    return Some(data);
  }

  /** Extending a prefix without failures by an entry that does not fail. */
  lemma NoFailureStep(entries: seq<WalkEntry>, i: nat)
    requires i < |entries| && !SomePythonFileFails(entries[..i])
    requires IsPythonFile(entries[i]) ==> entries[i].tree.Some?
    ensures !SomePythonFileFails(entries[..i + 1])
  {
    var p := entries[..i + 1];
    forall j | 0 <= j < i + 1 ensures !Fails(p[j]) {
      if j < i {
        assert p[j] == entries[..i][j];
      }
    }
  }
}
