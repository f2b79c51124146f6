/** `backend/_mapping_dependencies.py`: the two passes over the language-pattern table that
    turn definitions, imports and calls into an edge list between files. The table is given
    as its rows; `None` is a missing cell. Drawing the graph is not part of this model. */
module MappingDependencies {
  import opened Wrappers
  import opened Seqs

  /** One row of `language_patterns.csv` (the language column is not used). */
  datatype PatternRow = PatternRow(moduleName: Option<string>, fileDefined: Option<string>,
                                   fileUsed: Option<string>, referenceType: Option<string>)

  /** `(file_defined, file_used, reference_type, module_name)`. */
  datatype Edge = Edge(fileDefined: string, fileUsed: string, referenceType: string, moduleName: string)

  // ---------------------------------------------------------------- dropna

  predicate Complete(r: PatternRow) {
    r.fileUsed.Some? && r.referenceType.Some?
  }

  /** `dropna(subset=["file_used", "reference_type"])`: the rows with both cells present, in order. */
  function DropIncomplete(rows: seq<PatternRow>): (kept: seq<PatternRow>)
    ensures |kept| <= |rows|
    ensures forall i :: 0 <= i < |kept| ==> Complete(kept[i])
    ensures forall r :: r in kept <==> r in rows && Complete(r)
  {
    if rows == [] then []
    else
      var r := rows[|rows| - 1];
      var init := rows[..|rows| - 1];
      assert rows == init + [r];
      DropIncomplete(init) + (if Complete(r) then [r] else [])
  }

  // ---------------------------------------------------------------- first pass

  /** A row that records where `name` is defined. */
  predicate Defines(r: PatternRow, name: string) {
    r.referenceType == Some("Function Definition") && r.fileDefined.Some? && r.moduleName == Some(name)
  }

  /** `definition_map` after the first pass over `rows`: later definitions overwrite earlier ones. */
  function DefinitionMap(rows: seq<PatternRow>): map<string, string> {
    if rows == [] then map[]
    else
      var m := DefinitionMap(rows[..|rows| - 1]);
      var r := rows[|rows| - 1];
      if r.referenceType == Some("Function Definition") && r.fileDefined.Some? && r.moduleName.Some?
      then m[r.moduleName.value := r.fileDefined.value]
      else m
  }

  /** A name is in the map exactly when some row defines it. */
  lemma {:induction false} DefinedNames(rows: seq<PatternRow>, name: string)
    ensures name in DefinitionMap(rows) <==> exists i :: 0 <= i < |rows| && Defines(rows[i], name)
  {
    if rows != [] {
      var init := rows[..|rows| - 1];
      DefinedNames(init, name);
      if exists i :: 0 <= i < |rows| && Defines(rows[i], name) {
        var i :| 0 <= i < |rows| && Defines(rows[i], name);
        if i < |init| {
          assert init[i] == rows[i];
        }
      }
      if exists i :: 0 <= i < |init| && Defines(init[i], name) {
        var i :| 0 <= i < |init| && Defines(init[i], name);
        assert rows[i] == init[i];
      }
    }
  }

  /** The file recorded for a name is that of the last row defining it. */
  lemma {:induction false} LastDefinitionWins(rows: seq<PatternRow>, i: nat, name: string)
    requires i < |rows| && Defines(rows[i], name)
    requires forall j :: i < j < |rows| ==> !Defines(rows[j], name)
    ensures name in DefinitionMap(rows) && DefinitionMap(rows)[name] == rows[i].fileDefined.value
  {
    if i < |rows| - 1 {
      LastDefinitionWins(rows[..|rows| - 1], i, name);
    }
  }

  // ---------------------------------------------------------------- second pass

  /** The edge one row contributes, given the definition map. */
  function RowEdges(r: PatternRow, definitions: map<string, string>): seq<Edge>
    requires Complete(r)
  {
    if (r.referenceType == Some("Import") || r.referenceType == Some("Function Call"))
       && r.moduleName.Some? && r.moduleName.value in definitions
       && definitions[r.moduleName.value] != r.fileUsed.value
    then [Edge(definitions[r.moduleName.value], r.fileUsed.value, r.referenceType.value, r.moduleName.value)]
    else []
  }

  function EdgesOf(rows: seq<PatternRow>, definitions: map<string, string>): seq<Edge>
    requires forall i :: 0 <= i < |rows| ==> Complete(rows[i])
  {
    if rows == [] then []
    else EdgesOf(rows[..|rows| - 1], definitions) + RowEdges(rows[|rows| - 1], definitions)
  }

  /** An edge is an import or call of a defined name, points from the file that defines it to
      the file that uses it, and never from a file to itself. */
  predicate WellFormed(e: Edge, definitions: map<string, string>) {
    (e.referenceType == "Import" || e.referenceType == "Function Call")
    && e.moduleName in definitions && e.fileDefined == definitions[e.moduleName]
    && e.fileDefined != e.fileUsed
  }

  lemma {:induction false} EdgesWellFormed(rows: seq<PatternRow>, definitions: map<string, string>)
    requires forall i :: 0 <= i < |rows| ==> Complete(rows[i])
    ensures forall e :: e in EdgesOf(rows, definitions) ==> WellFormed(e, definitions)
  {
    if rows != [] {
      var init := rows[..|rows| - 1];
      EdgesWellFormed(init, definitions);
      RowEdgeWellFormed(rows[|rows| - 1], definitions);
    }
  }

  lemma RowEdgeWellFormed(r: PatternRow, definitions: map<string, string>)
    requires Complete(r)
    ensures forall e :: e in RowEdges(r, definitions) ==> WellFormed(e, definitions)
  {
  }

  /** A row's edges come right after those of the rows before it: edges are in row order and
      repeated rows give repeated edges. */
  lemma {:induction false} EdgesConcat(a: seq<PatternRow>, b: seq<PatternRow>, definitions: map<string, string>)
    requires forall i :: 0 <= i < |a| ==> Complete(a[i])
    requires forall i :: 0 <= i < |b| ==> Complete(b[i])
    ensures forall i :: 0 <= i < |a + b| ==> Complete((a + b)[i])
    ensures EdgesOf(a + b, definitions) == EdgesOf(a, definitions) + EdgesOf(b, definitions)
    decreases |b|
  {
    assert forall i :: 0 <= i < |a + b| ==> Complete((a + b)[i]) by {
      forall i | 0 <= i < |a + b| ensures Complete((a + b)[i]) {
        if i < |a| { assert (a + b)[i] == a[i]; } else { assert (a + b)[i] == b[i - |a|]; }
      }
    }
    if b == [] {
      assert a + b == a;
    } else {
      var init := b[..|b| - 1];
      EdgesConcat(a, init, definitions);
      DropLastOfAppend(a, b);
      AppendAssoc(EdgesOf(a, definitions), EdgesOf(init, definitions), RowEdges(b[|b| - 1], definitions));
    }
  }

  /** Import and call rows that survive the filter. */
  function UseRows(rows: seq<PatternRow>): nat {
    if rows == [] then 0
    else
      var r := rows[|rows| - 1];
      UseRows(rows[..|rows| - 1]) + (if r.referenceType == Some("Import") || r.referenceType == Some("Function Call") then 1 else 0)
  }

  /** At most one edge per import or call row. */
  lemma {:induction false} EdgeCount(rows: seq<PatternRow>, definitions: map<string, string>)
    requires forall i :: 0 <= i < |rows| ==> Complete(rows[i])
    ensures |EdgesOf(rows, definitions)| <= UseRows(rows)
  {
    if rows != [] {
      EdgeCount(rows[..|rows| - 1], definitions);
    }
  }

  // ---------------------------------------------------------------- the script

  /** The script: drop the incomplete rows, build `definition_map`, then collect `edges`. */
  method MapDependencies(table: seq<PatternRow>) returns (definitionMap: map<string, string>, edges: seq<Edge>)
    ensures var rows := DropIncomplete(table);
            definitionMap == DefinitionMap(rows) && edges == EdgesOf(rows, definitionMap)
  {
    var rows := DropIncomplete(table);
    definitionMap := FirstPass(rows);
    edges := SecondPass(rows, definitionMap);
  }

  /** The first pass: every "Function Definition" row with a `file_defined` records it under its `module_name`. */
  method FirstPass(rows: seq<PatternRow>) returns (definitionMap: map<string, string>)
    ensures definitionMap == DefinitionMap(rows)
  {
    definitionMap := map[];
    var i := 0;
    while i < |rows|
      invariant 0 <= i <= |rows|
      invariant definitionMap == DefinitionMap(rows[..i])
    {
      TakeStep(rows, i);
      var row := rows[i];
      if row.referenceType == Some("Function Definition") && row.fileDefined.Some? && row.moduleName.Some? {
        definitionMap := definitionMap[row.moduleName.value := row.fileDefined.value];
      }
      i := i + 1;
    }
    TakeAll(rows);
  }

  /** The second pass: every import or call of a known name used outside its defining file gives an edge. */
  method SecondPass(rows: seq<PatternRow>, definitionMap: map<string, string>) returns (edges: seq<Edge>)
    requires forall i :: 0 <= i < |rows| ==> Complete(rows[i])
    ensures edges == EdgesOf(rows, definitionMap)
  {
    edges := [];
    var i := 0;
    while i < |rows|
      invariant 0 <= i <= |rows|
      invariant edges == EdgesOf(rows[..i], definitionMap)
    {
      EdgesStep(rows, i, definitionMap);
      var row := rows[i];
      var fileUsed, moduleName, referenceType := row.fileUsed.value, row.moduleName, row.referenceType.value;
      if (referenceType == "Import" || referenceType == "Function Call") && moduleName.Some? && moduleName.value in definitionMap {
        var fileDefined := definitionMap[moduleName.value];
        if fileDefined != fileUsed {
          edges := edges + [Edge(fileDefined, fileUsed, referenceType, moduleName.value)];
        }
      }
      i := i + 1;
    }
    TakeAll(rows);
  }

  lemma EdgesStep(rows: seq<PatternRow>, i: nat, definitions: map<string, string>)
    requires i < |rows| && forall j :: 0 <= j < |rows| ==> Complete(rows[j])
    ensures EdgesOf(rows[..i + 1], definitions) == EdgesOf(rows[..i], definitions) + RowEdges(rows[i], definitions)
  {
    TakeStep(rows, i);
  }
}
