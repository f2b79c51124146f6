/** `backend/classify_python_repos.py`: the import-pattern classifier, which sorts the module
    names of the extractor's Import rows into four pattern types by a fixed chain of regular
    expressions, and the projection of every extracted row into the five-column
    language-pattern table. The CSV files read and written are represented by their rows. */
module ClassifyImports {
  import opened Wrappers
  import opened Strings
  import opened Seqs

  /** One row of the extractor's CSV as pandas reads it; `None` is a missing cell (NaN). */
  datatype CsvRow = CsvRow(rowType: Option<string>, moduleName: Option<string>, functionName: Option<string>, file: Option<string>)

  // ---------------------------------------------------------------- the regular expressions

  /** The class `[a-zA-Z0-9_]`. */
  predicate IsWordChar(c: char) {
    'a' <= c <= 'z' || 'A' <= c <= 'Z' || '0' <= c <= '9' || c == '_'
  }

  /** `[a-zA-Z0-9_]+`. */
  predicate WordRun(s: string) {
    |s| >= 1 && forall i :: 0 <= i < |s| ==> IsWordChar(s[i])
  }

  /** `[a-zA-Z0-9_]+\.[a-zA-Z0-9_]+`. */
  predicate DottedPair(s: string) {
    exists k :: 0 <= k < |s| && s[k] == '.' && WordRun(s[..k]) && WordRun(s[k + 1..])
  }

  /** `[a-zA-Z0-9_]+ as [a-zA-Z0-9_]+`. */
  predicate AsPair(s: string) {
    exists k :: 0 <= k && k + 4 <= |s| && AsAt(s, k) && WordRun(s[..k]) && WordRun(s[k + 4..])
  }

  /** " as " stands in `s` at `k`. */
  predicate AsAt(s: string, k: nat) {
    k + 4 <= |s| && s[k..k + 4] == " as "
  }

  /** Python's `$` matches at the end of the string and also just before a final "\n". None
      of the three patterns matches a text ending in "\n", so `re.match("^P$", s)` holds
      exactly when P matches `s` with one final "\n" removed. */
  function Chomp(s: string): (r: string)
    ensures r == s || (s == r + "\n")
  {
    if s != [] && s[|s| - 1] == '\n' then s[..|s| - 1] else s
  }

  // ---------------------------------------------------------------- classification

  datatype PatternType = Standard | Selective | Aliased | Unknown

  /** The `pattern_type` text and the `regex_pattern` recorded for each type. */
  function ReferenceTypeName(t: PatternType): string {
    match t
    case Standard => "Standard Import"
    case Selective => "Selective Import"
    case Aliased => "Aliased Import"
    case Unknown => "Unknown Pattern"
  }

  function RegexOf(t: PatternType): string {
    match t
    case Standard => "^import (\\w+)"
    case Selective => "^from (\\w+) import (\\w+)"
    case Aliased => "^import (\\w+) as (\\w+)"
    case Unknown => "N/A"
  }

  /** The first pattern of the chain that matches. */
  function Classify(m: string): PatternType {
    var s := Chomp(m);
    if WordRun(s) then Standard
    else if DottedPair(s) then Selective
    else if AsPair(s) then Aliased
    else Unknown
  }

  /** Selective: exactly two runs of word characters joined by a single ".". */
  lemma SelectiveShape(m: string)
    ensures Classify(m) == Selective <==>
            exists a, b :: WordRun(a) && WordRun(b) && Chomp(m) == a + "." + b
  {
    var s := Chomp(m);
    if Classify(m) == Selective {
      DottedPairParts(s);
    }
    if exists a, b :: WordRun(a) && WordRun(b) && s == a + "." + b {
      var a, b :| WordRun(a) && WordRun(b) && s == a + "." + b;
      DottedPairOf(s, a, b);
    }
  }

  lemma DottedPairParts(s: string)
    requires DottedPair(s)
    ensures exists a, b :: WordRun(a) && WordRun(b) && s == a + "." + b
  {
    var k :| 0 <= k < |s| && s[k] == '.' && WordRun(s[..k]) && WordRun(s[k + 1..]);
    var a, b := s[..k], s[k + 1..];
    Rejoin(s, k, 1);
    assert s[k..k + 1] == ".";
    assert WordRun(a) && WordRun(b) && s == a + "." + b;
  }

  /** Cutting `s` around a separator of length `n` at `k` and gluing it back. */
  lemma Rejoin(s: string, k: nat, n: nat)
    requires k + n <= |s|
    ensures s == s[..k] + s[k..k + n] + s[k + n..]
  {
  }

  lemma DottedPairOf(s: string, a: string, b: string)
    requires WordRun(a) && WordRun(b) && s == a + "." + b
    ensures DottedPair(s) && !WordRun(s)
  {
    assert s[|a|] == '.' && s[..|a|] == a && s[|a| + 1..] == b;
    assert !IsWordChar(s[|a|]);
  }

  /** Aliased: two runs of word characters joined by " as ". */
  lemma AliasedShape(m: string)
    ensures Classify(m) == Aliased <==>
            exists a, b :: WordRun(a) && WordRun(b) && Chomp(m) == a + " as " + b
  {
    var s := Chomp(m);
    if Classify(m) == Aliased {
      AsPairParts(s);
    }
    if exists a, b :: WordRun(a) && WordRun(b) && s == a + " as " + b {
      var a, b :| WordRun(a) && WordRun(b) && s == a + " as " + b;
      AsPairOf(s, a, b);
    }
  }

  lemma AsPairParts(s: string)
    requires AsPair(s)
    ensures exists a, b :: WordRun(a) && WordRun(b) && s == a + " as " + b
  {
    var k :| 0 <= k && k + 4 <= |s| && AsAt(s, k) && WordRun(s[..k]) && WordRun(s[k + 4..]);
    var a, b := s[..k], s[k + 4..];
    Rejoin(s, k, 4);
    assert WordRun(a) && WordRun(b) && s == a + " as " + b;
  }

  lemma AsPairOf(s: string, a: string, b: string)
    requires WordRun(a) && WordRun(b) && s == a + " as " + b
    ensures AsPair(s) && !WordRun(s) && !DottedPair(s)
  {
    assert s[|a|..|a| + 4] == " as " && s[..|a|] == a && s[|a| + 4..] == b;
    assert AsAt(s, |a|);
    assert !IsWordChar(s[|a|]);
    forall k | 0 <= k < |s| ensures s[k] != '.' {
      if k < |a| {
        assert s[k] == a[k];
      } else if k < |a| + 4 {
        assert s[k] == " as "[k - |a|];
      } else {
        assert s[k] == b[k - |a| - 4];
      }
    }
  }

  /** A module path with two or more dots, such as "a.b.c", is of no known pattern. */
  lemma TwoDotsUnknown(m: string, i: nat, j: nat)
    requires i < j < |m| && m[i] == '.' && m[j] == '.'
    ensures Classify(m) == Unknown
  {
    var s := Chomp(m);
    assert s[i] == '.' && s[j] == '.';
    assert !IsWordChar(s[i]);
    forall k | 0 <= k < |s| && s[k] == '.' ensures !WordRun(s[..k]) || !WordRun(s[k + 1..]) {
      if i < k {
        assert s[..k][i] == '.';
      } else if i > k {
        assert s[k + 1..][i - k - 1] == '.';
      } else {
        assert s[k + 1..][j - k - 1] == '.';
      }
    }
    forall k: nat | k <= i < k + 4 ensures !AsAt(s, k) {
      if k + 4 <= |s| {
        assert s[k..k + 4][i - k] == '.';
      }
    }
    forall k: nat | AsAt(s, k) ensures !WordRun(s[..k]) || !WordRun(s[k + 4..]) {
      if i < k {
        assert s[..k][i] == '.';
      } else {
        assert s[k + 4..][i - k - 4] == '.';
      }
    }
  }

  // ---------------------------------------------------------------- import rules

  /** A row `classify_import_patterns` classifies: of Type "Import", with a Module that is a
      string not blank after stripping. */
  predicate Accepted(r: CsvRow) {
    r.rowType == Some("Import") && r.moduleName.Some? && Strip(r.moduleName.value) != ""
  }

  /** `import_patterns`: the modules seen so far, grouped by pattern type. */
  type Buckets = map<PatternType, set<string>>

  function Add(b: Buckets, t: PatternType, m: string): Buckets {
    b[t := (if t in b then b[t] else {}) + {m}]
  }

  /** The buckets after `rows`, for a given classification of module names. */
  function BucketsBy(rows: seq<CsvRow>, classify: string -> PatternType): Buckets {
    if rows == [] then map[]
    else
      var b := BucketsBy(rows[..|rows| - 1], classify);
      var r := rows[|rows| - 1];
      if Accepted(r) then Add(b, classify(r.moduleName.value), r.moduleName.value) else b
  }

  /** One more row extends the buckets by that row's module when the row is accepted. */
  lemma BucketsStep(rows: seq<CsvRow>, classify: string -> PatternType, i: nat)
    requires i < |rows|
    ensures var b := BucketsBy(rows[..i], classify);
            BucketsBy(rows[..i + 1], classify) ==
              if Accepted(rows[i]) then Add(b, classify(rows[i].moduleName.value), rows[i].moduleName.value) else b
  {
    TakeStep(rows, i);
  }

  /** The distinct module names of the accepted rows. */
  function ImportModules(rows: seq<CsvRow>): set<string> {
    if rows == [] then {}
    else
      var r := rows[|rows| - 1];
      ImportModules(rows[..|rows| - 1]) + (if Accepted(r) then {r.moduleName.value} else {})
  }

  /** Each accepted module sits in the bucket of its own pattern type, and in no other. */
  lemma {:induction false} BucketsHold(rows: seq<CsvRow>, classify: string -> PatternType, t: PatternType, m: string)
    ensures var b := BucketsBy(rows, classify);
            (t in b && m in b[t]) <==> m in ImportModules(rows) && classify(m) == t
  {
    if rows != [] {
      BucketsHold(rows[..|rows| - 1], classify, t, m);
    }
  }

  /** Every accepted row's module name is collected. */
  lemma {:induction false} ImportModulesComplete(rows: seq<CsvRow>, i: nat)
    requires i < |rows| && Accepted(rows[i])
    ensures rows[i].moduleName.value in ImportModules(rows)
  {
    var init := rows[..|rows| - 1];
    if i < |init| {
      ImportModulesComplete(init, i);
      assert init[i] == rows[i];
    }
  }

  /** Every collected module name is that of an accepted row. */
  lemma {:induction false} ImportModulesSound(rows: seq<CsvRow>, m: string)
    requires m in ImportModules(rows)
    ensures exists i :: 0 <= i < |rows| && AcceptedWith(rows[i], m)
  {
    var init := rows[..|rows| - 1];
    if m in ImportModules(init) {
      ImportModulesSound(init, m);
      var i :| 0 <= i < |init| && AcceptedWith(init[i], m);
      assert rows[i] == init[i];
    } else {
      assert AcceptedWith(rows[|rows| - 1], m);
    }
  }

  predicate AcceptedWith(r: CsvRow, m: string) {
    Accepted(r) && r.moduleName.value == m
  }

  /** One entry of `import_rules_list`. */
  datatype Rule = Rule(language: string, pattern: string, regex: string, referenceType: string)

  function RuleFor(m: string): Rule {
    var t := Classify(m);
    Rule("Python", m, RegexOf(t), ReferenceTypeName(t))
  }

  /** `classify_import_patterns`: the rules it derives, as a set (the order of a Python set
      is not fixed). */
  method ClassifyImportPatterns(rows: seq<CsvRow>) returns (rules: set<Rule>)
    ensures forall r :: r in rules <==> r.pattern in ImportModules(rows) && r == RuleFor(r.pattern)
    ensures forall m :: m in ImportModules(rows) ==> RuleFor(m) in rules
  {
    var importPatterns: Buckets := map[];
    var i := 0;
    while i < |rows|
      invariant 0 <= i <= |rows|
      invariant importPatterns == BucketsBy(rows[..i], Classify)
    {
      BucketsStep(rows, Classify, i);
      var row := rows[i];
      if row.rowType == Some("Import") {
        var moduleName := row.moduleName;
        if moduleName.Some? && Strip(moduleName.value) != "" {
          var t := Classify(moduleName.value);
          importPatterns := Add(importPatterns, t, moduleName.value);
        }
      }
      i := i + 1;
    }
    TakeAll(rows);
    rules := set t, m | t in importPatterns && m in importPatterns[t] :: Rule("Python", m, RegexOf(t), ReferenceTypeName(t));
    forall r ensures r in rules <==> r.pattern in ImportModules(rows) && r == RuleFor(r.pattern) {
      BucketsHold(rows, Classify, Classify(r.pattern), r.pattern);
      if r in rules {
        var t, m :| t in importPatterns && m in importPatterns[t] && r == Rule("Python", m, RegexOf(t), ReferenceTypeName(t));
        BucketsHold(rows, Classify, t, m);
      }
    }
    forall m | m in ImportModules(rows) ensures RuleFor(m) in rules {
      BucketsHold(rows, Classify, Classify(m), m);
    }
  }

  // ---------------------------------------------------------------- language patterns

  datatype ReferenceType = ImportRef | DefinitionRef | CallRef

  function ReferenceName(t: ReferenceType): string {
    match t
    case ImportRef => "Import"
    case DefinitionRef => "Function Definition"
    case CallRef => "Function Call"
  }

  /** `reference_type`: Import, Definition and Call rows are named; any other Type gives None. */
  function ReferenceOf(rowType: Option<string>): (t: Option<ReferenceType>)
    ensures t == Some(ImportRef) <==> rowType == Some("Import")
    ensures t == Some(DefinitionRef) <==> rowType == Some("Definition")
    ensures t == Some(CallRef) <==> rowType == Some("Call")
  {
    if rowType == Some("Import") then Some(ImportRef)
    else if rowType == Some("Definition") then Some(DefinitionRef)
    else if rowType == Some("Call") then Some(CallRef)
    else None
  }

  /** One row of `language_patterns`: language, module_name, file_defined, file_used and
      reference_type. The file cells copy the File cell, which may itself be missing. */
  datatype LanguagePattern = LanguagePattern(language: string, moduleName: string, fileDefined: Option<string>,
                                             fileUsed: Option<string>, referenceType: Option<ReferenceType>)

  /** The projection of one row. The Function cell is read but never written. */
  function Project(r: CsvRow): (p: LanguagePattern)
    ensures p.language == "Python"
    ensures p.moduleName == (if r.moduleName.Some? then r.moduleName.value else "")
    ensures p.referenceType == ReferenceOf(r.rowType)
    ensures p.fileDefined == (if r.rowType == Some("Definition") then r.file else Some(""))
    ensures p.fileUsed == (if r.rowType == Some("Call") || r.rowType == Some("Import") then r.file else Some(""))
  {
    var t := ReferenceOf(r.rowType);
    LanguagePattern("Python", r.moduleName.GetOr(""),
                    if t == Some(DefinitionRef) then r.file else Some(""),
                    if t == Some(CallRef) || t == Some(ImportRef) then r.file else Some(""), t)
  }

  /** `process_language_patterns`: exactly one projected row per input row, in order. */
  method ProcessLanguagePatterns(rows: seq<CsvRow>) returns (patterns: seq<LanguagePattern>)
    ensures |patterns| == |rows|
    ensures forall i :: 0 <= i < |rows| ==> patterns[i] == Project(rows[i])
  {
    patterns := [];
    var i := 0;
    while i < |rows|
      invariant 0 <= i <= |rows|
      invariant |patterns| == i
      invariant forall j :: 0 <= j < i ==> patterns[j] == Project(rows[j])
    {
      var row := rows[i];
      var referenceType: Option<ReferenceType> := None;
      if row.rowType == Some("Import") {
        referenceType := Some(ImportRef);
      } else if row.rowType == Some("Definition") {
        referenceType := Some(DefinitionRef);
      } else if row.rowType == Some("Call") {
        referenceType := Some(CallRef);
      }
      var moduleName := if row.moduleName.Some? then row.moduleName.value else "";
      patterns := patterns + [LanguagePattern("Python", moduleName,
                                              if referenceType == Some(DefinitionRef) then row.file else Some(""),
                                              if referenceType in {Some(CallRef), Some(ImportRef)} then row.file else Some(""),
                                              referenceType)];
      i := i + 1;
    }
  }
}
