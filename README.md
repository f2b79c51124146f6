# repo_ai — a Dafny model of the repository parsers, the file-format cleaners and the file-type counter

repo_ai is a collection of Python scripts and a small React dashboard. Its core is a family of
*repository parsers*. Each walks a Python source tree, parses every `.py` file with `ast`, and
records the file's imports, function and class definitions and calls. The variants differ in
their output: a flat CSV of records, a nested JSON document, or Neo4j write transactions. Two
follow-up scripts read the CSV back. One classifies the imported module names into import
patterns. The other joins uses to definitions to draw a dependency graph between files. Beside
the parsers sit a scraper that turns the Wikipedia "List of file formats" into extension
entries, a script that cleans and checks the scraped CSV, and a dashboard that counts uploaded
files by MIME subtype.

This project models that core in Dafny, one module per source file:

| module | file | form |
|---|---|---|
| `PyAst`, `PyPaths` | (shared) | the nodes `ast.walk` yields, as a closed datatype, and the `functions` list all parsers collect; `os.path.join` and `Path(...).name` |
| `ParseAndClassify` | backend/_parse_and_classify_python.py | class `GitHubRepoParser` with the `results` list and three symbol tables as fields |
| `ParsePythonRepos` | backend/parse_python_repos.py | class `GitHubRepoParser` with the `results` list as a field |
| `RepoJson` | (shared) | the per-file name lists and the `repo_data` document of both JSON parsers |
| `BackendJsonParser` | backend/parser/parser.py | the tolerant JSON parser: a failing file gives three empty lists |
| `JsonParser` | parser/parser.py | the strict JSON parser: a failing file aborts the walk |
| `Neo4jParser` | backend/parser-cj4.py | class `RepoParser`; the Neo4j session is the sequence of issued writes |
| `ClassifyImports` | backend/classify_python_repos.py | import-pattern classification and the language-pattern projection |
| `MappingDependencies` | backend/_mapping_dependencies.py | the two passes that build `definition_map` and `edges` |
| `WikiFormats` | backend/_getting_wiki_data.py | parsing list items into entries, saving them, cleaning them in place |
| `WikiCleaning` | backend/_cleaning_wiki_data.py | in-place cleaning over an array of rows, and the four checks |
| `FileTypeCount` | src/component/AnalysisDashboard.tsx, src/components/AnalysisDashboard.tsx | `getFileTypeCount`, the same code in both dashboards |

`Wrappers` (Option), `Strings` (Python's `strip`, `split`, `replace`, `in`, ASCII `upper`/`lower`)
and `Seqs` (sequence lemmas) are helpers.

Every loop of the source is a `method` with a `while` loop. Each loop is proved against a
specification function over the whole input, and the lemmas state the properties of that
function:

- Each list holds exactly the definitions, calls or imports of the file, in walk order.
- `results` only grows, and a file that fails to parse adds nothing to it.
- Symbol tables are updated so that the last binding of a name wins.
- The "Class Call" branch of `_parse_and_classify_python.py` is written out in the `elif` chain and can never fire.
- Neo4j writes stop at the first file that raises.
- Every cleaned extension matches `^\.[A-Z]{2,15}$`.
- The duplicate count equals the number of rows minus the number of distinct keys.
- The per-type counts add up to the number of files.

The mutating scripts keep their mutation:

- The parser objects are classes with `modifies` clauses.
- `clean_file_formats` works in place on an `array` in both wiki scripts.
- `getFileTypeCount` updates a map in a loop.

Points where the code may surprise a reader:

- The walk order is whatever `rglob` or `os.walk` yields, not lexical path order. The model takes the order as an input sequence.
- `backend/_mapping_dependencies.py` builds its definition map from "Function Definition" rows only, keyed by `module_name`. Class definitions are not used, and there is no lookup by qualifier first and symbol second.
- `parser/parser.py` and `backend/parser-cj4.py` do not catch parse errors. A failing file ends the whole walk: `JsonParser.ParseRepository` returns None, and `Neo4jParser` reports `raised`.
- In `_parse_and_classify_python.py` a failed clone is only logged. The run goes on if the path exists. In `parse_python_repos.py` it raises (`check=True`).
- `_parse_and_classify_python.py` writes a call's module as the table entry seen *at that node*. The table is never reset, so it includes imports of earlier files.

## Model

| member | source | states |
|---|---|---|
| PyAst.ModuleOrEmpty | backend/_parse_and_classify_python.py:63 | a from-import without a module reads as ""; a named module is kept |
| PyPaths.JoinPath | backend/parser/parser.py:49 | the joined path ends with the file name |
| PyPaths.PathName | backend/_parse_and_classify_python.py:24 | the name of a local folder is a single path component, with no "/" |
| ParseAndClassify.RemoteRepoName | backend/_parse_and_classify_python.py:24 | the name derived from a remote source contains no "/" |
| ParseAndClassify.RemoteSourceUnstripped | backend/_parse_and_classify_python.py:23-24 | the `rstrip("/")` of the remote branch never acts: a remote source ends in ".git" |
| ParseAndClassify.RemoteRepoNameOfUrl | backend/_parse_and_classify_python.py:23-24 | a source `base/name.git` whose base starts with "http" is remote, and its repo name is `name` |
| ParseAndClassify.PlainImportRecords | backend/_parse_and_classify_python.py:51-59 | one Import record per alias of `import a, b`, with the imported name as module and the current file as file_used |
| ParseAndClassify.FromImportRecords | backend/_parse_and_classify_python.py:62-71 | one Import record per name of `from m import ...`, with module m and the imported name as function |
| ParseAndClassify.BindNames | backend/_parse_and_classify_python.py:60 | `imported_modules` gains every imported name, bound to itself (plain) or to the source module (from-import); other names keep their binding |
| ParseAndClassify.GitHubRepoParser.constructor | backend/_parse_and_classify_python.py:20-29 | remote mode iff the source starts with "http" and ends with ".git"; repo name per mode; empty results and tables |
| ParseAndClassify.GitHubRepoParser.CloneRepo | backend/_parse_and_classify_python.py:31-42 | cloning happens iff remote and the target is missing; the path exists afterwards iff it existed or the clone succeeded |
| ParseAndClassify.GitHubRepoParser.ExtractAstData | backend/_parse_and_classify_python.py:44-130 | the five lists and the new tables are the single-pass extraction over the walked nodes; `results` is unchanged; the class-call list is empty |
| ParseAndClassify.GitHubRepoParser.VisitNode | backend/_parse_and_classify_python.py:49-128 | one node updates lists and tables as the extraction step for that node's kind says |
| ParseAndClassify.GitHubRepoParser.RecordImports | backend/_parse_and_classify_python.py:52-72 | the import loop appends one record per name and rebinds exactly those names in `imported_modules` |
| ParseAndClassify.GitHubRepoParser.ParseFile | backend/_parse_and_classify_python.py:132-144 | a file that fails to parse changes nothing; otherwise its imports, definitions, calls, class definitions and class calls are appended in that order |
| ParseAndClassify.GitHubRepoParser.Run | backend/_parse_and_classify_python.py:162-184 | None when the repository path is missing afterwards (and nothing parsed) or when no record was collected; otherwise every file is scanned and the CSV path is returned |
| ParseAndClassify.DefinitionsOf | backend/_parse_and_classify_python.py:75-82 | every definition record has the current file as module and as file_defined, and an empty file_used |
| ParseAndClassify.ExtractImports | backend/_parse_and_classify_python.py:51-72 | the import records depend only on the import nodes, whatever the tables hold |
| ParseAndClassify.ExtractDefinitions | backend/_parse_and_classify_python.py:75-83 | the definition records are one per FunctionDef, in walk order |
| ParseAndClassify.ClassDefinitionsOf | backend/_parse_and_classify_python.py:86-93 | every class definition record is a "Class Definition" with the current file as module and as file_defined, and an empty file_used |
| ParseAndClassify.ExtractClassDefinitions | backend/_parse_and_classify_python.py:86-94 | the class definition records are one per ClassDef, in walk order |
| ParseAndClassify.ExtractCalls | backend/_parse_and_classify_python.py:97-117 | one Call record per call whose name or attribute is non-empty; each is stamped with the current file and has a non-empty function |
| ParseAndClassify.ExtractNoClassCalls | backend/_parse_and_classify_python.py:119-128 | the class-call branch, written out in the `elif` chain after the Call branch, never fires, so the class-call list stays empty |
| ParseAndClassify.NoClassCalls | backend/_parse_and_classify_python.py:119-128 | no scan ever yields a "Class Call" record |
| ParseAndClassify.NoClassCallsInFile | backend/_parse_and_classify_python.py:119-144 | no file's records contain a "Class Call": imports, definitions, calls and class definitions carry other kinds and the class-call list is empty |
| ParseAndClassify.ImportedLastWins | backend/_parse_and_classify_python.py:60 | after a file, each name is bound by the last import in the file that binds it, else it keeps its earlier binding |
| ParseAndClassify.StepImported | backend/_parse_and_classify_python.py:72 | one node rebinds exactly the names it imports |
| ParseAndClassify.CallSeesEarlierImports | backend/_parse_and_classify_python.py:101-108 | a bare-name call gets the module of the latest binding of its name (None if there is none); an attribute call on `base` gets `base`'s binding, or `base` itself |
| ParseAndClassify.DefinedFunctionsInFile | backend/_parse_and_classify_python.py:83 | after a file, every name that file defines maps to it; the other names are untouched |
| ParseAndClassify.DefinedFunctionsLastWins | backend/_parse_and_classify_python.py:83 | across a scan, `defined_functions[name]` is the last parsed file that defines `name` |
| ParseAndClassify.DefinedClassesInFile | backend/_parse_and_classify_python.py:94 | after a file, every class that file defines maps to it; the other names are untouched |
| ParseAndClassify.DefinedClassesLastWins | backend/_parse_and_classify_python.py:94 | across a scan, `defined_classes[name]` is the last parsed file that defines class `name` |
| ParseAndClassify.ScanAppends | backend/_parse_and_classify_python.py:144 | a later file only appends to `results`, and a failing file appends nothing |
| ParsePythonRepos.Cells | backend/parse_python_repos.py:106-109 | a row writes five cells, its type label and path among them, and an empty alias cell exactly for a missing or empty alias |
| ParsePythonRepos.UrlRepoName | backend/parse_python_repos.py:20 | the repository name derived from a URL has no "/" |
| ParsePythonRepos.UrlRepoNameOfUrl | backend/parse_python_repos.py:19-20 | `base/name` and `base/name.git` both name the repository `name` |
| ParsePythonRepos.TrailingSlashNamesNothing | backend/parse_python_repos.py:20-21 | a URL ending in "/" gives the empty repository name |
| ParsePythonRepos.OutputFileNamesSeparateModes | backend/parse_python_repos.py:95-100 | a cloned repository and a local folder never write the same file |
| ParsePythonRepos.OutputFileNameDeterminesRepo | backend/parse_python_repos.py:95-100 | in one mode and on one day, two runs write the same file iff the repo names agree |
| ParsePythonRepos.NodeImports | backend/parse_python_repos.py:70-77 | a plain import yields (name, asname) per alias; a from-import yields (module or "", name) per alias; other nodes yield nothing |
| ParsePythonRepos.CallsOfMembers | backend/parse_python_repos.py:84-85 | the calls listed are exactly the names of the file's bare-name calls |
| ParsePythonRepos.ImportsComplete | backend/parse_python_repos.py:70-77 | every alias of every import node appears among the imports |
| ParsePythonRepos.ImportsSound | backend/parse_python_repos.py:70-77 | every import entry comes from an alias of an import node |
| ParsePythonRepos.FileRowsShape | backend/parse_python_repos.py:53-60 | each row carries the file path and empty unused cells; Import rows come before Definition rows, which come before Call rows |
| ParsePythonRepos.FileRowsCount | backend/parse_python_repos.py:50-60 | one row per import, definition and bare-name call; a Definition or Call row exists iff the matching node does |
| ParsePythonRepos.ScanRowsConcat | backend/parse_python_repos.py:37-39 | the rows of a scan are the rows of each file in turn |
| ParsePythonRepos.FailedFileAddsNothing | backend/parse_python_repos.py:43-48 | a file that fails to read or parse adds no row |
| ParsePythonRepos.GitHubRepoParser.constructor | backend/parse_python_repos.py:16-22 | remote mode iff the source starts with "https"; repo name per mode; empty results |
| ParsePythonRepos.GitHubRepoParser.CloneRepo | backend/parse_python_repos.py:24-32 | cloning happens iff remote and the target is missing; the call raises iff it clones and the clone fails |
| ParsePythonRepos.GitHubRepoParser.ExtractAstData | backend/parse_python_repos.py:62-87 | the three lists are the imports, definitions and bare-name calls of the walked nodes |
| ParsePythonRepos.GitHubRepoParser.PlainImportEntries | backend/parse_python_repos.py:71-72 | the plain-import loop yields (name, asname) per alias |
| ParsePythonRepos.GitHubRepoParser.FromImportEntries | backend/parse_python_repos.py:75-77 | the from-import loop yields (module, name) per alias |
| ParsePythonRepos.GitHubRepoParser.ParseFile | backend/parse_python_repos.py:41-60 | `results` grows by exactly the file's rows, and by none for a failing file |
| ParsePythonRepos.GitHubRepoParser.ParsePythonFiles | backend/parse_python_repos.py:34-39 | `results` grows by the rows of every file, in order |
| ParsePythonRepos.GitHubRepoParser.SaveResultsToCsv | backend/parse_python_repos.py:89-111 | the mode- and timestamp-dependent file name; a header followed by one line per result, also when there are no results |
| ParsePythonRepos.GitHubRepoParser.Run | backend/parse_python_repos.py:113-117 | a failing clone raises before anything is parsed; otherwise every file is parsed and the table written is the header followed by one line per result |
| RepoJson.AliasNames | backend/parser/parser.py:27-28 | one name per alias, in order |
| PyAst.FunctionsOfMembers | backend/parser/parser.py:22-23 | the functions every parser lists are exactly the file's FunctionDef names (also parse_python_repos.py:80-81, parser/parser.py:16-17, parser-cj4.py:29-30) |
| RepoJson.ClassesOfMembers | backend/parser/parser.py:24-25 | the classes listed are exactly the file's ClassDef names |
| RepoJson.ImportsComplete | backend/parser/parser.py:26-28 | every name imported by either import form is listed |
| RepoJson.ImportsSound | backend/parser/parser.py:26-28 | every listed import comes from an import statement |
| RepoJson.ImportFormsAgree | parser/parser.py:20-22 | a from-import contributes the same names as a plain import of the same aliases |
| RepoJson.WalkNodes | parser/parser.py:15-24 | the walk loop yields the functions, classes and imports of the file |
| RepoJson.AliasNameList | parser/parser.py:21-22 | the alias loop yields the alias names |
| RepoJson.KeysAreFiles | backend/parser/parser.py:55-58 | the three maps have exactly the listed files as keys |
| RepoJson.FilesCount | backend/parser/parser.py:46-55 | at most one listed path per visited entry |
| RepoJson.FilesEndInPy | backend/parser/parser.py:48 | every listed path ends in ".py" |
| RepoJson.FilesComplete | backend/parser/parser.py:46-55 | every visited ".py" entry is listed |
| RepoJson.FilesSound | backend/parser/parser.py:46-55 | every listed path is a visited ".py" entry |
| RepoJson.LastVisitWins | backend/parser/parser.py:56-58 | a path's lists are those of its last visit; a file that failed to parse is listed with three empty lists |
| BackendJsonParser.ParseFile | backend/parser/parser.py:10-30 | three empty lists for a failing file, else the file's functions, classes and imports |
| BackendJsonParser.ParseRepository | backend/parser/parser.py:33-61 | the error object iff the path is missing, else the document collected over every ".py" entry |
| JsonParser.ParseFile | parser/parser.py:6-24 | None iff the file fails to parse, else its functions, classes and imports |
| JsonParser.ParseRepository | parser/parser.py:27-52 | None iff some ".py" file fails; otherwise the same document the tolerant parser builds |
| Neo4jParser.NormalizedPath | backend/parser-cj4.py:23 | the stored path never starts or ends with a separator and is no longer than the file path |
| Neo4jParser.RemoveAll | backend/parser-cj4.py:23 | removing the repository path never lengthens the file path |
| Neo4jParser.RelativePathOfFile | backend/parser-cj4.py:23 | a file below the root is stored under its path relative to the root |
| Neo4jParser.NodeImportEntries | backend/parser-cj4.py:32-37 | one entry per alias of a plain import, but a single entry (the module, possibly None) per from-import |
| Neo4jParser.DependenciesMembers | backend/parser-cj4.py:39-43 | a dependency is listed iff some call's callee is that bare name or an attribute of that name |
| Neo4jParser.NoneImportFromRelative | backend/parser-cj4.py:37 | None is among the imports iff some from-import has no module |
| Neo4jParser.FileWritesOrder | backend/parser-cj4.py:47-56 | the file node is written first, then the functions, then the imports, then the dependencies, each in list order |
| Neo4jParser.RaisedStops | backend/parser-cj4.py:12-16 | once a file raises, nothing after it is parsed or written |
| Neo4jParser.RaisesComplete | backend/parser-cj4.py:12-21 | the walk raises whenever some ".py" file raises |
| Neo4jParser.RaisesSound | backend/parser-cj4.py:12-21 | the walk raises only at a ".py" file that raises |
| Neo4jParser.RepoParser.constructor | backend/parser-cj4.py:6-8 | keeps the root; nothing has been written yet |
| Neo4jParser.RepoParser.ParseFile | backend/parser-cj4.py:18-45 | raises iff reading, parsing or an attribute call on a non-name raises, and then writes nothing; otherwise issues the file's writes |
| Neo4jParser.RepoParser.StoreInNeo4j | backend/parser-cj4.py:47-56 | appends exactly the file's writes in that order |
| Neo4jParser.RepoParser.ParseRepository | backend/parser-cj4.py:10-16 | the writes and the raise flag are those of the walk that stops at the first raising file |
| ClassifyImports.Chomp | backend/classify_python_repos.py:32-40 | `$` may match just before one final newline |
| ClassifyImports.SelectiveShape | backend/classify_python_repos.py:36-38 | Selective iff the name is two word runs joined by one "." |
| ClassifyImports.AliasedShape | backend/classify_python_repos.py:40-42 | Aliased iff the name is two word runs joined by " as " |
| ClassifyImports.TwoDotsUnknown | backend/classify_python_repos.py:44-46 | a module path with two dots, such as "a.b.c", is Unknown Pattern |
| ClassifyImports.BucketsHold | backend/classify_python_repos.py:49 | a module is in the bucket of type t iff it is an accepted module classified as t |
| ClassifyImports.ImportModulesComplete | backend/classify_python_repos.py:17-29 | every Import row with a non-blank string module is collected |
| ClassifyImports.ImportModulesSound | backend/classify_python_repos.py:17-29 | every collected module comes from such a row |
| ClassifyImports.ClassifyImportPatterns | backend/classify_python_repos.py:10-56 | the rules are exactly one per collected module, with that module's pattern type and regex |
| ClassifyImports.ReferenceOf | backend/classify_python_repos.py:76-83 | Import, Definition and Call rows are named as such (each iff); any other type gives None |
| ClassifyImports.Project | backend/classify_python_repos.py:71-92 | language "Python", module or ""; the File cell goes to file_defined iff the row's Type is "Definition", and to file_used iff it is "Call" or "Import" |
| ClassifyImports.ProcessLanguagePatterns | backend/classify_python_repos.py:64-92 | one projected row per input row, in order |
| MappingDependencies.DropIncomplete | backend/_mapping_dependencies.py:9 | the kept rows are exactly the rows with file_used and reference_type, in order |
| MappingDependencies.DefinedNames | backend/_mapping_dependencies.py:15-17 | a name is in the map iff some row defines it |
| MappingDependencies.LastDefinitionWins | backend/_mapping_dependencies.py:15-17 | a name maps to the file of the last row defining it |
| MappingDependencies.EdgesWellFormed | backend/_mapping_dependencies.py:21-30 | every edge is an import or call of a defined name, from its defining file to a different using file |
| MappingDependencies.EdgesConcat | backend/_mapping_dependencies.py:21-30 | edges follow row order, and repeated rows give repeated edges |
| MappingDependencies.EdgeCount | backend/_mapping_dependencies.py:27-30 | at most one edge per import or call row |
| MappingDependencies.MapDependencies | backend/_mapping_dependencies.py:9-30 | the map and the edges are those of the complete rows |
| MappingDependencies.FirstPass | backend/_mapping_dependencies.py:15-17 | the first loop builds the definition map |
| MappingDependencies.SecondPass | backend/_mapping_dependencies.py:20-30 | the second loop collects the edges |
| WikiFormats.NotesOf | backend/_getting_wiki_data.py:105-108 | at most one note per link |
| WikiFormats.NotesComplete | backend/_getting_wiki_data.py:106-108 | every link with an href and a title contributes its note |
| WikiFormats.NotesSound | backend/_getting_wiki_data.py:106-108 | every note comes from such a link |
| WikiFormats.CollectNotes | backend/_getting_wiki_data.py:105-108 | the link loop collects exactly those notes |
| WikiFormats.SeparatorParts | backend/_getting_wiki_data.py:90-92 | the item text is cut into one or two parts |
| WikiFormats.SeparatorCut | backend/_getting_wiki_data.py:90-99 | cut at the first " – ", else at the first " - ", else kept whole; the parts rejoin to the text |
| WikiFormats.DescriptionText | backend/_getting_wiki_data.py:94-99 | an item without a separator has an empty description |
| WikiFormats.CleanPiece | backend/_getting_wiki_data.py:102-112 | a cleaned extension uses only the piece's characters and is trimmed |
| WikiFormats.CleanedPieces | backend/_getting_wiki_data.py:102-112 | every cleaned piece is empty, or non-empty, comma-free and trimmed |
| WikiFormats.NonEmptyComplete | backend/_getting_wiki_data.py:113 | every non-empty extension makes an entry |
| WikiFormats.NonEmptySound | backend/_getting_wiki_data.py:113 | no empty extension makes an entry |
| WikiFormats.ExtensionsShape | backend/_getting_wiki_data.py:111-113 | every extension of an entry is non-empty, comma-free and trimmed |
| WikiFormats.ItemEntryList | backend/_getting_wiki_data.py:86-120 | the body of the item loop yields the item's entries |
| WikiFormats.EntriesParsed | backend/_getting_wiki_data.py:114-120 | every entry has a non-empty category and a well-formed extension |
| WikiFormats.LastHeadingWins | backend/_getting_wiki_data.py:71-78 | the current category is that of the last heading, from its span when there is one |
| WikiFormats.NoHeadingNoEntries | backend/_getting_wiki_data.py:82 | lists before the first heading yield no entry |
| WikiFormats.EntryList | backend/_getting_wiki_data.py:111-120 | the extension loop yields one entry per extension, in order |
| WikiFormats.AppendListEntries | backend/_getting_wiki_data.py:83-125 | the item loop appends the entries of every item of the list, in order |
| WikiFormats.ParseFileFormats | backend/_getting_wiki_data.py:59-127 | the loop yields the entries of all lists under their categories |
| WikiFormats.MatchWithoutNewline | backend/_getting_wiki_data.py:22 | without a final newline the regex holds iff the text is "." and 2 to 15 capitals |
| WikiFormats.CandidateEnds | backend/_getting_wiki_data.py:189-210 | the candidate starts with "." and never ends in a newline |
| WikiFormats.CandidateAccepted | backend/_getting_wiki_data.py:213 | an accepted candidate matches `^\.[A-Z]{2,15}$` and has no space |
| WikiFormats.CleanEntry | backend/_getting_wiki_data.py:187-219 | keys are kept and description, category and popularity exist; clean iff the candidate passes, and only a clean entry gets the candidate |
| WikiFormats.CleanedIsTrimmed | backend/_getting_wiki_data.py:199-205 | the cleaned entry's description, category and popularity are those of the trimmed entry |
| WikiFormats.CleanedDescription | backend/_getting_wiki_data.py:199-203 | the description changes only with a separator: then it is the tail, a space and the old description, trimmed |
| WikiFormats.CleanedTrims | backend/_getting_wiki_data.py:204-205 | category and popularity are trimmed, and "" when missing |
| WikiFormats.PartitionCount | backend/_getting_wiki_data.py:186-219 | each entry with an extension lands in exactly one of the clean and dirty lists |
| WikiFormats.PartitionComplete | backend/_getting_wiki_data.py:213-219 | a passing entry goes to the clean list and a failing one to the dirty list |
| WikiFormats.CleanedValid | backend/_getting_wiki_data.py:213-219 | every clean extension matches the regex and has no space |
| WikiFormats.CleanAt | backend/_getting_wiki_data.py:187-219 | one loop step updates the entry in place and extends one of the two lists |
| WikiFormats.CleanFileFormats | backend/_getting_wiki_data.py:164-223 | the entries are updated in place and the clean and dirty lists are returned, in order |
| WikiFormats.KeyUnionComplete | backend/_getting_wiki_data.py:142-144 | every key of every entry is in the field set |
| WikiFormats.KeyUnionSound | backend/_getting_wiki_data.py:142-144 | every field comes from some entry |
| WikiFormats.PopularityColumn | backend/_getting_wiki_data.py:147-149 | the header starts extension, description, category, and adds popularity iff some entry has one |
| WikiFormats.CsvRow | backend/_getting_wiki_data.py:157-160 | one cell per column: the entry's value, or "" when it has none |
| WikiFormats.SaveFileFormats | backend/_getting_wiki_data.py:129-162 | nothing iff there are no entries; otherwise the chosen header and one line per entry, in order |
| WikiCleaning.CleanRow | backend/_cleaning_wiki_data.py:33-47 | category and notes kept; a row without an extension unchanged; raises iff there is a separator and the description is None; the description changes only with a separator |
| WikiCleaning.CleanedExtension | backend/_cleaning_wiki_data.py:35-42 | a cleaned extension has no en dash and no ", " and is trimmed |
| WikiCleaning.CleanedDescription | backend/_cleaning_wiki_data.py:41-47 | the normalised extension is the new extension, ", " and a tail that now leads the trimmed description |
| WikiCleaning.FirstRaiseIsFirst | backend/_cleaning_wiki_data.py:32-46 | the first raising row is named, and None iff no row raises |
| WikiCleaning.CleanEntry | backend/_cleaning_wiki_data.py:33-47 | one entry is cleaned in place and the others are left alone |
| WikiCleaning.CleanFileFormats | backend/_cleaning_wiki_data.py:25-50 | it stops at the first raising row; rows up to it are cleaned with clean extensions, rows after it are untouched |
| WikiCleaning.HasUnexpectedPattern | backend/_cleaning_wiki_data.py:54 | the patterns are the en dash, its mojibake and a double space |
| WikiCleaning.PatternHitsIff | backend/_cleaning_wiki_data.py:58-62 | a row's hit names a column iff some pattern occurs in that cell |
| WikiCleaning.UnexpectedRaises | backend/_cleaning_wiki_data.py:59-61 | the check raises iff some row lacks an extension or a description |
| WikiCleaning.UnexpectedIff | backend/_cleaning_wiki_data.py:57-62 | an issue is reported iff a checked cell holds one of the patterns |
| WikiCleaning.UnexpectedOrdered | backend/_cleaning_wiki_data.py:57-62 | the issues come row by row |
| WikiCleaning.RowUnexpected | backend/_cleaning_wiki_data.py:58-62 | the pattern loop of one row appends its hits, or raises |
| WikiCleaning.CheckUnexpectedCharacters | backend/_cleaning_wiki_data.py:52-71 | the loop yields the checked issues, or raises |
| WikiCleaning.ColumnIndex | backend/_cleaning_wiki_data.py:78 | each column has its place among the four required fields |
| WikiCleaning.MissingIff | backend/_cleaning_wiki_data.py:77-80 | an issue is reported iff that cell is "" or None |
| WikiCleaning.MissingOrdered | backend/_cleaning_wiki_data.py:77-80 | issues are ordered by row, then column, with none repeated |
| WikiCleaning.RowMissing | backend/_cleaning_wiki_data.py:78-80 | the field loop of one row appends its missing cells |
| WikiCleaning.CheckMissingFields | backend/_cleaning_wiki_data.py:73-89 | the loop yields the missing-field issues |
| WikiCleaning.LowerKeys | backend/_cleaning_wiki_data.py:97 | one lower-cased key per row |
| WikiCleaning.FirstSeenIsFirst | backend/_cleaning_wiki_data.py:98-101 | `seen` holds exactly the keys met, each with its first index |
| WikiCleaning.DuplicatesIff | backend/_cleaning_wiki_data.py:96-101 | a row is reported iff its key occurs at an earlier row; a first occurrence never is |
| WikiCleaning.DuplicatesCount | backend/_cleaning_wiki_data.py:96-101 | the number of duplicates is the number of rows less the number of distinct keys |
| WikiCleaning.CheckDuplicateExtensions | backend/_cleaning_wiki_data.py:91-110 | raises iff some extension is None; otherwise the duplicates of the lower-cased keys |
| WikiCleaning.UndescribedIff | backend/_cleaning_wiki_data.py:116-118 | a row is reported iff its description is "" (None is not) |
| WikiCleaning.UndescribedOrdered | backend/_cleaning_wiki_data.py:116-118 | rows are reported in increasing order, each once |
| WikiCleaning.CheckExtensionsWithoutDescriptions | backend/_cleaning_wiki_data.py:112-127 | the loop yields the undescribed rows |
| FileTypeCount.TypeKey | src/component/AnalysisDashboard.tsx:23 | every file gets a non-empty key |
| FileTypeCount.TypeKeyUpper | src/component/AnalysisDashboard.tsx:23 | a key other than "Other" has no lower-case letter |
| FileTypeCount.TypeKeySegment | src/components/AnalysisDashboard.tsx:19 | the key is "Other" for "unknown" or a missing or empty subtype, else the upper-cased second segment |
| FileTypeCount.HistogramCounts | src/component/AnalysisDashboard.tsx:24 | a key is counted iff some file has it, and its count is its number of occurrences |
| FileTypeCount.KeyOrderKeys | src/components/AnalysisDashboard.tsx:78 | `Object.keys` lists the counted keys, each once |
| FileTypeCount.CountsSum | src/components/AnalysisDashboard.tsx:78 | the counts of the listed keys add up to the number of files |
| FileTypeCount.KeyCountBound | src/component/AnalysisDashboard.tsx:118 | the number of file types shown is at most the number of files |
| FileTypeCount.GetFileTypeCount | src/component/AnalysisDashboard.tsx:20-27 | the loop yields the histogram of the files' keys (the same code is at src/components/AnalysisDashboard.tsx:16-23) |

## Left out

- Cloning, the filesystem walk, file reading and writing, CSV and JSON serialisation, logging, pandas, BeautifulSoup, networkx and matplotlib are not modelled. Their results are parameters: whether a path exists, whether `git clone` succeeds, the walked entries in order, and each file's parse outcome (`None` for an exception).
- `datetime.now().strftime("%m%d%y")` is a parameter (`timestamp`).
- `ast.walk` is not modelled. A file is the sequence of nodes it yields, in walk order, with only the node kinds the parsers inspect.
- Unicode NFKD normalisation is an uninterpreted function parameter (`nfkd`).
- `str.upper`, `str.lower` and JavaScript `toUpperCase` are modelled on ASCII letters only. Other letters are left unchanged.
- `Path(source).resolve()` and `Path(source).name` are modelled on POSIX paths without a filesystem. The last non-empty, non-"." component is taken.
- The Neo4j session is the sequence of issued writes. What the Cypher `MERGE` statements build in the graph (`_store_file` and the other three) is not modelled, and neither is closing the driver.
- FileTypeCount.KeyOrder: `Object.keys` lists integer-like keys first, in numeric order. The model lists every key by first insertion, which differs only for such keys.
- WikiCleaning: a row lacking a column entirely (a `KeyError`) is not modelled. `csv.DictReader` gives every row every header column.
- WikiFormats: the per-item `try`/`except` around the item loop is not modelled. On the modelled values nothing in the loop body raises.
- WikiFormats: the matching of `h2`, `h3`, `ul` and `li` elements is not modelled. The page is the sequence of headings and lists.
- MappingDependencies: pandas NaN in `module_name` is modelled as a missing value that never matches a definition.
- ClassifyImports.ClassifyImportPatterns: the output rule list is stated as a set. The iteration order of a Python `set` and `defaultdict` is not fixed.
- The `__main__` blocks of each script (the wiring from one stage to the next) and `save_parsed_data` of `backend/parser/parser.py` are file I/O only and are not modelled.
