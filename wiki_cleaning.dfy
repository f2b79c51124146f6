/** `backend/_cleaning_wiki_data.py`: the second pass over the scraped file-format table. It
    cleans the extension column in place (Unicode NFKD normalisation, en dashes turned into
    ", ", the text after the first ", " moved to the description) and then runs four
    data-quality checks, each of which returns the list of issues it found. The CSV file read
    and written is represented by its rows. */
module WikiCleaning {
  import opened Wrappers
  import opened Strings
  import opened Seqs

  /** One row as `csv.DictReader` reads it. The header names the four columns, so every key is
      present; a cell missing from a short line is `None`. */
  datatype Row = Row(category: Option<string>, extension: Option<string>, description: Option<string>, notes: Option<string>)

  const CommaSpace: string := ", "

  // ---------------------------------------------------------------- clean_file_formats

  /** The extension after NFKD normalisation (`nfkd` stands for `unicodedata.normalize("NFKD", _)`)
      and with every en dash replaced by ", ". */
  function Normalized(nfkd: string -> string, ext: string): string {
    ReplaceAll(nfkd(ext), [EnDash], CommaSpace)
  }

  /** The row left behind by cleaning one entry, and whether cleaning raised. When the
      extension holds a separator but the description cell is `None`, `None.strip()` raises an
      AttributeError after the extension has already been rewritten. */
  datatype Outcome = Outcome(row: Row, raised: bool)

  /** An extension as cleaning leaves it: no en dash, no ", ", and no surrounding whitespace. */
  predicate ExtensionClean(e: string) {
    EnDash !in e && !Contains(e, CommaSpace) && Strip(e) == e
  }

  /** The body of the loop of `clean_file_formats` for one entry. */
  function CleanRow(nfkd: string -> string, r: Row): (o: Outcome)
    ensures o.row.category == r.category && o.row.notes == r.notes
    ensures r.extension.None? ==> o == Outcome(r, false)
    ensures r.extension.Some? ==> o.row.extension.Some?
    ensures o.raised <==> r.extension.Some? && Contains(Normalized(nfkd, r.extension.value), CommaSpace) && r.description.None?
    ensures o.row.description != r.description ==> r.extension.Some? && Contains(Normalized(nfkd, r.extension.value), CommaSpace)
  {
    match r.extension
    case None => Outcome(r, false)
    case Some(ext) =>
      var parts := SplitOnce(Normalized(nfkd, ext), CommaSpace);
      var r1 := r.(extension := Some(Strip(parts[0])));
      if |parts| == 1 then Outcome(r1, false)
      else
        match r.description
        case None => Outcome(r1, true)
        case Some(d) => Outcome(r1.(description := Some(Strip(Strip(parts[1]) + " " + Strip(d)))), false)
  }

  predicate Raises(nfkd: string -> string, r: Row) {
    CleanRow(nfkd, r).raised
  }

  /** Every string extension is clean after cleaning, whether or not the row then raised. */
  lemma CleanedExtension(nfkd: string -> string, r: Row)
    requires r.extension.Some?
    ensures ExtensionClean(CleanRow(nfkd, r).row.extension.value)
  {
    var raw := nfkd(r.extension.value);
    var n := Normalized(nfkd, r.extension.value);
    assert EnDash !in CommaSpace;
    ReplaceCharRemoves(raw, EnDash, CommaSpace);
    var parts := SplitOnce(n, CommaSpace);
    var stem := parts[0];
    if |parts| == 2 {
      assert stem == n[..|stem|];
    }
    assert EnDash !in stem;
    assert !Contains(stem, CommaSpace);
    StripNotContains(stem, CommaSpace);
    StripIdempotent(stem);
    assert CleanRow(nfkd, r).row.extension.value == Strip(stem);
  }

  /** With a separator and a description, nothing of the normalised extension is lost: it is
      the new extension's text, ", ", and a tail that now leads the description, which is
      trimmed. */
  lemma CleanedDescription(nfkd: string -> string, r: Row)
    requires r.extension.Some? && r.description.Some?
    requires Contains(Normalized(nfkd, r.extension.value), CommaSpace)
    ensures var o := CleanRow(nfkd, r).row;
            o.extension.Some? && o.description.Some? &&
            exists stem, tail :: Normalized(nfkd, r.extension.value) == stem + CommaSpace + tail &&
              o.extension.value == Strip(stem) &&
              o.description.value == Strip(Strip(tail) + " " + Strip(r.description.value))
    ensures Strip(CleanRow(nfkd, r).row.description.value) == CleanRow(nfkd, r).row.description.value
  {
    var parts := SplitOnce(Normalized(nfkd, r.extension.value), CommaSpace);
    var joined := Strip(parts[1]) + " " + Strip(r.description.value);
    StripIdempotent(joined);
    assert CleanRow(nfkd, r).row.description.value == Strip(joined);
  }

  /** The index of the first element satisfying `p`. */
  function FirstWhere<T>(xs: seq<T>, p: T -> bool): (k: Option<nat>)
    ensures k.Some? ==> k.value < |xs|
  {
    if xs == [] then None
    else
      match FirstWhere(xs[..|xs| - 1], p)
      case Some(k) => Some(k)
      case None => if p(xs[|xs| - 1]) then Some(|xs| - 1) else None
  }

  /** `FirstWhere` names the first element satisfying `p`, and is `None` exactly when there
      is none. */
  lemma {:induction false} FirstWhereIsFirst<T>(xs: seq<T>, p: T -> bool)
    ensures FirstWhere(xs, p).None? <==> forall j :: 0 <= j < |xs| ==> !p(xs[j])
    ensures FirstWhere(xs, p).Some? ==>
              var k := FirstWhere(xs, p).value;
              p(xs[k]) && forall j :: 0 <= j < k ==> !p(xs[j])
  {
    if xs != [] {
      var init := xs[..|xs| - 1];
      FirstWhereIsFirst(init, p);
      assert forall j :: 0 <= j < |init| ==> init[j] == xs[j];
    }
  }

  /** Once a prefix has a first element satisfying `p`, the whole sequence has the same one. */
  lemma {:induction false} FirstWherePrefix<T>(xs: seq<T>, p: T -> bool, i: nat)
    requires i <= |xs| && FirstWhere(xs[..i], p).Some?
    ensures FirstWhere(xs, p) == FirstWhere(xs[..i], p)
    decreases |xs|
  {
    if i < |xs| {
      var init := xs[..|xs| - 1];
      assert init[..i] == xs[..i];
      FirstWherePrefix(init, p, i);
    } else {
      assert xs[..i] == xs;
    }
  }

  function RaisesIn(nfkd: string -> string): Row -> bool {
    r => Raises(nfkd, r)
  }

  /** The index of the first row whose cleaning raises; the rows after it are never reached. */
  function FirstRaise(nfkd: string -> string, rows: seq<Row>): (k: Option<nat>)
    ensures k.Some? ==> k.value < |rows|
  {
    FirstWhere(rows, RaisesIn(nfkd))
  }

  /** `FirstRaise` names the first raising row, and is `None` exactly when no row raises. */
  lemma FirstRaiseIsFirst(nfkd: string -> string, rows: seq<Row>)
    ensures FirstRaise(nfkd, rows).None? <==> forall j :: 0 <= j < |rows| ==> !Raises(nfkd, rows[j])
    ensures FirstRaise(nfkd, rows).Some? ==>
              var k := FirstRaise(nfkd, rows).value;
              Raises(nfkd, rows[k]) && forall j :: 0 <= j < k ==> !Raises(nfkd, rows[j])
  {
    FirstWhereIsFirst(rows, RaisesIn(nfkd));
  }

  /** Cleaning of entry `i`, as the statements of the loop body do it. */
  method CleanEntry(nfkd: string -> string, a: array<Row>, i: nat) returns (raised: bool)
    requires i < a.Length
    modifies a
    ensures a[i] == CleanRow(nfkd, old(a[i])).row
    ensures raised == Raises(nfkd, old(a[i]))
    ensures forall j :: 0 <= j < a.Length && j != i ==> a[j] == old(a[j])
  {
    raised := false;
    var entry := a[i];
    if entry.extension.Some? {
      var normalized := nfkd(entry.extension.value);
      normalized := ReplaceAll(normalized, [EnDash], CommaSpace);
      var parts := SplitOnce(normalized, CommaSpace);
      a[i] := entry.(extension := Some(Strip(parts[0])));
      if |parts| > 1 {
        match entry.description {
          case None =>
            raised := true;
          case Some(d) =>
            var description := Strip(parts[1]) + " " + Strip(d);
            a[i] := a[i].(description := Some(Strip(description)));
        }
      }
    }
  }

  /** `clean_file_formats`: cleans the rows in place, in order. It returns the index of the row
      at which it raised, if any; that row's extension is already rewritten and the rows after
      it are untouched. */
  method CleanFileFormats(nfkd: string -> string, a: array<Row>) returns (raised: Option<nat>)
    modifies a
    ensures raised == FirstRaise(nfkd, old(a[..]))
    ensures forall j :: 0 <= j < a.Length ==>
              a[j] == if raised.Some? && raised.value < j then old(a[j]) else CleanRow(nfkd, old(a[j])).row
    ensures forall j :: 0 <= j < a.Length && a[j].extension.Some? && (raised.None? || j <= raised.value) ==>
              ExtensionClean(a[j].extension.value)
  {
    ghost var rows := a[..];
    raised := None;
    var i := 0;
    while i < a.Length && raised.None?
      invariant 0 <= i <= a.Length
      invariant raised == FirstRaise(nfkd, rows[..i])
      invariant raised.Some? ==> raised.value == i - 1
      invariant forall j :: 0 <= j < i ==> a[j] == CleanRow(nfkd, rows[j]).row
      invariant forall j :: i <= j < a.Length ==> a[j] == rows[j]
    {
      TakeStep(rows, i);
      assert RaisesIn(nfkd)(rows[i]) == Raises(nfkd, rows[i]);
      var r := CleanEntry(nfkd, a, i);
      if r {
        raised := Some(i);
      }
      i := i + 1;
    }
    if raised.Some? {
      FirstWherePrefix(rows, RaisesIn(nfkd), i);
    } else {
      assert rows[..i] == rows;
    }
    forall j | 0 <= j < a.Length && a[j].extension.Some? && (raised.None? || j <= raised.value)
      ensures ExtensionClean(a[j].extension.value)
    {
      CleanedExtension(nfkd, rows[j]);
    }
  }

  // ---------------------------------------------------------------- the data-quality checks

  /** The four CSV fields the checks name; the scraper's entry keys are `WikiFormats.Column`. */
  datatype Column = CategoryColumn | ExtensionColumn | DescriptionColumn | NotesColumn

  /** One reported issue: the row, the column, and the cell's value. */
  datatype Issue = Issue(row: nat, column: Column, value: Option<string>)

  function Cell(r: Row, c: Column): Option<string> {
    match c
    case CategoryColumn => r.category
    case ExtensionColumn => r.extension
    case DescriptionColumn => r.description
    case NotesColumn => r.notes
  }

  // ---------------------------------------------------------------- check_unexpected_characters

  /** The en dash, the same dash read as UTF-8 bytes decoded as Windows-1252 ("\u00E2\u20AC\u201C"),
      and a double space. */
  const UnexpectedPatterns: seq<string> := [[EnDash], ['\U{00E2}', '\U{20AC}', '\U{201C}'], "  "]

  /** Some pattern of `ps` occurs in `s`. */
  predicate HasPattern(s: string, ps: seq<string>) {
    ps != [] && (HasPattern(s, ps[..|ps| - 1]) || Contains(s, ps[|ps| - 1]))
  }

  /** The three patterns spelled out. */
  lemma HasUnexpectedPattern(s: string)
    ensures HasPattern(s, UnexpectedPatterns) <==>
              EnDash in s || Contains(s, ['\U{00E2}', '\U{20AC}', '\U{201C}']) || Contains(s, "  ")
  {
    var ps := UnexpectedPatterns;
    var p2 := ps[..2];
    var p1 := p2[..1];
    assert p2[1] == ps[1] && p1 == [ps[0]] && p1[..0] == [];
    assert HasPattern(s, p1) == Contains(s, ps[0]);
    assert HasPattern(s, p2) == (HasPattern(s, p1) || Contains(s, ps[1]));
    assert HasPattern(s, ps) == (HasPattern(s, p2) || Contains(s, ps[2]));
    ContainsChar(s, EnDash);
  }

  /** The issue for one cell and one pattern, if the pattern occurs in it. */
  function Hit(i: nat, c: Column, v: string, p: string): seq<Issue> {
    if Contains(v, p) then [Issue(i, c, Some(v))] else []
  }

  /** The issues of row `i`, pattern by pattern, the extension before the description. */
  function PatternHits(i: nat, ext: string, desc: string, ps: seq<string>): (hits: seq<Issue>)
    ensures forall h :: h in hits ==> h.row == i
  {
    if ps == [] then []
    else
      var p := ps[|ps| - 1];
      PatternHits(i, ext, desc, ps[..|ps| - 1]) + (Hit(i, ExtensionColumn, ext, p) + Hit(i, DescriptionColumn, desc, p))
  }

  /** One more pattern adds its extension hit and then its description hit. */
  lemma PatternHitsStep(i: nat, ext: string, desc: string, ps: seq<string>, k: nat)
    requires k < |ps|
    ensures PatternHits(i, ext, desc, ps[..k + 1]) ==
              PatternHits(i, ext, desc, ps[..k]) + (Hit(i, ExtensionColumn, ext, ps[k]) + Hit(i, DescriptionColumn, desc, ps[k]))
  {
    TakeStep(ps, k);
  }

  /** A hit names the extension exactly when one of the patterns occurs in it, and likewise
      the description; no other column is ever named. */
  lemma {:induction false} PatternHitsIff(i: nat, ext: string, desc: string, ps: seq<string>, h: Issue)
    ensures h in PatternHits(i, ext, desc, ps) <==>
              h.row == i &&
              ((h.column == ExtensionColumn && h.value == Some(ext) && HasPattern(ext, ps)) ||
               (h.column == DescriptionColumn && h.value == Some(desc) && HasPattern(desc, ps)))
  {
    if ps != [] {
      var init := ps[..|ps| - 1];
      PatternHitsIff(i, ext, desc, init, h);
    }
  }

  /** A row whose extension or description is `None` makes `in` raise a TypeError. */
  predicate ChecksCells(r: Row) {
    r.extension.Some? && r.description.Some?
  }

  /** `check_unexpected_characters` over `rows`: `None` when it raises. */
  function UnexpectedIssues(rows: seq<Row>): (issues: Option<seq<Issue>>)
    ensures issues.Some? ==> forall h :: h in issues.value ==> h.row < |rows|
  {
    if rows == [] then Some([])
    else
      var n := |rows| - 1;
      match UnexpectedIssues(rows[..n])
      case None => None
      case Some(issues) =>
        var r := rows[n];
        if ChecksCells(r) then Some(issues + PatternHits(n, r.extension.value, r.description.value, UnexpectedPatterns))
        else None
  }

  /** The check raises exactly when some row lacks an extension or a description. */
  lemma {:induction false} UnexpectedRaises(rows: seq<Row>)
    ensures UnexpectedIssues(rows).None? <==> exists j :: 0 <= j < |rows| && !ChecksCells(rows[j])
  {
    if rows != [] {
      var init := rows[..|rows| - 1];
      UnexpectedRaises(init);
      assert forall j :: 0 <= j < |init| ==> init[j] == rows[j];
    }
  }

  /** An issue is reported exactly for a cell of a checked column holding one of the patterns. */
  lemma {:induction false} UnexpectedIff(rows: seq<Row>, h: Issue)
    requires UnexpectedIssues(rows).Some?
    ensures h in UnexpectedIssues(rows).value <==>
              h.row < |rows| && (h.column == ExtensionColumn || h.column == DescriptionColumn) &&
              h.value.Some? && h.value == Cell(rows[h.row], h.column) && HasPattern(h.value.value, UnexpectedPatterns)
  {
    if rows != [] {
      var n := |rows| - 1;
      var init := rows[..n];
      UnexpectedIff(init, h);
      var r := rows[n];
      PatternHitsIff(n, r.extension.value, r.description.value, UnexpectedPatterns, h);
      if h.row < n {
        assert init[h.row] == rows[h.row];
      }
    }
  }

  /** The issues come row by row. */
  lemma {:induction false} UnexpectedOrdered(rows: seq<Row>)
    requires UnexpectedIssues(rows).Some?
    ensures var issues := UnexpectedIssues(rows).value;
            forall x, y :: 0 <= x < y < |issues| ==> issues[x].row <= issues[y].row
  {
    if rows != [] {
      var n := |rows| - 1;
      var init := rows[..n];
      UnexpectedOrdered(init);
      var before := UnexpectedIssues(init).value;
      var r := rows[n];
      var hits := PatternHits(n, r.extension.value, r.description.value, UnexpectedPatterns);
      var issues := UnexpectedIssues(rows).value;
      assert issues == before + hits;
      forall x, y | 0 <= x < y < |issues| ensures issues[x].row <= issues[y].row {
        if y >= |before| {
          assert issues[y] == hits[y - |before|];
          assert issues[y] in hits;
          if x < |before| {
            assert issues[x] in before;
          } else {
            assert issues[x] == hits[x - |before|];
            assert issues[x] in hits;
          }
        }
      }
    }
  }

  /** The loop over the patterns for one row, appending to `issues`. */
  method RowUnexpected(i: nat, r: Row, issues: seq<Issue>) returns (out: Option<seq<Issue>>)
    ensures out == if ChecksCells(r) then Some(issues + PatternHits(i, r.extension.value, r.description.value, UnexpectedPatterns)) else None
  {
    var acc := issues;
    var k := 0;
    while k < |UnexpectedPatterns|
      invariant 0 <= k <= |UnexpectedPatterns|
      invariant k > 0 ==> ChecksCells(r)
      invariant ChecksCells(r) ==> acc == issues + PatternHits(i, r.extension.value, r.description.value, UnexpectedPatterns[..k])
      invariant k == 0 ==> acc == issues
    {
      var pattern := UnexpectedPatterns[k];
      if r.extension.None? {
        return None;
      }
      var ext := r.extension.value;
      var hit: seq<Issue> := [];
      if Contains(ext, pattern) {
        hit := [Issue(i, ExtensionColumn, Some(ext))];
      }
      if r.description.None? {
        return None;
      }
      var desc := r.description.value;
      if Contains(desc, pattern) {
        hit := hit + [Issue(i, DescriptionColumn, Some(desc))];
      }
      assert hit == Hit(i, ExtensionColumn, ext, pattern) + Hit(i, DescriptionColumn, desc, pattern);
      ghost var before := PatternHits(i, ext, desc, UnexpectedPatterns[..k]);
      ghost var after := PatternHits(i, ext, desc, UnexpectedPatterns[..k + 1]);
      assert acc == issues + before;
      PatternHitsStep(i, ext, desc, UnexpectedPatterns, k);
      assert after == before + hit;
      AppendAssoc(issues, before, hit);
      acc := acc + hit;
      assert acc == issues + after;
      k := k + 1;
    }
    assert UnexpectedPatterns[..k] == UnexpectedPatterns;
    return Some(acc);
  }

  /** `check_unexpected_characters`: `None` when it raises. */
  method CheckUnexpectedCharacters(rows: seq<Row>) returns (issues: Option<seq<Issue>>)
    ensures issues == UnexpectedIssues(rows)
  {
    var acc: seq<Issue> := [];
    var i := 0;
    while i < |rows|
      invariant 0 <= i <= |rows|
      invariant UnexpectedIssues(rows[..i]) == Some(acc)
    {
      TakeStep(rows, i);
      var out := RowUnexpected(i, rows[i], acc);
      if out.None? {
        UnexpectedRaises(rows[..i + 1]);
        UnexpectedRaises(rows);
        assert rows[..i + 1][i] == rows[i];
        return None;
      }
      acc := out.value;
      i := i + 1;
    }
    assert rows[..i] == rows;
    return Some(acc);
  }

  // ---------------------------------------------------------------- check_missing_fields

  /** The columns `check_missing_fields` looks at, in its order. */
  const RequiredColumns: seq<Column> := [CategoryColumn, ExtensionColumn, DescriptionColumn, NotesColumn]

  function ColumnIndex(c: Column): (k: nat)
    ensures k < |RequiredColumns| && RequiredColumns[k] == c
  {
    match c
    case CategoryColumn => 0
    case ExtensionColumn => 1
    case DescriptionColumn => 2
    case NotesColumn => 3
  }

  /** A cell that is "" or `None`. */
  predicate IsMissing(v: Option<string>) {
    v == None || v == Some("")
  }

  /** The issues of row `i` among the first `k` required columns. */
  function FieldIssues(i: nat, r: Row, k: nat): (issues: seq<Issue>)
    requires k <= |RequiredColumns|
    ensures forall h :: h in issues ==> h.row == i && ColumnIndex(h.column) < k
  {
    if k == 0 then []
    else
      var c := RequiredColumns[k - 1];
      FieldIssues(i, r, k - 1) + (if IsMissing(Cell(r, c)) then [Issue(i, c, Cell(r, c))] else [])
  }

  /** `check_missing_fields` over `rows`. */
  function MissingIssues(rows: seq<Row>): (issues: seq<Issue>)
    ensures forall h :: h in issues ==> h.row < |rows|
  {
    if rows == [] then []
    else
      var n := |rows| - 1;
      MissingIssues(rows[..n]) + FieldIssues(n, rows[n], |RequiredColumns|)
  }

  /** The order of the report: by row, then by the column's place in the list. */
  predicate Precedes(x: Issue, y: Issue) {
    x.row < y.row || (x.row == y.row && ColumnIndex(x.column) < ColumnIndex(y.column))
  }

  predicate StrictlyOrdered(issues: seq<Issue>) {
    forall x, y :: 0 <= x < y < |issues| ==> Precedes(issues[x], issues[y])
  }

  /** Two ordered runs, every element of the first before every element of the second. */
  lemma OrderedAppend(a: seq<Issue>, b: seq<Issue>)
    requires StrictlyOrdered(a) && StrictlyOrdered(b)
    requires forall x, y :: x in a && y in b ==> Precedes(x, y)
    ensures StrictlyOrdered(a + b)
  {
    var c := a + b;
    forall x, y | 0 <= x < y < |c| ensures Precedes(c[x], c[y]) {
      if x < |a| && y >= |a| {
        assert c[x] == a[x] && c[y] == b[y - |a|];
        assert c[x] in a && c[y] in b;
      } else if y < |a| {
        assert c[x] == a[x] && c[y] == a[y];
      } else {
        assert c[x] == b[x - |a|] && c[y] == b[y - |a|];
      }
    }
  }

  lemma {:induction false} FieldIssuesIff(i: nat, r: Row, k: nat, h: Issue)
    requires k <= |RequiredColumns|
    ensures h in FieldIssues(i, r, k) <==>
              h.row == i && ColumnIndex(h.column) < k && h.value == Cell(r, h.column) && IsMissing(h.value)
  {
    if k > 0 {
      FieldIssuesIff(i, r, k - 1, h);
    }
  }

  lemma {:induction false} FieldIssuesOrdered(i: nat, r: Row, k: nat)
    requires k <= |RequiredColumns|
    ensures StrictlyOrdered(FieldIssues(i, r, k))
  {
    if k > 0 {
      FieldIssuesOrdered(i, r, k - 1);
      var c := RequiredColumns[k - 1];
      var last := if IsMissing(Cell(r, c)) then [Issue(i, c, Cell(r, c))] else [];
      assert ColumnIndex(c) == k - 1;
      OrderedAppend(FieldIssues(i, r, k - 1), last);
    }
  }

  /** A (row, column, value) issue is reported exactly when that cell is "" or `None`. */
  lemma {:induction false} MissingIff(rows: seq<Row>, h: Issue)
    ensures h in MissingIssues(rows) <==> h.row < |rows| && h.value == Cell(rows[h.row], h.column) && IsMissing(h.value)
  {
    if rows != [] {
      var n := |rows| - 1;
      MissingIff(rows[..n], h);
      FieldIssuesIff(n, rows[n], |RequiredColumns|, h);
      if h.row < n {
        assert rows[..n][h.row] == rows[h.row];
      }
    }
  }

  /** The issues are ordered by row and then by column, so none is reported twice. */
  lemma {:induction false} MissingOrdered(rows: seq<Row>)
    ensures StrictlyOrdered(MissingIssues(rows))
  {
    if rows != [] {
      var n := |rows| - 1;
      MissingOrdered(rows[..n]);
      FieldIssuesOrdered(n, rows[n], |RequiredColumns|);
      OrderedAppend(MissingIssues(rows[..n]), FieldIssues(n, rows[n], |RequiredColumns|));
    }
  }

  /** The loop over the four fields of one row, appending to `issues`. */
  method RowMissing(i: nat, r: Row, issues: seq<Issue>) returns (out: seq<Issue>)
    ensures out == issues + FieldIssues(i, r, |RequiredColumns|)
  {
    out := issues;
    var k := 0;
    while k < |RequiredColumns|
      invariant 0 <= k <= |RequiredColumns|
      invariant out == issues + FieldIssues(i, r, k)
    {
      var field := RequiredColumns[k];
      var value := Cell(r, field);
      var hit: seq<Issue> := [];
      if value == Some("") || value.None? {
        hit := [Issue(i, field, value)];
      }
      AppendAssoc(issues, FieldIssues(i, r, k), hit);
      out := out + hit;
      k := k + 1;
    }
  }

  /** `check_missing_fields`. */
  method CheckMissingFields(rows: seq<Row>) returns (issues: seq<Issue>)
    ensures issues == MissingIssues(rows)
  {
    issues := [];
    var i := 0;
    while i < |rows|
      invariant 0 <= i <= |rows|
      invariant issues == MissingIssues(rows[..i])
    {
      TakeStep(rows, i);
      issues := RowMissing(i, rows[i], issues);
      i := i + 1;
    }
    assert rows[..i] == rows;
  }

  // ---------------------------------------------------------------- check_duplicate_extensions

  /** A reported duplicate: its row and its lower-cased extension. */
  datatype Duplicate = Duplicate(row: nat, key: string)

  /** Every row has an extension; otherwise `None.lower()` raises an AttributeError. */
  predicate AllExtensions(rows: seq<Row>) {
    forall j :: 0 <= j < |rows| ==> rows[j].extension.Some?
  }

  /** The lower-cased extensions. */
  function LowerKeys(rows: seq<Row>): (keys: seq<string>)
    requires AllExtensions(rows)
    ensures |keys| == |rows| && forall j :: 0 <= j < |rows| ==> keys[j] == ToLower(rows[j].extension.value)
  {
    seq(|rows|, j requires 0 <= j < |rows| => ToLower(rows[j].extension.value))
  }

  /** The duplicates among `keys`, in order. */
  function DuplicatesOf(keys: seq<string>): (dups: seq<Duplicate>)
    ensures |dups| <= |keys|
  {
    if keys == [] then []
    else
      var n := |keys| - 1;
      DuplicatesOf(keys[..n]) + (if keys[n] in keys[..n] then [Duplicate(n, keys[n])] else [])
  }

  /** `seen`: each key met so far, with the index where it was first met. */
  function FirstSeen(keys: seq<string>): map<string, nat> {
    if keys == [] then map[]
    else
      var n := |keys| - 1;
      var seen := FirstSeen(keys[..n]);
      if keys[n] in seen then seen else seen[keys[n] := n]
  }

  function Elements(keys: seq<string>): set<string> {
    set k | k in keys
  }

  /** `seen` holds exactly the keys met. */
  lemma {:induction false} SeenKey(keys: seq<string>, k: string)
    ensures k in FirstSeen(keys) <==> k in keys
  {
    if keys != [] {
      var n := |keys| - 1;
      SeenKey(keys[..n], k);
      assert keys == keys[..n] + [keys[n]];
    }
  }

  /** `seen` holds exactly the keys met, each with the index of its first occurrence. */
  lemma {:induction false} FirstSeenIsFirst(keys: seq<string>)
    ensures forall k :: k in FirstSeen(keys) <==> k in keys
    ensures forall k :: k in FirstSeen(keys) ==>
              var j := FirstSeen(keys)[k];
              j < |keys| && keys[j] == k && forall l :: 0 <= l < j ==> keys[l] != k
  {
    if keys != [] {
      var n := |keys| - 1;
      var init := keys[..n];
      FirstSeenIsFirst(init);
      assert keys == init + [keys[n]];
      forall k | k in FirstSeen(keys)
        ensures var j := FirstSeen(keys)[k]; j < |keys| && keys[j] == k && forall l :: 0 <= l < j ==> keys[l] != k
      {
        if k in FirstSeen(init) {
          var j := FirstSeen(init)[k];
          assert forall l :: 0 <= l < j ==> keys[l] == init[l];
        }
      }
    }
  }

  /** One more key: `seen` gains it unless it is already there. */
  lemma SeenStep(keys: seq<string>, ext: string)
    ensures var seen := FirstSeen(keys);
            FirstSeen(keys + [ext]) == if ext in seen then seen else seen[ext := |keys|]
  {
    var ks := keys + [ext];
    DropLastOfSnoc(keys, ext);
    assert ks[..|keys|] == keys && ks[|keys|] == ext;
  }

  /** One more key is a duplicate exactly when `seen` already holds it. */
  lemma DuplicatesStep(keys: seq<string>, ext: string)
    ensures DuplicatesOf(keys + [ext]) == DuplicatesOf(keys) + if ext in FirstSeen(keys) then [Duplicate(|keys|, ext)] else []
  {
    var ks := keys + [ext];
    DropLastOfSnoc(keys, ext);
    assert ks[..|keys|] == keys && ks[|keys|] == ext;
    SeenKey(keys, ext);
  }

  /** A row is reported exactly when its key occurs at an earlier row; the first occurrence
      of a key is never reported. */
  lemma {:induction false} DuplicatesIff(keys: seq<string>, d: Duplicate)
    ensures d in DuplicatesOf(keys) <==>
              d.row < |keys| && keys[d.row] == d.key && exists j :: 0 <= j < d.row && keys[j] == d.key
  {
    if keys != [] {
      var n := |keys| - 1;
      var init := keys[..n];
      DuplicatesIff(init, d);
      if d.row < n {
        assert init[d.row] == keys[d.row];
        assert forall j :: 0 <= j < d.row ==> init[j] == keys[j];
      }
      if d.row == n && d.key == keys[n] && keys[n] in init {
        var j :| 0 <= j < n && init[j] == keys[n];
        assert keys[j] == d.key;
      }
    }
  }

  /** The number of duplicates is the number of rows less the number of distinct keys. */
  lemma {:induction false} DuplicatesCount(keys: seq<string>)
    ensures |DuplicatesOf(keys)| + |Elements(keys)| == |keys|
  {
    if keys != [] {
      var n := |keys| - 1;
      var init := keys[..n];
      DuplicatesCount(init);
      assert keys == init + [keys[n]];
      assert Elements(keys) == Elements(init) + {keys[n]};
      if keys[n] in init {
        assert Elements(keys) == Elements(init);
      } else {
        assert keys[n] !in Elements(init);
      }
    }
  }

  /** `check_duplicate_extensions`: `None` when it raises. */
  method CheckDuplicateExtensions(rows: seq<Row>) returns (duplicates: Option<seq<Duplicate>>)
    ensures duplicates.None? <==> !AllExtensions(rows)
    ensures duplicates.Some? ==> AllExtensions(rows) && duplicates.value == DuplicatesOf(LowerKeys(rows))
  {
    var seen: map<string, nat> := map[];
    var found: seq<Duplicate> := [];
    ghost var keys: seq<string> := [];
    var i := 0;
    while i < |rows|
      invariant 0 <= i <= |rows|
      invariant forall j :: 0 <= j < i ==> rows[j].extension.Some?
      invariant |keys| == i && forall j :: 0 <= j < i ==> keys[j] == ToLower(rows[j].extension.value)
      invariant seen == FirstSeen(keys) && found == DuplicatesOf(keys)
    {
      if rows[i].extension.None? {
        return None;
      }
      var ext := ToLower(rows[i].extension.value);
      SeenStep(keys, ext);
      DuplicatesStep(keys, ext);
      if ext in seen {
        found := found + [Duplicate(i, ext)];
      } else {
        seen := seen[ext := i];
      }
      keys := keys + [ext];
      i := i + 1;
    }
    assert keys == LowerKeys(rows);
    return Some(found);
  }

  // ---------------------------------------------------------------- check_extensions_without_descriptions

  /** A reported row: its index and its extension cell. */
  datatype Undescribed = Undescribed(row: nat, extension: Option<string>)

  function UndescribedRows(rows: seq<Row>): (found: seq<Undescribed>)
    ensures forall u :: u in found ==> u.row < |rows|
  {
    if rows == [] then []
    else
      var n := |rows| - 1;
      UndescribedRows(rows[..n]) + (if rows[n].description == Some("") then [Undescribed(n, rows[n].extension)] else [])
  }

  /** A row is reported, with its extension, exactly when its description is "" (a `None`
      description is not reported). */
  lemma {:induction false} UndescribedIff(rows: seq<Row>, u: Undescribed)
    ensures u in UndescribedRows(rows) <==>
              u.row < |rows| && rows[u.row].description == Some("") && u.extension == rows[u.row].extension
  {
    if rows != [] {
      var n := |rows| - 1;
      UndescribedIff(rows[..n], u);
      if u.row < n {
        assert rows[..n][u.row] == rows[u.row];
      }
    }
  }

  predicate RowsIncreasing(found: seq<Undescribed>) {
    forall x, y :: 0 <= x < y < |found| ==> found[x].row < found[y].row
  }

  /** The rows are reported in increasing order, each at most once. */
  lemma {:induction false} UndescribedOrdered(rows: seq<Row>)
    ensures RowsIncreasing(UndescribedRows(rows))
  {
    if rows != [] {
      var n := |rows| - 1;
      UndescribedOrdered(rows[..n]);
      var before := UndescribedRows(rows[..n]);
      var found := UndescribedRows(rows);
      forall x, y | 0 <= x < y < |found| ensures found[x].row < found[y].row {
        if y >= |before| {
          assert y == |before| && found[y] == Undescribed(n, rows[n].extension);
          assert found[x] == before[x];
          assert found[x] in before;
          assert before[x].row < |rows[..n]| == n;
        } else {
          assert found[x] == before[x] && found[y] == before[y];
          assert before[x].row < before[y].row;
        }
      }
    }
  }

  /** `check_extensions_without_descriptions`. */
  method CheckExtensionsWithoutDescriptions(rows: seq<Row>) returns (issues: seq<Undescribed>)
    ensures issues == UndescribedRows(rows)
  {
    issues := [];
    var i := 0;
    while i < |rows|
      invariant 0 <= i <= |rows|
      invariant issues == UndescribedRows(rows[..i])
    {
      TakeStep(rows, i);
      if rows[i].description == Some("") {
        issues := issues + [Undescribed(i, rows[i].extension)];
      }
      i := i + 1;
    }
    assert rows[..i] == rows;
  }
}
