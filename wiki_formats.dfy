/** The file-format table built from the Wikipedia "List of file formats" page: the page is
    read as a sequence of headings and bullet lists, every list item becomes one entry per
    extension it names, the entries are cleaned into valid and dirty ones, and a CSV table
    is laid out from them. An entry is a dictionary from column name to text. */
module WikiFormats {
  import opened Wrappers
  import opened Strings
  import opened Seqs

  /** A key of a scraped entry: the five this script refers to, or any other. (The cleaning
      script reads the saved CSV and has its own `WikiCleaning.Column`.) */
  datatype Column = Category | Extension | Description | Notes | Popularity | OtherColumn(name: string)

  /** One entry: a dictionary from column name to text. */
  type Entry = map<Column, string>

  // ---------------------------------------------------------------- the page

  /** A link inside a list item: its text and its `href` and `title` attributes, if any. */
  datatype Anchor = Anchor(text: string, href: Option<string>, title: Option<string>)

  /** A top-level `li`: its text as `get_text(strip=True)` gives it (every text fragment
      stripped, the fragments joined with no separator), and its links in order. */
  datatype ListItem = ListItem(text: string, anchors: seq<Anchor>)

  /** An `h2`/`h3` heading (with the `get_text(strip=True)` text of its `mw-headline` span
      when it has one, and its own), or a `ul` list with its top-level items. */
  datatype Element =
    | Heading(span: Option<string>, text: string)
    | BulletList(items: seq<ListItem>)

  const EnDashSeparator: string := [' ', EnDash, ' ']
  const HyphenSeparator: string := " - "

  // ---------------------------------------------------------------- notes from links

  /** An attribute value that Python treats as true: present and not empty. */
  predicate Truthy(v: Option<string>) {
    v.Some? && v.value != ""
  }

  predicate HasNote(a: Anchor) {
    Truthy(a.href) && Truthy(a.title)
  }

  /** The note a link contributes: its text followed by its title in parentheses. */
  function Note(a: Anchor): string
    requires a.title.Some?
  {
    a.text + " (" + a.title.value + ")"
  }

  /** The notes of a list item's links, in link order: one per link with both attributes. */
  function NotesOf(anchors: seq<Anchor>): (notes: seq<string>)
    ensures |notes| <= |anchors|
  {
    if anchors == [] then []
    else
      var notes := NotesOf(anchors[..|anchors| - 1]);
      var a := anchors[|anchors| - 1];
      if HasNote(a) then notes + [Note(a)] else notes
  }

  /** Every link with an `href` and a `title` contributes its note. */
  lemma {:induction false} NotesComplete(anchors: seq<Anchor>, i: nat)
    requires i < |anchors| && HasNote(anchors[i])
    ensures Note(anchors[i]) in NotesOf(anchors)
  {
    var n := |anchors| - 1;
    if i < n {
      NotesComplete(anchors[..n], i);
    }
  }

  /** Every note comes from a link with an `href` and a `title`. */
  lemma {:induction false} NotesSound(anchors: seq<Anchor>, note: string)
    requires note in NotesOf(anchors)
    ensures exists a :: a in anchors && HasNote(a) && note == Note(a)
  {
    var n := |anchors| - 1;
    var a := anchors[n];
    if HasNote(a) && note == Note(a) {
      assert a in anchors;
    } else {
      NotesSound(anchors[..n], note);
      var b :| b in anchors[..n] && HasNote(b) && note == Note(b);
      assert b in anchors;
    }
  }

  /** The loop over the links of an item that collects the notes. */
  method CollectNotes(anchors: seq<Anchor>) returns (notes: seq<string>)
    ensures notes == NotesOf(anchors)
  {
    notes := [];
    var i := 0;
    while i < |anchors|
      invariant i <= |anchors|
      invariant notes == NotesOf(anchors[..i])
    {
      var a := anchors[i];
      TakeStep(anchors, i);
      if HasNote(a) {
        notes := notes + [Note(a)];
      }
      i := i + 1;
    }
    TakeAll(anchors);
  }

  // ---------------------------------------------------------------- one list item

  /** The item text cut at the first " – ", or, when there is none, at the first " - ". */
  function SeparatorParts(text: string): (parts: seq<string>)
    ensures 1 <= |parts| <= 2
  {
    var p := SplitOnce(text, EnDashSeparator);
    if |p| < 2 then SplitOnce(text, HyphenSeparator) else p
  }

  /** The cut is made at the first en-dash separator when there is one, otherwise at the first
      hyphen separator, and the item is left whole when it has neither. */
  lemma SeparatorCut(text: string)
    ensures var parts := SeparatorParts(text);
            if Contains(text, EnDashSeparator) then
              |parts| == 2 && text == parts[0] + EnDashSeparator + parts[1] && !Contains(parts[0], EnDashSeparator)
            else if Contains(text, HyphenSeparator) then
              |parts| == 2 && text == parts[0] + HyphenSeparator + parts[1] && !Contains(parts[0], HyphenSeparator)
            else
              parts == [text]
  {
  }

  /** The extension list of an item: the text before the separator, trimmed. */
  function ExtensionsText(text: string): string {
    Strip(SeparatorParts(text)[0])
  }

  /** The description of an item: the text after the separator, trimmed, or "" without one. */
  function DescriptionText(text: string): (d: string)
    ensures !Contains(text, EnDashSeparator) && !Contains(text, HyphenSeparator) ==> d == ""
  {
    var parts := SeparatorParts(text);
    if |parts| >= 2 then Strip(parts[1]) else ""
  }

  /** One comma-separated piece made into an extension: trimmed, then stripped of dots at
      both ends, then trimmed again. */
  function CleanPiece(piece: string): (e: string)
    ensures forall c :: c in e ==> c in piece
    ensures Strip(e) == e
  {
    StripIdempotent(StripChars(Strip(piece), {'.'}));
    Strip(StripChars(Strip(piece), {'.'}))
  }

  /** What an extension taken from a list item looks like: not empty, no comma, and no
      surrounding whitespace (trimming it changes nothing). */
  predicate PieceShape(e: string) {
    e != "" && ',' !in e && Strip(e) == e
  }

  /** The comma-separated pieces of the extension list, each cleaned. */
  function CleanedPieces(text: string): (pieces: seq<string>)
    ensures forall k :: 0 <= k < |pieces| ==> pieces[k] == "" || PieceShape(pieces[k])
  {
    var raw := Split(ExtensionsText(text), ',');
    seq(|raw|, k requires 0 <= k < |raw| => CleanPiece(raw[k]))
  }

  /** The strings that are not empty, in order. */
  function NonEmpty(xs: seq<string>): (ys: seq<string>)
    ensures |ys| <= |xs|
  {
    if xs == [] then []
    else
      var ys := NonEmpty(xs[..|xs| - 1]);
      if xs[|xs| - 1] != "" then ys + [xs[|xs| - 1]] else ys
  }

  /** Every non-empty string is kept. */
  lemma {:induction false} NonEmptyComplete(xs: seq<string>, i: nat)
    requires i < |xs| && xs[i] != ""
    ensures xs[i] in NonEmpty(xs)
  {
    var n := |xs| - 1;
    if i < n {
      assert xs[..n][i] == xs[i];
      NonEmptyComplete(xs[..n], i);
    }
  }

  /** Only non-empty strings of the input are kept. */
  lemma {:induction false} NonEmptySound(xs: seq<string>, y: string)
    requires y in NonEmpty(xs)
    ensures y in xs && y != ""
  {
    var n := |xs| - 1;
    if y != xs[n] || xs[n] == "" {
      NonEmptySound(xs[..n], y);
    }
  }

  /** The extensions an item names: its cleaned pieces that are not empty. */
  function ExtensionsOf(text: string): seq<string> {
    NonEmpty(CleanedPieces(text))
  }

  lemma ExtensionsShape(text: string)
    ensures forall e :: e in ExtensionsOf(text) ==> PieceShape(e)
  {
    forall e | e in ExtensionsOf(text) ensures PieceShape(e) {
      NonEmptySound(CleanedPieces(text), e);
    }
  }

  function MakeEntry(category: string, extension: string, description: string, notes: string): Entry {
    map[Category := category, Extension := extension, Description := description, Notes := notes]
  }

  /** One entry per extension, in order, all with the same category, description and notes. */
  function EntriesFor(category: string, exts: seq<string>, description: string, notes: string): seq<Entry> {
    seq(|exts|, k requires 0 <= k < |exts| => MakeEntry(category, exts[k], description, notes))
  }

  /** The notes column of an item: its notes joined with "; " ("" without any). */
  function NotesField(anchors: seq<Anchor>): string {
    Join(NotesOf(anchors), "; ")
  }

  /** The entries of one item. */
  function ItemEntries(category: string, item: ListItem): seq<Entry> {
    EntriesFor(category, ExtensionsOf(item.text), DescriptionText(item.text), NotesField(item.anchors))
  }

  /** The loop over the extensions of one item. */
  method EntryList(category: string, exts: seq<string>, description: string, notes: string)
    returns (entries: seq<Entry>)
    ensures entries == EntriesFor(category, exts, description, notes)
  {
    entries := [];
    var k := 0;
    while k < |exts|
      invariant k <= |exts|
      invariant |entries| == k
      invariant forall j :: 0 <= j < k ==> entries[j] == MakeEntry(category, exts[j], description, notes)
    {
      entries := entries + [MakeEntry(category, exts[k], description, notes)];
      k := k + 1;
    }
  }

  /** The body of the loop over list items: split the text, collect the notes, then make
      the entries. */
  method ItemEntryList(category: string, item: ListItem) returns (entries: seq<Entry>)
    ensures entries == ItemEntries(category, item)
  {
    var description := DescriptionText(item.text);
    var noteList := CollectNotes(item.anchors);
    entries := EntryList(category, ExtensionsOf(item.text), description, Join(noteList, "; "));
  }

  // ---------------------------------------------------------------- the whole page

  /** The entries of a list under a category, item by item. */
  function ListEntries(category: string, items: seq<ListItem>): seq<Entry> {
    if items == [] then []
    else ListEntries(category, items[..|items| - 1]) + ItemEntries(category, items[|items| - 1])
  }

  /** The current category after reading the elements: each heading sets it, to the text of
      its span when it has one and to its own text otherwise; it starts as "". */
  function CategoryAfter(elements: seq<Element>): string {
    if elements == [] then ""
    else
      match elements[|elements| - 1]
      case Heading(span, text) => span.GetOr(text)
      case BulletList(_) => CategoryAfter(elements[..|elements| - 1])
  }

  /** The entries of the page: each list adds its entries under the current category, unless
      that category is still empty. */
  function EntriesOf(elements: seq<Element>): seq<Entry> {
    if elements == [] then []
    else
      var prefix := elements[..|elements| - 1];
      match elements[|elements| - 1]
      case Heading(_, _) => EntriesOf(prefix)
      case BulletList(items) =>
        if CategoryAfter(prefix) == "" then EntriesOf(prefix)
        else EntriesOf(prefix) + ListEntries(CategoryAfter(prefix), items)
  }

  /** What every parsed entry looks like: exactly the four columns, a non-empty category, and
      an extension that is not empty, has no comma and no surrounding whitespace. */
  predicate ParsedEntry(e: Entry) {
    e.Keys == {Category, Extension, Description, Notes} &&
    e[Category] != "" && PieceShape(e[Extension])
  }

  lemma MakeEntryParsed(category: string, extension: string, description: string, notes: string)
    requires category != "" && PieceShape(extension)
    ensures ParsedEntry(MakeEntry(category, extension, description, notes))
  {
    var e := MakeEntry(category, extension, description, notes);
    assert e.Keys == {Category, Extension, Description, Notes};
  }

  lemma ItemEntriesParsed(category: string, item: ListItem)
    requires category != ""
    ensures forall e :: e in ItemEntries(category, item) ==> ParsedEntry(e)
  {
    var exts := ExtensionsOf(item.text);
    var description, notes := DescriptionText(item.text), NotesField(item.anchors);
    ExtensionsShape(item.text);
    var entries := EntriesFor(category, exts, description, notes);
    forall k | 0 <= k < |entries| ensures ParsedEntry(entries[k]) {
      assert exts[k] in exts;
      MakeEntryParsed(category, exts[k], description, notes);
    }
  }

  lemma {:induction false} ListEntriesParsed(category: string, items: seq<ListItem>)
    requires category != ""
    ensures forall e :: e in ListEntries(category, items) ==> ParsedEntry(e)
  {
    if items != [] {
      ListEntriesParsed(category, items[..|items| - 1]);
      ItemEntriesParsed(category, items[|items| - 1]);
    }
  }

  lemma {:induction false} EntriesParsed(elements: seq<Element>)
    ensures forall e :: e in EntriesOf(elements) ==> ParsedEntry(e)
  {
    if elements != [] {
      var prefix := elements[..|elements| - 1];
      EntriesParsed(prefix);
      if elements[|elements| - 1].BulletList? && CategoryAfter(prefix) != "" {
        ListEntriesParsed(CategoryAfter(prefix), elements[|elements| - 1].items);
      }
    }
  }

  /** The current category is the one set by the last heading. */
  lemma {:induction false} LastHeadingWins(elements: seq<Element>, i: nat)
    requires i < |elements| && elements[i].Heading?
    requires forall j :: i < j < |elements| ==> elements[j].BulletList?
    ensures CategoryAfter(elements) == elements[i].span.GetOr(elements[i].text)
  {
    var n := |elements| - 1;
    if i < n {
      LastHeadingWins(elements[..n], i);
    }
  }

  /** Lists before the first heading are ignored: without a heading there is no category and
      no entry. */
  lemma {:induction false} NoHeadingNoEntries(elements: seq<Element>)
    requires forall j :: 0 <= j < |elements| ==> elements[j].BulletList?
    ensures CategoryAfter(elements) == "" && EntriesOf(elements) == []
  {
    if elements != [] {
      NoHeadingNoEntries(elements[..|elements| - 1]);
    }
  }

  /** Appending the entries of item `i` to what holds those of the items before it. */
  lemma ListEntriesGrow(category: string, items: seq<ListItem>, i: nat, base: seq<Entry>, out: seq<Entry>)
    requires i < |items| && out == base + ListEntries(category, items[..i])
    ensures out + ItemEntries(category, items[i]) == base + ListEntries(category, items[..i + 1])
  {
    TakeStep(items, i);
    AppendAssoc(base, ListEntries(category, items[..i]), ItemEntries(category, items[i]));
  }

  /** One pass of the item loop: the entries of item `i` appended. */
  method AppendItem(category: string, items: seq<ListItem>, i: nat, base: seq<Entry>, out: seq<Entry>)
    returns (out': seq<Entry>)
    requires i < |items| && out == base + ListEntries(category, items[..i])
    ensures out' == base + ListEntries(category, items[..i + 1])
  {
    var entries := ItemEntryList(category, items[i]);
    ListEntriesGrow(category, items, i, base, out);
    out' := out + entries;
  }

  /** The loop over the items of one list, appending to the page's entries. */
  method AppendListEntries(category: string, items: seq<ListItem>, fileFormats: seq<Entry>)
    returns (out: seq<Entry>)
    ensures out == fileFormats + ListEntries(category, items)
  {
    out := fileFormats;
    var i := 0;
    while i < |items|
      invariant i <= |items|
      invariant out == fileFormats + ListEntries(category, items[..i])
    {
      out := AppendItem(category, items, i, fileFormats, out);
      i := i + 1;
    }
    TakeAll(items);
  }

  /** `parse_file_formats`: the loop over headings and lists with a current category. */
  method ParseFileFormats(elements: seq<Element>) returns (fileFormats: seq<Entry>)
    ensures fileFormats == EntriesOf(elements)
  {
    fileFormats := [];
    var currentCategory := "";
    var i := 0;
    while i < |elements|
      invariant i <= |elements|
      invariant currentCategory == CategoryAfter(elements[..i])
      invariant fileFormats == EntriesOf(elements[..i])
    {
      TakeStep(elements, i);
      match elements[i] {
        case Heading(span, text) =>
          currentCategory := span.GetOr(text);
        case BulletList(items) =>
          if currentCategory != "" {
            fileFormats := AppendListEntries(currentCategory, items, fileFormats);
          }
      }
      i := i + 1;
    }
    TakeAll(elements);
  }

  // ---------------------------------------------------------------- cleaning

  /** `entry.get(key, "")`. */
  function Get(e: Entry, key: Column): string {
    if key in e then e[key] else ""
  }

  /** The pattern `^\.[A-Z]{2,15}$` without its end anchor: a dot and 2 to 15 ASCII capitals. */
  predicate ExtensionShape(s: string) {
    3 <= |s| <= 16 && s[0] == '.' && forall i :: 1 <= i < |s| ==> IsAsciiUpper(s[i])
  }

  /** `re.match` of `^\.[A-Z]{2,15}$`: in Python `$` also matches just before a final newline. */
  predicate RegexMatch(s: string) {
    ExtensionShape(s) || (|s| > 0 && s[|s| - 1] == '\n' && ExtensionShape(s[..|s| - 1]))
  }

  /** The test an extension must pass to be kept: no space, and the pattern matches. */
  predicate Accepts(s: string) {
    ' ' !in s && RegexMatch(s)
  }

  /** The raw extension normalised, trimmed, with each en dash replaced by ", ", then cut at
      the first ", ". */
  function NormalizedParts(nfkd: string -> string, raw: string): (parts: seq<string>)
    ensures 1 <= |parts| <= 2
  {
    SplitOnce(ReplaceAll(Strip(nfkd(raw)), [EnDash], ", "), ", ")
  }

  /** The first part, trimmed. */
  function Head(nfkd: string -> string, raw: string): (h: string)
    ensures h != [] ==> h[|h| - 1] != '\n'
  {
    StripEnds(NormalizedParts(nfkd, raw)[0]);
    assert '\n' in PySpaces;
    Strip(NormalizedParts(nfkd, raw)[0])
  }

  /** A "." put in front unless the text already starts with one. */
  function Dotted(head: string): (d: string)
    ensures d != [] && d[0] == '.'
    ensures d[|d| - 1] == if head == [] then '.' else head[|head| - 1]
  {
    if StartsWith(head, ".") then head else "." + head
  }

  /** The candidate extension: the head with a leading ".", upper-cased. */
  function Candidate(nfkd: string -> string, raw: string): string {
    ToUpper(Dotted(Head(nfkd, raw)))
  }

  /** Without a final newline the anchor `$` means the end of the text. */
  lemma MatchWithoutNewline(s: string)
    requires s != [] && s[|s| - 1] != '\n'
    ensures RegexMatch(s) <==> ExtensionShape(s)
  {
  }

  /** Putting a "." in front and upper-casing keeps the last character's newline-freeness. */
  lemma UpperDottedEnds(h: string)
    requires h == [] || h[|h| - 1] != '\n'
    ensures var x := ToUpper(Dotted(h)); x != [] && x[0] == '.' && x[|x| - 1] != '\n'
  {
    var d := Dotted(h);
    var x := ToUpper(d);
    var n := |d| - 1;
    assert |x| == |d|;
    assert x[0] == UpperChar(d[0]);
    assert x[n] == UpperChar(d[n]);
    assert d[n] != '\n';
  }

  /** A candidate starts with "." and never ends in a newline, since the head is trimmed. */
  lemma CandidateEnds(nfkd: string -> string, raw: string)
    ensures var x := Candidate(nfkd, raw); x != [] && x[0] == '.' && x[|x| - 1] != '\n'
  {
    UpperDottedEnds(Head(nfkd, raw));
  }

  /** A candidate that passes matches the pattern outright (the newline case of `$` cannot
      arise) and has no space. */
  lemma CandidateAccepted(nfkd: string -> string, raw: string)
    requires Accepts(Candidate(nfkd, raw))
    ensures ExtensionShape(Candidate(nfkd, raw)) && ' ' !in Candidate(nfkd, raw)
  {
    CandidateEnds(nfkd, raw);
    MatchWithoutNewline(Candidate(nfkd, raw));
  }

  /** Description, category and popularity trimmed, created as "" when missing. */
  function Trimmed(e: Entry, description: string): (t: Entry)
    ensures Description in t && Category in t && Popularity in t
    ensures t[Description] == Strip(description)
    ensures t[Category] == Strip(Get(e, Category)) && t[Popularity] == Strip(Get(e, Popularity))
    ensures forall k :: k in e ==> k in t
    ensures Extension in e ==> t[Extension] == e[Extension]
  {
    var t := Set3(e, Description, Strip(description), Category, Strip(Get(e, Category)), Popularity, Strip(Get(e, Popularity)));
    assert Extension in e ==> t[Extension] == e[Extension] by {
      if Extension in e {
        Set3Keeps(e, Description, Strip(description), Category, Strip(Get(e, Category)), Popularity, Strip(Get(e, Popularity)), Extension);
      }
    }
    t
  }

  lemma Set3Keeps<K, V>(m: map<K, V>, k1: K, v1: V, k2: K, v2: V, k3: K, v3: V, j: K)
    requires k1 != k2 && k1 != k3 && k2 != k3
    requires j in m && j != k1 && j != k2 && j != k3
    ensures Set3(m, k1, v1, k2, v2, k3, v3)[j] == m[j]
  {
  }

  /** `m` with three distinct keys set. */
  function Set3<K, V>(m: map<K, V>, k1: K, v1: V, k2: K, v2: V, k3: K, v3: V): (r: map<K, V>)
    requires k1 != k2 && k1 != k3 && k2 != k3
    ensures k1 in r && k2 in r && k3 in r && r[k1] == v1 && r[k2] == v2 && r[k3] == v3
    ensures forall k :: k in m ==> k in r
    ensures forall k :: k in m && k != k1 && k != k2 && k != k3 ==> r[k] == m[k]
  {
    m[k1 := v1][k2 := v2][k3 := v3]
  }

  /** The cleaned entry and whether it was kept as clean. */
  datatype Cleaning = Cleaning(entry: Entry, clean: bool)

  /** The description before trimming: with a separator in the extension, the trimmed text
      after it, a space and the trimmed old description; otherwise the old description. */
  function JoinedDescription(parts: seq<string>, e: Entry): string {
    if |parts| > 1 then Strip(parts[1]) + " " + Strip(Get(e, Description)) else Get(e, Description)
  }

  /** One entry cleaned: the text after the first separator of the extension is put in front
      of the description; description, category and popularity are trimmed; the extension
      is replaced by its candidate only when that passes. */
  function CleanEntry(nfkd: string -> string, e: Entry): (r: Cleaning)
    requires Extension in e
    ensures forall k :: k in e ==> k in r.entry
    ensures Description in r.entry && Category in r.entry && Popularity in r.entry
    ensures r.clean <==> Accepts(Candidate(nfkd, e[Extension]))
    ensures r.clean ==> r.entry[Extension] == Candidate(nfkd, e[Extension])
    ensures !r.clean ==> r.entry[Extension] == e[Extension]
  {
    Finish(Trimmed(e, JoinedDescription(NormalizedParts(nfkd, e[Extension]), e)), Candidate(nfkd, e[Extension]))
  }

  /** The trimmed entry `t`, with the candidate `x` as its extension when `x` passes. */
  function Finish(t: Entry, x: string): (r: Cleaning)
    ensures r.clean <==> Accepts(x)
    ensures r.entry == if r.clean then t[Extension := x] else t
  {
    if Accepts(x) then Cleaning(t[Extension := x], true) else Cleaning(t, false)
  }

  /** Finishing touches only the extension. */
  lemma FinishKeeps(t: Entry, x: string)
    requires Description in t && Category in t && Popularity in t
    ensures var r := Finish(t, x).entry;
            r[Description] == t[Description] && r[Category] == t[Category] && r[Popularity] == t[Popularity]
  {
  }

  /** The entry after cleaning is the trimmed entry, with the candidate extension when it passes. */
  lemma CleanedIsTrimmed(nfkd: string -> string, e: Entry)
    requires Extension in e
    ensures var t := Trimmed(e, JoinedDescription(NormalizedParts(nfkd, e[Extension]), e));
            var r := CleanEntry(nfkd, e).entry;
            r[Description] == t[Description] && r[Category] == t[Category] && r[Popularity] == t[Popularity]
  {
    var t := Trimmed(e, JoinedDescription(NormalizedParts(nfkd, e[Extension]), e));
    FinishKeeps(t, Candidate(nfkd, e[Extension]));
  }

  /** The description changes only when the extension had a separator: then it is the text
      after it, a space and the old description, trimmed; otherwise the old one trimmed. */
  lemma CleanedDescription(nfkd: string -> string, e: Entry)
    requires Extension in e
    ensures var parts, r := NormalizedParts(nfkd, e[Extension]), CleanEntry(nfkd, e).entry;
            (|parts| == 1 ==> r[Description] == Strip(Get(e, Description))) &&
            (|parts| == 2 ==> r[Description] == Strip(Strip(parts[1]) + " " + Strip(Get(e, Description))))
  {
    CleanedIsTrimmed(nfkd, e);
  }

  /** Category and popularity are trimmed, and become "" when missing. */
  lemma CleanedTrims(nfkd: string -> string, e: Entry)
    requires Extension in e
    ensures var r := CleanEntry(nfkd, e).entry;
            r[Category] == Strip(Get(e, Category)) && r[Popularity] == Strip(Get(e, Popularity))
  {
    CleanedIsTrimmed(nfkd, e);
  }

  /** What cleaning does to one entry: nothing when it has no extension. */
  function CleaningOf(nfkd: string -> string, e: Entry): Option<Cleaning> {
    if Extension in e then Some(CleanEntry(nfkd, e)) else None
  }

  function Apply(e: Entry, c: Option<Cleaning>): Entry {
    match c
    case None => e
    case Some(c) => c.entry
  }

  function Cleanings(nfkd: string -> string, entries: seq<Entry>): (cs: seq<Option<Cleaning>>)
    ensures |cs| == |entries|
  {
    seq(|entries|, i requires 0 <= i < |entries| => CleaningOf(nfkd, entries[i]))
  }

  /** The list after cleaning: the entries with an extension are updated, the others kept. */
  function Updated(nfkd: string -> string, entries: seq<Entry>): (r: seq<Entry>)
    ensures |r| == |entries|
  {
    seq(|entries|, i requires 0 <= i < |entries| => Apply(entries[i], CleaningOf(nfkd, entries[i])))
  }

  datatype Partition = Partition(cleaned: seq<Entry>, dirty: seq<Entry>)

  function Step(p: Partition, c: Option<Cleaning>): Partition {
    match c
    case None => p
    case Some(c) => if c.clean then Partition(p.cleaned + [c.entry], p.dirty) else Partition(p.cleaned, p.dirty + [c.entry])
  }

  /** The cleaned entries split in order into clean and dirty ones. */
  function Partitioned(cs: seq<Option<Cleaning>>): Partition {
    if cs == [] then Partition([], []) else Step(Partitioned(cs[..|cs| - 1]), cs[|cs| - 1])
  }

  function PartitionOf(nfkd: string -> string, entries: seq<Entry>): Partition {
    Partitioned(Cleanings(nfkd, entries))
  }

  /** The number of entries that were cleaned. */
  function Somes(cs: seq<Option<Cleaning>>): nat {
    if cs == [] then 0 else Somes(cs[..|cs| - 1]) + (if cs[|cs| - 1].Some? then 1 else 0)
  }

  /** The number of entries that have an extension. */
  function WithExtension(entries: seq<Entry>): nat {
    if entries == [] then 0
    else WithExtension(entries[..|entries| - 1]) + (if Extension in entries[|entries| - 1] then 1 else 0)
  }

  lemma {:induction false} PartitionedCount(cs: seq<Option<Cleaning>>)
    ensures |Partitioned(cs).cleaned| + |Partitioned(cs).dirty| == Somes(cs)
  {
    if cs != [] {
      PartitionedCount(cs[..|cs| - 1]);
    }
  }

  lemma {:induction false} SomesCount(nfkd: string -> string, entries: seq<Entry>)
    ensures Somes(Cleanings(nfkd, entries)) == WithExtension(entries)
  {
    if entries != [] {
      var n := |entries| - 1;
      assert Cleanings(nfkd, entries)[..n] == Cleanings(nfkd, entries[..n]);
      SomesCount(nfkd, entries[..n]);
    }
  }

  /** Every entry with an extension lands in exactly one of the two lists; the others in neither. */
  lemma PartitionCount(nfkd: string -> string, entries: seq<Entry>)
    ensures var p := PartitionOf(nfkd, entries);
            |p.cleaned| + |p.dirty| == WithExtension(entries)
  {
    PartitionedCount(Cleanings(nfkd, entries));
    SomesCount(nfkd, entries);
  }

  lemma {:induction false} PartitionedComplete(cs: seq<Option<Cleaning>>, i: nat)
    requires i < |cs| && cs[i].Some?
    ensures if cs[i].value.clean then cs[i].value.entry in Partitioned(cs).cleaned
            else cs[i].value.entry in Partitioned(cs).dirty
  {
    var n := |cs| - 1;
    if i < n {
      assert cs[..n][i] == cs[i];
      PartitionedComplete(cs[..n], i);
    }
  }

  /** Each entry with an extension goes, cleaned, to the clean list when its candidate passes
      and to the dirty list otherwise. */
  lemma PartitionComplete(nfkd: string -> string, entries: seq<Entry>, i: nat)
    requires i < |entries| && Extension in entries[i]
    ensures var c, p := CleanEntry(nfkd, entries[i]), PartitionOf(nfkd, entries);
            if c.clean then c.entry in p.cleaned else c.entry in p.dirty
  {
    PartitionedComplete(Cleanings(nfkd, entries), i);
  }

  lemma {:induction false} PartitionedCleanSound(cs: seq<Option<Cleaning>>, e: Entry)
    requires e in Partitioned(cs).cleaned
    ensures exists i :: 0 <= i < |cs| && cs[i] == Some(Cleaning(e, true))
  {
    var n := |cs| - 1;
    if cs[n] != Some(Cleaning(e, true)) {
      PartitionedCleanSound(cs[..n], e);
      var i :| 0 <= i < n && cs[..n][i] == Some(Cleaning(e, true));
      assert cs[i] == cs[..n][i];
    }
  }

  /** Every clean extension matches `^\.[A-Z]{2,15}$` and contains no space. */
  lemma CleanedValid(nfkd: string -> string, entries: seq<Entry>, e: Entry)
    requires e in PartitionOf(nfkd, entries).cleaned
    ensures Extension in e && ExtensionShape(e[Extension]) && ' ' !in e[Extension]
  {
    var cs := Cleanings(nfkd, entries);
    PartitionedCleanSound(cs, e);
    var i :| 0 <= i < |cs| && cs[i] == Some(Cleaning(e, true));
    CandidateAccepted(nfkd, entries[i][Extension]);
  }

  /** One step of the cleaning loop, on the entry at `i`. */
  method CleanAt(nfkd: string -> string, a: array<Entry>, i: nat, p: Partition) returns (q: Partition)
    requires i < a.Length
    modifies a
    ensures a[..] == old(a[..])[i := Apply(old(a[i]), CleaningOf(nfkd, old(a[i])))]
    ensures q == Step(p, CleaningOf(nfkd, old(a[i])))
  {
    var e := a[i];
    q := p;
    if Extension in e {
      var c := CleanEntry(nfkd, e);
      a[i] := c.entry;
      if c.clean {
        q := Partition(p.cleaned + [c.entry], p.dirty);
      } else {
        q := Partition(p.cleaned, p.dirty + [c.entry]);
      }
    }
  }

  /** `clean_file_formats`: updates the entries in place and returns the clean and the dirty
      ones, in order. */
  method CleanFileFormats(nfkd: string -> string, a: array<Entry>) returns (cleaned: seq<Entry>, dirty: seq<Entry>)
    modifies a
    ensures a[..] == Updated(nfkd, old(a[..]))
    ensures Partition(cleaned, dirty) == PartitionOf(nfkd, old(a[..]))
  {
    ghost var entries := a[..];
    ghost var cs := Cleanings(nfkd, entries);
    ghost var updated := Updated(nfkd, entries);
    var p := Partition([], []);
    var i := 0;
    while i < a.Length
      invariant i <= a.Length == |entries| == |cs| == |updated|
      invariant forall j :: 0 <= j < i ==> a[j] == updated[j]
      invariant forall j :: i <= j < a.Length ==> a[j] == entries[j]
      invariant p == Partitioned(cs[..i])
    {
      assert a[i] == entries[i];
      assert cs[i] == CleaningOf(nfkd, entries[i]);
      assert updated[i] == Apply(entries[i], cs[i]);
      p := CleanAt(nfkd, a, i, p);
      TakeStep(cs, i);
      i := i + 1;
    }
    assert a[..] == updated;
    TakeAll(cs);
    cleaned, dirty := p.cleaned, p.dirty;
  }

  // ---------------------------------------------------------------- the CSV table

  const BaseColumns: seq<Column> := [Extension, Description, Category]

  /** The columns written: extension, description and category, then popularity when some
      entry has that key. */
  function Columns(keys: set<Column>): seq<Column> {
    BaseColumns + (if Popularity in keys then [Popularity] else [])
  }

  /** Every key of every entry. */
  function KeyUnion(entries: seq<Entry>): set<Column> {
    if entries == [] then {} else KeyUnion(entries[..|entries| - 1]) + entries[|entries| - 1].Keys
  }

  lemma {:induction false} KeyUnionComplete(entries: seq<Entry>, i: nat, k: Column)
    requires i < |entries| && k in entries[i]
    ensures k in KeyUnion(entries)
  {
    var n := |entries| - 1;
    if i < n {
      KeyUnionComplete(entries[..n], i, k);
    }
  }

  lemma {:induction false} KeyUnionSound(entries: seq<Entry>, k: Column)
    requires k in KeyUnion(entries)
    ensures exists i :: 0 <= i < |entries| && k in entries[i]
  {
    var n := |entries| - 1;
    if k !in entries[n] {
      KeyUnionSound(entries[..n], k);
    }
  }

  /** The popularity column is written exactly when some entry has a popularity. */
  lemma PopularityColumn(entries: seq<Entry>)
    ensures Popularity in Columns(KeyUnion(entries)) <==> exists i :: 0 <= i < |entries| && Popularity in entries[i]
    ensures |Columns(KeyUnion(entries))| >= 3 && Columns(KeyUnion(entries))[..3] == BaseColumns
  {
    if Popularity in KeyUnion(entries) {
      KeyUnionSound(entries, Popularity);
    }
    if exists i :: 0 <= i < |entries| && Popularity in entries[i] {
      var i :| 0 <= i < |entries| && Popularity in entries[i];
      KeyUnionComplete(entries, i, Popularity);
    }
  }

  /** One CSV line: the entry's value in each column, "" where it has none; other keys are
      dropped. */
  function CsvRow(e: Entry, columns: seq<Column>): (row: seq<string>)
    ensures |row| == |columns|
    ensures forall j :: 0 <= j < |columns| ==> (columns[j] in e ==> row[j] == e[columns[j]]) && (columns[j] !in e ==> row[j] == "")
  {
    seq(|columns|, j requires 0 <= j < |columns| => Get(e, columns[j]))
  }

  datatype Table = Table(header: seq<Column>, rows: seq<seq<string>>)

  /** `save_file_formats` without the file: nothing for an empty list, otherwise the header
      chosen from the union of the keys and one line per entry in order. */
  method SaveFileFormats(fileFormats: seq<Entry>) returns (table: Option<Table>)
    ensures table.None? <==> fileFormats == []
    ensures table.Some? ==>
              table.value.header == Columns(KeyUnion(fileFormats)) &&
              |table.value.rows| == |fileFormats| &&
              forall i :: 0 <= i < |fileFormats| ==> table.value.rows[i] == CsvRow(fileFormats[i], table.value.header)
  {
    if fileFormats == [] {
      return None;
    }
    var fieldnames: set<Column> := {};
    var i := 0;
    while i < |fileFormats|
      invariant i <= |fileFormats|
      invariant fieldnames == KeyUnion(fileFormats[..i])
    {
      TakeStep(fileFormats, i);
      fieldnames := fieldnames + fileFormats[i].Keys;
      i := i + 1;
    }
    TakeAll(fileFormats);
    var header := BaseColumns;
    if Popularity in fieldnames {
      header := header + [Popularity];
    }
    var rows: seq<seq<string>> := [];
    i := 0;
    while i < |fileFormats|
      invariant i <= |fileFormats|
      invariant |rows| == i
      invariant forall j :: 0 <= j < i ==> rows[j] == CsvRow(fileFormats[j], header)
    {
      rows := rows + [CsvRow(fileFormats[i], header)];
      i := i + 1;
    }
    table := Some(Table(header, rows));
  }
}
