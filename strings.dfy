/** The handful of Python (and one JavaScript) string operations the modelled code calls,
    stated on `seq<char>` with their library semantics written out: `strip`, `split`,
    `replace`, `startswith`, `endswith`, `in`, `join`, `upper`, `lower`. */
module Strings {
  import opened Wrappers

  /** The characters for which Python's `str.isspace()` holds: tab to carriage return,
      the four information separators, space, next line, no-break space, ogham space mark,
      en quad to hair space, line and paragraph separators, narrow no-break space, medium
      mathematical space and ideographic space. */
  predicate IsPySpace(c: char) {
    ('\t' <= c <= '\r') || ('\U{001C}' <= c <= '\U{001F}') || c == ' ' || c == '\U{0085}' ||
    c == '\U{00A0}' || c == '\U{1680}' || ('\U{2000}' <= c <= '\U{200A}') || c == '\U{2028}' ||
    c == '\U{2029}' || c == '\U{202F}' || c == '\U{205F}' || c == '\U{3000}'
  }

  /** The en dash, U+2013, that both wiki scripts look for between an extension and its
      description. */
  const EnDash: char := '\U{2013}'

  /** The characters `str.strip()` with no argument removes. */
  const PySpaces: set<char> := set c: char | IsPySpace(c)

  // ---------------------------------------------------------------- prefixes and search

  predicate StartsWith(s: string, p: string) {
    |p| <= |s| && s[..|p|] == p
  }

  predicate EndsWith(s: string, p: string) {
    |p| <= |s| && s[|s| - |p|..] == p
  }

  /** A suffix of a suffix is a suffix. */
  lemma EndsWithTrans(s: string, t: string, u: string)
    requires EndsWith(s, t) && EndsWith(t, u)
    ensures EndsWith(s, u)
  {
    assert s[|s| - |u|..] == s[|s| - |t|..][|t| - |u|..];
  }

  /** `sub` occurs in `s` at index `i`. */
  predicate OccursAt(s: string, sub: string, i: nat) {
    i + |sub| <= |s| && s[i..i + |sub|] == sub
  }

  /** The first index at or after `from` where `sub` occurs in `s` (Python's `str.find`). */
  function FindFrom(s: string, sub: string, from: nat): (r: Option<nat>)
    requires from <= |s|
    decreases |s| - from
    ensures r.Some? ==> from <= r.value && OccursAt(s, sub, r.value)
    ensures r.Some? ==> forall j :: from <= j < r.value ==> !OccursAt(s, sub, j)
    ensures r.None? ==> forall j :: from <= j <= |s| ==> !OccursAt(s, sub, j)
  {
    if OccursAt(s, sub, from) then Some(from)
    else if from == |s| then None
    else FindFrom(s, sub, from + 1)
  }

  function Find(s: string, sub: string): (r: Option<nat>)
    ensures r.Some? ==> OccursAt(s, sub, r.value) && forall j :: 0 <= j < r.value ==> !OccursAt(s, sub, j)
    ensures r.None? ==> forall j :: 0 <= j <= |s| ==> !OccursAt(s, sub, j)
  {
    FindFrom(s, sub, 0)
  }

  /** Python's `sub in s`. */
  predicate Contains(s: string, sub: string) {
    Find(s, sub).Some?
  }

  lemma ContainsIff(s: string, sub: string)
    ensures Contains(s, sub) <==> exists j :: 0 <= j <= |s| && OccursAt(s, sub, j)
  {
  }

  /** A one-character pattern occurs exactly where that character stands. */
  lemma ContainsChar(s: string, c: char)
    ensures Contains(s, [c]) <==> c in s
  {
    if c in s {
      var j :| 0 <= j < |s| && s[j] == c;
      assert OccursAt(s, [c], j);
    } else {
      forall j | 0 <= j <= |s| ensures !OccursAt(s, [c], j) {
        if j < |s| {
          assert s[j..j + 1] == [s[j]];
        }
      }
    }
  }

  // ---------------------------------------------------------------- stripping

  /** Python's `s.lstrip(chars)`: the longest suffix of `s` that does not start with one of `cs`. */
  function LStrip(s: string, cs: set<char>): (r: string)
    ensures |r| <= |s| && r == s[|s| - |r|..]
    ensures forall i :: 0 <= i < |s| - |r| ==> s[i] in cs
    ensures r != [] ==> r[0] !in cs
  {
    if s != [] && s[0] in cs then LStrip(s[1..], cs) else s
  }

  /** Python's `s.rstrip(chars)`: the longest prefix of `s` that does not end with one of `cs`. */
  function RStrip(s: string, cs: set<char>): (r: string)
    ensures |r| <= |s| && r == s[..|r|]
    ensures forall i :: |r| <= i < |s| ==> s[i] in cs
    ensures r != [] ==> r[|r| - 1] !in cs
  {
    if s != [] && s[|s| - 1] in cs then RStrip(s[..|s| - 1], cs) else s
  }

  /** Python's `s.strip(chars)`. */
  function StripChars(s: string, cs: set<char>): (r: string)
    ensures r != [] ==> r[0] !in cs && r[|r| - 1] !in cs
    ensures |r| <= |s|
    ensures forall c :: c in r ==> c in s
  {
    var l := LStrip(s, cs);
    var r := RStrip(l, cs);
    assert r != [] ==> r[0] == l[0];
    SliceIn(s, |s| - |l|, |s|);
    SliceIn(l, 0, |r|);
    r
  }

  /** The characters of a slice are characters of the whole string. */
  lemma SliceIn(s: string, a: nat, b: nat)
    requires a <= b <= |s|
    ensures forall c :: c in s[a..b] ==> c in s
  {
    forall c | c in s[a..b] ensures c in s {
      var i :| 0 <= i < b - a && s[a..b][i] == c;
      assert s[a + i] == c;
    }
  }

  /** Python's `s.strip()`. */
  function Strip(s: string): (r: string)
    ensures forall c :: c in r ==> c in s
  {
    StripChars(s, PySpaces)
  }

  /** What `strip` leaves at the ends: no whitespace. */
  lemma StripEnds(s: string)
    ensures var r := Strip(s); r != [] ==> r[0] !in PySpaces && r[|r| - 1] !in PySpaces
  {
    var r := StripChars(s, PySpaces);
    assert Strip(s) == r;
    if r != [] {
      var a, b := r[0], r[|r| - 1];
      assert a !in PySpaces;
      assert b !in PySpaces;
    }
  }

  /** Stripping a string twice removes nothing more. */
  lemma StripIdempotent(s: string)
    ensures Strip(Strip(s)) == Strip(s)
  {
    var t := Strip(s);
    assert LStrip(t, PySpaces) == t;
    assert RStrip(t, PySpaces) == t;
  }

  /** A substring of a string in which `sub` does not occur does not contain `sub` either. */
  lemma NotContainsSlice(s: string, sub: string, a: nat, b: nat)
    requires a <= b <= |s|
    requires !Contains(s, sub)
    ensures !Contains(s[a..b], sub)
  {
    if Contains(s[a..b], sub) {
      OccursInSlice(s, sub, a, b, Find(s[a..b], sub).value);
      assert false;
    }
  }

  /** An occurrence in a slice is an occurrence in the whole string, shifted by the slice's start. */
  lemma OccursInSlice(s: string, sub: string, a: nat, b: nat, j: nat)
    requires a <= b <= |s| && OccursAt(s[a..b], sub, j)
    ensures OccursAt(s, sub, a + j)
  {
    var w := s[a..b][j..j + |sub|];
    assert |w| == |sub|;
    forall t | 0 <= t < |sub| ensures s[a + j + t] == sub[t] {
      assert w[t] == s[a + j + t];
    }
    assert s[a + j..a + j + |sub|] == sub;
  }

  lemma StripNotContains(s: string, sub: string)
    requires !Contains(s, sub)
    ensures !Contains(Strip(s), sub)
  {
    var l := LStrip(s, PySpaces);
    NotContainsSlice(s, sub, |s| - |l|, |s|);
    assert s[|s| - |l|..|s|] == l;
    NotContainsSlice(l, sub, 0, |RStrip(l, PySpaces)|);
  }

  // ---------------------------------------------------------------- splitting and joining

  /** An occurrence of `sub` at `k` cuts `s` into the text before, `sub`, and the text after. */
  lemma OccurrenceSplits(s: string, sub: string, k: nat)
    requires OccursAt(s, sub, k)
    ensures s == s[..k] + sub + s[k + |sub|..]
  {
    assert s == s[..k] + s[k..k + |sub|] + s[k + |sub|..];
  }

  /** The text before the first occurrence of `sub` does not contain `sub`. */
  lemma FirstOccurrence(s: string, sub: string, k: nat)
    requires sub != "" && Find(s, sub) == Some(k)
    ensures !Contains(s[..k], sub)
  {
    if Contains(s[..k], sub) {
      var j := Find(s[..k], sub).value;
      assert s[0..k] == s[..k];
      OccursInSlice(s, sub, 0, k, j);
      assert false;
    }
  }

  /** Python's `s.split(sep, 1)`: one part when `sep` does not occur, otherwise the text
      before its first occurrence and everything after it. */
  function SplitOnce(s: string, sep: string): (parts: seq<string>)
    requires sep != ""
    ensures 1 <= |parts| <= 2
    ensures |parts| == 1 <==> !Contains(s, sep)
    ensures |parts| == 1 ==> parts[0] == s
    ensures |parts| == 2 ==> s == parts[0] + sep + parts[1] && !Contains(parts[0], sep)
  {
    match Find(s, sep)
    case None => [s]
    case Some(k) =>
      OccurrenceSplits(s, sep, k);
      FirstOccurrence(s, sep, k);
      [s[..k], s[k + |sep|..]]
  }

  /** Python's `s.split(c)` for a one-character separator (also JavaScript's `s.split(c)`):
      the pieces between the occurrences of `c`, one more than there are occurrences. */
  function Split(s: string, c: char): (parts: seq<string>)
    ensures |parts| >= 1
    ensures forall i :: 0 <= i < |parts| ==> c !in parts[i]
    ensures c !in s ==> parts == [s]
    ensures c in s ==> |parts| >= 2
    decreases |s|
  {
    if s == [] then [""]
    else
      var rest := Split(s[1..], c);
      if s[0] == c then [""] + rest
      else
        assert s == [s[0]] + s[1..];
        [[s[0]] + rest[0]] + rest[1..]
  }

  /** The first index of `c` in `s`. */
  function IndexOfChar(s: string, c: char): (k: nat)
    requires c in s
    ensures k < |s| && s[k] == c
    ensures forall j :: 0 <= j < k ==> s[j] != c
  {
    if s[0] == c then 0 else 1 + IndexOfChar(s[1..], c)
  }

  /** Splitting cuts off the text before the first `c` and goes on with the text after it. */
  lemma {:induction false} SplitAtFirst(s: string, c: char)
    requires c in s
    ensures var k := IndexOfChar(s, c); Split(s, c) == [s[..k]] + Split(s[k + 1..], c)
    decreases |s|
  {
    if s[0] != c {
      var t := s[1..];
      var k1 := IndexOfChar(t, c);
      IndexOfCharStep(s, c);
      SplitAtFirst(t, c);
      SplitUnfold(s, c);
      PrependToFirst(s[0], Split(t, c), t[..k1], Split(t[k1 + 1..], c));
      SliceShift(s, k1);
    }
  }

  /** One step of `Split` on a text that does not start with `c`. */
  lemma SplitUnfold(s: string, c: char)
    requires s != [] && s[0] != c
    ensures Split(s, c) == [[s[0]] + Split(s[1..], c)[0]] + Split(s[1..], c)[1..]
  {
  }

  lemma IndexOfCharStep(s: string, c: char)
    requires c in s && s[0] != c
    ensures c in s[1..] && IndexOfChar(s, c) == 1 + IndexOfChar(s[1..], c)
  {
  }

  lemma SliceShift(s: string, k1: nat)
    requires k1 + 1 < |s|
    ensures s[1..][k1 + 1..] == s[k1 + 2..] && [s[0]] + s[1..][..k1] == s[..k1 + 1]
  {
  }

  /** Gluing `x` to the first piece of `[first] + after`. */
  lemma PrependToFirst(x: char, parts: seq<string>, first: string, after: seq<string>)
    requires parts == [first] + after
    ensures [[x] + parts[0]] + parts[1..] == [[x] + first] + after
  {
    assert parts[1..] == after;
  }

  /** The first piece of a split is the text before the first `c`, or all of `s`. */
  lemma FirstPiece(s: string, c: char)
    ensures Split(s, c)[0] == if c in s then s[..IndexOfChar(s, c)] else s
  {
    if c in s {
      SplitAtFirst(s, c);
    }
  }

  /** The second piece of a split is the text between the first and the second `c`, or to
      the end when there is no second one. */
  lemma SecondPiece(s: string, c: char)
    requires c in s
    ensures var parts := Split(s, c);
            var rest := s[IndexOfChar(s, c) + 1..];
            |parts| >= 2 && parts[1] == if c in rest then rest[..IndexOfChar(rest, c)] else rest
  {
    var rest := s[IndexOfChar(s, c) + 1..];
    SplitAtFirst(s, c);
    FirstPiece(rest, c);
    assert Split(s, c)[1] == Split(rest, c)[0];
  }

  /** Python's `sep.join(parts)`. */
  function Join(parts: seq<string>, sep: string): string {
    if parts == [] then ""
    else if |parts| == 1 then parts[0]
    else parts[0] + sep + Join(parts[1..], sep)
  }

  /** Splitting on a character and joining the pieces with it gives the string back. */
  lemma {:induction false} JoinSplit(s: string, c: char)
    ensures Join(Split(s, c), [c]) == s
    decreases |s|
  {
    if s != [] {
      var rest := Split(s[1..], c);
      JoinSplit(s[1..], c);
      if s[0] == c {
        JoinCons("", rest, [c]);
      } else {
        JoinMerge([s[0]], rest, [c]);
      }
      assert s == [s[0]] + s[1..];
    }
  }

  lemma JoinCons(a: string, rest: seq<string>, sep: string)
    requires |rest| >= 1
    ensures Join([a] + rest, sep) == a + sep + Join(rest, sep)
  {
    assert ([a] + rest)[1..] == rest;
  }

  /** Gluing text onto the first piece glues it onto the joined string. */
  lemma JoinMerge(h: string, rest: seq<string>, sep: string)
    requires |rest| >= 1
    ensures Join([h + rest[0]] + rest[1..], sep) == h + Join(rest, sep)
  {
    var parts := [h + rest[0]] + rest[1..];
    if |rest| > 1 {
      assert parts[1..] == rest[1..];
    }
  }

  /** `s.split(c)[-1]`: the text after the last `c`, or all of `s` when there is none. */
  function LastPiece(s: string, c: char): (r: string)
    ensures c !in r
  {
    var parts := Split(s, c);
    parts[|parts| - 1]
  }

  /** The last piece of `x + [c] + b` split on `c` is `b` when `b` has no `c`. */
  lemma {:induction false} SplitLast(x: string, c: char, b: string)
    requires c !in b
    ensures LastPiece(x + [c] + b, c) == b
    decreases |x|
  {
    var s := x + [c] + b;
    var rest := Split(s[1..], c);
    if x == [] {
      assert s[0] == c && s[1..] == b;
    } else {
      assert s[1..] == x[1..] + [c] + b;
      assert c in s[1..] by {
        assert s[1..][|x| - 1] == c;
      }
      SplitLast(x[1..], c, b);
    }
  }

  // ---------------------------------------------------------------- replacing

  /** Python's `s.replace(pat, repl)` for a non-empty `pat`: every non-overlapping occurrence,
      scanning left to right, is replaced. */
  function ReplaceAll(s: string, pat: string, repl: string): (r: string)
    requires pat != ""
    ensures forall c :: c in r ==> c in s || c in repl
    decreases |s|
  {
    match Find(s, pat)
    case None => s
    case Some(k) => s[..k] + repl + ReplaceAll(s[k + |pat|..], pat, repl)
  }

  /** Replacing a character by text that does not contain it removes every occurrence. */
  lemma {:induction false} ReplaceCharRemoves(s: string, c: char, repl: string)
    requires c !in repl
    ensures c !in ReplaceAll(s, [c], repl)
    decreases |s|
  {
    match Find(s, [c])
    case None =>
      ContainsChar(s, c);
    case Some(k) =>
      var rest := s[k + |[c]|..];
      ReplaceCharRemoves(rest, c, repl);
      FirstOccurrence(s, [c], k);
      ContainsChar(s[..k], c);
      assert ReplaceAll(s, [c], repl) == s[..k] + repl + ReplaceAll(rest, [c], repl);
  }

  /** A string without occurrences of `pat` is left unchanged. */
  lemma ReplaceAbsent(s: string, pat: string, repl: string)
    requires pat != "" && !Contains(s, pat)
    ensures ReplaceAll(s, pat, repl) == s
  {
  }

  /** ".git" has no border, so in `name + ".git"` with no ".git" inside `name`, the first
      occurrence is the suffix, and removing every occurrence leaves `name`. */
  lemma GitSuffixRemoved(name: string, suffix: string)
    requires suffix == ".git" && !Contains(name, suffix)
    ensures ReplaceAll(name + suffix, suffix, "") == name
  {
    var s := name + suffix;
    ContainsIff(name, suffix);
    forall j | 0 <= j < |name| ensures !OccursAt(s, suffix, j) {
      if j + 4 <= |name| {
        assert s[j..j + 4] == name[j..j + 4];
        assert !OccursAt(name, suffix, j);
      } else {
        assert s[j..j + 4][|name| - j] == '.';
      }
    }
    assert OccursAt(s, suffix, |name|);
    assert Find(s, suffix) == Some(|name|);
    assert s[|name| + 4..] == "";
    assert s[..|name|] == name;
  }

  // ---------------------------------------------------------------- case mapping (ASCII)

  predicate IsAsciiLower(c: char) { 'a' <= c <= 'z' }
  predicate IsAsciiUpper(c: char) { 'A' <= c <= 'Z' }

  function UpperChar(c: char): (u: char)
    ensures !IsAsciiLower(u)
    ensures IsAsciiLower(c) || u == c
  {
    if IsAsciiLower(c) then (c as int - 32) as char else c
  }

  function LowerChar(c: char): (l: char)
    ensures !IsAsciiUpper(l)
    ensures IsAsciiUpper(c) || l == c
  {
    if IsAsciiUpper(c) then (c as int + 32) as char else c
  }

  /** `str.upper()` / `String.prototype.toUpperCase()`, restricted to ASCII letters. */
  function ToUpper(s: string): (r: string)
    ensures |r| == |s|
    ensures forall i :: 0 <= i < |s| ==> r[i] == UpperChar(s[i])
  {
    seq(|s|, i requires 0 <= i < |s| => UpperChar(s[i]))
  }

  /** `str.lower()`, restricted to ASCII letters. */
  function ToLower(s: string): (r: string)
    ensures |r| == |s|
    ensures forall i :: 0 <= i < |s| ==> r[i] == LowerChar(s[i])
  {
    seq(|s|, i requires 0 <= i < |s| => LowerChar(s[i]))
  }
}
