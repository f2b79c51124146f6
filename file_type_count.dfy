/** `getFileTypeCount` of the analysis dashboard, which exists twice in the front end, as
    `src/component/AnalysisDashboard.tsx` and `src/components/AnalysisDashboard.tsx`, with the
    same code: it counts the uploaded files by a key derived from each file's MIME type, and
    the dashboard shows the number of keys (`Object.keys(fileTypes).length`). */
module FileTypeCount {
  import opened Wrappers
  import opened Strings
  import opened Seqs

  /** One uploaded file as the dashboard receives it (`type` is the MIME type). */
  datatype FileInfo = FileInfo(name: string, mimeType: string, size: string)

  const Other: string := "Other"

  /** The key one file is counted under: "Other" for the type "unknown", else the second
      "/"-separated segment upper-cased, or "Other" when that segment is missing or empty. */
  function TypeKey(t: string): (k: string)
    ensures k != ""
  {
    if t == "unknown" then Other
    else
      var parts := Split(t, '/');
      if |parts| < 2 || parts[1] == "" then Other else ToUpper(parts[1])
  }

  /** A key other than "Other" has no lower-case ASCII letter. */
  lemma TypeKeyUpper(t: string)
    ensures var k := TypeKey(t); k == Other || forall j :: 0 <= j < |k| ==> !IsAsciiLower(k[j])
  {
  }

  /** The text between the first and the second "/" of `t` (to the end when there is no
      second one), or `None` when `t` has no "/". */
  function SecondSegment(t: string): (seg: Option<string>)
    ensures seg.Some? ==> '/' !in seg.value
  {
    if '/' !in t then None
    else
      var rest := t[IndexOfChar(t, '/') + 1..];
      Some(if '/' in rest then rest[..IndexOfChar(rest, '/')] else rest)
  }

  /** `TypeKey` agrees with the segment read off by index. */
  lemma TypeKeySegment(t: string)
    ensures TypeKey(t) == match SecondSegment(t)
                          case None => Other
                          case Some(seg) => if t == "unknown" || seg == "" then Other else ToUpper(seg)
  {
    var parts := Split(t, '/');
    if '/' in t {
      SecondPiece(t, '/');
      assert SecondSegment(t) == Some(parts[1]);
    } else {
      assert |parts| == 1;
    }
  }

  function TypeKeys(files: seq<FileInfo>): (keys: seq<string>)
    ensures |keys| == |files| && forall j :: 0 <= j < |files| ==> keys[j] == TypeKey(files[j].mimeType)
  {
    seq(|files|, j requires 0 <= j < |files| => TypeKey(files[j].mimeType))
  }

  /** A `Record<string, number>` of counts; the counting is the same for any key type. */
  type Counts<K(==)> = map<K, nat>

  /** `types[type] = (types[type] || 0) + 1`. */
  function Bump<K(==)>(types: Counts<K>, t: K): Counts<K> {
    types[t := (if t in types then types[t] else 0) + 1]
  }

  /** `types` after counting `keys` one by one. */
  function Histogram<K(==)>(keys: seq<K>): Counts<K> {
    if keys == [] then map[]
    else
      var n := |keys| - 1;
      Bump(Histogram(keys[..n]), keys[n])
  }

  /** Each key's count is its number of occurrences, so every present key counts at least one. */
  lemma {:induction false} HistogramCounts<K>(keys: seq<K>, k: K)
    ensures k in Histogram(keys) <==> k in keys
    ensures k in Histogram(keys) ==> Histogram(keys)[k] == multiset(keys)[k] >= 1
  {
    if keys != [] {
      var n := |keys| - 1;
      HistogramCounts(keys[..n], k);
      assert keys == keys[..n] + [keys[n]];
    }
  }

  /** The order of `Object.keys(types)`: the keys in order of first insertion. */
  function KeyOrder<K(==)>(keys: seq<K>): (order: seq<K>)
    ensures |order| <= |keys|
  {
    if keys == [] then []
    else
      var n := |keys| - 1;
      var order := KeyOrder(keys[..n]);
      if keys[n] in order then order else order + [keys[n]]
  }

  predicate NoDuplicates<K(==)>(order: seq<K>) {
    forall x, y :: 0 <= x < y < |order| ==> order[x] != order[y]
  }

  /** The listed keys are the counted ones, each once. */
  lemma {:induction false} KeyOrderKeys<K>(keys: seq<K>)
    ensures forall k :: k in KeyOrder(keys) <==> k in Histogram(keys)
    ensures NoDuplicates(KeyOrder(keys))
  {
    if keys != [] {
      var n := |keys| - 1;
      KeyOrderKeys(keys[..n]);
    }
  }

  /** The sum of the counts of the keys in `order`. */
  function SumOver<K(==)>(types: Counts<K>, order: seq<K>): nat {
    if order == [] then 0
    else
      var n := |order| - 1;
      SumOver(types, order[..n]) + (if order[n] in types then types[order[n]] else 0)
  }

  /** Setting a key outside `order` does not change the sum over `order`. */
  lemma {:induction false} SumOverOutside<K>(types: Counts<K>, order: seq<K>, x: K, v: nat)
    requires x !in order
    ensures SumOver(types[x := v], order) == SumOver(types, order)
  {
    if order != [] {
      SumOverOutside(types, order[..|order| - 1], x, v);
    }
  }

  /** Adding one to a key that `order` lists once adds one to the sum. */
  lemma {:induction false} SumOverIncrement<K>(types: Counts<K>, order: seq<K>, x: K)
    requires x in order && x in types && NoDuplicates(order)
    ensures SumOver(types[x := types[x] + 1], order) == SumOver(types, order) + 1
  {
    var n := |order| - 1;
    var init := order[..n];
    if order[n] == x {
      assert x !in init;
      SumOverOutside(types, init, x, types[x] + 1);
    } else {
      SumOverIncrement(types, init, x);
    }
  }

  /** The counts of the listed keys add up to the number of files counted. */
  lemma {:induction false} CountsSum<K>(keys: seq<K>)
    ensures SumOver(Histogram(keys), KeyOrder(keys)) == |keys|
  {
    KeyOrderKeys(keys);
    if keys != [] {
      var n := |keys| - 1;
      var init := keys[..n];
      var x := keys[n];
      var types := Histogram(init);
      var order := KeyOrder(init);
      var bumped := Bump(types, x);
      assert Histogram(keys) == bumped;
      CountsSum(init);
      KeyOrderKeys(init);
      if x in order {
        assert KeyOrder(keys) == order;
        assert x in types;
        assert bumped == types[x := types[x] + 1];
        SumOverIncrement(types, order, x);
      } else {
        var order' := order + [x];
        assert KeyOrder(keys) == order';
        assert bumped == types[x := 1];
        SumOverOutside(types, order, x, 1);
        assert order'[..|order|] == order && order'[|order|] == x;
        assert x in bumped && bumped[x] == 1;
      }
    }
  }

  /** The number of type keys shown is at most the number of files. */
  lemma KeyCountBound<K>(keys: seq<K>)
    ensures |Histogram(keys).Keys| <= |keys|
    decreases |keys|
  {
    if keys != [] {
      var n := |keys| - 1;
      KeyCountBound(keys[..n]);
      var types := Histogram(keys[..n]);
      assert Histogram(keys).Keys == types.Keys + {keys[n]};
    }
  }

  /** Counting one more key adds one to its count, starting from zero. */
  lemma HistogramStep<K>(keys: seq<K>, t: K)
    ensures Histogram(keys + [t]) == Bump(Histogram(keys), t)
  {
    DropLastOfSnoc(keys, t);
  }

  /** `getFileTypeCount`: the `forEach` loop incrementing `types[type]`. */
  method GetFileTypeCount(files: seq<FileInfo>) returns (types: Counts<string>)
    ensures types == Histogram(TypeKeys(files))
  {
    ghost var keys := TypeKeys(files);
    types := map[];
    var i := 0;
    while i < |files|
      invariant 0 <= i <= |files|
      invariant types == Histogram(keys[..i])
    {
      var file := files[i];
      var t := TypeKey(file.mimeType);
      assert t == keys[i];
      HistogramStep(keys[..i], t);
      TakeStep(keys, i);
      types := Bump(types, t);
      i := i + 1;
    }
    assert keys[..i] == keys;
  }
}
