/** Small facts about sequences that the left-to-right folds of the model use, stated once
    so that each proof about a fold can cite them instead of rediscovering them. */
module Seqs {

  lemma AppendAssoc<T>(x: seq<T>, y: seq<T>, z: seq<T>)
    ensures (x + y) + z == x + (y + z)
  {
  }

  /** Extending a prefix by one element. */
  lemma TakeStep<T>(s: seq<T>, i: nat)
    requires i < |s|
    ensures s[..i + 1] == s[..i] + [s[i]]
    ensures s[..i + 1][..i] == s[..i]
  {
  }

  lemma TakeAll<T>(s: seq<T>)
    ensures s[..|s|] == s
  {
  }

  /** Dropping the last element of a concatenation whose second part is not empty. */
  lemma DropLastOfAppend<T>(a: seq<T>, b: seq<T>)
    requires b != []
    ensures (a + b)[..|a + b| - 1] == a + b[..|b| - 1]
    ensures (a + b)[|a + b| - 1] == b[|b| - 1]
  {
  }

  lemma DropLastOfSnoc<T>(a: seq<T>, x: T)
    ensures (a + [x])[..|a|] == a
    ensures (a + [x])[|a|] == x
  {
  }
}
