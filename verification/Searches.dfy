/** Searching in byte strings. */
module Searches {

  ghost predicate Lacks(s: string, c: char) {
    forall i :: 0 <= i < |s| ==> s[i] != c
  }

  /** Where the first `c` at or behind `from` is, or the length. */
  function Cut(s: string, c: char, from: nat): (i: nat)
    requires from <= |s|
    ensures from <= i <= |s| && (i < |s| ==> s[i] == c)
    decreases |s| - from
  {
    if from == |s| || s[from] == c then from else Cut(s, c, from + 1)
  }

  lemma {:induction false} CutFirst(s: string, c: char, from: nat)
    requires from <= |s|
    ensures forall k :: from <= k < Cut(s, c, from) ==> s[k] != c
    decreases |s| - from
  {
    if from < |s| && s[from] != c {
      CutFirst(s, c, from + 1);
    }
  }

  lemma {:induction false} CutWhere(s: string, c: char, from: nat, i: nat)
    requires from <= i <= |s| && (i < |s| ==> s[i] == c)
    requires forall k :: from <= k < i ==> s[k] != c
    ensures Cut(s, c, from) == i
    decreases i - from
  {
    if from < i {
      CutWhere(s, c, from + 1, i);
    }
  }

  lemma SplitAt(s: string, c: char, i: nat)
    requires i < |s| && s[i] == c
    ensures s == s[..i] + [c] + s[i + 1..]
  {
  }
}
