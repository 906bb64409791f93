/**
 * Searching in spans, as `MemoryExtensions.IndexOf` and `SequenceReader.TryReadTo` do:
 * the first occurrence of a value or of a sub-sequence.
 */
module Spans {

  /** `p` occurs in `s` starting at index `i`. */
  predicate OccursAt<T(==)>(s: seq<T>, p: seq<T>, i: int) {
    0 <= i && i + |p| <= |s| && s[i..i + |p|] == p
  }

  /** Index of the first occurrence of `p` in `s`, or -1. */
  function IndexOf<T(==)>(s: seq<T>, p: seq<T>): (r: int)
    ensures -1 <= r && (r >= 0 ==> r + |p| <= |s|)
    decreases |s|
  {
    if |p| > |s| then -1
    else if s[..|p|] == p then 0
    else
      var r := IndexOf(s[1..], p);
      if r < 0 then -1 else r + 1
  }

  /** `IndexOf` answers the first occurrence, and -1 exactly when there is none. */
  lemma {:induction false} IndexOfFirst<T>(s: seq<T>, p: seq<T>)
    ensures var r := IndexOf(s, p);
            && (r >= 0 ==> OccursAt(s, p, r))
            && forall j :: 0 <= j && (r < 0 || j < r) ==> !OccursAt(s, p, j)
    decreases |s|
  {
    if |p| <= |s| && s[..|p|] != p {
      IndexOfFirst(s[1..], p);
      var r := IndexOf(s[1..], p);
      forall j | 1 <= j && OccursAt(s, p, j)
        ensures OccursAt(s[1..], p, j - 1)
      {
        assert s[1..][j - 1..j - 1 + |p|] == s[j..j + |p|];
      }
      if r >= 0 {
        assert s[1..][r..r + |p|] == s[r + 1..r + 1 + |p|];
      }
    }
  }

  /** An occurrence with none before it is the one `IndexOf` answers. */
  lemma IndexOfIs<T>(s: seq<T>, p: seq<T>, i: nat)
    requires OccursAt(s, p, i) && forall j :: 0 <= j < i ==> !OccursAt(s, p, j)
    ensures IndexOf(s, p) == i
  {
    IndexOfFirst(s, p);
  }

  /** No occurrence at all: `IndexOf` answers -1. */
  lemma IndexOfNone<T>(s: seq<T>, p: seq<T>)
    requires forall j :: !OccursAt(s, p, j)
    ensures IndexOf(s, p) == -1
  {
    IndexOfFirst(s, p);
  }

  /** Index of the first element equal to `x`, or -1. */
  function IndexOfElement<T(==)>(s: seq<T>, x: T): (r: int)
    ensures -1 <= r < |s|
    ensures r >= 0 ==> s[r] == x
    ensures forall j :: 0 <= j < |s| && (r < 0 || j < r) ==> s[j] != x
  {
    if s == [] then -1
    else if s[0] == x then 0
    else
      var r := IndexOfElement(s[1..], x);
      if r < 0 then -1 else r + 1
  }
}
