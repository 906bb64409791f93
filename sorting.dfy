/**
 * Sorting by a key under a total preorder, as `List<T>.Sort` does with a comparer. The record
 * order and its reverse (the merge's reverse comparer) are the two preorders used.
 */
module Sorting {
  import opened Wrappers

  /** `le` is transitive and total on the keys `valid` accepts. */
  ghost predicate TotalPreorderOn(valid: string -> bool, le: (string, string) -> bool) {
    && (forall x, y, z :: valid(x) && valid(y) && valid(z) && le(x, y) && le(y, z) ==> le(x, z))
    && (forall x, y :: valid(x) && valid(y) ==> le(x, y) || le(y, x))
  }

  predicate KeysValid<T>(s: seq<T>, key: T -> string, valid: string -> bool) {
    forall i :: 0 <= i < |s| ==> valid(key(s[i]))
  }

  predicate SortedBy<T>(s: seq<T>, key: T -> string, le: (string, string) -> bool) {
    forall i, j :: 0 <= i < j < |s| ==> le(key(s[i]), key(s[j]))
  }

  /** Inserts `x` before the first element it may precede. */
  function Insert<T>(x: T, s: seq<T>, key: T -> string, valid: string -> bool, le: (string, string) -> bool): (r: seq<T>)
    requires TotalPreorderOn(valid, le)
    requires valid(key(x)) && KeysValid(s, key, valid) && SortedBy(s, key, le)
    ensures multiset(r) == multiset(s) + multiset{x}
    ensures KeysValid(r, key, valid) && SortedBy(r, key, le)
  {
    if s == [] then [x]
    else if le(key(x), key(s[0])) then
      [x] + s
    else
      var rest := Insert(x, s[1..], key, valid, le);
      InsertedBehindFirst(x, s, rest, key, valid, le);
      [s[0]] + rest
  }

  /** When `x` sorts after the first element, that element may precede the insertion of `x`
      into the rest. */
  lemma InsertedBehindFirst<T>(x: T, s: seq<T>, rest: seq<T>, key: T -> string, valid: string -> bool,
                               le: (string, string) -> bool)
    requires TotalPreorderOn(valid, le)
    requires valid(key(x)) && KeysValid(s, key, valid) && SortedBy(s, key, le)
    requires s != [] && !le(key(x), key(s[0]))
    requires multiset(rest) == multiset(s[1..]) + multiset{x}
    requires KeysValid(rest, key, valid) && SortedBy(rest, key, le)
    ensures multiset([s[0]] + rest) == multiset(s) + multiset{x}
    ensures KeysValid([s[0]] + rest, key, valid) && SortedBy([s[0]] + rest, key, le)
  {
    assert s == [s[0]] + s[1..];
    forall k | 0 <= k < |rest| ensures le(key(s[0]), key(rest[k])) {
      assert rest[k] in multiset(s[1..]) + multiset{x};
      if rest[k] != x {
        assert rest[k] in s[1..];
      }
    }
    var r := [s[0]] + rest;
    forall i, j | 0 <= i < j < |r| ensures le(key(r[i]), key(r[j])) {
      assert r[j] == rest[j - 1];
      if i > 0 {
        assert r[i] == rest[i - 1];
      }
    }
  }

  /** Sorts `s` by the keys, keeping every element. */
  function InsertionSort<T>(s: seq<T>, key: T -> string, valid: string -> bool, le: (string, string) -> bool): (r: seq<T>)
    requires TotalPreorderOn(valid, le)
    requires KeysValid(s, key, valid)
    ensures multiset(r) == multiset(s)
    ensures KeysValid(r, key, valid) && SortedBy(r, key, le)
  {
    if s == [] then []
    else
      assert s == [s[0]] + s[1..];
      Insert(s[0], InsertionSort(s[1..], key, valid, le), key, valid, le)
  }

  /** `List<T>.Sort` with a comparer that rejects the keys `valid` does not accept: a list of
      fewer than two elements is left as it is, a rejected key in a longer list makes the sort
      fail with `InvalidOperationException`, and otherwise the list ends up sorted by the keys,
      with every element kept. */
  function ListSort<T>(s: seq<T>, key: T -> string, valid: string -> bool, le: (string, string) -> bool): (r: Result<seq<T>>)
    requires TotalPreorderOn(valid, le)
    ensures r.Err? <==> |s| >= 2 && !KeysValid(s, key, valid)
    ensures r.Err? ==> r.error == InvalidOperation
    ensures r.Ok? ==> multiset(r.value) == multiset(s) && SortedBy(r.value, key, le)
  {
    if |s| < 2 then Ok(s)
    else if KeysValid(s, key, valid) then Ok(InsertionSort(s, key, valid, le))
    else Err(InvalidOperation)
  }
}
