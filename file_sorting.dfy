/**
 * The sort engine (SortFile/FileSorting.cs). The split phase sorts every chunk of lines with the
 * record order and saves it as a run file under a fresh name. The merge phase opens a cursor on
 * every non-empty run and keeps the cursors in descending order of their current lines, so the
 * smallest is at the tail; it repeatedly writes the tail's line, advances that cursor and puts it
 * back where `BinarySearch` says, or drops it when its run is exhausted.
 */
module FileSorting {
  import opened Wrappers
  import opened Encodings
  import opened DataComparer
  import Sorting
  import CommonFileSaving
  import DataDescription
  import FileNameGeneration
  import DataReading
  import LineSplit = Lines
  import Decimal
  import StreamReading

  /** A run file: its path and the lines `StreamReader.ReadLineAsync` returns for it, in order.
      The split phase computes those lines from the bytes it writes (`SavedRun`). */
  datatype RunFile = RunFile(path: string, lines: seq<string>)

  /** Every line is one `valid` accepts. */
  predicate AllValid(lines: seq<string>, valid: string -> bool) {
    forall i :: 0 <= i < |lines| ==> valid(lines[i])
  }

  /** Non-decreasing in the order `le`. */
  predicate Ascending(lines: seq<string>, le: (string, string) -> bool) {
    forall i, j :: 0 <= i < j < |lines| ==> le(lines[i], lines[j])
  }

  /** Non-increasing in the order `le`: the order of the merge's working set. */
  predicate Descending(keys: seq<string>, le: (string, string) -> bool) {
    forall i, j :: 0 <= i < j < |keys| ==> le(keys[j], keys[i])
  }

  predicate RunsValid(runs: seq<seq<string>>, valid: string -> bool) {
    forall r :: r in runs ==> AllValid(r, valid)
  }

  predicate RunsAscending(runs: seq<seq<string>>, le: (string, string) -> bool) {
    forall r :: r in runs ==> Ascending(r, le)
  }

  function Lines(files: seq<RunFile>): (runs: seq<seq<string>>)
    ensures |runs| == |files|
  {
    seq(|files|, i requires 0 <= i < |files| => files[i].lines)
  }

  /** The lines of all the runs, counted with their multiplicity. */
  function Pending(runs: seq<seq<string>>): multiset<string>
  {
    if runs == [] then multiset{} else Pending(runs[..|runs| - 1]) + multiset(runs[|runs| - 1])
  }

  lemma {:induction false} PendingAppend(a: seq<seq<string>>, b: seq<seq<string>>)
    ensures Pending(a + b) == Pending(a) + Pending(b)
    decreases |b|
  {
    if b != [] {
      var n := |b| - 1;
      assert (a + b)[..|a + b| - 1] == a + b[..n];
      PendingAppend(a, b[..n]);
    } else {
      assert a + b == a;
    }
  }

  /** Putting one more run anywhere among the others adds its lines. */
  lemma PendingInsert(runs: seq<seq<string>>, p: nat, run: seq<string>)
    requires p <= |runs|
    ensures Pending(runs[..p] + [run] + runs[p..]) == Pending(runs) + multiset(run)
  {
    var a, b := runs[..p], runs[p..];
    assert a + b == runs;
    PendingAppend(a, b);
    PendingAppend(a + [run], b);
    PendingAppend(a, [run]);
    PendingSingle(run);
  }

  lemma PendingSingle(run: seq<string>)
    ensures Pending([run]) == multiset(run)
  {
    assert [run][..0] == [];
  }

  /** Reordering the runs keeps their lines. */
  lemma {:induction false} PendingPermutation(a: seq<seq<string>>, b: seq<seq<string>>)
    requires multiset(a) == multiset(b)
    ensures Pending(a) == Pending(b)
    decreases |a|
  {
    if a == [] {
      assert |multiset(b)| == 0;
    } else {
      var n := |a| - 1;
      var x := a[n];
      assert a == a[..n] + [x];
      assert x in multiset(b);
      var j :| 0 <= j < |b| && b[j] == x;
      var rest := b[..j] + b[j + 1..];
      assert b == rest[..j] + [x] + rest[j..];
      RemoveMatching(a, b, j);
      PendingPermutation(a[..n], rest);
      PendingInsert(rest, j, x);
    }
  }

  /** Taking the last element of `a` out of both sides of a permutation, where it sits at `j` in
      `b`, leaves a permutation. */
  lemma RemoveMatching<T>(a: seq<T>, b: seq<T>, j: nat)
    requires multiset(a) == multiset(b) && a != [] && j < |b| && b[j] == a[|a| - 1]
    ensures multiset(a[..|a| - 1]) == multiset(b[..j] + b[j + 1..])
  {
    var n := |a| - 1;
    assert a == a[..n] + [a[n]];
    assert b == b[..j] + [b[j]] + b[j + 1..];
    var rest := b[..j] + b[j + 1..];
    assert multiset(b) == multiset(rest) + multiset{b[j]};
    forall y ensures multiset(a[..n])[y] == multiset(rest)[y] {
      assert multiset(a)[y] == multiset(b)[y];
    }
  }

  /** The merge's cursor on one run file (`MergeFileItem`). */
  class MergeFileItem {
    const filePath: string
    /** What the run file's `StreamReader` returns line by line. */
    const lines: seq<string>
    /** How many lines `ReadNext` has taken from the reader. */
    var read: nat
    /** `CurrentLine`: the line last read, `None` before the first read and at the end. */
    var currentLine: Option<string>
    var disposed: bool

    ghost predicate Valid()
      reads this
    {
      read <= |lines| && (currentLine.Some? ==> 0 < read && currentLine.value == lines[read - 1])
    }

    /** The constructor opens the file; nothing is read yet. */
    constructor (filePath: string, lines: seq<string>)
      ensures this.filePath == filePath && this.lines == lines
      ensures read == 0 && currentLine == None && !disposed && Valid()
    {
      this.filePath := filePath;
      this.lines := lines;
      read := 0;
      currentLine := None;
      disposed := false;
    }

    /** `ReadNext`: the next line becomes the current one; at the end the current line is null
        and the answer is false. */
    method ReadNext() returns (hasValue: bool)
      requires Valid()
      modifies this`read, this`currentLine
      ensures Valid()
      ensures hasValue <==> old(read) < |lines|
      ensures hasValue ==> read == old(read) + 1 && currentLine == Some(lines[old(read)])
      ensures !hasValue ==> read == old(read) && currentLine == None
    {
      if read < |lines| {
        currentLine := Some(lines[read]);
        read := read + 1;
        hasValue := true;
      } else {
        currentLine := None;
        hasValue := false;
      }
    }

    /** `Dispose` / `DisposeAsync`: closes the reader and the stream. */
    method Dispose()
      modifies this`disposed
      ensures disposed
    {
      disposed := true;
    }

    /** `OpenAsync`: a cursor on its first line, or, for a file without lines, no cursor (the
        item is disposed at once). */
    static method Open(filePath: string, lines: seq<string>) returns (item: Option<MergeFileItem>)
      ensures item.None? <==> lines == []
      ensures item.Some? ==>
                && fresh(item.value) && item.value.Valid() && !item.value.disposed
                && item.value.filePath == filePath && item.value.lines == lines
                && item.value.read == 1 && item.value.currentLine == Some(lines[0])
    {
      var cursor := new MergeFileItem(filePath, lines);
      var hasValue := cursor.ReadNext();
      if !hasValue {
        cursor.Dispose();
        return None;
      }
      return Some(cursor);
    }
  }

  /** `MergeFileItemReverseComparer.Compare`. `None` is a null item and `Some(line)` an item whose
      current line is `line`: two nulls tie, a null sorts after an item, and two items compare
      by the record order with the arguments swapped. */
  function ReverseCompare(x: Option<string>, y: Option<string>): (r: Result<int>)
    ensures r.Ok? ==> -1 <= r.value <= 1
  {
    if x.None? then Ok(if y.None? then 0 else 1)
    else if y.None? then Ok(-1)
    else Compare(y.value, x.value)
  }

  /** The reverse comparer is the record order turned round, with nulls last: it accepts every
      pair of well-formed lines, it is antisymmetric, and it puts `x` first exactly when `y`
      sorts before `x` in the record order. */
  lemma ReverseCompareIsReversedOrder(x: Option<string>, y: Option<string>)
    requires x.Some? ==> WellFormed(x.value)
    requires y.Some? ==> WellFormed(y.value)
    ensures ReverseCompare(x, y).Ok? && ReverseCompare(y, x).Ok?
    ensures ReverseCompare(x, y).value == -ReverseCompare(y, x).value
    ensures x.Some? && y.Some? ==> (ReverseCompare(x, y).value <= 0 <==> Le(y.value, x.value))
    ensures x.None? && y.None? ==> ReverseCompare(x, y).value == 0
    ensures x.None? != y.None? ==> (ReverseCompare(x, y).value < 0 <==> x.Some?)
  {
    if x.Some? && y.Some? {
      CompareIsKeyOrder(y.value, x.value);
      CompareAntisymmetric(x.value, y.value);
    }
  }


  /** `compare` turns `le` round on the lines `valid` accepts: it accepts every pair of them, and
      it puts `x` first (or ties) exactly when `y` may precede `x`. */
  ghost predicate ReversesOrder(compare: (Option<string>, Option<string>) -> Result<int>,
                                valid: string -> bool, le: (string, string) -> bool)
  {
    forall x, y :: valid(x) && valid(y) ==>
      && compare(Some(x), Some(y)).Ok?
      && (compare(Some(x), Some(y)).value <= 0 <==> le(y, x))
      && (compare(Some(x), Some(y)).value >= 0 <==> le(x, y))
  }

  /** The merge's reverse comparer turns the record order round. */
  lemma ReverseCompareReversesOrder()
    ensures ReversesOrder(ReverseCompare, WellFormed, Le)
  {
    forall x, y | WellFormed(x) && WellFormed(y)
      ensures && ReverseCompare(Some(x), Some(y)).Ok?
              && (ReverseCompare(Some(x), Some(y)).value <= 0 <==> Le(y, x))
              && (ReverseCompare(Some(x), Some(y)).value >= 0 <==> Le(x, y))
    {
      ReverseCompareIsReversedOrder(Some(x), Some(y));
      ReverseCompareIsReversedOrder(Some(y), Some(x));
    }
  }

  /** What the binary search needs to find an insertion point for `value` among `keys`: a
      comparer that reverses a total preorder, valid keys and value, and descending keys. */
  ghost predicate SearchReady(keys: seq<string>, value: string,
                              compare: (Option<string>, Option<string>) -> Result<int>,
                              valid: string -> bool, le: (string, string) -> bool)
  {
    && ReversesOrder(compare, valid, le) && Sorting.TotalPreorderOn(valid, le)
    && AllValid(keys, valid) && valid(value) && Descending(keys, le)
  }

  /** The index where `List.Insert` puts an item after `BinarySearch` returned `index`: the
      index itself, or its bitwise complement when it is negative. */
  function Position(index: int): (p: nat)
    ensures index >= 0 ==> p == index
    ensures index < 0 ==> p == -index - 1
  {
    if index >= 0 then index else -index - 1
  }

  /** Putting `value` at `p` keeps `keys` in descending order of `le`. */
  predicate InsertionPoint(keys: seq<string>, value: string, p: int, le: (string, string) -> bool) {
    && 0 <= p <= |keys|
    && (forall i :: 0 <= i < p ==> le(value, keys[i]))
    && (forall i :: p <= i < |keys| ==> le(keys[i], value))
  }

  /** In a descending list, an element below `keys[mid]` is below everything before it. */
  lemma BelowPrefix(keys: seq<string>, value: string, mid: nat, valid: string -> bool, le: (string, string) -> bool)
    requires Sorting.TotalPreorderOn(valid, le) && AllValid(keys, valid) && valid(value)
    requires Descending(keys, le) && mid < |keys| && le(value, keys[mid])
    ensures forall i :: 0 <= i <= mid ==> le(value, keys[i])
  {
    forall i | 0 <= i < mid ensures le(value, keys[i]) {
      assert le(keys[mid], keys[i]);
    }
  }

  /** In a descending list, an element above `keys[mid]` is above everything after it. */
  lemma AboveSuffix(keys: seq<string>, value: string, mid: nat, valid: string -> bool, le: (string, string) -> bool)
    requires Sorting.TotalPreorderOn(valid, le) && AllValid(keys, valid) && valid(value)
    requires Descending(keys, le) && mid < |keys| && le(keys[mid], value)
    ensures forall i :: mid <= i < |keys| ==> le(keys[i], value)
  {
    forall i | mid < i < |keys| ensures le(keys[i], value) {
      assert le(keys[i], keys[mid]);
    }
  }

  /** `List<T>.BinarySearch(item, comparer)`, the search of .NET's `ArraySortHelper`, over the
      items whose current lines are `keys`: the index of an item that ties with `item`, or the
      bitwise complement of the index where the search ended. A failing comparison is reported
      as `InvalidOperationException`. When `compare` turns a total preorder round and the keys
      are in descending order of it, the answer is a place where `item` keeps them so. */
  method BinarySearch(items: seq<MergeFileItem>, item: MergeFileItem,
                      compare: (Option<string>, Option<string>) -> Result<int>,
                      ghost keys: seq<string>, ghost valid: string -> bool, ghost le: (string, string) -> bool)
    returns (r: Result<int>)
    requires |keys| == |items| && forall i :: 0 <= i < |items| ==> items[i].currentLine == Some(keys[i])
    requires item.currentLine.Some?
    ensures r.Err? ==> r.error == InvalidOperation
    ensures r.Ok? ==> -|keys| - 1 <= r.value < |keys|
    ensures r.Ok? && r.value >= 0 ==> compare(Some(keys[r.value]), item.currentLine) == Ok(0)
    ensures SearchReady(keys, item.currentLine.value, compare, valid, le) ==>
              r.Ok? && InsertionPoint(keys, item.currentLine.value, Position(r.value), le)
  {
    ghost var value := item.currentLine.value;
    ghost var good := SearchReady(keys, value, compare, valid, le);
    var lo, hi := 0, |items| - 1;
    while lo <= hi
      invariant 0 <= lo <= hi + 1 <= |items|
      invariant good ==> forall i :: 0 <= i < lo ==> le(value, keys[i])
      invariant good ==> forall i :: hi < i < |keys| ==> le(keys[i], value)
      decreases hi - lo
    {
      var mid := lo + (hi - lo) / 2;
      var order := compare(Some(items[mid].currentLine.value), item.currentLine);
      if order.Err? {
        return Err(InvalidOperation);
      }
      if good {
        assert valid(keys[mid]);
      }
      if order.value == 0 {
        if good {
          BelowPrefix(keys, value, mid, valid, le);
          AboveSuffix(keys, value, mid, valid, le);
        }
        return Ok(mid);
      }
      if order.value < 0 {
        if good {
          BelowPrefix(keys, value, mid, valid, le);
        }
        lo := mid + 1;
      } else {
        if good {
          AboveSuffix(keys, value, mid, valid, le);
        }
        hi := mid - 1;
      }
    }
    return Ok(-lo - 1);
  }

  /** The current line of each cursor, the first of its unwritten lines. */
  function Heads(rests: seq<seq<string>>): (keys: seq<string>)
    requires forall i :: 0 <= i < |rests| ==> rests[i] != []
    ensures |keys| == |rests| && forall i :: 0 <= i < |rests| ==> keys[i] == rests[i][0]
  {
    seq(|rests|, i requires 0 <= i < |rests| => rests[i][0])
  }

  /** The heads of the runs with one more run inserted at `p`. */
  lemma HeadsInsert(runs: seq<seq<string>>, run: seq<string>, p: nat)
    requires forall i :: 0 <= i < |runs| ==> runs[i] != []
    requires run != [] && p <= |runs|
    ensures var next := runs[..p] + [run] + runs[p..];
            && (forall i :: 0 <= i < |next| ==> next[i] != [])
            && Heads(next) == Heads(runs)[..p] + [run[0]] + Heads(runs)[p..]
  {
    var next := runs[..p] + [run] + runs[p..];
    var keys := Heads(runs)[..p] + [run[0]] + Heads(runs)[p..];
    forall i | 0 <= i < |next| ensures next[i] != [] && next[i][0] == keys[i] {
      if i < p {
        assert next[i] == runs[i] && keys[i] == Heads(runs)[i];
      } else if p < i {
        assert next[i] == runs[i - 1] && keys[i] == Heads(runs)[i - 1];
      }
    }
  }

  /** Putting `value` at an insertion point keeps the keys descending. */
  lemma InsertKeepsDescending(keys: seq<string>, value: string, p: nat, le: (string, string) -> bool)
    requires Descending(keys, le) && InsertionPoint(keys, value, p, le)
    ensures Descending(keys[..p] + [value] + keys[p..], le)
  {
    var s := keys[..p] + [value] + keys[p..];
    forall i, j | 0 <= i < j < |s| ensures le(s[j], s[i]) {
      if j < p {
        assert s[i] == keys[i] && s[j] == keys[j];
      } else if j == p {
        assert s[i] == keys[i];
      } else if i < p {
        assert s[i] == keys[i] && s[j] == keys[j - 1];
      } else if i == p {
        assert s[j] == keys[j - 1];
      } else {
        assert s[i] == keys[i - 1] && s[j] == keys[j - 1];
      }
    }
  }

  /** What holds before every step of the merge. `written` are the lines written so far and
      `rests` the unwritten lines of each cursor, its current line first; together they are the
      lines of all the runs. When every line is one `valid` accepts, the cursors are in
      descending order of their current lines; when the runs are ascending besides, the lines
      written are ascending and none of them exceeds a line still to come. */
  ghost predicate MergeInvariant(total: multiset<string>, written: seq<string>, rests: seq<seq<string>>,
                                 valid: string -> bool, le: (string, string) -> bool,
                                 wellFormed: bool, ascending: bool)
  {
    && (forall i :: 0 <= i < |rests| ==> rests[i] != [])
    && multiset(written) + Pending(rests) == total
    && (wellFormed ==> RunsValid(rests, valid) && AllValid(written, valid) && Descending(Heads(rests), le))
    && (wellFormed && ascending ==>
          && RunsAscending(rests, le) && Ascending(written, le)
          && (written != [] ==> forall i :: 0 <= i < |rests| ==> le(written[|written| - 1], rests[i][0])))
  }

  /** Writing the tail cursor's line accounts for it: the lines written, the other cursors' lines
      and the rest of the tail's run are still all the lines. */
  lemma WriteTailCount(total: multiset<string>, written: seq<string>, rests: seq<seq<string>>)
    requires rests != [] && rests[|rests| - 1] != []
    requires multiset(written) + Pending(rests) == total
    ensures var n := |rests| - 1;
            multiset(written + [rests[n][0]]) + Pending(rests[..n]) + multiset(rests[n][1..]) == total
  {
    var n := |rests| - 1;
    var line := rests[n][0];
    assert rests[n] == [line] + rests[n][1..];
    assert multiset(rests[n]) == multiset{line} + multiset(rests[n][1..]);
    assert multiset(written + [line]) == multiset(written) + multiset{line};
  }

  /** Without the tail cursor the working set is still valid and descending. */
  lemma WriteTailValid(written: seq<string>, rests: seq<seq<string>>, valid: string -> bool, le: (string, string) -> bool)
    requires forall i :: 0 <= i < |rests| ==> rests[i] != []
    requires rests != [] && RunsValid(rests, valid) && AllValid(written, valid) && Descending(Heads(rests), le)
    ensures var n := |rests| - 1;
            && RunsValid(rests[..n], valid) && AllValid(rests[n][1..], valid)
            && AllValid(written + [rests[n][0]], valid)
            && AllValid(Heads(rests[..n]), valid) && Descending(Heads(rests[..n]), le)
  {
    var n := |rests| - 1;
    var others := rests[..n];
    assert rests[n] in rests;
    forall r | r in others ensures AllValid(r, valid) {
      assert r in rests;
    }
    forall i | 0 <= i < n ensures valid(Heads(others)[i]) {
      assert others[i] in rests;
    }
    forall i, j | 0 <= i < j < n ensures le(Heads(others)[j], Heads(others)[i]) {
      assert Heads(others)[i] == Heads(rests)[i] && Heads(others)[j] == Heads(rests)[j];
    }
  }

  /** The tail cursor's line is the smallest current line, so writing it keeps the lines written
      ascending and below everything still to come, including the next line of its own run. */
  lemma WriteTailAscending(written: seq<string>, rests: seq<seq<string>>, valid: string -> bool, le: (string, string) -> bool)
    requires Sorting.TotalPreorderOn(valid, le)
    requires forall i :: 0 <= i < |rests| ==> rests[i] != []
    requires rests != [] && RunsValid(rests, valid) && AllValid(written, valid)
    requires Descending(Heads(rests), le) && RunsAscending(rests, le) && Ascending(written, le)
    requires written != [] ==> forall i :: 0 <= i < |rests| ==> le(written[|written| - 1], rests[i][0])
    ensures var n := |rests| - 1;
            var line := rests[n][0];
            && RunsAscending(rests[..n], le) && Ascending(rests[n][1..], le)
            && Ascending(written + [line], le)
            && (forall i :: 0 <= i < n ==> le(line, rests[i][0]))
            && (|rests[n]| > 1 ==> le(line, rests[n][1]))
  {
    var n := |rests| - 1;
    var line := rests[n][0];
    var others := rests[..n];
    assert rests[n] in rests;
    forall r | r in others ensures Ascending(r, le) {
      assert r in rests;
    }
    forall i | 0 <= i < n ensures le(line, rests[i][0]) {
      assert Heads(rests)[i] == rests[i][0] && Heads(rests)[n] == line;
    }
    var w := written + [line];
    assert valid(line);
    forall i, j | 0 <= i < j < |w| ensures le(w[i], w[j]) {
      if j == |written| {
        assert le(written[|written| - 1], rests[n][0]);
        if i < |written| - 1 {
          assert valid(written[i]) && valid(written[|written| - 1]);
          assert le(written[i], written[|written| - 1]);
        }
      } else {
        assert w[i] == written[i] && w[j] == written[j];
      }
    }
  }

  /** Writing the tail cursor's line, as the three lemmas above say. */
  lemma WriteTail(total: multiset<string>, written: seq<string>, rests: seq<seq<string>>,
                  valid: string -> bool, le: (string, string) -> bool, wellFormed: bool, ascending: bool)
    requires MergeInvariant(total, written, rests, valid, le, wellFormed, ascending) && rests != []
    requires wellFormed ==> Sorting.TotalPreorderOn(valid, le)
    ensures var n := |rests| - 1;
            var line := rests[n][0];
            && multiset(written + [line]) + Pending(rests[..n]) + multiset(rests[n][1..]) == total
            && (wellFormed ==>
                  && RunsValid(rests[..n], valid) && AllValid(rests[n][1..], valid)
                  && AllValid(written + [line], valid)
                  && AllValid(Heads(rests[..n]), valid) && Descending(Heads(rests[..n]), le))
            && (wellFormed && ascending ==>
                  && RunsAscending(rests[..n], le) && Ascending(rests[n][1..], le)
                  && Ascending(written + [line], le)
                  && (forall i :: 0 <= i < n ==> le(line, rests[i][0]))
                  && (|rests[n]| > 1 ==> le(line, rests[n][1])))
  {
    WriteTailCount(total, written, rests);
    if wellFormed {
      WriteTailValid(written, rests, valid, le);
    }
    if wellFormed && ascending {
      WriteTailAscending(written, rests, valid, le);
    }
  }

  /** A step that exhausts the tail cursor keeps the invariant without it. */
  lemma MergeStepExhausted(total: multiset<string>, written: seq<string>, rests: seq<seq<string>>,
                           valid: string -> bool, le: (string, string) -> bool, wellFormed: bool, ascending: bool)
    requires MergeInvariant(total, written, rests, valid, le, wellFormed, ascending)
    requires wellFormed ==> Sorting.TotalPreorderOn(valid, le)
    requires rests != [] && |rests[|rests| - 1]| == 1
    ensures MergeInvariant(total, written + [rests[|rests| - 1][0]], rests[..|rests| - 1], valid, le, wellFormed, ascending)
  {
    WriteTail(total, written, rests, valid, le, wellFormed, ascending);
    var n := |rests| - 1;
    assert rests[n][1..] == [];
  }

  /** Putting the tail cursor, advanced, back at the insertion point of its next line keeps the
      working set valid and descending. */
  lemma ReinsertValid(rests: seq<seq<string>>, p: nat, valid: string -> bool, le: (string, string) -> bool)
    requires forall i :: 0 <= i < |rests| ==> rests[i] != []
    requires rests != [] && |rests[|rests| - 1]| > 1 && p <= |rests| - 1
    requires RunsValid(rests[..|rests| - 1], valid) && AllValid(rests[|rests| - 1][1..], valid)
    requires Descending(Heads(rests[..|rests| - 1]), le)
    requires InsertionPoint(Heads(rests[..|rests| - 1]), rests[|rests| - 1][1], p, le)
    ensures var n := |rests| - 1;
            var others := rests[..n];
            var next := others[..p] + [rests[n][1..]] + others[p..];
            RunsValid(next, valid) && Descending(Heads(next), le)
  {
    var n := |rests| - 1;
    var others := rests[..n];
    var tail := rests[n][1..];
    var next := others[..p] + [tail] + others[p..];
    HeadsInsert(others, tail, p);
    InsertKeepsDescending(Heads(others), tail[0], p, le);
    forall r | r in next ensures AllValid(r, valid) {
      if r != tail {
        assert r in others;
      }
    }
  }

  /** Putting the tail cursor, advanced, back anywhere keeps the runs ascending, and its line,
      below every current line and below the next line of its run, stays below them all. */
  lemma ReinsertAscending(rests: seq<seq<string>>, p: nat, le: (string, string) -> bool)
    requires forall i :: 0 <= i < |rests| ==> rests[i] != []
    requires rests != [] && |rests[|rests| - 1]| > 1 && p <= |rests| - 1
    requires RunsAscending(rests[..|rests| - 1], le) && Ascending(rests[|rests| - 1][1..], le)
    requires forall i :: 0 <= i < |rests| - 1 ==> le(rests[|rests| - 1][0], rests[i][0])
    requires le(rests[|rests| - 1][0], rests[|rests| - 1][1])
    ensures var n := |rests| - 1;
            var others := rests[..n];
            var next := others[..p] + [rests[n][1..]] + others[p..];
            && RunsAscending(next, le) && forall i :: 0 <= i < |next| ==> le(rests[n][0], next[i][0])
  {
    var n := |rests| - 1;
    var others := rests[..n];
    var tail := rests[n][1..];
    var next := others[..p] + [tail] + others[p..];
    forall r | r in next ensures Ascending(r, le) {
      if r != tail {
        assert r in others;
      }
    }
    forall i | 0 <= i < |next| ensures le(rests[n][0], next[i][0]) {
      if i < p {
        assert next[i] == others[i];
      } else if p < i {
        assert next[i] == others[i - 1];
      }
    }
  }

  /** The advanced tail cursor put back anywhere: no run is empty and all lines are accounted
      for. */
  lemma ReinsertCount(total: multiset<string>, written: seq<string>, rests: seq<seq<string>>, p: nat)
    requires forall i :: 0 <= i < |rests| ==> rests[i] != []
    requires rests != [] && |rests[|rests| - 1]| > 1 && p <= |rests| - 1
    requires multiset(written) + Pending(rests) == total
    ensures var n := |rests| - 1;
            var others := rests[..n];
            var next := others[..p] + [rests[n][1..]] + others[p..];
            && (forall i :: 0 <= i < |next| ==> next[i] != [])
            && multiset(written + [rests[n][0]]) + Pending(next) == total
  {
    WriteTailCount(total, written, rests);
    var n := |rests| - 1;
    var others := rests[..n];
    var next := others[..p] + [rests[n][1..]] + others[p..];
    PendingInsert(others, p, rests[n][1..]);
    forall i | 0 <= i < |next| ensures next[i] != [] {
      if i < p {
        assert next[i] == others[i];
      } else if p < i {
        assert next[i] == others[i - 1];
      }
    }
  }

  /** A step that advances the tail cursor and puts it back at an insertion point of its next
      line keeps the invariant. */
  lemma MergeStepReinserted(total: multiset<string>, written: seq<string>, rests: seq<seq<string>>,
                            valid: string -> bool, le: (string, string) -> bool,
                            wellFormed: bool, ascending: bool, p: nat)
    requires MergeInvariant(total, written, rests, valid, le, wellFormed, ascending)
    requires wellFormed ==> Sorting.TotalPreorderOn(valid, le)
    requires rests != [] && |rests[|rests| - 1]| > 1 && p <= |rests| - 1
    requires wellFormed ==> InsertionPoint(Heads(rests[..|rests| - 1]), rests[|rests| - 1][1], p, le)
    ensures var n := |rests| - 1;
            var others := rests[..n];
            MergeInvariant(total, written + [rests[n][0]], others[..p] + [rests[n][1..]] + others[p..],
                           valid, le, wellFormed, ascending)
  {
    ReinsertCount(total, written, rests, p);
    if wellFormed {
      WriteTailValid(written, rests, valid, le);
      ReinsertValid(rests, p, valid, le);
    }
    if wellFormed && ascending {
      WriteTailAscending(written, rests, valid, le);
      ReinsertAscending(rests, p, le);
      assert (written + [rests[|rests| - 1][0]])[|written|] == rests[|rests| - 1][0];
    }
  }
  /** What the cursors have left after a round: the tail run loses its head and, if anything is
      left of it, goes back in at `p`; otherwise it is gone. */
  function NextRests(rests: seq<seq<string>>, p: nat): (next: seq<seq<string>>)
    requires rests != [] && rests[|rests| - 1] != [] && p < |rests|
    ensures |next| == (if |rests[|rests| - 1]| == 1 then |rests| - 1 else |rests|)
  {
    var n := |rests| - 1;
    if |rests[n]| == 1 then rests[..n] else rests[..n][..p] + [rests[n][1..]] + rests[..n][p..]
  }

  /** A round of the merge loop keeps the merge invariant. */
  lemma MergeRoundInvariant(total: multiset<string>, written: seq<string>, rests: seq<seq<string>>,
                            valid: string -> bool, le: (string, string) -> bool,
                            wellFormed: bool, ascending: bool, p: nat)
    requires MergeInvariant(total, written, rests, valid, le, wellFormed, ascending)
    requires wellFormed ==> Sorting.TotalPreorderOn(valid, le)
    requires rests != [] && p < |rests|
    requires wellFormed && |rests[|rests| - 1]| > 1 ==>
               InsertionPoint(Heads(rests[..|rests| - 1]), rests[|rests| - 1][1], p, le)
    ensures MergeInvariant(total, written + [rests[|rests| - 1][0]], NextRests(rests, p), valid, le, wellFormed, ascending)
  {
    if |rests[|rests| - 1]| == 1 {
      MergeStepExhausted(total, written, rests, valid, le, wellFormed, ascending);
    } else {
      MergeStepReinserted(total, written, rests, valid, le, wellFormed, ascending, p);
    }
  }

  /** Under the merge invariant the tail cursor's line is one of the input lines, and the
      binary search for its next line succeeds. */
  lemma MergeRoundReady(total: multiset<string>, written: seq<string>, rests: seq<seq<string>>,
                        compare: (Option<string>, Option<string>) -> Result<int>,
                        valid: string -> bool, le: (string, string) -> bool, wellFormed: bool, ascending: bool)
    requires MergeInvariant(total, written, rests, valid, le, wellFormed, ascending) && rests != []
    requires wellFormed ==> ReversesOrder(compare, valid, le) && Sorting.TotalPreorderOn(valid, le)
    ensures rests[|rests| - 1][0] in total
    ensures wellFormed && |rests[|rests| - 1]| > 1 ==>
              SearchReady(Heads(rests[..|rests| - 1]), rests[|rests| - 1][1], compare, valid, le)
  {
    var n := |rests| - 1;
    WriteTailCount(total, written, rests);
    assert multiset(written + [rests[n][0]])[rests[n][0]] > 0;
    if wellFormed {
      WriteTailValid(written, rests, valid, le);
      if |rests[n]| > 1 {
        assert rests[n][1..][0] == rests[n][1];
      }
    }
  }


  /** The run files of the cursors, in order. */
  function Paths(items: seq<MergeFileItem>): (paths: seq<string>)
    ensures |paths| == |items|
  {
    seq(|items|, i requires 0 <= i < |items| => items[i].filePath)
  }

  /** The elements of `s` from index `k` on (SuffixIsDrop: it is `s[k..]`). */
  function Suffix<T>(s: seq<T>, k: nat): (r: seq<T>)
    requires k <= |s|
    ensures |r| == |s| - k
    ensures k < |s| ==> r[0] == s[k]
    decreases k
  {
    if k == 0 then s else Suffix(s[1..], k - 1)
  }

  lemma {:induction false} SuffixIsDrop<T>(s: seq<T>, k: nat)
    requires k <= |s|
    ensures Suffix(s, k) == s[k..]
    decreases k
  {
    if k > 0 {
      SuffixIsDrop(s[1..], k - 1);
      assert s[1..][k - 1..] == s[k..];
    }
  }

  /** Advancing a cursor by one line drops the head of what it has left. */
  lemma {:induction false} SuffixNext<T>(s: seq<T>, k: nat)
    requires k < |s|
    ensures Suffix(s, k)[1..] == Suffix(s, k + 1)
    decreases k
  {
    if k > 0 {
      SuffixNext(s[1..], k - 1);
    }
  }

  /** `items` are distinct open cursors, each on a line of its run, and `rests[i]` is what the
      i-th cursor has not yet handed to the writer: its current line and the lines after it. */
  ghost predicate Cursors(items: seq<MergeFileItem>, rests: seq<seq<string>>)
    reads items
  {
    && |items| == |rests|
    && Distinct(items)
    && forall i :: 0 <= i < |items| ==> Cursor(items[i], rests[i])
  }

  /** `item` is an open cursor on a line of its run, and `rest` is that line and the ones after it. */
  ghost predicate Cursor(item: MergeFileItem, rest: seq<string>)
    reads item
  {
    && item.Valid() && !item.disposed && 1 <= item.read
    && item.currentLine == Some(item.lines[item.read - 1])
    && rest == Suffix(item.lines, item.read - 1)
  }

  /** No element occurs twice in `s`. */
  ghost predicate Distinct<T>(s: seq<T>)
  {
    forall x | x in s :: multiset(s)[x] == 1
  }

  lemma DistinctWithoutLast<T>(s: seq<T>)
    requires Distinct(s) && s != []
    ensures Distinct(s[..|s| - 1]) && s[|s| - 1] !in s[..|s| - 1]
  {
    var init, last := s[..|s| - 1], s[|s| - 1];
    assert s == init + [last];
    assert multiset(s) == multiset(init) + multiset{last};
    forall x | x in init ensures multiset(init)[x] == 1 {
      assert multiset(s)[x] == multiset(init)[x] + multiset{last}[x];
    }
    assert multiset(s)[last] == multiset(init)[last] + 1;
  }

  lemma DistinctInsert<T>(s: seq<T>, x: T, p: nat)
    requires Distinct(s) && x !in s && p <= |s|
    ensures Distinct(s[..p] + [x] + s[p..])
  {
    var t := s[..p] + [x] + s[p..];
    assert s == s[..p] + s[p..];
    assert multiset(t) == multiset(s) + multiset{x};
    forall y | y in t ensures multiset(t)[y] == 1 {
      assert multiset(t)[y] == multiset(s)[y] + multiset{x}[y];
      if y != x {
        assert y in multiset(t);
        assert y in s;
      }
    }
  }

  /** Dropping the tail cursor leaves cursors. */
  lemma CursorsWithoutTail(items: seq<MergeFileItem>, rests: seq<seq<string>>)
    requires Cursors(items, rests) && items != []
    ensures Cursors(items[..|items| - 1], rests[..|rests| - 1])
    ensures items[|items| - 1] !in items[..|items| - 1]
  {
    DistinctWithoutLast(items);
  }

  /** Putting a further cursor anywhere among the others leaves cursors. */
  lemma CursorsInsert(items: seq<MergeFileItem>, rests: seq<seq<string>>, item: MergeFileItem, p: nat, rest: seq<string>)
    requires Cursors(items, rests) && item !in items && p <= |items| && Cursor(item, rest)
    ensures Cursors(items[..p] + [item] + items[p..], rests[..p] + [rest] + rests[p..])
  {
    var next := items[..p] + [item] + items[p..];
    var nextRests := rests[..p] + [rest] + rests[p..];
    forall i | 0 <= i < |next| ensures Cursor(next[i], nextRests[i]) {
      if i < p {
        assert next[i] == items[i] && nextRests[i] == rests[i];
      } else if i > p {
        assert next[i] == items[i - 1] && nextRests[i] == rests[i - 1];
      }
    }
    DistinctInsert(items, item, p);
  }

  lemma InEither<T>(x: T, a: seq<T>, b: seq<T>, c: seq<T>)
    requires multiset(a) + multiset(b) == multiset(c) && x in c
    ensures x in a || x in b
  {
    assert multiset(c)[x] == multiset(a)[x] + multiset(b)[x];
  }

  lemma InWhole<T>(x: T, a: seq<T>, b: seq<T>, c: seq<T>)
    requires multiset(a) + multiset(b) == multiset(c) && x in a
    ensures x in c
  {
    assert multiset(c)[x] == multiset(a)[x] + multiset(b)[x];
  }

  /** When a round fails, every cursor is still in the list, is the one taken out of it, or was
      disposed before. */
  lemma Leaked<T>(a: seq<T>, b: seq<T>, c: seq<T>)
    requires a != [] && multiset(a) + multiset(b) == multiset(c)
    ensures forall x :: x in c ==> x in a[..|a| - 1] || x in [a[|a| - 1]] || x in b
  {
    assert a == a[..|a| - 1] + [a[|a| - 1]];
    forall x | x in c ensures x in a[..|a| - 1] || x in [a[|a| - 1]] || x in b {
      InEither(x, a, b, c);
    }
  }

  lemma MoveLast<T>(a: seq<T>, b: seq<T>, c: seq<T>)
    requires multiset(a) + multiset(b) == multiset(c) && a != []
    ensures multiset(a[..|a| - 1]) + multiset(b + [a[|a| - 1]]) == multiset(c)
  {
    assert a == a[..|a| - 1] + [a[|a| - 1]];
  }

  lemma InsertPermutes<T>(s: seq<T>, x: T, p: nat)
    requires p <= |s|
    ensures multiset(s[..p] + [x] + s[p..]) == multiset(s + [x])
  {
    assert s == s[..p] + s[p..];
  }

  lemma PathsWithoutTail(items: seq<MergeFileItem>)
    requires items != []
    ensures multiset(Paths(items)) == multiset(Paths(items[..|items| - 1])) + multiset{items[|items| - 1].filePath}
  {
    assert Paths(items) == Paths(items[..|items| - 1]) + [items[|items| - 1].filePath];
  }

  lemma PathsInsert(items: seq<MergeFileItem>, item: MergeFileItem, p: nat)
    requires p <= |items|
    ensures multiset(Paths(items[..p] + [item] + items[p..])) == multiset(Paths(items)) + multiset{item.filePath}
  {
    assert Paths(items[..p] + [item] + items[p..]) == Paths(items)[..p] + [item.filePath] + Paths(items)[p..];
    assert Paths(items) == Paths(items)[..p] + Paths(items)[p..];
  }

  /** The current line of each cursor is the first of its unwritten lines. */
  lemma CursorsHeads(items: seq<MergeFileItem>, rests: seq<seq<string>>)
    requires Cursors(items, rests)
    ensures forall i :: 0 <= i < |rests| ==> rests[i] != []
    ensures forall i :: 0 <= i < |items| ==> items[i].currentLine == Some(Heads(rests)[i])
  {
  }

  /** One pass of the merge loop's body on the tail cursor `items[|items| - 1]`, whose current line
      is `line`, among others whose current lines are `keys`: the line is written, the cursor
      advanced, and then either put back at `p` (`!exhausted`) or disposed. */
  method MergeStep(items: seq<MergeFileItem>, saving: CommonFileSaving.FileSaving,
                   compare: (Option<string>, Option<string>) -> Result<int>,
                   ghost keys: seq<string>, ghost valid: string -> bool, ghost le: (string, string) -> bool)
    returns (r: Result<()>, p: nat, exhausted: bool)
    requires items != [] && |keys| == |items| - 1
    requires forall i :: 0 <= i < |keys| ==> items[i].currentLine == Some(keys[i])
    requires items[|items| - 1] !in items[..|items| - 1]
    requires var item := items[|items| - 1];
             && item.Valid() && !item.disposed && 1 <= item.read
             && item.currentLine == Some(item.lines[item.read - 1])
    requires saving.Valid() && !saving.disposed
    modifies items[|items| - 1], saving`content, saving`isFirstLine, saving.buffer
    ensures saving.Valid() && !saving.disposed && saving.isFirstLine == 1
    ensures var item := items[|items| - 1];
            var line := item.lines[old(item.read) - 1];
            && item.Valid()
            && (r.Ok? ==> saving.content == old(saving.content) + old(saving.Prefix()) + saving.encoding.encode(line))
            && (r.Err? ==> !item.disposed && 1 <= item.read && item.currentLine == Some(item.lines[item.read - 1]))
            && (r.Ok? && exhausted ==> item.disposed && old(item.read) == |item.lines|)
            && (r.Ok? && !exhausted ==>
                  && !item.disposed && item.read == old(item.read) + 1 <= |item.lines|
                  && item.currentLine == Some(item.lines[old(item.read)])
                  && p <= |keys|
                  && (SearchReady(keys, item.lines[old(item.read)], compare, valid, le) ==>
                        InsertionPoint(keys, item.lines[old(item.read)], p, le)))
            && ((&& |saving.encoding.encode(line)| <= saving.buffer.Length
                 && (old(item.read) < |item.lines| ==>
                       SearchReady(keys, item.lines[old(item.read)], compare, valid, le)))
                ==> r.Ok?)
  {
    var last := |items| - 1;
    var item := items[last];
    var others := items[..last];
    var w := saving.WriteData(item.currentLine.value);
    if w.Err? {
      return Err(w.error), 0, false;
    }
    var hasValue := item.ReadNext();
    if hasValue {
      var index := BinarySearch(others, item, compare, keys, valid, le);
      if index.Err? {
        return Err(index.error), 0, false;
      }
      return Ok(()), Position(index.value), false;
    } else {
      item.Dispose();
      return Ok(()), 0, true;
    }
  }

  /** What a successful round leaves behind: the cursors match the next `rests`; the open and
      the disposed cursors are still all the cursors; and the open cursors' files together with
      the files to delete are still all the files. */
  ghost predicate RoundDone(items0: seq<MergeFileItem>, items: seq<MergeFileItem>, removed: seq<MergeFileItem>,
                            deleted: seq<string>, rests: seq<seq<string>>, p: nat)
    reads items, removed
  {
    && rests != [] && rests[|rests| - 1] != [] && p < |rests|
    && Cursors(items, NextRests(rests, p))
    && multiset(items) + multiset(removed) == multiset(items0)
    && (forall i :: 0 <= i < |removed| ==> removed[i].disposed)
    && multiset(deleted) + multiset(Paths(items)) == multiset(Paths(items0))
  }

  /** After a round that exhausted the tail cursor: the others are still cursors, the tail one
      joins the disposed cursors and its file the files to delete. */
  lemma RoundExhausted(items0: seq<MergeFileItem>, items: seq<MergeFileItem>, removed: seq<MergeFileItem>,
                       deleted: seq<string>, rests: seq<seq<string>>)
    requires items != [] && |rests| == |items| && |rests[|rests| - 1]| == 1
    requires Cursors(items[..|items| - 1], rests[..|rests| - 1])
    requires multiset(items) + multiset(removed) == multiset(items0)
    requires multiset(deleted) + multiset(Paths(items)) == multiset(Paths(items0))
    requires items[|items| - 1].disposed && forall i :: 0 <= i < |removed| ==> removed[i].disposed
    ensures var others, item := items[..|items| - 1], items[|items| - 1];
            && RoundDone(items0, others, removed + [item], deleted + [item.filePath], rests, 0)
            && forall it :: it in others ==> it in items0
  {
    var others, item := items[..|items| - 1], items[|items| - 1];
    MoveLast(items, removed, items0);
    PathsWithoutTail(items);
    assert multiset(deleted + [item.filePath]) == multiset(deleted) + multiset{item.filePath};
    forall it | it in others ensures it in items0 {
      InWhole(it, others, removed + [item], items0);
    }
    var removed' := removed + [item];
    forall i | 0 <= i < |removed'| ensures removed'[i].disposed {
      if i < |removed| {
        assert removed'[i] == removed[i];
      }
    }
  }

  /** After a round that advanced the tail cursor and put it back at `p`. */
  lemma RoundReinserted(items0: seq<MergeFileItem>, items: seq<MergeFileItem>, removed: seq<MergeFileItem>,
                        deleted: seq<string>, rests: seq<seq<string>>, p: nat)
    requires items != [] && |rests| == |items| && |rests[|rests| - 1]| > 1 && p < |items|
    requires Cursors(items[..|items| - 1], rests[..|rests| - 1])
    requires var item := items[|items| - 1];
             && item !in items[..|items| - 1]
             && item.Valid() && !item.disposed && 1 <= item.read
             && item.currentLine == Some(item.lines[item.read - 1])
             && Suffix(item.lines, item.read - 1) == rests[|rests| - 1][1..]
    requires multiset(items) + multiset(removed) == multiset(items0)
    requires multiset(deleted) + multiset(Paths(items)) == multiset(Paths(items0))
    requires forall i :: 0 <= i < |removed| ==> removed[i].disposed
    ensures var others, item := items[..|items| - 1], items[|items| - 1];
            var next := others[..p] + [item] + others[p..];
            && RoundDone(items0, next, removed, deleted, rests, p)
            && forall it :: it in next ==> it in items0
  {
    RoundReinsertedCursors(items, rests, p);
    RoundReinsertedCounts(items0, items, removed, deleted, p);
  }

  /** After a round that advanced the tail cursor and put it back at `p`, the cursors match the
      next `rests`. */
  lemma RoundReinsertedCursors(items: seq<MergeFileItem>, rests: seq<seq<string>>, p: nat)
    requires items != [] && |rests| == |items| && |rests[|rests| - 1]| > 1 && p < |items|
    requires Cursors(items[..|items| - 1], rests[..|rests| - 1])
    requires var item := items[|items| - 1];
             && item !in items[..|items| - 1]
             && item.Valid() && !item.disposed && 1 <= item.read
             && item.currentLine == Some(item.lines[item.read - 1])
             && Suffix(item.lines, item.read - 1) == rests[|rests| - 1][1..]
    ensures var others, item := items[..|items| - 1], items[|items| - 1];
            var next := others[..p] + [item] + others[p..];
            Cursors(next, NextRests(rests, p))
  {
    var n := |items| - 1;
    var others, item := items[..n], items[n];
    CursorsInsert(others, rests[..n], item, p, rests[n][1..]);
  }

  /** Cursors are open. */
  lemma CursorsOpen(items: seq<MergeFileItem>, rests: seq<seq<string>>)
    requires Cursors(items, rests)
    ensures forall it :: it in items ==> !it.disposed
  {
    forall it | it in items ensures !it.disposed {
      var i :| 0 <= i < |items| && items[i] == it;
    }
  }

  /** After a round that put the tail cursor back at `p`, the open and disposed cursors are
      still all the cursors, and the open ones' files with the deleted ones all the files. */
  lemma RoundReinsertedCounts(items0: seq<MergeFileItem>, items: seq<MergeFileItem>, removed: seq<MergeFileItem>,
                              deleted: seq<string>, p: nat)
    requires items != [] && p < |items|
    requires multiset(items) + multiset(removed) == multiset(items0)
    requires multiset(deleted) + multiset(Paths(items)) == multiset(Paths(items0))
    ensures var others, item := items[..|items| - 1], items[|items| - 1];
            var next := others[..p] + [item] + others[p..];
            && multiset(next) + multiset(removed) == multiset(items0)
            && multiset(deleted) + multiset(Paths(next)) == multiset(Paths(items0))
            && forall it :: it in next ==> it in items0
  {
    var others, item := items[..|items| - 1], items[|items| - 1];
    var next := others[..p] + [item] + others[p..];
    assert items == others + [item];
    PathsWithoutTail(items);
    PathsInsert(others, item, p);
    InsertPermutes(others, item, p);
    forall it | it in next ensures it in items0 {
      assert multiset(next)[it] > 0;
      InWhole(it, items, removed, items0);
    }
  }

  /** The tail cursor of a round and what it has left to hand over. */
  lemma RoundTail(items: seq<MergeFileItem>, rests: seq<seq<string>>)
    requires items != [] && Cursors(items, rests)
    ensures var n := |items| - 1;
            var item := items[n];
            && item.Valid() && !item.disposed && 1 <= item.read <= |item.lines|
            && item.currentLine == Some(item.lines[item.read - 1])
            && rests[n] != [] && rests[n][0] == item.lines[item.read - 1]
            && |rests[n]| == |item.lines| - item.read + 1
            && (|rests[n]| > 1 ==> rests[n][1] == item.lines[item.read] && rests[n][1..] == Suffix(item.lines, item.read))
  {
    var n := |items| - 1;
    var item := items[n];
    assert rests[n] == Suffix(item.lines, item.read - 1);
    if item.read < |item.lines| {
      SuffixNext(item.lines, item.read - 1);
      assert rests[n][1] == rests[n][1..][0];
    }
  }

  /** The other cursors of a round: still cursors, apart from the tail one and from the
      disposed ones, with the heads of their runs as current lines. */
  lemma RoundOthers(items0: seq<MergeFileItem>, items: seq<MergeFileItem>, removed: seq<MergeFileItem>,
                    rests: seq<seq<string>>)
    requires items != [] && Cursors(items, rests)
    requires multiset(items) + multiset(removed) == multiset(items0)
    requires forall i :: 0 <= i < |removed| ==> removed[i].disposed
    ensures var n := |items| - 1;
            var item, others := items[n], items[..n];
            && (forall i :: 0 <= i < |rests| ==> rests[i] != [])
            && item !in others && item in items0 && (forall it :: it in others ==> it in items0)
            && (forall i :: 0 <= i < |removed| ==> removed[i] != item)
            && Cursors(others, rests[..n])
            && |Heads(rests[..n])| == |others|
            && (forall i :: 0 <= i < |others| ==> others[i].currentLine == Some(Heads(rests[..n])[i]))
  {
    var n := |items| - 1;
    var item, others := items[n], items[..n];
    CursorsHeads(items, rests);
    CursorsWithoutTail(items, rests);
    CursorsHeads(others, rests[..n]);
    InWhole(item, items, removed, items0);
    assert items == others + [item];
    forall it | it in others ensures it in items0 {
      InWhole(it, items, removed, items0);
    }
  }

  /**
   * One round of the merge loop: write the current line of the tail cursor, advance it, and
   * either dispose it (its file is then listed for deletion) or put it back where the binary
   * search says. `rests` is what each cursor still has to hand over; `removed` the cursors
   * already disposed.
   */
  method MergeRound(items0: seq<MergeFileItem>, saving: CommonFileSaving.FileSaving,
                    compare: (Option<string>, Option<string>) -> Result<int>,
                    items: seq<MergeFileItem>, deleted: seq<string>,
                    ghost rests: seq<seq<string>>, ghost removed: seq<MergeFileItem>,
                    ghost valid: string -> bool, ghost le: (string, string) -> bool)
    returns (r: Result<()>, items': seq<MergeFileItem>, deleted': seq<string>,
             ghost removed': seq<MergeFileItem>, ghost p: nat)
    requires items != [] && |rests| == |items| && Cursors(items, rests)
    requires forall i :: 0 <= i < |rests| ==> rests[i] != []
    requires multiset(items) + multiset(removed) == multiset(items0)
    requires forall i :: 0 <= i < |removed| ==> removed[i].disposed
    requires multiset(deleted) + multiset(Paths(items)) == multiset(Paths(items0))
    requires saving.Valid() && !saving.disposed
    modifies items[|items| - 1], saving`content, saving`isFirstLine, saving.buffer
    ensures saving.Valid() && !saving.disposed
    ensures forall it :: it in items' ==> it in items0 && !it.disposed
    ensures forall i :: 0 <= i < |removed'| ==> removed'[i].disposed
    ensures r.Err? ==> && items' == items[..|items| - 1] && removed' == removed
                       && items[|items| - 1] !in items' && !items[|items| - 1].disposed
    ensures r.Ok? ==>
      && p < |rests| && RoundDone(items0, items', removed', deleted', rests, p)
      && saving.isFirstLine == 1
      && saving.content == old(saving.content) + old(saving.Prefix()) + saving.encoding.encode(rests[|rests| - 1][0])
      && (&& |rests[|rests| - 1]| > 1
          && SearchReady(Heads(rests[..|rests| - 1]), rests[|rests| - 1][1], compare, valid, le) ==>
            InsertionPoint(Heads(rests[..|rests| - 1]), rests[|rests| - 1][1], p, le))
    ensures (&& rests[|rests| - 1] != []
             && |saving.encoding.encode(rests[|rests| - 1][0])| <= saving.buffer.Length
             && (|rests[|rests| - 1]| > 1 ==>
                   SearchReady(Heads(rests[..|rests| - 1]), rests[|rests| - 1][1], compare, valid, le))) ==> r.Ok?
  {
    var last := |items| - 1;
    var item := items[last];
    var others := items[..last];
    RoundTail(items, rests);
    RoundOthers(items0, items, removed, rests);
    ghost var read0 := item.read;
    var step, q, exhausted := MergeStep(items, saving, compare, Heads(rests[..last]), valid, le);
    p := q;
    if step.Err? {
      CursorsOpen(others, rests[..last]);
      return step, others, deleted, removed, p;
    }
    if exhausted {
      p := 0;
      RoundExhausted(items0, items, removed, deleted, rests);
      items', deleted', removed' := others, deleted + [item.filePath], removed + [item];
    } else {
      assert item.read - 1 == read0;
      RoundReinserted(items0, items, removed, deleted, rests, p);
      items', deleted', removed' := others[..q] + [item] + others[q..], deleted, removed;
    }
    CursorsOpen(items', NextRests(rests, p));
    r := Ok(());
  }

  /**
   * The `while` loop of `MergeFilesAsync`: rounds until every cursor is exhausted. On success
   * every line was written once, in order, every cursor is disposed and every run file is listed
   * for deletion. A failing write or search ends the loop with the error; the cursor then taken
   * out of the list (`leaked`) is in no list any more, so the `finally` block cannot dispose it,
   * and the cursors still open are returned to the caller.
   */
  method MergeLoop(items0: seq<MergeFileItem>, saving: CommonFileSaving.FileSaving,
                   compare: (Option<string>, Option<string>) -> Result<int>,
                   ghost rests0: seq<seq<string>>, ghost total: multiset<string>,
                   ghost valid: string -> bool, ghost le: (string, string) -> bool,
                   ghost wellFormed: bool, ghost ascending: bool)
    returns (r: Result<()>, items: seq<MergeFileItem>, deleted: seq<string>, ghost written: seq<string>,
             ghost leaked: seq<MergeFileItem>)
    requires Cursors(items0, rests0) && MergeInvariant(total, [], rests0, valid, le, wellFormed, ascending)
    requires wellFormed ==> ReversesOrder(compare, valid, le) && Sorting.TotalPreorderOn(valid, le)
    requires saving.Valid() && !saving.disposed && !saving.writeEncodingPreamble
    requires saving.isFirstLine == 0 && saving.content == []
    modifies items0, saving`content, saving`isFirstLine, saving.buffer
    ensures saving.Valid() && !saving.disposed
    ensures forall it :: it in items ==> it in items0 && !it.disposed
    ensures r.Ok? ==> && items == [] && multiset(written) == total
                      && saving.content == CommonFileSaving.Framed([], saving.newLineBytes, saving.encoding.encode, written)
                      && multiset(deleted) == multiset(Paths(items0))
    ensures r.Ok? && wellFormed && ascending ==> Ascending(written, le)
    ensures (wellFormed && forall line :: line in total ==> |saving.encoding.encode(line)| <= saving.buffer.Length) ==> r.Ok?
    ensures |leaked| == (if r.Ok? then 0 else 1)
    ensures forall it :: it in leaked ==> it in items0 && it !in items && !it.disposed
    ensures forall it :: it in items0 ==> it in items || it in leaked || it.disposed
  {
    ghost var rests := rests0;
    ghost var removed: seq<MergeFileItem> := [];
    items, deleted, written := items0, [], [];
    while items != []
      invariant Cursors(items, rests) && MergeInvariant(total, written, rests, valid, le, wellFormed, ascending)
      invariant multiset(items) + multiset(removed) == multiset(items0)
      invariant forall i :: 0 <= i < |removed| ==> removed[i].disposed
      invariant multiset(deleted) + multiset(Paths(items)) == multiset(Paths(items0))
      invariant saving.Valid() && !saving.disposed
      invariant saving.isFirstLine == (if written == [] then 0 else 1)
      invariant saving.content == CommonFileSaving.Framed([], saving.newLineBytes, saving.encoding.encode, written)
      decreases |total| - |written|
    {
      InWhole(items[|items| - 1], items, removed, items0);
      MergeRoundReady(total, written, rests, compare, valid, le, wellFormed, ascending);
      CommonFileSaving.FramedAppend([], saving.newLineBytes, saving.encoding.encode, written, rests[|rests| - 1][0]);
      var step;
      ghost var p;
      ghost var before, removedBefore := items, removed;
      step, items, deleted, removed, p :=
        MergeRound(items0, saving, compare, items, deleted, rests, removed, valid, le);
      if step.Err? {
        leaked := [before[|before| - 1]];
        Leaked(before, removed, items0);
        return step, items, deleted, written, leaked;
      }
      MergeRoundInvariant(total, written, rests, valid, le, wellFormed, ascending, p);
      written, rests := written + [rests[|rests| - 1][0]], NextRests(rests, p);
    }
    forall it | it in items0 ensures it.disposed {
      InEither(it, items, removed, items0);
    }
    r, leaked := Ok(()), [];
  }

  /** The paths of the run files, in order. */
  function FilePaths(files: seq<RunFile>): (paths: seq<string>)
    ensures |paths| == |files| && forall i :: 0 <= i < |files| ==> paths[i] == files[i].path
  {
    seq(|files|, i requires 0 <= i < |files| => files[i].path)
  }

  /** The run files with at least one line, in order: those `OpenAsync` makes a cursor for. */
  function NonEmpty(files: seq<RunFile>): (r: seq<RunFile>)
    ensures forall f :: f in r ==> f in files && f.lines != []
  {
    if files == [] then []
    else NonEmpty(files[..|files| - 1]) + (if files[|files| - 1].lines == [] then [] else [files[|files| - 1]])
  }

  lemma LinesAppend(a: seq<RunFile>, b: seq<RunFile>)
    ensures Lines(a + b) == Lines(a) + Lines(b)
  {
  }

  /** The lines of one more run file. */
  lemma PendingLast(files: seq<RunFile>)
    requires files != []
    ensures Pending(Lines(files)) == Pending(Lines(files[..|files| - 1])) + multiset(files[|files| - 1].lines)
  {
    assert Lines(files)[..|files| - 1] == Lines(files[..|files| - 1]);
  }

  /** Leaving out the empty run files leaves out no line. */
  lemma {:induction false} NonEmptyPending(files: seq<RunFile>)
    ensures Pending(Lines(NonEmpty(files))) == Pending(Lines(files))
    decreases |files|
  {
    if files != [] {
      var n := |files| - 1;
      var init, f := files[..n], files[n];
      NonEmptyPending(init);
      PendingLast(files);
      if f.lines == [] {
        assert NonEmpty(files) == NonEmpty(init);
        assert multiset(f.lines) == multiset{};
      } else {
        var kept := NonEmpty(files);
        assert kept == NonEmpty(init) + [f];
        assert kept[..|kept| - 1] == NonEmpty(init);
        PendingLast(kept);
      }
    }
  }

  /** The runs of the cursors, in order. */
  function Runs(items: seq<MergeFileItem>): (runs: seq<seq<string>>)
    ensures |runs| == |items| && forall i :: 0 <= i < |items| ==> runs[i] == items[i].lines
  {
    seq(|items|, i requires 0 <= i < |items| => items[i].lines)
  }

  /** The first line of a cursor's run: its current line right after `OpenAsync`. */
  function FirstLine(item: MergeFileItem): string {
    if item.lines == [] then "" else item.lines[0]
  }

  function Map<T, U>(s: seq<T>, f: T -> U): (r: seq<U>)
    ensures |r| == |s| && forall i :: 0 <= i < |s| ==> r[i] == f(s[i])
  {
    seq(|s|, i requires 0 <= i < |s| => f(s[i]))
  }

  /** Applying a function to every element of two permutations of each other gives two
      permutations of each other. */
  lemma {:induction false} MapPermutation<T, U>(a: seq<T>, b: seq<T>, f: T -> U)
    requires multiset(a) == multiset(b)
    ensures multiset(Map(a, f)) == multiset(Map(b, f))
    decreases |a|
  {
    if a == [] {
      assert |multiset(b)| == 0;
    } else {
      var n := |a| - 1;
      var x := a[n];
      assert x in multiset(b);
      var j :| 0 <= j < |b| && b[j] == x;
      var rest := b[..j] + b[j + 1..];
      RemoveMatching(a, b, j);
      MapPermutation(a[..n], rest, f);
      assert Map(a, f) == Map(a[..n], f) + [f(x)];
      var m := Map(rest, f);
      assert Map(b, f) == m[..j] + [f(x)] + m[j..];
      assert m == m[..j] + m[j..];
    }
  }

  /** Cursors just opened on run files, in some order: each on the first line of its run. */
  lemma OpenedCursors(items: seq<MergeFileItem>, runs: seq<seq<string>>)
    requires Cursors(items, runs) && forall it :: it in items ==> it.read == 1
    ensures runs == Runs(items)
    ensures forall it :: it in items ==> Cursor(it, it.lines)
  {
    forall i | 0 <= i < |items| ensures runs[i] == items[i].lines {
      assert Cursor(items[i], runs[i]);
    }
    forall it | it in items ensures Cursor(it, it.lines) {
      var i :| 0 <= i < |items| && items[i] == it;
      assert Cursor(items[i], runs[i]);
    }
  }

  /** Reordering cursors just opened keeps them cursors, on the same lines and files. */
  lemma ReorderedCursors(items: seq<MergeFileItem>, runs: seq<seq<string>>, sorted: seq<MergeFileItem>)
    requires Cursors(items, runs) && forall it :: it in items ==> it.read == 1
    requires multiset(sorted) == multiset(items)
    ensures Cursors(sorted, Runs(sorted)) && forall it :: it in sorted ==> it.read == 1
    ensures Pending(Runs(sorted)) == Pending(runs)
    ensures multiset(Paths(sorted)) == multiset(Paths(items))
    ensures forall r :: r in Runs(sorted) ==> r in runs
  {
    OpenedCursors(items, runs);
    forall i | 0 <= i < |sorted| ensures Cursor(sorted[i], Runs(sorted)[i]) {
      assert sorted[i] in multiset(items);
    }
    forall x | x in sorted ensures multiset(sorted)[x] == 1 {
      assert x in multiset(items);
    }
    forall it | it in sorted ensures it.read == 1 {
      assert it in multiset(items);
    }
    MapPermutation(sorted, items, (it: MergeFileItem) => it.lines);
    assert Runs(sorted) == Map(sorted, (it: MergeFileItem) => it.lines);
    assert Runs(items) == Map(items, (it: MergeFileItem) => it.lines);
    PendingPermutation(Runs(sorted), runs);
    MapPermutation(sorted, items, (it: MergeFileItem) => it.filePath);
    assert Paths(sorted) == Map(sorted, (it: MergeFileItem) => it.filePath);
    assert Paths(items) == Map(items, (it: MergeFileItem) => it.filePath);
    forall r | r in Runs(sorted) ensures r in runs {
      assert r in multiset(Runs(sorted));
    }
  }

  /** A further cursor after the others. */
  lemma CursorsAppend(items: seq<MergeFileItem>, rests: seq<seq<string>>, item: MergeFileItem, rest: seq<string>)
    requires Cursors(items, rests) && item !in items && Cursor(item, rest)
    ensures Cursors(items + [item], rests + [rest])
  {
    CursorsInsert(items, rests, item, |items|, rest);
    assert items[..|items|] + [item] + items[|items|..] == items + [item];
    assert rests[..|rests|] + [rest] + rests[|rests|..] == rests + [rest];
  }

  /** One more run file adds its line and its path when it has lines, and nothing otherwise. */
  lemma NonEmptyStep(files: seq<RunFile>, i: nat)
    requires i < |files|
    ensures var before, after := NonEmpty(files[..i]), NonEmpty(files[..i + 1]);
            && (files[i].lines == [] ==> Lines(after) == Lines(before) && FilePaths(after) == FilePaths(before))
            && (files[i].lines != [] ==> && Lines(after) == Lines(before) + [files[i].lines]
                                         && FilePaths(after) == FilePaths(before) + [files[i].path])
  {
    assert files[..i + 1][..i] == files[..i];
  }

  lemma PathsAppend(items: seq<MergeFileItem>, item: MergeFileItem)
    ensures Paths(items + [item]) == Paths(items) + [item.filePath]
  {
  }

  /** The `foreach` loop of `MergeFilesAsync` that opens the run files: a cursor on its first
      line for each file with lines, in the order of the files; the empty files get none. */
  method OpenItems(files: seq<RunFile>) returns (items: seq<MergeFileItem>)
    ensures Cursors(items, Lines(NonEmpty(files)))
    ensures Paths(items) == FilePaths(NonEmpty(files))
    ensures forall it :: it in items ==> fresh(it) && it.read == 1
  {
    items := [];
    for i := 0 to |files|
      invariant Cursors(items, Lines(NonEmpty(files[..i])))
      invariant Paths(items) == FilePaths(NonEmpty(files[..i]))
      invariant forall j :: 0 <= j < |items| ==> fresh(items[j]) && items[j].read == 1
    {
      var f := files[i];
      NonEmptyStep(files, i);
      var item := MergeFileItem.Open(f.path, f.lines);
      if item.Some? {
        CursorsAppend(items, Lines(NonEmpty(files[..i])), item.value, f.lines);
        PathsAppend(items, item.value);
        items := items + [item.value];
      }
    }
    assert files[..|files|] == files;
  }

  /** The `finally` block of `MergeFilesAsync`: every cursor still in the list is disposed. */
  method DisposeAll(items: seq<MergeFileItem>)
    modifies items
    ensures forall it :: it in items ==> it.disposed
  {
    for i := 0 to |items|
      invariant forall j :: 0 <= j < i ==> items[j].disposed
    {
      items[i].Dispose();
    }
  }

  /** Every line of every run fits an encode buffer of `size` bytes. */
  predicate LinesFit(runs: seq<seq<string>>, encode: string -> seq<byte>, size: nat) {
    forall i, j :: 0 <= i < |runs| && 0 <= j < |runs[i]| ==> |encode(runs[i][j])| <= size
  }

  /** A line among all the lines of the runs is a line of one of them. */
  lemma {:induction false} InPending(runs: seq<seq<string>>, line: string)
    requires line in Pending(runs)
    ensures exists i, j :: 0 <= i < |runs| && 0 <= j < |runs[i]| && runs[i][j] == line
    decreases |runs|
  {
    var n := |runs| - 1;
    if line in multiset(runs[n]) {
      var j :| 0 <= j < |runs[n]| && runs[n][j] == line;
    } else {
      InPending(runs[..n], line);
      var i, j :| 0 <= i < |runs[..n]| && 0 <= j < |runs[..n][i]| && runs[..n][i][j] == line;
      assert runs[i][j] == line;
    }
  }

  /** The runs of the files with lines are runs of the files. */
  lemma NonEmptyRuns(files: seq<RunFile>)
    ensures forall r :: r in Lines(NonEmpty(files)) ==> r in Lines(files) && r != []
  {
    forall r | r in Lines(NonEmpty(files)) ensures r in Lines(files) && r != [] {
      var i :| 0 <= i < |NonEmpty(files)| && Lines(NonEmpty(files))[i] == r;
      var f := NonEmpty(files)[i];
      var j :| 0 <= j < |files| && files[j] == f;
      assert Lines(files)[j] == r;
    }
  }

  /** What holds before the merge loop: with the cursors just opened and sorted by the reverse
      comparer, the merge invariant holds on their runs, with nothing written. */
  lemma MergeStart(files: seq<RunFile>, items: seq<MergeFileItem>, wellFormed: bool, ascending: bool)
    requires Cursors(items, Runs(items)) && forall r :: r in Runs(items) ==> r in Lines(files)
    requires Pending(Runs(items)) == Pending(Lines(files))
    requires wellFormed == RunsValid(Lines(files), WellFormed)
    requires ascending == RunsAscending(Lines(files), Le)
    requires wellFormed ==> Sorting.SortedBy(items, FirstLine, Ge)
    ensures MergeInvariant(Pending(Lines(files)), [], Runs(items), WellFormed, Le, wellFormed, ascending)
  {
    var runs := Runs(items);
    CursorsHeads(items, runs);
    if wellFormed {
      forall i, j | 0 <= i < j < |runs| ensures Le(Heads(runs)[j], Heads(runs)[i]) {
        assert Ge(FirstLine(items[i]), FirstLine(items[j]));
      }
    }
  }

  /** The keys the initial sort compares are the first lines of runs of the files. */
  lemma FirstLinesOfRuns(files: seq<RunFile>, items: seq<MergeFileItem>)
    requires Cursors(items, Lines(NonEmpty(files))) && forall it :: it in items ==> it.read == 1
    requires RunsValid(Lines(files), WellFormed)
    ensures Sorting.KeysValid(items, FirstLine, WellFormed)
  {
    OpenedCursors(items, Lines(NonEmpty(files)));
    NonEmptyRuns(files);
    forall i | 0 <= i < |items| ensures WellFormed(FirstLine(items[i])) {
      var r := Lines(NonEmpty(files))[i];
      assert r in Lines(NonEmpty(files));
      assert AllValid(r, WellFormed) && r == items[i].lines;
    }
  }

  /** Every line of a permutation of `lines` fits where every line of `lines` fits. */
  lemma FitsPermutation(lines: seq<string>, run: seq<string>, encode: string -> seq<byte>, size: nat)
    requires LinesFit([lines], encode, size) && multiset(run) == multiset(lines)
    ensures forall i :: 0 <= i < |run| ==> |encode(run[i])| <= size
  {
    forall i | 0 <= i < |run| ensures |encode(run[i])| <= size {
      assert run[i] in multiset(lines);
      var j :| 0 <= j < |lines| && lines[j] == run[i];
      assert [lines][0][j] == run[i];
    }
  }

  /** The `WriteDataAsync` loop of `SaveDataAsync`: the lines, in order, each after its prefix.
      It stops at the first line the buffer cannot hold. */
  method WriteLines(saving: CommonFileSaving.FileSaving, run: seq<string>) returns (r: Result<()>)
    requires saving.Valid() && !saving.disposed && saving.isFirstLine == 0 && saving.content == []
    modifies saving`content, saving`isFirstLine, saving.buffer
    ensures saving.Valid()
    ensures r.Ok? <==> forall i :: 0 <= i < |run| ==> |saving.encoding.encode(run[i])| <= saving.buffer.Length
    ensures r.Ok? ==> saving.content == CommonFileSaving.Framed(saving.Preamble(), saving.newLineBytes, saving.encoding.encode, run)
    ensures r.Err? ==> r.error == Argument
  {
    for i := 0 to |run|
      invariant saving.Valid() && saving.isFirstLine == (if i == 0 then 0 else 1)
      invariant saving.content == CommonFileSaving.Framed(saving.Preamble(), saving.newLineBytes, saving.encoding.encode, run[..i])
      invariant forall k :: 0 <= k < i ==> |saving.encoding.encode(run[k])| <= saving.buffer.Length
    {
      CommonFileSaving.FramedAppend(saving.Preamble(), saving.newLineBytes, saving.encoding.encode, run[..i], run[i]);
      var written := saving.WriteData(run[i]);
      if written.Err? {
        return Err(written.error);
      }
      assert run[..i + 1] == run[..i] + [run[i]];
    }
    assert run[..|run|] == run;
    r := Ok(());
  }

  /** A chunk `SaveDataAsync` cannot save: the comparer rejects one of its records, or one of its
      lines does not fit the encode buffer. */
  predicate Unsavable(chunk: seq<string>, encode: string -> seq<byte>, size: nat) {
    !Sortable(chunk) || !LinesFit([chunk], encode, size)
  }

  /** A chunk `List.Sort` sorts without an exception: the comparer accepts all its records, or
      it has fewer than two. */
  predicate Sortable(chunk: seq<string>) {
    |chunk| < 2 || AllValid(chunk, WellFormed)
  }

  /** Every chunk is one `List.Sort` sorts. */
  predicate AllSortable(chunks: seq<seq<string>>) {
    forall k :: 0 <= k < |chunks| ==> Sortable(chunks[k])
  }

  lemma AllSortableAppend(chunks: seq<seq<string>>, chunk: seq<string>)
    requires AllSortable(chunks) && Sortable(chunk)
    ensures AllSortable(chunks + [chunk])
  {
  }

  /** The outcome of `SplitFileAsync`: the run files and the number of lines they hold. */
  datatype Split = Split(files: seq<RunFile>, lineCount: nat)

  /** The sorted runs hold exactly the lines read. */
  lemma {:induction false} SavedPending(chunks: seq<seq<string>>, runs: seq<seq<string>>)
    requires |runs| == |chunks| && forall i :: 0 <= i < |runs| ==> multiset(runs[i]) == multiset(chunks[i])
    ensures Pending(runs) == multiset(LineSplit.Flatten(chunks))
    ensures |LineSplit.Flatten(chunks)| == |Pending(runs)|
    decreases |chunks|
  {
    if chunks != [] {
      var n := |chunks| - 1;
      SavedPending(chunks[..n], runs[..n]);
    }
  }

  /** The `ulong` counter after `steps` increments from `start`. */
  function CounterAfter(start: nat, steps: nat): nat {
    (start + steps) % Decimal.UInt64Modulus
  }

  /** One more increment of the counter: wrapping after each step is wrapping once. */
  lemma CounterStep(start: nat, steps: nat)
    ensures CounterAfter(CounterAfter(start, steps), 1) == CounterAfter(start, steps + 1)
  {
  }

  /** Run file `file`, with bytes `content`, is `chunk` sorted into `run` by `SaveDataAsync` and
      written under `path`; its lines are those `StreamReader` reads back from the bytes. */
  predicate SavedRun(file: RunFile, chunk: seq<string>, run: seq<string>, content: seq<byte>, path: string,
                     encoding: Encoding, newLine: string)
  {
    && file.path == path
    && Sortable(chunk)
    && multiset(run) == multiset(chunk)
    && Ascending(run, Le)
    && content == CommonFileSaving.Framed([], encoding.encode(newLine), encoding.encode, run)
    && file.lines == StreamReading.ReadAllLines(encoding.decode(content))
  }

  /** Run `k` of `files`, with bytes `contents[k]`, is `chunks[k]` sorted into `runs[k]` and saved
      under the name of the `k + 1`-th increment of `names`'s counter from `start`. */
  predicate AllSaved(names: FileNameGeneration.FileNameGeneration, start: nat, files: seq<RunFile>,
                     chunks: seq<seq<string>>, runs: seq<seq<string>>, contents: seq<seq<byte>>,
                     encoding: Encoding, newLine: string)
  {
    && |files| == |chunks| == |runs| == |contents|
    && forall k :: 0 <= k < |files| ==>
         SavedRun(files[k], chunks[k], runs[k], contents[k], names.PathFor(CounterAfter(start, k + 1)), encoding, newLine)
  }

  lemma AllSavedAppend(names: FileNameGeneration.FileNameGeneration, start: nat, files: seq<RunFile>,
                       chunks: seq<seq<string>>, runs: seq<seq<string>>, contents: seq<seq<byte>>,
                       encoding: Encoding, newLine: string,
                       file: RunFile, chunk: seq<string>, run: seq<string>, content: seq<byte>)
    requires AllSaved(names, start, files, chunks, runs, contents, encoding, newLine)
    requires SavedRun(file, chunk, run, content, names.PathFor(CounterAfter(start, |files| + 1)), encoding, newLine)
    ensures AllSaved(names, start, files + [file], chunks + [chunk], runs + [run], contents + [content], encoding, newLine)
  {
  }

  /** One more chunk saved: the split's invariants move from the first `i` chunks to `i + 1`. */
  lemma SaveStep(names: FileNameGeneration.FileNameGeneration, start: nat, files: seq<RunFile>,
                 chunks: seq<seq<string>>, i: nat, runs: seq<seq<string>>, contents: seq<seq<byte>>,
                 encoding: Encoding, newLine: string, file: RunFile, run: seq<string>, content: seq<byte>)
    requires i < |chunks| && AllSortable(chunks[..i])
    requires AllSaved(names, start, files, chunks[..i], runs, contents, encoding, newLine)
    requires SavedRun(file, chunks[i], run, content, names.PathFor(CounterAfter(CounterAfter(start, i), 1)), encoding, newLine)
    ensures CounterAfter(CounterAfter(start, i), 1) == CounterAfter(start, i + 1)
    ensures AllSortable(chunks[..i + 1])
    ensures AllSaved(names, start, files + [file], chunks[..i + 1], runs + [run], contents + [content], encoding, newLine)
    ensures |LineSplit.Flatten(chunks[..i + 1])| == |LineSplit.Flatten(chunks[..i])| + |chunks[i]|
  {
    assert chunks[..i + 1] == chunks[..i] + [chunks[i]];
    CounterStep(start, i);
    AllSortableAppend(chunks[..i], chunks[i]);
    AllSavedAppend(names, start, files, chunks[..i], runs, contents, encoding, newLine, file, chunks[i], run, content);
    LineSplit.FlattenAppend(chunks[..i], chunks[i]);
  }

  /** No chunk is the lone empty line, which is saved as a zero-byte file that reads back as
      nothing. */
  predicate NoLoneEmptyLine(chunks: seq<seq<string>>) {
    forall k :: 0 <= k < |chunks| ==> chunks[k] != [""]
  }

  /** A well-formed record starts with a digit, so it is not empty and opens with no U+FEFF. */
  lemma WellFormedStartsWithDigit(line: string)
    requires WellFormed(line)
    ensures line != [] && Decimal.IsDigit(line[0])
  {
    var d := FindDelimiterIndex(line).value;
    assert Decimal.AllDigits(line[..d]) && line[..d][0] == line[0];
  }

  /** A sorted chunk of plain lines, other than the lone empty line, is read back as sorted. */
  lemma SortedRunReadsBack(encoding: Encoding, newLine: string, chunk: seq<string>, run: seq<string>)
    requires Sortable(chunk) && multiset(run) == multiset(chunk)
    ensures StreamReading.ReadsBack(encoding, newLine) && StreamReading.AllPlain(chunk) && chunk != [""] ==>
              StreamReading.ReadAllLines(encoding.decode(CommonFileSaving.Framed([], encoding.encode(newLine), encoding.encode, run))) == run
  {
    if StreamReading.ReadsBack(encoding, newLine) && StreamReading.AllPlain(chunk) && chunk != [""] {
      ReadsBackSorted(encoding, newLine, chunk, run);
    }
  }

  lemma ReadsBackSorted(encoding: Encoding, newLine: string, chunk: seq<string>, run: seq<string>)
    requires StreamReading.ReadsBack(encoding, newLine)
    requires StreamReading.AllPlain(chunk) && chunk != [""] && Sortable(chunk) && multiset(run) == multiset(chunk)
    ensures StreamReading.ReadAllLines(encoding.decode(CommonFileSaving.Framed([], encoding.encode(newLine), encoding.encode, run))) == run
  {
    forall i | 0 <= i < |run| ensures StreamReading.Plain(run[i]) {
      assert run[i] in multiset(chunk);
      var j :| 0 <= j < |chunk| && chunk[j] == run[i];
    }
    if |run| > 0 {
      var last := run[|run| - 1];
      assert last in multiset(chunk);
      if |chunk| >= 2 {
        var j :| 0 <= j < |chunk| && chunk[j] == last;
        WellFormedStartsWithDigit(chunk[j]);
      } else {
        assert |run| == 1 && chunk == [chunk[0]];
        assert last == chunk[0];
      }
    }
    StreamReading.ReadBackRun(encoding, newLine, run);
  }

  /** Under `ReadsBack`, the runs the merge reads are the sorted chunks, when every line read is
      plain and no chunk is the lone empty line. */
  lemma SavedReadBack(names: FileNameGeneration.FileNameGeneration, start: nat, files: seq<RunFile>,
                      chunks: seq<seq<string>>, runs: seq<seq<string>>, contents: seq<seq<byte>>,
                      encoding: Encoding, newLine: string)
    requires AllSaved(names, start, files, chunks, runs, contents, encoding, newLine)
    requires StreamReading.ReadsBack(encoding, newLine)
    requires StreamReading.AllPlain(LineSplit.Flatten(chunks)) && NoLoneEmptyLine(chunks)
    ensures Lines(files) == runs
  {
    forall k | 0 <= k < |files| ensures files[k].lines == runs[k] {
      assert SavedRun(files[k], chunks[k], runs[k], contents[k], names.PathFor(CounterAfter(start, k + 1)), encoding, newLine);
      forall j | 0 <= j < |chunks[k]| ensures StreamReading.Plain(chunks[k][j]) {
        ChunkLineInFlatten(chunks, k, j);
        var flat := LineSplit.Flatten(chunks);
        var m :| 0 <= m < |flat| && flat[m] == chunks[k][j];
      }
      SortedRunReadsBack(encoding, newLine, chunks[k], runs[k]);
    }
  }

  /** Records without line breaks are plain, and a chunk of records is not the lone empty line. */
  lemma RecordsReadable(chunks: seq<seq<string>>)
    requires AllValid(LineSplit.Flatten(chunks), WellFormed) && StreamReading.AllUnbroken(LineSplit.Flatten(chunks))
    ensures StreamReading.AllPlain(LineSplit.Flatten(chunks)) && NoLoneEmptyLine(chunks)
  {
    var flat := LineSplit.Flatten(chunks);
    forall i | 0 <= i < |flat| ensures StreamReading.Plain(flat[i]) {
      WellFormedStartsWithDigit(flat[i]);
    }
    forall k | 0 <= k < |chunks| && chunks[k] != [] ensures chunks[k][0] != [] {
      ChunkLineInFlatten(chunks, k, 0);
      var m :| 0 <= m < |flat| && flat[m] == chunks[k][0];
      WellFormedStartsWithDigit(flat[m]);
    }
  }

  /** The lines `ReadLinesAsync` yields for the bytes `data` of the source file, whose first
      stream read delivered `arrival(0)` bytes: the lines of the body after the preamble, then,
      when the body does not end with a newline, the split of the bytes from the start of line
      `lastLine` of the body. */
  ghost predicate ReadFrom(data: seq<byte>, encoding: Encoding, newLine: string, arrival: nat -> nat,
                           lines: seq<string>, lastLine: nat)
    requires |encoding.encode(newLine)| > 0
  {
    var d := encoding.encode(newLine);
    var bodyStart := DataReading.BodyStart(data, encoding.preamble, DataReading.FirstReadLength(|data|, arrival(0)));
    && lastLine <= |LineSplit.Scan(data, d, bodyStart)|
    && lines == LineSplit.DecodedLines(data, d, encoding.decode, bodyStart)
                + (if DataReading.LinesEnd(data, d, bodyStart) == |data| then []
                   else LineSplit.SplitNonEmpty(encoding.decode(data[DataReading.Boundary(data, d, bodyStart, lastLine)..]), newLine))
  }

  /** The file, after its preamble, ends at a line boundary: it is empty there or ends with the
      newline, so the end-of-stream fallback of `ReadLines` never fires. */
  ghost predicate EndsAtLineBoundary(data: seq<byte>, encoding: Encoding, newLine: string, arrival: nat -> nat)
    requires |encoding.encode(newLine)| > 0
  {
    var bodyStart := DataReading.BodyStart(data, encoding.preamble, DataReading.FirstReadLength(|data|, arrival(0)));
    DataReading.LinesEnd(data, encoding.encode(newLine), bodyStart) == |data|
  }

  /** Every line of the runs fits where each line of each run fits. */
  lemma PendingFit(runs: seq<seq<string>>, encode: string -> seq<byte>, size: nat)
    requires LinesFit(runs, encode, size)
    ensures forall line :: line in Pending(runs) ==> |encode(line)| <= size
  {
    forall line | line in Pending(runs) ensures |encode(line)| <= size {
      InPending(runs, line);
    }
  }

  /** Every line of every run is among the lines of the runs. */
  lemma RunLineInPending(runs: seq<seq<string>>, i: nat, j: nat)
    requires i < |runs| && j < |runs[i]|
    ensures runs[i][j] in Pending(runs)
  {
    assert runs == (runs[..i] + [runs[i]]) + runs[i + 1..];
    PendingAppend(runs[..i] + [runs[i]], runs[i + 1..]);
    PendingAppend(runs[..i], [runs[i]]);
    PendingSingle(runs[i]);
  }

  /** Every line of every chunk is among the chunks' lines, one after another. */
  lemma {:induction false} ChunkLineInFlatten(chunks: seq<seq<string>>, i: nat, j: nat)
    requires i < |chunks| && j < |chunks[i]|
    ensures chunks[i][j] in LineSplit.Flatten(chunks)
    decreases |chunks|
  {
    var n := |chunks| - 1;
    if i < n {
      ChunkLineInFlatten(chunks[..n], i, j);
    }
    LineSplit.FlattenAppend(chunks[..n], chunks[n]);
    assert chunks == chunks[..n] + [chunks[n]];
  }

  /** Each of `lines` encodes to at most `size` bytes. */
  predicate AllFit(lines: seq<string>, encode: string -> seq<byte>, size: nat) {
    forall i :: 0 <= i < |lines| ==> |encode(lines[i])| <= size
  }

  /** When every line read is a record the comparer accepts and fits the line buffer, no chunk
      is one the split phase fails on. */
  lemma ChunksSavable(chunks: seq<seq<string>>, encode: string -> seq<byte>, size: nat)
    requires AllValid(LineSplit.Flatten(chunks), WellFormed) && AllFit(LineSplit.Flatten(chunks), encode, size)
    ensures forall i :: 0 <= i < |chunks| ==> !Unsavable(chunks[i], encode, size)
  {
    forall i | 0 <= i < |chunks| ensures !Unsavable(chunks[i], encode, size) {
      ChunkSavable(chunks, i, encode, size);
    }
  }

  lemma ChunkSavable(chunks: seq<seq<string>>, i: nat, encode: string -> seq<byte>, size: nat)
    requires i < |chunks|
    requires AllValid(LineSplit.Flatten(chunks), WellFormed) && AllFit(LineSplit.Flatten(chunks), encode, size)
    ensures Sortable(chunks[i]) && LinesFit([chunks[i]], encode, size)
  {
    var chunk := chunks[i];
    forall j | 0 <= j < |chunk| ensures WellFormed(chunk[j]) && |encode(chunk[j])| <= size {
      ChunkLineInFlatten(chunks, i, j);
    }
    assert forall a :: 0 <= a < 1 ==> [chunk][a] == chunk;
  }

  /** The runs sorted from well-formed lines that fit the line buffer are well-formed and fit it. */
  lemma RunsOfLines(runs: seq<seq<string>>, lines: seq<string>, encode: string -> seq<byte>, size: nat)
    requires Pending(runs) == multiset(lines)
    ensures AllValid(lines, WellFormed) ==> RunsValid(runs, WellFormed)
    ensures AllFit(lines, encode, size) ==> LinesFit(runs, encode, size)
  {
    forall i, j | 0 <= i < |runs| && 0 <= j < |runs[i]| ensures runs[i][j] in lines {
      RunLineInPending(runs, i, j);
    }
  }

  /** The sorted runs are each in ascending record order. */
  lemma SavedAscending(names: FileNameGeneration.FileNameGeneration, start: nat, files: seq<RunFile>,
                       chunks: seq<seq<string>>, runs: seq<seq<string>>, contents: seq<seq<byte>>,
                       encoding: Encoding, newLine: string)
    requires AllSaved(names, start, files, chunks, runs, contents, encoding, newLine)
    ensures RunsAscending(runs, Le)
  {
    forall r | r in runs ensures Ascending(r, Le) {
      var k :| 0 <= k < |runs| && runs[k] == r;
      assert SavedRun(files[k], chunks[k], runs[k], contents[k], names.PathFor(CounterAfter(start, k + 1)), encoding, newLine);
    }
  }

  /** What the merge needs of the saved runs: their paths, and, when the encoding reads back and
      the lines read are plain without a lone empty line, that the run files read back as the
      sorted chunks, which hold the lines read, each run ascending, and records that fit when the
      lines read are. */
  lemma SavedForMerge(names: FileNameGeneration.FileNameGeneration, start: nat, files: seq<RunFile>,
                      chunks: seq<seq<string>>, runs: seq<seq<string>>, contents: seq<seq<byte>>,
                      encoding: Encoding, newLine: string, size: nat)
    requires AllSaved(names, start, files, chunks, runs, contents, encoding, newLine)
    requires Pending(runs) == multiset(LineSplit.Flatten(chunks))
    ensures |files| == |chunks| && forall k :: 0 <= k < |files| ==> files[k].path == names.PathFor(CounterAfter(start, k + 1))
    ensures var lines := LineSplit.Flatten(chunks);
            StreamReading.ReadsBack(encoding, newLine) && AllValid(lines, WellFormed) && StreamReading.AllUnbroken(lines) ==>
              StreamReading.AllPlain(lines) && NoLoneEmptyLine(chunks)
    ensures var lines := LineSplit.Flatten(chunks);
            StreamReading.ReadsBack(encoding, newLine) && StreamReading.AllPlain(lines) && NoLoneEmptyLine(chunks) ==>
              && Lines(files) == runs && Pending(Lines(files)) == multiset(lines) && RunsAscending(Lines(files), Le)
              && (AllValid(lines, WellFormed) ==> RunsValid(Lines(files), WellFormed))
              && (AllFit(lines, encoding.encode, size) ==> LinesFit(Lines(files), encoding.encode, size))
  {
    var lines := LineSplit.Flatten(chunks);
    assert forall k :: 0 <= k < |files| ==>
      SavedRun(files[k], chunks[k], runs[k], contents[k], names.PathFor(CounterAfter(start, k + 1)), encoding, newLine);
    if StreamReading.ReadsBack(encoding, newLine) && AllValid(lines, WellFormed) && StreamReading.AllUnbroken(lines) {
      RecordsReadable(chunks);
    }
    if StreamReading.ReadsBack(encoding, newLine) && StreamReading.AllPlain(lines) && NoLoneEmptyLine(chunks) {
      SavedReadBack(names, start, files, chunks, runs, contents, encoding, newLine);
      RunsOfLines(runs, lines, encoding.encode, size);
      SavedAscending(names, start, files, chunks, runs, contents, encoding, newLine);
    }
  }

  /** The first part of `MergeFilesAsync`: a cursor is opened on every run file, those of empty
      files are dropped, and the cursors are sorted by the reverse comparer, so the one with the
      least first line is last. A sort that meets a record the comparer rejects fails, and the
      cursors are disposed. The cursors start the merge: nothing written, every line of every
      run still ahead. */
  method OpenRuns(files: seq<RunFile>) returns (r: Result<seq<MergeFileItem>>, ghost cursors: seq<MergeFileItem>)
    ensures Paths(cursors) == FilePaths(NonEmpty(files)) && forall it :: it in cursors ==> fresh(it)
    ensures r.Err? ==> r.error == InvalidOperation && forall it :: it in cursors ==> it.disposed
    ensures r.Ok? ==>
              var items := r.value;
              && multiset(items) == multiset(cursors) && (forall it :: it in cursors ==> it in items)
              && (forall j :: 0 <= j < |items| ==> items[j] in cursors && fresh(items[j]))
              && multiset(Paths(items)) == multiset(FilePaths(NonEmpty(files)))
              && Cursors(items, Runs(items))
              && MergeInvariant(Pending(Lines(files)), [], Runs(items), WellFormed, Le,
                                RunsValid(Lines(files), WellFormed), RunsAscending(Lines(files), Le))
    ensures RunsValid(Lines(files), WellFormed) ==> r.Ok?
  {
    ghost var wellFormed := RunsValid(Lines(files), WellFormed);
    var opening := OpenItems(files);
    cursors := opening;
    if wellFormed {
      FirstLinesOfRuns(files, opening);
    }
    DataComparer.GeTotalPreorder();
    var sorted := Sorting.ListSort(opening, FirstLine, WellFormed, Ge);
    if sorted.Err? {
      DisposeAll(opening);
      return Err(sorted.error), cursors;
    }
    var items := sorted.value;
    ReorderedCursors(opening, Lines(NonEmpty(files)), items);
    NonEmptyPending(files);
    NonEmptyRuns(files);
    MergeStart(files, items, wellFormed, RunsAscending(Lines(files), Le));
    forall it | it in cursors ensures it in items {
      assert it in multiset(cursors);
    }
    forall j | 0 <= j < |items| ensures items[j] in cursors {
      assert items[j] in multiset(items);
    }
    r := Ok(items);
  }

  /** The merge loop of `MergeFilesAsync` and what follows it: the output file is closed, and
      the cursors left in the working list are disposed (the `finally` block). */
  method MergeAndClose(items: seq<MergeFileItem>, saving: CommonFileSaving.FileSaving, ghost total: multiset<string>,
                       ghost wellFormed: bool, ghost ascending: bool)
    returns (r: Result<()>, content: seq<byte>, fileLength: nat, deleted: seq<string>,
             ghost written: seq<string>, ghost leaked: seq<MergeFileItem>)
    requires Cursors(items, Runs(items)) && MergeInvariant(total, [], Runs(items), WellFormed, Le, wellFormed, ascending)
    requires saving.Valid() && !saving.disposed && !saving.writeEncodingPreamble
    requires saving.isFirstLine == 0 && saving.content == []
    modifies items, saving`content, saving`isFirstLine, saving`disposed, saving.pool, saving.buffer
    ensures saving.disposed && saving.pool.lent == old(saving.pool.lent) - {saving.buffer}
    ensures |leaked| <= 1 && forall it :: it in leaked ==> it in items && !it.disposed
    ensures forall it :: it in items ==> it.disposed || it in leaked
    ensures fileLength == (if |content| < saving.requiredLength then saving.requiredLength else |content|)
    ensures r.Ok? ==>
              && multiset(written) == total
              && content == CommonFileSaving.Framed([], saving.newLineBytes, saving.encoding.encode, written)
              && multiset(deleted) == multiset(Paths(items))
    ensures r.Ok? && wellFormed && ascending ==> Ascending(written, Le)
    ensures (wellFormed && forall line :: line in total ==> |saving.encoding.encode(line)| <= saving.buffer.Length) ==> r.Ok?
  {
    assert ReversesOrder(ReverseCompare, WellFormed, Le) && Sorting.TotalPreorderOn(WellFormed, Le) by {
      ReverseCompareReversesOrder();
      DataComparer.LeTotalPreorder();
    }
    var remaining;
    r, remaining, deleted, written, leaked :=
      MergeLoop(items, saving, ReverseCompare, Runs(items), total, WellFormed, Le, wellFormed, ascending);
    content, fileLength := saving.content, saving.FileLength();
    saving.Dispose();
    assert forall j :: 0 <= j < |remaining| ==> remaining[j] in items;
    DisposeAll(remaining);
  }

  /** `FileSorting`: the sort of one source file, with its settings and its run-name allocator. */
  class FileSorting {
    const encoding: Encoding
    /** `Environment.NewLine`. */
    const newLine: string
    /** `SortChunkSize`: the number of lines in a run. */
    const sortChunkSize: int
    /** `MaxLineBufferSizeInBytes`: the encoded length of the longest record. */
    const maxLineBufferSize: nat
    const names: FileNameGeneration.FileNameGeneration
    /** `ArrayPool<byte>.Shared`. */
    const pool: ArrayPool<byte>

    ghost predicate Valid()
      reads this, names
    {
      names.Valid()
    }

    /** The constructor: the line buffer fits the longest record, and the run names are made
        next to the source file or in the working directory. */
    constructor (paths: FileNameGeneration.PathSystem, sourceFilePath: string, workingDirectory: Option<string>,
                 encoding: Encoding, newLine: string, maxReadLines: int, build: DataDescription.Build,
                 pool: ArrayPool<byte>)
      ensures Valid() && fresh(names) && names.index == 0 && names.paths == paths
      ensures names.directoryPath == FileNameGeneration.ChooseDirectory(paths, sourceFilePath, workingDirectory)
      ensures this.encoding == encoding && this.newLine == newLine && this.pool == pool
      ensures sortChunkSize == maxReadLines
      ensures maxLineBufferSize == |encoding.encode(DataDescription.MaxString(build))|
    {
      var g := FileNameGeneration.FileNameGeneration.Create(paths, sourceFilePath, workingDirectory);
      this.encoding := encoding;
      this.newLine := newLine;
      sortChunkSize := maxReadLines;
      maxLineBufferSize := |encoding.encode(DataDescription.MaxString(build))|;
      names := g;
      this.pool := pool;
    }

    /** The `await using` block of `SaveDataAsync`: a writer without preamble on a new file,
        every line written through it, and the buffer returned to the pool. */
    method WriteRun(run: seq<string>) returns (r: Result<()>, content: seq<byte>)
      modifies pool
      ensures pool.lent == old(pool.lent)
      ensures (forall i :: 0 <= i < |run| ==> |encoding.encode(run[i])| <= maxLineBufferSize) ==> r.Ok?
      ensures r.Ok? ==> content == CommonFileSaving.Framed([], encoding.encode(newLine), encoding.encode, run)
      ensures r.Err? ==> r.error == Argument
    {
      var created := CommonFileSaving.FileSaving.Create(Some(encoding), newLine, maxLineBufferSize, false, None, true, pool);
      var saving := created.value;
      r := WriteLines(saving, run);
      content := saving.content;
      saving.Dispose();
    }

    /** `SaveDataAsync`: sorts the chunk in the record order, names a run file after the next
        counter value and writes the sorted lines to it, separated by newlines, without preamble.
        A record the comparer rejects fails the sort before a name is taken; a line longer than
        the buffer fails its write. The buffer goes back to the pool in every case. The run file
        returned holds the lines `StreamReader` reads back from the bytes written; they are the
        sorted lines when the encoding reads back and the chunk is plain and not `[""]`. */
    method SaveData(lines: seq<string>) returns (r: Result<RunFile>, content: seq<byte>, ghost run: seq<string>)
      requires Valid()
      modifies names, pool
      ensures Valid() && pool.lent == old(pool.lent)
      ensures !Sortable(lines) ==> r == Err(InvalidOperation) && names.index == old(names.index)
      ensures r.Ok? ==>
                && names.index == CounterAfter(old(names.index), 1)
                && r.value.path == names.PathFor(names.index)
                && Sortable(lines) && multiset(run) == multiset(lines) && Ascending(run, Le)
                && content == CommonFileSaving.Framed([], encoding.encode(newLine), encoding.encode, run)
                && r.value.lines == StreamReading.ReadAllLines(encoding.decode(content))
      ensures r.Ok? && StreamReading.ReadsBack(encoding, newLine) && StreamReading.AllPlain(lines) && lines != [""] ==>
                r.value.lines == run
      ensures r.Err? ==> Unsavable(lines, encoding.encode, maxLineBufferSize)
    {
      DataComparer.LeTotalPreorder();
      var sorted := Sorting.ListSort(lines, (line: string) => line, WellFormed, Le);
      if sorted.Err? {
        return Err(sorted.error), [], [];
      }
      var sortedLines := sorted.value;
      run := sortedLines;
      if LinesFit([lines], encoding.encode, maxLineBufferSize) {
        FitsPermutation(lines, run, encoding.encode, maxLineBufferSize);
      }
      var path := names.GetNewFilePath();
      var written;
      written, content := WriteRun(sortedLines);
      if written.Err? {
        return Err(written.error), content, run;
      }
      SortedRunReadsBack(encoding, newLine, lines, run);
      r := Ok(RunFile(path, StreamReading.ReadAllLines(encoding.decode(content))));
    }

    /** The `SaveDataAsync` calls of `SplitFileAsync`, one chunk after another: run `i` is chunk
        `i` sorted, saved under the name of the counter's `i + 1`-th increment, and the line
        count is the number of lines saved. The split stops at the first chunk that cannot be
        saved. */
    method SaveRuns(chunks: seq<seq<string>>) returns (r: Result<Split>, ghost runs: seq<seq<string>>, ghost contents: seq<seq<byte>>)
      requires Valid()
      modifies names, pool
      ensures Valid() && pool.lent == old(pool.lent)
      ensures r.Ok? ==>
                && names.index == CounterAfter(old(names.index), |chunks|)
                && r.value.lineCount == |LineSplit.Flatten(chunks)|
                && AllSaved(names, old(names.index), r.value.files, chunks, runs, contents, encoding, newLine)
      ensures r.Err? ==> exists i :: 0 <= i < |chunks| && Unsavable(chunks[i], encoding.encode, maxLineBufferSize)
      ensures !AllSortable(chunks) ==> r.Err?
    {
      ghost var start := names.index;
      var files: seq<RunFile> := [];
      var lineCount := 0;
      runs, contents := [], [];
      for i := 0 to |chunks|
        invariant Valid() && pool.lent == old(pool.lent)
        invariant names.index == CounterAfter(start, i)
        invariant AllSortable(chunks[..i])
        invariant AllSaved(names, start, files, chunks[..i], runs, contents, encoding, newLine)
        invariant lineCount == |LineSplit.Flatten(chunks[..i])|
      {
        var saved, content, run := SaveData(chunks[i]);
        if saved.Err? {
          return Err(saved.error), runs, contents;
        }
        SaveStep(names, start, files, chunks, i, runs, contents, encoding, newLine, saved.value, run, content);
        files, runs, contents := files + [saved.value], runs + [run], contents + [content];
        lineCount := lineCount + |chunks[i]|;
      }
      assert chunks[..|chunks|] == chunks;
      r := Ok(Split(files, lineCount));
    }

    /** `SplitFileAsync`, sequentially: reads the source file in chunks of `SortChunkSize` lines
        and saves each chunk as a sorted run. A chunk size below 1 fails before anything is read
        or named. */
    method SplitFile(data: seq<byte>, arrival: nat -> nat)
      returns (r: Result<Split>, ghost chunks: seq<seq<string>>, ghost runs: seq<seq<string>>,
               ghost contents: seq<seq<byte>>, ghost lastLine: nat)
      requires Valid() && |encoding.encode(newLine)| > 0
      modifies names, pool
      ensures Valid() && pool.lent == old(pool.lent)
      ensures sortChunkSize <= 0 ==> r == Err(ArgumentOutOfRange) && names.index == old(names.index)
      ensures sortChunkSize > 0 ==>
                && ReadFrom(data, encoding, newLine, arrival, LineSplit.Flatten(chunks), lastLine)
                && |chunks| >= 1 && (forall i :: 0 <= i < |chunks| - 1 ==> |chunks[i]| == sortChunkSize)
                && (EndsAtLineBoundary(data, encoding, newLine, arrival) ==>
                      forall i :: 0 <= i < |chunks| ==> |chunks[i]| <= sortChunkSize)
                && (r.Err? ==> exists i :: 0 <= i < |chunks| && Unsavable(chunks[i], encoding.encode, maxLineBufferSize))
                && (!AllSortable(chunks) ==> r.Err?)
      ensures r.Ok? ==>
                && names.index == CounterAfter(old(names.index), |chunks|)
                && r.value.lineCount == |LineSplit.Flatten(chunks)|
                && AllSaved(names, old(names.index), r.value.files, chunks, runs, contents, encoding, newLine)
                && Pending(runs) == multiset(LineSplit.Flatten(chunks))
    {
      var reading := new DataReading.DataReading(data, encoding, newLine);
      var read;
      ghost var bodyStart, lastStart;
      read, bodyStart, lastLine, lastStart := reading.ReadLinesAsync(sortChunkSize, arrival);
      if read.Err? {
        return Err(read.error), [], [], [], 0;
      }
      chunks := read.value;
      r, runs, contents := SaveRuns(read.value);
      if r.Ok? {
        forall k | 0 <= k < |runs| ensures multiset(runs[k]) == multiset(chunks[k]) {
          assert SavedRun(r.value.files[k], chunks[k], runs[k], contents[k],
                          names.PathFor(CounterAfter(old(names.index), k + 1)), encoding, newLine);
        }
        SavedPending(chunks, runs);
      }
    }

    /** The output of `MergeFilesAsync`: a new name, and the file created under it and
        preallocated at the source file's length. */
    method CreateOutput(sourceFileLength: nat, setLengthSucceeds: bool)
      returns (path: string, r: Result<CommonFileSaving.FileSaving>)
      requires Valid()
      modifies names, pool
      ensures Valid() && names.index == CounterAfter(old(names.index), 1) && path == names.PathFor(names.index)
      ensures r.Ok? <==> setLengthSucceeds
      ensures r.Err? ==> pool.lent == old(pool.lent)
      ensures r.Ok? ==>
                var saving := r.value;
                && fresh(saving) && fresh(saving.buffer) && saving.Valid() && !saving.disposed
                && saving.pool == pool && pool.lent == old(pool.lent) + {saving.buffer}
                && saving.encoding == encoding && !saving.writeEncodingPreamble
                && saving.newLineBytes == encoding.encode(newLine) && saving.buffer.Length >= maxLineBufferSize
                && saving.isFirstLine == 0 && saving.content == [] && saving.requiredLength == sourceFileLength
    {
      path := names.GetNewFilePath();
      r := CommonFileSaving.FileSaving.Create(Some(encoding), newLine, maxLineBufferSize, false,
                                              Some(sourceFileLength), setLengthSucceeds, pool);
    }

    /** The rest of `MergeFilesAsync`, from sorted cursors at the start of the merge: the output
        file is created, and the merge loop writes every line into it. A failure disposes the
        cursors still in the working list (the `finally` block); a failed write leaves the cursor
        it took off the list open. */
    method MergeOutput(items: seq<MergeFileItem>, ghost total: multiset<string>, ghost wellFormed: bool,
                       ghost ascending: bool, sourceFileLength: nat, setLengthSucceeds: bool)
      returns (r: Result<string>, content: seq<byte>, fileLength: nat, deleted: seq<string>,
               ghost written: seq<string>, ghost leaked: seq<MergeFileItem>)
      requires Valid() && Cursors(items, Runs(items))
      requires MergeInvariant(total, [], Runs(items), WellFormed, Le, wellFormed, ascending)
      modifies names, pool, items
      ensures Valid() && pool.lent == old(pool.lent)
      ensures |leaked| <= 1 && forall it :: it in leaked ==> it in items && !it.disposed
      ensures forall it :: it in items ==> it.disposed || it in leaked
      ensures r.Ok? ==>
                && names.index == CounterAfter(old(names.index), 1) && r.value == names.PathFor(names.index)
                && multiset(written) == total
                && content == CommonFileSaving.Framed([], encoding.encode(newLine), encoding.encode, written)
                && fileLength == (if |content| < sourceFileLength then sourceFileLength else |content|)
                && multiset(deleted) == multiset(Paths(items))
      ensures r.Ok? && wellFormed && ascending ==> Ascending(written, Le)
      ensures !setLengthSucceeds ==> r.Err?
      ensures (wellFormed && (forall line :: line in total ==> |encoding.encode(line)| <= maxLineBufferSize)
               && setLengthSucceeds) ==> r.Ok?
    {
      var path, created := CreateOutput(sourceFileLength, setLengthSucceeds);
      if created.Err? {
        DisposeAll(items);
        return Err(created.error), [], 0, [], [], [];
      }
      var merged;
      merged, content, fileLength, deleted, written, leaked := MergeAndClose(items, created.value, total, wellFormed, ascending);
      if merged.Err? {
        return Err(merged.error), content, fileLength, deleted, written, leaked;
      }
      r := Ok(path);
    }

    /** `MergeFilesAsync`: opens a cursor on every run file, skipping the empty ones, sorts the
        cursors by the reverse comparer and merges their runs into a new output file. Every
        cursor is disposed at the end, except one whose line could not be written. */
    method MergeFiles(files: seq<RunFile>, sourceFileLength: nat, setLengthSucceeds: bool)
      returns (r: Result<string>, content: seq<byte>, fileLength: nat, deleted: seq<string>,
               ghost cursors: seq<MergeFileItem>, ghost written: seq<string>, ghost leaked: seq<MergeFileItem>)
      requires Valid()
      modifies names, pool
      ensures Valid() && pool.lent == old(pool.lent)
      ensures Paths(cursors) == FilePaths(NonEmpty(files)) && forall it :: it in cursors ==> fresh(it)
      ensures |leaked| <= 1 && forall it :: it in leaked ==> it in cursors && !it.disposed
      ensures forall it :: it in cursors ==> it.disposed || it in leaked
      ensures r.Ok? ==>
                && names.index == CounterAfter(old(names.index), 1) && r.value == names.PathFor(names.index)
                && multiset(written) == Pending(Lines(files))
                && content == CommonFileSaving.Framed([], encoding.encode(newLine), encoding.encode, written)
                && fileLength == (if |content| < sourceFileLength then sourceFileLength else |content|)
                && multiset(deleted) == multiset(FilePaths(NonEmpty(files)))
      ensures r.Ok? && RunsValid(Lines(files), WellFormed) && RunsAscending(Lines(files), Le) ==> Ascending(written, Le)
      ensures !setLengthSucceeds ==> r.Err?
      ensures (RunsValid(Lines(files), WellFormed) && LinesFit(Lines(files), encoding.encode, maxLineBufferSize)
               && setLengthSucceeds) ==> r.Ok?
    {
      var sorted;
      sorted, cursors := OpenRuns(files);
      if sorted.Err? {
        return Err(sorted.error), [], 0, [], cursors, [], [];
      }
      if LinesFit(Lines(files), encoding.encode, maxLineBufferSize) {
        PendingFit(Lines(files), encoding.encode, maxLineBufferSize);
      }
      assert forall j :: 0 <= j < |sorted.value| ==> fresh(sorted.value[j]);
      r, content, fileLength, deleted, written, leaked :=
        MergeOutput(sorted.value, Pending(Lines(files)), RunsValid(Lines(files), WellFormed),
                    RunsAscending(Lines(files), Le), sourceFileLength, setLengthSucceeds);
    }

    /** `SortFileAsync`: the split phase, then the merge phase over the run files it saved, with
        the source file's length as the output's preallocated length. The merge reads each run
        file back as `StreamReader` does, and every run file that reads back at least one line is
        handed over for deletion. When the encoding reads back (`ReadsBack`), every line read is
        plain and no chunk is the lone empty line, the run files read back as the sorted chunks:
        the output then holds the lines read, reordered, in ascending record order when every one
        of them is a record. */
    method SortFile(data: seq<byte>, arrival: nat -> nat, setLengthSucceeds: bool)
      returns (r: Result<string>, content: seq<byte>, fileLength: nat, deleted: seq<string>,
               ghost lines: seq<string>, ghost lastLine: nat, ghost written: seq<string>,
               ghost chunks: seq<seq<string>>, ghost files: seq<RunFile>)
      requires Valid() && |encoding.encode(newLine)| > 0
      modifies names, pool
      ensures Valid() && pool.lent == old(pool.lent)
      ensures lines == LineSplit.Flatten(chunks)
      ensures sortChunkSize <= 0 ==> r == Err(ArgumentOutOfRange) && names.index == old(names.index)
      ensures sortChunkSize > 0 ==> ReadFrom(data, encoding, newLine, arrival, lines, lastLine)
      ensures r.Ok? ==>
                && r.value == names.PathFor(names.index)
                && |files| == |chunks|
                && (forall k :: 0 <= k < |files| ==> files[k].path == names.PathFor(CounterAfter(old(names.index), k + 1)))
                && multiset(written) == Pending(Lines(files))
                && content == CommonFileSaving.Framed([], encoding.encode(newLine), encoding.encode, written)
                && fileLength == (if |content| < |data| then |data| else |content|)
                && multiset(deleted) == multiset(FilePaths(NonEmpty(files)))
      ensures r.Ok? && StreamReading.ReadsBack(encoding, newLine) && StreamReading.AllPlain(lines) && NoLoneEmptyLine(chunks) ==>
                multiset(written) == multiset(lines)
      ensures r.Ok? && StreamReading.ReadsBack(encoding, newLine) && AllValid(lines, WellFormed) && StreamReading.AllUnbroken(lines) ==>
                Ascending(written, Le)
      ensures !setLengthSucceeds ==> r.Err?
      ensures (&& sortChunkSize > 0 && setLengthSucceeds && AllValid(lines, WellFormed)
               && AllFit(lines, encoding.encode, maxLineBufferSize)
               && StreamReading.ReadsBack(encoding, newLine) && StreamReading.AllUnbroken(lines)) ==> r.Ok?
    {
      var split;
      ghost var runs, contents, cursors, leaked;
      ghost var start := names.index;
      split, chunks, runs, contents, lastLine := SplitFile(data, arrival);
      lines := LineSplit.Flatten(chunks);
      if split.Err? {
        if sortChunkSize > 0 && AllValid(lines, WellFormed) && AllFit(lines, encoding.encode, maxLineBufferSize) {
          ChunksSavable(chunks, encoding.encode, maxLineBufferSize);
        }
        return Err(split.error), [], 0, [], lines, lastLine, [], chunks, [];
      }
      var runFiles := split.value.files;
      files := runFiles;
      SavedForMerge(names, start, files, chunks, runs, contents, encoding, newLine, maxLineBufferSize);
      r, content, fileLength, deleted, cursors, written, leaked := MergeFiles(runFiles, |data|, setLengthSucceeds);
    }
  }
}
