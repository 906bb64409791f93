/**
 * Cutting bytes into lines: the delimiter-terminated segments `SequenceReader.TryReadTo` finds
 * one after another, and `String.Split(char[], RemoveEmptyEntries)` used at the end of a stream.
 * Segments are described by positions: the offset just past each delimiter.
 */
module Lines {
  import opened Spans
  import opened Encodings

  /** The first occurrence of `d` in `b` at or after `from`, or -1. */
  function Find(b: seq<byte>, d: seq<byte>, from: nat): (r: int)
    requires from <= |b|
    ensures r == -1 || from <= r <= |b| - |d|
    decreases |b| - from
  {
    if from + |d| > |b| then -1
    else if MatchesFrom(b, d, from, 0) then from
    else Find(b, d, from + 1)
  }

  /** The bytes of `b` from `at + k` on agree with `d` from `k` on, compared one by one. */
  predicate MatchesFrom(b: seq<byte>, d: seq<byte>, at: nat, k: nat)
    requires at + |d| <= |b|
    decreases |d| - k
  {
    k >= |d| || (b[at + k] == d[k] && MatchesFrom(b, d, at, k + 1))
  }

  /** Comparing byte by byte from `k` on is comparing the rest of the slices. */
  lemma {:induction false} MatchesFromSlice(b: seq<byte>, d: seq<byte>, at: nat, k: nat)
    requires at + |d| <= |b| && k <= |d|
    ensures MatchesFrom(b, d, at, k) <==> b[at + k..at + |d|] == d[k..]
    decreases |d| - k
  {
    if k < |d| {
      MatchesFromSlice(b, d, at, k + 1);
      assert b[at + k..at + |d|] == [b[at + k]] + b[at + k + 1..at + |d|];
      assert d[k..] == [d[k]] + d[k + 1..];
    }
  }

  /** `Find` returns the first occurrence at or after `from`. */
  lemma {:induction false} FindFirst(b: seq<byte>, d: seq<byte>, from: nat)
    requires from <= |b|
    ensures var r := Find(b, d, from);
            && (r >= 0 ==> OccursAt(b, d, r))
            && forall j :: from <= j && (r < 0 || j < r) ==> !OccursAt(b, d, j)
    decreases |b| - from
  {
    if from + |d| <= |b| {
      MatchesFromSlice(b, d, from, 0);
      assert d[0..] == d;
      if !MatchesFrom(b, d, from, 0) {
        FindFirst(b, d, from + 1);
      }
    }
  }

  /** One delimiter-terminated segment: the bytes `b[start..stop]`, the delimiter right after. */
  datatype Span = Span(start: nat, stop: nat)

  /** Every span is a well-formed slice of bytes of length `limit`. */
  predicate Inside(spans: seq<Span>, limit: nat) {
    forall k :: 0 <= k < |spans| ==> spans[k].start <= spans[k].stop <= limit
  }

  /** The reader position after the segments `spans`, which began at `from`. */
  function After(spans: seq<Span>, from: nat, gap: nat): nat {
    if spans == [] then from else spans[|spans| - 1].stop + gap
  }

  /** The segments found scanning `b` from `from`, as repeated `TryReadTo` calls find them. */
  function Scan(b: seq<byte>, d: seq<byte>, from: nat): seq<Span>
    requires |d| > 0 && from <= |b|
    decreases |b| - from
  {
    var i := Find(b, d, from);
    if i < 0 then [] else [Span(from, i)] + Scan(b, d, i + |d|)
  }

  /** The segments lie in order between `from` and the end of the bytes. */
  lemma {:induction false} ScanInside(b: seq<byte>, d: seq<byte>, from: nat)
    requires |d| > 0 && from <= |b|
    ensures forall k :: 0 <= k < |Scan(b, d, from)| ==>
              from <= Scan(b, d, from)[k].start <= Scan(b, d, from)[k].stop && Scan(b, d, from)[k].stop + |d| <= |b|
    ensures from <= After(Scan(b, d, from), from, |d|) <= |b|
    decreases |b| - from
  {
    var i := Find(b, d, from);
    if i >= 0 {
      ScanInside(b, d, i + |d|);
      var rest := Scan(b, d, i + |d|);
      var spans := Scan(b, d, from);
      assert spans == [Span(from, i)] + rest;
      forall k | 0 <= k < |spans|
        ensures from <= spans[k].start <= spans[k].stop && spans[k].stop + |d| <= |b|
      {
        if k > 0 {
          assert spans[k] == rest[k - 1];
        }
      }
      if rest != [] {
        assert spans[|spans| - 1] == rest[|rest| - 1];
      }
    }
  }

  /** The segments after the first `k` are the ones a scan finds from there. */
  lemma {:induction false} ScanSplit(b: seq<byte>, d: seq<byte>, from: nat, k: nat)
    requires |d| > 0 && from <= |b| && k <= |Scan(b, d, from)|
    ensures After(Scan(b, d, from)[..k], from, |d|) <= |b|
    ensures Scan(b, d, from) == Scan(b, d, from)[..k] + Scan(b, d, After(Scan(b, d, from)[..k], from, |d|))
    decreases k
  {
    if k > 0 {
      var i := Find(b, d, from);
      var head := Span(from, i);
      var rest := Scan(b, d, i + |d|);
      ScanSplit(b, d, i + |d|, k - 1);
      SplitCons(head, rest, k, Scan(b, d, After(rest[..k - 1], i + |d|, |d|)));
      AfterCons(head, rest[..k - 1], from, |d|);
    }
  }

  /** Splitting `t` after `k - 1` elements splits `[h] + t` after `k`. */
  lemma SplitCons<T>(h: T, t: seq<T>, k: nat, tail: seq<T>)
    requires 0 < k <= |t| + 1 && t == t[..k - 1] + tail
    ensures ([h] + t)[..k] == [h] + t[..k - 1]
    ensures [h] + t == ([h] + t)[..k] + tail
  {
    assert ([h] + t)[..k] == [h] + t[..k - 1];
  }

  /** The position after `[head] + tail` is the position after `tail` started behind `head`. */
  lemma AfterCons(head: Span, tail: seq<Span>, from: nat, gap: nat)
    ensures After([head] + tail, from, gap) == After(tail, head.stop + gap, gap)
  {
    if tail != [] {
      assert ([head] + tail)[|tail|] == tail[|tail| - 1];
    }
  }

  /** What `TryReadTo` finds after the first `k` segments: the next segment when there is
      one, nothing otherwise. */
  lemma FindAfterSegments(b: seq<byte>, d: seq<byte>, from: nat, k: nat)
    requires |d| > 0 && from <= |b| && k <= |Scan(b, d, from)|
    ensures var spans := Scan(b, d, from);
            var p := After(spans[..k], from, |d|);
            && p <= |b|
            && (k < |spans| ==> spans[k].start == p && Find(b, d, p) == spans[k].stop
                                && After(spans[..k + 1], from, |d|) == spans[k].stop + |d|)
            && (k == |spans| ==> Find(b, d, p) < 0)
  {
    ScanSplit(b, d, from, k);
    var spans := Scan(b, d, from);
    var p := After(spans[..k], from, |d|);
    assert Scan(b, d, p) == spans[k..];
    if k < |spans| {
      assert spans[..k + 1][k] == spans[k];
    }
  }

  /** The decoded segments. */
  function Decoded(b: seq<byte>, decode: seq<byte> -> string, spans: seq<Span>): (lines: seq<string>)
    requires Inside(spans, |b|)
    ensures |lines| == |spans|
  {
    seq(|spans|, k requires 0 <= k < |spans| => decode(b[spans[k].start..spans[k].stop]))
  }

  /** The decoded lines of `b` from `from` on, one per segment. */
  function DecodedLines(b: seq<byte>, d: seq<byte>, decode: seq<byte> -> string, from: nat): (lines: seq<string>)
    requires |d| > 0 && from <= |b|
    ensures |lines| == |Scan(b, d, from)|
  {
    ScanInside(b, d, from);
    Decoded(b, decode, Scan(b, d, from))
  }

  /** The lines after the first `m` are the lines decoded from where those `m` end. */
  lemma DecodedLinesSplit(b: seq<byte>, d: seq<byte>, decode: seq<byte> -> string, from: nat, m: nat)
    requires |d| > 0 && from <= |b| && m <= |Scan(b, d, from)|
    ensures After(Scan(b, d, from)[..m], from, |d|) <= |b|
    ensures DecodedLines(b, d, decode, from)[m..] == DecodedLines(b, d, decode, After(Scan(b, d, from)[..m], from, |d|))
  {
    ScanSplit(b, d, from, m);
    var spans := Scan(b, d, from);
    var p := After(spans[..m], from, |d|);
    assert Scan(b, d, p) == spans[m..];
    ScanInside(b, d, from);
    DecodedSuffix(b, decode, spans, m);
  }

  /** Decoding the segments from `m` on gives the decoded lines from `m` on. */
  lemma DecodedSuffix(b: seq<byte>, decode: seq<byte> -> string, spans: seq<Span>, m: nat)
    requires Inside(spans, |b|) && m <= |spans|
    ensures Inside(spans[m..], |b|)
    ensures Decoded(b, decode, spans)[m..] == Decoded(b, decode, spans[m..])
  {
    var rest := spans[m..];
    assert forall j :: 0 <= j < |rest| ==> rest[j] == spans[m + j];
  }

  /** `w` holds the bytes of `b` from `origin` on. */
  ghost predicate Window(b: seq<byte>, w: seq<byte>, origin: nat) {
    origin + |w| <= |b| && forall i :: 0 <= i < |w| ==> w[i] == b[origin + i]
  }

  /** A search inside a window finds what a search of the whole finds, as long as the whole
      delimiter lies inside the window. */
  lemma {:induction false} FindInWindow(b: seq<byte>, w: seq<byte>, d: seq<byte>, origin: nat, p: nat)
    requires Window(b, w, origin) && p <= |w|
    ensures var r := Find(b, d, origin + p);
            Find(w, d, p) == if r >= 0 && r + |d| <= origin + |w| then r - origin else -1
    decreases |w| - p
  {
    if p + |d| <= |w| {
      MatchesInWindow(b, w, d, origin, p, 0);
      if !MatchesFrom(w, d, p, 0) {
        FindInWindow(b, w, d, origin, p + 1);
      }
    }
  }

  /** Comparing inside a window compares the same bytes of the whole. */
  lemma {:induction false} MatchesInWindow(b: seq<byte>, w: seq<byte>, d: seq<byte>, origin: nat, p: nat, k: nat)
    requires Window(b, w, origin) && p + |d| <= |w|
    ensures MatchesFrom(w, d, p, k) == MatchesFrom(b, d, origin + p, k)
    decreases |d| - k
  {
    if k < |d| {
      assert w[p + k] == b[origin + p + k];
      MatchesInWindow(b, w, d, origin, p, k + 1);
    }
  }

  /** The segments found in a window are the first segments of the whole found from the same
      place, counted from `origin`; when the window reaches the end they are all of them. */
  lemma {:induction false} ScanInWindowFrom(b: seq<byte>, w: seq<byte>, d: seq<byte>, origin: nat, p: nat)
    requires |d| > 0 && Window(b, w, origin) && p <= |w|
    ensures var inner := Scan(w, d, p);
            var outer := Scan(b, d, origin + p);
            && |inner| <= |outer|
            && Aligned(inner, outer, origin)
            && (origin + |w| == |b| ==> |inner| == |outer|)
    decreases |w| - p
  {
    FindInWindow(b, w, d, origin, p);
    var r := Find(b, d, origin + p);
    if r >= 0 && r + |d| <= origin + |w| {
      var q := r + |d| - origin;
      ScanInWindowFrom(b, w, d, origin, q);
      AlignedCons(Span(p, r - origin), Scan(w, d, q), Span(origin + p, r), Scan(b, d, r + |d|), origin,
                  origin + |w| == |b|, Scan(w, d, p), Scan(b, d, origin + p));
    }
  }

  /** The segments found in the window `b[origin..limit]` are the first segments of `b` found
      from the same place, counted from `origin`; over the rest of the bytes they are all of them. */
  lemma ScanInWindow(b: seq<byte>, d: seq<byte>, origin: nat, limit: nat, p: nat)
    requires |d| > 0 && origin <= limit <= |b| && p <= limit - origin
    ensures var inner := Scan(b[origin..limit], d, p);
            var outer := Scan(b, d, origin + p);
            && |inner| <= |outer|
            && Aligned(inner, outer, origin)
            && (limit == |b| ==> |inner| == |outer|)
  {
    ScanInWindowFrom(b, b[origin..limit], d, origin, p);
  }

  /** Each of the `inner` spans is the corresponding `outer` span moved back by `origin`. */
  predicate Aligned(inner: seq<Span>, outer: seq<Span>, origin: nat)
    requires |inner| <= |outer|
  {
    forall k :: 0 <= k < |inner| ==>
      inner[k].start + origin == outer[k].start && inner[k].stop + origin == outer[k].stop
  }

  /** Aligned spans stay aligned behind aligned first spans, and as many when `same` says so. */
  lemma AlignedCons(x: Span, inner: seq<Span>, y: Span, outer: seq<Span>, origin: nat, same: bool,
                    longerInner: seq<Span>, longerOuter: seq<Span>)
    requires |inner| <= |outer| && Aligned(inner, outer, origin) && (same ==> |inner| == |outer|)
    requires x.start + origin == y.start && x.stop + origin == y.stop
    requires longerInner == [x] + inner && longerOuter == [y] + outer
    ensures |longerInner| <= |longerOuter| && Aligned(longerInner, longerOuter, origin)
    ensures same ==> |longerInner| == |longerOuter|
  {
    forall k | 0 < k < |inner| + 1
      ensures ([x] + inner)[k] == inner[k - 1] && ([y] + outer)[k] == outer[k - 1]
    {
    }
  }

  /** Decoding segments of a window decodes the same bytes as the corresponding segments of
      the whole. */
  lemma DecodedInWindow(b: seq<byte>, decode: seq<byte> -> string, origin: nat, limit: nat, inner: seq<Span>, outer: seq<Span>)
    requires origin <= limit <= |b| && |inner| <= |outer|
    requires Inside(inner, limit - origin) && Inside(outer, |b|)
    requires Aligned(inner, outer, origin)
    ensures Decoded(b[origin..limit], decode, inner) == Decoded(b, decode, outer)[..|inner|]
  {
    var w := b[origin..limit];
    var x, y := Decoded(w, decode, inner), Decoded(b, decode, outer);
    forall k | 0 <= k < |inner|
      ensures x[k] == y[k]
    {
      SliceOfSlice(b, origin, limit, inner[k].start, inner[k].stop);
    }
    assert x == y[..|inner|];
  }

  /** A slice of a slice is a slice of the whole. */
  lemma SliceOfSlice<T>(b: seq<T>, origin: nat, limit: nat, i: nat, j: nat)
    requires origin <= limit <= |b| && i <= j <= limit - origin
    ensures b[origin..limit][i..j] == b[origin + i..origin + j]
  {
    var w := b[origin..limit];
    forall t | 0 <= t < j - i
      ensures w[i..j][t] == b[origin + i..origin + j][t]
    {
      assert w[i..j][t] == w[i + t] == b[origin + i + t];
    }
  }

  /** The lines decoded in the window `b[origin..limit]` are the first lines decoded from the
      same place in `b`; over the rest of the bytes they are all of them. */
  lemma DecodedLinesInWindow(b: seq<byte>, d: seq<byte>, decode: seq<byte> -> string, origin: nat, limit: nat, p: nat)
    requires |d| > 0 && origin <= limit <= |b| && p <= limit - origin
    ensures var inner := DecodedLines(b[origin..limit], d, decode, p);
            var outer := DecodedLines(b, d, decode, origin + p);
            && |inner| <= |outer| && inner == outer[..|inner|]
            && (limit == |b| ==> inner == outer)
  {
    ScanInWindow(b, d, origin, limit, p);
    ScanInside(b[origin..limit], d, p);
    ScanInside(b, d, origin + p);
    DecodedInWindow(b, decode, origin, limit, Scan(b[origin..limit], d, p), Scan(b, d, origin + p));
  }

  /** Positions inside a window starting at `origin`, after the first `k` of its segments,
      are the positions after the corresponding segments of the whole, counted from `origin`. */
  lemma ShiftedAfter(inner: seq<Span>, outer: seq<Span>, body: seq<Span>, m: nat, k: nat, origin: nat, from: nat, gap: nat)
    requires k <= |inner| <= |outer| && m <= |body| && outer == body[m..]
    requires origin == After(body[..m], from, gap)
    requires Aligned(inner, outer, origin)
    ensures origin + After(inner[..k], 0, gap) == After(body[..m + k], from, gap)
  {
    if k == 0 {
      assert body[..m + k] == body[..m];
    } else {
      assert inner[..k][k - 1] == inner[k - 1];
      assert body[..m + k][m + k - 1] == body[m + k - 1] == outer[k - 1];
    }
  }

  /** The first `k` elements of a prefix of the suffix from `m`. */
  lemma PrefixOfSuffix<T>(whole: seq<T>, suffix: seq<T>, prefix: seq<T>, m: nat, k: nat)
    requires m <= |whole| && whole[m..] == suffix
    requires |prefix| <= |suffix| && prefix == suffix[..|prefix|] && k <= |prefix|
    ensures m + k <= |whole| && prefix[..k] == whole[m..m + k]
  {
    assert forall j :: 0 <= j < k ==> prefix[..k][j] == prefix[j] == suffix[j] == whole[m + j];
  }

  /** A slice up to the length is the suffix. */
  lemma SliceToEnd<T>(s: seq<T>, i: nat)
    requires i <= |s|
    ensures s[i..|s|] == s[i..]
  {
  }

  /** A prefix one element longer. */
  lemma TakeOneMore<T>(s: seq<T>, k: nat)
    requires k < |s|
    ensures s[..k + 1] == s[..k] + [s[k]]
  {
  }

  /** Appending is associative. */
  lemma AppendAssociative<T>(a: seq<T>, b: seq<T>, c: seq<T>)
    ensures (a + b) + c == a + (b + c)
  {
  }

  /** The chunks one after another. */
  function Flatten(chunks: seq<seq<string>>): seq<string> {
    if chunks == [] then [] else Flatten(chunks[..|chunks| - 1]) + chunks[|chunks| - 1]
  }

  /** Flattening one more chunk appends it. */
  lemma FlattenAppend(chunks: seq<seq<string>>, chunk: seq<string>)
    ensures Flatten(chunks + [chunk]) == Flatten(chunks) + chunk
  {
    assert (chunks + [chunk])[..|chunks|] == chunks;
  }

  /** Extending a prefix of `whole` by the elements that follow it. */
  lemma ExtendPrefix<T>(done: seq<T>, before: seq<T>, got: seq<T>, whole: seq<T>, m: nat, n: nat)
    requires m <= n <= |whole| && done + before == whole[..m] && got == whole[m..n]
    ensures done + (before + got) == whole[..n]
  {
    assert whole[..n] == whole[..m] + whole[m..n];
  }

  /** Extending a prefix of `whole` by the rest of it and something more. */
  lemma ExtendToEnd<T>(done: seq<T>, before: seq<T>, rest: seq<T>, extra: seq<T>, whole: seq<T>, m: nat)
    requires m <= |whole| && done + before == whole[..m] && rest == whole[m..]
    ensures done + (before + (rest + extra)) == whole + extra
  {
    assert whole == whole[..m] + whole[m..];
  }

  /** Index of the first character of `s` that is one of `chars`, or -1. */
  function IndexOfAny(s: string, chars: seq<char>): (r: int)
    ensures -1 <= r < |s|
    ensures r >= 0 ==> s[r] in chars
    ensures forall j :: 0 <= j < |s| && (r < 0 || j < r) ==> s[j] !in chars
  {
    if s == [] then -1
    else if s[0] in chars then 0
    else
      var r := IndexOfAny(s[1..], chars);
      if r < 0 then -1 else r + 1
  }

  /** `s.Split(separators, StringSplitOptions.RemoveEmptyEntries)`: the pieces between any of
      the separator characters, empty pieces dropped. */
  function SplitNonEmpty(s: string, separators: seq<char>): seq<string>
    decreases |s|
  {
    var i := IndexOfAny(s, separators);
    if i < 0 then (if s == [] then [] else [s])
    else (if i == 0 then [] else [s[..i]]) + SplitNonEmpty(s[i + 1..], separators)
  }

  /** A piece of a split: not empty and free of separators. */
  predicate CleanPiece(piece: string, separators: seq<char>) {
    piece != [] && forall c :: c in piece ==> c !in separators
  }

  /** No piece is empty and no piece holds a separator. */
  lemma {:induction false} SplitPiecesClean(s: string, separators: seq<char>)
    ensures forall p :: p in SplitNonEmpty(s, separators) ==> CleanPiece(p, separators)
    decreases |s|
  {
    var i := IndexOfAny(s, separators);
    if i >= 0 {
      SplitPiecesClean(s[i + 1..], separators);
      var head := s[..i];
      assert forall k :: 0 <= k < |head| ==> head[k] == s[k];
      CleanPieces((if i == 0 then [] else [head]), SplitNonEmpty(s[i + 1..], separators), separators);
    } else {
      assert s != [] ==> CleanPiece(s, separators);
    }
  }

  /** Clean pieces after clean pieces. */
  lemma CleanPieces(first: seq<string>, rest: seq<string>, separators: seq<char>)
    requires forall p :: p in first ==> CleanPiece(p, separators)
    requires forall p :: p in rest ==> CleanPiece(p, separators)
    ensures forall p :: p in first + rest ==> CleanPiece(p, separators)
  {
  }

  /** The string with every separator character removed. */
  function RemoveAll(s: string, separators: seq<char>): string {
    if s == [] then []
    else (if s[0] in separators then [] else [s[0]]) + RemoveAll(s[1..], separators)
  }

  /** Strings concatenated. */
  function Concat(parts: seq<string>): string {
    if parts == [] then [] else parts[0] + Concat(parts[1..])
  }

  /** Splitting loses the separators and nothing else: the pieces, put back together, are the
      string without its separator characters. */
  lemma {:induction false} SplitNonEmptyKeepsText(s: string, separators: seq<char>)
    ensures Concat(SplitNonEmpty(s, separators)) == RemoveAll(s, separators)
    decreases |s|
  {
    var i := IndexOfAny(s, separators);
    if i < 0 {
      NoSeparatorRemovesNothing(s, separators);
      if s != [] {
        assert [s][1..] == [];
      }
    } else {
      SplitNonEmptyKeepsText(s[i + 1..], separators);
      RemoveAllAtSeparator(s, separators, i);
      ConcatAfterPiece(s[..i], SplitNonEmpty(s[i + 1..], separators));
    }
  }

  /** Up to the first separator nothing is removed; the separator is. */
  lemma RemoveAllAtSeparator(s: string, separators: seq<char>, i: nat)
    requires i < |s| && s[i] in separators
    requires forall j :: 0 <= j < i ==> s[j] !in separators
    ensures RemoveAll(s, separators) == s[..i] + RemoveAll(s[i + 1..], separators)
  {
    var head, rest := s[..i], s[i + 1..];
    assert forall j :: 0 <= j < |head| ==> head[j] == s[j];
    NoSeparatorRemovesNothing(head, separators);
    assert s == head + ([s[i]] + rest);
    RemoveAllAppend(head, [s[i]] + rest, separators);
    assert ([s[i]] + rest)[1..] == rest;
  }

  /** A piece kept when not empty, then more pieces: concatenated, the piece comes first. */
  lemma ConcatAfterPiece(piece: string, more: seq<string>)
    ensures Concat((if piece == [] then [] else [piece]) + more) == piece + Concat(more)
  {
    if piece == [] {
      assert [] + more == more;
    } else {
      assert ([piece] + more)[1..] == more;
    }
  }

  lemma {:induction false} NoSeparatorRemovesNothing(s: string, separators: seq<char>)
    requires forall j :: 0 <= j < |s| ==> s[j] !in separators
    ensures RemoveAll(s, separators) == s
    decreases |s|
  {
    if s != [] {
      NoSeparatorRemovesNothing(s[1..], separators);
    }
  }

  lemma {:induction false} RemoveAllAppend(a: string, b: string, separators: seq<char>)
    ensures RemoveAll(a + b, separators) == RemoveAll(a, separators) + RemoveAll(b, separators)
    decreases |a|
  {
    if a != [] {
      assert (a + b)[1..] == a[1..] + b;
      RemoveAllAppend(a[1..], b, separators);
    } else {
      assert a + b == b;
    }
  }

  lemma {:induction false} ConcatAppend(a: seq<string>, b: seq<string>)
    ensures Concat(a + b) == Concat(a) + Concat(b)
    decreases |a|
  {
    if a != [] {
      assert (a + b)[1..] == a[1..] + b;
      ConcatAppend(a[1..], b);
    } else {
      assert a + b == b;
    }
  }
}
