/**
 * The chunked line reader (SortFile/DataReading.cs): skips the encoding preamble, cuts the file
 * at every newline delimiter and hands the lines out in chunks of at most `chunkSize`.
 */
module DataReading {
  import opened Wrappers
  import opened Spans
  import opened Encodings
  import opened Lines
  import opened Pipes

  /** What one `ReadLines` call adds and where it leaves the reader. */
  datatype ReadOutcome = ReadOutcome(items: seq<string>, position: nat)

  /** The specification of `ReadLines` on a buffer, with `room` places left in the list: the
      first segments, as many as fit; then, when the stream is complete, the list has room and
      bytes remain without a delimiter, the end-of-stream fallback, which splits the decoded
      WHOLE buffer on the newline characters and moves to the end. */
  function LinesRead(sequence: seq<byte>, isCompleted: bool, room: nat, d: seq<byte>,
                     decode: seq<byte> -> string, newLine: seq<char>): ReadOutcome
    requires |d| > 0
  {
    var spans := Scan(sequence, d, 0);
    var k := Taken(sequence, d, room);
    var taken := DecodedLines(sequence, d, decode, 0)[..k];
    var e := After(spans[..k], 0, |d|);
    if isCompleted && k < room && e < |sequence| then
      ReadOutcome(taken + SplitNonEmpty(decode(sequence), newLine), |sequence|)
    else
      ReadOutcome(taken, e)
  }

  /** While the stream is incomplete a call takes whole segments only, at most `room` of them,
      and stops either at the room limit or where no delimiter follows: a partial segment is
      left in the buffer. */
  lemma LinesReadTakesWholeSegments(sequence: seq<byte>, room: nat, d: seq<byte>,
                                    decode: seq<byte> -> string, newLine: seq<char>)
    requires |d| > 0
    ensures var o := LinesRead(sequence, false, room, d, decode, newLine);
            var spans := Scan(sequence, d, 0);
            && |o.items| <= room && |o.items| <= |spans|
            && o.position <= |sequence|
            && (|o.items| > 0 ==> o.position == spans[|o.items| - 1].stop + |d|)
            && (|o.items| < room ==> Find(sequence, d, o.position) < 0)
  {
    var spans := Scan(sequence, d, 0);
    var k := if |spans| < room then |spans| else room;
    FindAfterSegments(sequence, d, 0, k);
    ScanInside(sequence, d, 0);
  }

  /** A call on a complete stream that stops before the end has filled the list and consumed
      at least one segment. */
  lemma LinesReadProgress(sequence: seq<byte>, room: nat, d: seq<byte>, decode: seq<byte> -> string, newLine: seq<char>)
    requires |d| > 0 && room > 0
    ensures var o := LinesRead(sequence, true, room, d, decode, newLine);
            o.position < |sequence| ==> o.position > 0 && |o.items| == room
  {
  }

  /** `LinesRead` once the number of segments taken and whether the fallback happens are known. */
  lemma LinesReadOutcome(sequence: seq<byte>, isCompleted: bool, room: nat, d: seq<byte>,
                         decode: seq<byte> -> string, newLine: seq<char>, k: nat, fellBack: bool)
    requires |d| > 0 && k <= |Scan(sequence, d, 0)| && k <= room
    requires k == room || k == |Scan(sequence, d, 0)|
    requires fellBack <==> isCompleted && k < room && After(Scan(sequence, d, 0)[..k], 0, |d|) < |sequence|
    ensures var o := LinesRead(sequence, isCompleted, room, d, decode, newLine);
            var taken := DecodedLines(sequence, d, decode, 0)[..k];
            && (fellBack ==> o.items == taken + SplitNonEmpty(decode(sequence), newLine) && o.position == |sequence|)
            && (!fellBack ==> o.items == taken && o.position == After(Scan(sequence, d, 0)[..k], 0, |d|))
  {
    assert k == Taken(sequence, d, room);
  }

  /** Outside the fallback, a call returns the lines of the segments it takes and stops after
      the last of them. */
  lemma LinesReadWithoutFallback(sequence: seq<byte>, isCompleted: bool, room: nat, d: seq<byte>,
                                 decode: seq<byte> -> string, newLine: seq<char>)
    requires |d| > 0
    ensures var o := LinesRead(sequence, isCompleted, room, d, decode, newLine);
            var k := Taken(sequence, d, room);
            !(isCompleted && o.position == |sequence|) ==>
              o.items == DecodedLines(sequence, d, decode, 0)[..k]
              && o.position == After(Scan(sequence, d, 0)[..k], 0, |d|)
  {
  }

  /** Code units 0-255 read as the characters of the same number (ISO-8859-1). */
  function Latin1(bytes: seq<byte>): (s: string)
    ensures |s| == |bytes|
  {
    seq(|bytes|, i requires 0 <= i < |bytes| => (bytes[i] as int) as char)
  }

  /** The fallback decodes the whole buffer: a final buffer `"a\nb"` with no newline at the end
      gives `"a"` twice. */
  lemma FallbackRepeatsLinesOfTheLastBuffer()
    ensures LinesRead([97, 10, 98], true, 10, [10], Latin1, ['\n']).items == ["a", "a", "b"]
  {
    var b: seq<byte> := [97, 10, 98];
    assert Find(b, [10], 3) == -1;
    assert b[2..3] == [98];
    assert Find(b, [10], 2) == -1;
    assert b[1..2] == [10];
    assert Find(b, [10], 1) == 1;
    assert Find(b, [10], 0) == 1;
    assert Scan(b, [10], 2) == [];
    assert Scan(b, [10], 0) == [Span(0, 1)];
    assert Latin1(b[0..1]) == "a";
    assert Latin1(b) == "a\nb";
    assert IndexOfAny("b"[1..], ['\n']) == -1;
    assert IndexOfAny("b", ['\n']) == -1;
    assert SplitNonEmpty("b", ['\n']) == ["b"];
    assert IndexOfAny("a\nb"[1..], ['\n']) == 0;
    assert IndexOfAny("a\nb", ['\n']) == 1;
    assert "a\nb"[..1] == "a" && "a\nb"[2..] == "b";
    assert SplitNonEmpty("a\nb", ['\n']) == ["a", "b"];
  }

  /** A final buffer `"a\nb\n"` that ends with a newline gives each line once. */
  lemma TrailingNewlineReadsEachLineOnce()
    ensures LinesRead([97, 10, 98, 10], true, 10, [10], Latin1, ['\n']).items == ["a", "b"]
  {
    var c: seq<byte> := [97, 10, 98, 10];
    assert Find(c, [10], 4) == -1;
    assert c[3..4] == [10];
    assert Find(c, [10], 3) == 3;
    assert c[2..3] == [98];
    assert Find(c, [10], 2) == 3;
    assert c[1..2] == [10];
    assert Find(c, [10], 0) == 1;
    assert Scan(c, [10], 4) == [];
    assert Scan(c, [10], 2) == [Span(2, 3)];
    assert Scan(c, [10], 0) == [Span(0, 1), Span(2, 3)];
    assert Latin1(c[0..1]) == "a";
    assert Latin1(c[2..3]) == "b";
  }

  /** The reader position after the first `m` lines of the body that starts at `from`. */
  function Boundary(data: seq<byte>, d: seq<byte>, from: nat, m: nat): (position: nat)
    requires |d| > 0 && from <= |data| && m <= |Scan(data, d, from)|
    ensures from <= position <= |data|
    ensures m == 0 ==> position == from
  {
    ScanInside(data, d, from);
    After(Scan(data, d, from)[..m], from, |d|)
  }

  /** Taking `k` segments of the window that starts at boundary `m` ends at boundary `m + k`. */
  lemma StepPosition(data: seq<byte>, d: seq<byte>, from: nat, m: nat, limit: nat, k: nat)
    requires |d| > 0 && from <= |data| && m <= |Scan(data, d, from)|
    requires Boundary(data, d, from, m) <= limit <= |data|
    requires k <= |Scan(data[Boundary(data, d, from, m)..limit], d, 0)|
    ensures m + k <= |Scan(data, d, from)|
    ensures Boundary(data, d, from, m) + After(Scan(data[Boundary(data, d, from, m)..limit], d, 0)[..k], 0, |d|)
            == Boundary(data, d, from, m + k)
  {
    var body := Scan(data, d, from);
    ScanSplit(data, d, from, m);
    var c := Boundary(data, d, from, m);
    var inner, outer := Scan(data[c..limit], d, 0), Scan(data, d, c);
    assert outer == body[m..];
    ScanInWindow(data, d, c, limit, 0);
    ShiftedAfter(inner, outer, body, m, k, c, from, |d|);
  }

  /** The lines of the first `k` segments of the window that starts at boundary `m` are the
      lines `m` to `m + k` of the body. */
  lemma StepLines(data: seq<byte>, d: seq<byte>, decode: seq<byte> -> string, from: nat, m: nat, limit: nat, k: nat)
    requires |d| > 0 && from <= |data| && m <= |Scan(data, d, from)|
    requires Boundary(data, d, from, m) <= limit <= |data|
    requires k <= |Scan(data[Boundary(data, d, from, m)..limit], d, 0)|
    ensures m + k <= |DecodedLines(data, d, decode, from)|
    ensures DecodedLines(data[Boundary(data, d, from, m)..limit], d, decode, 0)[..k]
            == DecodedLines(data, d, decode, from)[m..m + k]
  {
    var c := Boundary(data, d, from, m);
    DecodedLinesSplit(data, d, decode, from, m);
    DecodedLinesInWindow(data, d, decode, c, limit, 0);
    PrefixOfSuffix(DecodedLines(data, d, decode, from), DecodedLines(data, d, decode, c),
                   DecodedLines(data[c..limit], d, decode, 0), m, k);
  }

  /** How many segments a call takes: all of them, or as many as there is room for. */
  function Taken(sequence: seq<byte>, d: seq<byte>, room: nat): nat
    requires |d| > 0
  {
    if |Scan(sequence, d, 0)| < room then |Scan(sequence, d, 0)| else room
  }

  /** A call on a complete stream that reaches the end has taken every segment. */
  lemma ReachingEndTakesAll(sequence: seq<byte>, room: nat, d: seq<byte>, decode: seq<byte> -> string, newLine: seq<char>)
    requires |d| > 0
    ensures LinesRead(sequence, true, room, d, decode, newLine).position == |sequence| ==>
              Taken(sequence, d, room) == |Scan(sequence, d, 0)|
  {
    ScanInside(sequence, d, 0);
    FindAfterSegments(sequence, d, 0, Taken(sequence, d, room));
  }

  /** On the rest of a complete file, a call that reaches the end has taken every remaining
      segment of the body. */
  lemma EndTakesRest(data: seq<byte>, d: seq<byte>, decode: seq<byte> -> string, newLine: seq<char>,
                     from: nat, m: nat, room: nat)
    requires |d| > 0 && from <= |data| && m <= |Scan(data, d, from)|
    ensures Boundary(data, d, from, m) <= |data|
    ensures var c := Boundary(data, d, from, m);
            LinesRead(data[c..|data|], true, room, d, decode, newLine).position == |data| - c ==>
              m + Taken(data[c..|data|], d, room) == |Scan(data, d, from)|
  {
    ScanSplit(data, d, from, m);
    var c := Boundary(data, d, from, m);
    ReachingEndTakesAll(data[c..|data|], room, d, decode, newLine);
    ScanInWindow(data, d, c, |data|, 0);
  }

  /** The segments from boundary `m` to the end of the body, seen from the window. */
  lemma RestOfBody(data: seq<byte>, d: seq<byte>, decode: seq<byte> -> string, from: nat, m: nat, k: nat)
    requires |d| > 0 && from <= |data| && m + k == |Scan(data, d, from)|
    requires Boundary(data, d, from, m) <= |data|
    requires k <= |Scan(data[Boundary(data, d, from, m)..|data|], d, 0)|
    ensures DecodedLines(data[Boundary(data, d, from, m)..|data|], d, decode, 0)[..k] == DecodedLines(data, d, decode, from)[m..]
    ensures Boundary(data, d, from, m) + After(Scan(data[Boundary(data, d, from, m)..|data|], d, 0)[..k], 0, |d|)
            == LinesEnd(data, d, from)
  {
    var lines := DecodedLines(data, d, decode, from);
    StepLines(data, d, decode, from, m, |data|, k);
    assert lines[m..m + k] == lines[m..];
    StepPosition(data, d, from, m, |data|, k);
    assert Scan(data, d, from)[..m + k] == Scan(data, d, from);
  }

  /** On the rest of a complete file, a call that reaches the end returns the remaining lines,
      then the fallback split of the rest when the file does not end at a boundary. */
  lemma StepAtEnd(data: seq<byte>, d: seq<byte>, decode: seq<byte> -> string, newLine: seq<char>,
                  from: nat, m: nat, room: nat)
    requires |d| > 0 && from <= |data| && m <= |Scan(data, d, from)|
    ensures Boundary(data, d, from, m) <= |data|
    ensures var c := Boundary(data, d, from, m);
            var o := LinesRead(data[c..|data|], true, room, d, decode, newLine);
            o.position == |data| - c ==>
              o.items == DecodedLines(data, d, decode, from)[m..]
                         + (if LinesEnd(data, d, from) == |data| then [] else SplitNonEmpty(decode(data[c..]), newLine))
  {
    EndTakesRest(data, d, decode, newLine, from, m, room);
    var c := Boundary(data, d, from, m);
    var buffer := data[c..|data|];
    var k := Taken(buffer, d, room);
    if LinesRead(buffer, true, room, d, decode, newLine).position == |buffer| {
      RestOfBody(data, d, decode, from, m, k);
      SliceToEnd(data, c);
    }
  }

  /** When the file ends at a line boundary, the call that reaches its end takes only whole
      lines, so it adds no more than `room` of them: without the fallback no chunk outgrows
      the list's capacity. */
  lemma LastRoundFits(data: seq<byte>, d: seq<byte>, decode: seq<byte> -> string, newLine: seq<char>,
                      from: nat, m: nat, room: nat)
    requires |d| > 0 && from <= |data| && m <= |Scan(data, d, from)|
    requires LinesEnd(data, d, from) == |data|
    ensures Boundary(data, d, from, m) <= |data|
    ensures var c := Boundary(data, d, from, m);
            var o := LinesRead(data[c..|data|], true, room, d, decode, newLine);
            o.position == |data| - c ==> |o.items| <= room
  {
    StepAtEnd(data, d, decode, newLine, from, m, room);
    EndTakesRest(data, d, decode, newLine, from, m, room);
  }

  /** The first read shows the preamble exactly when it delivered all of its bytes and they
      match the file's first bytes. */
  lemma PreambleSeen(data: seq<byte>, preamble: seq<byte>, n: nat)
    requires n <= |data|
    ensures (|preamble| <= |data[0..n]| && data[0..n][..|preamble|] == preamble)
            <==> (|preamble| <= n && |preamble| <= |data| && data[..|preamble|] == preamble)
  {
    if |preamble| <= n {
      assert data[0..n][..|preamble|] == data[..|preamble|];
    }
  }

  /** A round of the reader loop that does not reach the end of a complete file: `done` and
      `before` are the lines yielded and pending, which are the body's first `m` lines; the
      call adds the next `k` lines and moves the reader to boundary `m + k`. */
  lemma MiddleStep(data: seq<byte>, d: seq<byte>, decode: seq<byte> -> string, newLine: seq<char>,
                   from: nat, m: nat, received: nat, isCompleted: bool, room: nat,
                   done: seq<string>, before: seq<string>, got: seq<string>, position: nat)
    requires |d| > 0 && from <= |data| && m <= |Scan(data, d, from)| && room > 0
    requires Boundary(data, d, from, m) <= received <= |data|
    requires isCompleted ==> received == |data|
    requires done + before == DecodedLines(data, d, decode, from)[..m]
    requires var o := LinesRead(data[Boundary(data, d, from, m)..received], isCompleted, room, d, decode, newLine);
             got == o.items && position == o.position
    requires !(isCompleted && position == received - Boundary(data, d, from, m))
    ensures var k := Taken(data[Boundary(data, d, from, m)..received], d, room);
            && m + k <= |Scan(data, d, from)| && |got| == k <= room
            && Boundary(data, d, from, m) + position == Boundary(data, d, from, m + k)
            && done + (before + got) == DecodedLines(data, d, decode, from)[..m + k]
  {
    var c := Boundary(data, d, from, m);
    var buffer := data[c..received];
    var k := Taken(buffer, d, room);
    LinesReadWithoutFallback(buffer, isCompleted, room, d, decode, newLine);
    StepPosition(data, d, from, m, received, k);
    StepLines(data, d, decode, from, m, received, k);
    ExtendPrefix(done, before, got, DecodedLines(data, d, decode, from), m, m + k);
  }

  /** The round of the reader loop that reaches the end of a complete file: with what was
      yielded and pending before, the lines are all of the body's lines and the fallback
      split of the rest. */
  lemma LastStep(data: seq<byte>, d: seq<byte>, decode: seq<byte> -> string, newLine: seq<char>,
                 from: nat, m: nat, room: nat, done: seq<string>, before: seq<string>, got: seq<string>)
    requires |d| > 0 && from <= |data| && m <= |Scan(data, d, from)|
    requires done + before == DecodedLines(data, d, decode, from)[..m]
    requires Boundary(data, d, from, m) <= |data|
    requires var o := LinesRead(data[Boundary(data, d, from, m)..|data|], true, room, d, decode, newLine);
             got == o.items && o.position == |data| - Boundary(data, d, from, m)
    ensures done + (before + got)
            == DecodedLines(data, d, decode, from)
               + (if LinesEnd(data, d, from) == |data| then []
                  else SplitNonEmpty(decode(data[Boundary(data, d, from, m)..]), newLine))
  {
    var lines := DecodedLines(data, d, decode, from);
    StepAtEnd(data, d, decode, newLine, from, m, room);
    ExtendToEnd(done, before, lines[m..],
                if LinesEnd(data, d, from) == |data| then []
                else SplitNonEmpty(decode(data[Boundary(data, d, from, m)..]), newLine), lines, m);
  }

  /** One round of the reader loop, in the terms of its invariant: the chunks yielded so far
      and the pending list `before` are the first `m` lines; `list` is `before` with the lines
      read from the buffer that starts at line boundary `m`. Either the file ends here and the
      chunks with `list` are all the lines, or `k` more whole lines were read. */
  lemma Round(data: seq<byte>, d: seq<byte>, decode: seq<byte> -> string, newLine: seq<char>,
              from: nat, m: nat, received: nat, isCompleted: bool, room: nat,
              chunks: seq<seq<string>>, before: seq<string>, list: seq<string>, position: nat, isEnd: bool)
    returns (k: nat)
    requires |d| > 0 && from <= |data| && m <= |Scan(data, d, from)| && room > 0
    requires Boundary(data, d, from, m) <= received <= |data|
    requires isCompleted ==> received == |data|
    requires Flatten(chunks) + before == DecodedLines(data, d, decode, from)[..m]
    requires var o := LinesRead(data[Boundary(data, d, from, m)..received], isCompleted, room, d, decode, newLine);
             list == before + o.items && position == o.position
    requires isEnd == (position == received - Boundary(data, d, from, m))
    ensures !(isCompleted && isEnd) ==>
              && m + k <= |Scan(data, d, from)| && |list| <= |before| + room
              && Boundary(data, d, from, m) + position == Boundary(data, d, from, m + k)
              && Flatten(chunks) + list == DecodedLines(data, d, decode, from)[..m + k]
              && Flatten(chunks + [list]) == DecodedLines(data, d, decode, from)[..m + k]
    ensures isCompleted && isEnd ==>
              Flatten(chunks + [list])
              == DecodedLines(data, d, decode, from)
                 + (if LinesEnd(data, d, from) == |data| then []
                    else SplitNonEmpty(decode(data[Boundary(data, d, from, m)..]), newLine))
    ensures isCompleted && isEnd && LinesEnd(data, d, from) == |data| ==> |list| <= |before| + room
  {
    var c := Boundary(data, d, from, m);
    var o := LinesRead(data[c..received], isCompleted, room, d, decode, newLine);
    k := Taken(data[c..received], d, room);
    FlattenAppend(chunks, list);
    if isCompleted && isEnd {
      LastStep(data, d, decode, newLine, from, m, room, Flatten(chunks), before, o.items);
      if LinesEnd(data, d, from) == |data| {
        LastRoundFits(data, d, decode, newLine, from, m, room);
      }
    } else {
      MiddleStep(data, d, decode, newLine, from, m, received, isCompleted, room, Flatten(chunks), before, o.items, position);
    }
  }

  /** Where the last delimiter of `data` after `from` ends. */
  function LinesEnd(data: seq<byte>, d: seq<byte>, from: nat): nat
    requires |d| > 0 && from <= |data|
  {
    After(Scan(data, d, from), from, |d|)
  }

  /** How many bytes the first stream read delivers. */
  function FirstReadLength(size: nat, arrived: nat): nat {
    if size == 0 then 0 else ReadSize(arrived, size)
  }

  /** Where the lines start: after the preamble when the first read delivered all of it and
      it matched, at the very start otherwise. */
  function BodyStart(data: seq<byte>, preamble: seq<byte>, firstRead: nat): nat {
    if |preamble| <= firstRead && |preamble| <= |data| && data[..|preamble|] == preamble then |preamble| else 0
  }

  /** The yield of a round of `ReadLinesAsync`: a full list, or the list of the last round, is
      yielded as a chunk and replaced by an empty one. When the round does not end the file,
      the chunks and the list still hold the first `n` lines, every chunk holds `chunkSize` of
      them and the list fewer. */
  method Yield(ghost lines: seq<string>, ghost n: nat, chunks: seq<seq<string>>, list: seq<string>,
               chunkSize: nat, last: bool)
    returns (newChunks: seq<seq<string>>, newList: seq<string>)
    requires 0 < chunkSize
    requires !last ==> n <= |lines| && |list| <= chunkSize && Flatten(chunks) + list == lines[..n]
    requires forall i :: 0 <= i < |chunks| ==> |chunks[i]| == chunkSize
    ensures last ==> newChunks == chunks + [list] && newList == []
    ensures !last ==> Flatten(newChunks) + newList == lines[..n] && |newList| < chunkSize
    ensures forall i :: 0 <= i < |newChunks| - (if last then 1 else 0) ==> |newChunks[i]| == chunkSize
  {
    newChunks, newList := chunks, list;
    if |list| == chunkSize || last {
      newChunks, newList := chunks + [list], [];
      if !last {
        FlattenAppend(chunks, list);
      }
    }
  }

  class DataReading {
    const encoding: Encoding
    /** `Environment.NewLine`. */
    const delimiterCharacters: string
    const delimiterBytes: seq<byte>
    const reader: PipeReader

    constructor (fileData: seq<byte>, encoding: Encoding, newLine: string)
      ensures this.encoding == encoding && delimiterCharacters == newLine
      ensures delimiterBytes == encoding.encode(newLine)
      ensures fresh(reader) && reader.data == fileData && reader.Valid()
      ensures reader.consumed == 0 && reader.received == 0
      ensures !reader.examinedEverything && !reader.isStreamCompleted && !reader.isReaderCompleted
    {
      this.encoding := encoding;
      delimiterCharacters := newLine;
      delimiterBytes := encoding.encode(newLine);
      reader := new PipeReader(fileData);
    }

    /** The constructor's argument check: a null encoding is rejected. */
    static method Create(fileData: seq<byte>, encoding: Option<Encoding>, newLine: string) returns (r: Result<DataReading>)
      ensures r.Err? <==> encoding.None?
      ensures r.Err? ==> r.error == ArgumentNull
      ensures r.Ok? ==> && fresh(r.value) && fresh(r.value.reader) && r.value.Unread()
                        && r.value.encoding == encoding.value && r.value.reader.data == fileData
                        && r.value.delimiterCharacters == newLine
                        && r.value.delimiterBytes == encoding.value.encode(newLine)
    {
      if encoding.None? {
        return Err(ArgumentNull);
      }
      var reading := new DataReading(fileData, encoding.value, newLine);
      r := Ok(reading);
    }

    /** Nothing has been read yet. */
    ghost predicate Unread()
      reads this, reader
    {
      && reader.Valid() && reader.consumed == 0 && reader.received == 0
      && !reader.examinedEverything && !reader.isStreamCompleted && !reader.isReaderCompleted
    }

    /** `ReadPreamble`: the position after the preamble when the buffer starts with all of its
        bytes, the default position (`None`) when a byte is missing or differs. */
    method ReadPreamble(sequence: seq<byte>) returns (position: Option<nat>, isEnd: bool)
      ensures |encoding.preamble| <= |sequence| && sequence[..|encoding.preamble|] == encoding.preamble ==>
                position == Some(|encoding.preamble|) && isEnd == (|encoding.preamble| == |sequence|)
      ensures !(|encoding.preamble| <= |sequence| && sequence[..|encoding.preamble|] == encoding.preamble) ==>
                position == None && !isEnd
    {
      var preamble := encoding.preamble;
      var read := 0;
      for i := 0 to |preamble|
        invariant read == i <= |sequence| && sequence[..i] == preamble[..i]
      {
        // SequenceReader.TryRead
        if i >= |sequence| {
          return None, false;
        }
        if sequence[i] != preamble[i] {
          if |preamble| <= |sequence| {
            assert sequence[..|preamble|][i] != preamble[i];
          }
          return None, false;
        }
        read := read + 1;
        assert sequence[..i + 1] == sequence[..i] + [sequence[i]];
        assert preamble[..i + 1] == preamble[..i] + [preamble[i]];
      }
      assert preamble[..|preamble|] == preamble;
      return Some(read), read == |sequence|;
    }

    /** `ReadLines`: appends the lines of `sequence` to `items`, as `LinesRead` specifies. */
    method ReadLines(sequence: seq<byte>, isCompleted: bool, items: seq<string>, capacity: nat)
      returns (position: nat, isEnd: bool, result: seq<string>)
      requires |delimiterBytes| > 0 && |items| < capacity
      ensures var outcome := LinesRead(sequence, isCompleted, capacity - |items|, delimiterBytes,
                                       encoding.decode, delimiterCharacters);
              result == items + outcome.items && position == outcome.position
      ensures isEnd == (position == |sequence|) && position <= |sequence|
      ensures isCompleted && !isEnd ==> position > 0
    {
      var d := delimiterBytes;
      ghost var spans := Scan(sequence, d, 0);
      ghost var lines := DecodedLines(sequence, d, encoding.decode, 0);
      ghost var room := capacity - |items|;
      ghost var k := 0;
      ghost var fellBack := false;
      ScanInside(sequence, d, 0);
      position := 0;
      result := items;
      while position < |sequence|
        invariant k <= |spans| && k < room
        invariant position == After(spans[..k], 0, |d|) <= |sequence|
        invariant result == items + lines[..k]
      {
        FindAfterSegments(sequence, d, 0, k);
        // SequenceReader.TryReadTo(out bytes, DelimeterBytes, advancePastDelimiter: true)
        var index := Find(sequence, d, position);
        if index >= 0 {
          assert encoding.decode(sequence[position..index]) == lines[k];
          TakeOneMore(lines, k);
          AppendAssociative(items, lines[..k], [lines[k]]);
          result := result + [encoding.decode(sequence[position..index])];
          position := index + |d|;
          k := k + 1;
        } else if isCompleted {
          var value := encoding.decode(sequence);
          result := result + SplitNonEmpty(value, delimiterCharacters);
          // SequenceReader.AdvanceToEnd: the loop ends with the reader at its end
          position := |sequence|;
          fellBack := true;
          break;
        } else {
          break;
        }
        if |result| == capacity {
          break;
        }
      }
      FindAfterSegments(sequence, d, 0, k);
      LinesReadOutcome(sequence, isCompleted, room, d, encoding.decode, delimiterCharacters, k, fellBack);
      if fellBack {
        AppendAssociative(items, lines[..k], SplitNonEmpty(encoding.decode(sequence), delimiterCharacters));
      }
      isEnd := position == |sequence|;
    }

    /** The `ReadLines` call of `ReadLinesAsync`, in the terms of the whole file: the buffer
        holds the bytes from line boundary `m` of the lines that start at `from` up to
        `received`, and the chunks yielded so far with `list` are the first `m` lines. Either
        the file ends in this buffer and the chunks with the new list are all of its lines, or
        `k` more whole lines were read and the position is line boundary `m + k`. */
    method ReadLinesOfFile(ghost data: seq<byte>, ghost from: nat, ghost m: nat, ghost received: nat,
                           ghost chunks: seq<seq<string>>, buffer: seq<byte>, isCompleted: bool,
                           list: seq<string>, capacity: nat)
      returns (position: nat, isEnd: bool, result: seq<string>, ghost k: nat)
      requires |delimiterBytes| > 0 && |list| < capacity
      requires from <= |data| && m <= |Scan(data, delimiterBytes, from)|
      requires Boundary(data, delimiterBytes, from, m) <= received <= |data|
      requires isCompleted ==> received == |data|
      requires buffer == data[Boundary(data, delimiterBytes, from, m)..received]
      requires Flatten(chunks) + list == DecodedLines(data, delimiterBytes, encoding.decode, from)[..m]
      ensures isEnd == (position == |buffer|) && position <= |buffer|
      ensures isCompleted && !isEnd ==> position > 0
      ensures !(isCompleted && isEnd) ==>
                && m + k <= |Scan(data, delimiterBytes, from)| && |result| <= capacity
                && Boundary(data, delimiterBytes, from, m) + position == Boundary(data, delimiterBytes, from, m + k)
                && Flatten(chunks) + result == DecodedLines(data, delimiterBytes, encoding.decode, from)[..m + k]
                && Flatten(chunks + [result]) == DecodedLines(data, delimiterBytes, encoding.decode, from)[..m + k]
      ensures isCompleted && isEnd ==>
                Flatten(chunks + [result])
                == DecodedLines(data, delimiterBytes, encoding.decode, from)
                   + (if LinesEnd(data, delimiterBytes, from) == |data| then []
                      else SplitNonEmpty(encoding.decode(data[Boundary(data, delimiterBytes, from, m)..]),
                                         delimiterCharacters))
      ensures isCompleted && isEnd && LinesEnd(data, delimiterBytes, from) == |data| ==> |result| <= capacity
    {
      position, isEnd, result := ReadLines(buffer, isCompleted, list, capacity);
      k := Round(data, delimiterBytes, encoding.decode, delimiterCharacters, from, m, received, isCompleted,
                 capacity - |list|, chunks, list, result, position, isEnd);
    }

    /** The reads that open a round of `ReadLinesAsync`: one `ReadAsync`, and in the first round
        the preamble step, which releases the preamble when the buffer starts with it, and a
        second read. The buffer starts where the lines start in the first round and at the
        reader's old position afterwards; a round that starts with everything examined makes
        progress, by new bytes or by the end of the stream. */
    method ReadBuffer(isFirstRead: bool, readCount: nat, arrival: nat -> nat)
      returns (buffer: seq<byte>, isCompleted: bool, readsAfter: nat)
      requires reader.Valid() && !reader.isReaderCompleted
      requires isFirstRead ==> && readCount == 0 && reader.consumed == 0 && reader.received == 0
                               && !reader.examinedEverything && !reader.isStreamCompleted
      requires !isFirstRead ==> reader.examinedEverything || reader.received == reader.consumed
      modifies reader
      ensures reader.Valid() && !reader.isReaderCompleted
      ensures readsAfter == readCount + (if isFirstRead then 2 else 1)
      ensures reader.consumed
              == if isFirstRead then BodyStart(reader.data, encoding.preamble, FirstReadLength(|reader.data|, arrival(0)))
                 else old(reader.consumed)
      ensures old(reader.received) <= reader.received
      ensures old(reader.isStreamCompleted) ==> reader.received == old(reader.received) && reader.isStreamCompleted
      ensures !old(reader.isStreamCompleted) ==> old(reader.received) < reader.received || reader.isStreamCompleted
      ensures buffer == reader.data[reader.consumed..reader.received] && isCompleted == reader.isStreamCompleted
    {
      buffer, isCompleted := reader.ReadAsync(arrival(readCount));
      readsAfter := readCount + 1;

      if isFirstRead {
        PreambleSeen(reader.data, encoding.preamble, reader.received);
        var preamble, _ := ReadPreamble(buffer);
        reader.AdvanceTo(preamble);
        buffer, isCompleted := reader.ReadAsync(arrival(readsAfter));
        readsAfter := readsAfter + 1;
      }
    }

    /** `ReadLinesAsync`: rejects a chunk size that is not positive before reading anything,
        and otherwise yields the chunks of `ReadChunks`. */
    method ReadLinesAsync(chunkSize: int, arrival: nat -> nat)
      returns (r: Result<seq<seq<string>>>, ghost bodyStart: nat, ghost lastLine: nat, ghost lastStart: nat)
      requires Unread() && |delimiterBytes| > 0
      modifies reader
      ensures r.Err? <==> chunkSize <= 0
      ensures r.Err? ==> r.error == ArgumentOutOfRange && unchanged(reader)
      ensures r.Ok? ==>
        && bodyStart == BodyStart(reader.data, encoding.preamble, FirstReadLength(|reader.data|, arrival(0)))
        && lastLine <= |Scan(reader.data, delimiterBytes, bodyStart)|
        && lastStart == Boundary(reader.data, delimiterBytes, bodyStart, lastLine)
        && |r.value| >= 1
        && (forall i :: 0 <= i < |r.value| - 1 ==> |r.value[i]| == chunkSize)
        && (LinesEnd(reader.data, delimiterBytes, bodyStart) == |reader.data| ==> |r.value[|r.value| - 1]| <= chunkSize)
        && Flatten(r.value)
           == DecodedLines(reader.data, delimiterBytes, encoding.decode, bodyStart)
              + (if LinesEnd(reader.data, delimiterBytes, bodyStart) == |reader.data| then []
                 else SplitNonEmpty(encoding.decode(reader.data[lastStart..]), delimiterCharacters))
        && reader.isReaderCompleted
    {
      if chunkSize <= 0 {
        return Err(ArgumentOutOfRange), 0, 0, 0;
      }
      var chunks;
      chunks, bodyStart, lastLine, lastStart := ReadChunks(chunkSize, arrival);
      r := Ok(chunks);
    }

    /** The reading half of one pass of the loop of `ReadLinesAsync`, from line boundary `m` of
        the file's lines: `ReadBuffer`, then `ReadLines` into `list`. The buffer starts at line
        boundary `c`, where the reader stands; either the file ends in it and `list` completes
        the lines, or `k` more whole lines were read up to `position`. */
    method ReadRound(ghost data: seq<byte>, ghost bodyStart: nat, ghost m: nat, isFirstRead: bool, readCount: nat,
                     ghost chunks: seq<seq<string>>, list: seq<string>, chunkSize: nat, arrival: nat -> nat)
      returns (position: nat, isEnd: bool, isCompleted: bool, result: seq<string>, readsAfter: nat,
               ghost k: nat, ghost c: nat)
      requires |delimiterBytes| > 0 && |list| < chunkSize
      requires reader.Valid() && !reader.isReaderCompleted && reader.data == data
      requires bodyStart == BodyStart(data, encoding.preamble, FirstReadLength(|data|, arrival(0)))
      requires m <= |Scan(data, delimiterBytes, bodyStart)|
      requires Flatten(chunks) + list == DecodedLines(data, delimiterBytes, encoding.decode, bodyStart)[..m]
      requires isFirstRead ==> && readCount == 0 && m == 0
                               && reader.consumed == 0 && reader.received == 0
                               && !reader.examinedEverything && !reader.isStreamCompleted
      requires !isFirstRead ==> && reader.consumed == Boundary(data, delimiterBytes, bodyStart, m)
                                && (reader.examinedEverything || reader.received == reader.consumed)
      modifies reader
      ensures reader.Valid() && !reader.isReaderCompleted
      ensures c == reader.consumed == Boundary(data, delimiterBytes, bodyStart, m)
      ensures c + position <= reader.received && isCompleted == reader.isStreamCompleted
      ensures isEnd == (c + position == reader.received)
      ensures isCompleted && !isEnd ==> position > 0
      ensures old(reader.received) <= reader.received
      ensures old(reader.isStreamCompleted) ==> reader.received == old(reader.received) && reader.isStreamCompleted
      ensures !old(reader.isStreamCompleted) ==> old(reader.received) < reader.received || reader.isStreamCompleted
      ensures !isFirstRead ==> old(reader.consumed) == reader.consumed
      ensures !(isCompleted && isEnd) ==>
                && m + k <= |Scan(data, delimiterBytes, bodyStart)| && |result| <= chunkSize
                && c + position == Boundary(data, delimiterBytes, bodyStart, m + k)
                && Flatten(chunks) + result == DecodedLines(data, delimiterBytes, encoding.decode, bodyStart)[..m + k]
      ensures isCompleted && isEnd ==>
                Flatten(chunks + [result])
                == DecodedLines(data, delimiterBytes, encoding.decode, bodyStart)
                   + (if LinesEnd(data, delimiterBytes, bodyStart) == |data| then []
                      else SplitNonEmpty(encoding.decode(data[c..]), delimiterCharacters))
      ensures isCompleted && isEnd && LinesEnd(data, delimiterBytes, bodyStart) == |data| ==> |result| <= chunkSize
    {
      var buffer;
      buffer, isCompleted, readsAfter := ReadBuffer(isFirstRead, readCount, arrival);
      c := reader.consumed;
      position, isEnd, result, k := ReadLinesOfFile(data, bodyStart, m, reader.received, chunks,
                                                    buffer, isCompleted, list, chunkSize);
    }

    /** The loop of `ReadLinesAsync`: the chunks it yields. The file stream's read sizes are
        `arrival`, indexed by the number of reads so far. Every chunk but the last holds exactly
        `chunkSize` lines; together they are the file's lines after the preamble, followed,
        when the file does not end with a newline, by the fallback split of the last buffer,
        which starts at the line boundary `lastStart`. */
    method ReadChunks(chunkSize: nat, arrival: nat -> nat)
      returns (chunks: seq<seq<string>>, ghost bodyStart: nat, ghost lastLine: nat, ghost lastStart: nat)
      requires Unread() && |delimiterBytes| > 0 && chunkSize > 0
      modifies reader
      ensures bodyStart == BodyStart(reader.data, encoding.preamble, FirstReadLength(|reader.data|, arrival(0)))
      ensures lastLine <= |Scan(reader.data, delimiterBytes, bodyStart)|
      ensures lastStart == Boundary(reader.data, delimiterBytes, bodyStart, lastLine)
      ensures |chunks| >= 1
      ensures forall i :: 0 <= i < |chunks| - 1 ==> |chunks[i]| == chunkSize
      ensures LinesEnd(reader.data, delimiterBytes, bodyStart) == |reader.data| ==> |chunks[|chunks| - 1]| <= chunkSize
      ensures Flatten(chunks)
              == DecodedLines(reader.data, delimiterBytes, encoding.decode, bodyStart)
                 + (if LinesEnd(reader.data, delimiterBytes, bodyStart) == |reader.data| then []
                    else SplitNonEmpty(encoding.decode(reader.data[lastStart..]), delimiterCharacters))
      ensures reader.isReaderCompleted
    {
      lastLine, lastStart := 0, 0;
      var d := delimiterBytes;
      var data := reader.data;
      var isFirstRead := true;
      var list: seq<string> := [];
      chunks := [];
      var readCount := 0;
      bodyStart := BodyStart(data, encoding.preamble, FirstReadLength(|data|, arrival(0)));
      ghost var m: nat := 0;
      while true
        invariant reader.Valid() && !reader.isReaderCompleted && reader.data == data
        invariant bodyStart <= |data| && m <= |Scan(data, d, bodyStart)|
        invariant Flatten(chunks) + list == DecodedLines(data, d, encoding.decode, bodyStart)[..m]
        invariant |list| < chunkSize
        invariant forall i :: 0 <= i < |chunks| ==> |chunks[i]| == chunkSize
        invariant isFirstRead ==> && readCount == 0 && m == 0
                                  && reader.consumed == 0 && reader.received == 0
                                  && !reader.examinedEverything && !reader.isStreamCompleted
        invariant !isFirstRead ==>
          && reader.consumed == Boundary(data, d, bodyStart, m)
          && (reader.examinedEverything || reader.received == reader.consumed)
        decreases |data| - reader.received, if reader.isStreamCompleted then 0 else 1, |data| - reader.consumed
      {
        var position, isEnd, isCompleted;
        ghost var k, c;
        position, isEnd, isCompleted, list, readCount, k, c := ReadRound(data, bodyStart, m, isFirstRead, readCount,
                                                                        chunks, list, chunkSize, arrival);
        isFirstRead := false;
        ghost var read := list;

        chunks, list := Yield(DecodedLines(data, d, encoding.decode, bodyStart), m + k, chunks, list, chunkSize,
                              isCompleted && isEnd);
        if isCompleted && isEnd {
          assert chunks[|chunks| - 1] == read;
          reader.Complete();
          lastLine, lastStart := m, c;
          break;
        }
        reader.AdvanceTo(Some(position));
        m := m + k;
      }
    }
  }
}
