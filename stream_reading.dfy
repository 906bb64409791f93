/**
 * Reading a run file back (`StreamReader.ReadLineAsync`, called by `MergeFileItem.ReadNext` in
 * SortFile/FileSorting.cs until it answers null). A line ends at `'\r'`, at `'\n'` or at
 * `"\r\n"`; a break at the very end of the text starts no further line, and an empty text has
 * no line at all.
 */
module StreamReading {
  import opened Encodings
  import CommonFileSaving

  predicate IsLineBreak(c: char) {
    c == '\r' || c == '\n'
  }

  /** No line break anywhere in `line`. */
  predicate Unbroken(line: string) {
    forall i :: 0 <= i < |line| ==> !IsLineBreak(line[i])
  }

  /** Every one of `lines` is free of line breaks. */
  predicate AllUnbroken(lines: seq<string>) {
    forall i :: 0 <= i < |lines| ==> Unbroken(lines[i])
  }

  /** Where the first line of `text` ends: its first line break, or the end of the text. */
  function LineEnd(text: string): (i: nat)
    ensures i <= |text|
    ensures i < |text| ==> IsLineBreak(text[i])
    ensures forall j :: 0 <= j < i ==> !IsLineBreak(text[j])
  {
    if text == [] || IsLineBreak(text[0]) then 0
    else
      var i := LineEnd(text[1..]);
      assert forall j :: 1 <= j < i + 1 ==> text[j] == text[1..][j - 1];
      i + 1
  }

  /** Where the second line starts: past `"\r\n"` as one break, or past a single break. */
  function NextLine(text: string): (next: nat)
    requires LineEnd(text) < |text|
    ensures LineEnd(text) < next <= |text|
  {
    var i := LineEnd(text);
    if text[i] == '\r' && i + 1 < |text| && text[i + 1] == '\n' then i + 2 else i + 1
  }

  /** The lines successive `ReadLine` calls return before the first null. */
  function ReadAllLines(text: string): (lines: seq<string>)
    ensures AllUnbroken(lines)
    ensures text == [] <==> lines == []
    decreases |text|
  {
    if text == [] then []
    else if LineEnd(text) == |text| then [text]
    else [text[..LineEnd(text)]] + ReadAllLines(text[NextLine(text)..])
  }

  /** The text of `lines` written one after another with `newLine` between neighbours, as
      `Common/FileSaving.cs` frames them when no preamble is written. */
  function JoinLines(lines: seq<string>, newLine: string): string
  {
    if lines == [] then ""
    else if |lines| == 1 then lines[0]
    else lines[0] + newLine + JoinLines(lines[1..], newLine)
  }

  /** `Environment.NewLine`: `"\n"` on Unix, `"\r\n"` on Windows. */
  predicate PlatformNewLine(newLine: string) {
    newLine == "\n" || newLine == "\r\n"
  }

  /** Text `ReadAllLines` gives back line for line: no line holds a break, and the last line is
      not empty (a break at the end starts no line). */
  predicate RoundTrips(lines: seq<string>) {
    AllUnbroken(lines) && (lines == [] || lines[|lines| - 1] != [])
  }

  /** The first line of `first + newLine + more` is `first`, and the next starts past the newline. */
  lemma FirstLine(first: string, newLine: string, more: string)
    requires PlatformNewLine(newLine) && Unbroken(first)
    ensures var text := first + newLine + more;
            && LineEnd(text) == |first| && text[..LineEnd(text)] == first
            && NextLine(text) == |first| + |newLine| && text[NextLine(text)..] == more
  {
    var text := first + newLine + more;
    assert forall j :: 0 <= j < |first| ==> text[j] == first[j];
    assert text[|first|] == newLine[0];
    assert LineEnd(text) == |first|;
    assert text[..|first|] == first;
    if newLine == "\r\n" {
      assert text[|first| + 1] == '\n';
    }
  }

  /** Joining lines free of breaks and reading them back gives the lines, unless the last is
      empty. */
  lemma {:induction false} ReadJoined(lines: seq<string>, newLine: string)
    requires PlatformNewLine(newLine) && RoundTrips(lines)
    ensures ReadAllLines(JoinLines(lines, newLine)) == lines
    decreases |lines|
  {
    if |lines| == 1 {
      assert Unbroken(lines[0]);
      assert LineEnd(lines[0]) == |lines[0]|;
    } else if |lines| > 1 {
      var rest := lines[1..];
      assert Unbroken(lines[0]);
      FirstLine(lines[0], newLine, JoinLines(rest, newLine));
      assert RoundTrips(rest) by {
        assert forall i :: 0 <= i < |rest| ==> rest[i] == lines[i + 1];
      }
      ReadJoined(rest, newLine);
    }
  }

  /** A record holding a `'\r'` comes back as two lines. */
  lemma CarriageReturnSplitsRecord()
    ensures ReadAllLines(JoinLines(["1. a\rb"], "\n")) == ["1. a", "b"]
  {
    var text := "1. a\rb";
    assert JoinLines([text], "\n") == text;
    assert !IsLineBreak(text[0]) && !IsLineBreak(text[1]) && !IsLineBreak(text[2]) && !IsLineBreak(text[3]);
    assert LineEnd(text) == 4;
    assert NextLine(text) == 5;
    assert text[..4] == "1. a" && text[5..] == "b";
    assert LineEnd("b") == 1;
  }

  /** A run holding only the empty line is a zero-byte file, and nothing is read back. */
  lemma LoneEmptyLineVanishes(newLine: string)
    ensures ReadAllLines(JoinLines([""], newLine)) == []
  {
  }

  /** A text that may open with U+FEFF, which `StreamReader` would take for a byte-order mark. */
  predicate OpensWithMark(lines: seq<string>) {
    lines != [] && lines[0] != [] && lines[0][0] == '\U{FEFF}'
  }

  /** A line that keeps its characters when read back on its own: no line break, and no U+FEFF
      at its start. */
  predicate Plain(line: string) {
    Unbroken(line) && (line == [] || line[0] != '\U{FEFF}')
  }

  predicate AllPlain(lines: seq<string>) {
    forall i :: 0 <= i < |lines| ==> Plain(lines[i])
  }

  /** What the model relies on of the encoding and `StreamReader`: the bytes the sort's writer
      frames for a run decode to the lines joined by the newline, for every run without line
      breaks that does not open with U+FEFF. `Environment.NewLine` is `"\n"` or `"\r\n"`. */
  ghost predicate ReadsBack(encoding: Encoding, newLine: string) {
    && PlatformNewLine(newLine)
    && forall run: seq<string> {:trigger JoinLines(run, newLine)} ::
         AllUnbroken(run) && !OpensWithMark(run) ==>
           encoding.decode(CommonFileSaving.Framed([], encoding.encode(newLine), encoding.encode, run))
           == JoinLines(run, newLine)
  }

  /** Under `ReadsBack`, a run that round-trips is read back as written. */
  lemma ReadBackRun(encoding: Encoding, newLine: string, run: seq<string>)
    requires ReadsBack(encoding, newLine) && RoundTrips(run) && !OpensWithMark(run)
    ensures ReadAllLines(encoding.decode(CommonFileSaving.Framed([], encoding.encode(newLine), encoding.encode, run))) == run
  {
    assert encoding.decode(CommonFileSaving.Framed([], encoding.encode(newLine), encoding.encode, run)) == JoinLines(run, newLine);
    ReadJoined(run, newLine);
  }
}
