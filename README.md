# DataSort in Dafny

A model of the sort engine of DataSort. DataSort is an external merge sort over text files whose lines are records of the form `"<UInt64>. <text>"`. The model also covers the generator that writes such files. Records are ordered by their text, compared ordinally, and ties are broken by the number.

The model follows the program's own pieces:

- **Record layout and order**:
  - `data_description.dfy`: the constants.
  - `data_comparer.dfy`: the comparer the sort uses.
  - `row_comparer.dfy` and `row.dfy`: the two older variants.
  - `decimal.dfy`: decimal formatting and `UInt64.Parse`, restricted to ASCII digit strings, with overflow as a failure.
  - `ordinal.dfy`: ordinal string comparison over UTF-16 code units. A character above U+FFFF is compared through its surrogate pair, as .NET holds it. Only the sign of .NET's result is modelled, as -1, 0 or 1.
  - `spans.dfy`: `IndexOf`.
  - The main result is that the comparer is a total preorder on well-formed records. Text decides first and the number breaks ties. The number is parsed only on a tie.
- **Line chunking** (`data_reading.dfy`, with `lines.dfy` for delimiter search, decoding and `String.Split`):
  - The reader skips the encoding preamble, cuts the bytes at every newline delimiter and yields chunks of at most `chunkSize` lines. Only the end-of-stream fallback, on a file that does not end with a newline, can make the last chunk longer.
  - `ReadLinesAsync` is proved to return every delimited line of the file in order, in full chunks followed by a last chunk. At end of stream, the split of the last unterminated bytes is appended.
  - The end-of-stream fallback decodes the whole remaining buffer, not only its unread part. When the file has no trailing newline and the last buffer holds more than one line, lines read from that buffer are repeated. The model keeps this behaviour as written, and `FallbackRepeatsLinesOfTheLastBuffer` exhibits it.
- **Writers**:
  - `file_saving.dfy` is the sort's writer. The first write is preceded by the encoding preamble (when configured), every later write by a newline, so the file has no trailing newline.
  - `generate_file_saving.dfy` is the generator's writer: data, then a newline.
  - Each writer is a class whose `content` holds the bytes written so far. Each is proved equal to a framing function of the records written.
- **Run names** (`file_name_generation.dfy`): a class with the `index` counter. Names are `<name>-<index><extension>`, starting at index 1. The counter wraps at 2^64, as `Interlocked.Increment` on a `ulong` does.
- **Record generator** (`data_generation.dfy`): writes digits, then `". "`, then text drawn from `TextCharacters`, into pooled character buffers. The random draws are parameters constrained to the ranges `System.Random` is asked for.
- **Split and merge** (`file_sorting.dfy`, with `sorting.dfy` for `List.Sort`):
  - The split phase sorts each chunk and saves it as a run under a new name.
  - The merge reads each run file back as `StreamReader.ReadLineAsync` does (`stream_reading.dfy`). A line ends at `'\r'`, `'\n'` or `"\r\n"`, and a zero-byte file has no line. So a run file holds the sorted chunk only under three conditions. The encoding must decode what it encoded. No line may hold a line break or start with U+FEFF. The chunk must not be the lone empty line. `CarriageReturnSplitsRecord` and `LoneEmptyLineVanishes` show what happens otherwise.
  - The merge phase opens a cursor on every non-empty run and sorts the cursors with the reverse comparer. Each round writes the tail's current line, advances that cursor, and reinserts it at the position `BinarySearch` gives, or disposes it when its run is exhausted.
  - The main theorems:
    - the merged output is a permutation of the lines read back from the run files;
    - under the read-back conditions above, those are the lines read from the source;
    - it is in ascending record order when all of the lines are records without line breaks;
    - every run file that reads back at least one line is handed over for deletion, and no other;
    - the merge succeeds whenever every line is a record without line breaks that fits the line buffer and the output file can be preallocated.
- **Library abstractions** (`encodings.dfy`, `pipe_reader.dfy`, `wrappers.dfy`): `Encoding` (preamble plus abstract encode/decode functions), `ArrayPool` (the set of lent arrays), `PipeReader`, and `Option`/`Result` with the .NET exception kinds as error values.

The runs are `RunFile` values: a path and the lines `StreamReader.ReadLineAsync` returns for the bytes written to the file. The file length after preallocation is the larger of the source length and the bytes written. When the output is shorter than the source, the rest of the preallocated length remains in the file.

## Model

| member | source | states |
|---|---|---|
| DataDescription.SeparatorConstantsAgree | Common/DataDescription.cs:11-15 | `TextSeparator` is `'.'` then `' '`, and its length is `TextSeparatorLength` (2) |
| DataDescription.TextCharactersAlphanumeric | Common/DataDescription.cs:9 | `TextCharacters` has 62 characters, all ASCII letters or digits |
| DataDescription.TextCharactersExcludeSeparator | Common/DataDescription.cs:9-14 | neither separator character occurs in `TextCharacters` |
| DataDescription.TextCharactersExcludeLastTextCharacter | Common/DataDescription.cs:29-38 | the DEBUG end marker the bar character does not occur in `TextCharacters` |
| DataDescription.TextLengthBounds | Common/DataDescription.cs:18-24 | `0 < TextMinLength <= TextMaxLength` in both build configurations |
| DataDescription.Repeat | Common/DataDescription.cs:26 | `new string(c, count)`: `count` copies of `c` |
| DataDescription.MaxString | Common/DataDescription.cs:26-33 | its length is the digits of `UInt64.MaxValue`, plus 2, plus `TextMaxLength`, plus 1 in DEBUG |
| DataDescription.MaxStringLength | Common/DataDescription.cs:26-33 | `MaxString` has length 22 + `TextMaxLength` (+1 in DEBUG) |
| Decimal.ToDigits | GenerateFile/DataGeneration.cs:39-40 | the formatted number is a non-empty string of decimal digits |
| Decimal.FormatValue | GenerateFile/DataGeneration.cs:39-40 | the digits written for `n` denote `n` |
| Decimal.Parse | SortFile/DataComparer.cs:38 | `UInt64.Parse` accepts exactly non-empty digit strings whose value is at most `UInt64.MaxValue`, and returns that value; a larger value is an overflow error |
| Decimal.ParseFormat | SortFile/DataComparer.cs:38 | parsing the formatted digits of a `UInt64` gives the number back |
| Decimal.FormatUInt64Length | Common/DataDescription.cs:26 | a `UInt64` has 1 to 20 digits, and `UInt64.MaxValue` has 20 |
| Ordinal.CodeUnits | SortFile/DataComparer.cs:21 | a character below U+10000 is one code unit, itself; any other is a high and a low surrogate from which its code point is recovered |
| Ordinal.Utf16Injective | SortFile/DataComparer.cs:21 | strings with the same UTF-16 form are equal |
| Ordinal.CompareOrdinal | SortFile/DataComparer.cs:21 | the sign of the comparison of the two strings' UTF-16 code units, as -1, 0 or 1; 0 exactly for equal strings |
| Ordinal.PrefixFirst | SortFile/DataComparer.cs:21 | a proper prefix sorts before the longer string |
| Ordinal.FirstDifference | SortFile/DataComparer.cs:21 | after a common prefix, the first differing character decides, compared through its code units |
| Ordinal.CharacterOrder | SortFile/DataComparer.cs:21 | two characters are ordered by code point when both are below U+10000 or both above; otherwise the one above U+FFFF sorts after U+0000-U+D7FF and before U+E000-U+FFFF |
| Ordinal.SupplementaryBeforeHighBasicPlane | SortFile/DataComparer.cs:21 | U+1F600 sorts before U+FF01 |
| Ordinal.Antisymmetric | SortFile/DataComparer.cs:21 | swapping the arguments negates the result |
| Ordinal.Transitive | SortFile/DataComparer.cs:21 | ordinal `<=` is transitive, and strict when one step is strict |
| Spans.IndexOfFirst | SortFile/DataComparer.cs:31 | `IndexOf` returns the first occurrence of the pattern, or -1 when there is none |
| Spans.IndexOfElement | SortFile/RowComparer.cs:28 | the index of the first occurrence of a character, or -1 |
| DataComparer.FindDelimiterIndex | SortFile/DataComparer.cs:30-36 | a found delimiter is after at least one character and leaves room for `". "`; failure is an `ArgumentException` |
| DataComparer.FindDelimiterIndexIsFirstSeparator | SortFile/DataComparer.cs:30-36 | succeeds exactly when `". "` occurs but not at index 0, and then returns its first occurrence |
| DataComparer.RecordParts | SortFile/DataComparer.cs:30-39 | on `digits + ". " + text` the delimiter is at the digit count, the number part is the digits and the text part is `text` |
| DataComparer.GetText | SortFile/DataComparer.cs:39 | the text is everything after the delimiter and separator; a slice start past the end is out of range |
| DataComparer.GetNumber | SortFile/DataComparer.cs:38 | succeeds exactly when the prefix parses, giving its value, at most `UInt64.MaxValue` |
| DataComparer.CompareAt | SortFile/DataComparer.cs:18-28 | the four-argument overload fails exactly when a text slice fails, or when the texts tie and a number does not parse |
| DataComparer.Compare | SortFile/DataComparer.cs:13-16 | the two-argument overload fails when either delimiter is missing, and otherwise equals the four-argument overload at the two delimiters |
| DataComparer.TextDecides | SortFile/DataComparer.cs:19-24 | differing texts decide by their ordinal order, whatever the numbers are, even unparsable ones |
| DataComparer.NumberBreaksTies | SortFile/DataComparer.cs:26-27 | equal texts are ordered by the parsed numbers, and a parse failure is then the result |
| DataComparer.TieBreakOn | SortFile/DataComparer.cs:26-27 | records with equal texts and the numbers 1 and 5 are ordered 1 first, in both argument orders |
| DataComparer.TieBreakExample | SortFile/DataComparer.cs:26-27 | `"1. apple"` sorts before `"5. apple"` and vice versa |
| DataComparer.CompareIsKeyOrder | SortFile/DataComparer.cs:18-28 | on records, the result is negative exactly for (text, number) lexicographically smaller, and zero exactly for equal text and number |
| DataComparer.CompareReflexive | SortFile/DataComparer.cs:18-28 | a record compares equal to itself |
| DataComparer.CompareAntisymmetric | SortFile/DataComparer.cs:18-28 | swapping two records negates the result |
| DataComparer.CompareTransitive | SortFile/DataComparer.cs:18-28 | `<=` on records is transitive, and strict when one step is strict |
| DataComparer.LeTotal | SortFile/DataComparer.cs:18-28 | any two records are comparable |
| DataComparer.LeTotalPreorder | SortFile/DataComparer.cs:18-28 | the record order is a total preorder on well-formed records |
| DataComparer.GeTotalPreorder | SortFile/FileSorting.cs:124 | the reversed order the cursors are sorted by is a total preorder too |
| RowComparer.GetText | SortFile/RowComparer.cs:27-34 | the delimiter is the first `'.'`; it fails with `ArgumentException` when that is missing or at index 0, and is out of range when it is the last character; the text starts two characters after it |
| RowComparer.Compare | SortFile/RowComparer.cs:12-22 | the sign of the result, as -1, 0 or 1; a failing `GetText` of either argument is the result, x's first; differing texts decide ordinally; equal texts succeed exactly when both numbers parse, fail with x's parse error first, and are ordered by the numbers, the smaller first |
| RowComparer.DotSpaceDelimiter | SortFile/RowComparer.cs:27-34 | when the first `'.'` is followed by a space, it is where `DataComparer` finds `". "` |
| RowComparer.AgreesWithDataComparer | SortFile/RowComparer.cs:12-22 | on records whose first `'.'` is followed by a space, the result equals `DataComparer.Compare` |
| RowComparer.DisagreesWithoutSpace | SortFile/RowComparer.cs:27-34 | `"1.xb"` is accepted by this comparer and rejected by `DataComparer` |
| Rows.MaxString | SortFile/Row.cs:11-13 | the digits of `UInt64.MaxValue`, `". "`, 1024 `'Z'`s and the bar character |
| Rows.MaxStringLength | SortFile/Row.cs:11-13 | `MaxStringLength` is 1047 |
| Rows.NewRow | SortFile/Row.cs:15-28 | construction succeeds exactly when the first `'.'` is past index 0 and the prefix parses; `TextStart` is that index and `Number` the parsed value; failure is an `ArgumentException` |
| Rows.Text | SortFile/Row.cs:34 | the text is the data from `TextStart + 2` to the end; a start past the end is out of range |
| Rows.CompareTo | SortFile/Row.cs:42-49 | succeeds when both texts exist; 0 exactly for equal text and number; differing texts decide ordinally; for equal texts the smaller number sorts first |
| Rows.OperatorsConsistent | SortFile/Row.cs:51-57 | `<`, `<=`, `>` and `>=` agree with the sign of `CompareTo`, and `!=` negates `==` |
| Rows.EqualityIsIdentity | SortFile/Row.cs:41 | two rows over equal text in different memory are unequal, though `CompareTo` returns 0 |
| Rows.AgreesWithRowComparer | SortFile/Row.cs:42-49 | on constructed rows, `CompareTo` equals `RowComparer.Compare` on their data |
| FileNameGeneration.FileNameInjective | SortFile/FileNameGeneration.cs:26 | distinct indices give distinct file names |
| FileNameGeneration.ChooseDirectory | SortFile/FileNameGeneration.cs:18-21 | a non-empty working directory is used; otherwise the source file's directory, with null as `""` |
| FileNameGeneration.FileNameGeneration.New | SortFile/FileNameGeneration.cs:7-11 | a null directory, name or extension is an `ArgumentNullException`; otherwise the parts are stored and the counter is 0 |
| FileNameGeneration.FileNameGeneration.Create | SortFile/FileNameGeneration.cs:17-22 | the directory, base name and extension are taken from the source path, and the counter starts at 0 |
| FileNameGeneration.FileNameGeneration.GetNewFilePath | SortFile/FileNameGeneration.cs:24-28 | the counter is incremented (modulo 2^64) before use, only it changes, and the path is the one for the new index |
| FileNameGeneration.FileNameGeneration.PathsDistinct | SortFile/FileNameGeneration.cs:24-28 | different indices give different paths when `Path.Combine` keeps the run names apart in the directory, as it does for names that are not rooted |
| Lines.FindFirst | SortFile/DataReading.cs:71 | the delimiter search returns its first occurrence from the given position, or -1 |
| Lines.IndexOfAny | SortFile/DataReading.cs:76 | the first position of any separator character, or -1 |
| Lines.SplitPiecesClean | SortFile/DataReading.cs:76 | `Split` with `RemoveEmptyEntries` yields only non-empty pieces free of separators |
| Lines.SplitNonEmptyKeepsText | SortFile/DataReading.cs:76 | the pieces, joined, are the string without its separator characters |
| Lines.DecodedLinesInWindow | SortFile/DataReading.cs:64-73 | the lines found in a buffer window starting at a line boundary are a prefix of the lines of the whole file from there, and all of them when the window reaches the end |
| DataReading.LinesReadTakesWholeSegments | SortFile/DataReading.cs:70-85 | without the fallback, `ReadLines` takes at most the free room, only whole delimited segments, stops after the last one taken, and leaves no delimiter unread unless the list is full |
| DataReading.LinesReadProgress | SortFile/DataReading.cs:74-85 | at end of stream, a read that stops early has consumed something and filled the list |
| DataReading.LinesReadOutcome | SortFile/DataReading.cs:68-89 | the items are the first delimited lines, plus the split of the decoded buffer when the fallback fires; the position is after the last delimiter taken, or the end |
| DataReading.LinesReadWithoutFallback | SortFile/DataReading.cs:70-86 | unless the buffer was consumed at end of stream, the items are exactly the first delimited lines |
| DataReading.FallbackRepeatsLinesOfTheLastBuffer | SortFile/DataReading.cs:74-78 | the completed buffer `"a\nb"` gives the items `a`, `a`, `b`: the fallback repeats lines already taken |
| DataReading.TrailingNewlineReadsEachLineOnce | SortFile/DataReading.cs:71-73 | the completed buffer `"a\nb\n"` gives `a`, `b` |
| DataReading.Yield | SortFile/DataReading.cs:54-57 | a full list, or the last one, is yielded and cleared; chunks before the last hold exactly `chunkSize` lines |
| DataReading.LastRoundFits | SortFile/DataReading.cs:70-85 | when the file ends at a line boundary, the `ReadLines` call that reaches the end takes whole lines only, at most as many as the list has room for |
| DataReading.Round | SortFile/DataReading.cs:52-64 | one pass of the loop extends the chunks by the next delimited lines of the file, adding no more lines than the list has room for, or at the end completes them with the rest; when the file ends at a line boundary, the last pass also stays within the room |
| DataReading.DataReading.Create | SortFile/DataReading.cs:12-24 | a null encoding is an `ArgumentNullException`; otherwise the delimiter is the encoded newline and nothing is read yet |
| DataReading.DataReading.ReadPreamble | SortFile/DataReading.cs:91-100 | a buffer starting with the whole preamble is advanced past it; otherwise the default position is returned and nothing is consumed |
| DataReading.DataReading.ReadLines | SortFile/DataReading.cs:68-89 | the loop appends the items `LinesRead` describes and returns its position, with `End` exactly when the buffer is consumed |
| DataReading.DataReading.ReadLinesOfFile | SortFile/DataReading.cs:52 | a read of the buffer at the current boundary extends the lines read so far by the file's next delimited lines, never past the list's capacity unless the fallback fires |
| DataReading.DataReading.ReadBuffer | SortFile/DataReading.cs:41-47 | the first read also consumes the preamble and reads again; the buffer is the unconsumed bytes received |
| DataReading.DataReading.ReadRound | SortFile/DataReading.cs:41-64 | one loop pass: a read, then `ReadLines` from the current line boundary, with the new boundary and lines; the list stays within `chunkSize` unless the fallback fires |
| DataReading.DataReading.ReadChunks | SortFile/DataReading.cs:38-65 | the chunks, joined, are the file's delimited lines after the preamble, plus the fallback split at the end; all but the last hold `chunkSize` lines, and the last at most `chunkSize` when the file ends at a line boundary |
| DataReading.DataReading.ReadLinesAsync | SortFile/DataReading.cs:33-66 | `chunkSize <= 0` is an `ArgumentOutOfRangeException` with nothing read; otherwise as `ReadChunks`, including the bound on the last chunk, and the reader is completed |
| CommonFileSaving.FramedLength | Common/FileSaving.cs:54-62 | the file length is the preamble, plus the encoded records, plus one newline between each two |
| CommonFileSaving.FramedStartsWithPreamble | Common/FileSaving.cs:54-62 | the file starts with the preamble, then the first record |
| CommonFileSaving.FramedEndsWithLastRecord | Common/FileSaving.cs:54-62 | the file ends with the last record: there is no trailing newline |
| CommonFileSaving.FramedAppend | Common/FileSaving.cs:54-62 | one more record adds the preamble when it is the first, else a newline, then the record |
| CommonFileSaving.FileSaving.Create | Common/FileSaving.cs:12-29 | a null encoding is an `ArgumentNullException`; a failed `SetLength` returns the buffer and fails; otherwise a buffer of at least `maxBufferSize` is rented |
| CommonFileSaving.FileSaving.WritePreamble | Common/FileSaving.cs:37-47 | writes and counts the preamble when configured, and nothing (0) otherwise |
| CommonFileSaving.FileSaving.WriteNewLine | Common/FileSaving.cs:49-52 | appends the newline bytes and returns their count |
| CommonFileSaving.FileSaving.WritePrefix | Common/FileSaving.cs:54-55 | the first call writes the preamble, later ones a newline; `isFirstLine` becomes 1 |
| CommonFileSaving.FileSaving.WriteData | Common/FileSaving.cs:57-64 | appends the prefix and the encoded data, and returns exactly the number of bytes appended; data longer than the buffer is an `ArgumentException` after the prefix |
| CommonFileSaving.FileSaving.Dispose | Common/FileSaving.cs:66-76 | the rented buffer goes back to the pool |
| GenerateFileSaving.TerminatedIsFramedPlusNewLine | GenerateFile/FileSaving.cs:40-45 | every record is newline-terminated: the file is the sort writer's framing plus one final newline |
| GenerateFileSaving.FileSaving.Create | GenerateFile/FileSaving.cs:14-24 | the encoding defaults to the given default (UTF-8); a failed `SetLength` fails without returning the buffer; the new file is the empty framing |
| GenerateFileSaving.FileSaving.WritePreamble | GenerateFile/FileSaving.cs:32-38 | appends the preamble and returns its length; before the first record it keeps the file equal to what was written before the records, then `Terminated` of the records |
| GenerateFileSaving.FileSaving.WriteData | GenerateFile/FileSaving.cs:40-45 | appends the encoded data and then the newline, and returns data bytes plus newline length; the record joins the records written, and the file stays what was written before them plus `Terminated` of them |
| GenerateFileSaving.FileSaving.Dispose | GenerateFile/FileSaving.cs:47-57 | the rented buffer goes back to the pool |
| DataGeneration.Letters | GenerateFile/DataGeneration.cs:47-51 | each drawn index picks its character of `TextCharacters` |
| DataGeneration.BufferLengthIsMaxStringLength | GenerateFile/DataGeneration.cs:19 | the buffers are rented at `MaxString.Length` |
| DataGeneration.MaxStringIsGenerated | GenerateFile/DataGeneration.cs:38-59 | the largest number with all-`'Z'` text of maximal length generates exactly `MaxString` |
| DataGeneration.GeneratedRecordFits | GenerateFile/DataGeneration.cs:19-35 | every generated record fits a buffer of `MaxString.Length` |
| DataGeneration.GeneratedRecordWellFormed | GenerateFile/DataGeneration.cs:38-58 | `DataComparer` finds the delimiter at the digit count, parses the drawn number back, and the text is the drawn letters (plus the bar character in DEBUG) |
| DataGeneration.GeneratedTextHasNoSeparator | GenerateFile/DataGeneration.cs:47-51 | generated text is alphanumeric and holds no `'.'` |
| DataGeneration.WriteRecord | GenerateFile/DataGeneration.cs:38-58 | the buffer starts with digits, `". "`, the letters (and the bar character in DEBUG), and the rest is untouched |
| DataGeneration.WriteSeparator | GenerateFile/DataGeneration.cs:43-45 | `". "` is written at the position, and nothing else changes |
| DataGeneration.WriteLetters | GenerateFile/DataGeneration.cs:47-51 | the drawn letters are written at the position, and nothing else changes |
| DataGeneration.DataGeneration.Create | GenerateFile/DataGeneration.cs:10-23 | `buffersCount <= 0` is an `ArgumentOutOfRangeException`; otherwise exactly `buffersCount` fresh buffers are rented |
| DataGeneration.DataGeneration.NextData | GenerateFile/DataGeneration.cs:28-36 | an index outside the buffers is an `ArgumentOutOfRangeException`; otherwise the generated record is written into that buffer and returned |
| DataGeneration.DataGeneration.Dispose | GenerateFile/DataGeneration.cs:71-76 | every buffer goes back to the pool and the list is empty |
| Sorting.InsertionSort | SortFile/FileSorting.cs:84 | the result is a permutation of the input, sorted by the keys |
| Sorting.ListSort | SortFile/FileSorting.cs:84 | `List.Sort` fails with `InvalidOperationException` exactly when a list of two or more holds a key the comparer rejects; otherwise it gives a sorted permutation |
| FileSorting.MergeFileItem.Open | SortFile/FileSorting.cs:191-205 | an empty run gives null; otherwise a cursor on the run with its first line current |
| FileSorting.MergeFileItem.ReadNext | SortFile/FileSorting.cs:209 | succeeds exactly when a line remains, and makes it current; otherwise the current line is null |
| FileSorting.MergeFileItem.Dispose | SortFile/FileSorting.cs:211-219 | the cursor is disposed |
| FileSorting.ReverseCompareIsReversedOrder | SortFile/FileSorting.cs:223-231 | two nulls tie, null sorts after an item, and items compare by the record order with the arguments swapped; it is antisymmetric |
| FileSorting.ReverseCompareReversesOrder | SortFile/FileSorting.cs:223-231 | the reverse comparer accepts every pair of records and turns the record order round |
| FileSorting.BinarySearch | SortFile/FileSorting.cs:140-141 | `List.BinarySearch` returns an index of an equal item, or the complement of the insertion point; on descending keys, its position keeps the order |
| FileSorting.InsertKeepsDescending | SortFile/FileSorting.cs:140-141 | inserting at the insertion point keeps the working set descending |
| FileSorting.WriteTail | SortFile/FileSorting.cs:133-136 | writing the tail's line keeps written + pending = all lines; that line is the least pending one, so the output stays ascending |
| FileSorting.MergeStepExhausted | SortFile/FileSorting.cs:142-145 | dropping an exhausted cursor keeps the merge invariant |
| FileSorting.MergeStepReinserted | SortFile/FileSorting.cs:139-141 | reinserting an advanced cursor at the insertion point keeps the merge invariant |
| FileSorting.MergeRoundInvariant | SortFile/FileSorting.cs:132-146 | one round of the loop keeps the merge invariant: a permutation so far, valid runs, descending heads and ascending output |
| FileSorting.MergeRoundReady | SortFile/FileSorting.cs:139-141 | the advanced cursor's line meets what `BinarySearch` needs |
| FileSorting.MergeStep | SortFile/FileSorting.cs:133-145 | writes the tail's current line, then advances it and finds its insertion point, or disposes it when exhausted |
| FileSorting.MergeRound | SortFile/FileSorting.cs:132-146 | one loop iteration on the working list, with the written line, the new list and the paths queued for deletion |
| FileSorting.MergeLoop | SortFile/FileSorting.cs:132-146 | the loop ends; on success the output is every line of the runs, ascending when the runs are, framed by the writer, and every cursor's path is queued for deletion; it succeeds whenever every line is a record that fits the buffer |
| FileSorting.NonEmpty | SortFile/FileSorting.cs:114-118 | the runs kept are non-empty runs of the input |
| FileSorting.NonEmptyPending | SortFile/FileSorting.cs:114-118 | dropping empty runs loses no line |
| FileSorting.OpenItems | SortFile/FileSorting.cs:114-119 | one fresh cursor per non-empty run, in order, each on its first line |
| FileSorting.ReorderedCursors | SortFile/FileSorting.cs:124 | sorting the cursors keeps them and their lines |
| FileSorting.FirstLinesOfRuns | SortFile/FileSorting.cs:124 | when the runs hold records, the cursors' first lines are records, so the sort succeeds |
| FileSorting.MergeStart | SortFile/FileSorting.cs:121-124 | the sorted cursors start the merge invariant: nothing written, every line pending, descending heads |
| FileSorting.OpenRuns | SortFile/FileSorting.cs:111-124 | opens and sorts the cursors; a failed sort disposes them all; otherwise the merge starts with all of them; it succeeds when all lines are records |
| FileSorting.DisposeAll | SortFile/FileSorting.cs:150-152 | every cursor left is disposed |
| StreamReading.LineEnd | SortFile/FileSorting.cs:209 | the first line read ends at the first `'\r'` or `'\n'`, or at the end of the text |
| StreamReading.NextLine | SortFile/FileSorting.cs:209 | the next line starts past the break, past both characters of `"\r\n"` |
| StreamReading.ReadAllLines | SortFile/FileSorting.cs:191-209 | the lines read hold no line break, and there are none exactly when the text is empty, as for the zero-byte file `OpenAsync` skips |
| StreamReading.FirstLine | SortFile/FileSorting.cs:209 | for a line without breaks followed by the platform newline, the first line read is that line and the rest starts after the newline |
| StreamReading.ReadJoined | SortFile/FileSorting.cs:209 | lines joined by the platform newline read back as themselves when none holds a break and the last is not empty |
| StreamReading.CarriageReturnSplitsRecord | SortFile/FileSorting.cs:209 | the record `"1. a\rb"` reads back as the two lines `"1. a"` and `"b"` |
| StreamReading.LoneEmptyLineVanishes | SortFile/FileSorting.cs:191-197 | a run holding only the empty line reads back as no line at all |
| StreamReading.ReadBackRun | SortFile/FileSorting.cs:191-209 | when the encoding reads back, the bytes the writer frames for a run without breaks and without a final empty line read back as the run |
| FileSorting.WriteLines | SortFile/FileSorting.cs:88-90 | the run's lines are written in order; it succeeds exactly when each fits the buffer |
| FileSorting.SavedPending | SortFile/FileSorting.cs:72-76 | the sorted runs hold exactly the lines read |
| FileSorting.WellFormedStartsWithDigit | SortFile/DataComparer.cs:30-38 | a record the comparer accepts starts with a digit |
| FileSorting.SortedRunReadsBack | SortFile/FileSorting.cs:191-209 | a sorted chunk of plain lines other than `[""]` is read back by `StreamReader` exactly as sorted, given an encoding that reads back |
| FileSorting.ReadsBackSorted | SortFile/FileSorting.cs:191-209 | the same, under the conditions as preconditions |
| FileSorting.SavedReadBack | SortFile/FileSorting.cs:191-209 | with plain lines and no lone empty line, the run files read back as the sorted chunks |
| FileSorting.RecordsReadable | SortFile/FileSorting.cs:191-209 | records without line breaks are plain, and no chunk of them is the lone empty line |
| FileSorting.SavedForMerge | SortFile/FileSorting.cs:72-118 | the run paths are the successive names; under the read-back conditions the run files hold the lines read, each run ascending, and records that fit when the lines read are |
| FileSorting.ChunksSavable | SortFile/FileSorting.cs:84-90 | when every line read is a record that fits the buffer, no chunk fails to sort or save |
| FileSorting.RunsOfLines | SortFile/FileSorting.cs:84-96 | runs saved from records that fit the buffer hold only such records |
| FileSorting.SavedAscending | SortFile/FileSorting.cs:84-90 | every saved run is in ascending record order |
| FileSorting.MergeAndClose | SortFile/FileSorting.cs:131-153 | the loop, then the output is closed and the cursors left are disposed; at most one cursor, the one whose write failed, is left open; the file length is the larger of the preallocated and written lengths |
| FileSorting.FileSorting.constructor | SortFile/FileSorting.cs:11-22 | the chunk size is `MaxReadLines`, the line buffer is the encoded length of `MaxString`, and the names start at counter 0 |
| FileSorting.FileSorting.WriteRun | SortFile/FileSorting.cs:87-91 | a writer without preamble writes every line and returns its buffer; lines that fit are written, framed by newlines |
| FileSorting.FileSorting.SaveData | SortFile/FileSorting.cs:83-96 | sorts the chunk and saves it under a new name: a permutation, ascending, framed by the writer; the run file's lines are what `StreamReader` reads back from those bytes, and equal the sorted chunk under the read-back conditions; a chunk the sort rejects is an `InvalidOperationException` before a name is taken; the buffer is returned |
| FileSorting.FileSorting.SaveRuns | SortFile/FileSorting.cs:72-96 | saves the chunks in order under successive names; each run file is a sorted permutation of its chunk, holds the writer's framing of the run and the lines `StreamReader` reads back from it; `lineCount` is the number of lines; it fails only on a chunk that cannot be sorted or saved, and always on one the sort rejects |
| FileSorting.FileSorting.SplitFile | SortFile/FileSorting.cs:63-105 | a chunk size that is not positive is `ArgumentOutOfRangeException` before any name is taken; otherwise the chunks are the lines read, in full chunks and a last one, every chunk at most the chunk size when the file ends at a line boundary; the runs saved hold exactly the lines read, as a multiset |
| FileSorting.FileSorting.CreateOutput | SortFile/FileSorting.cs:126-129 | a new name, and the output writer preallocated to the source length; a failed preallocation fails with the buffer returned |
| FileSorting.FileSorting.MergeOutput | SortFile/FileSorting.cs:126-153 | creates the output and merges into it; on success the output is a permutation of the runs' lines, ascending when they are, and every cursor's path is queued for deletion |
| FileSorting.FileSorting.MergeFiles | SortFile/FileSorting.cs:107-153 | merges the runs: a permutation of all their lines, ascending when all runs are ascending records; every non-empty run is queued for deletion, empty ones never; it succeeds when all lines are records that fit and preallocation works |
| FileSorting.FileSorting.SortFile | SortFile/FileSorting.cs:33-61 | the output path is the next name, its bytes are the writer's framing of the merged lines, the merged lines are a permutation of the lines read back from the runs, the file length is the larger of source and output, and the paths queued for deletion are those of the non-empty runs; under the read-back conditions the output is a permutation of the lines read, ascending when all are records; it succeeds when the chunk size is positive, all lines are records that fit the buffer, the encoding reads back and preallocation works, and fails whenever preallocation fails |

## Left out

- Concurrency: the `Task.Run` fan-out and pruning of the split phase, the deletion channel and its consumer task, and `Interlocked` are left out. The split phase is a sequential loop that stops at the first failing chunk. `MergeFiles` returns the queued paths instead of writing them to a channel.
- In the split phase, the list yielded by `ReadLinesAsync` is cleared after the yield while a saving task may still hold it. This is a race, and is not modelled.
- Progress percentages, console output and stopwatch timing are not modelled. They are floating point and I/O only.
- `SortFile/FileSorting.cs:70` passes three arguments to `DataReading`, and `:94` calls `ReturnBufferAsync`. Neither exists in `SortFile/DataReading.cs`. The model uses the two-argument constructor, and lists are not returned to a buffer pool.
- `SortFile/FileSorting.cs:129` passes the write-buffer size where `Common/FileSaving.cs:12` expects the `bool` `writeEncodingPreamble`. The model uses `writeEncodingPreamble = false`, so the merged output has no preamble.
- `SortFile/Row.cs` and `SortFile/RowComparer.cs` are in namespace `DataSort.GenerateFile`. They are modelled as standalone modules.
- `System.Text.Encoding` is an abstract encode/decode pair plus a preamble, and `Environment.NewLine` is a parameter. The newline must encode to at least one byte (`SplitFile`'s requires), as it does in every .NET encoding.
- `FileStream`, `PipeReader` and `SequenceReader` are replaced by byte sequences. Arrival of data is modelled by a parameter giving the size of each read.
- `StreamReader` is modelled by `StreamReading.ReadAllLines` of the decoded bytes. Decoding is an abstract function of the encoding; that it gives back the text encoded is the assumption `StreamReading.ReadsBack`, which .NET's encoders do not meet for unpaired surrogates. Byte-order-mark detection is folded into it, which is why lines starting with U+FEFF are excluded.
- `Path.*` is abstract functions in `PathSystem`. Distinct paths rely on `Path.Combine` keeping the run names apart (`CombineKeepsNamesApart`), which .NET does for names that are not rooted; a rooted name is returned as it is and could collide.
- `UInt64.Parse` accepts only ASCII digit strings. Leading signs, whitespace and culture-specific digits are not modelled.
- `System.Random` draws are parameters constrained to the requested ranges. `GetNextUInt64` is not modelled.
- Sorting.ListSort: fails whenever a list of two or more holds a non-record. `List.Sort` fails only when a comparison actually throws, so a record with an unparsable number and a unique text sorts without error.
- FileSorting.FileSorting.SaveData: failure implies the chunk cannot be sorted or has a line longer than `MaxLineBufferSizeInBytes`, but not conversely. `ArrayPool` may rent a larger buffer, and the model leaves the rented length open.
- FileSorting.FileSorting.SaveRuns: the same one-directional failure condition, for the same reason.
- FileSorting.FileSorting.SplitFile: the same one-directional failure condition, for the same reason.
- DataReading.DataReading.ReadChunks: the last chunk is bounded by `chunkSize` only when the file ends at a line boundary. Otherwise the source's fallback adds every remaining part at once (`AddRange` past `Capacity`), so the last chunk can hold more; the model keeps that and states no bound there.
- An empty source file yields one empty chunk, and so one zero-byte run file that reads back as no line. The merge skips that file and never queues it for deletion. The model keeps this behaviour.
- `FileSaving.Dispose` called twice returns the buffer twice in the source. The model's pool is a set, so it does not record the double return.
- Ordinal.CompareOrdinal: only the sign of .NET's result (the first code-unit difference or the length comparison) is modelled, as -1, 0 or 1. A Dafny string holds Unicode scalar values, so a .NET string with an unpaired surrogate has no counterpart in the model.
- FileSorting.FileSorting.SortFile: the permutation, order and success theorems hold only when the encoding reads back, no line holds `'\r'` or `'\n'` or starts with U+FEFF, and no chunk is the lone empty line. Otherwise the source itself differs: a record holding `'\r'` is split in two when read back (`CarriageReturnSplitsRecord`), and a run holding only an empty line is lost and its file never deleted (`LoneEmptyLineVanishes`).
