/**
 * The record generator (GenerateFile/DataGeneration.cs): a set of pooled character buffers, each
 * filled on demand with one random record `"<UInt64>. <text>"`.
 * The random source is a parameter: a `Draw` holds the values `Random` would have produced.
 */
module DataGeneration {
  import opened Wrappers
  import opened Decimal
  import opened Spans
  import opened DataDescription
  import opened Encodings
  import DataComparer

  /** One record's worth of random values: the number (`GetNextUInt64`) and, one per text
      character, the letter index (`random.Next(0, TextCharacters.Length)`); the text length
      (`random.Next(TextMinLength, TextMaxLength + 1)`) is the number of letter indices. */
  datatype Draw = Draw(number: nat, letters: seq<nat>)

  /** The values `Random` can produce for one record. */
  predicate ValidDraw(draw: Draw, build: Build) {
    && draw.number <= UInt64Max
    && TextMinLength(build) <= |draw.letters| <= TextMaxLength(build)
    && forall i :: 0 <= i < |draw.letters| ==> draw.letters[i] < |TextCharacters|
  }

  /** The text spelled by letter indices. */
  function Letters(letters: seq<nat>): (s: string)
    requires forall i :: 0 <= i < |letters| ==> letters[i] < |TextCharacters|
    ensures |s| == |letters|
    ensures forall i :: 0 <= i < |s| ==> s[i] == TextCharacters[letters[i]]
  {
    seq(|letters|, i requires 0 <= i < |letters| => TextCharacters[letters[i]])
  }

  /** The record a draw describes. */
  function GeneratedRecord(draw: Draw, build: Build): string
    requires ValidDraw(draw, build)
  {
    ToDigits(draw.number) + TextSeparator + Letters(draw.letters)
    + (if build == Debug then [LastTextCharacter] else [])
  }

  /** The length of `MaxString`, the size every buffer is rented with. */
  function BufferLength(build: Build): nat {
    22 + TextMaxLength(build) + (if build == Debug then 1 else 0)
  }

  lemma BufferLengthIsMaxStringLength(build: Build)
    ensures BufferLength(build) == |MaxString(build)|
  {
    MaxStringLength(build);
  }

  /** `MaxString` is itself a record the generator can produce: the largest number and the
      longest text of `'Z'`s, so the buffers are no larger than needed. */
  lemma MaxStringIsGenerated(build: Build)
    ensures var draw := Draw(UInt64Max, seq(TextMaxLength(build), _ => 25));
            ValidDraw(draw, build) && GeneratedRecord(draw, build) == MaxString(build)
  {
    var letters := seq(TextMaxLength(build), _ => 25);
    assert TextCharacters[25] == 'Z';
    assert Letters(letters) == Repeat('Z', TextMaxLength(build));
  }

  /** Every generated record fits the buffers, which are sized by `MaxString`. */
  lemma GeneratedRecordFits(draw: Draw, build: Build)
    requires ValidDraw(draw, build)
    ensures |GeneratedRecord(draw, build)| <= BufferLength(build)
  {
    FormatUInt64Length(draw.number);
  }

  /** Every generated record is one the sorter accepts: its first separator follows the digits,
      its number is the drawn number and its text is the drawn letters (plus the Debug marker). */
  lemma GeneratedRecordWellFormed(draw: Draw, build: Build)
    requires ValidDraw(draw, build)
    ensures DataComparer.FindDelimiterIndex(GeneratedRecord(draw, build)) == Ok(|ToDigits(draw.number)|)
    ensures DataComparer.WellFormed(GeneratedRecord(draw, build))
    ensures DataComparer.Number(GeneratedRecord(draw, build)) == draw.number
    ensures DataComparer.Text(GeneratedRecord(draw, build))
            == Letters(draw.letters) + (if build == Debug then [LastTextCharacter] else [])
  {
    var digits := ToDigits(draw.number);
    var text := Letters(draw.letters) + (if build == Debug then [LastTextCharacter] else []);
    assert GeneratedRecord(draw, build) == digits + TextSeparator + text;
    DataComparer.RecordParts(digits, text);
    ParseFormat(draw.number);
  }

  /** The text characters never hold a separator character: the text adds no second `". "`. */
  lemma GeneratedTextHasNoSeparator(draw: Draw, build: Build)
    requires ValidDraw(draw, build)
    ensures forall i :: 0 <= i < |draw.letters| ==> IsAlphanumeric(Letters(draw.letters)[i])
    ensures TextSeparatorFirstCharacter !in Letters(draw.letters)
  {
    TextCharactersAlphanumeric();
    var text := Letters(draw.letters);
    assert forall i :: 0 <= i < |text| ==> text[i] == TextCharacters[draw.letters[i]];
  }

  /** The private static `NextData(Random, Span<char>)`: writes the record at the start of
      `destination` and answers how many characters it wrote. */
  method WriteRecord(draw: Draw, build: Build, destination: array<char>) returns (charactersWritten: nat)
    requires ValidDraw(draw, build)
    requires destination.Length >= BufferLength(build)
    modifies destination
    ensures charactersWritten <= destination.Length
    ensures destination[..charactersWritten] == GeneratedRecord(draw, build)
    ensures forall i :: charactersWritten <= i < destination.Length ==> destination[i] == old(destination[i])
  {
    GeneratedRecordFits(draw, build);
    var digits := ToDigits(draw.number);
    // UInt64.TryFormat: the digits, at the start of the destination
    forall i | 0 <= i < |digits| {
      destination[i] := digits[i];
    }
    charactersWritten := |digits|;
    assert destination[..charactersWritten] == digits;
    charactersWritten := WriteSeparator(destination, charactersWritten);
    charactersWritten := WriteLetters(draw.letters, destination, charactersWritten);
    if build == Debug {
      ghost var written := destination[..charactersWritten];
      destination[charactersWritten] := LastTextCharacter;
      charactersWritten := charactersWritten + 1;
      assert destination[..charactersWritten] == written + [LastTextCharacter];
    }
  }

  /** The separator loop of `NextData`: `". "` written from `at` on. */
  method WriteSeparator(destination: array<char>, at: nat) returns (end: nat)
    requires at + |TextSeparator| <= destination.Length
    modifies destination
    ensures end == at + |TextSeparator|
    ensures destination[..end] == old(destination[..at]) + TextSeparator
    ensures forall i :: end <= i < destination.Length ==> destination[i] == old(destination[i])
  {
    end := at;
    for k := 0 to |TextSeparator|
      invariant end == at + k
      invariant destination[..end] == old(destination[..at]) + TextSeparator[..k]
      invariant forall i :: end <= i < destination.Length ==> destination[i] == old(destination[i])
    {
      destination[end] := TextSeparator[k];
      end := end + 1;
    }
  }

  /** The text loop of `NextData`: one drawn letter after another, written from `at` on. */
  method WriteLetters(letters: seq<nat>, destination: array<char>, at: nat) returns (end: nat)
    requires forall i :: 0 <= i < |letters| ==> letters[i] < |TextCharacters|
    requires at + |letters| <= destination.Length
    modifies destination
    ensures end == at + |letters|
    ensures destination[..end] == old(destination[..at]) + Letters(letters)
    ensures forall i :: end <= i < destination.Length ==> destination[i] == old(destination[i])
  {
    ghost var text := Letters(letters);
    end := at;
    var textLength := |letters|;
    for index := 0 to textLength
      invariant end == at + index
      invariant destination[..end] == old(destination[..at]) + text[..index]
      invariant forall i :: end <= i < destination.Length ==> destination[i] == old(destination[i])
    {
      var letterIndex := letters[index];
      destination[end] := TextCharacters[letterIndex];
      assert text[..index + 1] == text[..index] + [TextCharacters[letterIndex]];
      end := end + 1;
    }
    assert text[..textLength] == text;
  }

  class DataGeneration {
    const build: Build
    /** The seed of `Random`; the draws themselves are parameters of `NextData`. */
    const seed: int
    const pool: ArrayPool<char>
    var buffers: seq<array<char>>

    /** Every buffer holds a record of the maximum length. */
    ghost predicate Valid()
      reads this
    {
      forall i :: 0 <= i < |buffers| ==> buffers[i].Length >= BufferLength(build)
    }

    constructor (seed: int, build: Build, pool: ArrayPool<char>, buffers: seq<array<char>>)
      ensures this.seed == seed && this.build == build && this.pool == pool && this.buffers == buffers
    {
      this.seed := seed;
      this.build := build;
      this.pool := pool;
      this.buffers := buffers;
    }

    /** The constructor: a non-positive buffer count is out of range and rents nothing;
        otherwise `buffersCount` fresh buffers of `MaxString` length are rented. */
    static method Create(seed: int, buffersCount: int, build: Build, pool: ArrayPool<char>)
      returns (r: Result<DataGeneration>)
      modifies pool
      ensures r.Err? <==> buffersCount <= 0
      ensures r.Err? ==> r.error == ArgumentOutOfRange && pool.lent == old(pool.lent)
      ensures r.Ok? ==> && fresh(r.value) && r.value.Valid()
                        && r.value.seed == seed && r.value.build == build && r.value.pool == pool
                        && |r.value.buffers| == buffersCount
                        && (forall i :: 0 <= i < buffersCount ==> fresh(r.value.buffers[i]))
                        && pool.lent == old(pool.lent) + set b | b in r.value.buffers
    {
      if buffersCount <= 0 {
        return Err(ArgumentOutOfRange);
      }
      var buffers: seq<array<char>> := [];
      for index := 0 to buffersCount
        invariant |buffers| == index
        invariant forall i :: 0 <= i < index ==> fresh(buffers[i]) && buffers[i].Length >= BufferLength(build)
        invariant pool.lent == old(pool.lent) + set b | b in buffers
      {
        var buffer := pool.Rent(BufferLength(build));
        buffers := buffers + [buffer];
      }
      var g := new DataGeneration(seed, build, pool, buffers);
      r := Ok(g);
    }

    /** `NextData(int)`: fills buffer `bufferIndex` with the drawn record and answers the
        written part; an index outside the buffer list is out of range. */
    method NextData(bufferIndex: int, draw: Draw) returns (r: Result<string>)
      requires Valid() && ValidDraw(draw, build)
      modifies if 0 <= bufferIndex < |buffers| then {buffers[bufferIndex]} else {}
      ensures r.Err? <==> bufferIndex < 0 || bufferIndex >= |buffers|
      ensures r.Err? ==> r.error == ArgumentOutOfRange
      ensures r.Ok? ==> && r.value == GeneratedRecord(draw, build)
                        && |r.value| <= buffers[bufferIndex].Length
                        && buffers[bufferIndex][..|r.value|] == r.value
    {
      if bufferIndex < 0 || bufferIndex >= |buffers| {
        return Err(ArgumentOutOfRange);
      }
      var buffer := buffers[bufferIndex];
      var charactersWritten := WriteRecord(draw, build, buffer);
      r := Ok(buffer[..charactersWritten]);
    }

    /** `Dispose`: every buffer goes back to the pool and the list is emptied. */
    method Dispose()
      modifies this, pool
      ensures buffers == []
      ensures pool.lent == old(pool.lent) - set b | b in old(buffers)
    {
      for index := 0 to |buffers|
        invariant buffers == old(buffers)
        invariant pool.lent == old(pool.lent) - set b | b in buffers[..index]
      {
        pool.Return(buffers[index]);
        assert buffers[..index + 1] == buffers[..index] + [buffers[index]];
      }
      assert buffers[..|buffers|] == buffers;
      buffers := [];
    }
  }
}
