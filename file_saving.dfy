/**
 * The prefix-aware writer (Common/FileSaving.cs): the first write is preceded by the encoding
 * preamble (when asked for), every later write by a newline, so the last record has no
 * newline after it.
 */
module CommonFileSaving {
  import opened Wrappers
  import opened Encodings

  /** The bytes a fresh writer holds after `WriteDataAsync` of each of `records` in turn. */
  function Framed(preamble: seq<byte>, newLine: seq<byte>, encode: string -> seq<byte>, records: seq<string>): seq<byte>
  {
    if records == [] then []
    else if |records| == 1 then preamble + encode(records[0])
    else Framed(preamble, newLine, encode, records[..|records| - 1]) + newLine + encode(records[|records| - 1])
  }

  /** Total encoded length of `records`. */
  function EncodedLength(encode: string -> seq<byte>, records: seq<string>): nat
  {
    if records == [] then 0
    else EncodedLength(encode, records[..|records| - 1]) + |encode(records[|records| - 1])|
  }

  /** The framing has one preamble, one newline between neighbours and none at the end. */
  lemma {:induction false} FramedLength(preamble: seq<byte>, newLine: seq<byte>, encode: string -> seq<byte>, records: seq<string>)
    requires records != []
    ensures |Framed(preamble, newLine, encode, records)|
            == |preamble| + EncodedLength(encode, records) + (|records| - 1) * |newLine|
  {
    if |records| > 1 {
      FramedLength(preamble, newLine, encode, records[..|records| - 1]);
    }
  }

  /** The framing ends with the last record's bytes. */
  lemma FramedEndsWithLastRecord(preamble: seq<byte>, newLine: seq<byte>, encode: string -> seq<byte>, records: seq<string>)
    requires records != []
    ensures var f := Framed(preamble, newLine, encode, records);
            var last := encode(records[|records| - 1]);
            |last| <= |f| && f[|f| - |last|..] == last
  {
  }

  /** The framing starts with the preamble and the first record's bytes. */
  lemma {:induction false} FramedStartsWithPreamble(preamble: seq<byte>, newLine: seq<byte>, encode: string -> seq<byte>, records: seq<string>)
    requires records != []
    ensures var f := Framed(preamble, newLine, encode, records);
            var head := preamble + encode(records[0]);
            |head| <= |f| && f[..|head|] == head
  {
    if |records| > 1 {
      var init := records[..|records| - 1];
      FramedStartsWithPreamble(preamble, newLine, encode, init);
      assert init[0] == records[0];
    }
  }

  /** One more record: the preamble before it when it is the first, a newline otherwise. */
  lemma FramedAppend(preamble: seq<byte>, newLine: seq<byte>, encode: string -> seq<byte>, records: seq<string>, record: string)
    ensures Framed(preamble, newLine, encode, records + [record])
            == Framed(preamble, newLine, encode, records) + (if records == [] then preamble else newLine) + encode(record)
  {
    assert (records + [record])[..|records|] == records;
  }

  class FileSaving {
    const encoding: Encoding
    const writeEncodingPreamble: bool
    /** `Encoding.GetBytes(Environment.NewLine)`. */
    const newLineBytes: seq<byte>
    const pool: ArrayPool<byte>
    /** The rented encode buffer, overwritten by every write. */
    const buffer: array<byte>

    /** 0 until the first prefix has been written, then 1. */
    var isFirstLine: int
    /** Bytes written to the stream since it was created. */
    var content: seq<byte>
    /** The length set with `SetLength`, if any: the file is at least this long. */
    var requiredLength: nat
    var disposed: bool

    ghost predicate Valid()
      reads this
    {
      isFirstLine == 0 || isFirstLine == 1
    }

    /** The length of the file on disk. */
    function FileLength(): nat
      reads this
    {
      if |content| < requiredLength then requiredLength else |content|
    }

    /** The part of the constructor that cannot fail: rent the buffer and create (truncate) the
        file. */
    constructor (encoding: Encoding, newLine: string, maxBufferSize: nat, writeEncodingPreamble: bool, pool: ArrayPool<byte>)
      modifies pool
      ensures fresh(buffer) && buffer.Length >= maxBufferSize && pool.lent == old(pool.lent) + {buffer}
      ensures this.encoding == encoding && this.writeEncodingPreamble == writeEncodingPreamble
      ensures this.pool == pool && newLineBytes == encoding.encode(newLine)
      ensures isFirstLine == 0 && content == [] && requiredLength == 0 && !disposed
      ensures Valid()
    {
      this.encoding := encoding;
      this.writeEncodingPreamble := writeEncodingPreamble;
      this.newLineBytes := encoding.encode(newLine);
      this.pool := pool;
      var b := pool.Rent(maxBufferSize);
      this.buffer := b;
      isFirstLine := 0;
      content := [];
      requiredLength := 0;
      disposed := false;
    }

    /** The constructor: a null encoding is rejected before anything is acquired; when setting the
        required length fails (`setLengthSucceeds` is the file system's answer), the buffer is
        returned and the stream disposed before the error propagates. */
    static method Create(encoding: Option<Encoding>, newLine: string, maxBufferSize: nat,
                         writeEncodingPreamble: bool, requiredLength: Option<nat>,
                         setLengthSucceeds: bool, pool: ArrayPool<byte>)
      returns (r: Result<FileSaving>)
      modifies pool
      ensures encoding.None? ==> r == Err(ArgumentNull) && pool.lent == old(pool.lent)
      ensures encoding.Some? && requiredLength.Some? && !setLengthSucceeds ==>
                r == Err(IO) && pool.lent == old(pool.lent)
      ensures r.Ok? <==> encoding.Some? && (requiredLength.None? || setLengthSucceeds)
      ensures r.Ok? ==> var s := r.value;
                fresh(s) && fresh(s.buffer) && s.Valid() && s.pool == pool
                && pool.lent == old(pool.lent) + {s.buffer}
                && s.encoding == encoding.value && s.writeEncodingPreamble == writeEncodingPreamble
                && s.newLineBytes == encoding.value.encode(newLine)
                && s.isFirstLine == 0 && s.content == [] && !s.disposed && s.buffer.Length >= maxBufferSize
                && s.requiredLength == (if requiredLength.Some? then requiredLength.value else 0)
    {
      if encoding.None? {
        return Err(ArgumentNull);
      }
      var saving := new FileSaving(encoding.value, newLine, maxBufferSize, writeEncodingPreamble, pool);
      if requiredLength.Some? {
        if !setLengthSucceeds {
          saving.Dispose();
          return Err(IO);
        }
        saving.requiredLength := requiredLength.value;
      }
      r := Ok(saving);
    }

    /** `WritePreambleAsync`: the preamble when configured, nothing otherwise. */
    method WritePreamble() returns (n: nat)
      requires Valid() && !disposed
      modifies this`content
      ensures n == (if writeEncodingPreamble then |encoding.preamble| else 0)
      ensures content == old(content) + (if writeEncodingPreamble then encoding.preamble else [])
    {
      if writeEncodingPreamble {
        var preamble := encoding.preamble;
        if |preamble| > 0 {
          content := content + preamble;
        }
        return |preamble|;
      } else {
        return 0;
      }
    }

    /** `WriteNewLineAsync`: the newline bytes, whatever `isFirstLine` is. */
    method WriteNewLine() returns (n: nat)
      requires Valid() && !disposed
      modifies this`content
      ensures n == |newLineBytes| && content == old(content) + newLineBytes
    {
      content := content + newLineBytes;
      n := |newLineBytes|;
    }

    /** The bytes the first prefix writes: the preamble when configured, nothing otherwise. */
    function Preamble(): seq<byte> {
      if writeEncodingPreamble then encoding.preamble else []
    }

    /** The prefix the next `WriteDataAsync` writes. */
    function Prefix(): seq<byte>
      reads this
    {
      if isFirstLine == 0 then Preamble() else newLineBytes
    }

    /** `WritePrefixAsync`: `isFirstLine` is swapped to 1; the preamble is written if it was 0,
        a newline otherwise. */
    method WritePrefix() returns (n: nat)
      requires Valid() && !disposed
      modifies this`content, this`isFirstLine
      ensures Valid() && isFirstLine == 1
      ensures content == old(content) + old(Prefix()) && n == |old(Prefix())|
    {
      var previous := isFirstLine;
      isFirstLine := 1;
      if previous == 0 {
        n := WritePreamble();
      } else {
        n := WriteNewLine();
      }
    }

    /** `WriteDataAsync`: the prefix, then the encoded data through the buffer; returns the bytes
        written. Data whose encoding does not fit the buffer fails after the prefix was written. */
    method WriteData(data: string) returns (r: Result<nat>)
      requires Valid() && !disposed
      modifies this`content, this`isFirstLine, buffer
      ensures Valid() && isFirstLine == 1
      ensures r.Ok? <==> |encoding.encode(data)| <= buffer.Length
      ensures r.Ok? ==> content == old(content) + old(Prefix()) + encoding.encode(data)
      ensures r.Ok? ==> r.value == |old(Prefix())| + |encoding.encode(data)| == |content| - |old(content)|
      ensures r.Err? ==> r.error == Argument && content == old(content) + old(Prefix())
    {
      var prefixLength := WritePrefix();
      var bytes := encoding.encode(data);
      if |bytes| > buffer.Length {
        return Err(Argument);
      }
      forall i | 0 <= i < |bytes| {
        buffer[i] := bytes[i];
      }
      content := content + buffer[..|bytes|];
      r := Ok(prefixLength + |bytes|);
    }

    /** `Dispose` / `DisposeAsync`: the buffer goes back to the pool and the stream is closed. */
    method Dispose()
      modifies this`disposed, pool
      ensures disposed && pool.lent == old(pool.lent) - {buffer}
      ensures old(Valid()) ==> Valid()
    {
      pool.Return(buffer);
      disposed := true;
    }
  }
}
