/**
 * The generator's writer (GenerateFile/FileSaving.cs): data first, then a newline, so every
 * record is newline-terminated; the preamble is written only when asked for.
 */
module GenerateFileSaving {
  import opened Wrappers
  import opened Encodings
  import CommonFileSaving

  /** The bytes written by `WriteDataAsync` of each of `records` in turn. */
  function Terminated(newLine: seq<byte>, encode: string -> seq<byte>, records: seq<string>): seq<byte>
  {
    if records == [] then [] else Terminated(newLine, encode, records[..|records| - 1]) + encode(records[|records| - 1]) + newLine
  }

  /** The two framings differ only at the ends: the generator's is the sort writer's without a
      preamble, plus a final newline. */
  lemma {:induction false} TerminatedIsFramedPlusNewLine(newLine: seq<byte>, encode: string -> seq<byte>, records: seq<string>)
    requires records != []
    ensures Terminated(newLine, encode, records) == CommonFileSaving.Framed([], newLine, encode, records) + newLine
  {
    if |records| > 1 {
      var init := records[..|records| - 1];
      TerminatedIsFramedPlusNewLine(newLine, encode, init);
      assert init[..|init| - 1] == records[..|records| - 2];
    } else {
      assert records[..0] == [];
    }
  }

  class FileSaving {
    const encoding: Encoding
    const newLineBytes: seq<byte>
    const newLineBytesLength: nat := |newLineBytes|
    const pool: ArrayPool<byte>
    const buffer: array<byte>

    /** Bytes written to the stream since it was created. */
    var content: seq<byte>
    /** The length set with `SetLength`. */
    var requiredLength: nat
    var disposed: bool
    /** The records written so far, and the bytes written before the first of them. */
    ghost var records: seq<string>
    ghost var head: seq<byte>

    /** The file is what was written before the first record, then every record written, each
        followed by a newline. */
    ghost predicate Framing()
      reads this
    {
      content == head + Terminated(newLineBytes, encoding.encode, records)
    }

    constructor (encoding: Encoding, newLine: string, maxBufferSize: nat, pool: ArrayPool<byte>)
      modifies pool
      ensures fresh(buffer) && buffer.Length >= maxBufferSize && pool.lent == old(pool.lent) + {buffer}
      ensures this.encoding == encoding && this.pool == pool
      ensures newLineBytes == encoding.encode(newLine) && newLineBytesLength == |newLineBytes|
      ensures content == [] && requiredLength == 0 && !disposed
      ensures records == [] && head == [] && Framing()
    {
      this.encoding := encoding;
      this.newLineBytes := encoding.encode(newLine);
      this.pool := pool;
      var b := pool.Rent(maxBufferSize);
      this.buffer := b;
      content := [];
      requiredLength := 0;
      disposed := false;
      records := [];
      head := [];
    }

    /** The constructor: the encoding defaults to `defaultEncoding` (`Encoding.UTF8`); the length
        is set unconditionally, and when that fails the rented buffer is not returned. */
    static method Create(encoding: Option<Encoding>, defaultEncoding: Encoding, newLine: string,
                         maxBufferSize: nat, requiredLength: nat, setLengthSucceeds: bool,
                         pool: ArrayPool<byte>)
      returns (r: Result<FileSaving>)
      modifies pool
      ensures r.Ok? <==> setLengthSucceeds
      ensures r.Err? ==> r.error == IO && old(pool.lent) < pool.lent
      ensures r.Ok? ==> var s := r.value;
                fresh(s) && fresh(s.buffer) && s.pool == pool
                && pool.lent == old(pool.lent) + {s.buffer}
                && s.encoding == (if encoding.Some? then encoding.value else defaultEncoding)
                && s.newLineBytes == s.encoding.encode(newLine)
                && s.content == [] && s.requiredLength == requiredLength && !s.disposed
                && s.records == [] && s.head == [] && s.Framing()
    {
      var e := if encoding.Some? then encoding.value else defaultEncoding;
      var saving := new FileSaving(e, newLine, maxBufferSize, pool);
      if !setLengthSucceeds {
        return Err(IO);
      }
      saving.requiredLength := requiredLength;
      r := Ok(saving);
    }

    /** `WritePreambleAsync`: the preamble if it is not empty; returns its length. */
    method WritePreamble() returns (n: nat)
      requires !disposed
      modifies this`content, this`head
      ensures n == |encoding.preamble| && content == old(content) + encoding.preamble
      ensures records == old(records)
      ensures old(Framing()) && records == [] ==> Framing() && head == old(head) + encoding.preamble
    {
      var preamble := encoding.preamble;
      if |preamble| > 0 {
        content := content + preamble;
      }
      if records == [] {
        head := head + preamble;
      }
      n := |preamble|;
    }

    /** `WriteDataAsync`: the encoded data through the buffer, then the newline. */
    method WriteData(data: string) returns (r: Result<nat>)
      requires !disposed
      modifies this`content, this`records, buffer
      ensures r.Ok? <==> |encoding.encode(data)| <= buffer.Length
      ensures head == old(head)
      ensures records == if r.Ok? then old(records) + [data] else old(records)
      ensures old(Framing()) ==> Framing()
      ensures r.Ok? ==> content == old(content) + encoding.encode(data) + newLineBytes
      ensures r.Ok? ==> r.value == |encoding.encode(data)| + newLineBytesLength == |content| - |old(content)|
      ensures r.Err? ==> r.error == Argument && content == old(content)
    {
      var bytes := encoding.encode(data);
      if |bytes| > buffer.Length {
        return Err(Argument);
      }
      forall i | 0 <= i < |bytes| {
        buffer[i] := bytes[i];
      }
      content := content + buffer[..|bytes|];
      content := content + newLineBytes;
      assert (records + [data])[..|records|] == records;
      records := records + [data];
      r := Ok(|bytes| + newLineBytesLength);
    }

    /** `Dispose` / `DisposeAsync`: the buffer goes back to the pool. */
    method Dispose()
      modifies this`disposed, pool
      ensures disposed && pool.lent == old(pool.lent) - {buffer}
    {
      pool.Return(buffer);
      disposed := true;
    }
  }
}
