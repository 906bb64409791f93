/**
 * What the line reader uses of `System.IO.Pipelines.PipeReader` over a `FileStream`: a window of
 * buffered bytes that the reader releases with `AdvanceTo`, refilled by stream reads whose sizes
 * are a parameter (`arrived`).
 */
module Pipes {
  import opened Wrappers
  import opened Encodings

  /** The size of one stream read: at least one byte, at most what is left of the file. */
  function ReadSize(arrived: nat, remaining: nat): (n: nat)
    requires remaining > 0
    ensures 0 < n <= remaining
  {
    if arrived == 0 then 1 else if arrived < remaining then arrived else remaining
  }

  class PipeReader {
    /** The file's bytes. */
    const data: seq<byte>
    /** Bytes released by `AdvanceTo`. */
    var consumed: nat
    /** Bytes read from the stream so far. */
    var received: nat
    /** The last `AdvanceTo` examined the whole buffer. */
    var examinedEverything: bool
    /** A stream read has answered zero bytes. */
    var isStreamCompleted: bool
    /** `CompleteAsync` was called. */
    var isReaderCompleted: bool

    ghost predicate Valid()
      reads this
    {
      consumed <= received <= |data| && (isStreamCompleted ==> received == |data|)
    }

    constructor (data: seq<byte>)
      ensures this.data == data && Valid()
      ensures consumed == 0 && received == 0
      ensures !examinedEverything && !isStreamCompleted && !isReaderCompleted
    {
      this.data := data;
      consumed := 0;
      received := 0;
      examinedEverything := false;
      isStreamCompleted := false;
      isReaderCompleted := false;
    }

    /** `ReadAsync`: answers at once with the buffered bytes when some were not examined yet
        (or the stream has ended); otherwise reads the stream once, which either delivers new
        bytes or reports its end. */
    method ReadAsync(arrived: nat) returns (buffer: seq<byte>, isCompleted: bool)
      requires Valid() && !isReaderCompleted
      modifies this`received, this`isStreamCompleted
      ensures Valid()
      ensures old((received > consumed && (!examinedEverything || isStreamCompleted)) || isStreamCompleted) ==>
                received == old(received) && isStreamCompleted == old(isStreamCompleted)
      ensures !old((received > consumed && (!examinedEverything || isStreamCompleted)) || isStreamCompleted) ==>
                if old(received) == |data| then received == |data| && isStreamCompleted
                else received == old(received) + ReadSize(arrived, |data| - old(received)) && !isStreamCompleted
      ensures buffer == data[consumed..received] && isCompleted == isStreamCompleted
    {
      if (received > consumed && (!examinedEverything || isStreamCompleted)) || isStreamCompleted {
      } else if received == |data| {
        isStreamCompleted := true;
      } else {
        received := received + ReadSize(arrived, |data| - received);
      }
      buffer := data[consumed..received];
      isCompleted := isStreamCompleted;
    }

    /** `AdvanceTo(consumed, buffer.End)`: releases `position` bytes of the buffer and marks it
        examined. A default position, or any position in an empty buffer, changes nothing. */
    method AdvanceTo(position: Option<nat>)
      requires Valid() && (position.Some? ==> consumed + position.value <= received)
      modifies this`consumed, this`examinedEverything
      ensures Valid()
      ensures position.None? || old(received == consumed) ==>
                consumed == old(consumed) && examinedEverything == old(examinedEverything)
      ensures position.Some? && old(received > consumed) ==>
                consumed == old(consumed) + position.value && examinedEverything
    {
      if position.Some? && received > consumed {
        consumed := consumed + position.value;
        examinedEverything := true;
      }
    }

    /** `CompleteAsync`. */
    method Complete()
      modifies this`isReaderCompleted
      ensures isReaderCompleted
    {
      isReaderCompleted := true;
    }
  }
}
