/**
 * What the core uses of `System.Text.Encoding`, `Environment.NewLine` and `ArrayPool<T>`:
 * an encoding is its preamble (byte-order mark) and a pair of conversion functions, and a pool
 * lends arrays and takes them back.
 */
module Encodings {

  newtype byte = x: int | 0 <= x < 256

  /** `Encoding`: `GetPreamble()`, `GetBytes` and `GetString`. The conversions are library code
      and stay uninterpreted here. */
  datatype Encoding = Encoding(preamble: seq<byte>, encode: string -> seq<byte>, decode: seq<byte> -> string)

  /** `ArrayPool<T>.Shared`: the set of arrays currently lent out. */
  class ArrayPool<T(0)> {
    var lent: set<array<T>>

    constructor ()
      ensures lent == {}
    {
      lent := {};
    }

    /** `Rent`: an array of at least the requested length, now lent out. */
    method Rent(minimumLength: nat) returns (a: array<T>)
      modifies this
      ensures fresh(a) && a.Length >= minimumLength
      ensures lent == old(lent) + {a}
    {
      a := new T[minimumLength];
      lent := lent + {a};
    }

    /** `Return`: the array is no longer lent out. */
    method Return(a: array<T>)
      modifies this
      ensures lent == old(lent) - {a}
    {
      lent := lent - {a};
    }
  }
}
