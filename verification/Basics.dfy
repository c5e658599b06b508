/** The few definitions every other module shares. */
module Basics {

  datatype Option<+T> = None | Some(value: T)

  newtype Byte = b: int | 0 <= b < 256

  type Bytes = seq<Byte>

  function Min(a: int, b: int): int {
    if a < b then a else b
  }

  function Max(a: int, b: int): int {
    if a < b then b else a
  }

  /** s[from..to] where that makes sense, and nothing elsewhere. */
  function Slice<T>(s: seq<T>, from: int, to: int): seq<T> {
    if 0 <= from <= to <= |s| then s[from..to] else []
  }

  lemma Associates<T>(a: seq<T>, b: seq<T>, c: seq<T>)
    ensures a + b + c == a + (b + c)
  {
  }
}
