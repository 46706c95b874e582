/** Types shared by the models of the individual source files. */
module Common {

  datatype Option<+T> = None | Some(value: T)

  type pos = x: int | 1 <= x witness 1

  // An unsigned 8-bit value; the source's `char` buffers hold the same bytes.
  type byte = x: int | 0 <= x < 256

  function Max(a: int, b: int): int {
    if a < b then b else a
  }

  function Min(a: int, b: int): int {
    if a < b then a else b
  }

  lemma Associative<T>(a: seq<T>, b: seq<T>, c: seq<T>)
    ensures a + (b + c) == (a + b) + c
  {
  }

  lemma NothingBefore<T>(a: seq<T>)
    ensures [] + a == a
  {
  }
}
