/** Bytes, and pieces of a sequence put back together. */
module Sequences {
  type byte = b: int | 0 <= b < 256

  type Bytes = seq<byte>

  function Flat<T>(pieces: seq<seq<T>>): seq<T> {
    if pieces == [] then [] else pieces[0] + Flat(pieces[1..])
  }
}
