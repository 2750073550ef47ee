/**
 NUL-terminated ASCII strings.
 */
module Ascii {

  /** A character of a string; NUL only ends strings. */
  type Char = x: int | 1 <= x < 128 witness 1

  /** The character at i, or the terminating NUL. */
  function At(s: seq<Char>, i: nat): (c: int)
    ensures 0 <= c < 128 && (c == 0 <==> i >= |s|)
  {
    if i < |s| then s[i] else 0
  }
}
