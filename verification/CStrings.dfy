/** C strings as buffers of bytes. */
module CStrings {

  type byte = x: int | 0 <= x < 256

  /** A buffer that ends at its only zero byte. Pointers are indices into it. */
  ghost predicate IsCString(s: seq<byte>) {
    0 < |s| && s[|s| - 1] == 0 && forall i | 0 <= i < |s| - 1 :: s[i] != 0
  }

  /** The letters of a C string, without the terminator. */
  function Text(s: seq<byte>): (t: seq<byte>)
    requires |s| > 0
  {
    s[..|s| - 1]
  }
}
