/**
 * Go's `len` on a string counts bytes of its UTF-8 encoding. Strings here are
 * sequences of Unicode scalar values, so the byte count is computed from the
 * code points.
 */
module Utf8 {
  import opened Ascii

  /** Bytes taken by one scalar value in UTF-8. */
  function CharLength(c: char): (n: nat)
    ensures 1 <= n <= 4
    ensures n == 1 <==> IsAsciiChar(c)
  {
    if c as int < 0x80 then 1
    else if c as int < 0x800 then 2
    else if c as int < 0x1_0000 then 3
    else 4
  }

  /** Go's `len(s)`. */
  function Length(s: string): (n: nat)
    ensures |s| <= n <= 4 * |s|
  {
    if s == [] then 0 else CharLength(s[0]) + Length(s[1..])
  }

  lemma {:induction false} LengthConcat(a: string, b: string)
    ensures Length(a + b) == Length(a) + Length(b)
  {
    if a == [] {
      assert a + b == b;
    } else {
      assert (a + b)[1..] == a[1..] + b;
      LengthConcat(a[1..], b);
    }
  }

  /** On ASCII text, bytes and characters coincide. */
  lemma {:induction false} LengthAscii(s: string)
    requires forall k :: 0 <= k < |s| ==> IsAsciiChar(s[k])
    ensures Length(s) == |s|
  {
    if s != [] {
      LengthAscii(s[1..]);
    }
  }
}
