/**
 * The character classes of the regular expressions in the helpers, restricted
 * to ASCII: `\w` is `[A-Za-z0-9_]` (as in Go's RE2) and lower-casing maps
 * only `A`..`Z`.
 */
module Ascii {

  /** `\w`. */
  predicate IsWordChar(c: char) {
    ('a' <= c <= 'z') || ('A' <= c <= 'Z') || ('0' <= c <= '9') || c == '_'
  }

  predicate IsUpper(c: char) {
    'A' <= c <= 'Z'
  }

  predicate IsAsciiChar(c: char) {
    c as int < 0x80
  }

  /** `str.lower()` on one character. */
  function ToLower(c: char): (r: char)
    ensures !IsUpper(r)
    ensures IsWordChar(r) <==> IsWordChar(c)
    ensures !IsUpper(c) ==> r == c
  {
    if IsUpper(c) then (c as int + 32) as char else c
  }

  /** `str.lower()`: maps every character, so the length is kept. */
  function Lower(s: string): (r: string)
    ensures |r| == |s|
  {
    seq(|s|, i requires 0 <= i < |s| => ToLower(s[i]))
  }

  /** The word characters of `s`, in order. */
  function WordChars(s: string): (r: string)
    ensures |r| <= |s|
    ensures forall k :: 0 <= k < |r| ==> IsWordChar(r[k])
  {
    if s == [] then []
    else if IsWordChar(s[0]) then [s[0]] + WordChars(s[1..])
    else WordChars(s[1..])
  }

  lemma LowerCons(s: string)
    requires s != []
    ensures Lower(s) == [ToLower(s[0])] + Lower(s[1..])
  {
  }

  lemma {:induction false} WordCharsConcat(a: string, b: string)
    ensures WordChars(a + b) == WordChars(a) + WordChars(b)
  {
    if a == [] {
      assert a + b == b;
    } else {
      assert (a + b)[1..] == a[1..] + b;
      WordCharsConcat(a[1..], b);
    }
  }

  /** Lower-casing commutes with picking out the word characters. */
  lemma {:induction false} WordCharsLower(s: string)
    ensures WordChars(Lower(s)) == Lower(WordChars(s))
  {
    if s != [] {
      LowerCons(s);
      WordCharsLower(s[1..]);
      if IsWordChar(s[0]) {
        LowerCons(WordChars(s));
        assert WordChars(s)[1..] == WordChars(s[1..]);
      }
    }
  }
}
