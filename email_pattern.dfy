/**
 * The e-mail pattern `^[\w.-]+@[\w.-]+\.\w+$` shared by the Python helper and
 * the Go validator, written as a predicate over characters instead of a regex
 * engine. Both anchors are read as start and end of the whole text here; the
 * Python module adds its own treatment of a final newline.
 */
module EmailPattern {
  import opened Ascii

  /** `[\w.-]`, the class of the local part and of the domain. */
  predicate IsEmailChar(c: char) {
    IsWordChar(c) || c == '.' || c == '-'
  }

  predicate AllEmailChars(s: string) {
    forall k :: 0 <= k < |s| ==> IsEmailChar(s[k])
  }

  predicate AllWordChars(s: string) {
    forall k :: 0 <= k < |s| ==> IsWordChar(s[k])
  }

  /**
   * `s` is `L @ D . T` with L, D nonempty over `[\w.-]` and T nonempty over
   * `\w`: the '@' sits at index i and the '.' at index j.
   */
  predicate Matches(s: string) {
    exists i, j | 0 < i < j < |s| :: SplitsAt(s, i, j)
  }

  /** The '@' at index i and the '.' at index j split `s` as the pattern does. */
  predicate SplitsAt(s: string, i: int, j: int) {
    && 0 < i && i + 1 < j && j + 1 < |s|
    && s[i] == '@' && s[j] == '.'
    && AllEmailChars(s[..i]) && AllEmailChars(s[i + 1..j]) && AllWordChars(s[j + 1..])
  }

  /** Index of the first `c` in `s`. */
  function IndexOf(s: string, c: char): (r: nat)
    requires c in s
    ensures r < |s| && s[r] == c && c !in s[..r]
  {
    if s[0] == c then 0 else 1 + IndexOf(s[1..], c)
  }

  /** Index of the last `c` in `s`. */
  function LastIndexOf(s: string, c: char): (r: nat)
    requires c in s
    ensures r < |s| && s[r] == c && c !in s[r + 1..]
  {
    if s[|s| - 1] == c then |s| - 1
    else
      assert c in s[..|s| - 1] by {
        var k :| 0 <= k < |s| && s[k] == c;
        assert s[..|s| - 1][k] == c;
      }
      LastIndexOf(s[..|s| - 1], c)
  }

  /**
   * The domain `[\w.-]+\.\w+` read through its last dot: every character is
   * in `[\w.-]`, there is a dot, something precedes the last dot and a
   * nonempty run of word characters follows it.
   */
  predicate DomainShape(d: string) {
    && AllEmailChars(d)
    && '.' in d
    && var j := LastIndexOf(d, '.');
       1 <= j && j + 1 < |d| && AllWordChars(d[j + 1..])
  }

  /**
   * An independent description of an address: exactly one '@', a nonempty
   * local part over `[\w.-]` before it, and a domain of DomainShape after it.
   */
  predicate AddressShape(s: string) {
    && multiset(s)['@'] == 1
    && var i := IndexOf(s, '@');
       1 <= i && AllEmailChars(s[..i]) && DomainShape(s[i + 1..])
  }

  lemma NoCharOutside(s: string, c: char)
    requires forall k :: 0 <= k < |s| ==> s[k] != c
    ensures c !in s && multiset(s)[c] == 0
  {
  }

  /** An address the pattern matches has the shape. */
  lemma MatchesShape(s: string)
    requires Matches(s)
    ensures AddressShape(s)
  {
    var i, j :| 0 < i < j < |s| && SplitsAt(s, i, j);
    var d, jd := s[i + 1..], j - i - 1;
    assert d[..jd] == s[i + 1..j] && d[jd] == s[j] && d[jd + 1..] == s[j + 1..];
    DomainChars(d, jd);
    AtIsFirst(s, i);
    DotIsLast(d, jd);
  }

  /** A domain split at a dot is over `[\w.-]` as a whole. */
  lemma DomainChars(d: string, j: nat)
    requires j < |d| && d[j] == '.'
    requires AllEmailChars(d[..j]) && AllWordChars(d[j + 1..])
    ensures AllEmailChars(d)
  {
    forall k | 0 <= k < |d| ensures IsEmailChar(d[k]) {
      if k < j {
        assert d[k] == d[..j][k];
      } else if k > j {
        assert d[k] == d[j + 1..][k - j - 1];
      }
    }
  }

  /** The '@' of a match is the only one, so it is the first. */
  lemma AtIsFirst(s: string, i: nat)
    requires 0 < i < |s| && s[i] == '@'
    requires AllEmailChars(s[..i]) && AllEmailChars(s[i + 1..])
    ensures multiset(s)['@'] == 1 && IndexOf(s, '@') == i
  {
    var local, d := s[..i], s[i + 1..];
    NoCharOutside(local, '@');
    NoCharOutside(d, '@');
    assert s == local + [s[i]] + d;
    assert multiset(s) == multiset(local) + multiset([s[i]]) + multiset(d);
  }

  /** A dot followed only by word characters is the last dot. */
  lemma DotIsLast(d: string, j: nat)
    requires j < |d| && d[j] == '.' && AllWordChars(d[j + 1..])
    ensures LastIndexOf(d, '.') == j
  {
    var tail := d[j + 1..];
    NoCharOutside(tail, '.');
  }

  /** An address of the shape is matched by the pattern. */
  lemma ShapeMatches(s: string)
    requires AddressShape(s)
    ensures Matches(s)
  {
    assert '@' in multiset(s);
    var i := IndexOf(s, '@');
    var d := s[i + 1..];
    var jd := LastIndexOf(d, '.');
    var j := i + 1 + jd;
    var mid := s[i + 1..j];
    assert mid == d[..jd] && s[j + 1..] == d[jd + 1..];
    assert AllEmailChars(mid) by {
      forall k | 0 <= k < |mid| ensures IsEmailChar(mid[k]) {
        assert mid[k] == d[k];
      }
    }
    assert SplitsAt(s, i, j);
  }

  /** The pattern and the shape describe the same strings. */
  lemma MatchesIffShape(s: string)
    ensures Matches(s) <==> AddressShape(s)
  {
    if Matches(s) {
      MatchesShape(s);
    }
    if AddressShape(s) {
      ShapeMatches(s);
    }
  }

  /** A match contains an '@'. */
  lemma MatchHasAt(s: string)
    requires Matches(s)
    ensures '@' in s
  {
    var i, j :| 0 < i < j < |s| && SplitsAt(s, i, j);
  }

  /** A match ends on a word character, as the final `\w+` forces. */
  lemma MatchEndsWithWordChar(s: string)
    requires Matches(s)
    ensures |s| > 0 && IsWordChar(s[|s| - 1])
  {
    var i, j :| 0 < i < j < |s| && SplitsAt(s, i, j);
    assert s[j + 1..][|s| - j - 2] == s[|s| - 1];
  }
}
