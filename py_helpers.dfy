/**
 * `utils/helpers.py` of the Python project: e-mail validation, slugs and
 * truncation. Python strings are sequences of code points, so `len` is `|s|`.
 */
module PyHelpers {
  import opened Ascii
  import opened EmailPattern

  // ---------------------------------------------------------------------------
  // validate_email

  /**
   * `bool(EMAIL_REGEX.match(email))`. Python's `$` also matches just before a
   * newline that ends the text, so one final '\n' is tolerated.
   */
  predicate ValidateEmail(email: string) {
    || Matches(email)
    || (|email| > 0 && email[|email| - 1] == '\n' && Matches(email[..|email| - 1]))
  }

  /** `email` without one final newline, if it has one. */
  function DropFinalNewline(email: string): (r: string)
    ensures |r| <= |email| && r == email[..|r|]
  {
    if |email| > 0 && email[|email| - 1] == '\n' then email[..|email| - 1] else email
  }

  /**
   * The accepted addresses: after dropping one final newline, exactly one '@'
   * with a local part and a domain of the stated shape.
   */
  lemma ValidateEmailIff(email: string)
    ensures ValidateEmail(email) <==> AddressShape(DropFinalNewline(email))
  {
    MatchesIffShape(DropFinalNewline(email));
    if |email| > 0 && email[|email| - 1] == '\n' && Matches(email) {
      MatchEndsWithWordChar(email);
    }
  }

  /** The accepted example, also with a final newline. */
  lemma ValidateEmailAcceptsExample(email: string)
    requires email == "user@example.com"
    ensures ValidateEmail(email)
    ensures ValidateEmail(email + "\n")
  {
    assert email[4] == '@' && email[12] == '.';
    assert email[..4] == "user" && email[5..12] == "example" && email[13..] == "com";
    assert AllEmailChars(email[..4]) && AllEmailChars(email[5..12]) && AllWordChars(email[13..]);
    assert SplitsAt(email, 4, 12);
    assert (email + "\n")[..|email|] == email;
  }

  /** The rejected example: it has no '@'. */
  lemma ValidateEmailRejectsExample(email: string)
    requires email == "not-an-email"
    ensures !ValidateEmail(email)
  {
    assert '@' !in email;
    if Matches(email) {
      MatchHasAt(email);
    }
    if |email| > 0 && Matches(email[..|email| - 1]) {
      MatchHasAt(email[..|email| - 1]);
    }
  }

  // ---------------------------------------------------------------------------
  // slugify

  /**
   * `re.sub(r'[^\w]+', '-', s)`: every maximal run of non-word characters
   * becomes one '-'. `inRun` says the character before `s` was non-word.
   */
  function ReplaceRuns(s: string, inRun: bool): (r: string) {
    if s == [] then []
    else if IsWordChar(s[0]) then [s[0]] + ReplaceRuns(s[1..], false)
    else if inRun then ReplaceRuns(s[1..], true)
    else ['-'] + ReplaceRuns(s[1..], true)
  }

  /** `s.lstrip(c)`: drops the leading `c`s and nothing else. */
  function StripLeading(s: string, c: char): (r: string)
    ensures |r| <= |s| && r == s[|s| - |r|..]
    ensures forall k :: 0 <= k < |s| - |r| ==> s[k] == c
    ensures r == [] || r[0] != c
  {
    if s != [] && s[0] == c then StripLeading(s[1..], c) else s
  }

  /** `s.rstrip(c)`: drops the trailing `c`s and nothing else. */
  function StripTrailing(s: string, c: char): (r: string)
    ensures |r| <= |s| && r == s[..|r|]
    ensures forall k :: |r| <= k < |s| ==> s[k] == c
    ensures r == [] || r[|r| - 1] != c
  {
    if s != [] && s[|s| - 1] == c then StripTrailing(s[..|s| - 1], c) else s
  }

  /** `s.strip(c)`. */
  function Strip(s: string, c: char): (r: string) {
    StripTrailing(StripLeading(s, c), c)
  }

  /** `slugify(text)`. */
  function Slugify(text: string): (r: string) {
    Strip(ReplaceRuns(Lower(text), false), '-')
  }

  predicate IsSlugChar(c: char) {
    ('a' <= c <= 'z') || ('0' <= c <= '9') || c == '_' || c == '-'
  }

  predicate NoDoubleDash(s: string) {
    forall k :: 0 <= k < |s| - 1 ==> !(s[k] == '-' && s[k + 1] == '-')
  }

  /**
   * What a slug looks like: lower-case word characters and '-', no '-' at
   * either end, and never two '-' in a row.
   */
  predicate IsSlug(s: string) {
    && AllSlugChars(s)
    && (s != [] ==> s[0] != '-' && s[|s| - 1] != '-')
    && NoDoubleDash(s)
  }

  predicate NoUpper(s: string) {
    forall k :: 0 <= k < |s| ==> !IsUpper(s[k])
  }

  lemma {:induction false} ReplaceRunsShape(s: string, inRun: bool)
    requires NoUpper(s)
    ensures var r := ReplaceRuns(s, inRun);
      && AllSlugChars(r)
      && NoDoubleDash(r)
      && (inRun && r != [] ==> r[0] != '-')
  {
    if s != [] {
      ReplaceRunsShape(s[1..], !IsWordChar(s[0]));
    }
  }

  lemma {:induction false} ReplaceRunsWordChars(s: string, inRun: bool)
    ensures WordChars(ReplaceRuns(s, inRun)) == WordChars(s)
  {
    if s != [] {
      ReplaceRunsWordChars(s[1..], !IsWordChar(s[0]));
      var rest := ReplaceRuns(s[1..], !IsWordChar(s[0]));
      if IsWordChar(s[0]) {
        WordCharsConcat([s[0]], rest);
      } else if !inRun {
        WordCharsConcat(['-'], rest);
      }
    }
  }

  /** A slug is left alone by the substitution. */
  lemma {:induction false} ReplaceRunsKeepsSlug(s: string, inRun: bool)
    requires AllSlugChars(s) && NoDoubleDash(s)
    requires inRun ==> s == [] || s[0] != '-'
    ensures ReplaceRuns(s, inRun) == s
  {
    if s != [] {
      ReplaceRunsKeepsSlug(s[1..], !IsWordChar(s[0]));
      assert s == [s[0]] + s[1..];
    }
  }

  lemma {:induction false} StripLeadingWordChars(s: string)
    ensures WordChars(StripLeading(s, '-')) == WordChars(s)
  {
    if s != [] && s[0] == '-' {
      StripLeadingWordChars(s[1..]);
    }
  }

  lemma {:induction false} StripTrailingWordChars(s: string)
    ensures WordChars(StripTrailing(s, '-')) == WordChars(s)
  {
    if s != [] && s[|s| - 1] == '-' {
      var init := s[..|s| - 1];
      StripTrailingWordChars(init);
      assert s == init + ['-'];
      WordCharsConcat(init, ['-']);
    }
  }

  /** Stripping only removes '-', so it keeps every word character. */
  lemma StripWordChars(s: string)
    ensures WordChars(Strip(s, '-')) == WordChars(s)
  {
    StripLeadingWordChars(s);
    StripTrailingWordChars(StripLeading(s, '-'));
  }

  predicate AllSlugChars(s: string) {
    forall k :: 0 <= k < |s| ==> IsSlugChar(s[k])
  }

  /** A suffix or prefix of a string keeps its characters and its lack of "--". */
  lemma SliceKeepsShape(s: string, i: nat, j: nat)
    requires i <= j <= |s|
    requires AllSlugChars(s) && NoDoubleDash(s)
    ensures AllSlugChars(s[i..j]) && NoDoubleDash(s[i..j])
  {
    var t := s[i..j];
    assert forall k :: 0 <= k < |t| ==> t[k] == s[i + k];
  }

  /** Stripping the dashes off a dash-separated string leaves a slug. */
  lemma StripMakesSlug(x: string)
    requires AllSlugChars(x) && NoDoubleDash(x)
    ensures IsSlug(Strip(x, '-'))
  {
    var l := StripLeading(x, '-');
    SliceKeepsShape(x, |x| - |l|, |x|);
    var r := StripTrailing(l, '-');
    SliceKeepsShape(l, 0, |r|);
    if r != [] {
      assert r[0] == l[0];
    }
  }

  /** The output of `slugify` is always a slug. */
  lemma SlugifyIsSlug(text: string)
    ensures IsSlug(Slugify(text))
  {
    var lowered := Lower(text);
    assert NoUpper(lowered);
    ReplaceRunsShape(lowered, false);
    StripMakesSlug(ReplaceRuns(lowered, false));
  }

  /** `slugify` keeps the word characters of its input, lower-cased and in order. */
  lemma SlugifyWordChars(text: string)
    ensures WordChars(Slugify(text)) == Lower(WordChars(text))
  {
    StripWordChars(ReplaceRuns(Lower(text), false));
    ReplaceRunsWordChars(Lower(text), false);
    WordCharsLower(text);
  }

  /** The slug is empty exactly when the input has no word character. */
  lemma SlugifyEmptyIff(text: string)
    ensures Slugify(text) == [] <==> WordChars(text) == []
  {
    var r := Slugify(text);
    SlugifyWordChars(text);
    SlugifyIsSlug(text);
    if r != [] {
      assert IsWordChar(r[0]);
      assert WordChars(r) != [];
    }
  }

  /** A slug is its own slug. */
  lemma SlugIsFixpoint(s: string)
    requires IsSlug(s)
    ensures Slugify(s) == s
  {
    assert Lower(s) == s;
    ReplaceRunsKeepsSlug(s, false);
  }

  lemma SlugifyIdempotent(text: string)
    ensures Slugify(Slugify(text)) == Slugify(text)
  {
    SlugifyIsSlug(text);
    SlugIsFixpoint(Slugify(text));
  }

  /** A nonempty run of word characters is copied. */
  lemma {:induction false} ReplaceRunsWord(w: string, s: string, inRun: bool)
    requires w != [] && AllWordChars(w)
    ensures ReplaceRuns(w + s, inRun) == w + ReplaceRuns(s, false)
  {
    assert (w + s)[1..] == w[1..] + s;
    if |w| > 1 {
      ReplaceRunsWord(w[1..], s, false);
    }
  }

  /** A nonempty run of non-word characters gives one '-', or none inside a run. */
  lemma {:induction false} ReplaceRunsGap(g: string, s: string, inRun: bool)
    requires g != [] && forall k :: 0 <= k < |g| ==> !IsWordChar(g[k])
    ensures ReplaceRuns(g + s, inRun) == (if inRun then [] else ['-']) + ReplaceRuns(s, true)
  {
    assert (g + s)[1..] == g[1..] + s;
    if |g| > 1 {
      ReplaceRunsGap(g[1..], s, true);
    }
  }

  lemma ReplaceRunsExample(hello: string, gap: string, world: string, bang: string)
    requires hello == "hello" && gap == ", " && world == "world" && bang == "!"
    ensures ReplaceRuns(hello + gap + world + bang, false) == "hello-world-"
  {
    assert hello + gap + world + bang == hello + (gap + (world + (bang + [])));
    ReplaceRunsGap(bang, [], false);
    ReplaceRunsWord(world, bang + [], true);
    ReplaceRunsGap(gap, world + (bang + []), false);
    ReplaceRunsWord(hello, gap + (world + (bang + [])), false);
  }

  lemma SlugifyExample(text: string)
    requires text == "Hello, World!"
    ensures Slugify(text) == "hello-world"
  {
    var lowered := Lower(text);
    assert lowered == "hello" + ", " + "world" + "!";
    ReplaceRunsExample("hello", ", ", "world", "!");
    var dashed := "hello-world-";
    assert Strip(dashed, '-') == "hello-world";
  }

  // ---------------------------------------------------------------------------
  // truncate

  /** Python's `s[:k]`: a negative `k` counts from the end; both ends clamp. */
  function SliceTo(s: string, k: int): (r: string)
    ensures |r| <= |s| && r == s[..|r|]
    ensures k >= 0 ==> |r| == if k <= |s| then k else |s|
    ensures k < 0 ==> |r| == if |s| + k >= 0 then |s| + k else 0
  {
    if k >= 0 then s[..if k <= |s| then k else |s|]
    else s[..if |s| + k >= 0 then |s| + k else 0]
  }

  /** `truncate(text, max_length=100)`. */
  function Truncate(text: string, maxLength: int := 100): (r: string) {
    if |text| <= maxLength then text else SliceTo(text, maxLength - 3) + "..."
  }

  /** Text that fits comes back unchanged. */
  lemma TruncateFits(text: string, maxLength: int)
    requires |text| <= maxLength
    ensures Truncate(text, maxLength) == text
  {
  }

  /** Text that does not fit is cut to exactly `maxLength`, ending in "...". */
  lemma TruncateCuts(text: string, maxLength: int)
    requires 3 <= maxLength < |text|
    ensures var r := Truncate(text, maxLength);
      && |r| == maxLength
      && r[..maxLength - 3] == text[..maxLength - 3]
      && r[maxLength - 3..] == "..."
  {
  }

  /** With the default limit the result never exceeds 100 characters. */
  lemma TruncateDefaultBound(text: string)
    ensures |Truncate(text)| <= 100
    ensures |text| <= 100 ==> Truncate(text) == text
  {
  }

  /**
   * Below 3 the slice bound goes negative and Python reads it from the end:
   * the result is then longer than `maxLength`.
   */
  lemma TruncateSmallLimit(text: string, maxLength: int)
    requires maxLength < 3 && maxLength < |text|
    ensures var r := Truncate(text, maxLength);
      && |r| > maxLength
      && r == text[..if |text| + maxLength - 3 >= 0 then |text| + maxLength - 3 else 0] + "..."
  {
  }

  lemma TruncateExample()
    ensures Truncate("abcdefghij", 5) == "ab..."
  {
  }
}
