/**
 * `utils/validators.go` of the Go project. Go's RE2 `\w` is ASCII and its `$`
 * (without the multi-line flag) is the end of the text; `len` counts bytes.
 */
module GoValidators {
  import opened Ascii
  import opened EmailPattern
  import Utf8
  import PyHelpers

  /** `ValidateEmail(email)`: `emailRegex.MatchString(email)`. */
  predicate ValidateEmail(email: string) {
    Matches(email)
  }

  /** `ValidateName(name)`: `len(name) >= 2`, with `len` in bytes. */
  predicate ValidateName(name: string) {
    Utf8.Length(name) >= 2
  }

  /** Accepted addresses are exactly those of the local@domain.tld shape. */
  lemma ValidateEmailIff(email: string)
    ensures ValidateEmail(email) <==> AddressShape(email)
  {
    MatchesIffShape(email);
  }

  /** An accepted address has exactly one '@' and a '.' after it. */
  lemma ValidateEmailOneAt(email: string)
    requires ValidateEmail(email)
    ensures multiset(email)['@'] == 1
    ensures var i := IndexOf(email, '@'); '.' in email[i + 1..]
  {
    MatchesShape(email);
  }

  /** Unlike Python's `$`, Go's does not let a final newline through. */
  lemma ValidateEmailRejectsFinalNewline(email: string)
    requires |email| > 0 && email[|email| - 1] == '\n'
    ensures !ValidateEmail(email)
  {
    if Matches(email) {
      MatchEndsWithWordChar(email);
    }
  }

  /** The Go and Python validators agree on all text that does not end in a newline. */
  lemma ValidateEmailAgreesWithPython(email: string)
    requires |email| == 0 || email[|email| - 1] != '\n'
    ensures ValidateEmail(email) <==> PyHelpers.ValidateEmail(email)
  {
  }

  /** ... and differ on this one. */
  lemma ValidateEmailNewlineExample(address: string)
    requires address == "user@example.com"
    ensures !ValidateEmail(address + "\n") && PyHelpers.ValidateEmail(address + "\n")
  {
    ValidateEmailRejectsFinalNewline(address + "\n");
    PyHelpers.ValidateEmailAcceptsExample(address);
  }

  /** The empty name and every one-byte name are rejected. */
  lemma ValidateNameRejectsShort(name: string)
    requires name == [] || (|name| == 1 && IsAsciiChar(name[0]))
    ensures !ValidateName(name)
  {
    if name != [] {
      assert name[1..] == [];
    }
  }

  /** Two or more characters always make at least two bytes. */
  lemma ValidateNameAcceptsLong(name: string)
    requires |name| >= 2
    ensures ValidateName(name)
  {
  }

  /** On ASCII names the byte test is the character count. */
  lemma ValidateNameAscii(name: string)
    requires forall k :: 0 <= k < |name| ==> IsAsciiChar(name[k])
    ensures ValidateName(name) <==> |name| >= 2
  {
    Utf8.LengthAscii(name);
  }

  /** One character outside ASCII is already two bytes, so it passes. */
  lemma ValidateNameMultiByte(c: char)
    requires !IsAsciiChar(c)
    ensures ValidateName([c])
  {
    assert [c][1..] == [];
  }
}
