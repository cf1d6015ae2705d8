/** Character classes of the C library (`isspace`, `isdigit`, `isalpha`,
    `isalnum`) in the "C" locale.  Source text is a `string` in which every
    character stands for one byte. */
module Chars {

  /** `isspace`: blank, tab, newline, vertical tab, form feed, carriage return. */
  predicate IsSpace(c: char) {
    c == ' ' || ('\t' <= c <= '\r')
  }

  predicate IsDigit(c: char) {
    '0' <= c <= '9'
  }

  predicate IsAlpha(c: char) {
    ('a' <= c <= 'z') || ('A' <= c <= 'Z')
  }

  predicate IsAlnum(c: char) {
    IsAlpha(c) || IsDigit(c)
  }

  function DigitValue(c: char): (d: nat)
    requires IsDigit(c)
    ensures d < 10
    ensures c == '0' + (d as char)
  {
    (c - '0') as nat
  }

  /** `(double)c` for a `char`, which is signed on the targets the program is
      built for: bytes 0x80..0xFF read as -128..-1. */
  function SignedCharCode(c: char): (r: int)
    ensures -128 <= r < 128
    ensures c as int < 128 ==> r == c as int
  {
    var b := (c as int) % 256;
    if b >= 128 then b - 256 else b
  }

  /** Removes every whitespace character (`erase(remove_if(..., ::isspace))`). */
  function RemoveSpaces(s: string): (r: string)
    ensures |r| <= |s|
    ensures forall i :: 0 <= i < |r| ==> !IsSpace(r[i])
    ensures (forall i :: 0 <= i < |s| ==> !IsSpace(s[i])) ==> r == s
  {
    if s == [] then []
    else if IsSpace(s[0]) then RemoveSpaces(s[1..])
    else [s[0]] + RemoveSpaces(s[1..])
  }

  /** Removing spaces works character by character: a space disappears,
      any other character is kept, and the pieces stay in their order. */
  lemma {:induction false} RemoveSpacesAppend(a: string, b: string)
    ensures RemoveSpaces(a + b) == RemoveSpaces(a) + RemoveSpaces(b)
    ensures |a| == 1 ==> RemoveSpaces(a) == if IsSpace(a[0]) then [] else a
  {
    if a != [] {
      assert (a + b)[0] == a[0] && (a + b)[1..] == a[1..] + b;
      RemoveSpacesAppend(a[1..], b);
      if |a| == 1 {
        assert a[1..] == [];
      }
    } else {
      assert a + b == b;
    }
  }

  /** `s.find_first_not_of(" \t\n\r") == npos`: only blanks, tabs, newlines
      and carriage returns (vertical tab and form feed do not count). */
  predicate IsBlank(s: string) {
    forall i :: 0 <= i < |s| ==> s[i] in {' ', '\t', '\n', '\r'}
  }
}
