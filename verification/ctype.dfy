/**
 * The C-locale character classes of <ctype.h> that the lexer and atof use,
 * and the maximal runs of them.
 */
module CType {

  /** The terminator of a C string; `Peek` yields it past the end of the text. */
  const NUL: char := '\0'

  /** isspace: space, tab, newline, vertical tab, form feed, carriage return. */
  predicate IsSpace(c: char) {
    c == ' ' || c == '\t' || c == '\n' || c == '\U{B}' || c == '\U{C}' || c == '\r'
  }

  predicate IsDigit(c: char) {
    '0' <= c <= '9'
  }

  predicate IsAlpha(c: char) {
    ('a' <= c <= 'z') || ('A' <= c <= 'Z')
  }

  predicate IsAlnum(c: char) {
    IsAlpha(c) || IsDigit(c)
  }

  /** The character at index i, or NUL at and past the end (the C terminator). */
  function Peek(s: string, i: nat): char {
    if i < |s| then s[i] else NUL
  }

  predicate AllDigits(s: string) {
    forall k :: 0 <= k < |s| ==> IsDigit(s[k])
  }

  predicate AllAlnum(s: string) {
    forall k :: 0 <= k < |s| ==> IsAlnum(s[k])
  }

  /** The end of the longest run of digits starting at i. */
  function DigitSpan(s: string, i: nat): (j: nat)
    requires i <= |s|
    ensures i <= j <= |s|
    ensures AllDigits(s[i..j])
    ensures !IsDigit(Peek(s, j))
    decreases |s| - i
  {
    if i < |s| && IsDigit(s[i]) then DigitSpan(s, i + 1) else i
  }

  /** The end of the longest run of letters and digits starting at i. */
  function AlnumSpan(s: string, i: nat): (j: nat)
    requires i <= |s|
    ensures i <= j <= |s|
    ensures AllAlnum(s[i..j])
    ensures !IsAlnum(Peek(s, j))
    decreases |s| - i
  {
    if i < |s| && IsAlnum(s[i]) then AlnumSpan(s, i + 1) else i
  }

  /** A digit run is found exactly: the span from i ends where the digits do. */
  lemma {:induction false} DigitSpanExact(s: string, i: nat, j: nat)
    requires i <= j <= |s|
    requires AllDigits(s[i..j])
    requires !IsDigit(Peek(s, j))
    ensures DigitSpan(s, i) == j
    decreases j - i
  {
    if i < j {
      assert s[i..j][0] == s[i];
      assert s[i + 1..j] == s[i..j][1..];
      DigitSpanExact(s, i + 1, j);
    }
  }

  /** An alphanumeric run is found exactly: the span from i ends where the run does. */
  lemma {:induction false} AlnumSpanExact(s: string, i: nat, j: nat)
    requires i <= j <= |s|
    requires AllAlnum(s[i..j])
    requires !IsAlnum(Peek(s, j))
    ensures AlnumSpan(s, i) == j
    decreases j - i
  {
    if i < j {
      assert s[i..j][0] == s[i];
      assert s[i + 1..j] == s[i..j][1..];
      AlnumSpanExact(s, i + 1, j);
    }
  }
}
