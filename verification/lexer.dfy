/**
 * The scanner of lexer.c: one left-to-right pass over the source text with no
 * backtracking.  `Scan` is one iteration of the scanning loop at the start of
 * the remaining text; `Lex` is the whole loop followed by the closing EOF.
 * The C position index is implicit: `Lex(s[pos..])` is what the loop produces
 * from position `pos` on.
 */
module Lexer {
  import opened Wrappers
  import opened CType
  import opened Tokens

  /** The result of one loop iteration: the token appended, if any, and the characters consumed. */
  datatype Step = Step(tok: Option<Token>, len: nat)

  predicate StartsWith(s: string, w: string) {
    |w| <= |s| && s[..|w|] == w
  }

  /** A keyword matches only when the character after it is not alphanumeric. */
  predicate KeywordAt(s: string, w: string) {
    StartsWith(s, w) && !IsAlnum(Peek(s, |w|))
  }

  /** The one-character tokens other than `=` (which may start `=>`). */
  function Punct(c: char): Option<Kind> {
    match c
    case ';' => Some(Semicolon)
    case '+' => Some(Plus)
    case '*' => Some(Multiply)
    case '/' => Some(Divide)
    case '-' => Some(Minus)
    case '(' => Some(OpenParen)
    case ')' => Some(CloseParen)
    case '{' => Some(OpenBrace)
    case '}' => Some(CloseBrace)
    case '<' => Some(Less)
    case '>' => Some(Greater)
    case '[' => Some(OpenBracket)
    case ']' => Some(CloseBracket)
    case ',' => Some(Comma)
    case _ => None
  }

  /** The first index from i on that holds a double quote or the terminator. */
  function QuoteSpan(s: string, i: nat): (j: nat)
    requires i <= |s|
    ensures i <= j <= |s|
    ensures forall k :: i <= k < j ==> s[k] != '"' && s[k] != NUL
    ensures Peek(s, j) == '"' || Peek(s, j) == NUL
    decreases |s| - i
  {
    if i < |s| && s[i] != '"' && s[i] != NUL then QuoteSpan(s, i + 1) else i
  }

  /** A token without text (add_token with a NULL value). */
  function Bare(k: Kind, len: nat): Step {
    Step(Some(Token(k, None)), len)
  }

  /**
   * One iteration of the scanning loop on the remaining text s.  The tests
   * are tried in the order of the C code; the first that matches decides.
   */
  function Scan(s: string): (r: Step)
    requires Peek(s, 0) != NUL
    ensures 1 <= r.len <= |s|
    ensures r.tok.Some? ==> r.tok.value.kind != EOF
    ensures r.tok.Some? ==> (r.tok.value.text.Some? <==> Textual(r.tok.value.kind))
  {
    var c := s[0];
    if IsSpace(c) then Step(None, 1)
    else if StartsWith(s, "<?php") then Step(None, 5)
    else if KeywordAt(s, "echo") then Bare(Echo, 4)
    else if KeywordAt(s, "for") then Bare(For, 3)
    else if KeywordAt(s, "if") then Bare(If, 2)
    else if KeywordAt(s, "else") then Bare(Else, 4)
    else if KeywordAt(s, "foreach") then Bare(Foreach, 7)
    else if KeywordAt(s, "as") then Bare(As, 2)
    else if c == '$' then
      var e := AlnumSpan(s, 1);
      Step(Some(Token(Variable, Some(s[1..e]))), e)
    else if IsDigit(c) then
      var e := DigitSpan(s, 0);
      Step(Some(Token(Number, Some(s[..e]))), e)
    else if c == '=' then
      if Peek(s, 1) == '>' then Bare(Arrow, 2) else Bare(Equals, 1)
    else if Punct(c).Some? then Bare(Punct(c).value, 1)
    else if c == '"' then
      var e := QuoteSpan(s, 1);
      // An unterminated string stops at the end of the text instead of
      // stepping past the terminator as the C code does.
      Step(Some(Token(String, Some(s[1..e]))), if Peek(s, e) == '"' then e + 1 else e)
    else Bare(Unknown, 1)
  }

  /** add_token: append the token of one step, if it produced one. */
  function Emit(t: Option<Token>): seq<Token> {
    if t.Some? then [t.value] else []
  }

  /**
   * lexer_tokenize from the start of s: the tokens of every loop iteration in
   * order, then a single EOF once the terminator is reached.
   */
  function Lex(s: string): (ts: seq<Token>)
    ensures WellFormed(ts)
    ensures ts[|ts| - 1] == Token(EOF, None)
    decreases |s|
  {
    if Peek(s, 0) == NUL then [Token(EOF, None)]
    else
      var st := Scan(s);
      Emit(st.tok) + Lex(s[st.len..])
  }
}
