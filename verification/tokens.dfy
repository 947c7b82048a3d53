/** The token vocabulary shared by the lexer and the interpreter. */
module Tokens {
  import opened Wrappers

  /** The closed set of token kinds, in the order of the C enumeration. */
  datatype Kind =
    | EOF | Echo | String | Variable | Semicolon | Equals | Number
    | Plus | Multiply | Divide | Minus
    | For | If | Else | Foreach | As
    | OpenParen | CloseParen | OpenBrace | CloseBrace
    | Less | Greater | Arrow | OpenBracket | CloseBracket | Comma
    | Unknown

  /** A token: its kind and a text that may be absent (a NULL `value`). */
  datatype Token = Token(kind: Kind, text: Option<string>)

  /** The kinds whose tokens carry a text. */
  predicate Textual(k: Kind) {
    k == Variable || k == Number || k == String
  }

  /** The sequence ends in an EOF token, which every cursor loop stops at. */
  predicate Sentinel(ts: seq<Token>) {
    |ts| > 0 && ts[|ts| - 1].kind == EOF
  }

  /**
   * What the lexer guarantees of its output: exactly one EOF, at the end,
   * and a text on a token exactly when its kind is textual.
   */
  predicate WellFormed(ts: seq<Token>) {
    && Sentinel(ts)
    && (forall i :: 0 <= i < |ts| - 1 ==> ts[i].kind != EOF)
    && (forall i :: 0 <= i < |ts| ==> (ts[i].text.Some? <==> Textual(ts[i].kind)))
  }
}
