/**
 * The scanner read backwards: every token the scanner can produce has a
 * spelling, and scanning the spellings of a token list, separated by blanks,
 * gives back exactly that list followed by EOF.
 */
module LexerRoundTrip {
  import opened Wrappers
  import opened CType
  import opened Tokens
  import opened Lexer
  import opened LexerProps

  /** The tokens that have a spelling: any kind but EOF, with a text of the right shape. */
  predicate Spellable(t: Token) {
    match t.kind
    case EOF => false
    case Variable => t.text.Some? && AllAlnum(t.text.value)
    case Number => t.text.Some? && |t.text.value| > 0 && AllDigits(t.text.value)
    case String =>
      t.text.Some? && forall k :: 0 <= k < |t.text.value| ==> t.text.value[k] != '"' && t.text.value[k] != NUL
    case _ => t.text.None?
  }

  /** The source text of a token. */
  function Spelling(t: Token): (w: string)
    requires Spellable(t)
    ensures |w| > 0
  {
    match t.kind
    case Echo => "echo"
    case For => "for"
    case If => "if"
    case Else => "else"
    case Foreach => "foreach"
    case As => "as"
    case Variable => "$" + t.text.value
    case Number => t.text.value
    case String => "\"" + t.text.value + "\""
    case Equals => "="
    case Arrow => "=>"
    case Semicolon => ";"
    case Plus => "+"
    case Multiply => "*"
    case Divide => "/"
    case Minus => "-"
    case OpenParen => "("
    case CloseParen => ")"
    case OpenBrace => "{"
    case CloseBrace => "}"
    case Less => "<"
    case Greater => ">"
    case OpenBracket => "["
    case CloseBracket => "]"
    case Comma => ","
    case Unknown => "@"
  }

  /** Every token of the list has a spelling. */
  predicate AllSpellable(ts: seq<Token>) {
    forall i :: 0 <= i < |ts| ==> Spellable(ts[i])
  }

  /** The spellings of a token list, each followed by a blank. */
  function Unlex(ts: seq<Token>): string
    requires AllSpellable(ts)
  {
    if |ts| == 0 then "" else Spelling(ts[0]) + " " + Unlex(ts[1..])
  }

  /** One scanning step reads a spelled token back, whatever follows the blank. */
  lemma ScanSpelling(t: Token, rest: string)
    requires Spellable(t)
    ensures Peek(Spelling(t) + " " + rest, 0) != NUL
    ensures Scan(Spelling(t) + " " + rest) == Step(Some(t), |Spelling(t)|)
  {
    if t.kind == Variable {
      ScanSpellingVariable(t, rest);
    } else if t.kind == Number {
      ScanSpellingNumber(t, rest);
    } else if t.kind == String {
      ScanSpellingString(t, rest);
    } else if IsKeyword(t.kind) {
      ScanSpellingKeyword(t, rest);
    } else {
      ScanSpellingSymbol(t, rest);
    }
  }

  /** A keyword followed by a blank is read as that keyword. */
  lemma ScanSpellingKeyword(t: Token, rest: string)
    requires Spellable(t) && IsKeyword(t.kind)
    ensures Peek(Spelling(t) + " " + rest, 0) != NUL
    ensures Scan(Spelling(t) + " " + rest) == Step(Some(t), |Spelling(t)|)
  {
    var w := Spelling(t);
    var s := w + " " + rest;
    assert w == KeywordText(t.kind);
    assert s[..|w|] == w;
    assert Peek(s, |w|) == ' ';
    ScanKeyword(s, t.kind);
  }

  /** A variable's spelling is read as the variable with its name. */
  lemma ScanSpellingVariable(t: Token, rest: string)
    requires Spellable(t) && t.kind == Variable
    ensures Peek(Spelling(t) + " " + rest, 0) != NUL
    ensures Scan(Spelling(t) + " " + rest) == Step(Some(t), |Spelling(t)|)
  {
    var w := Spelling(t);
    var s := w + " " + rest;
    assert Peek(s, |w|) == ' ';
    ScanVariable(s);
    assert s[1..|w|] == t.text.value;
    AlnumSpanExact(s, 1, |w|);
  }

  /** A number's spelling is read as the number with its digits. */
  lemma ScanSpellingNumber(t: Token, rest: string)
    requires Spellable(t) && t.kind == Number
    ensures Peek(Spelling(t) + " " + rest, 0) != NUL
    ensures Scan(Spelling(t) + " " + rest) == Step(Some(t), |Spelling(t)|)
  {
    var w := Spelling(t);
    var s := w + " " + rest;
    assert Peek(s, |w|) == ' ';
    ScanNumber(s);
    assert s[..|w|] == t.text.value;
    DigitSpanExact(s, 0, |w|);
  }

  /** A quoted string is read as the string between the quotes. */
  lemma ScanSpellingString(t: Token, rest: string)
    requires Spellable(t) && t.kind == String
    ensures Peek(Spelling(t) + " " + rest, 0) != NUL
    ensures Scan(Spelling(t) + " " + rest) == Step(Some(t), |Spelling(t)|)
  {
    var w := Spelling(t);
    var s := w + " " + rest;
    var j := |w| - 1;
    assert s[1..j] == t.text.value;
    forall k | 0 < k < j
      ensures s[k] != '"' && s[k] != NUL
    {
      assert s[k] == t.text.value[k - 1];
    }
    ScanString(s, j);
  }

  /** An operator or a punctuation mark is read as itself. */
  lemma ScanSpellingSymbol(t: Token, rest: string)
    requires Spellable(t) && !IsKeyword(t.kind)
    requires t.kind != Variable && t.kind != Number && t.kind != String
    ensures Peek(Spelling(t) + " " + rest, 0) != NUL
    ensures Scan(Spelling(t) + " " + rest) == Step(Some(t), |Spelling(t)|)
  {
    var w := Spelling(t);
    var s := w + " " + rest;
    if t.kind == Equals {
      ScanEquals(s);
    } else if t.kind == Arrow {
      assert s[1] == '>';
      ScanEquals(s);
    } else if t.kind == Unknown {
      ScanUnknown(s);
    } else {
      PunctSpelling(t);
      assert s == [w[0]] + " " + rest;
      ScanPunctSpelled(w[0], rest);
    }
  }

  /** The remaining symbols are spelled by the one character Punct maps to their kind. */
  lemma PunctSpelling(t: Token)
    requires Spellable(t) && !IsKeyword(t.kind)
    requires t.kind !in {Variable, Number, String, Equals, Arrow, Unknown}
    ensures |Spelling(t)| == 1 && Punct(Spelling(t)[0]) == Some(t.kind)
  {
  }

  /** A punctuation character followed by a blank is one token of length one. */
  lemma ScanPunctSpelled(c: char, rest: string)
    requires Punct(c).Some?
    ensures Scan([c] + " " + rest) == Step(Some(Token(Punct(c).value, None)), 1)
  {
    var s := [c] + " " + rest;
    assert |s| >= 5 ==> s[..5][1] == ' ';
    ScanPunct(s);
  }

  /** Scanning the spelled list gives the list back, then the EOF sentinel. */
  lemma {:induction false} LexUnlex(ts: seq<Token>)
    requires AllSpellable(ts)
    ensures Lex(Unlex(ts)) == ts + [Token(EOF, None)]
  {
    if |ts| == 0 {
      assert Unlex(ts) == "";
    } else {
      var t := ts[0];
      var rest := Unlex(ts[1..]);
      var s := Spelling(t) + " " + rest;
      assert Unlex(ts) == s;
      ScanSpelling(t, rest);
      assert s[|Spelling(t)|..] == " " + rest;
      LexThenBlank(s, t, |Spelling(t)|, rest);
      LexUnlex(ts[1..]);
      ConsAppend(ts, [Token(EOF, None)]);
    }
  }

  /** A token read at the start, then a blank: the tokens are that one and those of the rest. */
  lemma LexThenBlank(s: string, t: Token, n: nat, rest: string)
    requires Peek(s, 0) != NUL && Scan(s) == Step(Some(t), n)
    requires s[n..] == " " + rest
    ensures Lex(s) == [t] + Lex(rest)
  {
    LexStep(s);
    ScanSpace(" " + rest);
    LexSkips(" " + rest);
    assert (" " + rest)[1..] == rest;
  }

  /** A non-empty list followed by x is its head followed by its tail and x. */
  lemma ConsAppend<T>(xs: seq<T>, x: seq<T>)
    requires |xs| > 0
    ensures xs + x == [xs[0]] + (xs[1..] + x)
  {
    assert xs == [xs[0]] + xs[1..];
  }
}
