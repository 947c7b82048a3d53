/** What one scanning step and the whole scan promise, stated against the text. */
module LexerProps {
  import opened Wrappers
  import opened CType
  import opened Tokens
  import opened Lexer

  predicate IsKeyword(k: Kind) {
    k == Echo || k == For || k == If || k == Else || k == Foreach || k == As
  }

  /** The spelling of each keyword. */
  function KeywordText(k: Kind): (w: string)
    requires IsKeyword(k)
  {
    match k
    case Echo => "echo"
    case For => "for"
    case If => "if"
    case Else => "else"
    case Foreach => "foreach"
    case As => "as"
  }

  /**
   * A keyword followed by a non-alphanumeric character is always recognised
   * as that keyword, whatever keywords are checked before it: in particular
   * `foreach` is not taken for `for`, because `for` is then followed by `e`.
   */
  lemma ScanKeyword(s: string, k: Kind)
    requires IsKeyword(k)
    requires KeywordAt(s, KeywordText(k))
    ensures Peek(s, 0) != NUL
    ensures Scan(s) == Step(Some(Token(k, None)), |KeywordText(k)|)
  {
    var w := KeywordText(k);
    assert s[0] == s[..|w|][0] == w[0];
    Prefixes(s);
    if k == Foreach {
      assert s[..3] == s[..7][..3] == "for";
      assert Peek(s, 3) == s[..7][3] == 'e';
    } else if k == Else || k == Echo {
      assert s[1] == s[..4][1];
    }
  }

  /** Conversely, a keyword token comes only from its spelling at a word boundary. */
  lemma ScanKeywordOnlyAtBoundary(s: string)
    requires Peek(s, 0) != NUL
    requires Scan(s).tok.Some? && IsKeyword(Scan(s).tok.value.kind)
    ensures KeywordAt(s, KeywordText(Scan(s).tok.value.kind))
    ensures Scan(s).len == |KeywordText(Scan(s).tok.value.kind)|
    ensures Scan(s).tok.value.text == None
  {
  }

  /** Whitespace produces no token and consumes one character. */
  lemma ScanSpace(s: string)
    requires |s| > 0 && IsSpace(s[0])
    ensures Peek(s, 0) != NUL
    ensures Scan(s) == Step(None, 1)
  {
  }

  /** `<?php` is skipped wherever it occurs, before `<` could be taken for a comparison. */
  lemma ScanOpenTag(s: string)
    requires StartsWith(s, "<?php")
    ensures Peek(s, 0) != NUL
    ensures Scan(s) == Step(None, 5)
  {
    assert s[0] == s[..5][0] == '<';
  }

  /**
   * `$name`: the text is the longest run of letters and digits after the `$`
   * (possibly empty), without the `$`, and the scan resumes right after it.
   */
  lemma ScanVariable(s: string)
    requires |s| > 0 && s[0] == '$'
    ensures Peek(s, 0) != NUL
    ensures var r := Scan(s);
      && r.tok == Some(Token(Variable, Some(s[1..r.len])))
      && AllAlnum(s[1..r.len])
      && !IsAlnum(Peek(s, r.len))
  {
    Prefixes(s);
  }

  /** A digit run: the text is the longest run of digits, never empty. */
  lemma ScanNumber(s: string)
    requires |s| > 0 && IsDigit(s[0])
    ensures Peek(s, 0) != NUL
    ensures var r := Scan(s);
      && r.tok == Some(Token(Number, Some(s[..r.len])))
      && AllDigits(s[..r.len])
      && !IsDigit(Peek(s, r.len))
  {
    Prefixes(s);
  }

  /** `=>` is one ARROW token of two characters; any other `=` is EQUALS alone. */
  lemma ScanEquals(s: string)
    requires |s| > 0 && s[0] == '='
    ensures Peek(s, 0) != NUL
    ensures Peek(s, 1) == '>' ==> Scan(s) == Step(Some(Token(Arrow, None)), 2)
    ensures Peek(s, 1) != '>' ==> Scan(s) == Step(Some(Token(Equals, None)), 1)
  {
    Prefixes(s);
  }

  /**
   * A terminated string: the text is exactly the characters strictly between
   * the quotes, and the scan resumes just after the closing quote.
   */
  lemma ScanString(s: string, j: nat)
    requires 0 < j < |s| && s[0] == '"' && s[j] == '"'
    requires forall k :: 0 < k < j ==> s[k] != '"' && s[k] != NUL
    ensures Peek(s, 0) != NUL
    ensures Scan(s) == Step(Some(Token(String, Some(s[1..j]))), j + 1)
  {
    Prefixes(s);
    QuoteSpanExact(s, 1, j);
  }

  /**
   * An unterminated string takes the rest of the text (up to the terminator)
   * as its text and consumes it all.
   */
  lemma ScanUnterminatedString(s: string)
    requires |s| > 0 && s[0] == '"'
    requires forall k :: 0 < k < |s| ==> s[k] != '"' && s[k] != NUL
    ensures Scan(s) == Step(Some(Token(String, Some(s[1..]))), |s|)
  {
    Prefixes(s);
    QuoteSpanExact(s, 1, |s|);
    assert Punct(s[0]).None?;
    assert Peek(s, |s|) == NUL;
    assert s[1..|s|] == s[1..];
  }

  /** The quote scan stops at the first quote or terminator. */
  lemma {:induction false} QuoteSpanExact(s: string, i: nat, j: nat)
    requires i <= j <= |s|
    requires forall k :: i <= k < j ==> s[k] != '"' && s[k] != NUL
    requires Peek(s, j) == '"' || Peek(s, j) == NUL
    ensures QuoteSpan(s, i) == j
    decreases j - i
  {
    if i < j {
      QuoteSpanExact(s, i + 1, j);
    }
  }

  /** Each one-character punctuation token is one token of length one. */
  lemma ScanPunct(s: string)
    requires |s| > 0 && Punct(s[0]).Some?
    requires !StartsWith(s, "<?php")
    ensures Scan(s) == Step(Some(Token(Punct(s[0]).value, None)), 1)
  {
    Prefixes(s);
  }

  /** What starting with each fixed word says about the first characters. */
  lemma Prefixes(s: string)
    ensures StartsWith(s, "<?php") ==> s[0] == '<'
    ensures StartsWith(s, "echo") ==> s[0] == 'e' && s[1] == 'c'
    ensures StartsWith(s, "for") ==> s[0] == 'f'
    ensures StartsWith(s, "if") ==> s[0] == 'i'
    ensures StartsWith(s, "else") ==> s[0] == 'e' && s[1] == 'l'
    ensures StartsWith(s, "foreach") ==> s[0] == 'f'
    ensures StartsWith(s, "as") ==> s[0] == 'a'
  {
    PrefixChars(s, "<?php");
    PrefixChars(s, "echo");
    PrefixChars(s, "for");
    PrefixChars(s, "if");
    PrefixChars(s, "else");
    PrefixChars(s, "foreach");
    PrefixChars(s, "as");
  }

  lemma PrefixChars(s: string, w: string)
    ensures StartsWith(s, w) ==> forall i :: 0 <= i < |w| ==> s[i] == w[i]
  {
    if StartsWith(s, w) {
      forall i | 0 <= i < |w|
        ensures s[i] == w[i]
      {
        assert s[..|w|][i] == s[i];
      }
    }
  }

  /** The characters that start some token or are skipped. */
  predicate Recognised(s: string)
    requires |s| > 0
  {
    var c := s[0];
    || IsSpace(c) || StartsWith(s, "<?php")
    || KeywordAt(s, "echo") || KeywordAt(s, "for") || KeywordAt(s, "if")
    || KeywordAt(s, "else") || KeywordAt(s, "foreach") || KeywordAt(s, "as")
    || c == '$' || IsDigit(c) || c == '=' || c == '"' || Punct(c).Some?
  }

  /**
   * Anything else yields exactly one UNKNOWN token and moves on by one
   * character; nothing recognised ever does.
   */
  lemma ScanUnknown(s: string)
    requires Peek(s, 0) != NUL
    ensures Scan(s).tok == Some(Token(Unknown, None)) <==> !Recognised(s)
    ensures !Recognised(s) ==> Scan(s).len == 1
  {
    var c := s[0];
    if c == '=' {
      ScanEquals(s);
    }
  }

  /** Skipped input contributes nothing: the tokens are those of the rest. */
  lemma LexSkips(s: string)
    requires Peek(s, 0) != NUL
    requires Scan(s).tok.None?
    ensures Lex(s) == Lex(s[Scan(s).len..])
  {
  }

  /** A scanned token is followed by the tokens of the rest of the text. */
  lemma LexStep(s: string)
    requires Peek(s, 0) != NUL
    requires Scan(s).tok.Some?
    ensures Lex(s) == [Scan(s).tok.value] + Lex(s[Scan(s).len..])
  {
  }
}
