/** What parse_array promises: source order, keys exactly at arrows, optional commas, snapshots. */
module ArrayProps {
  import opened Wrappers
  import opened Tokens
  import opened Faults
  import opened Environment
  import opened Cursor
  import opened ArrayLiteral

  /**
   * What an element token stands for when the literal is read: a variable's
   * scalar at that moment, or any other token's own text.
   */
  function Denotes(env: Env, t: Token): Option<string> {
    if t.kind == Variable then (if t.text.Some? then GetValue(env, t.text.value) else None) else t.text
  }

  /** A token an element can be written with: a string or number literal, or a variable holding a scalar. */
  predicate Writable(env: Env, t: Token) {
    (t.kind == String || t.kind == Number || t.kind == Variable) && Denotes(env, t).Some?
  }

  /** One element as written: an optional key token and `=>`, the value token, and whether a comma follows. */
  datatype Entry = Entry(key: Option<Token>, value: Token, comma: bool)

  predicate Written(env: Env, e: Entry) {
    (e.key.Some? ==> Writable(env, e.key.value)) && Writable(env, e.value)
  }

  predicate AllWritten(env: Env, es: seq<Entry>) {
    forall i :: 0 <= i < |es| ==> Written(env, es[i])
  }

  /** The item an entry stands for. */
  function ItemOf(env: Env, e: Entry): Item {
    Item(if e.key.Some? then Denotes(env, e.key.value) else None, Denotes(env, e.value).GetOr(""))
  }

  /** The items the entries stand for, in order. */
  function Items(env: Env, es: seq<Entry>): ArrayValue {
    if |es| == 0 then [] else [ItemOf(env, es[0])] + Items(env, es[1..])
  }

  /** The tokens of one entry. */
  function Head(e: Entry): seq<Token> {
    (if e.key.Some? then [e.key.value, Token(Arrow, None)] else [])
    + [e.value]
    + (if e.comma then [Token(Comma, None)] else [])
  }

  /** The tokens of the entries, one after another. */
  function ItemTokens(es: seq<Entry>): seq<Token> {
    if |es| == 0 then [] else Head(es[0]) + ItemTokens(es[1..])
  }

  /** The array literal that spells the entries. */
  function Literal(es: seq<Entry>): seq<Token> {
    [Token(OpenBracket, None)] + ItemTokens(es) + [Token(CloseBracket, None)]
  }

  /**
   * The element loop from p.  Stating the lemmas below through this name
   * keeps each of them to one unfolding of the loop.
   */
  function ReadFrom(ts: seq<Token>, env: Env, p: nat): Outcome<(ArrayValue, nat)> {
    Elements(ts, env, p)
  }

  /** A written token resolves to what it stands for. */
  lemma ResolveDenotes(env: Env, t: Token)
    requires Writable(env, t)
    ensures Resolve(env, t) == Ok(Denotes(env, t))
  {
  }

  /** A keyed element `k => v` reads as the pair of what k and v stand for. */
  lemma ElementKeyed(ts: seq<Token>, env: Env, p: nat)
    requires p + 2 < |ts|
    requires Writable(env, ts[p]) && ts[p + 1] == Token(Arrow, None) && Writable(env, ts[p + 2])
    ensures Element(ts, env, p) == Ok((Item(Denotes(env, ts[p]), Denotes(env, ts[p + 2]).value), p + 3))
  {
    ResolveDenotes(env, ts[p]);
    ResolveDenotes(env, ts[p + 2]);
  }

  /** An element not followed by an arrow reads as an item without a key. */
  lemma ElementPlain(ts: seq<Token>, env: Env, p: nat)
    requires p + 1 < |ts|
    requires Writable(env, ts[p]) && ts[p + 1].kind != Arrow
    ensures Element(ts, env, p) == Ok((Item(None, Denotes(env, ts[p]).value), p + 1))
  {
    ResolveDenotes(env, ts[p]);
  }

  /** One turn of the element loop: the element read at p, an optional comma, then the rest. */
  lemma ElementsAfter(ts: seq<Token>, env: Env, p: nat, it: Item, e: nat)
    requires p < |ts| && ts[p].kind != CloseBracket && ts[p].kind != EOF
    requires Element(ts, env, p) == Ok((it, e)) && e < |ts|
    ensures var q := if ts[e].kind == Comma then e + 1 else e;
      var r := ReadFrom(ts, env, q);
      r.Ok? ==> ReadFrom(ts, env, p) == Ok(([it] + r.value.0, r.value.1))
  {
  }

  /** One written entry at p is read as its item, ahead of whatever the loop reads after it. */
  lemma ElementsStep(ts: seq<Token>, env: Env, p: nat, en: Entry, rest: ArrayValue, end: nat)
    requires Written(env, en) && p + |Head(en)| < |ts|
    requires ts[p..p + |Head(en)|] == Head(en)
    requires ts[p + |Head(en)|].kind != Arrow && ts[p + |Head(en)|].kind != Comma
    requires ReadFrom(ts, env, p + |Head(en)|) == Ok((rest, end))
    ensures ReadFrom(ts, env, p) == Ok(([ItemOf(env, en)] + rest, end))
  {
    var e := ElementOfHead(ts, env, p, en);
    ElementsAfter(ts, env, p, ItemOf(env, en), e);
  }

  /**
   * The element read at a written entry is the entry's item; it ends at the
   * entry's comma when there is one, else where the next entry begins.
   */
  lemma ElementOfHead(ts: seq<Token>, env: Env, p: nat, en: Entry) returns (e: nat)
    requires Written(env, en) && p + |Head(en)| < |ts|
    requires ts[p..p + |Head(en)|] == Head(en)
    requires ts[p + |Head(en)|].kind != Arrow && ts[p + |Head(en)|].kind != Comma
    ensures ts[p].kind != CloseBracket && ts[p].kind != EOF
    ensures Element(ts, env, p) == Ok((ItemOf(env, en), e)) && e < |ts|
    ensures (if ts[e].kind == Comma then e + 1 else e) == p + |Head(en)|
  {
    var h := Head(en);
    var q := p + |h|;
    e := if en.key.Some? then p + 3 else p + 1;
    var c := if en.comma then [Token(Comma, None)] else [];
    if en.key.Some? {
      assert h == [en.key.value, Token(Arrow, None), en.value] + c;
      SliceAt(ts, p, q, h, 0);
      SliceAt(ts, p, q, h, 1);
      SliceAt(ts, p, q, h, 2);
      ElementKeyed(ts, env, p);
    } else {
      assert h == [en.value] + c;
      SliceAt(ts, p, q, h, 0);
      if en.comma {
        SliceAt(ts, p, q, h, 1);
      }
      ElementPlain(ts, env, p);
    }
    if en.comma {
      SliceAt(ts, p, q, h, |h| - 1);
    }
  }

  /** The k-th token of a slice that spells w is w's k-th. */
  lemma SliceAt<T>(s: seq<T>, a: nat, b: nat, w: seq<T>, k: nat)
    requires a <= b <= |s| && s[a..b] == w && k < |w|
    ensures s[a + k] == w[k]
  {
  }

  /** A slice that spells x + y splits into a slice spelling x followed by one spelling y. */
  lemma SliceSplit<T>(s: seq<T>, a: nat, c: nat, x: seq<T>, y: seq<T>)
    requires a <= c <= |s| && s[a..c] == x + y
    ensures a + |x| <= c
    ensures s[a..a + |x|] == x && s[a + |x|..c] == y
  {
    assert s[a..a + |x|] == s[a..c][..|x|];
    assert s[a + |x|..c] == s[a..c][|x|..];
  }

  /** Every written entry starts with its key or value token, never a separator. */
  lemma HeadStartsWithOperand(env: Env, en: Entry)
    requires Written(env, en)
    ensures |Head(en)| > 0 && Head(en)[0].kind != Arrow && Head(en)[0].kind != Comma
  {
  }

  /** The tokens from p spell the entries, one Head after another, then a closing bracket. */
  predicate Spells(ts: seq<Token>, env: Env, p: nat, es: seq<Entry>)
    decreases |es|
  {
    if |es| == 0 then p < |ts| && ts[p] == Token(CloseBracket, None)
    else
      var h := Head(es[0]);
      Written(env, es[0]) && p + |h| <= |ts| && ts[p..p + |h|] == h && Spells(ts, env, p + |h|, es[1..])
  }

  /** A slice that spells written entries, followed by a closing bracket, spells them one entry at a time. */
  lemma {:induction false} SpellsOfSlice(ts: seq<Token>, env: Env, p: nat, es: seq<Entry>)
    requires AllWritten(env, es)
    requires p + |ItemTokens(es)| < |ts|
    requires ts[p..p + |ItemTokens(es)|] == ItemTokens(es)
    requires ts[p + |ItemTokens(es)|] == Token(CloseBracket, None)
    ensures Spells(ts, env, p, es)
    decreases |es|
  {
    if |es| > 0 {
      var head := Head(es[0]);
      var tail := ItemTokens(es[1..]);
      var n := |ItemTokens(es)|;
      assert ItemTokens(es) == head + tail;
      assert Written(env, es[0]);
      SliceSplit(ts, p, p + n, head, tail);
      assert AllWritten(env, es[1..]) by {
        forall i | 0 <= i < |es[1..]|
          ensures Written(env, es[1..][i])
        {
          assert es[1..][i] == es[i + 1];
        }
      }
      SpellsOfSlice(ts, env, p + |head|, es[1..]);
    }
  }

  /** After a spelled entry comes another entry's first token or the closing bracket: never an arrow or a comma. */
  lemma NextIsNotSeparator(ts: seq<Token>, env: Env, q: nat, rest: seq<Entry>)
    requires Spells(ts, env, q, rest)
    ensures q < |ts| && ts[q].kind != Arrow && ts[q].kind != Comma
  {
    if |rest| > 0 {
      var h := Head(rest[0]);
      HeadStartsWithOperand(env, rest[0]);
      assert ts[q] == ts[q..q + |h|][0];
    }
  }

  /**
   * Reading the spelled entries back: the element loop returns exactly their
   * items, in order, keyed exactly where an arrow was written, whichever
   * entries carry a comma (a trailing one included), and stops just after
   * the closing bracket.
   */
  lemma {:induction false} ElementsOfSpelled(ts: seq<Token>, env: Env, p: nat, es: seq<Entry>)
    requires Spells(ts, env, p, es)
    ensures ReadFrom(ts, env, p) == Ok((Items(env, es), EndOf(p, es)))
    decreases |es|
  {
    if |es| > 0 {
      var en := es[0];
      var q := p + |Head(en)|;
      ElementsOfSpelled(ts, env, q, es[1..]);
      NextIsNotSeparator(ts, env, q, es[1..]);
      ElementsStep(ts, env, p, en, Items(env, es[1..]), EndOf(q, es[1..]));
      EntriesSplit(env, p, es);
    } else {
      ElementsAtClose(ts, env, p);
    }
  }

  /** The position just after the closing bracket of entries spelled from p. */
  function EndOf(p: nat, es: seq<Entry>): nat {
    p + |ItemTokens(es)| + 1
  }

  /** A non-empty list of entries is its first entry then the rest, in its items and its spelling. */
  lemma EntriesSplit(env: Env, p: nat, es: seq<Entry>)
    requires |es| > 0
    ensures Items(env, es) == [ItemOf(env, es[0])] + Items(env, es[1..])
    ensures EndOf(p, es) == EndOf(p + |Head(es[0])|, es[1..])
  {
  }

  /**
   * parse_array inverts Literal wherever the literal stands: each written
   * entry reads as the item it stands for, in order, `[]` gives no items,
   * and the cursor ends just after the closing `]`.
   */
  lemma ParseArrayOfLiteral(ts: seq<Token>, env: Env, p: nat, es: seq<Entry>)
    requires AllWritten(env, es)
    requires p + |Literal(es)| <= |ts|
    requires ts[p..p + |Literal(es)|] == Literal(es)
    ensures ts[p].kind == OpenBracket
    ensures ParseArray(ts, env, p) == Ok((Items(env, es), p + |Literal(es)|))
  {
    var body := ItemTokens(es);
    Bracketed(ts, p, Token(OpenBracket, None), body, Token(CloseBracket, None));
    SpellsOfSlice(ts, env, p + 1, es);
    ElementsOfSpelled(ts, env, p + 1, es);
    ParseArrayReads(ts, env, p, es);
  }

  /** parse_array is the element loop started just inside the bracket. */
  lemma ParseArrayReads(ts: seq<Token>, env: Env, p: nat, es: seq<Entry>)
    requires p < |ts| && ts[p].kind == OpenBracket
    requires ReadFrom(ts, env, p + 1) == Ok((Items(env, es), EndOf(p + 1, es)))
    ensures ParseArray(ts, env, p) == Ok((Items(env, es), p + |Literal(es)|))
  {
  }

  /** A slice that spells [a] + body + [b] has a at its start, body in between and b at its end. */
  lemma Bracketed<T>(ts: seq<T>, p: nat, a: T, body: seq<T>, b: T)
    requires p + |body| + 2 <= |ts| && ts[p..p + |body| + 2] == [a] + body + [b]
    ensures ts[p] == a && ts[p + 1..p + 1 + |body|] == body && ts[p + 1 + |body|] == b
  {
    var n := |body|;
    SliceAt(ts, p, p + n + 2, [a] + body + [b], 0);
    SliceAt(ts, p, p + n + 2, [a] + body + [b], n + 1);
    SliceSplit(ts, p, p + n + 2, [a], body + [b]);
    SliceSplit(ts, p + 1, p + n + 2, body, [b]);
  }

  /** The element loop stops just after a closing bracket. */
  lemma ElementsAtClose(ts: seq<Token>, env: Env, p: nat)
    requires p < |ts| && ts[p].kind == CloseBracket
    ensures ReadFrom(ts, env, p) == Ok(([], p + 1))
  {
  }

  /**
   * A variable element takes the variable's current scalar at the moment the
   * literal is read; a variable with no scalar cannot be copied.
   */
  lemma ElementSnapshotsVariable(ts: seq<Token>, env: Env, p: nat, n: string)
    requires p + 1 < |ts| && ts[p] == Token(Variable, Some(n)) && ts[p + 1].kind != Arrow
    ensures GetValue(env, n).Some? ==> Element(ts, env, p) == Ok((Item(None, GetValue(env, n).value), p + 1))
    ensures GetValue(env, n).None? ==> Element(ts, env, p) == Fail(NullText)
  {
  }
}
