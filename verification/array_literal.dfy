/**
 * parse_array: an array literal `[ v, k => v, ... ]` read from the token
 * stream, its element values resolved against the environment as they are
 * read.
 */
module ArrayLiteral {
  import opened Wrappers
  import opened Tokens
  import opened Faults
  import opened Environment
  import opened Cursor

  /** An operand's text: a variable's current scalar, or the token's own text. */
  function Resolve(env: Env, t: Token): (r: Outcome<Option<string>>)
    ensures t.kind != Variable ==> r == Ok(t.text)
    ensures t.kind == Variable && t.text.Some? ==> r == Ok(GetValue(env, t.text.value))
  {
    if t.kind == Variable then LookupValue(env, t.text) else Ok(t.text)
  }

  /**
   * One element at p: a value, or a key `=>` value pair when the first value
   * is followed by an arrow.  Both texts are copied, so a NULL one is a fault.
   * Returns the item and the position after it.
   */
  function Element(ts: seq<Token>, env: Env, p: nat): (r: Outcome<(Item, nat)>)
    requires p < |ts|
    ensures r.Ok? ==> p + 1 < |ts| && p < r.value.1
    ensures r.Ok? ==> (r.value.0.key.Some? <==> ts[p + 1].kind == Arrow)
    ensures r.Ok? && ts[p + 1].kind == Arrow ==> r.value.1 == p + 3
    ensures r.Ok? && ts[p + 1].kind != Arrow ==> r.value.1 == p + 1
  {
    var first :- Resolve(env, ts[p]);
    var next :- At(ts, p + 1);
    if next.kind == Arrow then
      var key :- Dup(first);
      var t :- At(ts, p + 2);
      var second :- Resolve(env, t);
      var value :- Dup(second);
      Ok((Item(Some(key), value), p + 3))
    else
      var value :- Dup(first);
      Ok((Item(None, value), p + 1))
  }

  /**
   * The loop of parse_array from p: elements, each optionally followed by a
   * comma, until `]` (consumed) or EOF (not consumed).
   */
  function Elements(ts: seq<Token>, env: Env, p: nat): (r: Outcome<(ArrayValue, nat)>)
    ensures r.Ok? ==> p <= r.value.1 <= |ts|
    ensures r.Ok? ==> var q := r.value.1;
      (0 < q && ts[q - 1].kind == CloseBracket) || (q < |ts| && ts[q].kind == EOF)
    decreases |ts| - p
  {
    var t :- At(ts, p);
    if t.kind == CloseBracket then Ok(([], p + 1))
    else if t.kind == EOF then Ok(([], p))
    else
      var e :- Element(ts, env, p);
      var c :- At(ts, e.1);
      var q := if c.kind == Comma then e.1 + 1 else e.1;
      var rest :- Elements(ts, env, q);
      Ok(([e.0] + rest.0, rest.1))
  }

  /**
   * parse_array with the cursor on `[`: the items in source order and the
   * position after the closing `]`, or at EOF for an unclosed literal.
   */
  function ParseArray(ts: seq<Token>, env: Env, p: nat): (r: Outcome<(ArrayValue, nat)>)
    requires p < |ts| && ts[p].kind == OpenBracket
    ensures r.Ok? ==> var q := r.value.1;
      p < q <= |ts| && ((ts[q - 1].kind == CloseBracket) || (q < |ts| && ts[q].kind == EOF))
    ensures r.Ok? && Sentinel(ts) ==> r.value.1 < |ts|
  {
    Elements(ts, env, p + 1)
  }
}
