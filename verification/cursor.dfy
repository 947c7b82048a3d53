/**
 * The interpreter's view of the token array: reading the current token, and
 * the brace-depth skip that parser.c repeats for every block it does not run.
 */
module Cursor {
  import opened Wrappers
  import opened Tokens
  import opened Faults

  /** current_token at p; the C code reads without a bound check, so past the end is a fault. */
  function At(ts: seq<Token>, p: nat): (r: Outcome<Token>)
    ensures r.Ok? <==> p < |ts|
    ensures r.Ok? ==> r.value == ts[p]
  {
    if p < |ts| then Ok(ts[p]) else Fail(ReadPastEnd)
  }

  /** How a token changes the brace depth. */
  function Delta(t: Token): int {
    if t.kind == OpenBrace then 1 else if t.kind == CloseBrace then -1 else 0
  }

  /** The brace depth after reading ts[p..k], starting from depth d. */
  function DepthAfter(ts: seq<Token>, p: nat, k: nat, d: int): int
    requires p <= k <= |ts|
    decreases k - p
  {
    if k == p then d else DepthAfter(ts, p + 1, k, d + Delta(ts[p]))
  }

  /**
   * The brace-depth skip: while the depth is positive and the current token
   * is not EOF, count `{` up and `}` down and advance.  It reads tokens and
   * moves the cursor, and does nothing else.
   */
  function Skip(ts: seq<Token>, p: nat, depth: nat): (r: Outcome<nat>)
    ensures r.Ok? ==> p <= r.value
    ensures r.Ok? && depth > 0 && Sentinel(ts) ==> r.value < |ts|
    decreases |ts| - p
  {
    if depth == 0 then Ok(p)
    else
      var t :- At(ts, p);
      if t.kind == EOF then Ok(p)
      else
        var d := if t.kind == OpenBrace then depth + 1 else if t.kind == CloseBrace then depth - 1 else depth;
        Skip(ts, p + 1, d)
  }

  /** Reading one more token adds its brace change to the depth. */
  lemma {:induction false} DepthStep(ts: seq<Token>, p: nat, k: nat, d: int)
    requires p <= k < |ts|
    ensures DepthAfter(ts, p, k + 1, d) == DepthAfter(ts, p, k, d) + Delta(ts[k])
    decreases k - p
  {
    if p < k {
      DepthStep(ts, p + 1, k, d + Delta(ts[p]));
    }
  }

  /**
   * On a token sequence that ends in EOF, the skip from depth d never faults
   * and stops at the first position q where the depth has come down to zero
   * (just after the matching `}`) or the current token is EOF; before q the
   * depth stays positive and no EOF is met.  The cursor stays on the sequence.
   */
  lemma {:induction false} SkipFindsMatch(ts: seq<Token>, p: nat, d: nat)
    requires Sentinel(ts) && p < |ts| && d > 0
    ensures Skip(ts, p, d).Ok?
    ensures var q := Skip(ts, p, d).value;
      && p <= q < |ts|
      && (DepthAfter(ts, p, q, d) == 0 || ts[q].kind == EOF)
      && (forall k :: p <= k < q ==> DepthAfter(ts, p, k, d) > 0 && ts[k].kind != EOF)
    decreases |ts| - p
  {
    var t := ts[p];
    if t.kind != EOF {
      var d' := d + Delta(t);
      assert p + 1 < |ts|;
      if d' > 0 {
        SkipFindsMatch(ts, p + 1, d');
        var q := Skip(ts, p + 1, d').value;
        assert Skip(ts, p, d) == Skip(ts, p + 1, d');
        forall k | p <= k < q
          ensures DepthAfter(ts, p, k, d) > 0 && ts[k].kind != EOF
        {
          if k > p {
            assert DepthAfter(ts, p, k, d) == DepthAfter(ts, p + 1, k, d');
          }
        }
      } else {
        assert Skip(ts, p, d) == Ok(p + 1);
        assert DepthAfter(ts, p, p + 1, d) == DepthAfter(ts, p + 1, p + 1, d');
      }
    }
  }

  /** When the skip stops at depth zero, the token just before it is the matching `}`. */
  lemma SkipStopsAfterClose(ts: seq<Token>, p: nat, d: nat)
    requires Sentinel(ts) && p < |ts| && d > 0
    ensures Skip(ts, p, d).Ok? && Skip(ts, p, d).value < |ts|
    ensures var q := Skip(ts, p, d).value;
      DepthAfter(ts, p, q, d) == 0 ==> p < q && ts[q - 1].kind == CloseBrace
  {
    SkipFindsMatch(ts, p, d);
    var q := Skip(ts, p, d).value;
    if DepthAfter(ts, p, q, d) == 0 {
      assert q != p;
      DepthStep(ts, p, q - 1, d);
    }
  }
}
