/**
 * What parse_expression, parse_block and parser_run promise, statement by
 * statement: the dispatcher's blind spot, echo, assignment, the two arms of
 * an if, the for and foreach loops and their rewinds.
 */
module InterpreterProps {
  import opened Wrappers
  import opened Tokens
  import opened Faults
  import opened Arith
  import opened Environment
  import opened Cursor
  import opened ArrayLiteral
  import opened ArrayProps
  import opened Interpreter

  // ---------------------------------------------------------------------
  // The dispatcher

  /**
   * A token parse_expression does not act on is never consumed, so
   * parser_run goes round for ever: no amount of fuel is enough.
   */
  lemma {:induction false} RunStuck(ts: seq<Token>, st: State, fuel: nat)
    requires st.pos < |ts| && ts[st.pos].kind != EOF && !Dispatches(ts[st.pos].kind)
    ensures Run(ts, st, fuel) == Fail(OutOfFuel)
    decreases fuel
  {
    if fuel > 0 {
      assert Statement(ts, st, fuel - 1) == Ok(st);
      RunStuck(ts, st, fuel - 1);
    }
  }

  /** The same inside a block: parse_block spins on such a token unless it is `}`. */
  lemma {:induction false} BlockStuck(ts: seq<Token>, st: State, fuel: nat)
    requires st.pos < |ts| && ts[st.pos].kind != EOF && ts[st.pos].kind != CloseBrace
    requires !Dispatches(ts[st.pos].kind)
    ensures Block(ts, st, fuel) == Fail(OutOfFuel)
    decreases fuel
  {
    if fuel > 0 {
      assert Statement(ts, st, fuel - 1) == Ok(st);
      BlockStuck(ts, st, fuel - 1);
    }
  }

  /** parse_expression picks the branch by the current token's kind alone. */
  lemma Dispatch(ts: seq<Token>, st: State, fuel: nat)
    requires st.pos < |ts|
    ensures ts[st.pos].kind == Echo ==> Statement(ts, st, fuel) == EchoStmt(ts, st)
    ensures ts[st.pos].kind == Variable ==> Statement(ts, st, fuel) == AssignStmt(ts, st)
    ensures ts[st.pos].kind == If ==> Statement(ts, st, fuel) == IfStmt(ts, st, fuel)
    ensures ts[st.pos].kind == For ==> Statement(ts, st, fuel) == ForStmt(ts, st, fuel)
    ensures ts[st.pos].kind == Foreach ==> Statement(ts, st, fuel) == ForeachStmt(ts, st, fuel)
  {
  }

  // ---------------------------------------------------------------------
  // echo

  /** `echo "x"` prints exactly x and changes nothing else. */
  lemma EchoString(ts: seq<Token>, st: State, x: string)
    requires st.pos + 2 < |ts|
    requires ts[st.pos].kind == Echo && ts[st.pos + 1] == Token(String, Some(x))
    ensures EchoStmt(ts, st) ==
      Ok(st.(pos := if ts[st.pos + 2].kind == Semicolon then st.pos + 3 else st.pos + 2, out := st.out + x))
  {
  }

  /** `echo $n` prints n's scalar, or nothing when n has none. */
  lemma EchoVariable(ts: seq<Token>, st: State, n: string)
    requires st.pos + 2 < |ts|
    requires ts[st.pos].kind == Echo && ts[st.pos + 1] == Token(Variable, Some(n))
    ensures var shown := if GetValue(st.env, n).Some? then GetValue(st.env, n).value else "";
      EchoStmt(ts, st) ==
      Ok(st.(pos := if ts[st.pos + 2].kind == Semicolon then st.pos + 3 else st.pos + 2, out := st.out + shown))
  {
  }

  // ---------------------------------------------------------------------
  // Assignment

  /**
   * `$n = "x";` or `$n = 5;` with no operator after it stores the literal's
   * text as n's scalar and clears any array n held.
   */
  lemma AssignLiteral(ts: seq<Token>, st: State, n: string, x: string)
    requires st.pos + 3 < |ts|
    requires ts[st.pos] == Token(Variable, Some(n)) && ts[st.pos + 1].kind == Equals
    requires ts[st.pos + 2].kind in {String, Number} && ts[st.pos + 2].text == Some(x)
    requires !IsArithOp(ts[st.pos + 3].kind)
    ensures var r := AssignStmt(ts, st);
      && r.Ok?
      && GetValue(r.value.env, n) == Some(x) && GetArray(r.value.env, n) == None
      && OthersKept(st.env, r.value.env, n)
      && r.value.out == st.out
      && r.value.pos == if ts[st.pos + 3].kind == Semicolon then st.pos + 4 else st.pos + 3
  {
    var v := Var(Some(x), None);
    RightHandSideOfText(ts, st.env, st.pos + 2, x);
    AssignSets(ts, st, n, v, st.pos + 3, 0);
  }

  /** A literal operand with no operator after it is the whole right-hand side. */
  lemma RightHandSideOfText(ts: seq<Token>, env: Env, p: nat, x: string)
    requires p + 1 < |ts|
    requires ts[p].kind in {String, Number} && ts[p].text == Some(x)
    requires !IsArithOp(ts[p + 1].kind)
    ensures RightHandSide(ts, env, p) == Ok((Var(Some(x), None), p + 1, 0))
  {
    assert Operand(ts, env, p) == Ok((Some(x), None, p + 1));
  }

  /** `$n =` followed by a right-hand side that reads as a: the assignment commits a to n. */
  lemma AssignCommits(ts: seq<Token>, st: State, n: string, v: Var, q: nat, d: nat)
    requires st.pos + 2 < |ts|
    requires ts[st.pos] == Token(Variable, Some(n)) && ts[st.pos + 1].kind == Equals
    requires RightHandSide(ts, st.env, st.pos + 2) == Ok((v, q, d))
    ensures AssignStmt(ts, st) == Commit(ts, st, n, v, q, d)
  {
    AssignHead(ts, st, n);
    ValueCommits(ts, st, n, st.pos + 2, v, q, d);
  }

  lemma AssignHead(ts: seq<Token>, st: State, n: string)
    requires st.pos + 1 < |ts|
    requires ts[st.pos].text == Some(n) && ts[st.pos + 1].kind == Equals
    ensures AssignStmt(ts, st) == AssignValue(ts, st, n, st.pos + 2)
  {
  }

  /** A right-hand side at p that reads as (v, q, d) is committed as such. */
  lemma ValueCommits(ts: seq<Token>, st: State, n: string, p: nat, v: Var, q: nat, d: nat)
    requires p < |ts| && RightHandSide(ts, st.env, p) == Ok((v, q, d))
    ensures AssignValue(ts, st, n, p) == Commit(ts, st, n, v, q, d)
  {
  }

  /**
   * `$n = $m;` copies m's scalar as it is now into n and clears any array n
   * held; a variable with no scalar cannot be copied.
   */
  lemma AssignCopy(ts: seq<Token>, st: State, n: string, m: string)
    requires st.pos + 3 < |ts|
    requires ts[st.pos] == Token(Variable, Some(n)) && ts[st.pos + 1].kind == Equals
    requires ts[st.pos + 2] == Token(Variable, Some(m)) && !IsArithOp(ts[st.pos + 3].kind)
    ensures GetValue(st.env, m).None? ==> AssignStmt(ts, st) == Fail(NullText)
    ensures GetValue(st.env, m).Some? ==> var r := AssignStmt(ts, st);
      && r.Ok?
      && GetValue(r.value.env, n) == GetValue(st.env, m) && GetArray(r.value.env, n) == None
      && r.value.out == st.out
  {
    RightHandSideOfVariable(ts, st.env, st.pos + 2, m);
    AssignHead(ts, st, n);
    if GetValue(st.env, m).Some? {
      var v := Var(GetValue(st.env, m), None);
      ValueCommits(ts, st, n, st.pos + 2, v, st.pos + 3, 0);
      SetLookup(st.env, n, v);
    }
  }

  /** A variable operand with no operator after it reads as a copy of the variable's scalar. */
  lemma RightHandSideOfVariable(ts: seq<Token>, env: Env, p: nat, m: string)
    requires p + 1 < |ts| && ts[p] == Token(Variable, Some(m)) && !IsArithOp(ts[p + 1].kind)
    ensures RightHandSide(ts, env, p) ==
      if GetValue(env, m).Some? then Ok((Var(GetValue(env, m), None), p + 1, 0)) else Fail(NullText)
  {
    assert Operand(ts, env, p) ==
      if GetValue(env, m).Some? then Ok((GetValue(env, m), None, p + 1)) else Fail(NullText);
  }

  /**
   * `$n = [ ... ];` stores the items the written entries stand for, in
   * order and resolved before n changes, as n's array, and leaves n without
   * a scalar.
   */
  lemma AssignArray(ts: seq<Token>, st: State, n: string, es: seq<Entry>, e: nat)
    requires AllWritten(st.env, es)
    requires st.pos + 2 <= e < |ts|
    requires ts[st.pos] == Token(Variable, Some(n)) && ts[st.pos + 1].kind == Equals
    requires ts[st.pos + 2..e] == Literal(es)
    requires !IsArithOp(ts[e].kind)
    ensures var r := AssignStmt(ts, st);
      && r.Ok?
      && GetValue(r.value.env, n) == None && GetArray(r.value.env, n) == Some(Items(st.env, es))
      && OthersKept(st.env, r.value.env, n)
      && r.value.out == st.out
      && r.value.pos == EndAfter(ts, e)
  {
    var items := LiteralRead(ts, st.env, st.pos + 2, es, e);
    AssignSets(ts, st, n, Var(None, Some(items)), e, 0);
  }

  /** RightHandSideOfLiteral for a literal spanning ts[p..e], with its items named. */
  lemma LiteralRead(ts: seq<Token>, env: Env, p: nat, es: seq<Entry>, e: nat) returns (items: ArrayValue)
    requires AllWritten(env, es)
    requires p <= e < |ts| && ts[p..e] == Literal(es)
    requires !IsArithOp(ts[e].kind)
    ensures items == Items(env, es)
    ensures RightHandSide(ts, env, p) == Ok((Var(None, Some(items)), e, 0))
  {
    assert |Literal(es)| == e - p;
    RightHandSideOfLiteral(ts, env, p, es);
    items := Items(env, es);
  }

  /** Where a statement ending at q stops: past an optional `;`. */
  function EndAfter(ts: seq<Token>, q: nat): nat
    requires q < |ts|
  {
    if ts[q].kind == Semicolon then q + 1 else q
  }

  /**
   * An assignment whose right-hand side reads as v, ending at q with d
   * diagnostics, gives n exactly v's contents, leaves every other name as it
   * was, prints nothing, adds d diagnostics and consumes an optional `;`.
   */
  lemma AssignSets(ts: seq<Token>, st: State, n: string, v: Var, q: nat, d: nat)
    requires q < |ts| && st.pos + 2 < |ts|
    requires ts[st.pos] == Token(Variable, Some(n)) && ts[st.pos + 1].kind == Equals
    requires RightHandSide(ts, st.env, st.pos + 2) == Ok((v, q, d))
    ensures var r := AssignStmt(ts, st);
      && r.Ok?
      && GetValue(r.value.env, n) == v.scalar && GetArray(r.value.env, n) == v.elements
      && OthersKept(st.env, r.value.env, n)
      && r.value.out == st.out && r.value.diagnostics == st.diagnostics + d
      && r.value.pos == EndAfter(ts, q)
  {
    AssignCommits(ts, st, n, v, q, d);
    SetLookup(st.env, n, v);
    SetKeepsOthers(st.env, n, v);
  }

  /** An array literal with no operator after it is the whole right-hand side. */
  lemma RightHandSideOfLiteral(ts: seq<Token>, env: Env, p: nat, es: seq<Entry>)
    requires AllWritten(env, es)
    requires p + |Literal(es)| < |ts|
    requires ts[p..p + |Literal(es)|] == Literal(es)
    requires !IsArithOp(ts[p + |Literal(es)|].kind)
    ensures RightHandSide(ts, env, p) == Ok((Var(None, Some(Items(env, es))), p + |Literal(es)|, 0))
  {
    var q := p + |Literal(es)|;
    ParseArrayOfLiteral(ts, env, p, es);
    assert Operand(ts, env, p) == Ok((None, Some(Items(env, es)), q));
    assert Arithmetic(ts, env, None, q) == Ok((None, q, 0));
  }

  /**
   * The second operand of an arithmetic right-hand side is a number literal
   * or else a variable name: `a + "m"` reads exactly as `a + $m` does, and
   * both end after the second operand.
   */
  lemma SecondOperandIsAName(ts: seq<Token>, ts': seq<Token>, env: Env, p: nat, m: string)
    requires p + 2 < |ts| && ts' == ts[p + 2 := Token(Variable, Some(m))]
    requires ts[p].kind in {String, Number, Variable}
    requires IsArithOp(ts[p + 1].kind) && ts[p + 2] == Token(String, Some(m))
    ensures RightHandSide(ts, env, p) == RightHandSide(ts', env, p)
    ensures RightHandSide(ts, env, p).Ok? ==> RightHandSide(ts, env, p).value.1 == p + 3
  {
    var rhs := Operand(ts, env, p);
    assert rhs == Operand(ts', env, p);
    if rhs.Ok? {
      assert rhs.value.2 == p + 1;
      SameArithmetic(ts, ts', env, rhs.value.0, p + 1, m);
    }
  }

  /** The operator tail looks a string operand up as a variable name. */
  lemma SameArithmetic(ts: seq<Token>, ts': seq<Token>, env: Env, v: Option<string>, p: nat, m: string)
    requires p + 1 < |ts| && ts' == ts[p + 1 := Token(Variable, Some(m))]
    requires IsArithOp(ts[p].kind) && ts[p + 1] == Token(String, Some(m))
    ensures Arithmetic(ts, env, v, p) == Arithmetic(ts', env, v, p)
  {
  }

  /**
   * What the token after an arithmetic operator stands for: a number
   * literal's text, or else the scalar of the variable its text names.
   */
  function SecondOperand(env: Env, t: Token): Option<string> {
    if t.kind == Number then t.text else if t.text.Some? then GetValue(env, t.text.value) else None
  }

  /**
   * `$n = a op b` stores the two-decimal rendering of x op y, where x is what
   * the first operand stands for (a literal's text or a variable's scalar)
   * and y what the second stands for, and nothing else about $n: its array
   * is gone.  A division by zero stores "0" and writes one diagnostic; so
   * `$x = $x + 3;` and `$n = 5 + $y;` are both covered.
   */
  lemma AssignArithmetic(ts: seq<Token>, st: State, n: string, x: string, y: string)
    requires st.pos + 5 < |ts|
    requires ts[st.pos] == Token(Variable, Some(n)) && ts[st.pos + 1].kind == Equals
    requires Writable(st.env, ts[st.pos + 2]) && Denotes(st.env, ts[st.pos + 2]) == Some(x)
    requires IsArithOp(ts[st.pos + 3].kind)
    requires SecondOperand(st.env, ts[st.pos + 4]) == Some(y)
    ensures var r := AssignStmt(ts, st);
      var op := ts[st.pos + 3].kind;
      && r.Ok?
      && GetArray(r.value.env, n) == None
      && (op == Divide && Atof(y) == 0.0 ==>
            GetValue(r.value.env, n) == Some("0") && r.value.diagnostics == st.diagnostics + 1)
      && (op != Divide || Atof(y) != 0.0 ==>
            GetValue(r.value.env, n) == Some(Fmt2(Apply(op, Atof(x), Atof(y))))
            && r.value.diagnostics == st.diagnostics)
      && OthersKept(st.env, r.value.env, n)
      && r.value.out == st.out
      && r.value.pos == if ts[st.pos + 5].kind == Semicolon then st.pos + 6 else st.pos + 5
  {
    var c := OperateValues(Some(x), Some(y), ts[st.pos + 3].kind).value;
    var d := if c.divByZero then 1 else 0;
    var v := Var(Some(c.text), None);
    RightHandSideOfArithmetic(ts, st.env, st.pos + 2, x, y);
    AssignSets(ts, st, n, v, st.pos + 5, d);
  }

  /** `a op b` reads as operate_values of what the two operands stand for, ending after b. */
  lemma RightHandSideOfArithmetic(ts: seq<Token>, env: Env, p: nat, x: string, y: string)
    requires p + 3 < |ts|
    requires Writable(env, ts[p]) && Denotes(env, ts[p]) == Some(x)
    requires IsArithOp(ts[p + 1].kind)
    requires SecondOperand(env, ts[p + 2]) == Some(y)
    ensures var c := OperateValues(Some(x), Some(y), ts[p + 1].kind).value;
      RightHandSide(ts, env, p) == Ok((Var(Some(c.text), None), p + 3, if c.divByZero then 1 else 0))
  {
    var c := OperateValues(Some(x), Some(y), ts[p + 1].kind).value;
    assert Operand(ts, env, p) == Ok((Some(x), None, p + 1));
    assert Arithmetic(ts, env, Some(x), p + 1) == Ok((Some(c.text), p + 3, if c.divByZero then 1 else 0));
  }

  /**
   * A second operand that stands for nothing (a variable without a scalar)
   * stops the program: the C code hands a null pointer to atof.
   */
  lemma ArithmeticOfUnset(ts: seq<Token>, st: State, n: string)
    requires st.pos + 5 < |ts|
    requires ts[st.pos] == Token(Variable, Some(n)) && ts[st.pos + 1].kind == Equals
    requires Writable(st.env, ts[st.pos + 2])
    requires IsArithOp(ts[st.pos + 3].kind)
    requires SecondOperand(st.env, ts[st.pos + 4]) == None
    ensures AssignStmt(ts, st).Fail?
  {
    AssignHead(ts, st, n);
    RightHandSideOfUnset(ts, st.env, st.pos + 2);
  }

  /** An operator whose second operand stands for nothing makes the right-hand side a fault. */
  lemma RightHandSideOfUnset(ts: seq<Token>, env: Env, p: nat)
    requires p + 3 < |ts|
    requires Writable(env, ts[p])
    requires IsArithOp(ts[p + 1].kind)
    requires SecondOperand(env, ts[p + 2]) == None
    ensures RightHandSide(ts, env, p).Fail?
  {
    assert Operand(ts, env, p) == Ok((Denotes(env, ts[p]), None, p + 1));
    assert Arithmetic(ts, env, Denotes(env, ts[p]), p + 1).Fail?;
  }
}
