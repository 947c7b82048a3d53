/**
 * parse_expression, parse_block and parser_run: the interpreter walks the
 * token array with a cursor and executes each statement as it reads it.
 *
 * Every read of the current token goes through `At`, because the C code never
 * checks the cursor against the end of the array, and every statement below
 * reads and advances in exactly the order of the C code, so a statement that
 * is cut short faults at the read where the C code would read past the end.
 * Loops and nested blocks consume fuel, which stands for the unbounded
 * running time of the C loops.
 */
module Interpreter {
  import opened Wrappers
  import opened Tokens
  import opened Faults
  import opened Lexer
  import opened Arith
  import opened Environment
  import opened Cursor
  import opened ArrayLiteral

  /**
   * The parser's mutable state: the cursor, the variable table, everything
   * printed to stdout so far, and how many division-by-zero diagnostics have
   * been written to stderr.
   */
  datatype State = State(pos: nat, env: Env, out: string, diagnostics: nat)

  /** What every statement keeps: output and diagnostics only grow, names stay unique. */
  predicate Grows(a: State, b: State) {
    && a.out <= b.out
    && a.diagnostics <= b.diagnostics
    && (UniqueNames(a.env) ==> UniqueNames(b.env))
  }

  /** Grows, and the cursor stays on the token array when it ends in EOF. */
  predicate Extends(ts: seq<Token>, a: State, b: State) {
    Grows(a, b) && (Sentinel(ts) ==> b.pos < |ts|)
  }

  lemma GrowsTrans(a: State, b: State, c: State)
    requires Grows(a, b) && Grows(b, c)
    ensures Grows(a, c)
  {
    assert a.out == b.out[..|a.out|] == c.out[..|b.out|][..|a.out|];
  }

  /**
   * The echo branch: a string literal is printed, a variable's scalar is
   * printed when it has one, anything else is left where it is; then an
   * optional `;`.
   */
  function EchoStmt(ts: seq<Token>, st: State): (r: Outcome<State>)
    ensures r.Ok? ==> Extends(ts, st, r.value)
    ensures r.Ok? ==> r.value.env == st.env && r.value.diagnostics == st.diagnostics
    ensures r.Ok? ==> st.pos < r.value.pos
  {
    var p := st.pos + 1;
    var t :- At(ts, p);
    var printed :-
      if t.kind == String then
        var x :- Dup(t.text);
        Ok((x, p + 1))
      else if t.kind == Variable then
        var v :- LookupValue(st.env, t.text);
        Ok((v.GetOr(""), p + 1))
      else Ok(("", p));
    var q := printed.1;
    var s :- At(ts, q);
    Ok(State(if s.kind == Semicolon then q + 1 else q, st.env, st.out + printed.0, st.diagnostics))
  }

  /**
   * The right-hand side of an assignment at p: a string or number literal, a
   * copy of a variable's scalar, an array literal, or nothing at all (the
   * cursor then stays put).  Returns the scalar, the array and the position
   * after the operand.
   */
  function Operand(ts: seq<Token>, env: Env, p: nat): (r: Outcome<(Option<string>, Option<ArrayValue>, nat)>)
    requires p < |ts|
    ensures r.Ok? ==> p <= r.value.2
    ensures r.Ok? ==> r.value.0.None? || r.value.1.None?
    ensures r.Ok? && Sentinel(ts) ==> r.value.2 < |ts|
  {
    var t := ts[p];
    if t.kind == String || t.kind == Number then
      var v :- Dup(t.text);
      Ok((Some(v), None, p + 1))
    else if t.kind == Variable then
      var x :- LookupValue(env, t.text);
      var v :- Dup(x);
      Ok((Some(v), None, p + 1))
    else if t.kind == OpenBracket then
      var a :- ParseArray(ts, env, p);
      Ok((None, Some(a.0), a.1))
    else Ok((None, None, p))
  }

  /**
   * What may follow an assignment's operand at p: a + - * / and a second
   * operand (a number literal's text, or else the scalar of the variable the
   * token names) replace the text by operate_values of the two.  Returns the
   * text, the position after it, and the number of diagnostics written.
   */
  function Arithmetic(ts: seq<Token>, env: Env, v: Option<string>, p: nat): (r: Outcome<(Option<string>, nat, nat)>)
    ensures r.Ok? ==> p < |ts| && (r.value.1 == p || r.value.1 == p + 2) && r.value.2 <= 1
    ensures r.Ok? ==> (r.value.1 == p <==> !IsArithOp(ts[p].kind))
    ensures r.Ok? && !IsArithOp(ts[p].kind) ==> r.value.0 == v && r.value.2 == 0
    ensures r.Ok? && IsArithOp(ts[p].kind) ==> v.Some? && r.value.0.Some?
  {
    var o :- At(ts, p);
    if IsArithOp(o.kind) then
      var t2 :- At(ts, p + 1);
      var v2 :- if t2.kind == Number then Ok(t2.text) else LookupValue(env, t2.text);
      var c :- OperateValues(v, v2, o.kind);
      Ok((Some(c.text), p + 2, if c.divByZero then 1 else 0))
    else Ok((v, p, 0))
  }

  /**
   * Everything after an assignment's `=`, at p: the operand and the optional
   * operator tail.  Returns the variable's new contents, the position after
   * them, and the number of diagnostics written.
   */
  function RightHandSide(ts: seq<Token>, env: Env, p: nat): (r: Outcome<(Var, nat, nat)>)
    requires p < |ts|
    ensures r.Ok? ==> p <= r.value.1 && r.value.2 <= 1
    ensures r.Ok? ==> r.value.0.scalar.None? || r.value.0.elements.None?
  {
    var rhs :- Operand(ts, env, p);
    var tail :- Arithmetic(ts, env, rhs.0, rhs.2);
    Ok((Var(tail.0, rhs.1), tail.1, tail.2))
  }

  /**
   * The assignment branch: `$x = operand [op operand] [;]`.  Without `=`
   * only the variable token is consumed.  The result replaces the variable,
   * scalar and array together.
   */
  function AssignStmt(ts: seq<Token>, st: State): (r: Outcome<State>)
    requires st.pos < |ts|
    ensures r.Ok? ==> Extends(ts, st, r.value)
    ensures r.Ok? ==> r.value.out == st.out
    ensures r.Ok? ==> st.pos < r.value.pos
  {
    var name :- Dup(ts[st.pos].text);
    var p := st.pos + 1;
    var e :- At(ts, p);
    if e.kind != Equals then Ok(st.(pos := p)) else AssignValue(ts, st, name, p + 1)
  }

  /** The value after an assignment's `=`, at p, committed to the variable. */
  function AssignValue(ts: seq<Token>, st: State, name: string, p: nat): (r: Outcome<State>)
    ensures r.Ok? ==> Extends(ts, st, r.value)
    ensures r.Ok? ==> r.value.out == st.out
    ensures r.Ok? ==> p <= r.value.pos
  {
    var _ :- At(ts, p);
    var a :- RightHandSide(ts, st.env, p);
    Commit(ts, st, name, a.0, a.1, a.2)
  }

  /** The end of an assignment at q: the variable takes its new contents and an optional `;` is consumed. */
  function Commit(ts: seq<Token>, st: State, name: string, v: Var, q: nat, d: nat): (r: Outcome<State>)
    ensures r.Ok? <==> q < |ts|
    ensures r.Ok? ==> r.value.pos == (if ts[q].kind == Semicolon then q + 1 else q)
    ensures r.Ok? ==> r.value.env == Set(st.env, name, v) && r.value.out == st.out && r.value.diagnostics == st.diagnostics + d
    ensures r.Ok? ==> Extends(ts, st, r.value)
  {
    var s :- At(ts, q);
    Ok(State(if s.kind == Semicolon then q + 1 else q, Set(st.env, name, v), st.out, st.diagnostics + d))
  }

  /** A block the condition selects is run; one it does not select is skipped by brace depth. */
  function Branch(ts: seq<Token>, st: State, run: bool, fuel: nat): (r: Outcome<State>)
    ensures r.Ok? ==> Extends(ts, st, r.value)
    ensures r.Ok? && !run ==> r.value == st.(pos := r.value.pos)
    decreases fuel, 1
  {
    if run then Block(ts, st, fuel)
    else
      var q :- Skip(ts, st.pos, 1);
      Ok(st.(pos := q))
  }

  /**
   * The if branch: `if ( a op b ) { ... } [else { ... }]`.  The two operands
   * are resolved before the condition is evaluated, which happens only once
   * the `)` is seen; each part that is missing ends the statement where the
   * cursor stands.
   */
  function IfStmt(ts: seq<Token>, st: State, fuel: nat): (r: Outcome<State>)
    ensures r.Ok? ==> Extends(ts, st, r.value)
    decreases fuel, 3
  {
    var head :- IfHead(ts, st);
    match head
    case Leave(pos) => Ok(st.(pos := pos))
    case Enter(cond, start) => IfArms(ts, st.(pos := start), cond, fuel)
  }

  /** An if header read up to its `{`: the condition and the if-block's start, or where it stops. */
  datatype IfHeader = Enter(cond: bool, start: nat) | Leave(pos: nat)

  /**
   * `if ( a op b ) {` from the `if` keyword: both operands are resolved
   * before the `)` is looked at, and the condition is evaluated only when
   * the `)` is there.
   */
  function IfHead(ts: seq<Token>, st: State): (r: Outcome<IfHeader>)
    ensures r.Ok? && r.value.Leave? ==> st.pos < r.value.pos < |ts|
    ensures r.Ok? && r.value.Enter? ==> r.value.start == st.pos + 7 <= |ts|
    ensures r.Ok? && r.value.Enter? && r.value.cond ==> ts[st.pos + 3].kind == Less || ts[st.pos + 3].kind == Greater
  {
    var p := st.pos + 1;
    var t :- At(ts, p);
    if t.kind != OpenParen then Ok(Leave(p))
    else
      var lt :- At(ts, p + 1);
      var left :- Resolve(st.env, lt);
      var ot :- At(ts, p + 2);
      var rt :- At(ts, p + 3);
      var right :- Resolve(st.env, rt);
      var ct :- At(ts, p + 4);
      if ct.kind != CloseParen then Ok(Leave(p + 4))
      else
        var cond :- EvaluateCondition(left, ot.kind, right);
        var bt :- At(ts, p + 5);
        if bt.kind != OpenBrace then Ok(Leave(p + 5))
        else Ok(Enter(cond, p + 6))
  }

  /**
   * The two arms of an if, from the first token of the if-block: the block
   * the condition selects runs and the other is skipped; the else arm is
   * there only when `else {` follows the if-block.
   */
  function IfArms(ts: seq<Token>, st: State, cond: bool, fuel: nat): (r: Outcome<State>)
    ensures r.Ok? ==> Extends(ts, st, r.value)
    decreases fuel, 2
  {
    var s1 :- Branch(ts, st, cond, fuel);
    var et :- At(ts, s1.pos);
    if et.kind != Else then Ok(s1)
    else
      var bt :- At(ts, s1.pos + 1);
      if bt.kind != OpenBrace then Ok(s1.(pos := s1.pos + 1))
      else
        var s2 :- Branch(ts, s1.(pos := s1.pos + 2), !cond, fuel);
        GrowsTrans(st, s1, s2);
        Ok(s2)
  }

  /** What the for header leaves for the loop: the condition and the increment, as read. */
  datatype ForHeader = ForHeader(
    condVar: Option<string>, condOp: Kind, limit: Option<string>,
    incVar: Option<string>, incOp: Kind, step: Option<string>)

  /**
   * The for loop proper: while the condition variable compares true with
   * the limit, run the body from `start`, then replace the increment
   * variable with operate_values of its scalar and the step.  The cursor is
   * back at `start` when the condition turns false.
   */
  function ForLoop(ts: seq<Token>, st: State, h: ForHeader, start: nat, fuel: nat): (r: Outcome<State>)
    ensures r.Ok? ==> Grows(st, r.value) && r.value.pos == start
    ensures r.Ok? ==> ForCondition(r.value.env, h) == Ok(false)
    decreases fuel, 2
  {
    var go :- ForCondition(st.env, h);
    if !go then Ok(st.(pos := start))
    else if fuel == 0 then Fail(OutOfFuel)
    else
      var s1 :- ForPass(ts, st, h, start, fuel - 1);
      var s2 :- ForLoop(ts, s1, h, start, fuel - 1);
      GrowsTrans(st, s1, s2);
      Ok(s2)
  }

  /**
   * The loop condition: the condition variable's scalar compared with the
   * limit's text, both through atof; only `<` and `>` can hold.
   */
  function ForCondition(env: Env, h: ForHeader): (r: Outcome<bool>)
    ensures h.condVar.Some? ==> (r.Ok? <==> GetValue(env, h.condVar.value).Some? && h.limit.Some?)
    ensures r.Ok? ==> h.condVar.Some? && h.limit.Some? && GetValue(env, h.condVar.value).Some?
    ensures r.Ok? ==> var x := Atof(GetValue(env, h.condVar.value).value); var y := Atof(h.limit.value);
      (r.value <==> (h.condOp == Less && x < y) || (h.condOp == Greater && x > y))
  {
    var current :- LookupValue(env, h.condVar);
    EvaluateCondition(current, h.condOp, h.limit)
  }

  /**
   * One pass of the for loop: the body from `start`, then the increment
   * applied to the state the body left.
   */
  function ForPass(ts: seq<Token>, st: State, h: ForHeader, start: nat, fuel: nat): (r: Outcome<State>)
    ensures r.Ok? ==> Grows(st, r.value) && r.value.pos == start
    decreases fuel, 1
  {
    var s1 :- Block(ts, st.(pos := start), fuel);
    Increment(s1, h, start)
  }

  /**
   * The increment after a pass: the increment variable takes operate_values
   * of its scalar and the step (a division by zero stores "0" and writes a
   * diagnostic), loses any array, and the cursor goes back to `start`.
   * Nothing else changes.
   */
  function Increment(s: State, h: ForHeader, start: nat): (r: Outcome<State>)
    ensures r.Ok? <==> h.incVar.Some? && GetValue(s.env, h.incVar.value).Some? && h.step.Some?
    ensures r.Ok? ==> r.value.pos == start && r.value.out == s.out && Grows(s, r.value)
    ensures r.Ok? ==> var i := h.incVar.value;
      && GetArray(r.value.env, i) == None
      && forall m :: m != i ==> GetValue(r.value.env, m) == GetValue(s.env, m) && GetArray(r.value.env, m) == GetArray(s.env, m)
    ensures r.Ok? ==> var i := h.incVar.value;
      var x := Atof(GetValue(s.env, i).value);
      var y := Atof(h.step.value);
      if IsArithOp(h.incOp) && !(h.incOp == Divide && y == 0.0) then
        GetValue(r.value.env, i) == Some(Fmt2(Apply(h.incOp, x, y))) && r.value.diagnostics == s.diagnostics
      else
        GetValue(r.value.env, i) == Some("0") && r.value.diagnostics == s.diagnostics + (if IsArithOp(h.incOp) then 1 else 0)
  {
    var v :- LookupValue(s.env, h.incVar);
    var n :- OperateValues(v, h.step, h.incOp);
    var nv := Var(Some(n.text), None);
    var env := Set(s.env, h.incVar.value, nv);
    SetLookup(s.env, h.incVar.value, nv);
    SetKeepsOthers(s.env, h.incVar.value, nv);
    Ok(State(start, env, s.out, s.diagnostics + if n.divByZero then 1 else 0))
  }

  /**
   * A loop header read up to its `{`: the loop to run, with the environment
   * after the initializer and the position of the body, or the state the
   * statement stops in when a part of the header is missing.
   */
  datatype Header = Loop(env: Env, h: ForHeader, start: nat) | Stop(env: Env, pos: nat)

  /**
   * The optional initializer `$i = init ;` at p, where p is on the variable:
   * the variable takes the init token's own text.  Returns the environment
   * and the position of the condition.
   */
  function ForInit(ts: seq<Token>, env: Env, p: nat): (r: Outcome<(Env, nat)>)
    ensures r.Ok? ==> p < r.value.1 && (UniqueNames(env) ==> UniqueNames(r.value.0))
  {
    var vt :- At(ts, p);
    var et :- At(ts, p + 1);
    if et.kind == Equals then
      var it :- At(ts, p + 2);
      var env' :- SetNamed(env, vt.text, Var(it.text, None));
      var sc :- At(ts, p + 3);
      Ok((env', if sc.kind == Semicolon then p + 4 else p + 3))
    else Ok((env, p + 1))
  }

  /** `for ( init ; ... ) {` from the `for` keyword: the `(`, the initializer, then the rest of the header. */
  function ForHead(ts: seq<Token>, st: State): (r: Outcome<Header>)
    ensures r.Ok? ==> UniqueNames(st.env) ==> UniqueNames(r.value.env)
    ensures r.Ok? && r.value.Stop? ==> st.pos < r.value.pos < |ts|
    ensures r.Ok? && r.value.Loop? ==> st.pos < r.value.start <= |ts| && ts[r.value.start - 1].kind == OpenBrace
  {
    var p := st.pos + 1;
    var t :- At(ts, p);
    if t.kind != OpenParen then Ok(Stop(st.env, p))
    else
      var init :- ForInit(ts, st.env, p + 1);
      ForTail(ts, init.0, init.1)
  }

  /**
   * `$c op limit ; $i = $i op step ) {` from the condition variable at c.
   * The variable token after the increment's `=` is stepped over without
   * being read, and the `;` after the condition is optional.
   */
  function ForTail(ts: seq<Token>, env: Env, c: nat): (r: Outcome<Header>)
    ensures r.Ok? ==> r.value.env == env
    ensures r.Ok? && r.value.Stop? ==> c < r.value.pos < |ts|
    ensures r.Ok? && r.value.Loop? ==> c < r.value.start <= |ts| && ts[r.value.start - 1].kind == OpenBrace
  {
    var cv :- At(ts, c);
    var co :- At(ts, c + 1);
    var cl :- At(ts, c + 2);
    var sc :- At(ts, c + 3);
    var i := if sc.kind == Semicolon then c + 4 else c + 3;
    var iv :- At(ts, i);
    var ie :- At(ts, i + 1);
    if ie.kind != Equals then Ok(Stop(env, i + 1))
    else
      var io :- At(ts, i + 3);
      var step :- At(ts, i + 4);
      var cp :- At(ts, i + 5);
      if cp.kind != CloseParen then Ok(Stop(env, i + 5))
      else
        var ob :- At(ts, i + 6);
        if ob.kind != OpenBrace then Ok(Stop(env, i + 6))
        else Ok(Loop(env, ForHeader(cv.text, co.kind, cl.text, iv.text, io.kind, step.text), i + 7))
  }

  /**
   * The for branch: the header, then the loop with the initialized
   * environment; after the loop the body is skipped by brace depth from its
   * start.
   */
  function ForStmt(ts: seq<Token>, st: State, fuel: nat): (r: Outcome<State>)
    ensures r.Ok? ==> Extends(ts, st, r.value)
    decreases fuel, 3
  {
    var head :- ForHead(ts, st);
    match head
    case Stop(env, pos) => Ok(st.(env := env, pos := pos))
    case Loop(env, h, start) =>
      var s1 :- ForLoop(ts, st.(env := env, pos := start), h, start, fuel);
      var q :- Skip(ts, start, 1);
      Ok(s1.(pos := q))
  }

  /**
   * set_variable from inside a foreach: the text points into the array being
   * iterated, so replacing the variable that holds that array releases the
   * text before it is copied.
   */
  function Store(env: Env, name: string, text: Option<string>, arrayVar: string): (r: Outcome<Env>)
    ensures r.Ok? <==> name != arrayVar || text.None?
    ensures r.Ok? ==> r.value == Set(env, name, Var(text, None))
  {
    if name == arrayVar && text.Some? then Fail(UseAfterFree)
    else Ok(Set(env, name, Var(text, None)))
  }

  /**
   * The foreach loop proper, at item i of the array held by `arrayVar` when
   * the loop began, in generation g.  Each access to the array first checks
   * that the variable holding it has not been replaced since (which would
   * have released it); then the key variable (when there is one) and the
   * value variable are set and the body runs from `start`.
   */
  function ForeachLoop(ts: seq<Token>, st: State, items: ArrayValue, arrayVar: string, g: nat, i: nat,
                       keyVar: Option<string>, valueVar: Option<string>, start: nat, fuel: nat): (r: Outcome<State>)
    ensures r.Ok? ==> Grows(st, r.value) && r.value.pos == start
    decreases fuel, 2
  {
    if Generation(st.env, arrayVar) != g then Fail(UseAfterFree)
    else if i >= |items| then Ok(st.(pos := start))
    else if fuel == 0 then Fail(OutOfFuel)
    else
      var s1 :- ForeachPass(ts, st, items[i], arrayVar, g, keyVar, valueVar, start, fuel - 1);
      var s2 :- ForeachLoop(ts, s1, items, arrayVar, g, i + 1, keyVar, valueVar, start, fuel - 1);
      GrowsTrans(st, s1, s2);
      Ok(s2)
  }

  /**
   * One pass of the foreach loop over one item: the key variable (when
   * there is one) and then the value variable take the item, each after
   * checking that the array has not been released, and the body runs.
   */
  function ForeachPass(ts: seq<Token>, st: State, item: Item, arrayVar: string, g: nat,
                       keyVar: Option<string>, valueVar: Option<string>, start: nat, fuel: nat): (r: Outcome<State>)
    ensures valueVar == Some(arrayVar) ==> r == Fail(UseAfterFree)
    ensures keyVar == Some(arrayVar) && item.key.Some? ==> r == Fail(UseAfterFree)
    ensures r.Ok? ==> Grows(st, r.value)
    decreases fuel, 1
  {
    var env1 :- if keyVar.Some? then Store(st.env, keyVar.value, item.key, arrayVar) else Ok(st.env);
    if Generation(env1, arrayVar) != g then Fail(UseAfterFree)
    else
      var name :- if valueVar.Some? then Ok(valueVar.value) else Fail(NullName);
      var env2 :- Store(env1, name, Some(item.value), arrayVar);
      Block(ts, st.(pos := start, env := env2), fuel)
  }

  /**
   * A foreach header read up to its `{`: the array found under the array
   * variable's name (looked up as soon as the name is read), the three
   * names and the body's start, or the position where the statement stops.
   */
  datatype ForeachHeader =
    | Iterate(found: Option<ArrayValue>, arrayVar: Option<string>, keyVar: Option<string>,
              valueVar: Option<string>, start: nat)
    | Halt(pos: nat)

  /** `foreach ( $a as [$k =>] $v ) {` from the `foreach` keyword. */
  function ForeachHead(ts: seq<Token>, st: State): (r: Outcome<ForeachHeader>)
    ensures r.Ok? && r.value.Halt? ==> st.pos < r.value.pos < |ts|
    ensures r.Ok? && r.value.Iterate? ==> st.pos < r.value.start <= |ts| && ts[r.value.start - 1].kind == OpenBrace
    ensures r.Ok? && r.value.Iterate? && r.value.found.Some? ==> r.value.arrayVar.Some?
  {
    var p := st.pos + 1;
    var t :- At(ts, p);
    if t.kind != OpenParen then Ok(Halt(p))
    else
      var at :- At(ts, p + 1);
      var arr :- LookupArray(st.env, at.text);
      var ast :- At(ts, p + 2);
      if ast.kind != As then Ok(Halt(p + 2))
      else
        var first :- At(ts, p + 3);
        var ar :- At(ts, p + 4);
        var names :-
          if ar.kind == Arrow then
            var second :- At(ts, p + 5);
            Ok((first.text, second.text, p + 6))
          else Ok((None, first.text, p + 4));
        var cp :- At(ts, names.2);
        if cp.kind != CloseParen then Ok(Halt(names.2))
        else
          var ob :- At(ts, names.2 + 1);
          if ob.kind != OpenBrace then Ok(Halt(names.2 + 1))
          else Ok(Iterate(arr, at.text, names.0, names.1, names.2 + 2))
  }

  /**
   * The foreach branch: the header, then the loop over the array (an absent
   * array runs the body zero times); after the loop the body is skipped by
   * brace depth from its start.
   */
  function ForeachStmt(ts: seq<Token>, st: State, fuel: nat): (r: Outcome<State>)
    ensures r.Ok? ==> Extends(ts, st, r.value)
    decreases fuel, 3
  {
    var head :- ForeachHead(ts, st);
    match head
    case Halt(pos) => Ok(st.(pos := pos))
    case Iterate(arr, arrayVar, keyVar, valueVar, start) =>
      var s1 :-
        if arr.Some? then
          var a := arrayVar.value;
          ForeachLoop(ts, st.(pos := start), arr.value, a, Generation(st.env, a), 0, keyVar, valueVar, start, fuel)
        else Ok(st.(pos := start));
      var q :- Skip(ts, start, 1);
      Ok(s1.(pos := q))
  }

  /** parse_expression: dispatch on the current token; any other token is left unconsumed. */
  function Statement(ts: seq<Token>, st: State, fuel: nat): (r: Outcome<State>)
    ensures r.Ok? ==> Extends(ts, st, r.value)
    ensures r.Ok? && st.pos < |ts| && !Dispatches(ts[st.pos].kind) ==> r.value == st
    decreases fuel, 4
  {
    var t :- At(ts, st.pos);
    match t.kind
    case Echo => EchoStmt(ts, st)
    case Variable => AssignStmt(ts, st)
    case If => IfStmt(ts, st, fuel)
    case For => ForStmt(ts, st, fuel)
    case Foreach => ForeachStmt(ts, st, fuel)
    case _ => Ok(st)
  }

  /** The token kinds parse_expression acts on. */
  predicate Dispatches(k: Kind) {
    k == Echo || k == Variable || k == If || k == For || k == Foreach
  }

  /**
   * parse_block: statements until `}` (consumed) or EOF (not consumed).
   * Each statement costs one unit of fuel.
   */
  function Block(ts: seq<Token>, st: State, fuel: nat): (r: Outcome<State>)
    ensures r.Ok? ==> Extends(ts, st, r.value)
    decreases fuel, 0
  {
    var t :- At(ts, st.pos);
    if t.kind == CloseBrace then Ok(st.(pos := st.pos + 1))
    else if t.kind == EOF then Ok(st)
    else if fuel == 0 then Fail(OutOfFuel)
    else
      var s1 :- Statement(ts, st, fuel - 1);
      var s2 :- Block(ts, s1, fuel - 1);
      GrowsTrans(st, s1, s2);
      Ok(s2)
  }

  /** parser_run: statements until EOF, one unit of fuel each. */
  function Run(ts: seq<Token>, st: State, fuel: nat): (r: Outcome<State>)
    ensures r.Ok? ==> Extends(ts, st, r.value)
    ensures r.Ok? ==> r.value.pos < |ts| && ts[r.value.pos].kind == EOF
    decreases fuel
  {
    var t :- At(ts, st.pos);
    if t.kind == EOF then Ok(st)
    else if fuel == 0 then Fail(OutOfFuel)
    else
      var s1 :- Statement(ts, st, fuel - 1);
      var s2 :- Run(ts, s1, fuel - 1);
      GrowsTrans(st, s1, s2);
      Ok(s2)
  }

  /** The whole program: tokenize the source, then run it from an empty table. */
  function Interpret(src: string, fuel: nat): (r: Outcome<State>)
    ensures r.Ok? ==> UniqueNames(r.value.env) && r.value.pos == |Lex(src)| - 1
  {
    Run(Lex(src), State(0, [], "", 0), fuel)
  }
}
