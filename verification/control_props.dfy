/**
 * What the control statements of parse_expression promise: exactly one arm
 * of an if runs, the for header is read as written and the loop stops only
 * on a false condition, and foreach visits the array in order unless the
 * array is released under it.
 */
module ControlProps {
  import opened Wrappers
  import opened Tokens
  import opened Faults
  import opened Arith
  import opened Environment
  import opened Cursor
  import opened ArrayLiteral
  import opened Interpreter
  import opened InterpreterProps
  import opened CType

  // ---------------------------------------------------------------------
  // if

  /**
   * `if ( a op b ) {` with both operands readable: the arms are chosen by
   * the numeric comparison of the two operands' texts, and only `<` and `>`
   * can choose the if-block.
   */
  lemma IfCondition(ts: seq<Token>, st: State, fuel: nat, a: Token, op: Kind, b: Token, x: string, y: string)
    requires st.pos + 6 < |ts|
    requires ts[st.pos + 1].kind == OpenParen && ts[st.pos + 2] == a && ts[st.pos + 3].kind == op
    requires ts[st.pos + 4] == b && ts[st.pos + 5].kind == CloseParen && ts[st.pos + 6].kind == OpenBrace
    requires Resolve(st.env, a) == Ok(Some(x)) && Resolve(st.env, b) == Ok(Some(y))
    ensures IfStmt(ts, st, fuel) ==
      IfArms(ts, st.(pos := st.pos + 7), (op == Less && Atof(x) < Atof(y)) || (op == Greater && Atof(x) > Atof(y)), fuel)
  {
    IfHeadEnters(ts, st, a, op, b, x, y);
  }

  /** The header part of IfCondition: the if-block starts after the `{`. */
  lemma IfHeadEnters(ts: seq<Token>, st: State, a: Token, op: Kind, b: Token, x: string, y: string)
    requires st.pos + 6 < |ts|
    requires ts[st.pos + 1].kind == OpenParen && ts[st.pos + 2] == a && ts[st.pos + 3].kind == op
    requires ts[st.pos + 4] == b && ts[st.pos + 5].kind == CloseParen && ts[st.pos + 6].kind == OpenBrace
    requires Resolve(st.env, a) == Ok(Some(x)) && Resolve(st.env, b) == Ok(Some(y))
    ensures IfHead(ts, st) == Ok(Enter(EvaluateCondition(Some(x), op, Some(y)).value, st.pos + 7))
  {
  }

  /** A false condition and no else: the if-block is skipped by brace depth and nothing else changes. */
  lemma IfFalseNoElse(ts: seq<Token>, st: State, fuel: nat, q: nat)
    requires Skip(ts, st.pos, 1) == Ok(q)
    requires q < |ts| && ts[q].kind != Else
    ensures IfArms(ts, st, false, fuel) == Ok(st.(pos := q))
  {
  }

  /** A true condition and no else: the if does what its block does. */
  lemma IfTrueNoElse(ts: seq<Token>, st: State, fuel: nat, s1: State)
    requires Block(ts, st, fuel) == Ok(s1)
    requires s1.pos < |ts| && ts[s1.pos].kind != Else
    ensures IfArms(ts, st, true, fuel) == Ok(s1)
  {
  }

  /** A true condition: the if-block runs and the else-block is skipped without effect. */
  lemma IfTrueSkipsElse(ts: seq<Token>, st: State, fuel: nat, s1: State, q: nat)
    requires Block(ts, st, fuel) == Ok(s1)
    requires s1.pos + 1 < |ts| && ts[s1.pos].kind == Else && ts[s1.pos + 1].kind == OpenBrace
    requires Skip(ts, s1.pos + 2, 1) == Ok(q)
    ensures IfArms(ts, st, true, fuel) == Ok(s1.(pos := q))
  {
  }

  /** A false condition: the if-block is skipped without effect and the else-block runs. */
  lemma IfFalseRunsElse(ts: seq<Token>, st: State, fuel: nat, q: nat)
    requires Skip(ts, st.pos, 1) == Ok(q)
    requires q + 1 < |ts| && ts[q].kind == Else && ts[q + 1].kind == OpenBrace
    ensures IfArms(ts, st, false, fuel) == Block(ts, st.(pos := q + 2), fuel)
  {
    var b := Block(ts, st.(pos := q + 2), fuel);
    if b.Ok? {
      GrowsTrans(st, st.(pos := q), b.value);
    }
  }

  // ---------------------------------------------------------------------
  // for

  /**
   * The initializer `$i = t ;` stores the token's own text, unconverted
   * (`0` stays "0"), and the condition starts after the optional `;`.
   */
  lemma ForInitStoresText(ts: seq<Token>, env: Env, p: nat, i: string, t: Token)
    requires p + 3 < |ts|
    requires ts[p] == Token(Variable, Some(i)) && ts[p + 1].kind == Equals && ts[p + 2] == t
    ensures ForInit(ts, env, p) ==
      Ok((Set(env, i, Var(t.text, None)), if ts[p + 3].kind == Semicolon then p + 4 else p + 3))
  {
  }

  /**
   * A complete header `for ( $i = t ; $c op limit ; $x = _ op2 step ) {` is
   * read as written: the limit and the step are the tokens' texts (a
   * variable there is not looked up), the token after the increment's `=`
   * is never looked at, and the body starts after the `{`.
   */
  lemma ForHeadReadsHeader(ts: seq<Token>, st: State, i: string, t: Token, c: string, op: Kind, limit: Token,
                           x: string, op2: Kind, step: Token)
    requires st.pos + 16 < |ts|
    requires ts[st.pos + 1].kind == OpenParen
    requires ts[st.pos + 2] == Token(Variable, Some(i)) && ts[st.pos + 3].kind == Equals && ts[st.pos + 4] == t
    requires ts[st.pos + 5].kind == Semicolon
    requires ts[st.pos + 6] == Token(Variable, Some(c)) && ts[st.pos + 7].kind == op && ts[st.pos + 8] == limit
    requires ts[st.pos + 9].kind == Semicolon
    requires ts[st.pos + 10] == Token(Variable, Some(x)) && ts[st.pos + 11].kind == Equals
    requires ts[st.pos + 13].kind == op2 && ts[st.pos + 14] == step
    requires ts[st.pos + 15].kind == CloseParen && ts[st.pos + 16].kind == OpenBrace
    ensures ForHead(ts, st) == Ok(Loop(Set(st.env, i, Var(t.text, None)),
                                       ForHeader(Some(c), op, limit.text, Some(x), op2, step.text), st.pos + 17))
  {
    ForInitStoresText(ts, st.env, st.pos + 2, i, t);
    ForTailReads(ts, Set(st.env, i, Var(t.text, None)), st.pos + 6, c, op, limit, x, op2, step);
  }

  /** The condition and increment part of the header, from the condition variable at p. */
  lemma ForTailReads(ts: seq<Token>, env: Env, p: nat, c: string, op: Kind, limit: Token, x: string, op2: Kind, step: Token)
    requires p + 10 < |ts|
    requires ts[p] == Token(Variable, Some(c)) && ts[p + 1].kind == op && ts[p + 2] == limit
    requires ts[p + 3].kind == Semicolon
    requires ts[p + 4] == Token(Variable, Some(x)) && ts[p + 5].kind == Equals
    requires ts[p + 7].kind == op2 && ts[p + 8] == step
    requires ts[p + 9].kind == CloseParen && ts[p + 10].kind == OpenBrace
    ensures ForTail(ts, env, p) == Ok(Loop(env, ForHeader(Some(c), op, limit.text, Some(x), op2, step.text), p + 11))
  {
  }

  /** A condition false from the start: the body never runs and nothing changes but the position. */
  lemma ForLoopNotEntered(ts: seq<Token>, st: State, h: ForHeader, start: nat, fuel: nat)
    requires ForCondition(st.env, h) == Ok(false)
    ensures ForLoop(ts, st, h, start, fuel) == Ok(st.(pos := start))
  {
  }

  /**
   * After a for loop the cursor is where the brace-depth skip from the
   * body's first token stops, just past the body's matching `}` or on EOF,
   * and the state is otherwise the one the loop left.
   */
  lemma ForEndsPastBody(ts: seq<Token>, st: State, fuel: nat, env: Env, h: ForHeader, start: nat, s1: State)
    requires Sentinel(ts)
    requires ForHead(ts, st) == Ok(Loop(env, h, start))
    requires ForLoop(ts, st.(env := env, pos := start), h, start, fuel) == Ok(s1)
    ensures start < |ts| && Skip(ts, start, 1).Ok?
    ensures var q := Skip(ts, start, 1).value;
      && ForStmt(ts, st, fuel) == Ok(s1.(pos := q))
      && start <= q < |ts| && (DepthAfter(ts, start, q, 1) == 0 || ts[q].kind == EOF)
  {
    BodyFollowsBrace(ts, st, env, h, start);
    ForStmtOfLoop(ts, st, fuel, env, h, start, s1, Skip(ts, start, 1).value);
  }

  /** A complete for header ends on `{`, so on an EOF-terminated array the body's skip finds its end. */
  lemma BodyFollowsBrace(ts: seq<Token>, st: State, env: Env, h: ForHeader, start: nat)
    requires Sentinel(ts)
    requires ForHead(ts, st) == Ok(Loop(env, h, start))
    ensures start < |ts| && Skip(ts, start, 1).Ok?
    ensures var q := Skip(ts, start, 1).value;
      start <= q < |ts| && (DepthAfter(ts, start, q, 1) == 0 || ts[q].kind == EOF)
  {
    assert ts[start - 1].kind != EOF;
    SkipFindsMatch(ts, start, 1);
  }

  /** The for statement is its header, its loop and the skip, in that order. */
  lemma ForStmtOfLoop(ts: seq<Token>, st: State, fuel: nat, env: Env, h: ForHeader, start: nat, s1: State, q: nat)
    requires ForHead(ts, st) == Ok(Loop(env, h, start))
    requires ForLoop(ts, st.(env := env, pos := start), h, start, fuel) == Ok(s1)
    requires Skip(ts, start, 1) == Ok(q)
    ensures ForStmt(ts, st, fuel) == Ok(s1.(pos := q))
  {
  }

  /** A pass is the body followed by the increment of the state the body leaves. */
  lemma ForPassOfBlock(ts: seq<Token>, st: State, h: ForHeader, start: nat, fuel: nat, b: State)
    requires Block(ts, st.(pos := start), fuel) == Ok(b)
    ensures ForPass(ts, st, h, start, fuel) == Increment(b, h, start)
  {
  }

  /**
   * While the condition holds the loop is one pass followed by the loop
   * from the state the pass leaves, with one unit of fuel spent.
   */
  lemma ForUnroll(ts: seq<Token>, st: State, h: ForHeader, start: nat, fuel: nat, s1: State)
    requires fuel > 0 && ForCondition(st.env, h) == Ok(true)
    requires ForPass(ts, st, h, start, fuel - 1) == Ok(s1)
    ensures ForLoop(ts, st, h, start, fuel) == ForLoop(ts, s1, h, start, fuel - 1)
  {
    var r := ForLoop(ts, s1, h, start, fuel - 1);
    if r.Ok? {
      GrowsTrans(st, s1, r.value);
    }
  }

  /** The header of `for (...; $i < lim; $i = $i + one)`: a counter counted up by a step. */
  function CountHeader(i: string, lim: string, one: string): ForHeader {
    ForHeader(Some(i), Less, Some(lim), Some(i), Plus, Some(one))
  }

  /** The whole numbers from a up to, not including, m, each printed with two decimals. */
  function Counts(a: int, m: int): string
    decreases m - a
  {
    if a < m then Fmt2(a as real) + Counts(a + 1, m) else ""
  }

  /** The body `echo $i; }` at `start`. */
  predicate EchoesAt(ts: seq<Token>, start: nat, i: string) {
    && start + 3 < |ts|
    && ts[start] == Token(Echo, None) && ts[start + 1] == Token(Variable, Some(i))
    && ts[start + 2] == Token(Semicolon, None) && ts[start + 3] == Token(CloseBrace, None)
  }

  /**
   * One pass of a counting loop whose body echoes the counter: the counter's
   * text t is printed, then the counter holds k + 1 printed with two
   * decimals, which reads back as k + 1 exactly; nothing else changes.
   */
  lemma CounterPass(ts: seq<Token>, s: State, i: string, lim: string, one: string, t: string, k: int,
                    start: nat, fuel: nat) returns (c: State)
    requires EchoesAt(ts, start, i) && fuel > 0
    requires Atof(one) == 1.0
    requires GetValue(s.env, i) == Some(t) && Atof(t) == k as real
    ensures c == CountedOnce(s, i, t, k, start) && ForPass(ts, s, CountHeader(i, lim, one), start, fuel) == Ok(c)
    ensures c.out == s.out + t && c.diagnostics == s.diagnostics
    ensures GetValue(c.env, i) == Some(Fmt2((k + 1) as real)) && Atof(Fmt2((k + 1) as real)) == (k + 1) as real
  {
    var h := CountHeader(i, lim, one);
    EchoBody(ts, s.(pos := start), i, fuel);
    var b := s.(pos := start + 4, out := s.out + t);
    ForPassOfBlock(ts, s, h, start, fuel, b);
    CounterIncrement(b, i, lim, one, t, k, start);
    c := State(start, Set(s.env, i, Var(Some(Fmt2((k + 1) as real)), None)), s.out + t, s.diagnostics);
    NextCounter(s.env, i, k);
  }

  /** The increment of a counter whose text t reads as k, by a step reading as 1, stores k + 1 with two decimals. */
  lemma CounterIncrement(s: State, i: string, lim: string, one: string, t: string, k: int, start: nat)
    requires Atof(one) == 1.0
    requires GetValue(s.env, i) == Some(t) && Atof(t) == k as real
    ensures Increment(s, CountHeader(i, lim, one), start) ==
      Ok(State(start, Set(s.env, i, Var(Some(Fmt2((k + 1) as real)), None)), s.out, s.diagnostics))
  {
    assert OperateValues(Some(t), Some(one), Plus) == Ok(Computed(Fmt2((k + 1) as real), false));
  }

  /** The counting loop from state s, stated through one name so that each lemma below unfolds it once. */
  function Counting(ts: seq<Token>, s: State, i: string, lim: string, one: string, start: nat, fuel: nat): Outcome<State> {
    ForLoop(ts, s, CountHeader(i, lim, one), start, fuel)
  }

  /** The conditions a counting loop runs under, from counter text t reading as k, up to m. */
  predicate Counter(ts: seq<Token>, s: State, i: string, lim: string, one: string, m: int, t: string, k: int, start: nat) {
    && EchoesAt(ts, start, i)
    && Atof(lim) == m as real && Atof(one) == 1.0
    && GetValue(s.env, i) == Some(t) && Atof(t) == k as real
  }

  /** The state after one pass of a counting loop that echoes the counter text t reading as k. */
  function CountedOnce(s: State, i: string, t: string, k: int, start: nat): State {
    State(start, Set(s.env, i, Var(Some(Fmt2((k + 1) as real)), None)), s.out + t, s.diagnostics)
  }

  /** The state a counting loop from counter text t reading as k ends in, counting up to m. */
  function CountedRun(s: State, i: string, t: string, k: int, m: int, start: nat): State
    decreases if k < m then m - k else 0
  {
    if k < m then CountedRun(CountedOnce(s, i, t, k, start), i, Fmt2((k + 1) as real), k + 1, m, start)
    else s.(pos := start)
  }

  /**
   * The two rules a counting loop obeys, stated of any run function: below
   * the limit it goes on as from the state one pass later, with one unit of
   * fuel spent; at or past the limit it stops where it is.
   */
  ghost predicate CountRules(run: (State, nat) -> Outcome<State>, ts: seq<Token>, i: string, lim: string, one: string,
                             m: int, start: nat) {
    && (forall s: State, t: string, k: int, fuel: nat ::
          Counter(ts, s, i, lim, one, m, t, k, start) && k < m && fuel > 1 ==>
          run(s, fuel) == run(CountedOnce(s, i, t, k, start), fuel - 1))
    && (forall s: State, t: string, k: int, fuel: nat ::
          Counter(ts, s, i, lim, one, m, t, k, start) && k >= m ==> run(s, fuel) == Ok(s.(pos := start)))
  }

  /** A run obeying the counting rules ends in CountedRun, given fuel for every pass. */
  lemma {:induction false} CountInduction(run: (State, nat) -> Outcome<State>, ts: seq<Token>, s: State, i: string,
                                          lim: string, one: string, m: int, t: string, k: int, start: nat, fuel: nat)
    requires CountRules(run, ts, i, lim, one, m, start)
    requires Counter(ts, s, i, lim, one, m, t, k, start)
    requires fuel > m - k + 1
    ensures run(s, fuel) == Ok(CountedRun(s, i, t, k, m, start))
    decreases if k < m then m - k else 0
  {
    if k < m {
      var c := CountedOnce(s, i, t, k, start);
      var t1 := Fmt2((k + 1) as real);
      CountRulesStep(run, ts, s, i, lim, one, m, t, k, start, fuel);
      CounterNext(ts, s, i, lim, one, m, t, k, start);
      CountInduction(run, ts, c, i, lim, one, m, t1, k + 1, start, fuel - 1);
      assert CountedRun(s, i, t, k, m, start) == CountedRun(c, i, t1, k + 1, m, start);
    }
  }

  /** The step rule of CountRules, for one state below the limit. */
  lemma CountRulesStep(run: (State, nat) -> Outcome<State>, ts: seq<Token>, s: State, i: string,
                       lim: string, one: string, m: int, t: string, k: int, start: nat, fuel: nat)
    requires CountRules(run, ts, i, lim, one, m, start)
    requires Counter(ts, s, i, lim, one, m, t, k, start) && k < m && fuel > 1
    ensures run(s, fuel) == run(CountedOnce(s, i, t, k, start), fuel - 1)
  {
  }

  /** A counting loop whose body echoes the counter ends in CountedRun. */
  lemma CountLoop(ts: seq<Token>, s: State, i: string, lim: string, one: string, m: int,
                  t: string, k: int, start: nat, fuel: nat)
    requires Counter(ts, s, i, lim, one, m, t, k, start)
    requires fuel > m - k + 1
    ensures Counting(ts, s, i, lim, one, start, fuel) == Ok(CountedRun(s, i, t, k, m, start))
  {
    var run := (s': State, fuel': nat) => Counting(ts, s', i, lim, one, start, fuel');
    forall s': State, t': string, k': int, fuel': nat | Counter(ts, s', i, lim, one, m, t', k', start) && k' < m && fuel' > 1
      ensures run(s', fuel') == run(CountedOnce(s', i, t', k', start), fuel' - 1)
    {
      CountStep(ts, s', i, lim, one, m, t', k', start, fuel');
    }
    forall s': State, t': string, k': int, fuel': nat | Counter(ts, s', i, lim, one, m, t', k', start) && k' >= m
      ensures run(s', fuel') == Ok(s'.(pos := start))
    {
      CountDone(ts, s', i, lim, one, m, t', k', start, fuel');
    }
    CountInduction(run, ts, s, i, lim, one, m, t, k, start, fuel);
  }

  /** One pass of a counting loop: the loop goes on as from the state the pass leaves. */
  lemma CountStep(ts: seq<Token>, s: State, i: string, lim: string, one: string, m: int,
                  t: string, k: int, start: nat, fuel: nat)
    requires Counter(ts, s, i, lim, one, m, t, k, start)
    requires k < m && fuel > 1
    ensures Counting(ts, s, i, lim, one, start, fuel) == Counting(ts, CountedOnce(s, i, t, k, start), i, lim, one, start, fuel - 1)
  {
    var c := CounterPass(ts, s, i, lim, one, t, k, start, fuel - 1);
    CountCondition(s.env, i, lim, one, t, k, m);
    ForUnroll(ts, s, CountHeader(i, lim, one), start, fuel, c);
  }

  /** After one pass the counter holds the next whole number, so the loop can go on counting. */
  lemma CounterNext(ts: seq<Token>, s: State, i: string, lim: string, one: string, m: int, t: string, k: int, start: nat)
    requires Counter(ts, s, i, lim, one, m, t, k, start)
    ensures Counter(ts, CountedOnce(s, i, t, k, start), i, lim, one, m, Fmt2((k + 1) as real), k + 1, start)
  {
    NextCounter(s.env, i, k);
  }

  /**
   * What CountedRun leaves: t and then every whole number from k + 1 up to
   * m, not included, printed with two decimals; the counter at m; no new
   * diagnostics.  A counter already at or past the limit prints nothing.
   */
  lemma {:induction false} CountedRunPrints(s: State, i: string, t: string, k: int, m: int, start: nat)
    requires GetValue(s.env, i) == Some(t)
    ensures var r := CountedRun(s, i, t, k, m, start);
      && r.out == s.out + (if k < m then t + Counts(k + 1, m) else "")
      && GetValue(r.env, i) == Some(if k < m then Fmt2(m as real) else t)
      && r.diagnostics == s.diagnostics
    decreases if k < m then m - k else 0
  {
    if k < m {
      var t1 := Fmt2((k + 1) as real);
      var c := CountedOnce(s, i, t, k, start);
      assert CountedRun(s, i, t, k, m, start) == CountedRun(c, i, t1, k + 1, m, start);
      SetLookup(s.env, i, Var(Some(t1), None));
      CountedRunPrints(c, i, t1, k + 1, m, start);
      var r := CountedRun(c, i, t1, k + 1, m, start);
      assert r.out == (s.out + t) + (if k + 1 < m then t1 + Counts(k + 2, m) else "");
      CountsOut(s.out, t, k, m);
    }
  }

  /** The counter after a pass holds k + 1 with two decimals, which reads back as k + 1. */
  lemma NextCounter(env: Env, i: string, k: int)
    ensures GetValue(Set(env, i, Var(Some(Fmt2((k + 1) as real)), None)), i) == Some(Fmt2((k + 1) as real))
    ensures Atof(Fmt2((k + 1) as real)) == (k + 1) as real
  {
    SetLookup(env, i, Var(Some(Fmt2((k + 1) as real)), None));
    AtofFmt2((k + 1) as real);
    Round2Whole(k + 1);
  }

  /** A counter at or past the limit: the counting loop stops at once. */
  lemma CountDone(ts: seq<Token>, s: State, i: string, lim: string, one: string, m: int,
                  t: string, k: int, start: nat, fuel: nat)
    requires Atof(lim) == m as real
    requires GetValue(s.env, i) == Some(t) && Atof(t) == k as real && k >= m
    ensures Counting(ts, s, i, lim, one, start, fuel) == Ok(s.(pos := start))
  {
    ForLoopNotEntered(ts, s, CountHeader(i, lim, one), start, fuel);
  }

  /** The condition of a counting loop compares the counter's number with the limit's. */
  lemma CountCondition(env: Env, i: string, lim: string, one: string, t: string, k: int, m: int)
    requires Atof(lim) == m as real
    requires GetValue(env, i) == Some(t) && Atof(t) == k as real
    ensures ForCondition(env, CountHeader(i, lim, one)) == Ok(k < m)
  {
  }

  /** What the counting loop prints, one pass at a time. */
  lemma CountsOut(out: string, t: string, k: int, m: int)
    requires k < m
    ensures (out + t) + (if k + 1 < m then Fmt2((k + 1) as real) + Counts(k + 2, m) else "") == out + (t + Counts(k + 1, m))
  {
    Associative(out, t, Counts(k + 1, m));
  }

  /** `for ($i = n; $i < lim; $i = $i + 1) { echo $i; }` at p, with digit strings n and lim. */
  predicate CountingFor(ts: seq<Token>, p: nat, i: string, n: string, lim: string) {
    && p + 21 <= |ts|
    && |n| > 0 && AllDigits(n) && |lim| > 0 && AllDigits(lim)
    && ts[p + 1].kind == OpenParen
    && ts[p + 2] == Token(Variable, Some(i)) && ts[p + 3].kind == Equals
    && ts[p + 4] == Token(Number, Some(n)) && ts[p + 5].kind == Semicolon
    && ts[p + 6] == Token(Variable, Some(i)) && ts[p + 7].kind == Less
    && ts[p + 8] == Token(Number, Some(lim)) && ts[p + 9].kind == Semicolon
    && ts[p + 10] == Token(Variable, Some(i)) && ts[p + 11].kind == Equals
    && ts[p + 13].kind == Plus && ts[p + 14] == Token(Number, Some("1"))
    && ts[p + 15].kind == CloseParen && ts[p + 16].kind == OpenBrace
    && EchoesAt(ts, p + 17, i)
  }

  /**
   * Such a statement's header stores n raw and sets up a counting loop from
   * n, read as a number, up to lim, whose body the skip passes in four tokens.
   */
  lemma CountingForReads(ts: seq<Token>, st: State, i: string, n: string, lim: string)
    requires CountingFor(ts, st.pos, i, n, lim)
    ensures ForHead(ts, st) == Ok(Loop(Set(st.env, i, Var(Some(n), None)), CountHeader(i, lim, "1"), st.pos + 17))
    ensures Counter(ts, st.(env := Set(st.env, i, Var(Some(n), None)), pos := st.pos + 17), i, lim, "1",
                    DigitsValue(lim), n, DigitsValue(n), st.pos + 17)
    ensures Skip(ts, st.pos + 17, 1) == Ok(st.pos + 21)
  {
    ForHeadReadsHeader(ts, st, i, ts[st.pos + 4], i, Less, ts[st.pos + 8], i, Plus, ts[st.pos + 14]);
    CountingForCounter(ts, st, i, n, lim);
    EchoesSkip(ts, st.pos + 17, i);
  }

  /** The initializer's raw digits read as the first count, and the bounds as numbers. */
  lemma CountingForCounter(ts: seq<Token>, st: State, i: string, n: string, lim: string)
    requires CountingFor(ts, st.pos, i, n, lim)
    ensures Counter(ts, st.(env := Set(st.env, i, Var(Some(n), None)), pos := st.pos + 17), i, lim, "1",
                    DigitsValue(lim), n, DigitsValue(n), st.pos + 17)
  {
    SetLookup(st.env, i, Var(Some(n), None));
    AtofDigits(n);
    AtofDigits(lim);
    AtofOne();
  }

  /** The step `1` reads as one. */
  lemma AtofOne()
    ensures Atof("1") == 1.0
  {
    AtofDigits("1");
  }

  /** The skip over the counting body `echo $i; }` stops just past the `}`. */
  lemma EchoesSkip(ts: seq<Token>, start: nat, i: string)
    requires EchoesAt(ts, start, i)
    ensures Skip(ts, start, 1) == Ok(start + 4)
  {
    BodySkip(ts, start);
  }

  /**
   * `for ($i = n; $i < lim; $i = $i + 1) { echo $i; }` with digit strings n
   * and lim ends, with the cursor just past the `}`, in CountedRun from the
   * state the initializer leaves: by CountedRunPrints the raw initializer
   * is printed first, then each following whole number below lim with two
   * decimals (so `0`, `1.00`, `2.00` for n = 0 and lim = 3), and the counter
   * ends at lim; a limit not above n prints nothing.
   */
  lemma ForCounts(ts: seq<Token>, st: State, fuel: nat, i: string, n: string, lim: string)
    requires CountingFor(ts, st.pos, i, n, lim)
    requires fuel > DigitsValue(lim) - DigitsValue(n) + 1
    ensures var s0 := st.(env := Set(st.env, i, Var(Some(n), None)), pos := st.pos + 17);
      ForStmt(ts, st, fuel) == Ok(CountedRun(s0, i, n, DigitsValue(n), DigitsValue(lim), st.pos + 17).(pos := st.pos + 21))
  {
    var start := st.pos + 17;
    var env := Set(st.env, i, Var(Some(n), None));
    var s0 := st.(env := env, pos := start);
    CountingForReads(ts, st, i, n, lim);
    CountLoop(ts, s0, i, lim, "1", DigitsValue(lim), n, DigitsValue(n), start, fuel);
    ForStmtOfLoop(ts, st, fuel, env, CountHeader(i, lim, "1"), start,
                  CountedRun(s0, i, n, DigitsValue(n), DigitsValue(lim), start), start + 4);
  }

  // ---------------------------------------------------------------------
  // foreach

  /** The values of the items, concatenated in order. */
  function Values(items: ArrayValue): string {
    if |items| == 0 then "" else items[0].value + Values(items[1..])
  }

  /**
   * The loop variable aliasing the iterated array: the first set_variable
   * on it releases the array while the loop still reads it.
   */
  lemma ForeachAliasFails(ts: seq<Token>, st: State, items: ArrayValue, a: string,
                          keyVar: Option<string>, valueVar: Option<string>, start: nat, fuel: nat)
    requires |items| > 0 && fuel > 0 && Bound(st.env, a)
    requires keyVar == Some(a) || valueVar == Some(a)
    ensures ForeachLoop(ts, st, items, a, Generation(st.env, a), 0, keyVar, valueVar, start, fuel) == Fail(UseAfterFree)
  {
    if keyVar == Some(a) && items[0].key.None? {
      SetLookup(st.env, a, Var(None, None));
    }
  }

  /** A body `echo $v; }`: the block prints v's scalar and ends after the `}`. */
  lemma EchoBody(ts: seq<Token>, st: State, v: string, fuel: nat)
    requires fuel > 0 && st.pos + 3 < |ts|
    requires ts[st.pos] == Token(Echo, None) && ts[st.pos + 1] == Token(Variable, Some(v))
    requires ts[st.pos + 2] == Token(Semicolon, None) && ts[st.pos + 3] == Token(CloseBrace, None)
    ensures Block(ts, st, fuel) ==
      Ok(st.(pos := st.pos + 4, out := st.out + GetValue(st.env, v).GetOr("")))
  {
    var s1 := st.(pos := st.pos + 3, out := st.out + GetValue(st.env, v).GetOr(""));
    EchoVariable(ts, st, v);
    Dispatch(ts, st, fuel - 1);
    BlockStep(ts, st, fuel, s1, s1.(pos := st.pos + 4));
  }

  /** parse_block runs one statement and then the rest of the block. */
  lemma BlockStep(ts: seq<Token>, st: State, fuel: nat, s1: State, s2: State)
    requires fuel > 0 && st.pos < |ts| && ts[st.pos].kind != CloseBrace && ts[st.pos].kind != EOF
    requires Statement(ts, st, fuel - 1) == Ok(s1) && Block(ts, s1, fuel - 1) == Ok(s2)
    ensures Block(ts, st, fuel) == Ok(s2)
  {
  }

  /** The block at `start` prints v's scalar, from any state and with any fuel, and ends at `start + 4`. */
  ghost predicate PrintsValue(ts: seq<Token>, start: nat, v: string) {
    forall s: State, f: nat :: s.pos == start && f > 0 ==>
      Block(ts, s, f) == Ok(s.(pos := start + 4, out := s.out + GetValue(s.env, v).GetOr("")))
  }

  /** `echo $v; }` is such a block. */
  lemma EchoPrintsValue(ts: seq<Token>, start: nat, v: string)
    requires start + 3 < |ts|
    requires ts[start] == Token(Echo, None) && ts[start + 1] == Token(Variable, Some(v))
    requires ts[start + 2] == Token(Semicolon, None) && ts[start + 3] == Token(CloseBrace, None)
    ensures PrintsValue(ts, start, v)
  {
    forall s: State, f: nat | s.pos == start && f > 0
      ensures Block(ts, s, f) == Ok(s.(pos := start + 4, out := s.out + GetValue(s.env, v).GetOr("")))
    {
      EchoBody(ts, s, v, f);
    }
  }

  /**
   * foreach over an array with a body that prints the value variable
   * prints the values in array order, one per iteration, when the value
   * variable is not the array's own variable.
   */
  lemma {:induction false} ForeachPrintsInOrder(ts: seq<Token>, st: State, items: ArrayValue, a: string, i: nat,
                                                v: string, start: nat, fuel: nat) returns (s: State)
    requires v != a && i <= |items| && fuel > |items| - i
    requires PrintsValue(ts, start, v)
    ensures ValueLoop(ts, st, items, a, i, v, start, fuel) == Ok(s)
    ensures s.out == st.out + Values(items[i..])
    decreases |items| - i
  {
    if i == |items| {
      s := st.(pos := start);
      ForeachDone(ts, st, items, a, keyVar := None, valueVar := Some(v), start := start, fuel := fuel);
    } else {
      s := ForeachPrintsInOrder(ts, Printed(st, items[i], v, start), items, a, i + 1, v, start, fuel - 1);
      PrintStep(ts, st, items, a, i, v, start, fuel, s);
    }
  }

  /** Past the last item the loop stops, with nothing left to print. */
  lemma ForeachDone(ts: seq<Token>, st: State, items: ArrayValue, a: string,
                    keyVar: Option<string>, valueVar: Option<string>, start: nat, fuel: nat)
    ensures ForeachLoop(ts, st, items, a, Generation(st.env, a), |items|, keyVar, valueVar, start, fuel) == Ok(st.(pos := start))
    ensures Values(items[|items|..]) == ""
  {
    assert items[|items|..] == [];
  }

  /** The foreach loop from item i with a value variable and no key, over the array as it is now. */
  function ValueLoop(ts: seq<Token>, st: State, items: ArrayValue, a: string, i: nat, v: string, start: nat, fuel: nat): Outcome<State> {
    ForeachLoop(ts, st, items, a, Generation(st.env, a), i, None, Some(v), start, fuel)
  }

  /** The state after one pass of a body that prints v, with v holding the item's value. */
  function Printed(st: State, it: Item, v: string, start: nat): State {
    st.(pos := start + 4, env := Set(st.env, v, Var(Some(it.value), None)), out := st.out + it.value)
  }

  /** One step of ForeachPrintsInOrder: the pass over item i, then the rest of the loop. */
  lemma PrintStep(ts: seq<Token>, st: State, items: ArrayValue, a: string, i: nat, v: string, start: nat, fuel: nat,
                  s: State)
    requires v != a && i < |items| && fuel > 1 && PrintsValue(ts, start, v)
    requires ValueLoop(ts, Printed(st, items[i], v, start), items, a, i + 1, v, start, fuel - 1) == Ok(s)
    requires s.out == Printed(st, items[i], v, start).out + Values(items[i + 1..])
    ensures ValueLoop(ts, st, items, a, i, v, start, fuel) == Ok(s)
    ensures s.out == st.out + Values(items[i..])
  {
    var s1 := PrintPass(ts, st, items[i], a, v, start, fuel - 1);
    ForeachUnroll(ts, st, items, a, i, None, Some(v), start, fuel, s1, s);
    ValuesFrom(items, i);
    Associative(st.out, items[i].value, Values(items[i + 1..]));
  }

  /** `foreach ( $a as $v ) { echo $v; }` prints the array's values in order. */
  lemma ForeachEchoesInOrder(ts: seq<Token>, st: State, items: ArrayValue, a: string, v: string, start: nat, fuel: nat)
    requires v != a && fuel > |items| && start + 3 < |ts|
    requires ts[start] == Token(Echo, None) && ts[start + 1] == Token(Variable, Some(v))
    requires ts[start + 2] == Token(Semicolon, None) && ts[start + 3] == Token(CloseBrace, None)
    ensures var r := ForeachLoop(ts, st, items, a, Generation(st.env, a), 0, None, Some(v), start, fuel);
      r.Ok? && r.value.out == st.out + Values(items)
  {
    EchoPrintsValue(ts, start, v);
    var s := ForeachPrintsInOrder(ts, st, items, a, 0, v, start, fuel);
    assert items[0..] == items;
  }

  /**
   * A pass that succeeds and keeps the array's generation, followed by the
   * rest of the loop, make up the loop from item i.
   */
  lemma ForeachUnroll(ts: seq<Token>, st: State, items: ArrayValue, a: string, i: nat,
                      keyVar: Option<string>, valueVar: Option<string>, start: nat, fuel: nat, s1: State, s: State)
    requires i < |items| && fuel > 0
    requires Generation(s1.env, a) == Generation(st.env, a)
    requires ForeachPass(ts, st, items[i], a, Generation(st.env, a), keyVar, valueVar, start, fuel - 1) == Ok(s1)
    requires ForeachLoop(ts, s1, items, a, Generation(s1.env, a), i + 1, keyVar, valueVar, start, fuel - 1) == Ok(s)
    ensures ForeachLoop(ts, st, items, a, Generation(st.env, a), i, keyVar, valueVar, start, fuel) == Ok(s)
  {
  }

  /** One pass with a body that prints v: v takes the item's value and the value is printed. */
  lemma PrintPass(ts: seq<Token>, st: State, it: Item, a: string, v: string, start: nat, fuel: nat) returns (s1: State)
    requires v != a && fuel > 0 && PrintsValue(ts, start, v)
    ensures ForeachPass(ts, st, it, a, Generation(st.env, a), None, Some(v), start, fuel) == Ok(s1)
    ensures s1 == Printed(st, it, v, start) && Generation(s1.env, a) == Generation(st.env, a)
  {
    var env2 := Set(st.env, v, Var(Some(it.value), None));
    SetLookup(st.env, v, Var(Some(it.value), None));
    SetOthers(st.env, v, Var(Some(it.value), None), a);
    var s0 := st.(pos := start, env := env2);
    assert Block(ts, s0, fuel) == Ok(s0.(pos := start + 4, out := st.out + it.value));
    s1 := s0.(pos := start + 4, out := st.out + it.value);
  }

  lemma ValuesFrom(items: ArrayValue, i: nat)
    requires i < |items|
    ensures Values(items[i..]) == items[i].value + Values(items[i + 1..])
  {
    assert items[i..][1..] == items[i + 1..];
  }

  lemma Associative<T>(a: seq<T>, b: seq<T>, c: seq<T>)
    ensures (a + b) + c == a + (b + c)
  {
  }

  /**
   * `foreach ( $a as $v ) {` is read as written: the array is whatever `$a`
   * holds at that moment, there is no key variable, and the body starts
   * after the `{`.
   */
  lemma ForeachHeadReads(ts: seq<Token>, st: State, a: string, v: string)
    requires st.pos + 6 < |ts|
    requires ts[st.pos + 1].kind == OpenParen && ts[st.pos + 2] == Token(Variable, Some(a)) && ts[st.pos + 3].kind == As
    requires ts[st.pos + 4] == Token(Variable, Some(v)) && ts[st.pos + 5].kind == CloseParen
    requires ts[st.pos + 6].kind == OpenBrace
    ensures ForeachHead(ts, st) == Ok(Iterate(GetArray(st.env, a), Some(a), None, Some(v), st.pos + 7))
  {
  }

  /**
   * `foreach ( $a as $v ) {` over a name with no array: the body runs zero
   * times and is skipped by brace depth; nothing but the cursor changes.
   */
  lemma ForeachSkipsAbsentArray(ts: seq<Token>, st: State, fuel: nat, a: string, v: string)
    requires Sentinel(ts) && st.pos + 6 < |ts|
    requires ts[st.pos + 1].kind == OpenParen && ts[st.pos + 2] == Token(Variable, Some(a)) && ts[st.pos + 3].kind == As
    requires ts[st.pos + 4] == Token(Variable, Some(v)) && ts[st.pos + 5].kind == CloseParen
    requires ts[st.pos + 6].kind == OpenBrace
    requires GetArray(st.env, a) == None
    ensures st.pos + 7 < |ts| && Skip(ts, st.pos + 7, 1).Ok?
    ensures ForeachStmt(ts, st, fuel) == Ok(st.(pos := Skip(ts, st.pos + 7, 1).value))
  {
    assert ts[st.pos + 6].kind != EOF;
    SkipFindsMatch(ts, st.pos + 7, 1);
    ForeachHeadReads(ts, st, a, v);
  }

  /**
   * With the key form `$k => $v`, each pass binds the key variable to the
   * item's key (absent for an indexed item) first and the value variable to
   * its value second, then runs the body from its start.
   */
  lemma KeyedPass(ts: seq<Token>, st: State, it: Item, a: string, k: string, v: string, start: nat, fuel: nat)
    requires k != a && v != a
    ensures ForeachPass(ts, st, it, a, Generation(st.env, a), Some(k), Some(v), start, fuel) ==
      Block(ts, st.(pos := start, env := Set(Set(st.env, k, Var(it.key, None)), v, Var(Some(it.value), None))), fuel)
  {
    SetOthers(st.env, k, Var(it.key, None), a);
  }

  /**
   * The whole statement `foreach ( $a as $v ) { echo $v; }` over an array:
   * it prints the values in array order and leaves the cursor just past
   * the body's `}`.
   */
  lemma ForeachStatementEchoes(ts: seq<Token>, st: State, fuel: nat, a: string, v: string, items: ArrayValue)
    requires st.pos + 11 <= |ts| && a != v && fuel > |items|
    requires ts[st.pos + 1].kind == OpenParen && ts[st.pos + 2] == Token(Variable, Some(a)) && ts[st.pos + 3].kind == As
    requires ts[st.pos + 4] == Token(Variable, Some(v)) && ts[st.pos + 5].kind == CloseParen
    requires ts[st.pos + 6].kind == OpenBrace
    requires ts[st.pos + 7] == Token(Echo, None) && ts[st.pos + 8] == Token(Variable, Some(v))
    requires ts[st.pos + 9] == Token(Semicolon, None) && ts[st.pos + 10] == Token(CloseBrace, None)
    requires GetArray(st.env, a) == Some(items)
    ensures var r := ForeachStmt(ts, st, fuel);
      r.Ok? && r.value.out == st.out + Values(items) && r.value.pos == st.pos + 11
  {
    var start := st.pos + 7;
    ForeachEchoesInOrder(ts, st.(pos := start), items, a, v, start, fuel);
    var s1 := ForeachLoop(ts, st.(pos := start), items, a, Generation(st.env, a), 0, None, Some(v), start, fuel).value;
    BodySkip(ts, start);
    ForeachHeadReads(ts, st, a, v);
    ForeachStmtOfLoop(ts, st, fuel, a, None, v, items, start, s1, start + 4);
  }

  /** A foreach over an array, with or without a key variable, is the loop over its items, then the skip. */
  lemma ForeachStmtOfLoop(ts: seq<Token>, st: State, fuel: nat, a: string, k: Option<string>, v: string, items: ArrayValue,
                          start: nat, s1: State, q: nat)
    requires ForeachHead(ts, st) == Ok(Iterate(Some(items), Some(a), k, Some(v), start))
    requires ForeachLoop(ts, st.(pos := start), items, a, Generation(st.env, a), 0, k, Some(v), start, fuel) == Ok(s1)
    requires Skip(ts, start, 1) == Ok(q)
    ensures ForeachStmt(ts, st, fuel) == Ok(s1.(pos := q))
  {
  }

  /** The skip over `echo $v; }` stops just past the `}`. */
  lemma BodySkip(ts: seq<Token>, start: nat)
    requires start + 4 <= |ts|
    requires ts[start].kind == Echo && ts[start + 1].kind == Variable
    requires ts[start + 2].kind == Semicolon && ts[start + 3].kind == CloseBrace
    ensures Skip(ts, start, 1) == Ok(start + 4)
  {
    assert Skip(ts, start + 3, 1) == Ok(start + 4);
    assert Skip(ts, start + 2, 1) == Skip(ts, start + 3, 1);
    assert Skip(ts, start + 1, 1) == Skip(ts, start + 2, 1);
    assert Skip(ts, start, 1) == Skip(ts, start + 1, 1);
  }
}
