/** Which spellings the CASE interpreter gets wrong (raw_data_handler.h: calcul_case_operation): for
    one branch that compares two leaves, exactly those below. A literal reads the same on every row,
    a column as one of the values its type allows. */
module CaseSpelling {
  import opened CaseWhen
  import opened Postfix
  import opened Sequences
  import opened Values

  /** CASE WHEN a = b THEN r ELSE e END */
  function LeafCase(a: Token, b: Token, r: Token, e: Token): Case {
    Case([Branch(Last(Node(Equals, Leaf(a), Leaf(b))), Leaf(r))], Leaf(e))
  }

  function LeafTokens(a: Token, b: Token, r: Token, e: Token): seq<Token> {
    [Keyword(Plain("CASE")), Keyword(WHEN), a, b, Keyword(Equals), Keyword(THEN), r, Keyword(ELSE), e, Keyword(END)]
  }

  lemma LeafTokensAre(a: Token, b: Token, r: Token, e: Token)
    ensures CaseTokens(LeafCase(a, b, r, e)) == LeafTokens(a, b, r, e)
  {
    var c := LeafCase(a, b, r, e);
    var eq := Node(Equals, Leaf(a), Leaf(b));
    assert Tokens(eq) == [a, b, Keyword(Equals)];
    assert HeadTokens(c, 0) == [Keyword(Plain("CASE"))];
    assert BranchTokens(c.branches[0]) == [Keyword(WHEN), a, b, Keyword(Equals), Keyword(THEN), r];
    assert HeadTokens(c, 1) == HeadTokens(c, 0) + BranchTokens(c.branches[0]);
  }

  predicate Operands(a: Token, b: Token, r: Token, e: Token) {
    a.kind != Operator && b.kind != Operator && r.kind != Operator && e.kind != Operator
  }

  predicate ConditionWord(t: Text) {
    t in {WHEN, THEN, AND, OR}
  }

  // ---------------------------------------------------------------- rows

  /** What the leaves can read as: each literal as one value, each column as any it `takes`. */
  datatype Leaves = Leaves(literal: Token -> Value, takes: (Token, Value) -> bool)

  predicate Takes(s: Leaves, tok: Token, v: Value) {
    if tok.kind.Literal? then v == s.literal(tok) else s.takes(tok, v)
  }

  /** Literals and columns read as numbers or texts, and a column takes some value. */
  ghost predicate Readings(s: Leaves) {
    && (forall tok: Token, v: Value :: tok.kind != Operator && Takes(s, tok, v) ==> !v.Bool? && !v.Undefined?)
    && (forall tok: Token :: tok.kind != Operator ==> exists v: Value :: Takes(s, tok, v))
  }

  /** A row: every leaf reads as one of its values. */
  ghost predicate Row(s: Leaves, env: Env) {
    forall tok: Token :: tok.kind != Operator ==> Takes(s, tok, env.leaf(tok))
  }

  /** The values of the two operands can compare as equal (or not); an operand compared with itself
      has one value. */
  ghost predicate Compares(s: Leaves, a: Token, b: Token, equal: bool) {
    exists x: Value, y: Value ::
      Takes(s, a, x) && Takes(s, b, y) && (a == b ==> x == y) && Equal(x, y, true) == Bool(equal)
  }

  /** A result that is copied whole. */
  predicate ResultRead(r: Token) {
    r.text !in {WHEN, ELSE, END}
  }

  /** An ELSE value that is copied whole. One spelled THEN makes an extra pair, which only a result
      spelled AND cuts short. */
  predicate ElseRead(r: Token, e: Token) {
    e.text !in {ELSE, END} && (e.text == THEN ==> r.text == AND)
  }

  /** What is read right: no condition operand like WHEN, THEN, AND or OR, unless the operands never
      compare at all; a result and an ELSE value as above, where the condition can lead to them. */
  ghost predicate Spelled(s: Leaves, a: Token, b: Token, r: Token, e: Token) {
    if ConditionWord(a.text) || ConditionWord(b.text) then !Compares(s, a, b, true) && !Compares(s, a, b, false)
    else (Compares(s, a, b, true) ==> ResultRead(r)) && (Compares(s, a, b, false) ==> ElseRead(r, e))
  }

  lemma EquationValue(s: Leaves, env: Env, a: Token, b: Token)
    requires Row(s, env) && a.kind != Operator && b.kind != Operator
    ensures Eval(env, Equation(a, b)) == Equal(env.leaf(a), env.leaf(b), true)
    ensures TruthOf(Eval(env, Equation(a, b))) == Yes ==> Compares(s, a, b, true)
    ensures TruthOf(Eval(env, Equation(a, b))) == No ==> Compares(s, a, b, false)
  {
    assert Takes(s, a, env.leaf(a)) && Takes(s, b, env.leaf(b));
  }

  ghost function SomeValue(s: Leaves, tok: Token): (v: Value)
    requires Readings(s) && tok.kind != Operator
    ensures Takes(s, tok, v)
  {
    var v: Value :| Takes(s, tok, v);
    v
  }

  /** A row on which the operands compare as wanted. */
  lemma RowWhere(s: Leaves, a: Token, b: Token, equal: bool) returns (env: Env)
    requires Readings(s) && a.kind != Operator && b.kind != Operator && Compares(s, a, b, equal)
    ensures Row(s, env) && Eval(env, Equation(a, b)) == Bool(equal)
  {
    var x: Value, y: Value :|
      Takes(s, a, x) && Takes(s, b, y) && (a == b ==> x == y) && Equal(x, y, true) == Bool(equal);
    env := Env(tok => if tok == a then x else if tok == b then y
                      else if tok.kind == Operator then Undefined else SomeValue(s, tok),
               toks => Undefined);
    assert env.leaf(a) == x && env.leaf(b) == y;
  }

  // ---------------------------------------------------------------- short operands

  lemma ValueOfNone(env: Env)
    ensures ValueOf(env, []) == Undefined
  {
  }

  lemma ValueOfOne(env: Env, tok: Token)
    ensures ValueOf(env, [tok]) == if tok.kind == Operator then Undefined else env.leaf(tok)
  {
    RunOne(env, Running(Empty), tok);
  }

  lemma ValueOfTwo(env: Env, tok: Token, op: Token)
    requires tok.kind != Operator && op.kind == Operator
    ensures ValueOf(env, [tok, op]) == Undefined
  {
    assert [tok] + [op] == [tok, op];
    RunConcat(env, Running(Empty), [tok], [op]);
    RunOne(env, Running(Empty), tok);
    RunOne(env, Running(Push(Empty, env.leaf(tok))), op);
  }

  // ---------------------------------------------------------------- the first pass

  /** A pair, once found, stays the first one. */
  lemma {:induction false} FirstStays(toks: seq<Token>, k: nat, m: nat, pair: Pair)
    requires k <= m <= |toks| && Scan(toks, k).pairs != [] && Scan(toks, k).pairs[0] == pair
    ensures Scan(toks, m).pairs != [] && Scan(toks, m).pairs[0] == pair
    decreases m
  {
    if k < m {
      FirstStays(toks, k, m - 1, pair);
    }
  }

  /** What the scan has found when it comes to the operands. */
  lemma ScanStart(toks: seq<Token>)
    requires |toks| > 2 && toks[0].text.Plain? && toks[1].text == WHEN
    ensures Scan(toks, 2) == Offsets([], 1, -1)
  {
    assert Scan(toks, 0) == Offsets([], -1, -1);
    assert Scan(toks, 1) == Offsets([], -1, -1);
  }

  lemma PlainPair(toks: seq<Token>)
    requires |toks| > 5 && toks[0].text.Plain? && toks[1].text == WHEN && toks[5].text == THEN
    requires forall i :: 2 <= i < 5 ==> toks[i].text != WHEN && toks[i].text != THEN
    ensures Scan(toks, 6).pairs == [Pair(1, 5)] && Scan(toks, 6).when == 1
  {
    ScanStart(toks);
    KeepPairs(toks, 2, 5);
    KeepWhen(toks, 2, 5);
  }

  // ---------------------------------------------------------------- bad condition operands

  /** The condition of the first pair stops at something that is not a truth value. */
  predicate FirstUnclear(env: Env, toks: seq<Token>) {
    var o := Scan(toks, |toks|);
    && o.pairs != [] && o.pairs[0].when >= 0
    && Condition(env, toks, o.pairs[0].when + 1, o.pairs[0].then_, [], false) == Unclear
  }

  lemma FirstUnclearIs(env: Env, toks: seq<Token>)
    requires FirstUnclear(env, toks)
    ensures CaseValue(env, toks) == Undefined
  {
  }

  lemma FirstPairUnclear(env: Env, toks: seq<Token>, k: nat, pair: Pair)
    requires k <= |toks| && Scan(toks, k).pairs == [pair] && 0 <= pair.when && pair.then_ < |toks|
    requires Condition(env, toks, pair.when + 1, pair.then_, [], false) == Unclear
    ensures FirstUnclear(env, toks)
  {
    FirstStays(toks, k, |toks|, pair);
  }

  /** An operand spelled THEN ends the condition before it is complete. */
  lemma EarlyThen(env: Env, a: Token, b: Token, r: Token, e: Token)
    requires Operands(a, b, r, e) && !env.leaf(a).Bool? && (a.text == THEN || b.text == THEN)
    ensures FirstUnclear(env, LeafTokens(a, b, r, e))
  {
    var toks := LeafTokens(a, b, r, e);
    ScanStart(toks);
    ValueOfNone(env);
    ValueOfOne(env, a);
    if a.text == THEN {
      assert Scan(toks, 3).pairs == [Pair(1, 2)];
      FirstPairUnclear(env, toks, 3, Pair(1, 2));
    } else {
      var when := if a.text == WHEN then 2 else 1;
      assert Scan(toks, 3) == Offsets([], when, -1) || a.text == ELSE;
      assert Scan(toks, 4).pairs == [Pair(when, 3)];
      assert Condition(env, toks, 3, 3, [], false) == Unclear == Condition(env, toks, 3, 3, [a], false);
      FirstPairUnclear(env, toks, 4, Pair(when, 3));
    }
  }

  /** An operand spelled WHEN moves the start of the condition behind itself. */
  lemma LateWhen(env: Env, a: Token, b: Token, r: Token, e: Token)
    requires Operands(a, b, r, e) && a.text != THEN && b.text != THEN && (a.text == WHEN || b.text == WHEN)
    ensures FirstUnclear(env, LeafTokens(a, b, r, e))
  {
    var toks, eq := LeafTokens(a, b, r, e), Keyword(Equals);
    ScanStart(toks);
    ValueOfNone(env);
    ValueOfOne(env, eq);
    ValueOfTwo(env, b, eq);
    var when := if b.text == WHEN then 3 else 2;
    KeepPairs(toks, 2, 5);
    assert Scan(toks, 5).when == Scan(toks, 4).when == when;
    assert Scan(toks, 6).pairs == [Pair(when, 5)];
    assert Condition(env, toks, 5, 5, [eq], false) == Unclear;
    assert Condition(env, toks, 4, 5, [], false) == Unclear;
    assert [b] + [eq] == [b, eq];
    assert Condition(env, toks, 5, 5, [b, eq], false) == Unclear;
    assert Condition(env, toks, 4, 5, [b], false) == Unclear;
    FirstPairUnclear(env, toks, 6, Pair(when, 5));
  }

  /** An operand spelled AND or OR asks for the truth of what was read before it. */
  lemma EarlyLink(env: Env, a: Token, b: Token, r: Token, e: Token)
    requires Operands(a, b, r, e) && !env.leaf(a).Bool?
    requires a.text !in {WHEN, THEN} && b.text !in {WHEN, THEN} && (a.text in {AND, OR} || b.text in {AND, OR})
    ensures FirstUnclear(env, LeafTokens(a, b, r, e))
  {
    var toks := LeafTokens(a, b, r, e);
    PlainPair(toks);
    ValueOfNone(env);
    ValueOfOne(env, a);
    if a.text !in {AND, OR} {
      assert Condition(env, toks, 3, 5, [a], false) == Unclear;
    }
    FirstPairUnclear(env, toks, 6, Pair(1, 5));
  }

  lemma BadCondition(env: Env, a: Token, b: Token, r: Token, e: Token)
    requires Operands(a, b, r, e) && !env.leaf(a).Bool? && (ConditionWord(a.text) || ConditionWord(b.text))
    ensures CaseValue(env, LeafTokens(a, b, r, e)) == Undefined
  {
    if a.text == THEN || b.text == THEN {
      EarlyThen(env, a, b, r, e);
    } else if a.text == WHEN || b.text == WHEN {
      LateWhen(env, a, b, r, e);
    } else {
      EarlyLink(env, a, b, r, e);
    }
    FirstUnclearIs(env, LeafTokens(a, b, r, e));
  }

  // ---------------------------------------------------------------- good conditions

  predicate GoodCondition(a: Token, b: Token, r: Token, e: Token) {
    Operands(a, b, r, e) && !ConditionWord(a.text) && !ConditionWord(b.text)
  }

  function Equation(a: Token, b: Token): Tree {
    Node(Equals, Leaf(a), Leaf(b))
  }

  lemma EquationTokens(a: Token, b: Token)
    ensures Tokens(Equation(a, b)) == [a, b, Keyword(Equals)]
  {
  }

  lemma ConditionAt(a: Token, b: Token, r: Token, e: Token)
    requires GoodCondition(a, b, r, e)
    ensures At(LeafTokens(a, b, r, e), 2, Tokens(Equation(a, b))) && |Tokens(Equation(a, b))| == 3
    ensures Readable(Equation(a, b), {WHEN, THEN, AND, OR})
  {
    EquationTokens(a, b);
  }

  /** The condition is read whole and evaluated at its THEN. */
  lemma ReadEquation(env: Env, a: Token, b: Token, r: Token, e: Token, sliced: seq<Token>, then_: nat)
    requires GoodCondition(a, b, r, e) && Whole(env, sliced) && 5 <= then_ < 10
    ensures var toks, held := LeafTokens(a, b, r, e), sliced + Tokens(Equation(a, b));
      && ValueOf(env, held) == Eval(env, Equation(a, b)) && Whole(env, held)
      && Condition(env, toks, 2, then_, sliced, false) ==
         if Eval(env, Equation(a, b)).Bool? then Condition(env, toks, 6, then_, held, Eval(env, Equation(a, b)).b)
         else Unclear
  {
    ConditionAt(a, b, r, e);
    ReadCondition(env, LeafTokens(a, b, r, e), 2, then_, Equation(a, b), sliced);
    StaleIsHarmless(env, sliced, Equation(a, b));
  }

  lemma FirstPair(a: Token, b: Token, r: Token, e: Token)
    requires GoodCondition(a, b, r, e)
    ensures var o := Scan(LeafTokens(a, b, r, e), 10); o.pairs != [] && o.pairs[0] == Pair(1, 5)
  {
    PlainPair(LeafTokens(a, b, r, e));
    FirstStays(LeafTokens(a, b, r, e), 6, 10, Pair(1, 5));
  }

  /** The first branch when its condition is not false. */
  lemma FirstBranch(env: Env, a: Token, b: Token, r: Token, e: Token)
    requires GoodCondition(a, b, r, e) && TruthOf(Eval(env, Equation(a, b))) != No
    ensures CaseValue(env, LeafTokens(a, b, r, e)) ==
      if TruthOf(Eval(env, Equation(a, b))) == Yes then Part(env, LeafTokens(a, b, r, e), 6, EndsResult) else Undefined
  {
    assert Whole(env, []);
    ReadEquation(env, a, b, r, e, [], 5);
    FirstPair(a, b, r, e);
  }

  lemma ResultCopied(env: Env, a: Token, b: Token, r: Token, e: Token)
    requires Operands(a, b, r, e)
    ensures Part(env, LeafTokens(a, b, r, e), 6, EndsResult) ==
      if r.text in {WHEN, ELSE, END} then Undefined else env.leaf(r)
  {
    var toks := LeafTokens(a, b, r, e);
    ValueOfNone(env);
    ValueOfOne(env, r);
    if r.text in {WHEN, ELSE, END} {
      assert Upto(toks, 6, EndsResult) == 6 && toks[6..6] == [];
    } else {
      assert Upto(toks, 7, EndsResult) == 7;
      assert Upto(toks, 6, EndsResult) == 7 && toks[6..7] == [r];
    }
  }

  // ---------------------------------------------------------------- on to the ELSE

  /** All pairs. A result spelled WHEN moves the start of a pair behind itself. */
  function LeafPairs(r: Token, e: Token): seq<Pair> {
    if r.text == WHEN then if e.text == THEN then [Pair(1, 5), Pair(6, 8)] else [Pair(1, 5)]
    else if r.text == THEN then
      if e.text == THEN then [Pair(1, 5), Pair(1, 6), Pair(1, 8)] else [Pair(1, 5), Pair(1, 6)]
    else if e.text == THEN then [Pair(1, 5), Pair(1, 8)] else [Pair(1, 5)]
  }

  lemma ScanLeaf(a: Token, b: Token, r: Token, e: Token)
    requires GoodCondition(a, b, r, e)
    ensures var o := Scan(LeafTokens(a, b, r, e), 10);
      o.pairs == LeafPairs(r, e) && o.els == if e.text == ELSE then 8 else 7
  {
    var toks := LeafTokens(a, b, r, e);
    PlainPair(toks);
    assert Scan(toks, 7).pairs == if r.text == THEN then [Pair(1, 5), Pair(1, 6)] else [Pair(1, 5)];
    assert Scan(toks, 8).pairs == Scan(toks, 7).pairs && Scan(toks, 8).els == 7;
    assert Scan(toks, 8).when == Scan(toks, 7).when == if r.text == WHEN then 6 else 1;
    assert Scan(toks, 9).pairs == LeafPairs(r, e);
  }

  /** A false condition leaves its tokens behind. */
  lemma FalseAt5(env: Env, a: Token, b: Token, r: Token, e: Token, sliced: seq<Token>)
    requires GoodCondition(a, b, r, e) && Whole(env, sliced) && Eval(env, Equation(a, b)) == Bool(false)
    ensures TryBranch(env, LeafTokens(a, b, r, e), Pair(1, 5), sliced) == Next(sliced + Tokens(Equation(a, b)))
    ensures Whole(env, sliced + Tokens(Equation(a, b)))
  {
    ReadEquation(env, a, b, r, e, sliced, 5);
  }

  /** A result spelled THEN makes a second pair, which evaluates the same condition again. */
  lemma FalseAt6(env: Env, a: Token, b: Token, r: Token, e: Token, sliced: seq<Token>)
    requires GoodCondition(a, b, r, e) && Whole(env, sliced) && Eval(env, Equation(a, b)) == Bool(false)
    requires r.text == THEN
    ensures TryBranch(env, LeafTokens(a, b, r, e), Pair(1, 6), sliced) == Next(sliced + Tokens(Equation(a, b)))
  {
    ReadEquation(env, a, b, r, e, sliced, 6);
    var toks, held := LeafTokens(a, b, r, e), sliced + Tokens(Equation(a, b));
    assert Condition(env, toks, 7, 6, held, false) == Verdict(false, held);
  }

  lemma WholeOne(env: Env, sliced: seq<Token>, tok: Token)
    requires Whole(env, sliced)
    ensures RunAll(env, Running(Empty), sliced + [tok]) == Step(env, RunAll(env, Running(Empty), sliced), tok)
  {
    RunConcat(env, Running(Empty), sliced, [tok]);
    RunOne(env, RunAll(env, Running(Empty), sliced), tok);
  }

  /** The keyword ELSE, read as an operator, has no value. */
  lemma ElseHasNoValue(env: Env, sliced: seq<Token>)
    requires Whole(env, sliced)
    ensures !ValueOf(env, sliced + [Keyword(ELSE)]).Bool?
  {
    WholeOne(env, sliced, Keyword(ELSE));
  }

  lemma ElseOnStack(env: Env, toks: seq<Token>, sliced: seq<Token>)
    requires |toks| == 10 && toks[7] == Keyword(ELSE) && toks[8].text == THEN && Whole(env, sliced)
    ensures Condition(env, toks, 7, 8, sliced, false) == Unclear
  {
    CatIsConcat(sliced, [toks[7]]);
    ElseHasNoValue(env, sliced);
    assert Condition(env, toks, 8, 8, sliced + [toks[7]], false) == Unclear;
  }

  /** An ELSE value spelled THEN makes a last pair whose condition runs through the result. */
  lemma FalseAt8(env: Env, a: Token, b: Token, r: Token, e: Token, sliced: seq<Token>)
    requires GoodCondition(a, b, r, e) && Whole(env, sliced) && Eval(env, Equation(a, b)) == Bool(false)
    requires r.text != WHEN && e.text == THEN
    ensures TryBranch(env, LeafTokens(a, b, r, e), Pair(1, 8), sliced) ==
      if r.text == AND then Next(sliced + Tokens(Equation(a, b))) else Taken(Undefined)
    ensures Whole(env, sliced + Tokens(Equation(a, b)))
  {
    ReadEquation(env, a, b, r, e, sliced, 8);
    var toks, held := LeafTokens(a, b, r, e), sliced + Tokens(Equation(a, b));
    if r.text == OR {
      assert Whole(env, []);
      ElseOnStack(env, toks, []);
    } else if r.text == THEN {
      ElseOnStack(env, toks, held);
    } else if r.text != AND {
      WholeOne(env, held, r);
      CatIsConcat(held, [r]);
      ElseOnStack(env, toks, held + [r]);
    }
  }

  /** The same behind a result spelled WHEN: the condition is the keyword ELSE alone. */
  lemma FalseAtWhen(env: Env, a: Token, b: Token, r: Token, e: Token, sliced: seq<Token>)
    requires Operands(a, b, r, e) && Whole(env, sliced) && e.text == THEN
    ensures TryBranch(env, LeafTokens(a, b, r, e), Pair(6, 8), sliced) == Taken(Undefined)
  {
    ElseOnStack(env, LeafTokens(a, b, r, e), sliced);
  }

  lemma ElseValueRead(env: Env, a: Token, b: Token, r: Token, e: Token)
    requires Operands(a, b, r, e)
    ensures ElseValue(env, LeafTokens(a, b, r, e), if e.text == ELSE then 8 else 7) ==
      if e.text in {ELSE, END} then Undefined else env.leaf(e)
  {
    var toks := LeafTokens(a, b, r, e);
    ValueOfNone(env);
    ValueOfOne(env, e);
    if e.text == ELSE {
      assert Upto(toks, 9, EndsElse) == 9 && toks[9..9] == [];
    } else if e.text == END {
      assert Upto(toks, 8, EndsElse) == 8 && toks[8..8] == [];
    } else {
      assert Upto(toks, 9, EndsElse) == 9;
      assert Upto(toks, 8, EndsElse) == 9 && toks[8..9] == [e];
    }
  }

  /** What a false condition leads to. */
  function FalseValue(env: Env, r: Token, e: Token): Value {
    if ElseRead(r, e) then env.leaf(e) else Undefined
  }

  lemma FalseBranches(env: Env, a: Token, b: Token, r: Token, e: Token, o: Offsets)
    requires GoodCondition(a, b, r, e) && Eval(env, Equation(a, b)) == Bool(false)
    requires InRange(o, 10) && o.pairs == LeafPairs(r, e) && o.els == if e.text == ELSE then 8 else 7
    ensures Branches(env, LeafTokens(a, b, r, e), o, 0, []) == FalseValue(env, r, e)
  {
    var toks, eq := LeafTokens(a, b, r, e), Tokens(Equation(a, b));
    assert Whole(env, []);
    ElseValueRead(env, a, b, r, e);
    FalseAt5(env, a, b, r, e, []);
    var held := [] + eq;
    if r.text == THEN {
      FalseAt6(env, a, b, r, e, held);
      ReadEquation(env, a, b, r, e, held, 6);
      if e.text == THEN {
        FalseAt8(env, a, b, r, e, held + eq);
        assert Branches(env, toks, o, 2, held + eq) == Undefined;
      } else {
        assert Branches(env, toks, o, 2, held + eq) == FalseValue(env, r, e);
      }
      assert Branches(env, toks, o, 1, held) == FalseValue(env, r, e);
    } else if e.text == THEN && r.text == WHEN {
      FalseAtWhen(env, a, b, r, e, held);
    } else if e.text == THEN {
      FalseAt8(env, a, b, r, e, held);
      assert r.text == AND ==> Branches(env, toks, o, 2, held + eq) == env.leaf(e);
      assert Branches(env, toks, o, 1, held) == FalseValue(env, r, e);
    } else {
      assert Branches(env, toks, o, 1, held) == FalseValue(env, r, e);
    }
  }

  // ---------------------------------------------------------------- the exact condition

  lemma LeafMeaning(env: Env, a: Token, b: Token, r: Token, e: Token)
    ensures CaseMeaning(env, LeafCase(a, b, r, e), 0) ==
      match TruthOf(Eval(env, Equation(a, b)))
      case Yes => env.leaf(r)
      case No => env.leaf(e)
      case Unknown => Undefined
  {
    assert CaseMeaning(env, LeafCase(a, b, r, e), 1) == env.leaf(e);
  }

  /** The value the interpreter gives, on any row. */
  lemma LeafValue(env: Env, a: Token, b: Token, r: Token, e: Token)
    requires GoodCondition(a, b, r, e)
    ensures CaseValue(env, LeafTokens(a, b, r, e)) ==
      match TruthOf(Eval(env, Equation(a, b)))
      case Yes => if ResultRead(r) then env.leaf(r) else Undefined
      case No => if ElseRead(r, e) then env.leaf(e) else Undefined
      case Unknown => Undefined
  {
    if TruthOf(Eval(env, Equation(a, b))) == No {
      ScanLeaf(a, b, r, e);
      FalseBranches(env, a, b, r, e, Scan(LeafTokens(a, b, r, e), 10));
    } else {
      FirstBranch(env, a, b, r, e);
      ResultCopied(env, a, b, r, e);
    }
  }

  lemma SpelledRight(s: Leaves, env: Env, a: Token, b: Token, r: Token, e: Token)
    requires Readings(s) && Row(s, env) && Operands(a, b, r, e) && Spelled(s, a, b, r, e)
    ensures CaseValue(env, LeafTokens(a, b, r, e)) == CaseMeaning(env, LeafCase(a, b, r, e), 0)
  {
    EquationValue(s, env, a, b);
    LeafMeaning(env, a, b, r, e);
    if ConditionWord(a.text) || ConditionWord(b.text) {
      assert Takes(s, a, env.leaf(a));
      BadCondition(env, a, b, r, e);
    } else {
      LeafValue(env, a, b, r, e);
    }
  }

  /** For every other spelling there is a row on which the expression has a value and the
      interpreter none. */
  lemma SpelledWrong(s: Leaves, a: Token, b: Token, r: Token, e: Token) returns (env: Env)
    requires Readings(s) && Operands(a, b, r, e) && !Spelled(s, a, b, r, e)
    ensures Row(s, env)
    ensures CaseValue(env, LeafTokens(a, b, r, e)) == Undefined
    ensures CaseMeaning(env, LeafCase(a, b, r, e), 0) != Undefined
  {
    var bad := ConditionWord(a.text) || ConditionWord(b.text);
    var equal := Compares(s, a, b, true) && (bad || !ResultRead(r));
    env := RowWhere(s, a, b, equal);
    assert Takes(s, a, env.leaf(a)) && Takes(s, r, env.leaf(r)) && Takes(s, e, env.leaf(e));
    LeafMeaning(env, a, b, r, e);
    if bad {
      BadCondition(env, a, b, r, e);
    } else {
      LeafValue(env, a, b, r, e);
    }
  }

  /** The interpreter gives CASE WHEN a = b THEN r ELSE e END its meaning on every row if and only if
      the four leaves are spelled as above. */
  lemma SpellingExact(s: Leaves, a: Token, b: Token, r: Token, e: Token)
    requires Readings(s) && Operands(a, b, r, e)
    ensures var c := LeafCase(a, b, r, e);
      (forall env: Env | Row(s, env) :: CaseValue(env, CaseTokens(c)) == CaseMeaning(env, c, 0))
        <==> Spelled(s, a, b, r, e)
  {
    var c := LeafCase(a, b, r, e);
    LeafTokensAre(a, b, r, e);
    if Spelled(s, a, b, r, e) {
      forall env: Env | Row(s, env) ensures CaseValue(env, CaseTokens(c)) == CaseMeaning(env, c, 0) {
        SpelledRight(s, env, a, b, r, e);
      }
    } else {
      var env := SpelledWrong(s, a, b, r, e);
      assert CaseValue(env, CaseTokens(c)) != CaseMeaning(env, c, 0);
    }
  }

  // ---------------------------------------------------------------- what the operands tell

  /** Two literals: their values decide. */
  lemma LiteralsCompare(s: Leaves, a: Token, b: Token, equal: bool)
    requires a.kind.Literal? && b.kind.Literal?
    ensures Compares(s, a, b, equal) <==> Equal(s.literal(a), s.literal(b), true) == Bool(equal)
  {
    if Equal(s.literal(a), s.literal(b), true) == Bool(equal) {
      assert Takes(s, a, s.literal(a)) && Takes(s, b, s.literal(b));
    }
  }

  /** A column of texts and a text literal: both can happen, so a comparison with a text spelled like
      one of the four words goes wrong on the very row it asks for. */
  lemma TextColumn(s: Leaves, a: Token, b: Token)
    requires a.kind == Column && b.kind.Literal? && s.literal(b).Chars? && forall t :: s.takes(a, Chars(t))
    ensures Compares(s, a, b, true) && Compares(s, a, b, false)
  {
    var text := s.literal(b).s;
    assert Takes(s, b, s.literal(b)) && Takes(s, a, Chars(text));
    assert Equal(Chars(text), s.literal(b), true) == Bool(true);
    assert Takes(s, a, Chars(text + "x"));
    assert |text + "x"| != |text|;
    assert Equal(Chars(text + "x"), s.literal(b), true) == Bool(false);
  }

  /** WHEN column = 'AND': on the rows that hold AND the meaning is the result, and on all others the
      ELSE value; the interpreter has no value on any. */
  lemma ComparedWithKeyword(s: Leaves, env: Env, a: Token, b: Token, r: Token, e: Token)
    requires Readings(s) && Row(s, env) && Operands(a, b, r, e) && a.kind == Column && b.kind.Literal?
    requires s.literal(b) == Chars("AND") && b.text == AND && env.leaf(a).Chars?
    ensures CaseMeaning(env, LeafCase(a, b, r, e), 0) == env.leaf(if env.leaf(a).s == "AND" then r else e)
    ensures CaseMeaning(env, LeafCase(a, b, r, e), 0) != Undefined
    ensures CaseValue(env, CaseTokens(LeafCase(a, b, r, e))) == Undefined
  {
    assert Takes(s, a, env.leaf(a)) && Takes(s, b, env.leaf(b)) && Takes(s, r, env.leaf(r)) && Takes(s, e, env.leaf(e));
    LeafMeaning(env, a, b, r, e);
    LeafTokensAre(a, b, r, e);
    BadCondition(env, a, b, r, e);
  }
}
