/** The postfix stack evaluator (raw_data_handler.h: get_postfix_value, calcul_operand_value). */
module Postfix {
  import opened Values

  datatype Kind = Operator | Column | Literal(tag: int)

  datatype Token = Token(kind: Kind, text: Text)

  /** How one row is read: `leaf` gives columns and literals, `derived` the function calls other
      than CASE. */
  datatype Env = Env(leaf: Token -> Value, derived: seq<Token> -> Value)

  datatype Stack = Empty | Push(below: Stack, top: Value)

  /** Broken: top() or pop() of an empty stack. */
  datatype Machine = Running(stack: Stack) | Broken

  function Step(env: Env, m: Machine, tok: Token): Machine {
    match m
    case Broken => Broken
    case Running(st) =>
      if tok.kind != Operator then Running(Push(st, env.leaf(tok)))
      else if st.Push? && st.below.Push? then Running(Push(st.below.below, Apply(tok.text, st.below.top, st.top)))
      else Broken
  }

  /** The machine after the first k tokens. */
  function Run(env: Env, m: Machine, toks: seq<Token>, k: nat): Machine
    requires k <= |toks|
  {
    if k == 0 then m else Step(env, Run(env, m, toks, k - 1), toks[k - 1])
  }

  function RunAll(env: Env, m: Machine, toks: seq<Token>): Machine {
    Run(env, m, toks, |toks|)
  }

  function Top(m: Machine): Value {
    if m.Running? && m.stack.Push? then m.stack.top else Undefined
  }

  /** The loop. */
  method PostfixValue(env: Env, toks: seq<Token>) returns (result: Value)
    ensures result == Top(RunAll(env, Running(Empty), toks))
  {
    var stack, broken := Empty, false;
    for i := 0 to |toks|
      invariant Run(env, Running(Empty), toks, i) == if broken then Broken else Running(stack)
    {
      var median;
      if toks[i].kind != Operator {
        median := env.leaf(toks[i]);
      } else if !broken && stack.Push? && stack.below.Push? {
        var rv := stack.top;
        stack := stack.below;
        var lv := stack.top;
        stack := stack.below;
        median := Apply(toks[i].text, lv, rv);
      } else {
        broken, median := true, Undefined;
      }
      stack := Push(stack, median);
    }
    result := if broken || stack.Empty? then Undefined else stack.top;
  }

  // ---------------------------------------------------------------- expression trees

  datatype Tree = Leaf(tok: Token) | Node(op: Text, left: Tree, right: Tree)

  /** Leaves are columns and literals. */
  predicate Proper(t: Tree) {
    match t
    case Leaf(tok) => tok.kind != Operator
    case Node(_, l, r) => Proper(l) && Proper(r)
  }

  function Eval(env: Env, t: Tree): Value {
    match t
    case Leaf(tok) => env.leaf(tok)
    case Node(op, l, r) => Apply(op, Eval(env, l), Eval(env, r))
  }

  function Tokens(t: Tree): (s: seq<Token>)
    ensures |s| > 0
  {
    match t
    case Leaf(tok) => [tok]
    case Node(op, l, r) => Tokens(l) + Tokens(r) + [Token(Operator, op)]
  }

  lemma {:induction false} RunPrefix(env: Env, m: Machine, a: seq<Token>, b: seq<Token>, k: nat)
    requires k <= |a|
    ensures Run(env, m, a + b, k) == Run(env, m, a, k)
    decreases k
  {
    if k > 0 {
      RunPrefix(env, m, a, b, k - 1);
    }
  }

  lemma {:induction false} RunSuffix(env: Env, m: Machine, a: seq<Token>, b: seq<Token>, k: nat)
    requires k <= |b|
    ensures Run(env, m, a + b, |a| + k) == Run(env, RunAll(env, m, a), b, k)
    decreases k
  {
    if k == 0 {
      RunPrefix(env, m, a, b, |a|);
    } else {
      RunSuffix(env, m, a, b, k - 1);
      assert (a + b)[|a| + k - 1] == b[k - 1];
    }
  }

  lemma RunConcat(env: Env, m: Machine, a: seq<Token>, b: seq<Token>)
    ensures RunAll(env, m, a + b) == RunAll(env, RunAll(env, m, a), b)
  {
    RunSuffix(env, m, a, b, |b|);
  }

  lemma RunOne(env: Env, m: Machine, tok: Token)
    ensures RunAll(env, m, [tok]) == Step(env, m, tok)
  {
    assert Run(env, m, [tok], 0) == m;
    assert [tok][0] == tok;
  }

  /** From any stack, the tokens of a tree push the tree's value and touch nothing below. */
  lemma {:induction false} Framing(env: Env, t: Tree, st: Stack)
    requires Proper(t)
    ensures RunAll(env, Running(st), Tokens(t)) == Running(Push(st, Eval(env, t)))
    decreases t
  {
    match t {
      case Leaf(tok) =>
        RunOne(env, Running(st), tok);
      case Node(op, l, r) =>
        var x, y := Eval(env, l), Eval(env, r);
        RunConcat(env, Running(st), Tokens(l) + Tokens(r), [Token(Operator, op)]);
        RunConcat(env, Running(st), Tokens(l), Tokens(r));
        Framing(env, l, st);
        Framing(env, r, Push(st, x));
        RunOne(env, Running(Push(Push(st, x), y)), Token(Operator, op));
    }
  }

  lemma {:induction false} StartsWithLeaf(t: Tree)
    requires Proper(t)
    ensures Tokens(t)[0].kind != Operator
    ensures |Tokens(t)| == 1 ==> t.Leaf?
    decreases t
  {
    if t.Node? {
      StartsWithLeaf(t.left);
      assert Tokens(t)[0] == Tokens(t.left)[0];
    }
  }

  // ---------------------------------------------------------------- exact decimals

  /** Every operation in the tree is one that keeps track of the scale. */
  predicate ScaleTracked(env: Env, t: Tree) {
    match t
    case Leaf(tok) => env.leaf(tok).Int32? || env.leaf(tok).Decimal?
    case Node(op, l, r) => ScaleTracked(env, l) && ScaleTracked(env, r) && OpKept(op, TypeOf(env, l), TypeOf(env, r))
  }

  datatype NumberType = IntType | DecimalType

  predicate OpKept(op: Text, l: NumberType, r: NumberType) {
    if op == Plus || op == Minus then l.IntType? else op == Times && (l.DecimalType? || r.IntType?)
  }

  /** The type the tags alone give a tree. */
  function TypeOf(env: Env, t: Tree): NumberType {
    match t
    case Leaf(tok) => if env.leaf(tok).Decimal? then DecimalType else IntType
    case Node(op, l, r) => if TypeOf(env, l) == TypeOf(env, r) == IntType then IntType else DecimalType
  }

  /** Evaluation over the rationals. */
  function TrueValue(env: Env, t: Tree): real
    requires ScaleTracked(env, t)
  {
    match t
    case Leaf(tok) => Rational(env.leaf(tok))
    case Node(op, l, r) => Meaning(op, TrueValue(env, l), TrueValue(env, r))
  }

  predicate HasType(v: Value, nt: NumberType) {
    match nt
    case IntType => v.Int32?
    case DecimalType => v.Decimal?
  }

  lemma UndefinedOperand(op: Text, l: Value, r: Value)
    requires op in {Plus, Minus, Times} && (l.Undefined? || (r.Undefined? && (l.Int32? || l.Decimal?)))
    ensures Apply(op, l, r) == Undefined
  {
  }

  /** A scale-tracked tree that evaluates without overflow evaluates to its true value. */
  lemma {:induction false} ExactDecimals(env: Env, t: Tree)
    requires ScaleTracked(env, t) && Eval(env, t) != Undefined
    ensures HasType(Eval(env, t), TypeOf(env, t))
    ensures Rational(Eval(env, t)) == TrueValue(env, t)
    decreases t
  {
    if t.Node? {
      var l, r := Eval(env, t.left), Eval(env, t.right);
      if l.Undefined? {
        UndefinedOperand(t.op, l, r);
        assert false;
      }
      ExactDecimals(env, t.left);
      if r.Undefined? {
        UndefinedOperand(t.op, l, r);
        assert false;
      }
      ExactDecimals(env, t.right);
      assert ScaleKept(t.op, l, r);
      ResultType(t.op, l, r);
      OperationExact(t.op, l, r);
    }
  }

  lemma ResultType(op: Text, l: Value, r: Value)
    requires ScaleKept(op, l, r) && Apply(op, l, r) != Undefined
    ensures if l.Int32? && r.Int32? then Apply(op, l, r).Int32? else Apply(op, l, r).Decimal?
  {
  }

  /** x in the engine's own representation: a decimal holds x * 100^scale. */
  predicate Represents(v: Value, x: real) {
    match v
    case Int32(i) => i as real == x
    case Decimal(u, s) => u as real == x * Power100(s) as real
    case _ => false
  }

  lemma RationalRepresents(v: Value, x: real)
    requires (v.Int32? || v.Decimal?) && Rational(v) == x
    ensures Represents(v, x)
  {
    if v.Decimal? {
      WideRatio(v);
    }
  }

  /** The same in terms of int64_ and real_. */
  lemma ExactRepresentation(env: Env, t: Tree)
    requires ScaleTracked(env, t) && Eval(env, t) != Undefined
    ensures Represents(Eval(env, t), TrueValue(env, t))
  {
    ExactDecimals(env, t);
    RationalRepresents(Eval(env, t), TrueValue(env, t));
  }
}
