/** What the operations of the expression engine answer (raw_data_handler.h: calcul_*_operation), when
    they have an answer, and what a whole tree comes to. */
module Operations {
  import KeyRange
  import opened Values
  import opened Postfix

  // ---------------------------------------------------------------- ranges

  /** An int field holds what four bytes do, and so does the upper half of a 64-bit field. */
  lemma Ranges(x: int)
    ensures FitsInt32(x) <==> KeyRange.Int32(x)
    ensures FitsInt64(x) <==> KeyRange.Int32(x / KeyRange.TWO32)
  {
    assert x == x / KeyRange.TWO32 * KeyRange.TWO32 + x % KeyRange.TWO32;
  }

  // ---------------------------------------------------------------- = and <>

  /** The two sides of a comparison as the engine reads them: by the tag on the left. */
  predicate Compared(l: Value, r: Value) {
    (l.Int32? && r.Int32?) || (Wide(l) && Wide(r)) || (l.Chars? && !r.Undefined?)
  }

  predicate Same(l: Value, r: Value)
    requires Compared(l, r)
  {
    if l.Int32? then l.i == r.i else if Wide(l) then Field(l) == Field(r) else l.s == if r.Chars? then r.s else ""
  }

  /** = says whether the two are the same, <> the opposite; other pairs have no answer. */
  lemma EqualAnswers(l: Value, r: Value)
    ensures Compared(l, r) ==> Apply(Equals, l, r) == Bool(Same(l, r)) && Apply(Differs, l, r) == Bool(!Same(l, r))
    ensures !Compared(l, r) ==> Apply(Equals, l, r) == Undefined && Apply(Differs, l, r) == Undefined
  {
  }

  /** As numbers, two 64-bit operands of scales s <= t are told apart or together rightly, although the
      scales are not looked at. */
  predicate ScalesHarmless(u: int, s: nat, v: int, t: nat)
    requires s <= t
  {
    s == t || (u == v == 0) || (u != v && v != u * Power100(t - s))
  }

  lemma CrossMultiply(x: real, y: real, u: int, v: int, p: int, d: int)
    requires p > 0 && d > 0 && u as real == x * p as real && v as real == y * (p * d) as real
    ensures x == y <==> v == u * d
  {
    var a, b := p as real, d as real;
    assert (p * d) as real == a * b && (u * d) as real == u as real * b;
    assert x == y ==> v as real == u as real * b;
    if v == u * d {
      assert y * (a * b) == x * (a * b);
      assert a * b > 0.0;
      assert (y - x) * (a * b) == 0.0;
    }
  }

  lemma EqualRationals(l: Value, r: Value)
    requires Wide(l) && Wide(r) && Scale(l) <= Scale(r)
    ensures Rational(l) == Rational(r) <==> Field(r) == Field(l) * Power100(Scale(r) - Scale(l))
  {
    WideRatio(l);
    WideRatio(r);
    var p, d, q := Powers(Scale(l), Scale(r));
    CrossMultiply(Rational(l), Rational(r), Field(l), Field(r), p, d);
  }

  lemma OneFactor(u: int, d: int)
    requires d > 1
    ensures u == u * d <==> u == 0
  {
  }

  lemma EqualExactOrdered(l: Value, r: Value)
    requires Wide(l) && Wide(r) && Scale(l) <= Scale(r)
    ensures (Field(l) == Field(r) <==> Rational(l) == Rational(r))
      <==> ScalesHarmless(Field(l), Scale(l), Field(r), Scale(r))
  {
    var d := Power100(Scale(r) - Scale(l));
    EqualRationals(l, r);
    if Scale(l) < Scale(r) {
      PowerAbove(Scale(r) - Scale(l));
      OneFactor(Field(l), d);
    }
  }

  /** = on two 64-bit operands is equality of the numbers if and only if the scales are harmless. */
  lemma EqualExact(l: Value, r: Value)
    requires Wide(l) && Wide(r)
    ensures Apply(Equals, l, r) == Bool(Rational(l) == Rational(r)) <==>
      if Scale(l) <= Scale(r) then ScalesHarmless(Field(l), Scale(l), Field(r), Scale(r))
      else ScalesHarmless(Field(r), Scale(r), Field(l), Scale(l))
  {
    EqualAnswers(l, r);
    if Scale(l) <= Scale(r) {
      EqualExactOrdered(l, r);
    } else {
      EqualExactOrdered(r, l);
    }
  }

  // ---------------------------------------------------------------- / truncates

  /** q is a / b rounded toward zero: what is left is smaller than b and has the sign of a. */
  predicate TowardZero(a: int, b: int, q: int)
    requires b != 0
  {
    var rest, size := a - q * b, if b < 0 then -b else b;
    -size < rest < size && (a >= 0 ==> rest >= 0) && (a <= 0 ==> rest <= 0)
  }

  lemma OnlyOne(a: int, b: int, p: int, q: int)
    requires b != 0 && TowardZero(a, b, p) && TowardZero(a, b, q)
    ensures p == q
  {
    var d := p - q;
    assert d * b == (a - q * b) - (a - p * b);
    LargeMultiple(d, b);
  }

  lemma LargeMultiple(d: int, b: int)
    ensures d != 0 && b > 0 ==> d * b >= b || d * b <= -b
    ensures d != 0 && b < 0 ==> d * b >= -b || d * b <= b
  {
  }

  lemma PositiveIs(m: nat, b: int)
    requires b != 0
    ensures TowardZero(m, b, m / b)
  {
    assert m == m / b * b + m % b;
  }

  lemma NegativeIs(m: int, b: int, q: int)
    requires m > 0 && b != 0 && TowardZero(m, b, q)
    ensures TowardZero(-m, b, -q)
  {
    assert -q * b == -(q * b);
  }

  lemma TruncatedIs(a: int, b: int)
    requires b != 0
    ensures TowardZero(a, b, Truncated(a, b))
  {
    if a >= 0 {
      PositiveIs(a, b);
    } else {
      PositiveIs(-a, b);
      NegativeIs(-a, b, -a / b);
    }
  }

  /** Division of ints, and of two 64-bit operands by their fields: the quotient rounded toward zero,
      under the tag on the left, where it fits. */
  lemma QuotientIs(l: Value, r: Value, q: int)
    requires (l.Int32? && r.Int32? && r.i != 0 && TowardZero(l.i, r.i, q))
          || (Wide(l) && Wide(r) && Field(r) != 0 && TowardZero(Field(l), Field(r), q))
    ensures l.Int32? ==> Apply(Divide, l, r) == if FitsInt32(q) then Int32(q) else Undefined
    ensures l.Int64? ==> Apply(Divide, l, r) == if FitsInt64(q) then Int64(q) else Undefined
    ensures l.Decimal? ==> Apply(Divide, l, r) == if FitsInt64(q) then Decimal(q, 0) else Undefined
  {
    var a, b := if l.Int32? then l.i else Field(l), if l.Int32? then r.i else Field(r);
    TruncatedIs(a, b);
    OnlyOne(a, b, q, Truncated(a, b));
  }

  /** Nothing is divided by zero. */
  lemma ZeroDivisor(l: Value, r: Value)
    requires (l.Int32? && r == Int32(0)) || (Wide(l) && Wide(r) && Field(r) == 0)
    ensures Apply(Divide, l, r) == Undefined
  {
  }

  // ---------------------------------------------------------------- +, - and *

  /** Two ints: the int result where it fits. */
  lemma IntAnswers(i: int, j: int)
    ensures Apply(Plus, Int32(i), Int32(j)) == if FitsInt32(i + j) then Int32(i + j) else Undefined
    ensures Apply(Minus, Int32(i), Int32(j)) == if FitsInt32(i - j) then Int32(i - j) else Undefined
    ensures Apply(Times, Int32(i), Int32(j)) == if FitsInt32(i * j) then Int32(i * j) else Undefined
  {
  }

  /** Two 64-bit operands: the result of the fields, under the tag on the left. Only a product of
      decimals has a scale. */
  lemma WideAnswers(l: Value, r: Value, op: Text)
    requires Wide(l) && Wide(r) && op in {Plus, Minus, Times}
    ensures var u, v := Field(l), Field(r);
      var w := if op == Plus then u + v else if op == Minus then u - v else u * v;
      && (!FitsInt64(w) ==> Apply(op, l, r) == Undefined)
      && (FitsInt64(w) ==> Wide(Apply(op, l, r)) && Field(Apply(op, l, r)) == w)
      && (FitsInt64(w) ==> (Apply(op, l, r).Int64? <==> l.Int64?))
      && (FitsInt64(w) && l.Decimal? ==> Scale(Apply(op, l, r)) == if op == Times then Scale(l) + Scale(r) else 0)
  {
  }

  // ---------------------------------------------------------------- whole trees

  /** The scale of a tree's value. */
  function Digits(env: Env, t: Tree): nat
    requires ScaleTracked(env, t)
  {
    match t
    case Leaf(tok) => Scale(env.leaf(tok))
    case Node(_, l, r) => Digits(env, l) + Digits(env, r)
  }

  /** What the tree comes to, times 100^Digits, in unbounded integers. */
  function Units(env: Env, t: Tree): int
    requires ScaleTracked(env, t)
  {
    match t
    case Leaf(tok) => if env.leaf(tok).Int32? then env.leaf(tok).i else env.leaf(tok).units
    case Node(op, l, r) =>
      if op == Times then Units(env, l) * Units(env, r)
      else Units(env, l) * Power100(Digits(env, r)) + Signed(op == Minus, Units(env, r))
  }

  /** Every result on the way fits its field: 32 bits for ints, 64 for decimals, and 32 for an int
      scaled up to the decimal it is added to. */
  predicate FitsAll(env: Env, t: Tree)
    requires ScaleTracked(env, t)
  {
    t.Leaf? ||
    (&& FitsAll(env, t.left) && FitsAll(env, t.right)
     && (TypeOf(env, t) == IntType ==> FitsInt32(Units(env, t)))
     && (TypeOf(env, t) == DecimalType ==> FitsInt64(Units(env, t)))
     && (TypeOf(env, t) == DecimalType && t.op != Times ==>
         var p := Power100(Digits(env, t.right)); FitsInt32(p) && FitsInt32(Units(env, t.left) * p)))
  }

  function Answer(env: Env, t: Tree): Value
    requires ScaleTracked(env, t)
  {
    if TypeOf(env, t) == IntType then Int32(Units(env, t)) else Decimal(Units(env, t), Digits(env, t))
  }

  lemma {:induction false} IntHasNoDigits(env: Env, t: Tree)
    requires ScaleTracked(env, t) && TypeOf(env, t) == IntType
    ensures Digits(env, t) == 0
    decreases t
  {
    if t.Node? {
      IntHasNoDigits(env, t.left);
      IntHasNoDigits(env, t.right);
    }
  }

  /** One operation on operands that have their answers. */
  lemma NodeAnswer(env: Env, t: Tree)
    requires t.Node? && ScaleTracked(env, t)
    requires Eval(env, t.left) == Answer(env, t.left) && Eval(env, t.right) == Answer(env, t.right)
    requires FitsAll(env, t.left) && FitsAll(env, t.right)
    ensures Eval(env, t) == if FitsAll(env, t) then Answer(env, t) else Undefined
  {
    if TypeOf(env, t.left) == IntType {
      IntHasNoDigits(env, t.left);
    }
    if TypeOf(env, t.right) == IntType {
      IntHasNoDigits(env, t.right);
      assert Power100(0) == 1;
    }
  }

  lemma NodeUndefined(env: Env, t: Tree)
    requires t.Node? && ScaleTracked(env, t)
    requires Eval(env, t.left) == Undefined
          || (Eval(env, t.left) == Answer(env, t.left) && Eval(env, t.right) == Undefined)
    ensures Eval(env, t) == Undefined
  {
    UndefinedOperand(t.op, Eval(env, t.left), Eval(env, t.right));
  }

  /** A scale-tracked tree has a value if and only if every result on the way fits its field, and
      then it is the exact one. */
  lemma {:induction false} DefinedExactly(env: Env, t: Tree)
    requires ScaleTracked(env, t)
    ensures Eval(env, t) == if FitsAll(env, t) then Answer(env, t) else Undefined
    decreases t
  {
    if t.Node? {
      DefinedExactly(env, t.left);
      DefinedExactly(env, t.right);
      if FitsAll(env, t.left) && FitsAll(env, t.right) {
        NodeAnswer(env, t);
      } else {
        NodeUndefined(env, t);
      }
    }
  }

  /** And it is the value of the tree over the rationals. */
  lemma AnswerIsTrue(env: Env, t: Tree)
    requires ScaleTracked(env, t) && FitsAll(env, t)
    ensures Rational(Answer(env, t)) == TrueValue(env, t)
  {
    DefinedExactly(env, t);
    ExactDecimals(env, t);
  }

  /** The order of the operands on the stack: what was pushed first stands on the left. */
  lemma FirstIsLeft(env: Env, st: Stack, a: Token, b: Token, op: Text)
    requires a.kind != Operator && b.kind != Operator
    ensures RunAll(env, Running(st), [a, b, Token(Operator, op)])
         == Running(Push(st, Apply(op, env.leaf(a), env.leaf(b))))
  {
    var toks := [a, b, Token(Operator, op)];
    assert Run(env, Running(st), toks, 1) == Running(Push(st, env.leaf(a)));
    assert Run(env, Running(st), toks, 2) == Running(Push(Push(st, env.leaf(a)), env.leaf(b)));
  }
}
