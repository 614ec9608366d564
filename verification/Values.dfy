/** The typed values of the expression engine (kValue) and their arithmetic (raw_data_handler.h). */
module Values {
  /** What a kValue says once its type tag selects a field. A decimal stands for units / 100^scale.
      Undefined is a value whose tag or selected field was never written, or was written by an
      operation without a defined result (overflow, division by zero). */
  datatype Value = Int32(i: int) | Int64(n: int) | Decimal(units: int, scale: nat) | Chars(s: string) | Bool(b: bool)
                 | Undefined

  /** The text of a token: the ones the engine compares with, and all others. */
  datatype Text = Plus | Minus | Times | Divide | Equals | Differs
                | WHEN | THEN | ELSE | END | AND | OR | Plain(s: string)

  predicate FitsInt32(x: int) {
    -0x8000_0000 <= x < 0x8000_0000
  }

  predicate FitsInt64(x: int) {
    -0x8000_0000_0000_0000 <= x < 0x8000_0000_0000_0000
  }

  function Power100(n: nat): (p: int)
    ensures p > 0
  {
    if n == 0 then 1 else 100 * Power100(n - 1)
  }

  function AsInt32(x: int): Value {
    if FitsInt32(x) then Int32(x) else Undefined
  }

  function AsInt64(x: int): Value {
    if FitsInt64(x) then Int64(x) else Undefined
  }

  function AsDecimal(x: int, scale: nat): Value {
    if FitsInt64(x) then Decimal(x, scale) else Undefined
  }

  /** The int64_ field of a 64-bit value. */
  predicate Wide(v: Value) {
    v.Int64? || v.Decimal?
  }

  function Field(v: Value): int
    requires Wide(v)
  {
    if v.Int64? then v.n else v.units
  }

  /** The real_ field. */
  function Scale(v: Value): nat {
    if v.Decimal? then v.scale else 0
  }

  /** The right operand of + or -. */
  function Signed(minus: bool, x: int): int {
    if minus then -x else x
  }

  /** An int and a decimal: the int is scaled up in 32-bit arithmetic, then the decimal is added
      or subtracted in 64-bit arithmetic. */
  function ScaledSum(i: int, minus: bool, r: Value): Value
    requires r.Decimal?
  {
    var base := Power100(r.scale);
    if FitsInt32(base) && FitsInt32(i * base) then AsDecimal(i * base + Signed(minus, r.units), r.scale) else Undefined
  }

  /** plus and minus; two 64-bit values keep the left tag and lose the scale. */
  function Sum(l: Value, r: Value, minus: bool): Value {
    match l
    case Int32(i) =>
      if r.Decimal? then ScaledSum(i, minus, r) else if r.Int32? then AsInt32(i + Signed(minus, r.i)) else Undefined
    case Int64(n) => if Wide(r) then AsInt64(n + Signed(minus, Field(r))) else Undefined
    case Decimal(u, _) => if Wide(r) then AsDecimal(u + Signed(minus, Field(r)), 0) else Undefined
    case _ => Undefined
  }

  /** A product or quotient takes over the left tag even when nothing was computed: a string on the
      left gives an empty string. */
  function Product(l: Value, r: Value): Value {
    match l
    case Int32(i) => if r.Int32? then AsInt32(i * r.i) else Undefined
    case Int64(n) => if Wide(r) then AsInt64(n * Field(r)) else Undefined
    case Decimal(u, s) =>
      if r.Int32? then AsDecimal(u * r.i, s)
      else if Wide(r) then AsDecimal(u * Field(r), s + Scale(r))
      else Undefined
    case Chars(_) => Chars("")
    case _ => Undefined
  }

  /** Division that truncates toward zero. */
  function Truncated(a: int, b: int): int
    requires b != 0
  {
    if a >= 0 then a / b else -(-a / b)
  }

  function Quotient(l: Value, r: Value): Value {
    match l
    case Int32(i) => if r.Int32? && r.i != 0 then AsInt32(Truncated(i, r.i)) else Undefined
    case Int64(n) => if Wide(r) && Field(r) != 0 then AsInt64(Truncated(n, Field(r))) else Undefined
    case Decimal(u, _) => if Wide(r) && Field(r) != 0 then AsDecimal(Truncated(u, Field(r)), 0) else Undefined
    case Chars(_) => Chars("")
    case _ => Undefined
  }

  /** Equality under the left tag. A right operand that is not a string has an empty string field. */
  function Equal(l: Value, r: Value, wanted: bool): Value {
    match l
    case Int32(i) => if r.Int32? then Bool((i == r.i) == wanted) else Undefined
    case Chars(s) => if r.Undefined? then Undefined else Bool((s == if r.Chars? then r.s else "") == wanted)
    case Int64(_) => if Wide(r) then Bool((l.n == Field(r)) == wanted) else Undefined
    case Decimal(_, _) => if Wide(r) then Bool((l.units == Field(r)) == wanted) else Undefined
    case _ => Undefined
  }

  function Apply(op: Text, l: Value, r: Value): Value {
    if op == Plus then Sum(l, r, false)
    else if op == Minus then Sum(l, r, true)
    else if op == Times then Product(l, r)
    else if op == Divide then Quotient(l, r)
    else if op == Equals then Equal(l, r, true)
    else if op == Differs then Equal(l, r, false)
    else Undefined
  }

  // ---------------------------------------------------------------- what the numbers mean

  predicate Numeric(v: Value) {
    v.Int32? || Wide(v)
  }

  /** u / 100^s. */
  function Over(u: int, s: nat): real
    decreases s
  {
    if s == 0 then u as real else Over(u, s - 1) / 100.0
  }

  /** The rational number a value stands for. */
  function Rational(v: Value): real
    requires Numeric(v)
  {
    match v
    case Int32(i) => i as real
    case Int64(n) => n as real
    case Decimal(u, s) => Over(u, s)
  }

  function SignedSum(x: real, minus: bool, y: real): real {
    if minus then x - y else x + y
  }

  /** Over(u, s) is u / 100^s indeed. */
  lemma {:induction false} OverIs(u: int, s: nat)
    ensures u as real == Over(u, s) * Power100(s) as real
    decreases s
  {
    if s > 0 {
      OverIs(u, s - 1);
      Rescale(Over(u, s - 1), Power100(s - 1));
    }
  }

  lemma Rescale(x: real, p: int)
    ensures (x / 100.0) * (100 * p) as real == x * p as real
  {
    assert (100 * p) as real == 100.0 * p as real;
  }

  lemma {:induction false} OverSum(u: int, v: int, s: nat)
    ensures Over(u + v, s) == Over(u, s) + Over(v, s) && Over(-u, s) == -Over(u, s)
    decreases s
  {
    if s > 0 {
      OverSum(u, v, s - 1);
    }
  }

  lemma {:induction false} OverPower(i: int, s: nat)
    ensures Over(i * Power100(s), s) == i as real
    decreases s
  {
    if s > 0 {
      OverPower(i * 100, s - 1);
      Associate(i, 100, Power100(s - 1));
      OverHundred(i, s - 1);
    }
  }

  lemma Associate(a: int, b: int, c: int)
    ensures a * (b * c) == (a * b) * c
  {
  }

  lemma OverHundred(i: int, s: nat)
    requires Over(i * 100 * Power100(s), s) == (i * 100) as real
    ensures Over(i * 100 * Power100(s), s + 1) == i as real
  {
  }

  lemma {:induction false} OverProduct(u: int, v: int, s: nat, t: nat)
    ensures Over(u * v, s + t) == Over(u, s) * Over(v, t)
    decreases s, t
  {
    if s > 0 {
      OverProduct(u, v, s - 1, t);
      Hundredth(Over(u, s - 1), Over(v, t));
    } else if t > 0 {
      OverProduct(u, v, 0, t - 1);
      Hundredth(Over(v, t - 1), u as real);
    }
  }

  lemma Hundredth(x: real, y: real)
    ensures (x / 100.0) * y == (x * y) / 100.0
    ensures y * (x / 100.0) == (y * x) / 100.0
  {
  }

  lemma SignedRatio(y: real, v: int, q: int, minus: bool)
    requires v as real == y * q as real
    ensures (if minus then -y else y) * q as real == (Signed(minus, v)) as real
  {
  }

  // ---------------------------------------------------------------- exact operations

  /** int + decimal and int - decimal. */
  lemma ScaledSumExact(i: int, minus: bool, r: Value)
    requires r.Decimal? && ScaledSum(i, minus, r) != Undefined
    ensures Numeric(ScaledSum(i, minus, r))
    ensures Rational(ScaledSum(i, minus, r)) == SignedSum(i as real, minus, Rational(r))
  {
    OverSum(i * Power100(r.scale), Signed(minus, r.units), r.scale);
    OverSum(r.units, 0, r.scale);
    OverPower(i, r.scale);
  }

  /** The pairs of operands for which an operation keeps track of the scale. */
  predicate ScaleKept(op: Text, l: Value, r: Value) {
    if op == Plus || op == Minus then l.Int32? && (r.Int32? || r.Decimal?)
    else op == Times && ((l.Int32? && r.Int32?) || (l.Decimal? && (r.Int32? || r.Decimal?)))
  }

  function Meaning(op: Text, x: real, y: real): real
    requires op in {Plus, Minus, Times}
  {
    if op == Plus then x + y else if op == Minus then x - y else x * y
  }

  /** For those pairs a defined result is the true one. */
  lemma OperationExact(op: Text, l: Value, r: Value)
    requires ScaleKept(op, l, r) && Apply(op, l, r) != Undefined
    ensures Numeric(Apply(op, l, r))
    ensures Rational(Apply(op, l, r)) == Meaning(op, Rational(l), Rational(r))
  {
    if op == Times {
      ProductExact(l, r);
    } else if r.Decimal? {
      ScaledSumExact(l.i, op == Minus, r);
    }
  }

  lemma ProductExact(l: Value, r: Value)
    requires ScaleKept(Times, l, r) && Product(l, r) != Undefined
    ensures Numeric(Product(l, r)) && Rational(Product(l, r)) == Rational(l) * Rational(r)
  {
    if l.Int32? {
      IntTimes(l.i, r.i);
    } else if r.Int32? {
      DecimalTimesInt(l, r.i);
    } else {
      DecimalTimes(l.units, l.scale, r.units, r.scale);
    }
  }

  lemma DecimalTimesInt(l: Value, i: int)
    requires l.Decimal?
    ensures Over(l.units * i, l.scale) == Over(l.units, l.scale) * i as real
  {
    DecimalTimes(l.units, l.scale, i, 0);
  }

  lemma DecimalTimes(u: int, s: nat, v: int, t: nat)
    ensures Over(u * v, s + t) == Over(u, s) * Over(v, t) && Over(v, 0) == v as real
  {
    OverProduct(u, v, s, t);
  }

  lemma IntTimes(i: int, j: int)
    ensures (i * j) as real == i as real * j as real
  {
  }

  // ---------------------------------------------------------------- lost scales

  /** What a sum of u / p and v / q is off by when p and q are forgotten, times p * q. */
  function Lost(u: int, p: int, v: int, q: int): int {
    u * (p - 1) * q + v * (q - 1) * p
  }

  lemma LostIs(x: real, y: real, u: int, p: int, v: int, q: int)
    requires p > 0 && q > 0 && x * p as real == u as real && y * q as real == v as real
    ensures (u + v) as real == x + y <==> Lost(u, p, v, q) == 0
  {
    var a, b := p as real, q as real;
    var d := (u + v) as real - (x + y);
    calc {
      d * (a * b);
      (u as real + v as real) * (a * b) - (x * a) * b - (y * b) * a;
      (u as real + v as real) * (a * b) - u as real * b - v as real * a;
      u as real * (a - 1.0) * b + v as real * (b - 1.0) * a;
      (u * (p - 1) * q + v * (q - 1) * p) as real;
    }
    assert a * b > 0.0;
    if d * (a * b) == 0.0 {
      assert d == 0.0;
    }
  }

  lemma WideRatio(v: Value)
    requires Wide(v)
    ensures Field(v) as real == Rational(v) * Power100(Scale(v)) as real
  {
    OverIs(Field(v), Scale(v));
  }

  lemma WideSumIs(l: Value, r: Value, minus: bool)
    requires Wide(l) && Wide(r) && Sum(l, r, minus) != Undefined
    ensures Numeric(Sum(l, r, minus)) && Rational(Sum(l, r, minus)) == (Field(l) + Signed(minus, Field(r))) as real
  {
    assert Power100(0) == 1;
  }

  lemma LostOfSum(z: real, x: real, y: real, minus: bool, u: int, p: int, v: int, q: int)
    requires p > 0 && q > 0 && u as real == x * p as real && v as real == y * q as real
    requires z == (u + Signed(minus, v)) as real
    ensures z == SignedSum(x, minus, y) <==> Lost(u, p, Signed(minus, v), q) == 0
  {
    SignedRatio(y, v, q, minus);
    LostIs(x, if minus then -y else y, u, p, Signed(minus, v), q);
  }

  // ---------------------------------------------------------------- when nothing is lost

  /** For operands u / p and v / q with q = p d: the finer one has no digit beyond the scale of the
      other, and the two errors cancel. */
  predicate Cancels(u: int, p: int, v: int, d: int, q: int)
    requires d > 0
  {
    v % d == 0 && u * (p - 1) + v / d * (q - 1) == 0
  }

  /** Both scales 0; or an operand with a scale is 0 beside one without; or equal scales and a sum of
      0; or different scales and errors that cancel. */
  predicate NothingLost(u: int, s: nat, v: int, t: nat) {
    if s == 0 || t == 0 then (s > 0 ==> u == 0) && (t > 0 ==> v == 0)
    else if s == t then u + v == 0
    else if s < t then Cancels(u, Power100(s), v, Power100(t - s), Power100(t))
    else Cancels(v, Power100(t), u, Power100(s - t), Power100(s))
  }

  lemma {:induction false} PowerSum(s: nat, d: nat)
    ensures Power100(s + d) == Power100(s) * Power100(d)
    decreases d
  {
    if d > 0 {
      PowerSum(s, d - 1);
      assert Power100(s + d) == 100 * Power100(s + (d - 1));
    }
  }

  lemma PowerAbove(s: nat)
    requires s > 0
    ensures Power100(s) - 1 > 0
  {
  }

  /** v (p d - 1) is a multiple of d only if v is. */
  lemma MultipleOf(u: int, p: int, v: int, d: int)
    requires d > 0 && u * (p - 1) * d + v * (p * d - 1) == 0
    ensures v == d * (u * (p - 1) + v * p)
  {
  }

  lemma DivideOut(v: int, d: int, w: int)
    requires d > 0 && v == d * w
    ensures v % d == 0 && v / d == w
  {
    Exact(w, d);
  }

  lemma Exact(w: int, d: int)
    requires d > 0
    ensures (d * w) % d == 0 && (d * w) / d == w
  {
    Remainder(d * w, d, w);
  }

  lemma Remainder(x: int, d: int, w: int)
    requires d > 0 && x == d * w
    ensures x / d == w && x % d == 0
  {
    var k := x / d - w;
    assert d * k == -(x % d);
    assert -d < d * k <= 0;
  }

  lemma CommonFactor(u: int, p: int, w: int, d: int, q: int)
    ensures u * (p - 1) * d + (d * w) * (q - 1) == d * (u * (p - 1) + w * (q - 1))
  {
  }

  lemma CancelsIs(u: int, p: int, v: int, d: int, q: int)
    requires p > 0 && d > 0 && q == p * d
    ensures u * (p - 1) * d + v * (q - 1) == 0 <==> Cancels(u, p, v, d, q)
  {
    if u * (p - 1) * d + v * (q - 1) == 0 {
      MultipleOf(u, p, v, d);
      DivideOut(v, d, u * (p - 1) + v * p);
    }
    if v % d == 0 {
      CommonFactor(u, p, v / d, d, q);
      assert v == d * (v / d);
      ZeroProduct(u * (p - 1) + v / d * (q - 1), d);
    }
  }

  lemma LostFactor(u: int, p: int, v: int, d: int, q: int)
    requires q == p * d
    ensures Lost(u, p, v, q) == (u * (p - 1) * d + v * (q - 1)) * p
  {
    calc {
      Lost(u, p, v, q);
      u * (p - 1) * (p * d) + v * (q - 1) * p;
      (u * (p - 1) * d) * p + (v * (q - 1)) * p;
      (u * (p - 1) * d + v * (q - 1)) * p;
    }
  }

  lemma LostFinerIs(u: int, p: int, v: int, d: int, q: int)
    requires p > 0 && d > 0 && q == p * d
    ensures Lost(u, p, v, q) == 0 <==> Cancels(u, p, v, d, q)
  {
    LostFactor(u, p, v, d, q);
    FactorIsZero(Lost(u, p, v, q), u * (p - 1) * d + v * (q - 1), p);
    CancelsIs(u, p, v, d, q);
  }

  lemma FactorIsZero(x: int, a: int, k: int)
    requires k > 0 && x == a * k
    ensures x == 0 <==> a == 0
  {
  }

  lemma LostFiner(u: int, s: nat, v: int, t: nat)
    requires 0 < s < t
    ensures Lost(u, Power100(s), v, Power100(t)) == 0
      <==> Cancels(u, Power100(s), v, Power100(t - s), Power100(t))
  {
    var p, d, q := Powers(s, t);
    LostFinerIs(u, p, v, d, q);
  }

  lemma Powers(s: nat, t: nat) returns (p: int, d: int, q: int)
    requires s <= t
    ensures p == Power100(s) > 0 && d == Power100(t - s) > 0 && q == Power100(t) && q == p * d
  {
    p, d, q := Power100(s), Power100(t - s), Power100(t);
    PowerSum(s, t - s);
  }

  lemma LostSwapped(u: int, p: int, v: int, q: int)
    ensures Lost(u, p, v, q) == Lost(v, q, u, p)
  {
  }

  lemma LostPlain(u: int, v: int, t: nat)
    ensures Lost(u, 1, v, Power100(t)) == 0 <==> t == 0 || v == 0
  {
    assert Lost(u, 1, v, Power100(t)) == v * (Power100(t) - 1);
    if t > 0 {
      PowerAbove(t);
      ZeroProduct(v, Power100(t) - 1);
    }
  }

  lemma NothingLostIs(u: int, s: nat, v: int, t: nat)
    ensures Lost(u, Power100(s), v, Power100(t)) == 0 <==> NothingLost(u, s, v, t)
  {
    LostSwapped(u, Power100(s), v, Power100(t));
    if s == 0 {
      LostPlain(u, v, t);
    } else if t == 0 {
      LostPlain(v, u, s);
    } else if s == t {
      SameScaleSum(u, v, s);
    } else if s < t {
      LostFiner(u, s, v, t);
    } else {
      LostFiner(v, t, u, s);
    }
  }

  /** Two 64-bit operands: the sum forgets both scales, so it is the true one exactly when
      nothing is lost. */
  lemma WideSumExact(l: Value, r: Value, minus: bool)
    requires Wide(l) && Wide(r) && Sum(l, r, minus) != Undefined
    ensures Numeric(Sum(l, r, minus))
    ensures Rational(Sum(l, r, minus)) == SignedSum(Rational(l), minus, Rational(r))
      <==> NothingLost(Field(l), Scale(l), Signed(minus, Field(r)), Scale(r))
  {
    WideSumIs(l, r, minus);
    WideRatio(l);
    WideRatio(r);
    LostOfSum(Rational(Sum(l, r, minus)), Rational(l), Rational(r), minus, Field(l), Power100(Scale(l)), Field(r),
              Power100(Scale(r)));
    NothingLostIs(Field(l), Scale(l), Signed(minus, Field(r)), Scale(r));
  }

  lemma FactorLost(u: int, v: int, p: int)
    ensures Lost(u, p, v, p) == (u + v) * ((p - 1) * p)
  {
  }

  lemma ZeroProduct(a: int, k: int)
    requires k > 0
    ensures a * k == 0 <==> a == 0
  {
  }

  /** With one scale for both, as for two decimal(15,2) columns: only a scale of 0 or a sum of 0
      comes out right. */
  lemma SameScaleSum(u: int, v: int, s: nat)
    ensures Lost(u, Power100(s), v, Power100(s)) == 0 <==> s == 0 || u + v == 0
  {
    var p := Power100(s);
    FactorLost(u, v, p);
    if s > 0 {
      assert p == 100 * Power100(s - 1);
      ZeroProduct(u + v, (p - 1) * p);
    }
  }

  /** 1.50 + 2.25 comes out as 375. */
  lemma DecimalSumLosesScale()
    ensures Apply(Plus, Decimal(150, 1), Decimal(225, 1)) == Decimal(375, 0)
    ensures Rational(Decimal(375, 0)) != Rational(Decimal(150, 1)) + Rational(Decimal(225, 1))
  {
    assert Power100(1) == 100 && Power100(0) == 1;
  }
}
