/** The WHERE list of a snippet (filter.cc): conditions and lone AND / OR entries, evaluated by a
    loop that stops as soon as the result is known. */
module Where {
  datatype Clause<C> = Cond(c: C) | And | Or

  /** cond, op, cond, op, ..., cond; or nothing at all. */
  predicate Alternating<C(!new)>(ws: seq<Clause<C>>) {
    && (ws == [] || |ws| % 2 == 1)
    && forall i :: 0 <= i < |ws| ==> (ws[i].Cond? <==> i % 2 == 0)
  }

  /** Right-nested evaluation from the condition at i on. */
  predicate Chain<C(!new)>(ws: seq<Clause<C>>, holds: C -> bool, i: nat)
    requires Alternating(ws) && i < |ws| && i % 2 == 0
    decreases |ws| - i
  {
    if i + 1 == |ws| then holds(ws[i].c)
    else if ws[i + 1].And? then holds(ws[i].c) && Chain(ws, holds, i + 2)
    else holds(ws[i].c) || Chain(ws, holds, i + 2)
  }

  /** No list, no restriction. */
  predicate Passes<C(!new)>(ws: seq<Clause<C>>, holds: C -> bool)
    requires Alternating(ws)
  {
    ws == [] || Chain(ws, holds, 0)
  }

  /** The loop over the list. */
  method EvalWhere<C(!new)>(ws: seq<Clause<C>>, holds: C -> bool) returns (passed: bool)
    requires Alternating(ws)
    ensures passed == Passes(ws, holds)
  {
    passed := true;
    var running := true;
    var index := 0;
    while index < |ws| && running
      invariant 0 <= index <= |ws|
      invariant ws == [] ==> passed
      invariant running && index < |ws| && index % 2 == 0 ==> Passes(ws, holds) == Chain(ws, holds, index)
      invariant running && index % 2 == 1 ==>
        Passes(ws, holds) == Chain(ws, holds, index - 1) && passed == holds(ws[index - 1].c)
      invariant !running ==> passed == Passes(ws, holds)
      decreases |ws| - index
    {
      match ws[index] {
        case Cond(c) => passed := holds(c);
        case And => running := passed;
        case Or => running := !passed;
      }
      index := index + 1;
    }
  }

  // ---------------------------------------------------------------- unmixed lists

  lemma {:induction false} AllAnd<C(!new)>(ws: seq<Clause<C>>, holds: C -> bool, i: nat)
    requires Alternating(ws) && i < |ws| && i % 2 == 0 && Or !in ws
    ensures Chain(ws, holds, i) <==> forall j :: i <= j < |ws| && ws[j].Cond? ==> holds(ws[j].c)
    decreases |ws| - i
  {
    if i + 1 < |ws| {
      AllAnd(ws, holds, i + 2);
    }
  }

  lemma {:induction false} AllOr<C(!new)>(ws: seq<Clause<C>>, holds: C -> bool, i: nat)
    requires Alternating(ws) && i < |ws| && i % 2 == 0 && And !in ws
    ensures Chain(ws, holds, i) <==> exists j :: i <= j < |ws| && ws[j].Cond? && holds(ws[j].c)
    decreases |ws| - i
  {
    if i + 1 < |ws| {
      AllOr(ws, holds, i + 2);
    }
  }

  // ---------------------------------------------------------------- mixed lists

  /** AND and OR between n + 1 conditions; ops[i] stands between condition i and condition i+1. */
  datatype Op = AndOp | OrOp

  /** The truth values of the conditions, by position. */
  type Truth = nat -> bool

  predicate Nested(ops: seq<Op>, v: Truth, i: nat)
    requires i <= |ops|
    decreases |ops| - i
  {
    if i == |ops| then v(i)
    else if ops[i] == AndOp then v(i) && Nested(ops, v, i + 1)
    else v(i) || Nested(ops, v, i + 1)
  }

  /** AND binds tighter than OR: `acc` is the conjunction collected so far. */
  predicate Standard(ops: seq<Op>, v: Truth, i: nat, acc: bool)
    requires i <= |ops|
    decreases |ops| - i
  {
    if i == |ops| then acc && v(i)
    else if ops[i] == AndOp then Standard(ops, v, i + 1, acc && v(i))
    else (acc && v(i)) || Standard(ops, v, i + 1, true)
  }

  /** The list as Nested sees it. */
  function OpsOf<C(!new)>(ws: seq<Clause<C>>): seq<Op>
    requires Alternating(ws)
  {
    seq(|ws| / 2, i requires 0 <= i < |ws| / 2 => if ws[2 * i + 1].And? then AndOp else OrOp)
  }

  function TruthOf<C(!new)>(ws: seq<Clause<C>>, holds: C -> bool): Truth {
    (i: nat) => 2 * i < |ws| && ws[2 * i].Cond? && holds(ws[2 * i].c)
  }

  lemma {:induction false} ChainIsNested<C(!new)>(ws: seq<Clause<C>>, holds: C -> bool, i: nat)
    requires Alternating(ws) && ws != [] && i <= |ws| / 2
    ensures Chain(ws, holds, 2 * i) == Nested(OpsOf(ws), TruthOf(ws, holds), i)
    decreases |ws| / 2 - i
  {
    if i < |ws| / 2 {
      ChainIsNested(ws, holds, i + 1);
    }
  }

  predicate NoAndBeforeOr(ops: seq<Op>) {
    forall i, j :: 0 <= i < j < |ops| && ops[i] == AndOp ==> ops[j] == AndOp
  }

  lemma {:induction false} ConjunctionTail(ops: seq<Op>, v: Truth, i: nat, acc: bool)
    requires i <= |ops| && forall j :: i <= j < |ops| ==> ops[j] == AndOp
    ensures Standard(ops, v, i, acc) == (acc && Nested(ops, v, i))
    decreases |ops| - i
  {
    if i < |ops| {
      ConjunctionTail(ops, v, i + 1, acc && v(i));
    }
  }

  lemma {:induction false} AgreeWhenOrdered(ops: seq<Op>, v: Truth, i: nat)
    requires i <= |ops| && NoAndBeforeOr(ops)
    ensures Nested(ops, v, i) == Standard(ops, v, i, true)
    decreases |ops| - i
  {
    if i < |ops| {
      if ops[i] == AndOp {
        ConjunctionTail(ops, v, i, true);
      } else {
        AgreeWhenOrdered(ops, v, i + 1);
      }
    }
  }

  /** A truth assignment on which an AND at i directly before an OR makes the two differ. */
  function Witness(ops: seq<Op>, i: nat): Truth {
    (x: nat) => if x < i then x < |ops| && ops[x] == AndOp else x >= i + 2
  }

  lemma {:induction false} WitnessNested(ops: seq<Op>, i: nat, x: nat)
    requires x <= i < |ops| && ops[i] == AndOp
    ensures !Nested(ops, Witness(ops, i), x)
    decreases i - x
  {
    if x < i {
      WitnessNested(ops, i, x + 1);
    }
  }

  lemma {:induction false} WitnessTail(ops: seq<Op>, i: nat, x: nat)
    requires i + 2 <= x <= |ops|
    ensures Standard(ops, Witness(ops, i), x, true)
    decreases |ops| - x
  {
    if x < |ops| {
      WitnessTail(ops, i, x + 1);
    }
  }

  lemma {:induction false} WitnessStandard(ops: seq<Op>, i: nat, x: nat, acc: bool)
    requires x <= i + 1 < |ops| && ops[i + 1] == OrOp
    ensures Standard(ops, Witness(ops, i), x, acc)
    decreases i + 1 - x
  {
    if x == i + 1 {
      WitnessTail(ops, i, i + 2);
    } else {
      WitnessStandard(ops, i, x + 1, acc && Witness(ops, i)(x));
      WitnessStandard(ops, i, x + 1, true);
    }
  }

  lemma {:induction false} AdjacentPair(ops: seq<Op>, i: nat, j: nat) returns (x: nat)
    requires i < j < |ops| && ops[i] == AndOp && ops[j] == OrOp
    ensures x + 1 < |ops| && ops[x] == AndOp && ops[x + 1] == OrOp
    decreases j - i
  {
    if ops[i + 1] == OrOp {
      x := i;
    } else {
      x := AdjacentPair(ops, i + 1, j);
    }
  }

  /** The loop gives AND and OR their usual precedence for every truth assignment if and only if no
      AND stands before an OR in the list. */
  lemma PrecedenceExact(ops: seq<Op>)
    ensures (forall v: Truth :: Nested(ops, v, 0) == Standard(ops, v, 0, true)) <==> NoAndBeforeOr(ops)
  {
    if NoAndBeforeOr(ops) {
      forall v: Truth ensures Nested(ops, v, 0) == Standard(ops, v, 0, true) {
        AgreeWhenOrdered(ops, v, 0);
      }
    } else {
      var i, j :| 0 <= i < j < |ops| && ops[i] == AndOp && ops[j] == OrOp;
      var x := AdjacentPair(ops, i, j);
      WitnessNested(ops, x, 0);
      WitnessStandard(ops, x, 0, true);
      var v := Witness(ops, x);
      assert Nested(ops, v, 0) != Standard(ops, v, 0, true);
    }
  }
}
