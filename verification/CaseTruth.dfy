/** What the AND / OR chains and the branches of a CASE come to (raw_data_handler.h:
    calcul_case_operation), in plain logic. */
module CaseTruth {
  import opened CaseWhen
  import opened Postfix
  import opened Values

  // ---------------------------------------------------------------- chains of boolean conditions

  predicate Boolean(env: Env, ch: Chain) {
    Eval(env, ch.cond).Bool? && (ch.Link? ==> Boolean(env, ch.rest))
  }

  /** c1 op1 (c2 op2 (c3 ...)). */
  predicate Nested(env: Env, ch: Chain)
    requires Boolean(env, ch)
  {
    match ch
    case Last(c) => Eval(env, c).b
    case Link(c, and, rest) =>
      if and then Eval(env, c).b && Nested(env, rest) else Eval(env, c).b || Nested(env, rest)
  }

  /** With boolean conditions a chain is the right-nested formula. */
  lemma {:induction false} HoldsIsNested(env: Env, ch: Chain)
    requires Boolean(env, ch)
    ensures Holds(env, ch) == if Nested(env, ch) then Yes else No
    decreases ch
  {
    if ch.Link? {
      HoldsIsNested(env, ch.rest);
    }
  }

  // ---------------------------------------------------------------- chains of one operator

  function Conditions(ch: Chain): (cs: seq<Tree>)
    ensures cs != []
  {
    if ch.Last? then [ch.cond] else [ch.cond] + Conditions(ch.rest)
  }

  /** All links are AND, or all are OR. */
  predicate Only(ch: Chain, and: bool) {
    ch.Link? ==> ch.and == and && Only(ch.rest, and)
  }

  /** Condition p is the first one whose truth is not `t`. */
  predicate FirstOther(env: Env, cs: seq<Tree>, t: Truth, p: nat) {
    p < |cs| && TruthOf(Eval(env, cs[p])) != t && forall q :: 0 <= q < p ==> TruthOf(Eval(env, cs[q])) == t
  }

  lemma NextOther(env: Env, head: Tree, rest: seq<Tree>, t: Truth, p: nat)
    requires TruthOf(Eval(env, head)) == t
    ensures FirstOther(env, [head] + rest, t, p + 1) <==> FirstOther(env, rest, t, p)
  {
    var cs := [head] + rest;
    assert forall q :: 0 <= q < |rest| ==> cs[q + 1] == rest[q];
    if FirstOther(env, cs, t, p + 1) {
      forall q | 0 <= q < p ensures TruthOf(Eval(env, rest[q])) == t {
        assert cs[q + 1] == rest[q];
      }
    }
  }

  /** An AND chain answers with its first condition that is not true, an OR chain with its first one
      that is not false, and only asks the conditions up to there. */
  lemma {:induction false} ChainAnswer(env: Env, ch: Chain, and: bool, p: nat)
    requires Only(ch, and) && FirstOther(env, Conditions(ch), if and then Yes else No, p)
    ensures Holds(env, ch) == TruthOf(Eval(env, Conditions(ch)[p]))
    decreases ch
  {
    var cs := Conditions(ch);
    assert cs[0] == ch.cond;
    if p > 0 {
      assert TruthOf(Eval(env, cs[0])) == if and then Yes else No;
      NextOther(env, ch.cond, Conditions(ch.rest), if and then Yes else No, p - 1);
      ChainAnswer(env, ch.rest, and, p - 1);
    }
  }

  /** All conditions are true, or all false. */
  predicate AllAre(env: Env, cs: seq<Tree>, t: Truth) {
    forall q :: 0 <= q < |cs| ==> TruthOf(Eval(env, cs[q])) == t
  }

  lemma AllAreNext(env: Env, head: Tree, rest: seq<Tree>, t: Truth)
    ensures AllAre(env, [head] + rest, t) <==> TruthOf(Eval(env, head)) == t && AllAre(env, rest, t)
  {
    var cs := [head] + rest;
    assert cs[0] == head && forall q :: 0 <= q < |rest| ==> cs[q + 1] == rest[q];
    if AllAre(env, cs, t) {
      forall q | 0 <= q < |rest| ensures TruthOf(Eval(env, rest[q])) == t {
        assert cs[q + 1] == rest[q];
      }
    }
  }

  /** An AND chain is true exactly when every condition is, an OR chain false exactly when every
      condition is. */
  lemma {:induction false} ChainOfOne(env: Env, ch: Chain, and: bool)
    requires Only(ch, and)
    ensures var t := if and then Yes else No;
      Holds(env, ch) == t <==> AllAre(env, Conditions(ch), t)
    decreases ch
  {
    var t := if and then Yes else No;
    if ch.Link? {
      ChainOfOne(env, ch.rest, and);
      AllAreNext(env, ch.cond, Conditions(ch.rest), t);
    } else {
      assert Conditions(ch) == [ch.cond] + [];
      AllAreNext(env, ch.cond, [], t);
    }
  }

  // ---------------------------------------------------------------- branches

  /** Branches from..p-1 do not hold. */
  predicate PassedOver(env: Env, c: Case, from: nat, p: nat)
    requires p <= |c.branches|
  {
    forall q :: from <= q < p ==> Holds(env, c.branches[q].chain) == No
  }

  lemma {:induction false} MeaningFrom(env: Env, c: Case, from: nat, p: nat)
    requires from <= p <= |c.branches| && PassedOver(env, c, from, p)
    ensures CaseMeaning(env, c, from) == CaseMeaning(env, c, p)
    decreases p - from
  {
    if from < p {
      MeaningFrom(env, c, from + 1, p);
    }
  }

  /** The result of branch p, if it holds and no branch before it does. */
  lemma FirstThatHolds(env: Env, c: Case, p: nat)
    requires p < |c.branches| && PassedOver(env, c, 0, p) && Holds(env, c.branches[p].chain) == Yes
    ensures CaseMeaning(env, c, 0) == Eval(env, c.branches[p].result)
  {
    MeaningFrom(env, c, 0, p);
  }

  /** The ELSE value, if none does. */
  lemma NoneHolds(env: Env, c: Case)
    requires PassedOver(env, c, 0, |c.branches|)
    ensures CaseMeaning(env, c, 0) == Eval(env, c.els)
  {
    MeaningFrom(env, c, 0, |c.branches|);
  }

  // ---------------------------------------------------------------- dispatch

  function LowerChar(c: char): char {
    if 'A' <= c <= 'Z' then (c as int + 32) as char else c
  }

  function Lower(s: string): (t: string)
    ensures |t| == |s| && forall i :: 0 <= i < |s| ==> t[i] == LowerChar(s[i])
  {
    seq(|s|, (i: nat) requires i < |s| => LowerChar(s[i]))
  }

  lemma LettersOf(c: char)
    ensures (LowerChar(c) == 'c' <==> c in "cC") && (LowerChar(c) == 'a' <==> c in "aA")
    ensures (LowerChar(c) == 's' <==> c in "sS") && (LowerChar(c) == 'e' <==> c in "eE")
  {
  }

  /** A list that begins with an operator is a CASE exactly when that operator is `case` in any mixture of
      cases; any other one is a function call. */
  lemma Dispatch(env: Env, toks: seq<Token>, s: string)
    requires |toks| > 1 && toks[0] == Token(Operator, Plain(s))
    ensures Lower(s) == "case" ==> OperandValue(env, toks) == CaseValue(env, toks)
    ensures Lower(s) != "case" ==> OperandValue(env, toks) == env.derived(toks)
  {
    if |s| == 4 {
      LettersOf(s[0]);
      LettersOf(s[1]);
      LettersOf(s[2]);
      LettersOf(s[3]);
    }
    var t, word := Lower(s), "case";
    assert t == word <==> |t| == 4 && t[0] == word[0] && t[1] == word[1] && t[2] == word[2] && t[3] == word[3];
  }

  /** End to end: on a readable CASE the interpreter yields the result of the first branch whose chain
      holds, whatever the later branches are. */
  lemma InterpreterTakesFirst(env: Env, c: Case, p: nat)
    requires ReadableCase(c) && p < |c.branches| && PassedOver(env, c, 0, p)
    requires Boolean(env, c.branches[p].chain) && Nested(env, c.branches[p].chain)
    ensures CaseValue(env, CaseTokens(c)) == Eval(env, c.branches[p].result)
  {
    HoldsIsNested(env, c.branches[p].chain);
    FirstThatHolds(env, c, p);
    CaseCorrect(env, c);
  }
}
