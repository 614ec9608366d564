/** CASE WHEN ... THEN ... ELSE ... END over a flat token list (raw_data_handler.h:
    calcul_case_operation), and the choice between literal, postfix and CASE evaluation. The
    interpreter looks for the keywords by text and never at a token's kind. */
module CaseWhen {
  import opened Postfix
  import opened Sequences
  import opened Values

  function ValueOf(env: Env, toks: seq<Token>): Value {
    Top(RunAll(env, Running(Empty), toks))
  }

  // ---------------------------------------------------------------- the interpreter

  datatype Pair = Pair(when: int, then_: nat)

  /** The first pass: -1 stands for an index never assigned. */
  datatype Offsets = Offsets(pairs: seq<Pair>, when: int, els: int)

  predicate InRange(o: Offsets, k: nat) {
    && -1 <= o.when < k && -1 <= o.els < k
    && forall p :: 0 <= p < |o.pairs| ==> -1 <= o.pairs[p].when < o.pairs[p].then_ < k
  }

  function Scan(toks: seq<Token>, k: nat): (o: Offsets)
    requires k <= |toks|
    ensures InRange(o, k)
  {
    if k == 0 then Offsets([], -1, -1) else
      var o := Scan(toks, k - 1);
      match toks[k - 1].text
      case WHEN => o.(when := k - 1)
      case THEN => o.(pairs := Cat(o.pairs, [Pair(o.when, k - 1)]))
      case ELSE => o.(els := k - 1)
      case _ => o
  }

  /** Unclear: the truth of a value that is not a boolean was asked for. */
  datatype Verdict = Verdict(passed: bool, sliced: seq<Token>) | Unclear

  /** The condition loop of one branch, from index i on, with the scratch operand `sliced`. */
  function Condition(env: Env, toks: seq<Token>, i: nat, then_: nat, sliced: seq<Token>, passed: bool): Verdict
    requires then_ < |toks|
    decreases then_ + 1 - i
  {
    if i > then_ then Verdict(passed, sliced) else
      var v := ValueOf(env, sliced);
      match toks[i].text
      case AND =>
        if !v.Bool? then Unclear
        else if v.b then Condition(env, toks, i + 1, then_, [], passed)
        else Verdict(false, sliced)
      case OR =>
        if !v.Bool? then Unclear
        else if v.b then Verdict(true, sliced)
        else Condition(env, toks, i + 1, then_, [], passed)
      case THEN =>
        if !v.Bool? then Unclear else Condition(env, toks, i + 1, then_, sliced, v.b)
      case _ => Condition(env, toks, i + 1, then_, Cat(sliced, [toks[i]]), passed)
  }

  predicate EndsResult(tok: Token) {
    tok.text in {WHEN, ELSE, END}
  }

  predicate EndsElse(tok: Token) {
    tok.text == END
  }

  /** The first index from i on that stops the copy; |toks| when nothing does. */
  function Upto(toks: seq<Token>, i: nat, stop: Token -> bool): (j: nat)
    requires i <= |toks|
    ensures i <= j <= |toks|
    decreases |toks| - i
  {
    if i == |toks| || stop(toks[i]) then i else Upto(toks, i + 1, stop)
  }

  /** The value of the tokens from i up to the stop; running off the list has no value. */
  function Part(env: Env, toks: seq<Token>, i: nat, stop: Token -> bool): Value
    requires i <= |toks|
  {
    var j := Upto(toks, i, stop);
    if j == |toks| then Undefined else ValueOf(env, toks[i..j])
  }

  /** One branch is taken, or leaves its tokens to the next one. */
  datatype Outcome = Taken(value: Value) | Next(sliced: seq<Token>)

  function TryBranch(env: Env, toks: seq<Token>, pair: Pair, sliced: seq<Token>): Outcome
    requires -1 <= pair.when < pair.then_ < |toks|
  {
    if pair.when < 0 then Taken(Undefined)
    else
      match Condition(env, toks, pair.when + 1, pair.then_, sliced, false)
      case Unclear => Taken(Undefined)
      case Verdict(passed, left) => if passed then Taken(Part(env, toks, pair.then_ + 1, EndsResult)) else Next(left)
  }

  function ElseValue(env: Env, toks: seq<Token>, els: int): Value
    requires els < |toks|
  {
    if els < 0 then Undefined else Part(env, toks, els + 1, EndsElse)
  }

  /** The branch loop from pair p on. */
  function Branches(env: Env, toks: seq<Token>, o: Offsets, p: nat, sliced: seq<Token>): Value
    requires InRange(o, |toks|) && p <= |o.pairs|
    decreases |o.pairs| - p
  {
    if p == |o.pairs| then ElseValue(env, toks, o.els)
    else
      match TryBranch(env, toks, o.pairs[p], sliced)
      case Taken(v) => v
      case Next(left) => Branches(env, toks, o, p + 1, left)
  }

  function CaseValue(env: Env, toks: seq<Token>): Value {
    Branches(env, toks, Scan(toks, |toks|), 0, [])
  }

  method FindOffsets(toks: seq<Token>) returns (o: Offsets)
    ensures o == Scan(toks, |toks|)
  {
    var pairs, when, els := [], -1, -1;
    for i := 0 to |toks|
      invariant Offsets(pairs, when, els) == Scan(toks, i)
    {
      match toks[i].text {
        case WHEN => when := i;
        case THEN => pairs := Cat(pairs, [Pair(when, i)]);
        case ELSE => els := i;
        case _ =>
      }
    }
    o := Offsets(pairs, when, els);
  }

  method EvalCondition(env: Env, toks: seq<Token>, when: nat, then_: nat, sliced: seq<Token>) returns (r: Verdict)
    requires then_ < |toks|
    ensures r == Condition(env, toks, when + 1, then_, sliced, false)
  {
    var operand, passed, index := sliced, false, when + 1;
    while index < then_ + 1
      invariant Condition(env, toks, when + 1, then_, sliced, false)
             == Condition(env, toks, index, then_, operand, passed)
    {
      var word := toks[index].text;
      if word == AND || word == OR || word == THEN {
        var v := PostfixValue(env, operand);
        if !v.Bool? {
          return Unclear;
        }
        if word == THEN {
          passed := v.b;
        } else if v.b == (word == AND) {
          operand := [];
        } else {
          return Verdict(word == OR, operand);
        }
      } else {
        operand := Cat(operand, [toks[index]]);
      }
      index := index + 1;
    }
    r := Verdict(passed, operand);
  }

  method EvalPart(env: Env, toks: seq<Token>, start: nat, stop: Token -> bool) returns (r: Value)
    requires start <= |toks|
    ensures r == Part(env, toks, start, stop)
  {
    var operand, index := [], start;
    while index < |toks| && !stop(toks[index])
      invariant start <= index <= |toks|
      invariant operand == toks[start..index]
      invariant Upto(toks, start, stop) == Upto(toks, index, stop)
    {
      operand := Cat(operand, [toks[index]]);
      CatIsConcat(toks[start..index], [toks[index]]);
      index := index + 1;
    }
    if index == |toks| {
      return Undefined;
    }
    r := PostfixValue(env, operand);
  }

  method EvalBranch(env: Env, toks: seq<Token>, pair: Pair, sliced: seq<Token>) returns (r: Outcome)
    requires -1 <= pair.when < pair.then_ < |toks|
    ensures r == TryBranch(env, toks, pair, sliced)
  {
    if pair.when < 0 {
      return Taken(Undefined);
    }
    var verdict := EvalCondition(env, toks, pair.when, pair.then_, sliced);
    if verdict.Unclear? {
      return Taken(Undefined);
    }
    if verdict.passed {
      var v := EvalPart(env, toks, pair.then_ + 1, EndsResult);
      return Taken(v);
    }
    r := Next(verdict.sliced);
  }

  method EvalBranches(env: Env, toks: seq<Token>, o: Offsets) returns (r: Value)
    requires InRange(o, |toks|)
    ensures r == Branches(env, toks, o, 0, [])
  {
    var operand, p := [], 0;
    while p < |o.pairs|
      invariant 0 <= p <= |o.pairs|
      invariant Branches(env, toks, o, 0, []) == Branches(env, toks, o, p, operand)
    {
      var outcome := EvalBranch(env, toks, o.pairs[p], operand);
      if outcome.Taken? {
        return outcome.value;
      }
      operand := outcome.sliced;
      p := p + 1;
    }
    if o.els < 0 {
      return Undefined;
    }
    r := EvalPart(env, toks, o.els + 1, EndsElse);
  }

  /** The whole interpreter. */
  method EvalCase(env: Env, toks: seq<Token>) returns (r: Value)
    ensures r == CaseValue(env, toks)
  {
    var o := FindOffsets(toks);
    r := EvalBranches(env, toks, o);
  }

  // ---------------------------------------------------------------- what a CASE means

  datatype Chain = Last(cond: Tree) | Link(cond: Tree, and: bool, rest: Chain)

  datatype Branch = Branch(chain: Chain, result: Tree)

  datatype Case = Case(branches: seq<Branch>, els: Tree)

  datatype Truth = Yes | No | Unknown

  function TruthOf(v: Value): Truth {
    if !v.Bool? then Unknown else if v.b then Yes else No
  }

  /** Right-nested, stopping as soon as the answer is known. */
  function Holds(env: Env, ch: Chain): Truth {
    match ch
    case Last(c) => TruthOf(Eval(env, c))
    case Link(c, and, rest) =>
      var t := TruthOf(Eval(env, c));
      if t == (if and then Yes else No) then Holds(env, rest) else t
  }

  /** The first branch from p on whose chain holds, else the ELSE. */
  function CaseMeaning(env: Env, c: Case, p: nat): Value
    requires p <= |c.branches|
    decreases |c.branches| - p
  {
    if p == |c.branches| then Eval(env, c.els) else
      match Holds(env, c.branches[p].chain)
      case Unknown => Undefined
      case Yes => Eval(env, c.branches[p].result)
      case No => CaseMeaning(env, c, p + 1)
  }

  // ---------------------------------------------------------------- and how it is written down

  function Keyword(text: Text): Token {
    Token(Operator, text)
  }

  function ChainTokens(ch: Chain): seq<Token> {
    match ch
    case Last(c) => Tokens(c)
    case Link(c, and, rest) => Tokens(c) + [Keyword(if and then AND else OR)] + ChainTokens(rest)
  }

  function BranchTokens(b: Branch): seq<Token> {
    [Keyword(WHEN)] + ChainTokens(b.chain) + [Keyword(THEN)] + Tokens(b.result)
  }

  /** CASE and the first m branches. */
  function HeadTokens(c: Case, m: nat): seq<Token>
    requires m <= |c.branches|
  {
    if m == 0 then [Keyword(Plain("CASE"))] else HeadTokens(c, m - 1) + BranchTokens(c.branches[m - 1])
  }

  function CaseTokens(c: Case): seq<Token> {
    HeadTokens(c, |c.branches|) + ([Keyword(ELSE)] + Tokens(c.els) + [Keyword(END)])
  }

  predicate Avoids(toks: seq<Token>, words: set<Text>) {
    forall i :: 0 <= i < |toks| ==> toks[i].text !in words
  }

  /** A subexpression that is not taken for a keyword where it stands. */
  predicate Readable(t: Tree, words: set<Text>) {
    Proper(t) && Avoids(Tokens(t), words)
  }

  predicate ReadableChain(ch: Chain) {
    Readable(ch.cond, {WHEN, THEN, AND, OR}) && (ch.Link? ==> ReadableChain(ch.rest))
  }

  predicate ReadableBranch(b: Branch) {
    ReadableChain(b.chain) && Readable(b.result, {WHEN, THEN, ELSE, END})
  }

  predicate ReadableCase(c: Case) {
    && (forall p :: 0 <= p < |c.branches| ==> ReadableBranch(c.branches[p]))
    && Readable(c.els, {THEN, ELSE, END})
  }

  // ---------------------------------------------------------------- where the parts are

  /** `part` stands at i. */
  predicate At(toks: seq<Token>, i: nat, part: seq<Token>) {
    i + |part| <= |toks| && forall k :: 0 <= k < |part| ==> toks[i + k] == part[k]
  }

  lemma AtSplit(toks: seq<Token>, i: nat, a: seq<Token>, b: seq<Token>)
    requires At(toks, i, a + b)
    ensures At(toks, i, a) && At(toks, i + |a|, b)
  {
    forall k | 0 <= k < |a| ensures toks[i + k] == a[k] {
      assert (a + b)[k] == a[k];
    }
    forall k | 0 <= k < |b| ensures toks[i + |a| + k] == b[k] {
      assert (a + b)[|a| + k] == b[k];
    }
  }

  lemma AtOne(toks: seq<Token>, i: nat, tok: Token)
    requires At(toks, i, [tok])
    ensures i < |toks| && toks[i] == tok
  {
    assert toks[i + 0] == [tok][0];
  }

  lemma AtSlice(toks: seq<Token>, i: nat, part: seq<Token>)
    requires At(toks, i, part)
    ensures toks[i..i + |part|] == part
  {
  }

  lemma AtAvoids(toks: seq<Token>, i: nat, part: seq<Token>, words: set<Text>)
    requires At(toks, i, part) && Avoids(part, words)
    ensures forall k :: i <= k < i + |part| ==> toks[k].text !in words
  {
    forall k | i <= k < i + |part| ensures toks[k].text !in words {
      assert toks[i + (k - i)] == part[k - i];
    }
  }

  // ---------------------------------------------------------------- one chain

  /** The scratch operand holds whole expressions only. */
  predicate Whole(env: Env, sliced: seq<Token>) {
    RunAll(env, Running(Empty), sliced).Running?
  }

  /** Whatever whole expressions are still there, the value on top is the new one. */
  lemma StaleIsHarmless(env: Env, sliced: seq<Token>, t: Tree)
    requires Whole(env, sliced) && Proper(t)
    ensures ValueOf(env, sliced + Tokens(t)) == Eval(env, t) && Whole(env, sliced + Tokens(t))
  {
    RunConcat(env, Running(Empty), sliced, Tokens(t));
    Framing(env, t, RunAll(env, Running(Empty), sliced).stack);
  }

  lemma {:induction false} CopyTokens(env: Env, toks: seq<Token>, i: nat, j: nat, then_: nat, sliced: seq<Token>,
                                      passed: bool)
    requires i <= j <= then_ < |toks| && forall k :: i <= k < j ==> toks[k].text !in {THEN, AND, OR}
    ensures Condition(env, toks, i, then_, sliced, passed)
         == Condition(env, toks, j, then_, sliced + toks[i..j], passed)
    decreases j - i
  {
    if i == j {
      assert sliced + toks[i..j] == sliced;
    } else {
      CopyOne(env, toks, i, then_, sliced, passed);
      CopyTokens(env, toks, i + 1, j, then_, sliced + [toks[i]], passed);
      assert sliced + [toks[i]] + toks[i + 1..j] == sliced + toks[i..j];
    }
  }

  lemma CopyOne(env: Env, toks: seq<Token>, i: nat, then_: nat, sliced: seq<Token>, passed: bool)
    requires i <= then_ < |toks| && toks[i].text !in {THEN, AND, OR}
    ensures Condition(env, toks, i, then_, sliced, passed)
         == Condition(env, toks, i + 1, then_, sliced + [toks[i]], passed)
  {
    CatIsConcat(sliced, [toks[i]]);
  }

  predicate Agrees(env: Env, v: Verdict, t: Truth) {
    match t
    case Unknown => v.Unclear?
    case Yes => v.Verdict? && v.passed
    case No => v.Verdict? && !v.passed && Whole(env, v.sliced)
  }

  /** One condition of a chain: copy its tokens. */
  lemma ReadCondition(env: Env, toks: seq<Token>, i: nat, then_: nat, t: Tree, sliced: seq<Token>)
    requires At(toks, i, Tokens(t)) && i + |Tokens(t)| <= then_ < |toks|
    requires Readable(t, {WHEN, THEN, AND, OR})
    ensures Condition(env, toks, i, then_, sliced, false)
         == Condition(env, toks, i + |Tokens(t)|, then_, sliced + Tokens(t), false)
  {
    AtAvoids(toks, i, Tokens(t), {WHEN, THEN, AND, OR});
    CopyTokens(env, toks, i, i + |Tokens(t)|, then_, sliced, false);
    AtSlice(toks, i, Tokens(t));
  }

  /** The chain stands at i and its THEN at `then_`. */
  predicate ChainAt(toks: seq<Token>, i: nat, ch: Chain, then_: nat)
    decreases ch
  {
    var j := i + |Tokens(ch.cond)|;
    && At(toks, i, Tokens(ch.cond)) && j <= then_ < |toks| && toks[then_].text == THEN
    && match ch
       case Last(_) => j == then_
       case Link(_, and, rest) => toks[j].text == (if and then AND else OR) && ChainAt(toks, j + 1, rest, then_)
  }

  lemma SplitLink(toks: seq<Token>, i: nat, a: seq<Token>, tok: Token, b: seq<Token>)
    requires At(toks, i, a + [tok] + b)
    ensures At(toks, i, a) && i + |a| < |toks| && toks[i + |a|] == tok && At(toks, i + |a| + 1, b)
  {
    AtSplit(toks, i, a + [tok], b);
    AtSplit(toks, i, a, [tok]);
    AtOne(toks, i + |a|, tok);
  }

  lemma {:induction false} ChainTokensAt(toks: seq<Token>, i: nat, ch: Chain, then_: nat)
    requires At(toks, i, ChainTokens(ch)) && i + |ChainTokens(ch)| == then_ < |toks| && toks[then_].text == THEN
    ensures ChainAt(toks, i, ch, then_)
    decreases ch
  {
    if ch.Link? {
      SplitLink(toks, i, Tokens(ch.cond), Keyword(if ch.and then AND else OR), ChainTokens(ch.rest));
      ChainTokensAt(toks, i + |Tokens(ch.cond)| + 1, ch.rest, then_);
    }
  }

  lemma {:induction false} ChainCorrect(env: Env, toks: seq<Token>, i: nat, then_: nat, ch: Chain, sliced: seq<Token>)
    requires ChainAt(toks, i, ch, then_) && ReadableChain(ch) && Whole(env, sliced)
    ensures Agrees(env, Condition(env, toks, i, then_, sliced, false), Holds(env, ch))
    decreases ch
  {
    if ch.Link? {
      NothingIsWhole(env);
      ChainCorrect(env, toks, i + |Tokens(ch.cond)| + 1, then_, ch.rest, []);
    }
    FirstOfChain(env, toks, i, then_, ch, sliced);
  }

  lemma NothingIsWhole(env: Env)
    ensures Whole(env, [])
  {
  }

  lemma FirstOfChain(env: Env, toks: seq<Token>, i: nat, then_: nat, ch: Chain, sliced: seq<Token>)
    requires ChainAt(toks, i, ch, then_) && ReadableChain(ch) && Whole(env, sliced)
    requires var j := i + |Tokens(ch.cond)|;
      ch.Link? ==> Agrees(env, Condition(env, toks, j + 1, then_, [], false), Holds(env, ch.rest))
    ensures Agrees(env, Condition(env, toks, i, then_, sliced, false), Holds(env, ch))
  {
    var read := ReadWhole(env, toks, i, then_, ch.cond, sliced);
    ConditionRead(env, toks, i + |Tokens(ch.cond)|, then_, ch, read);
  }

  lemma ReadWhole(env: Env, toks: seq<Token>, i: nat, then_: nat, t: Tree, sliced: seq<Token>)
    returns (read: seq<Token>)
    requires At(toks, i, Tokens(t)) && i + |Tokens(t)| <= then_ < |toks|
    requires Readable(t, {WHEN, THEN, AND, OR}) && Whole(env, sliced)
    ensures Condition(env, toks, i, then_, sliced, false)
         == Condition(env, toks, i + |Tokens(t)|, then_, read, false)
    ensures ValueOf(env, read) == Eval(env, t) && Whole(env, read)
  {
    read := sliced + Tokens(t);
    ReadCondition(env, toks, i, then_, t, sliced);
    StaleIsHarmless(env, sliced, t);
  }

  /** Behind a condition of the chain: its value is on top, and what follows is read for what it means. */
  lemma ConditionRead(env: Env, toks: seq<Token>, j: nat, then_: nat, ch: Chain, read: seq<Token>)
    requires j <= then_ < |toks| && Whole(env, read) && ValueOf(env, read) == Eval(env, ch.cond)
    requires ch.Last? ==> j == then_ && toks[j].text == THEN
    requires ch.Link? ==> toks[j].text == (if ch.and then AND else OR)
    requires ch.Link? ==> Agrees(env, Condition(env, toks, j + 1, then_, [], false), Holds(env, ch.rest))
    ensures Agrees(env, Condition(env, toks, j, then_, read, false), Holds(env, ch))
  {
  }

  // ---------------------------------------------------------------- the first pass

  predicate NoText(toks: seq<Token>, i: nat, j: nat, text: Text)
    requires j <= |toks|
  {
    forall k :: i <= k < j ==> toks[k].text != text
  }

  lemma {:induction false} KeepPairs(toks: seq<Token>, i: nat, j: nat)
    requires i <= j <= |toks| && NoText(toks, i, j, THEN)
    ensures Scan(toks, j).pairs == Scan(toks, i).pairs
    decreases j
  {
    if i < j {
      KeepPairs(toks, i, j - 1);
    }
  }

  lemma {:induction false} KeepWhen(toks: seq<Token>, i: nat, j: nat)
    requires i <= j <= |toks| && NoText(toks, i, j, WHEN)
    ensures Scan(toks, j).when == Scan(toks, i).when
    decreases j
  {
    if i < j {
      KeepWhen(toks, i, j - 1);
    }
  }

  lemma {:induction false} KeepEls(toks: seq<Token>, i: nat, j: nat)
    requires i <= j <= |toks| && NoText(toks, i, j, ELSE)
    ensures Scan(toks, j).els == Scan(toks, i).els
    decreases j
  {
    if i < j {
      KeepEls(toks, i, j - 1);
    }
  }

  lemma {:induction false} ChainAvoids(toks: seq<Token>, i: nat, ch: Chain, then_: nat)
    requires ChainAt(toks, i, ch, then_) && ReadableChain(ch)
    ensures forall k :: i <= k < then_ ==> toks[k].text !in {WHEN, THEN}
    decreases ch
  {
    AtAvoids(toks, i, Tokens(ch.cond), {WHEN, THEN, AND, OR});
    if ch.Link? {
      ChainAvoids(toks, i + |Tokens(ch.cond)| + 1, ch.rest, then_);
    }
  }

  /** Where the THEN of a branch at i stands, and where the branch ends. */
  function ThenOf(i: nat, b: Branch): nat {
    i + 1 + |ChainTokens(b.chain)|
  }

  function EndOf(i: nat, b: Branch): nat {
    ThenOf(i, b) + 1 + |Tokens(b.result)|
  }

  predicate BranchAt(toks: seq<Token>, i: nat, b: Branch) {
    && EndOf(i, b) < |toks| && toks[i].text == WHEN && ChainAt(toks, i + 1, b.chain, ThenOf(i, b))
    && At(toks, ThenOf(i, b) + 1, Tokens(b.result)) && EndsResult(toks[EndOf(i, b)])
  }

  /** From a WHEN to its THEN. */
  lemma ScanPair(toks: seq<Token>, i: nat, then_: nat)
    requires i < then_ < |toks| && toks[i].text == WHEN && toks[then_].text == THEN
    requires NoText(toks, i + 1, then_, WHEN) && NoText(toks, i + 1, then_, THEN)
    ensures Scan(toks, then_ + 1).pairs == Cat(Scan(toks, i).pairs, [Pair(i, then_)])
  {
    KeepPairs(toks, i + 1, then_);
    KeepWhen(toks, i + 1, then_);
  }

  /** A branch adds its own pair. */
  lemma ScanBranch(toks: seq<Token>, i: nat, b: Branch)
    requires BranchAt(toks, i, b) && ReadableBranch(b)
    ensures Scan(toks, EndOf(i, b)).pairs == Cat(Scan(toks, i).pairs, [Pair(i, ThenOf(i, b))])
  {
    var then_ := ThenOf(i, b);
    assert NoText(toks, i + 1, then_, WHEN) && NoText(toks, i + 1, then_, THEN) by {
      ChainAvoids(toks, i + 1, b.chain, then_);
    }
    assert NoText(toks, then_ + 1, EndOf(i, b), THEN) by {
      AtAvoids(toks, then_ + 1, Tokens(b.result), {WHEN, THEN, ELSE, END});
    }
    ScanPair(toks, i, then_);
    KeepPairs(toks, then_ + 1, EndOf(i, b));
  }

  predicate TailAt(toks: seq<Token>, i: nat, els: Tree) {
    && i + 1 + |Tokens(els)| + 1 == |toks| && toks[i].text == ELSE && toks[|toks| - 1].text == END
    && At(toks, i + 1, Tokens(els))
  }

  predicate BranchLaid(toks: seq<Token>, c: Case, start: nat -> nat, p: nat)
    requires p < |c.branches|
  {
    BranchAt(toks, start(p), c.branches[p]) && start(p + 1) == EndOf(start(p), c.branches[p])
  }

  /** c is laid out over toks, with branch p (or, at the end, the ELSE) at start(p). */
  predicate Laid(toks: seq<Token>, c: Case, start: nat -> nat) {
    && |toks| > 0 && toks[0].text.Plain? && start(0) == 1
    && (forall p :: 0 <= p < |c.branches| ==> BranchLaid(toks, c, start, p))
    && TailAt(toks, start(|c.branches|), c.els)
  }

  predicate PairsFound(pairs: seq<Pair>, c: Case, start: nat -> nat, m: nat) {
    && |pairs| == m <= |c.branches|
    && forall p :: 0 <= p < m ==> pairs[p] == Pair(start(p), ThenOf(start(p), c.branches[p]))
  }

  lemma {:induction false} ScanBranches(toks: seq<Token>, c: Case, start: nat -> nat, m: nat)
    requires Laid(toks, c, start) && ReadableCase(c) && m <= |c.branches|
    ensures start(m) <= |toks| && PairsFound(Scan(toks, start(m)).pairs, c, start, m)
    decreases m
  {
    if m == 0 {
      assert Scan(toks, 1).pairs == Scan(toks, 0).pairs;
    } else {
      ScanBranches(toks, c, start, m - 1);
      assert BranchLaid(toks, c, start, m - 1);
      ScanNext(toks, c, start, m);
    }
  }

  lemma ScanNext(toks: seq<Token>, c: Case, start: nat -> nat, m: nat)
    requires 0 < m <= |c.branches| && BranchLaid(toks, c, start, m - 1) && ReadableBranch(c.branches[m - 1])
    requires PairsFound(Scan(toks, start(m - 1)).pairs, c, start, m - 1)
    ensures start(m) <= |toks| && PairsFound(Scan(toks, start(m)).pairs, c, start, m)
  {
    ScanBranch(toks, start(m - 1), c.branches[m - 1]);
    PairsFoundNext(Scan(toks, start(m - 1)).pairs, c, start, m);
  }

  lemma PairsFoundNext(pairs: seq<Pair>, c: Case, start: nat -> nat, m: nat)
    requires 0 < m <= |c.branches| && PairsFound(pairs, c, start, m - 1)
    ensures PairsFound(Cat(pairs, [Pair(start(m - 1), ThenOf(start(m - 1), c.branches[m - 1]))]), c, start, m)
  {
    CatIsConcat(pairs, [Pair(start(m - 1), ThenOf(start(m - 1), c.branches[m - 1]))]);
  }

  lemma ScanTail(toks: seq<Token>, i: nat, els: Tree)
    requires TailAt(toks, i, els) && Readable(els, {THEN, ELSE, END})
    ensures Scan(toks, |toks|).pairs == Scan(toks, i).pairs && Scan(toks, |toks|).els == i
  {
    assert NoText(toks, i + 1, |toks|, THEN) && NoText(toks, i + 1, |toks|, ELSE) by {
      AtAvoids(toks, i + 1, Tokens(els), {THEN, ELSE, END});
    }
    KeepPairs(toks, i + 1, |toks|);
    KeepEls(toks, i + 1, |toks|);
  }

  lemma ScanCase(toks: seq<Token>, c: Case, start: nat -> nat)
    requires Laid(toks, c, start) && ReadableCase(c)
    ensures PairsFound(Scan(toks, |toks|).pairs, c, start, |c.branches|)
    ensures Scan(toks, |toks|).els == start(|c.branches|)
  {
    ScanBranches(toks, c, start, |c.branches|);
    ScanTail(toks, start(|c.branches|), c.els);
  }

  // ---------------------------------------------------------------- the whole CASE

  lemma {:induction false} UptoStops(toks: seq<Token>, i: nat, j: nat, stop: Token -> bool)
    requires i <= j < |toks| && stop(toks[j]) && forall k :: i <= k < j ==> !stop(toks[k])
    ensures Upto(toks, i, stop) == j
    decreases j - i
  {
    if i < j {
      UptoStops(toks, i + 1, j, stop);
    }
  }

  lemma PartIsTree(env: Env, toks: seq<Token>, i: nat, t: Tree, stop: Token -> bool)
    requires At(toks, i, Tokens(t)) && Proper(t) && i + |Tokens(t)| < |toks| && stop(toks[i + |Tokens(t)|])
    requires forall k :: i <= k < i + |Tokens(t)| ==> !stop(toks[k])
    ensures Part(env, toks, i, stop) == Eval(env, t)
  {
    UptoStops(toks, i, i + |Tokens(t)|, stop);
    AtSlice(toks, i, Tokens(t));
    Framing(env, t, Empty);
  }

  lemma ResultPart(env: Env, toks: seq<Token>, i: nat, b: Branch)
    requires BranchAt(toks, i, b) && Readable(b.result, {WHEN, ELSE, END})
    ensures Part(env, toks, ThenOf(i, b) + 1, EndsResult) == Eval(env, b.result)
  {
    AtAvoids(toks, ThenOf(i, b) + 1, Tokens(b.result), {WHEN, ELSE, END});
    PartIsTree(env, toks, ThenOf(i, b) + 1, b.result, EndsResult);
  }

  lemma ElsePart(env: Env, toks: seq<Token>, i: nat, els: Tree)
    requires TailAt(toks, i, els) && Readable(els, {THEN, ELSE, END})
    ensures Part(env, toks, i + 1, EndsElse) == Eval(env, els)
  {
    AtAvoids(toks, i + 1, Tokens(els), {THEN, ELSE, END});
    PartIsTree(env, toks, i + 1, els, EndsElse);
  }

  predicate Agreed(env: Env, r: Outcome, b: Branch) {
    match Holds(env, b.chain)
    case Unknown => r == Taken(Undefined)
    case Yes => r == Taken(Eval(env, b.result))
    case No => r.Next? && Whole(env, r.sliced)
  }

  /** A branch that is read for what it means, whatever whole expressions are left over. */
  ghost predicate Means(env: Env, toks: seq<Token>, pair: Pair, b: Branch)
    requires -1 <= pair.when < pair.then_ < |toks|
  {
    forall sliced {:trigger TryBranch(env, toks, pair, sliced)} | Whole(env, sliced) ::
      Agreed(env, TryBranch(env, toks, pair, sliced), b)
  }

  lemma BranchAgrees(env: Env, toks: seq<Token>, i: nat, b: Branch, sliced: seq<Token>)
    requires BranchAt(toks, i, b) && ReadableChain(b.chain) && Readable(b.result, {WHEN, ELSE, END})
    requires Whole(env, sliced)
    ensures Agreed(env, TryBranch(env, toks, Pair(i, ThenOf(i, b)), sliced), b)
  {
    ResultPart(env, toks, i, b);
    ChainCorrect(env, toks, i + 1, ThenOf(i, b), b.chain, sliced);
  }

  lemma BranchMeans(env: Env, toks: seq<Token>, i: nat, b: Branch)
    requires BranchAt(toks, i, b) && ReadableBranch(b)
    ensures Means(env, toks, Pair(i, ThenOf(i, b)), b)
  {
    forall sliced | Whole(env, sliced) ensures Agreed(env, TryBranch(env, toks, Pair(i, ThenOf(i, b)), sliced), b) {
      BranchAgrees(env, toks, i, b, sliced);
    }
  }

  /** The branches from p on are read for what they mean. */
  ghost predicate AllMean(env: Env, toks: seq<Token>, o: Offsets, c: Case, p: nat)
    requires InRange(o, |toks|) && |o.pairs| == |c.branches| && p <= |c.branches|
    decreases |c.branches| - p
  {
    p < |c.branches| ==> Means(env, toks, o.pairs[p], c.branches[p]) && AllMean(env, toks, o, c, p + 1)
  }

  lemma {:induction false} AllMeanFrom(env: Env, toks: seq<Token>, o: Offsets, c: Case, p: nat)
    requires InRange(o, |toks|) && |o.pairs| == |c.branches| && p <= |c.branches|
    requires forall q :: p <= q < |c.branches| ==> Means(env, toks, o.pairs[q], c.branches[q])
    ensures AllMean(env, toks, o, c, p)
    decreases |c.branches| - p
  {
    if p < |c.branches| {
      AllMeanFrom(env, toks, o, c, p + 1);
    }
  }

  lemma MeansHere(env: Env, toks: seq<Token>, pair: Pair, b: Branch, sliced: seq<Token>)
    requires -1 <= pair.when < pair.then_ < |toks| && Means(env, toks, pair, b) && Whole(env, sliced)
    ensures Agreed(env, TryBranch(env, toks, pair, sliced), b)
  {
  }

  lemma {:induction false} BranchesCorrect(env: Env, toks: seq<Token>, c: Case, o: Offsets, p: nat, sliced: seq<Token>)
    requires InRange(o, |toks|) && |o.pairs| == |c.branches| && p <= |c.branches| && Whole(env, sliced)
    requires AllMean(env, toks, o, c, p) && ElseValue(env, toks, o.els) == Eval(env, c.els)
    ensures Branches(env, toks, o, p, sliced) == CaseMeaning(env, c, p)
    decreases |c.branches| - p
  {
    if p < |c.branches| {
      MeansHere(env, toks, o.pairs[p], c.branches[p], sliced);
      if Holds(env, c.branches[p].chain) == No {
        BranchesCorrect(env, toks, c, o, p + 1, TryBranch(env, toks, o.pairs[p], sliced).sliced);
      }
    }
  }

  lemma LaidMeans(env: Env, toks: seq<Token>, c: Case, start: nat -> nat, o: Offsets, q: nat)
    requires Laid(toks, c, start) && ReadableCase(c) && InRange(o, |toks|) && q < |c.branches|
    requires PairsFound(o.pairs, c, start, |c.branches|)
    ensures Means(env, toks, o.pairs[q], c.branches[q])
  {
    assert BranchLaid(toks, c, start, q);
    BranchMeans(env, toks, start(q), c.branches[q]);
  }

  /** The interpreter on any list a CASE is laid out over. */
  lemma LaidCorrect(env: Env, toks: seq<Token>, c: Case, start: nat -> nat)
    requires Laid(toks, c, start) && ReadableCase(c)
    ensures CaseValue(env, toks) == CaseMeaning(env, c, 0)
  {
    var o := Scan(toks, |toks|);
    ScanCase(toks, c, start);
    assert AllMean(env, toks, o, c, 0) by {
      forall q | 0 <= q < |c.branches| ensures Means(env, toks, o.pairs[q], c.branches[q]) {
        LaidMeans(env, toks, c, start, o, q);
      }
      AllMeanFrom(env, toks, o, c, 0);
    }
    ElsePart(env, toks, start(|c.branches|), c.els);
    assert Whole(env, []);
    BranchesCorrect(env, toks, c, o, 0, []);
  }

  // ---------------------------------------------------------------- CaseTokens lays a CASE out

  function StartOf(c: Case, m: nat): nat {
    if m <= |c.branches| then |HeadTokens(c, m)| else 0
  }

  function Starts(c: Case): nat -> nat {
    (m: nat) => StartOf(c, m)
  }

  lemma SplitBranch(toks: seq<Token>, i: nat, b: Branch)
    requires At(toks, i, BranchTokens(b)) && EndOf(i, b) < |toks| && EndsResult(toks[EndOf(i, b)])
    ensures BranchAt(toks, i, b)
  {
    var w := [Keyword(WHEN)];
    SplitLink(toks, i, w + ChainTokens(b.chain), Keyword(THEN), Tokens(b.result));
    AtSplit(toks, i, w, ChainTokens(b.chain));
    AtOne(toks, i, w[0]);
    ChainTokensAt(toks, i + 1, b.chain, ThenOf(i, b));
  }

  lemma {:induction false} HeadAt(toks: seq<Token>, c: Case, m: nat, n: nat)
    requires m < n <= |c.branches| && At(toks, 0, HeadTokens(c, n))
    requires |HeadTokens(c, n)| < |toks| && EndsResult(toks[|HeadTokens(c, n)|])
    ensures BranchAt(toks, StartOf(c, m), c.branches[m])
    ensures StartOf(c, m + 1) == EndOf(StartOf(c, m), c.branches[m])
    decreases n
  {
    var b := c.branches[n - 1];
    AtSplit(toks, 0, HeadTokens(c, n - 1), BranchTokens(b));
    SplitBranch(toks, StartOf(c, n - 1), b);
    if m < n - 1 {
      HeadAt(toks, c, m, n - 1);
    }
  }

  lemma {:induction false} FirstToken(toks: seq<Token>, c: Case, m: nat)
    requires m <= |c.branches| && At(toks, 0, HeadTokens(c, m))
    ensures |toks| > 0 && toks[0] == Keyword(Plain("CASE"))
    decreases m
  {
    if m == 0 {
      AtOne(toks, 0, Keyword(Plain("CASE")));
    } else {
      AtSplit(toks, 0, HeadTokens(c, m - 1), BranchTokens(c.branches[m - 1]));
      FirstToken(toks, c, m - 1);
    }
  }

  lemma SplitTail(toks: seq<Token>, i: nat, els: Tree)
    requires At(toks, i, [Keyword(ELSE)] + Tokens(els) + [Keyword(END)]) && i + 1 + |Tokens(els)| + 1 == |toks|
    ensures TailAt(toks, i, els)
  {
    var e, d := [Keyword(ELSE)], [Keyword(END)];
    AtSplit(toks, i, e + Tokens(els), d);
    AtSplit(toks, i, e, Tokens(els));
    AtOne(toks, i, e[0]);
    AtOne(toks, i + 1 + |Tokens(els)|, d[0]);
  }

  lemma CaseEnds(c: Case)
    ensures At(CaseTokens(c), 0, HeadTokens(c, |c.branches|))
    ensures TailAt(CaseTokens(c), StartOf(c, |c.branches|), c.els)
  {
    AtSelf(CaseTokens(c));
    AtSplit(CaseTokens(c), 0, HeadTokens(c, |c.branches|), [Keyword(ELSE)] + Tokens(c.els) + [Keyword(END)]);
    SplitTail(CaseTokens(c), StartOf(c, |c.branches|), c.els);
  }

  lemma AtSelf(toks: seq<Token>)
    ensures At(toks, 0, toks)
  {
  }

  lemma HeadLaid(toks: seq<Token>, c: Case)
    requires At(toks, 0, HeadTokens(c, |c.branches|)) && TailAt(toks, StartOf(c, |c.branches|), c.els)
    ensures Laid(toks, c, Starts(c)) && toks[0] == Keyword(Plain("CASE"))
  {
    FirstToken(toks, c, |c.branches|);
    forall p | 0 <= p < |c.branches| ensures BranchLaid(toks, c, Starts(c), p) {
      HeadAt(toks, c, p, |c.branches|);
    }
    assert Starts(c)(0) == 1;
  }

  lemma CaseIsLaid(c: Case)
    ensures Laid(CaseTokens(c), c, Starts(c))
    ensures CaseTokens(c)[0] == Keyword(Plain("CASE"))
  {
    CaseEnds(c);
    HeadLaid(CaseTokens(c), c);
  }

  /** The interpreter computes the meaning, stale tokens or not. */
  lemma CaseCorrect(env: Env, c: Case)
    requires ReadableCase(c)
    ensures CaseValue(env, CaseTokens(c)) == CaseMeaning(env, c, 0)
  {
    CaseIsLaid(c);
    LaidCorrect(env, CaseTokens(c), c, Starts(c));
  }

  // ---------------------------------------------------------------- dispatch

  predicate CaseWord(text: Text) {
    text.Plain? && |text.s| == 4 && text.s[0] in "cC" && text.s[1] in "aA" && text.s[2] in "sS" && text.s[3] in "eE"
  }

  /** calcul_operand_value: one token is read directly, a leading operator calls a function,
      anything else is postfix. */
  function OperandValue(env: Env, toks: seq<Token>): Value {
    if |toks| == 0 then Undefined
    else if |toks| == 1 then if toks[0].kind == Operator then Undefined else env.leaf(toks[0])
    else if toks[0].kind != Operator then ValueOf(env, toks)
    else if CaseWord(toks[0].text) then CaseValue(env, toks)
    else env.derived(toks)
  }

  lemma OperandOfTree(env: Env, t: Tree)
    requires Proper(t)
    ensures OperandValue(env, Tokens(t)) == Eval(env, t) == ValueOf(env, Tokens(t))
  {
    StartsWithLeaf(t);
    Framing(env, t, Empty);
  }

  lemma OperandOfCase(env: Env, c: Case)
    requires ReadableCase(c)
    ensures OperandValue(env, CaseTokens(c)) == CaseMeaning(env, c, 0)
  {
    CaseIsLaid(c);
    CaseDispatch(env, CaseTokens(c));
    CaseCorrect(env, c);
  }

  lemma CaseDispatch(env: Env, toks: seq<Token>)
    requires |toks| > 1 && toks[0] == Keyword(Plain("CASE"))
    ensures OperandValue(env, toks) == CaseValue(env, toks)
  {
    var t := "CASE";
    assert |t| == 4 && t[0] == 'C' && t[1] == 'A' && t[2] == 'S' && t[3] == 'E';
  }

  // ---------------------------------------------------------------- keywords as data

  /** CASE ELSE 'END' END: the literal is taken for the keyword and cuts its own branch short. */
  lemma KeywordLiteral(env: Env, literal: Token)
    requires literal.kind != Operator && literal.text == END
    ensures CaseMeaning(env, Case([], Leaf(literal)), 0) == env.leaf(literal)
    ensures CaseValue(env, CaseTokens(Case([], Leaf(literal)))) == Undefined
  {
    var c := Case([], Leaf(literal));
    var toks := [Keyword(Plain("CASE")), Keyword(ELSE), literal, Keyword(END)];
    assert CaseTokens(c) == toks;
    assert Scan(toks, 1) == Offsets([], -1, -1);
    assert Scan(toks, 4) == Scan(toks, 3) == Scan(toks, 2) == Offsets([], -1, 1);
    assert Upto(toks, 2, EndsElse) == 2 && toks[2..2] == [];
  }
}
