/** What the conditions of a Tmax filter read (tmax-lib/ex.cc: exp_eval_and_check_true, build_data;
    ex.h: rpcol_get_*): constants in turn, columns by number, NULL as no bytes. */
module TmaxConditions {
  import opened CharCompare
  import opened RowData
  import opened TmaxFilter

  // ---------------------------------------------------------------- the column format

  /** A column as it is written: up to 250 bytes behind their number, more behind a mark above 250 and
      their number in two bytes. */
  function Written(x: seq<Byte>, mark: Byte): seq<Byte>
    requires |x| < 65536 && 250 < mark
  {
    if |x| <= 250 then [|x|] + x else [mark, |x| / 256, |x| % 256] + x
  }

  /** The whole column is walked over in every case. Its bytes are found if there are at most 250, or the
      mark is above 252; otherwise the two number bytes are taken for the first of them. */
  lemma WrittenReads(x: seq<Byte>, mark: Byte)
    requires |x| < 65536 && 250 < mark
    ensures Cell(Written(x, mark)) && CellSize(Written(x, mark)) == |x|
    ensures |x| <= 250 || mark > 252 ==> Content(Written(x, mark)) == x
    ensures |x| > 250 && mark <= 252 ==> Content(Written(x, mark)) == [|x| / 256, |x| % 256] + x[..|x| - 2]
  {
    var w := Written(x, mark);
    if |x| <= 250 {
      assert w[1..] == x;
    } else {
      assert w[3..3 + |x|] == x;
      assert w[1..1 + |x|] == [|x| / 256, |x| % 256] + x[..|x| - 2];
    }
  }

  // ---------------------------------------------------------------- constants in turn

  /** The operand numbers of the first n conditions: left, right, left, right, ... */
  function Numbers(info: FilterInfo, n: nat): (ns: seq<int>)
    requires n <= |info.exps|
    ensures |ns| == 2 * n
  {
    if n == 0 then [] else Numbers(info, n - 1) + [info.exps[n - 1].left, info.exps[n - 1].right]
  }

  /** Where an operand stands in that list. */
  function Position(i: nat, right: bool): nat {
    2 * i + if right then 1 else 0
  }

  lemma {:induction false} NumbersPrefix(info: FilterInfo, m: nat, n: nat, p: nat)
    requires m <= n <= |info.exps| && p < 2 * m
    ensures Numbers(info, n)[p] == Numbers(info, m)[p]
    decreases n
  {
    if m < n {
      NumbersPrefix(info, m, n - 1, p);
    }
  }

  lemma NumberAt(info: FilterInfo, i: nat, right: bool)
    requires i < |info.exps|
    ensures Numbers(info, |info.exps|)[Position(i, right)] == OperandNo(info, i, right)
  {
    NumbersPrefix(info, i + 1, |info.exps|, Position(i, right));
  }

  /** The positions before p that hold -1. */
  function Constants(ns: seq<int>, p: nat): set<nat>
    requires p <= |ns|
  {
    set q: nat | q < p && ns[q] == -1
  }

  /** The earlier positions that hold -1. */
  function Earlier(info: FilterInfo, p: nat): set<nat>
    requires p <= 2 * |info.exps|
  {
    Constants(Numbers(info, |info.exps|), p)
  }

  lemma EarlierNext(info: FilterInfo, i: nat, right: bool)
    requires i < |info.exps|
    ensures var p := Position(i, right);
      |Earlier(info, p + 1)| == |Earlier(info, p)| + if OperandNo(info, i, right) == -1 then 1 else 0
  {
    NumberAt(info, i, right);
    OneMoreIn(Numbers(info, |info.exps|), Position(i, right));
  }

  lemma OneMoreIn(ns: seq<int>, p: nat)
    requires p < |ns|
    ensures |Constants(ns, p + 1)| == |Constants(ns, p)| + if ns[p] == -1 then 1 else 0
  {
    if ns[p] == -1 {
      assert Constants(ns, p + 1) == Constants(ns, p) + {p};
    } else {
      assert Constants(ns, p + 1) == Constants(ns, p);
    }
  }

  lemma {:induction false} ConstsAreEarlier(info: FilterInfo, i: nat, right: bool)
    requires i <= |info.exps| && (right ==> i < |info.exps|)
    ensures ConstsBefore(info, i, right) == |Earlier(info, Position(i, right))|
    decreases i, right
  {
    if right {
      ConstsAreEarlier(info, i, false);
      EarlierNext(info, i, false);
    } else if i == 0 {
      assert Earlier(info, 0) == {};
    } else {
      ConstsAreEarlier(info, i - 1, true);
      EarlierNext(info, i - 1, true);
    }
  }

  /** A numbered operand reads its column; one numbered -1 reads the constant whose index is the number
      of operands numbered -1 before it. */
  lemma OperandIs(info: FilterInfo, cols: seq<seq<Byte>>, i: nat, right: bool)
    requires ValidOperands(info) && ColumnsReadable(info, cols) && i < |info.exps|
    ensures OperandNo(info, i, right) != -1 ==> Operand(info, cols, i, right) == cols[OperandNo(info, i, right)]
    ensures OperandNo(info, i, right) == -1 ==>
      && |Earlier(info, Position(i, right))| < |info.consts|
      && Operand(info, cols, i, right) == info.consts[|Earlier(info, Position(i, right))|]
  {
    ConstsAreEarlier(info, i, right);
    if OperandNo(info, i, right) == -1 {
      ConstThere(info, i, right);
    }
  }

  // ---------------------------------------------------------------- NULL

  lemma NullContent(p: seq<Byte>)
    requires Readable(p)
    ensures |Content(p)| == 0 <==> CellSize(p) == 0
  {
  }

  lemma NotSelected(info: FilterInfo, cells: seq<seq<Byte>>, i: nat)
    requires ValidOperands(info) && Cells(cells) && i < |info.exps|
    requires !ExpHolds(info, Columns(info, cells), i)
    ensures !Selected(info, Piece(cells))
  {
  }

  /** A row with NULL in a column that a condition reads is not selected, whatever the condition. */
  lemma NullIsNotSelected(info: FilterInfo, cells: seq<seq<Byte>>, i: nat, right: bool)
    requires ValidOperands(info) && Cells(cells) && i < |info.exps| && OperandNo(info, i, right) != -1
    requires CellSize(ColumnOf(cells, OperandNo(info, i, right))) == 0
    ensures !Selected(info, Piece(cells))
  {
    var cols := Columns(info, cells);
    OperandIs(info, cols, i, right);
    NullOperand(info, cols, i, right);
    NotSelected(info, cells, i);
  }

  lemma NullOperand(info: FilterInfo, cols: seq<seq<Byte>>, i: nat, right: bool)
    requires ValidOperands(info) && ColumnsReadable(info, cols) && i < |info.exps|
    requires CellSize(Operand(info, cols, i, right)) == 0
    ensures !ExpHolds(info, cols, i)
  {
    NullContent(Operand(info, cols, i, right));
    NeverTrue(Content(Operand(info, cols, i, false)), Content(Operand(info, cols, i, true)), info.exps[i].op,
              info.exps[i].isChar);
  }

  /** A column that is not used is written out as NULL. */
  lemma UnusedIsNull(info: FilterInfo, cells: seq<seq<Byte>>, i: nat)
    requires Cells(cells) && i < |info.useCols| && !info.useCols[i]
    ensures Cell(OutColumn(info, cells, i)) && CellSize(OutColumn(info, cells, i)) == 0
  {
  }

  /** A row piece with fewer columns than asked for: the missing ones read as its last one. */
  lemma ShortPiece(cells: seq<seq<Byte>>, i: nat)
    requires Cells(cells) && i >= |cells|
    ensures Content(Pointer(cells, i)) == Content(cells[|cells| - 1])
  {
    PointerIs(cells, i);
  }

  // ---------------------------------------------------------------- how far build_data gets

  /** The used columns among the first n that are set. */
  function ReachedSet(use: seq<bool>, count: int, n: nat): set<nat>
    requires n <= |use|
  {
    set i: nat | i < n && Reached(use, count, i)
  }

  /** As many used columns are set as the count says, or all there are. A used first column is set
      even if the count is 0 or less. */
  lemma {:induction false} ReachedCount(use: seq<bool>, count: int, n: nat)
    requires n <= |use|
    ensures var all := UsedBefore(use, n);
      |ReachedSet(use, count, n)| ==
        if count >= 1 then (if all <= count then all else count) else if n > 0 && use[0] then 1 else 0
    decreases n
  {
    if n == 0 {
      assert ReachedSet(use, count, 0) == {};
    } else {
      ReachedCount(use, count, n - 1);
      if Reached(use, count, n - 1) {
        assert ReachedSet(use, count, n) == ReachedSet(use, count, n - 1) + {n - 1};
      } else {
        assert ReachedSet(use, count, n) == ReachedSet(use, count, n - 1);
      }
    }
  }

  /** They are the first ones: no used column before a set one is left out. */
  lemma ReachedFirst(use: seq<bool>, count: int, i: nat, j: nat)
    requires i < j < |use| && use[i] && Reached(use, count, j)
    ensures Reached(use, count, i)
  {
    UsedGrows(use, i, j);
  }
}
