/** The Tmax block filter (tmax-lib/ex.cc): build the columns of a row piece, evaluate the
    conjunction of its conditions, replace unused columns by NULL and pack the row into chunks.
    A pointer to a column is the memory from there on, so a column reads as a prefix of it. */
module TmaxFilter {
  import opened CharCompare
  import opened RowData
  import opened Sequences

  const RES_CHUNK_SIZE := 65533

  const NULL_COLUMN: seq<Byte> := [0, 0, 0, 0]

  // ---------------------------------------------------------------- columns

  function Word(hi: int, lo: int): int {
    hi * 256 + lo
  }

  /** Enough memory to read the length. */
  predicate Header(p: seq<Byte>) {
    |p| > 0 && (p[0] > 250 ==> |p| >= 3)
  }

  function CellLen(p: seq<Byte>): (n: nat)
    requires Header(p)
    ensures n > 0
  {
    if p[0] <= 250 then Word(0, p[0]) + 1 else Word(p[1], p[2]) + 3
  }

  function CellSize(p: seq<Byte>): nat
    requires Header(p)
  {
    if p[0] <= 250 then p[0] else Word(p[1], p[2])
  }

  /** A whole column is there. */
  predicate Readable(p: seq<Byte>) {
    Header(p) && CellLen(p) <= |p|
  }

  /** The bytes compared: they start after one byte unless the first byte is above 252. */
  function Content(p: seq<Byte>): seq<Byte>
    requires Readable(p)
  {
    var d := if p[0] <= 252 then 1 else 3;
    p[d..d + CellSize(p)]
  }

  /** One column and nothing else. */
  predicate Cell(c: seq<Byte>) {
    Readable(c) && CellLen(c) == |c|
  }

  predicate Cells(cells: seq<seq<Byte>>) {
    cells != [] && forall i :: 0 <= i < |cells| ==> Cell(cells[i])
  }

  /** The memory of a row piece from column j on. */
  function From(cells: seq<seq<Byte>>, j: nat): seq<Byte>
    requires j <= |cells|
    decreases |cells| - j
  {
    if j == |cells| then [] else cells[j] + From(cells, j + 1)
  }

  lemma CellAt(c: seq<Byte>, rest: seq<Byte>)
    requires Cell(c)
    ensures Readable(c + rest) && CellLen(c + rest) == |c| && Content(c + rest) == Content(c)
    ensures (c + rest)[..|c|] == c && (c + rest)[|c|..] == rest
  {
  }

  /** A row piece with too few columns goes on with its last one. */
  function Clamp(cells: seq<seq<Byte>>, i: nat): nat
    requires cells != []
  {
    if i < |cells| then i else |cells| - 1
  }

  function Pointer(cells: seq<seq<Byte>>, i: nat): seq<Byte>
    requires cells != []
  {
    From(cells, Clamp(cells, i))
  }

  function ColumnOf(cells: seq<seq<Byte>>, i: nat): seq<Byte>
    requires cells != []
  {
    cells[Clamp(cells, i)]
  }

  lemma PointerIs(cells: seq<seq<Byte>>, i: nat)
    requires Cells(cells)
    ensures Readable(Pointer(cells, i)) && CellLen(Pointer(cells, i)) == |ColumnOf(cells, i)|
    ensures Content(Pointer(cells, i)) == Content(ColumnOf(cells, i))
    ensures Pointer(cells, i)[..|ColumnOf(cells, i)|] == ColumnOf(cells, i)
  {
    var j := Clamp(cells, i);
    CellAt(cells[j], From(cells, j + 1));
  }

  lemma NextPointer(cells: seq<seq<Byte>>, i: nat)
    requires Cells(cells)
    ensures Readable(Pointer(cells, i))
    ensures var p := Pointer(cells, i); Pointer(cells, i + 1) == if i < |cells| - 1 then p[CellLen(p)..] else p
  {
    PointerIs(cells, i);
    if i < |cells| - 1 {
      CellAt(cells[i], From(cells, i + 1));
    }
  }

  // ---------------------------------------------------------------- build_data

  /** Used columns before column i. */
  function UsedBefore(use: seq<bool>, i: nat): nat
    requires i <= |use|
  {
    if i == 0 then 0 else UsedBefore(use, i - 1) + (if use[i - 1] then 1 else 0)
  }

  lemma {:induction false} UsedGrows(use: seq<bool>, i: nat, j: nat)
    requires i <= j <= |use|
    ensures UsedBefore(use, i) <= UsedBefore(use, j)
    decreases j
  {
    if i < j {
      UsedGrows(use, i, j - 1);
    }
  }

  /** Used, and not behind the point where the count of used columns runs out. */
  predicate Reached(use: seq<bool>, count: int, i: nat)
    requires i < |use|
  {
    use[i] && (i == 0 || UsedBefore(use, i) < count)
  }

  function Len16(p: seq<Byte>): nat
    requires Header(p)
  {
    CellLen(p) % 65536
  }

  predicate Built(val: seq<Byte>, len: nat, cells: seq<seq<Byte>>, i: nat)
    requires cells != []
  {
    val == Pointer(cells, i) && len == |ColumnOf(cells, i)| % 65536
  }

  method BuildData(vals: array<seq<Byte>>, lens: array<nat>, cells: seq<seq<Byte>>, use: seq<bool>, count: int)
    requires vals.Length == |use| && lens.Length == |use| && Cells(cells)
    modifies vals, lens
    ensures forall i :: 0 <= i < |use| && Reached(use, count, i) ==> Built(vals[i], lens[i], cells, i)
    ensures forall i :: 0 <= i < |use| && !Reached(use, count, i) ==> vals[i] == old(vals[i]) && lens[i] == old(lens[i])
  {
    var data, remained := From(cells, 0), count;
    for i := 0 to |use|
      invariant data == Pointer(cells, i) && remained == count - UsedBefore(use, i) && (i > 0 ==> remained > 0)
      invariant forall k :: 0 <= k < i && Reached(use, count, k) ==> Built(vals[k], lens[k], cells, k)
      invariant forall k :: 0 <= k < |use| && (k >= i || !Reached(use, count, k)) ==>
        vals[k] == old(vals[k]) && lens[k] == old(lens[k])
    {
      PointerIs(cells, i);
      if use[i] {
        vals[i] := data;
        lens[i] := Len16(data);
        remained := remained - 1;
      }
      if remained <= 0 {
        forall k | i < k < |use| ensures !Reached(use, count, k) {
          UsedGrows(use, i + 1, k);
        }
        return;
      }
      NextPointer(cells, i);
      if i < |cells| - 1 {
        data := data[CellLen(data)..];
      }
    }
  }

  // ---------------------------------------------------------------- the conditions

  /** One condition; an operand number of -1 stands for a constant. */
  datatype Exp = Exp(left: int, right: int, op: Op, isChar: bool)

  datatype FilterInfo = FilterInfo(exps: seq<Exp>, useCols: seq<bool>, useColCnt: int, consts: seq<seq<Byte>>)

  function OperandNo(info: FilterInfo, i: nat, right: bool): int
    requires i < |info.exps|
  {
    if right then info.exps[i].right else info.exps[i].left
  }

  /** How many constants are read before an operand: left and right of each condition in turn. */
  function ConstsBefore(info: FilterInfo, i: nat, right: bool): nat
    requires i <= |info.exps| && (right ==> i < |info.exps|)
    decreases i, right
  {
    if right then ConstsBefore(info, i, false) + (if info.exps[i].left == -1 then 1 else 0)
    else if i == 0 then 0
    else ConstsBefore(info, i - 1, true) + (if info.exps[i - 1].right == -1 then 1 else 0)
  }

  /** A number names a column, or a constant that is there. */
  predicate ValidOperands(info: FilterInfo) {
    && (forall k :: 0 <= k < |info.consts| ==> Cell(info.consts[k]))
    && ConstsBefore(info, |info.exps|, false) <= |info.consts|
    && forall i, right :: 0 <= i < |info.exps| ==> -1 <= OperandNo(info, i, right) < |info.useCols|
  }

  lemma {:induction false} ConstsGrow(info: FilterInfo, i: nat, n: nat)
    requires i <= n <= |info.exps|
    ensures ConstsBefore(info, i, false) <= ConstsBefore(info, n, false)
    decreases n
  {
    if i < n {
      ConstsGrow(info, i, n - 1);
    }
  }

  /** There is a constant left for every operand that wants one. */
  lemma ConstThere(info: FilterInfo, i: nat, right: bool)
    requires ValidOperands(info) && i < |info.exps| && OperandNo(info, i, right) == -1
    ensures ConstsBefore(info, i, right) < |info.consts|
  {
    ConstsGrow(info, i + 1, |info.exps|);
  }

  /** Every column a condition reads is there to be read. */
  predicate ColumnsReadable(info: FilterInfo, cols: seq<seq<Byte>>) {
    && |cols| == |info.useCols|
    && forall i, right :: 0 <= i < |info.exps| && OperandNo(info, i, right) != -1 ==>
      0 <= OperandNo(info, i, right) < |cols| && Readable(cols[OperandNo(info, i, right)])
  }

  /** What an operand reads: the k-th operand that is -1 reads constant k. */
  function Operand(info: FilterInfo, cols: seq<seq<Byte>>, i: nat, right: bool): (p: seq<Byte>)
    requires ValidOperands(info) && ColumnsReadable(info, cols) && i < |info.exps|
    ensures Readable(p)
  {
    if OperandNo(info, i, right) != -1 then cols[OperandNo(info, i, right)] else
      ConstThere(info, i, right);
      info.consts[ConstsBefore(info, i, right)]
  }

  predicate ExpHolds(info: FilterInfo, cols: seq<seq<Byte>>, i: nat)
    requires ValidOperands(info) && ColumnsReadable(info, cols) && i < |info.exps|
  {
    Condition(Content(Operand(info, cols, i, false)), Content(Operand(info, cols, i, true)), info.exps[i].op,
              info.exps[i].isChar)
  }

  predicate AllHold(info: FilterInfo, cols: seq<seq<Byte>>)
    requires ValidOperands(info) && ColumnsReadable(info, cols)
  {
    forall i :: 0 <= i < |info.exps| ==> ExpHolds(info, cols, i)
  }

  method ReadOperand(info: FilterInfo, cols: seq<seq<Byte>>, i: nat, right: bool, constIdx: nat)
    returns (p: seq<Byte>, next: nat)
    requires ValidOperands(info) && ColumnsReadable(info, cols)
    requires i < |info.exps| && constIdx == ConstsBefore(info, i, right)
    ensures p == Operand(info, cols, i, right)
    ensures next == if right then ConstsBefore(info, i + 1, false) else ConstsBefore(info, i, true)
  {
    var no := OperandNo(info, i, right);
    if no != -1 {
      p, next := cols[no], constIdx;
    } else {
      ConstThere(info, i, right);
      p, next := info.consts[constIdx], constIdx + 1;
    }
  }

  method EvalExp(info: FilterInfo, cols: seq<seq<Byte>>, i: nat, constIdx: nat) returns (holds: bool, next: nat)
    requires ValidOperands(info) && ColumnsReadable(info, cols)
    requires i < |info.exps| && constIdx == ConstsBefore(info, i, false)
    ensures holds == ExpHolds(info, cols, i) && next == ConstsBefore(info, i + 1, false)
  {
    var l, r;
    l, next := ReadOperand(info, cols, i, false, constIdx);
    r, next := ReadOperand(info, cols, i, true, next);
    if CellSize(l) == 0 || CellSize(r) == 0 {
      holds := false;
    } else {
      holds := EvalCondition(Content(l), Content(r), info.exps[i].op, info.exps[i].isChar);
    }
  }

  method CheckTrue(info: FilterInfo, cols: seq<seq<Byte>>) returns (b: bool)
    requires ValidOperands(info) && ColumnsReadable(info, cols)
    ensures b == AllHold(info, cols)
  {
    var constIdx, holds := 0, true;
    for i := 0 to |info.exps|
      invariant constIdx == ConstsBefore(info, i, false)
      invariant forall k :: 0 <= k < i ==> ExpHolds(info, cols, k)
    {
      holds, constIdx := EvalExp(info, cols, i, constIdx);
      if !holds {
        return false;
      }
    }
    b := true;
  }

  // ---------------------------------------------------------------- output

  /** Output column i of a row. */
  function OutColumn(info: FilterInfo, cells: seq<seq<Byte>>, i: nat): seq<Byte>
    requires cells != [] && i < |info.useCols|
  {
    if info.useCols[i] then ColumnOf(cells, i) else [0]
  }

  /** The first n output columns, back to back. */
  function Encoding(info: FilterInfo, cells: seq<seq<Byte>>, n: nat): seq<Byte>
    requires cells != [] && n <= |info.useCols|
  {
    if n == 0 then [] else Cat(Encoding(info, cells, n - 1), OutColumn(info, cells, n - 1))
  }

  /** Their length, with each length cut to 16 bits. */
  function Total16(info: FilterInfo, cells: seq<seq<Byte>>, n: nat): nat
    requires cells != [] && n <= |info.useCols|
  {
    if n == 0 then 0 else Total16(info, cells, n - 1) + |OutColumn(info, cells, n - 1)| % 65536
  }

  /** A pointer to output column i. */
  predicate PointsTo(p: seq<Byte>, info: FilterInfo, cells: seq<seq<Byte>>, i: nat)
    requires cells != [] && i < |info.useCols|
  {
    Readable(p) && CellLen(p) == |OutColumn(info, cells, i)| && p[..CellLen(p)] == OutColumn(info, cells, i)
  }

  function OutPointer(info: FilterInfo, cells: seq<seq<Byte>>, i: nat): seq<Byte>
    requires cells != [] && i < |info.useCols|
  {
    if info.useCols[i] then Pointer(cells, i) else NULL_COLUMN
  }

  lemma OutPointerIs(info: FilterInfo, cells: seq<seq<Byte>>, i: nat)
    requires Cells(cells) && i < |info.useCols|
    ensures PointsTo(OutPointer(info, cells, i), info, cells, i)
    ensures (if info.useCols[i] then Len16(Pointer(cells, i)) else 1) == |OutColumn(info, cells, i)| % 65536
  {
    PointerIs(cells, i);
  }

  method SetColOut(vals: array<seq<Byte>>, lens: array<nat>, info: FilterInfo, ghost cells: seq<seq<Byte>>)
    returns (total: nat)
    requires Cells(cells) && vals.Length == lens.Length == |info.useCols|
    requires forall i :: 0 <= i < vals.Length && info.useCols[i] ==> vals[i] == Pointer(cells, i)
    modifies vals, lens
    ensures forall i :: 0 <= i < vals.Length ==> PointsTo(vals[i], info, cells, i)
    ensures total == Total16(info, cells, |info.useCols|)
  {
    total := 0;
    for i := 0 to vals.Length
      invariant forall k :: 0 <= k < i ==> vals[k] == OutPointer(info, cells, k)
      invariant forall k :: i <= k < vals.Length ==> vals[k] == old(vals[k])
      invariant total == Total16(info, cells, i)
    {
      OutPointerIs(info, cells, i);
      if !info.useCols[i] {
        vals[i] := NULL_COLUMN;
      }
      var len := if info.useCols[i] then Len16(vals[i]) else 1;
      lens[i] := len;
      total := total + len;
    }
    forall i | 0 <= i < vals.Length ensures PointsTo(vals[i], info, cells, i) {
      OutPointerIs(info, cells, i);
    }
  }

  /** Where a row of `total` bytes goes: behind the last chunk if it fits, else into a new one. */
  function AddRow(chunks: seq<seq<Byte>>, row: seq<Byte>, total: nat): seq<seq<Byte>> {
    if chunks == [] || |chunks[|chunks| - 1]| + total > RES_CHUNK_SIZE then chunks + [row]
    else chunks[|chunks| - 1 := chunks[|chunks| - 1] + row]
  }

  class ChunkList {
    /** The used bytes of each result chunk. */
    var chunks: seq<seq<Byte>>

    constructor ()
      ensures chunks == []
    {
      chunks := [];
    }

    method SerializeRow(vals: array<seq<Byte>>, ghost info: FilterInfo, ghost cells: seq<seq<Byte>>, total: nat)
      requires cells != [] && vals.Length == |info.useCols|
      requires forall i :: 0 <= i < vals.Length ==> PointsTo(vals[i], info, cells, i)
      modifies this
      ensures chunks == AddRow(old(chunks), Encoding(info, cells, vals.Length), total)
    {
      if chunks == [] || |chunks[|chunks| - 1]| + total > RES_CHUNK_SIZE {
        chunks := chunks + [[]];
      }
      var n := |chunks| - 1;
      var used := CopyColumns(chunks[n], vals[..], info, cells);
      CatIsConcat(chunks[n], Encoding(info, cells, vals.Length));
      chunks := chunks[n := used];
    }
  }

  method CopyColumns(chunk: seq<Byte>, cols: seq<seq<Byte>>, ghost info: FilterInfo, ghost cells: seq<seq<Byte>>)
    returns (used: seq<Byte>)
    requires cells != [] && |cols| == |info.useCols|
    requires forall i :: 0 <= i < |cols| ==> PointsTo(cols[i], info, cells, i)
    ensures used == Cat(chunk, Encoding(info, cells, |cols|))
  {
    used := chunk;
    CatIsConcat(chunk, []);
    for i := 0 to |cols|
      invariant used == Cat(chunk, Encoding(info, cells, i))
    {
      assert PointsTo(cols[i], info, cells, i);
      OneMoreCopied(chunk, Encoding(info, cells, i), OutColumn(info, cells, i));
      used := used + cols[i][..CellLen(cols[i])];
    }
  }

  lemma OneMoreCopied(chunk: seq<Byte>, copied: seq<Byte>, col: seq<Byte>)
    ensures Cat(chunk, copied) + col == Cat(chunk, Cat(copied, col))
  {
    CatIsConcat(chunk, copied);
    CatIsConcat(copied, col);
    CatIsConcat(chunk, copied + col);
  }

  // ---------------------------------------------------------------- a whole block

  /** Every column a condition reads is set by `build_data`. Any other one keeps the pointer it was
      allocated with. */
  predicate Planned(info: FilterInfo) {
    && ValidOperands(info)
    && forall i, right :: 0 <= i < |info.exps| && OperandNo(info, i, right) != -1 ==>
      Reached(info.useCols, info.useColCnt, OperandNo(info, i, right))
  }

  /** And so is every column that is written out. */
  predicate OutputReached(info: FilterInfo) {
    forall i :: 0 <= i < |info.useCols| && info.useCols[i] ==> Reached(info.useCols, info.useColCnt, i)
  }

  /** A count of at least the used columns sets them all. */
  lemma CountSuffices(info: FilterInfo)
    requires UsedBefore(info.useCols, |info.useCols|) <= info.useColCnt
    ensures OutputReached(info)
  {
    forall i | 0 <= i < |info.useCols| && info.useCols[i] ensures Reached(info.useCols, info.useColCnt, i) {
      UsedGrows(info.useCols, i + 1, |info.useCols|);
    }
  }

  /** The columns of a row piece. */
  function Columns(info: FilterInfo, cells: seq<seq<Byte>>): (cols: seq<seq<Byte>>)
    requires cells != []
    ensures |cols| == |info.useCols| && forall i :: 0 <= i < |cols| ==> cols[i] == ColumnOf(cells, i)
  {
    seq(|info.useCols|, (i: nat) => ColumnOf(cells, i))
  }

  /** A row passes when all its conditions hold. */
  predicate Passes(info: FilterInfo, cells: seq<seq<Byte>>)
    requires ValidOperands(info) && Cells(cells)
  {
    AllHold(info, Columns(info, cells))
  }

  lemma OperandAgrees(info: FilterInfo, vals: seq<seq<Byte>>, cells: seq<seq<Byte>>, i: nat, right: bool)
    requires ValidOperands(info) && Cells(cells) && ColumnsReadable(info, vals) && i < |info.exps|
    requires OperandNo(info, i, right) != -1 ==>
      vals[OperandNo(info, i, right)] == Pointer(cells, OperandNo(info, i, right))
    ensures Content(Operand(info, vals, i, right)) == Content(Operand(info, Columns(info, cells), i, right))
  {
    if OperandNo(info, i, right) != -1 {
      PointerIs(cells, OperandNo(info, i, right));
    }
  }

  lemma ExpAgrees(info: FilterInfo, vals: seq<seq<Byte>>, cells: seq<seq<Byte>>, i: nat)
    requires ValidOperands(info) && Cells(cells) && ColumnsReadable(info, vals) && i < |info.exps|
    requires forall right :: OperandNo(info, i, right) != -1 ==>
      vals[OperandNo(info, i, right)] == Pointer(cells, OperandNo(info, i, right))
    ensures ExpHolds(info, vals, i) == ExpHolds(info, Columns(info, cells), i)
  {
    OperandAgrees(info, vals, cells, i, false);
    OperandAgrees(info, vals, cells, i, true);
  }

  lemma PassesAgrees(info: FilterInfo, vals: seq<seq<Byte>>, cells: seq<seq<Byte>>)
    requires Planned(info) && Cells(cells) && |vals| == |info.useCols|
    requires forall i :: 0 <= i < |vals| && Reached(info.useCols, info.useColCnt, i) ==> vals[i] == Pointer(cells, i)
    ensures ColumnsReadable(info, vals)
    ensures AllHold(info, vals) == Passes(info, cells)
  {
    forall i, right | 0 <= i < |info.exps| && OperandNo(info, i, right) != -1
      ensures Readable(vals[OperandNo(info, i, right)])
    {
      PointerIs(cells, OperandNo(info, i, right));
    }
    forall i | 0 <= i < |info.exps| ensures ExpHolds(info, vals, i) == ExpHolds(info, Columns(info, cells), i) {
      ExpAgrees(info, vals, cells, i);
    }
  }

  /** A slot of the block's row directory. A piece of a chained row is one when it holds all the
      columns the snippet asks for. */
  datatype Slot = Missing | Piece(cells: seq<seq<Byte>>)

  predicate Block(rows: seq<Slot>) {
    forall k :: 0 <= k < |rows| && rows[k].Piece? ==> Cells(rows[k].cells)
  }

  predicate Selected(info: FilterInfo, row: Slot)
    requires ValidOperands(info) && (row.Piece? ==> Cells(row.cells))
  {
    row.Piece? && Passes(info, row.cells)
  }

  function RowBytes(info: FilterInfo, row: Slot): seq<Byte>
    requires row.Piece? && row.cells != []
  {
    Encoding(info, row.cells, |info.useCols|)
  }

  /** The chunks after the first k rows. */
  function Chunks(info: FilterInfo, rows: seq<Slot>, k: nat, init: seq<seq<Byte>>): seq<seq<Byte>>
    requires ValidOperands(info) && Block(rows) && k <= |rows|
  {
    if k == 0 then init
    else if !Selected(info, rows[k - 1]) then Chunks(info, rows, k - 1, init)
    else AddRow(Chunks(info, rows, k - 1, init), RowBytes(info, rows[k - 1]),
                Total16(info, rows[k - 1].cells, |info.useCols|))
  }

  method FilterRow(info: FilterInfo, cells: seq<seq<Byte>>, vals: array<seq<Byte>>, lens: array<nat>, list: ChunkList)
    requires Planned(info) && Cells(cells) && vals.Length == lens.Length == |info.useCols|
    requires Passes(info, cells) ==> OutputReached(info)
    modifies vals, lens, list
    ensures list.chunks == if !Passes(info, cells) then old(list.chunks)
      else AddRow(old(list.chunks), RowBytes(info, Piece(cells)), Total16(info, cells, |info.useCols|))
  {
    BuildData(vals, lens, cells, info.useCols, info.useColCnt);
    PassesAgrees(info, vals[..], cells);
    if |info.exps| > 0 {
      var passed := CheckTrue(info, vals[..]);
      if !passed {
        return;
      }
    }
    var total := SetColOut(vals, lens, info, cells);
    list.SerializeRow(vals, info, cells, total);
  }

  /** All output columns are set, or no row is written. */
  predicate Filterable(info: FilterInfo, rows: seq<Slot>)
    requires ValidOperands(info)
  {
    Block(rows) && (OutputReached(info) || forall k :: 0 <= k < |rows| ==> !Selected(info, rows[k]))
  }

  /** csd_filter_and_eval_out. */
  method FilterBlock(info: FilterInfo, rows: seq<Slot>, list: ChunkList)
    requires Planned(info) && Filterable(info, rows)
    modifies list
    ensures list.chunks == Chunks(info, rows, |rows|, old(list.chunks))
  {
    var vals, lens := new seq<Byte>[|info.useCols|], new nat[|info.useCols|];
    for k := 0 to |rows|
      invariant list.chunks == Chunks(info, rows, k, old(list.chunks))
    {
      if rows[k].Missing? {
        continue;
      }
      FilterRow(info, rows[k].cells, vals, lens, list);
    }
  }

  // ---------------------------------------------------------------- what the chunks hold

  /** The selected rows among the first k, encoded and back to back. */
  function Output(info: FilterInfo, rows: seq<Slot>, k: nat): seq<Byte>
    requires ValidOperands(info) && Block(rows) && k <= |rows|
  {
    if k == 0 then []
    else if Selected(info, rows[k - 1]) then Cat(Output(info, rows, k - 1), RowBytes(info, rows[k - 1]))
    else Output(info, rows, k - 1)
  }

  lemma AddRowFlatten(chunks: seq<seq<Byte>>, row: seq<Byte>, total: nat)
    ensures Flatten(AddRow(chunks, row, total)) == Flatten(chunks) + row
  {
    if chunks == [] || |chunks[|chunks| - 1]| + total > RES_CHUNK_SIZE {
      FlattenSnoc(chunks, row);
    } else {
      var n := |chunks| - 1;
      assert chunks == chunks[..n] + [chunks[n]];
      assert chunks[n := chunks[n] + row] == chunks[..n] + [chunks[n] + row];
      LastExtended(chunks[..n], chunks[n], row);
    }
  }

  lemma LastExtended(head: seq<seq<Byte>>, last: seq<Byte>, row: seq<Byte>)
    ensures Flatten(head + [last + row]) == Flatten(head + [last]) + row
  {
    FlattenSnoc(head, last);
    FlattenSnoc(head, last + row);
    Regroup(Flatten(head), last, row);
  }

  /** The chunks hold what they held before and then exactly the selected rows, in row order. */
  lemma {:induction false} ChunksHoldRows(info: FilterInfo, rows: seq<Slot>, k: nat, init: seq<seq<Byte>>)
    requires ValidOperands(info) && Block(rows) && k <= |rows|
    ensures Flatten(Chunks(info, rows, k, init)) == Flatten(init) + Output(info, rows, k)
    decreases k
  {
    if k == 0 {
      assert Flatten(init) + [] == Flatten(init);
    } else {
      ChunksHoldRows(info, rows, k - 1, init);
      if Selected(info, rows[k - 1]) {
        OneMoreRow(Chunks(info, rows, k - 1, init), Flatten(init), Output(info, rows, k - 1),
                   RowBytes(info, rows[k - 1]), Total16(info, rows[k - 1].cells, |info.useCols|));
      }
    }
  }

  lemma OneMoreRow(chunks: seq<seq<Byte>>, before: seq<Byte>, output: seq<Byte>, row: seq<Byte>, total: nat)
    requires Flatten(chunks) == before + output
    ensures Flatten(AddRow(chunks, row, total)) == before + Cat(output, row)
  {
    AddRowFlatten(chunks, row, total);
    CatIsConcat(output, row);
    Regroup(before, output, row);
  }

  /** The output columns of a row. */
  function OutCells(info: FilterInfo, cells: seq<seq<Byte>>): (out: seq<seq<Byte>>)
    requires cells != []
    ensures |out| == |info.useCols| && forall i :: 0 <= i < |out| ==> out[i] == OutColumn(info, cells, i)
  {
    seq(|info.useCols|, (i: nat) requires i < |info.useCols| => OutColumn(info, cells, i))
  }

  lemma {:induction false} EncodingSplits(info: FilterInfo, cells: seq<seq<Byte>>, n: nat)
    requires cells != [] && n <= |info.useCols|
    ensures From(OutCells(info, cells), 0) == Encoding(info, cells, n) + From(OutCells(info, cells), n)
    decreases n
  {
    var out := OutCells(info, cells);
    if n == 0 {
      assert Encoding(info, cells, 0) + From(out, 0) == From(out, 0);
    } else {
      EncodingSplits(info, cells, n - 1);
      OneMoreColumn(From(out, 0), Encoding(info, cells, n - 1), out[n - 1], From(out, n));
    }
  }

  lemma OneMoreColumn(all: seq<Byte>, encoded: seq<Byte>, column: seq<Byte>, rest: seq<Byte>)
    requires all == encoded + (column + rest)
    ensures all == Cat(encoded, column) + rest
  {
    CatIsConcat(encoded, column);
    Regroup(encoded, column, rest);
  }

  lemma Regroup(a: seq<Byte>, b: seq<Byte>, c: seq<Byte>)
    ensures a + (b + c) == a + b + c
  {
  }

  /** The receiver can take an encoded row apart again: walking it by the column lengths, as
      build_data walks a row piece, meets exactly the output columns. */
  lemma EncodingReadsBack(info: FilterInfo, cells: seq<seq<Byte>>, i: nat)
    requires Cells(cells) && i < |info.useCols|
    ensures var out := OutCells(info, cells);
      && From(out, 0) == Encoding(info, cells, |info.useCols|)
      && Readable(From(out, i)) && From(out, i)[..CellLen(From(out, i))] == OutColumn(info, cells, i)
      && From(out, i)[CellLen(From(out, i))..] == From(out, i + 1)
  {
    var out := OutCells(info, cells);
    EncodingSplits(info, cells, |info.useCols|);
    assert Encoding(info, cells, |out|) + From(out, |out|) == Encoding(info, cells, |out|);
    CellAt(out[i], From(out, i + 1));
  }

  // ---------------------------------------------------------------- how many chunks

  /** The selected rows among the first k, encoded one by one. */
  function SelectedBytes(info: FilterInfo, rows: seq<Slot>, k: nat): seq<Row>
    requires ValidOperands(info) && Block(rows) && k <= |rows|
  {
    if k == 0 then []
    else if Selected(info, rows[k - 1]) then SelectedBytes(info, rows, k - 1) + [RowBytes(info, rows[k - 1])]
    else SelectedBytes(info, rows, k - 1)
  }

  /** One chunk for each row that did not fit behind the ones before it, and the first one. */
  predicate Greedy(chunks: seq<seq<Byte>>, rows: seq<Row>) {
    if rows == [] then chunks == []
    else
      && |chunks| == 1 + Flushes(rows, RES_CHUNK_SIZE, |rows|)
      && |chunks[|chunks| - 1]| == HeldLength(rows, RES_CHUNK_SIZE, |rows|)
  }

  lemma AddRowGreedy(chunks: seq<seq<Byte>>, rows: seq<Row>, row: Row)
    requires Greedy(chunks, rows) && |row| <= RES_CHUNK_SIZE
    ensures Greedy(AddRow(chunks, row, |row|), rows + [row])
  {
    FlushesSnoc(rows, row, RES_CHUNK_SIZE);
  }

  /** A chunk is closed only when the next row does not fit, as the row lengths alone tell. */
  lemma {:induction false} ChunkCount(info: FilterInfo, rows: seq<Slot>, k: nat)
    requires ValidOperands(info) && Block(rows) && k <= |rows|
    requires forall j :: 0 <= j < k && Selected(info, rows[j]) ==> |RowBytes(info, rows[j])| <= RES_CHUNK_SIZE
    ensures Greedy(Chunks(info, rows, k, []), SelectedBytes(info, rows, k))
    decreases k
  {
    if k > 0 {
      ChunkCount(info, rows, k - 1);
      if Selected(info, rows[k - 1]) {
        TotalIsLength(info, rows[k - 1].cells, |info.useCols|);
        AddRowGreedy(Chunks(info, rows, k - 1, []), SelectedBytes(info, rows, k - 1), RowBytes(info, rows[k - 1]));
      }
    }
  }

  // ---------------------------------------------------------------- capacity

  predicate Fit(chunks: seq<seq<Byte>>) {
    forall i :: 0 <= i < |chunks| ==> |chunks[i]| <= RES_CHUNK_SIZE
  }

  /** 16 bits are enough for the columns of a row that fits a chunk. */
  lemma {:induction false} TotalIsLength(info: FilterInfo, cells: seq<seq<Byte>>, n: nat)
    requires cells != [] && n <= |info.useCols| && |Encoding(info, cells, n)| <= RES_CHUNK_SIZE
    ensures Total16(info, cells, n) == |Encoding(info, cells, n)|
    decreases n
  {
    if n > 0 {
      CatIsConcat(Encoding(info, cells, n - 1), OutColumn(info, cells, n - 1));
      TotalIsLength(info, cells, n - 1);
    }
  }

  lemma AddRowFits(chunks: seq<seq<Byte>>, row: seq<Byte>, total: nat)
    requires |row| <= RES_CHUNK_SIZE ==> total == |row|
    ensures Fit(AddRow(chunks, row, total)) <==> Fit(chunks) && |row| <= RES_CHUNK_SIZE
  {
    var out, n := AddRow(chunks, row, total), |chunks|;
    assert forall i :: 0 <= i < n - 1 ==> out[i] == chunks[i];
    assert n > 0 ==> |chunks[n - 1]| <= |out[n - 1]|;
    assert |row| <= |out[|out| - 1]|;
    if Fit(out) {
      forall i | 0 <= i < n ensures |chunks[i]| <= RES_CHUNK_SIZE {
        assert |chunks[i]| <= |out[i]|;
      }
    }
  }

  /** No chunk overflows if and only if no selected row is larger than a chunk. */
  lemma {:induction false} CapacityExact(info: FilterInfo, rows: seq<Slot>, k: nat, init: seq<seq<Byte>>)
    requires ValidOperands(info) && Block(rows) && k <= |rows| && Fit(init)
    ensures Fit(Chunks(info, rows, k, init)) <==>
      forall j :: 0 <= j < k && Selected(info, rows[j]) ==> |RowBytes(info, rows[j])| <= RES_CHUNK_SIZE
    decreases k
  {
    if k > 0 {
      CapacityExact(info, rows, k - 1, init);
      if Selected(info, rows[k - 1]) {
        var row := RowBytes(info, rows[k - 1]);
        if |row| <= RES_CHUNK_SIZE {
          TotalIsLength(info, rows[k - 1].cells, |info.useCols|);
        }
        AddRowFits(Chunks(info, rows, k - 1, init), row, Total16(info, rows[k - 1].cells, |info.useCols|));
      }
    }
  }
}
