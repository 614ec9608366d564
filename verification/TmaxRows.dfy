/** Taking a payload of encoded rows apart again: what the receiver of a Tmax snippet sees. */
module TmaxRows {
  import opened Framing
  import opened RowData
  import opened Sequences
  import opened TmaxFilter
  import opened TmaxPipeline

  type Columns = seq<seq<Byte>>

  /** n columns from the front of b and what follows them. */
  datatype Front = Front(columns: Columns, rest: seq<Byte>) | TornColumn

  function TakeColumns(b: seq<Byte>, n: nat): (r: Front)
    ensures r.Front? && n > 0 ==> |r.rest| < |b|
    ensures r.Front? ==> |r.rest| <= |b|
    decreases n
  {
    if n == 0 then Front([], b)
    else if !Readable(b) then TornColumn
    else
      match TakeColumns(b[CellLen(b)..], n - 1)
      case TornColumn => TornColumn
      case Front(columns, rest) => Front([b[..CellLen(b)]] + columns, rest)
  }

  datatype Rows = Rows(rows: seq<Columns>) | Torn

  /** Rows of n columns each until nothing is left. */
  function TakeRows(b: seq<Byte>, n: nat): Rows
    requires n > 0
    decreases |b|
  {
    if b == [] then Rows([])
    else
      match TakeColumns(b, n)
      case TornColumn => Torn
      case Front(columns, rest) =>
        match TakeRows(rest, n)
        case Torn => Torn
        case Rows(more) => Rows([columns] + more)
  }

  // ---------------------------------------------------------------- rows back to back

  predicate WholeRow(r: Columns, n: nat) {
    |r| == n && forall i :: 0 <= i < |r| ==> Cell(r[i])
  }

  /** The bytes of the rows from k on. */
  function RowsFrom(rows: seq<Columns>, k: nat): seq<Byte>
    requires k <= |rows|
    decreases |rows| - k
  {
    if k == |rows| then [] else From(rows[k], 0) + RowsFrom(rows, k + 1)
  }

  lemma {:induction false} TakeColumnsBack(r: Columns, j: nat, rest: seq<Byte>)
    requires j <= |r| && WholeRow(r, |r|)
    ensures TakeColumns(From(r, j) + rest, |r| - j) == Front(r[j..], rest)
    decreases |r| - j
  {
    if j == |r| {
      assert From(r, j) + rest == rest && r[j..] == [];
    } else {
      var more := From(r, j + 1) + rest;
      assert From(r, j) + rest == r[j] + more;
      CellAt(r[j], more);
      TakeColumnsBack(r, j + 1, rest);
      assert r[j..] == [r[j]] + r[j + 1..];
    }
  }

  lemma RowNotEmpty(r: Columns, n: nat)
    requires WholeRow(r, n) && n > 0
    ensures From(r, 0) != []
  {
    assert Cell(r[0]);
  }

  /** Walking the bytes by the column lengths gives the rows back. */
  lemma {:induction false} TakeRowsBack(rows: seq<Columns>, k: nat, n: nat)
    requires k <= |rows| && n > 0 && forall i :: 0 <= i < |rows| ==> WholeRow(rows[i], n)
    ensures TakeRows(RowsFrom(rows, k), n) == Rows(rows[k..])
    decreases |rows| - k
  {
    if k == |rows| {
      assert rows[k..] == [];
    } else {
      RowNotEmpty(rows[k], n);
      TakeColumnsBack(rows[k], 0, RowsFrom(rows, k + 1));
      assert rows[k][0..] == rows[k];
      TakeRowsBack(rows, k + 1, n);
      assert rows[k..] == [rows[k]] + rows[k + 1..];
    }
  }

  lemma {:induction false} RowsFromSnoc(rows: seq<Columns>, r: Columns, k: nat)
    requires k <= |rows|
    ensures RowsFrom(rows + [r], k) == RowsFrom(rows, k) + From(r, 0)
    decreases |rows| - k
  {
    var all := rows + [r];
    if k == |rows| {
      assert RowsFrom(all, k + 1) == [];
      assert From(r, 0) + [] == From(r, 0) == [] + From(r, 0);
    } else {
      RowsFromSnoc(rows, r, k + 1);
      Regroup(From(rows[k], 0), RowsFrom(rows, k + 1), From(r, 0));
    }
  }

  // ---------------------------------------------------------------- the rows of a snippet

  /** The output columns of the selected rows among the first k, behind those already there. */
  function SelectedIn(info: FilterInfo, rows: seq<Slot>, k: nat, before: seq<Columns>): seq<Columns>
    requires ValidOperands(info) && Block(rows) && k <= |rows|
  {
    if k == 0 then before
    else if Selected(info, rows[k - 1]) then SelectedIn(info, rows, k - 1, before) + [OutCells(info, rows[k - 1].cells)]
    else SelectedIn(info, rows, k - 1, before)
  }

  /** The selected rows of the first m blocks, as columns, in block and row order. */
  function SelectedOf(info: FilterInfo, blocks: seq<seq<Slot>>, m: nat): seq<Columns>
    requires Snippet(info, blocks) && m <= |blocks|
  {
    if m == 0 then [] else SelectedIn(info, blocks[m - 1], |blocks[m - 1]|, SelectedOf(info, blocks, m - 1))
  }

  lemma OutCellsWhole(info: FilterInfo, cells: seq<seq<Byte>>)
    requires Cells(cells)
    ensures WholeRow(OutCells(info, cells), |info.useCols|)
  {
  }

  lemma OutCellsBytes(info: FilterInfo, row: Slot)
    requires row.Piece? && Cells(row.cells)
    ensures From(OutCells(info, row.cells), 0) == RowBytes(info, row)
  {
    var out := OutCells(info, row.cells);
    EncodingSplits(info, row.cells, |info.useCols|);
    assert Encoding(info, row.cells, |out|) + From(out, |out|) == Encoding(info, row.cells, |out|);
  }

  predicate AllWhole(rows: seq<Columns>, n: nat) {
    forall i :: 0 <= i < |rows| ==> WholeRow(rows[i], n)
  }

  lemma {:induction false} SelectedInBytes(info: FilterInfo, rows: seq<Slot>, k: nat, before: seq<Columns>)
    requires ValidOperands(info) && Block(rows) && k <= |rows| && AllWhole(before, |info.useCols|)
    ensures AllWhole(SelectedIn(info, rows, k, before), |info.useCols|)
    ensures RowsFrom(SelectedIn(info, rows, k, before), 0) == RowsFrom(before, 0) + Output(info, rows, k)
    decreases k
  {
    if k == 0 {
      assert RowsFrom(before, 0) + [] == RowsFrom(before, 0);
    } else {
      SelectedInBytes(info, rows, k - 1, before);
      if Selected(info, rows[k - 1]) {
        OneMoreSelected(info, rows, k, before);
      }
    }
  }

  lemma OneMoreSelected(info: FilterInfo, rows: seq<Slot>, k: nat, before: seq<Columns>)
    requires ValidOperands(info) && Block(rows) && 0 < k <= |rows| && Selected(info, rows[k - 1])
    requires AllWhole(SelectedIn(info, rows, k - 1, before), |info.useCols|)
    requires RowsFrom(SelectedIn(info, rows, k - 1, before), 0) == RowsFrom(before, 0) + Output(info, rows, k - 1)
    ensures AllWhole(SelectedIn(info, rows, k, before), |info.useCols|)
    ensures RowsFrom(SelectedIn(info, rows, k, before), 0) == RowsFrom(before, 0) + Output(info, rows, k)
  {
    var row := rows[k - 1];
    OutCellsWhole(info, row.cells);
    OutCellsBytes(info, row);
    RowsFromSnoc(SelectedIn(info, rows, k - 1, before), OutCells(info, row.cells), 0);
    CatIsConcat(Output(info, rows, k - 1), RowBytes(info, row));
    Regroup(RowsFrom(before, 0), Output(info, rows, k - 1), RowBytes(info, row));
  }

  lemma {:induction false} SelectedOfBytes(info: FilterInfo, blocks: seq<seq<Slot>>, m: nat)
    requires Snippet(info, blocks) && m <= |blocks|
    ensures AllWhole(SelectedOf(info, blocks, m), |info.useCols|)
    ensures RowsFrom(SelectedOf(info, blocks, m), 0) == SelectedRows(info, blocks, m)
    decreases m
  {
    if m > 0 {
      SelectedOfBytes(info, blocks, m - 1);
      SelectedInBytes(info, blocks[m - 1], |blocks[m - 1]|, SelectedOf(info, blocks, m - 1));
      CatIsConcat(SelectedRows(info, blocks, m - 1), Output(info, blocks[m - 1], |blocks[m - 1]|));
    }
  }

  lemma PayloadReadsBack(info: FilterInfo, blocks: seq<seq<Slot>>, payload: seq<Byte>)
    requires Snippet(info, blocks) && info.useCols != [] && payload == SelectedRows(info, blocks, |blocks|)
    ensures TakeRows(payload, |info.useCols|) == Rows(SelectedOf(info, blocks, |blocks|))
  {
    var rows := SelectedOf(info, blocks, |blocks|);
    SelectedOfBytes(info, blocks, |blocks|);
    TakeRowsBack(rows, 0, |info.useCols|);
    assert rows[0..] == rows;
  }

  /** End to end: reading the frames of all results and walking the bytes by the column lengths gives
      exactly the rows that satisfy every condition, in block and row order, column by column. A row
      without columns leaves no byte to read. */
  lemma SnippetReadsBack(info: FilterInfo, blocks: seq<seq<Slot>>, bufferSize: nat)
    requires Snippet(info, blocks) && info.useCols != []
    requires forall b :: 0 <= b < |blocks| ==> RowsFit(info, blocks[b])
    requires forall b :: 0 <= b < |blocks| ==> AllFit(BlockItems(info, blocks[b]), bufferSize)
    ensures var returned := AllFrames(Buffers(PackAll(AllItems(info, blocks), bufferSize, |blocks|)));
      && Deframe(Flatten(returned), 0).Items?
      && TakeRows(Payload(Deframe(Flatten(returned), 0).items), |info.useCols|)
         == Rows(SelectedOf(info, blocks, |blocks|))
  {
    SnippetDelivers(info, blocks, bufferSize);
    var returned := AllFrames(Buffers(PackAll(AllItems(info, blocks), bufferSize, |blocks|)));
    PayloadReadsBack(info, blocks, Payload(Deframe(Flatten(returned), 0).items));
  }
}
