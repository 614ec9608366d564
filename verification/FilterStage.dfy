/** The filter stage (filter.cc) and the routing of scan results to it (scan.cc). */
module FilterStage {
  import opened RowData
  import opened Sequences
  import opened Where

  /** What filtering makes of a batch: the passing rows, in order and unchanged; the block and
      scanned counts carried through; the passing rows counted. */
  function FilterBatch(x: Contents, passes: Row -> bool): Contents {
    var kept := Filter(x.rows, passes);
    Contents(kept, x.blockCount, x.scannedRows, |kept|)
  }

  function RowPasses<C(!new)>(ws: seq<Clause<C>>, holds: (C, Row) -> bool): Row -> bool
    requires Alternating(ws)
  {
    row => Passes(ws, c => holds(c, row))
  }

  /** The batch made of the first i rows. */
  function Kept(x: Contents, passes: Row -> bool, i: nat): Contents
    requires i <= |x.rows|
  {
    var kept := FilterUpTo(x.rows, passes, i);
    Contents(kept, x.blockCount, x.scannedRows, |kept|)
  }

  lemma KeptNext(x: Contents, passes: Row -> bool, i: nat)
    requires i < |x.rows|
    ensures var out := Layout(Kept(x, passes, i));
      Layout(Kept(x, passes, i + 1))
        == if passes(x.rows[i]) then Append(out, x.rows[i]).(filteredRows := out.filteredRows + 1) else out
  {
    AppendLayout(Kept(x, passes, i), x.rows[i]);
    assert FilterUpTo(x.rows, passes, i) + [] == FilterUpTo(x.rows, passes, i);
  }

  /** `filtering`: read each row back through the offsets, evaluate the list, copy what passes. */
  method Filtering<C(!new)>(result: Data, ghost x: Contents, ws: seq<Clause<C>>, holds: (C, Row) -> bool)
    returns (out: Data)
    requires result == SealedLayout(x) && Alternating(ws)
    ensures out == SealedLayout(FilterBatch(x, RowPasses(ws, holds)))
  {
    var passes := RowPasses(ws, holds);
    out := Data([], [], 0, result.blockCount, result.scannedRows, 0);
    for i := 0 to result.rowCount
      invariant out == Layout(Kept(x, passes, i))
    {
      ReadBack(x, i);
      KeptNext(x, passes, i);
      var row := RowAt(result, i);
      var passed := EvalWhere(ws, c => holds(c, row));
      if passed {
        out := Append(out, row).(filteredRows := out.filteredRows + 1);
      }
    }
    out := Seal(out);
  }

  /** What passes is no longer than what was scanned, so it fits where that did. */
  lemma FilteredLength(x: Contents, passes: Row -> bool)
    ensures |Flatten(FilterBatch(x, passes).rows)| <= |Flatten(x.rows)|
  {
    FilteredUpTo(x.rows, passes, |x.rows|);
    assert x.rows[..|x.rows|] == x.rows;
  }

  lemma {:induction false} FilteredUpTo(rows: seq<Row>, passes: Row -> bool, k: nat)
    requires k <= |rows|
    ensures |Flatten(FilterUpTo(rows, passes, k))| <= |Flatten(rows[..k])|
    decreases k
  {
    if k > 0 {
      FilteredUpTo(rows, passes, k - 1);
      assert rows[..k] == rows[..k - 1] + [rows[k - 1]];
      FlattenSnoc(rows[..k - 1], rows[k - 1]);
      FlattenSnoc(FilterUpTo(rows, passes, k - 1), rows[k - 1]);
      assert FilterUpTo(rows, passes, k - 1) + [] == FilterUpTo(rows, passes, k - 1);
    }
  }

  /** `enqueue_scan_result`: an empty batch or an empty WHERE list skips the filter stage. */
  function Route<C(!new)>(x: Contents, ws: seq<Clause<C>>, holds: (C, Row) -> bool): Contents
    requires Alternating(ws)
  {
    if x.rows == [] || ws == [] then x.(filteredRows := x.scannedRows)
    else FilterBatch(x, RowPasses(ws, holds))
  }

  /** The same on the bytes. */
  method RouteResult<C(!new)>(result: Data, ghost x: Contents, ws: seq<Clause<C>>, holds: (C, Row) -> bool)
    returns (out: Data)
    requires result == SealedLayout(x) && Alternating(ws)
    ensures out == SealedLayout(Route(x, ws, holds))
  {
    if result.rowCount == 0 || ws == [] {
      out := result.(filteredRows := result.scannedRows);
    } else {
      out := Filtering(result, x, ws, holds);
    }
  }

  /** Skipping the filter stage is what the filter stage would have done. */
  lemma RouteIsFilter<C(!new)>(x: Contents, ws: seq<Clause<C>>, holds: (C, Row) -> bool)
    requires Alternating(ws) && x.scannedRows == |x.rows|
    ensures Route(x, ws, holds) == FilterBatch(x, RowPasses(ws, holds))
  {
    if x.rows != [] && ws == [] {
      FilterAll(x.rows, RowPasses(ws, holds), |x.rows|);
      assert x.rows[..|x.rows|] == x.rows;
    }
  }
}
