/** The row container every stage of the worker passes on: `Data` in data_structure.h.
    Rows lie back to back in `raw`; `rowOffset` holds where each one starts. A batch that
    leaves a stage is sealed: one more offset marks the end of the last row. */
module RowData {
  type Byte = b: int | 0 <= b < 256
  type Row = seq<Byte>

  datatype Data = Data(
    raw: seq<Byte>,
    rowOffset: seq<int>,
    rowCount: nat,
    blockCount: int,
    scannedRows: int,
    filteredRows: int)

  /** What a container stands for: its rows, in order, and its three counters. */
  datatype Contents = Contents(rows: seq<Row>, blockCount: int, scannedRows: int, filteredRows: int)

  const EMPTY := Contents([], 0, 0, 0)

  function Flatten<T>(ss: seq<seq<T>>): seq<T> {
    if ss == [] then [] else Flatten(ss[..|ss| - 1]) + ss[|ss| - 1]
  }

  lemma FlattenSnoc<T>(ss: seq<seq<T>>, s: seq<T>)
    ensures Flatten(ss + [s]) == Flatten(ss) + s
  {
    assert (ss + [s])[..|ss|] == ss;
  }

  lemma {:induction false} FlattenConcat<T>(a: seq<seq<T>>, b: seq<seq<T>>)
    ensures Flatten(a + b) == Flatten(a) + Flatten(b)
    decreases |b|
  {
    if b == [] {
      assert a + b == a;
    } else {
      var p, x := b[..|b| - 1], b[|b| - 1];
      assert a + b == (a + p) + [x];
      FlattenConcat(a, p);
      FlattenSnoc(a + p, x);
    }
  }

  /** A batch is within the buffer size, unless it is a single row that is itself too long. */
  predicate FitsBuffer(x: Contents, bufferSize: nat) {
    |Flatten(x.rows)| <= bufferSize || (|x.rows| == 1 && |x.rows[0]| > bufferSize)
  }

  // ---------------------------------------------------------------- filling buffers in turn

  /** The bytes held after k rows, from the row lengths alone. */
  function HeldLength(rows: seq<Row>, bufferSize: nat, k: nat): nat
    requires k <= |rows|
    decreases k, 0
  {
    if k == 0 then 0
    else if Overflows(rows, bufferSize, k - 1) then |rows[k - 1]|
    else HeldLength(rows, bufferSize, k - 1) + |rows[k - 1]|
  }

  /** Row k does not fit behind the ones held. */
  predicate Overflows(rows: seq<Row>, bufferSize: nat, k: nat)
    requires k < |rows|
    decreases k, 1
  {
    HeldLength(rows, bufferSize, k) + |rows[k]| > bufferSize
  }

  /** How many of the first k rows did not fit: the buffers sent off. */
  function Flushes(rows: seq<Row>, bufferSize: nat, k: nat): nat
    requires k <= |rows|
  {
    if k == 0 then 0 else Flushes(rows, bufferSize, k - 1) + (if Overflows(rows, bufferSize, k - 1) then 1 else 0)
  }

  /** The rows held after the first k. */
  function HeldRows(rows: seq<Row>, bufferSize: nat, k: nat): seq<Row>
    requires k <= |rows|
  {
    if k == 0 then []
    else (if Overflows(rows, bufferSize, k - 1) then [] else HeldRows(rows, bufferSize, k - 1)) + [rows[k - 1]]
  }

  lemma {:induction false} HeldRowsLength(rows: seq<Row>, bufferSize: nat, k: nat)
    requires k <= |rows|
    ensures |Flatten(HeldRows(rows, bufferSize, k))| == HeldLength(rows, bufferSize, k)
    decreases k
  {
    if k > 0 {
      HeldRowsLength(rows, bufferSize, k - 1);
      FlattenSnoc(if Overflows(rows, bufferSize, k - 1) then [] else HeldRows(rows, bufferSize, k - 1), rows[k - 1]);
    }
  }

  lemma {:induction false} FlushesPrefix(rows: seq<Row>, r: Row, bufferSize: nat, k: nat)
    requires k <= |rows|
    ensures HeldLength(rows + [r], bufferSize, k) == HeldLength(rows, bufferSize, k)
    ensures Flushes(rows + [r], bufferSize, k) == Flushes(rows, bufferSize, k)
    ensures HeldRows(rows + [r], bufferSize, k) == HeldRows(rows, bufferSize, k)
    decreases k
  {
    if k > 0 {
      FlushesPrefix(rows, r, bufferSize, k - 1);
    }
  }

  /** What one more row does to them. */
  lemma FlushesSnoc(rows: seq<Row>, r: Row, bufferSize: nat)
    ensures var held, n := HeldLength(rows, bufferSize, |rows|), |rows| + 1;
      && HeldRows(rows + [r], bufferSize, n)
         == (if held + |r| > bufferSize then [] else HeldRows(rows, bufferSize, |rows|)) + [r]
      && HeldLength(rows + [r], bufferSize, n) == (if held + |r| > bufferSize then 0 else held) + |r|
      && Flushes(rows + [r], bufferSize, n)
         == Flushes(rows, bufferSize, |rows|) + (if held + |r| > bufferSize then 1 else 0)
  {
    FlushesPrefix(rows, r, bufferSize, |rows|);
  }

  // ---------------------------------------------------------------- containers

  /** The offset of each row: the total length of the rows before it. */
  function Starts(rows: seq<Row>): seq<int> {
    seq(|rows|, i requires 0 <= i < |rows| => |Flatten(rows[..i])|)
  }

  /** The container while rows are still being appended. */
  function Layout(x: Contents): Data {
    Data(Flatten(x.rows), Starts(x.rows), |x.rows|, x.blockCount, x.scannedRows, x.filteredRows)
  }

  /** The container as it leaves a stage, with the end marker in place. */
  function SealedLayout(x: Contents): Data {
    Seal(Layout(x))
  }

  function AppendRow(x: Contents, r: Row): Contents {
    x.(rows := x.rows + [r])
  }

  /** Push the current length as the new row's offset and copy the row's bytes to the end. */
  function Append(d: Data, r: Row): Data {
    d.(raw := d.raw + r, rowOffset := d.rowOffset + [|d.raw|], rowCount := d.rowCount + 1)
  }

  /** Push the final offset. */
  function Seal(d: Data): Data {
    d.(rowOffset := d.rowOffset + [|d.raw|])
  }

  lemma StartsSnoc(rows: seq<Row>, r: Row)
    ensures Starts(rows + [r]) == Starts(rows) + [|Flatten(rows)|]
  {
    var more := rows + [r];
    assert more[..|rows|] == rows;
    forall i | 0 <= i < |rows| ensures Starts(more)[i] == Starts(rows)[i] {
      assert more[..i] == rows[..i];
    }
  }

  lemma AppendLayout(x: Contents, r: Row)
    ensures Append(Layout(x), r) == Layout(AppendRow(x, r))
  {
    FlattenSnoc(x.rows, r);
    StartsSnoc(x.rows, r);
  }

  /** How every stage reads row i back. */
  function RowAt(d: Data, i: nat): Row
    requires i + 1 < |d.rowOffset| && 0 <= d.rowOffset[i] <= d.rowOffset[i + 1] <= |d.raw|
  {
    d.raw[d.rowOffset[i]..d.rowOffset[i + 1]]
  }

  /** In a sealed container row i is the bytes between offset i and offset i+1; the last offset
      is the data length, so the slices partition the bytes. */
  lemma ReadBack(x: Contents, i: nat)
    requires i < |x.rows|
    ensures var d := SealedLayout(x);
      && |d.rowOffset| == |x.rows| + 1 && d.rowOffset[|x.rows|] == |d.raw| && d.rowOffset[0] == 0
      && 0 <= d.rowOffset[i] <= d.rowOffset[i + 1] <= |d.raw|
      && RowAt(d, i) == x.rows[i]
  {
    var rows := x.rows;
    assert rows == rows[..i + 1] + rows[i + 1..];
    FlattenConcat(rows[..i + 1], rows[i + 1..]);
    assert rows[..i + 1] == rows[..i] + [rows[i]];
    FlattenSnoc(rows[..i], rows[i]);
    assert Flatten(rows) == Flatten(rows[..i]) + rows[i] + Flatten(rows[i + 1..]);
    assert rows[..0] == [] && rows[..|rows|] == rows;
  }
}
