/** Where the columns of a row are: the declared layout of a schema (input.cc: parse_snippet) and
    the real one of a row with varchar columns (utils.h: calcul_column_offset). */
module RowLayout {
  import KeyRange
  import opened RowData
  import opened Sequences

  datatype ColumnType = Integer | VarString | OtherType

  datatype Column = Column(name: string, length: nat, kind: ColumnType, primary: bool)

  // ---------------------------------------------------------------- the schema

  predicate IsPrimary(c: Column) {
    c.primary
  }

  predicate NotPrimary(c: Column) {
    !c.primary
  }

  /** The primary key first, otherwise in the order of the schema. */
  function PrimaryFirst(cols: seq<Column>): seq<Column> {
    Cat(Filter(cols, IsPrimary), Filter(cols, NotPrimary))
  }

  /** Key columns come before all others. */
  lemma KeysComeFirst(cols: seq<Column>)
    ensures var placed := PrimaryFirst(cols);
      forall i, j :: 0 <= i < j < |placed| && placed[j].primary ==> placed[i].primary
  {
    CatIsConcat(Filter(cols, IsPrimary), Filter(cols, NotPrimary));
    FilterHolds(cols, IsPrimary, |cols|);
    FilterHolds(cols, NotPrimary, |cols|);
  }

  /** They are the columns of the schema, each as often as there. */
  lemma SameColumns(cols: seq<Column>)
    ensures multiset(PrimaryFirst(cols)) == multiset(cols)
  {
    CatIsConcat(Filter(cols, IsPrimary), Filter(cols, NotPrimary));
    FilterSplits(cols, IsPrimary, NotPrimary, |cols|);
    assert cols[..|cols|] == cols;
  }

  /** And each kind is in the order of the schema. */
  lemma OrderKept(cols: seq<Column>)
    ensures Filter(PrimaryFirst(cols), IsPrimary) == Filter(cols, IsPrimary)
    ensures Filter(PrimaryFirst(cols), NotPrimary) == Filter(cols, NotPrimary)
  {
    FilterHolds(cols, IsPrimary, |cols|);
    FilterHolds(cols, NotPrimary, |cols|);
    CatIsConcat(Filter(cols, IsPrimary), Filter(cols, NotPrimary));
    GroupsApart(Filter(cols, IsPrimary), Filter(cols, NotPrimary));
  }

  lemma GroupsApart(keys: seq<Column>, others: seq<Column>)
    requires forall i :: 0 <= i < |keys| ==> keys[i].primary
    requires forall i :: 0 <= i < |others| ==> !others[i].primary
    ensures Filter(keys + others, IsPrimary) == keys && Filter(keys + others, NotPrimary) == others
  {
    FilterConcat(keys, others, IsPrimary);
    FilterConcat(keys, others, NotPrimary);
    FilterAll(keys, IsPrimary, |keys|);
    FilterAll(others, NotPrimary, |others|);
    FilterNone(keys, NotPrimary, |keys|);
    FilterNone(others, IsPrimary, |others|);
    assert keys[..|keys|] == keys && others[..|others|] == others && keys + [] == keys && [] + others == others;
  }

  lemma {:induction false} FilterHolds(cols: seq<Column>, keep: Column -> bool, k: nat)
    requires k <= |cols|
    ensures forall i :: 0 <= i < |FilterUpTo(cols, keep, k)| ==> keep(FilterUpTo(cols, keep, k)[i])
    decreases k
  {
    if k > 0 {
      FilterHolds(cols, keep, k - 1);
    }
  }

  lemma {:induction false} FilterSplits(cols: seq<Column>, yes: Column -> bool, no: Column -> bool, k: nat)
    requires k <= |cols| && forall c :: no(c) == !yes(c)
    ensures multiset(FilterUpTo(cols, yes, k)) + multiset(FilterUpTo(cols, no, k)) == multiset(cols[..k])
    decreases k
  {
    if k > 0 {
      FilterSplits(cols, yes, no, k - 1);
      assert cols[..k] == cols[..k - 1] + [cols[k - 1]];
      OneMoreColumn(FilterUpTo(cols, yes, k - 1), FilterUpTo(cols, no, k - 1), cols[..k - 1], cols[k - 1],
                    yes(cols[k - 1]));
    }
  }

  /** A column goes to the end of its own group. */
  lemma OneMoreColumn(a: seq<Column>, b: seq<Column>, both: seq<Column>, c: Column, first: bool)
    requires multiset(a) + multiset(b) == multiset(both)
    ensures multiset(a + if first then [c] else []) + multiset(b + if !first then [c] else []) == multiset(both + [c])
  {
    assert a + [] == a && b + [] == b;
  }

  /** The number of key columns. */
  function KeyCount(cols: seq<Column>): nat {
    |Filter(cols, IsPrimary)|
  }

  /** Column p of the row is the p-th key column of the schema. */
  lemma KeyColumnAt(cols: seq<Column>, p: nat)
    requires p < KeyCount(cols)
    ensures p < |PrimaryFirst(cols)| && PrimaryFirst(cols)[p] == Filter(cols, IsPrimary)[p]
  {
    CatIsConcat(Filter(cols, IsPrimary), Filter(cols, NotPrimary));
  }

  /** Declared bytes before column i. */
  function Declared(cols: seq<Column>, i: nat): nat
    requires i <= |cols|
  {
    if i == 0 then 0 else Declared(cols, i - 1) + cols[i - 1].length
  }

  /** An offset for each column and one for the end. */
  predicate OffsetsOf(offsets: seq<nat>, cols: seq<Column>) {
    |offsets| == |cols| + 1 && forall i :: 0 <= i <= |cols| ==> offsets[i] == Declared(cols, i)
  }

  lemma {:induction false} DeclaredPrefix(cols: seq<Column>, c: Column, i: nat)
    requires i <= |cols|
    ensures Declared(cols + [c], i) == Declared(cols, i)
    decreases i
  {
    if i > 0 {
      DeclaredPrefix(cols, c, i - 1);
    }
  }

  lemma OffsetsGrow(offsets: seq<nat>, cols: seq<Column>, c: Column)
    requires OffsetsOf(offsets, cols)
    ensures OffsetsOf(offsets + [Declared(cols, |cols|) + c.length], cols + [c])
  {
    var longer, n := cols + [c], |cols|;
    forall i | 0 <= i <= n ensures Declared(longer, i) == Declared(cols, i) {
      DeclaredPrefix(cols, c, i);
    }
    assert Declared(longer, n + 1) == Declared(longer, n) + longer[n].length;
  }

  /** One pass over the schema: append the columns that `keep` selects. */
  method Pass(cols: seq<Column>, keep: Column -> bool, placed: seq<Column>, offsets: seq<nat>)
    returns (newPlaced: seq<Column>, newOffsets: seq<nat>)
    requires OffsetsOf(offsets, placed)
    ensures newPlaced == placed + Filter(cols, keep) && OffsetsOf(newOffsets, newPlaced)
  {
    newPlaced, newOffsets := placed, offsets;
    for i := 0 to |cols|
      invariant newPlaced == placed + FilterUpTo(cols, keep, i) && OffsetsOf(newOffsets, newPlaced)
    {
      if keep(cols[i]) {
        OffsetsGrow(newOffsets, newPlaced, cols[i]);
        newOffsets := newOffsets + [newOffsets[|newPlaced|] + cols[i].length];
        newPlaced := newPlaced + [cols[i]];
      }
    }
  }

  /** Two passes: primary key columns, then the others; the last offset is the row's length. */
  method ParseSchema(cols: seq<Column>) returns (placed: seq<Column>, offsets: seq<nat>)
    ensures placed == PrimaryFirst(cols) && OffsetsOf(offsets, placed)
  {
    placed, offsets := Pass(cols, IsPrimary, [], [0]);
    CatIsConcat([], Filter(cols, IsPrimary));
    CatIsConcat(Filter(cols, IsPrimary), Filter(cols, NotPrimary));
    placed, offsets := Pass(cols, NotPrimary, placed, offsets);
  }

  // ---------------------------------------------------------------- rows

  function Length16(lo: int, hi: int): int {
    lo + 256 * hi
  }

  /** Two bytes in memory, read as an unsigned 16-bit integer of a little-endian machine. */
  lemma Length16Is(n: nat)
    requires n < 65536
    ensures Length16(KeyRange.IntBytes(n)[0], KeyRange.IntBytes(n)[1]) == n
  {
  }

  /** The bytes of one column: the declared width, or a length prefix of one byte (two when 256 or
      more are declared) and that many bytes. */
  predicate Encodes(c: Column, enc: seq<Byte>) {
    if c.kind != VarString then |enc| == c.length
    else if c.length < 256 then |enc| >= 1 && |enc| - 1 == enc[0]
    else |enc| >= 2 && |enc| == 2 + Length16(enc[0], enc[1])
  }

  /** A varchar value as the storage engine writes it: its length in one byte if the declared length
      fits one, else in two, least significant first. */
  function VarChar(declared: nat, value: seq<Byte>): seq<Byte>
    requires |value| <= declared < 65536
  {
    if declared <= 255 then [|value|] + value else [|value| % 256, |value| / 256] + value
  }

  lemma VarCharEncodes(c: Column, value: seq<Byte>)
    requires c.kind == VarString && |value| <= c.length < 65536
    ensures Encodes(c, VarChar(c.length, value))
  {
  }

  predicate RowOf(cols: seq<Column>, encs: seq<seq<Byte>>) {
    |encs| == |cols| && forall i :: 0 <= i < |cols| ==> Encodes(cols[i], encs[i])
  }

  /** Where column i really starts. */
  function Start(encs: seq<seq<Byte>>, i: nat): nat
    requires i <= |encs|
  {
    |Flatten(encs[..i])|
  }

  lemma SliceIs(encs: seq<seq<Byte>>, i: nat)
    requires i < |encs|
    ensures Start(encs, i + 1) == Start(encs, i) + |encs[i]| <= |Flatten(encs)|
    ensures Flatten(encs)[Start(encs, i)..Start(encs, i + 1)] == encs[i]
  {
    assert encs == encs[..i + 1] + encs[i + 1..];
    FlattenConcat(encs[..i + 1], encs[i + 1..]);
    assert encs[..i + 1] == encs[..i] + [encs[i]];
    FlattenSnoc(encs[..i], encs[i]);
  }

  lemma ByteOf(encs: seq<seq<Byte>>, i: nat, k: nat)
    requires i < |encs| && k < |encs[i]|
    ensures Start(encs, i) + k < |Flatten(encs)| && Flatten(encs)[Start(encs, i) + k] == encs[i][k]
  {
    SliceIs(encs, i);
    assert Flatten(encs)[Start(encs, i)..Start(encs, i + 1)][k] == Flatten(encs)[Start(encs, i) + k];
  }

  /** The starts of the first n columns; Start(encs, |encs|) is the length of the row. */
  predicate Found(list: seq<int>, encs: seq<seq<Byte>>, n: nat)
    requires n <= |encs| + 1
  {
    |list| == n && forall i :: 0 <= i < n ==> list[i] == Start(encs, i)
  }

  predicate SliceAt(row: seq<Byte>, list: seq<int>, i: nat, enc: seq<Byte>) {
    i + 1 < |list| && 0 <= list[i] <= list[i + 1] <= |row| && row[list[i]..list[i + 1]] == enc
  }

  /** How far column i moves the columns behind it. */
  method Shift(row: seq<Byte>, c: Column, at: nat, ghost encs: seq<seq<Byte>>, ghost i: nat) returns (shift: int)
    requires i < |encs| && row == Flatten(encs) && at == Start(encs, i) && Encodes(c, encs[i])
    ensures shift == |encs[i]| - c.length
  {
    shift := 0;
    if c.kind == VarString {
      ByteOf(encs, i, 0);
      if c.length < 256 {
        shift := row[at] + (1 - c.length);
      } else {
        ByteOf(encs, i, 1);
        shift := Length16(row[at], row[at + 1]) + 2 - c.length;
      }
    }
  }

  method ColumnOffsets(row: seq<Byte>, cols: seq<Column>, offsets: seq<nat>, ghost encs: seq<seq<Byte>>)
    returns (list: seq<int>)
    requires RowOf(cols, encs) && row == Flatten(encs) && OffsetsOf(offsets, cols)
    ensures Found(list, encs, |cols|)
  {
    var tune := 0;
    list := [];
    assert encs[..0] == [];
    for i := 0 to |cols|
      invariant tune == Start(encs, i) - Declared(cols, i) && Found(list, encs, i)
    {
      var newOffset := offsets[i] + tune;
      var shift := Shift(row, cols[i], newOffset, encs, i);
      SliceIs(encs, i);
      tune := tune + shift;
      list := list + [newOffset];
    }
  }

  predicate NoVarString(cols: seq<Column>) {
    forall i :: 0 <= i < |cols| ==> cols[i].kind != VarString
  }

  lemma {:induction false} DeclaredIsReal(cols: seq<Column>, encs: seq<seq<Byte>>, i: nat)
    requires RowOf(cols, encs) && NoVarString(cols) && i <= |cols|
    ensures Start(encs, i) == Declared(cols, i)
    decreases i
  {
    if i == 0 {
      assert encs[..0] == [];
    } else {
      DeclaredIsReal(cols, encs, i - 1);
      SliceIs(encs, i - 1);
    }
  }

  /** The offsets a stage works with: recomputed for every row and closed with the row's length when
      the schema has a varchar, the declared ones otherwise. Either way the slices between them are
      exactly the columns. */
  method RowOffsets(row: seq<Byte>, cols: seq<Column>, offsets: seq<nat>, hasVarChar: bool, ghost encs: seq<seq<Byte>>)
    returns (list: seq<int>)
    requires RowOf(cols, encs) && row == Flatten(encs) && OffsetsOf(offsets, cols)
    requires !hasVarChar ==> NoVarString(cols)
    ensures Found(list, encs, |cols| + 1)
    ensures forall i :: 0 <= i < |cols| ==> SliceAt(row, list, i, encs[i])
  {
    if hasVarChar {
      list := ColumnOffsets(row, cols, offsets, encs);
      assert encs[..|encs|] == encs;
      list := list + [|row|];
    } else {
      forall i | 0 <= i <= |cols| ensures Start(encs, i) == Declared(cols, i) {
        DeclaredIsReal(cols, encs, i);
      }
      list := offsets;
    }
    forall i | 0 <= i < |cols| ensures SliceAt(row, list, i, encs[i]) {
      SliceIs(encs, i);
    }
  }
}
