/** Grid cells, fields and the shape predicates shared by every component.
    A numpy float array holds either a number or not-a-number; a Cell says which. */
module Cells {

  /** One grid value: missing (not-a-number) or a real number. */
  datatype Cell = NaN | Val(v: real)

  /** A 2-D field, row by row. */
  type Field = seq<seq<Cell>>

  /** Every row of `f` has `cols` entries. */
  predicate IsRect<T>(f: seq<seq<T>>, cols: nat)
  {
    forall i :: 0 <= i < |f| ==> |f[i]| == cols
  }

  /** `f` has `rows` rows of `cols` entries each. */
  predicate HasShape<T>(f: seq<seq<T>>, rows: nat, cols: nat)
  {
    |f| == rows && IsRect(f, cols)
  }

  /** The contents of a 2-D array as a field. */
  ghost function Snapshot(a: array2<Cell>): (f: Field)
    reads a
    ensures HasShape(f, a.Length0, a.Length1)
    ensures forall i, j :: 0 <= i < a.Length0 && 0 <= j < a.Length1 ==> f[i][j] == a[i, j]
  {
    seq(a.Length0, i requires 0 <= i < a.Length0 reads a => seq(a.Length1, j requires 0 <= j < a.Length1 reads a => a[i, j]))
  }

  /** A fresh 2-D array holding `f`. */
  method ToArray(f: Field, rows: nat, cols: nat) returns (a: array2<Cell>)
    requires HasShape(f, rows, cols)
    ensures fresh(a)
    ensures a.Length0 == rows && a.Length1 == cols
    ensures Snapshot(a) == f
  {
    a := new Cell[rows, cols];
    var i := 0;
    while i < rows
      invariant 0 <= i <= rows
      invariant forall p, q :: 0 <= p < i && 0 <= q < cols ==> a[p, q] == f[p][q]
    {
      var j := 0;
      while j < cols
        invariant 0 <= j <= cols
        invariant forall p, q :: 0 <= p < i && 0 <= q < cols ==> a[p, q] == f[p][q]
        invariant forall q :: 0 <= q < j ==> a[i, q] == f[i][q]
      {
        a[i, j] := f[i][j];
        j := j + 1;
      }
      i := i + 1;
    }
    SnapshotIs(a, f);
  }

  /** The contents of a 2-D array, read back as a field. */
  method FromArray(a: array2<Cell>) returns (f: Field)
    ensures f == Snapshot(a)
  {
    f := [];
    var i := 0;
    while i < a.Length0
      invariant 0 <= i <= a.Length0
      invariant |f| == i
      invariant IsRect(f, a.Length1)
      invariant forall p, q :: 0 <= p < i && 0 <= q < a.Length1 ==> f[p][q] == a[p, q]
    {
      var row := seq(a.Length1, j requires 0 <= j < a.Length1 reads a => a[i, j]);
      f := f + [row];
      i := i + 1;
    }
    SnapshotIs(a, f);
  }

  /** Two fields with the same shape and the same cells are equal. */
  lemma SnapshotIs(a: array2<Cell>, f: Field)
    requires HasShape(f, a.Length0, a.Length1)
    requires forall i, j :: 0 <= i < a.Length0 && 0 <= j < a.Length1 ==> f[i][j] == a[i, j]
    ensures Snapshot(a) == f
  {
    var s := Snapshot(a);
    forall i | 0 <= i < a.Length0 ensures s[i] == f[i] { }
  }
}
