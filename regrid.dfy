/** `interp2d_array` (tools/pre_function.py:133-141): put a 2-D array into
    (y, x) order, fill its gaps, and interpolate it onto a new grid. Only the
    orientation step is the program's own logic; filling and interpolation are
    library numerics, given as `regrid`: the value at one new (y, x) point of
    the oriented array on its (yy, xx) grid. An array is given with its column
    count, so that an array with no rows still has a shape. */
module Regrid {
  import opened Cells
  import opened Results

  /** `data.T` for an array of `rows` rows and `cols` columns. */
  function Transpose(data: Field, rows: nat, cols: nat): (t: Field)
    requires HasShape(data, rows, cols)
    ensures HasShape(t, cols, rows)
    ensures forall i, j :: 0 <= i < cols && 0 <= j < rows ==> t[i][j] == data[j][i]
  {
    seq(cols, i requires 0 <= i < cols => seq(rows, j requires 0 <= j < rows => data[j][i]))
  }

  /** Transposing twice gives the array back. */
  lemma TransposeTwice(data: Field, rows: nat, cols: nat)
    requires HasShape(data, rows, cols)
    ensures Transpose(Transpose(data, rows, cols), cols, rows) == data
  {
    var t := Transpose(Transpose(data, rows, cols), cols, rows);
    forall j | 0 <= j < rows ensures t[j] == data[j] { }
  }

  /** The shape of an oriented array: rows and columns. */
  datatype Oriented = Oriented(data: Field, rows: nat, cols: nat)

  /** Lines 134-135: transpose exactly when the row count differs from `ny`. */
  function Orient(data: Field, cols: nat, ny: nat): (o: Oriented)
    requires IsRect(data, cols)
    ensures HasShape(o.data, o.rows, o.cols)
    ensures |data| == ny ==> o.data == data && o.rows == |data| && o.cols == cols
    ensures |data| != ny ==> (o.rows == cols && o.cols == |data| &&
      forall i, j :: 0 <= i < cols && 0 <= j < |data| ==> o.data[i][j] == data[j][i])
  {
    if |data| != ny then Oriented(Transpose(data, |data|, cols), cols, |data|) else Oriented(data, |data|, cols)
  }

  /** An array given in (x, y) order with nx != ny comes out in (y, x) order,
      entry (i, j) being the original entry (j, i). */
  lemma OrientSwapsXY(data: Field, nx: nat, ny: nat)
    requires HasShape(data, nx, ny) && nx != ny
    ensures Orient(data, ny, ny).rows == ny && Orient(data, ny, ny).cols == nx
    ensures forall i, j :: 0 <= i < ny && 0 <= j < nx ==> Orient(data, ny, ny).data[i][j] == data[j][i]
  {
  }

  /** An array already in (y, x) order is left alone. */
  lemma OrientKeepsYX(data: Field, nx: nat, ny: nat)
    requires HasShape(data, ny, nx)
    ensures Orient(data, nx, ny).data == data
  {
  }

  /** Orienting an oriented array changes nothing more when its row count is
      then `ny`; the guard transposes at most once per call. */
  lemma OrientIdempotent(data: Field, cols: nat, ny: nat)
    requires IsRect(data, cols)
    requires Orient(data, cols, ny).rows == ny
    ensures Orient(Orient(data, cols, ny).data, Orient(data, cols, ny).cols, ny) == Orient(data, cols, ny)
  {
  }

  /** A square array is never transposed, even when it was given in (x, y)
      order: the guard cannot tell the two orders apart. */
  lemma SquareNeverTransposed(data: Field, n: nat)
    requires HasShape(data, n, n)
    ensures Orient(data, n, n).data == data
  {
  }

  /** `xr.DataArray(data, coords=[yy, xx])` rejects an array whose shape is not
      (len(yy), len(xx)). */
  datatype RegridError = GridMismatch(rows: nat, cols: nat)

  /** `interp2d_array`: the interpolated array on the (yyNew, xxNew) grid, or
      the shape error of line 136. */
  function Interp2dArray(xx: seq<real>, yy: seq<real>, data: Field, cols: nat, xxNew: seq<real>, yyNew: seq<real>,
                         regrid: (Field, seq<real>, seq<real>, real, real) -> Cell): (r: Result<Field, RegridError>)
    requires IsRect(data, cols)
    ensures r.Ok? <==> Orient(data, cols, |yy|).rows == |yy| && Orient(data, cols, |yy|).cols == |xx|
    ensures r.Err? ==> r.error == GridMismatch(Orient(data, cols, |yy|).rows, Orient(data, cols, |yy|).cols)
    ensures r.Ok? ==> HasShape(r.value, |yyNew|, |xxNew|)
    ensures r.Ok? ==> forall i, j :: 0 <= i < |yyNew| && 0 <= j < |xxNew| ==>
      r.value[i][j] == regrid(Orient(data, cols, |yy|).data, yy, xx, yyNew[i], xxNew[j])
  {
    var o := Orient(data, cols, |yy|);
    if o.rows != |yy| || o.cols != |xx| then Err(GridMismatch(o.rows, o.cols))
    else Ok(seq(|yyNew|, i requires 0 <= i < |yyNew| =>
              seq(|xxNew|, j requires 0 <= j < |xxNew| => regrid(o.data, yy, xx, yyNew[i], xxNew[j]))))
  }

  /** An array matching the grid in either order is accepted. */
  lemma Interp2dArrayAccepts(xx: seq<real>, yy: seq<real>, data: Field, xxNew: seq<real>, yyNew: seq<real>,
                             regrid: (Field, seq<real>, seq<real>, real, real) -> Cell)
    requires HasShape(data, |yy|, |xx|) || (HasShape(data, |xx|, |yy|) && |xx| != |yy|)
    ensures Interp2dArray(xx, yy, data, if |data| == |yy| then |xx| else |yy|, xxNew, yyNew, regrid).Ok?
  {
  }

  /** An array of any other shape is rejected. */
  lemma Interp2dArrayRejects(xx: seq<real>, yy: seq<real>, data: Field, cols: nat, xxNew: seq<real>, yyNew: seq<real>,
                             regrid: (Field, seq<real>, seq<real>, real, real) -> Cell)
    requires HasShape(data, |data|, cols)
    requires !(|data| == |yy| && cols == |xx|) && !(|data| == |xx| && cols == |yy|)
    ensures Interp2dArray(xx, yy, data, cols, xxNew, yyNew, regrid).Err?
  {
  }
}
