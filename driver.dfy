/** The array steps of the preprocessing script (mld_preprocessing.py): the
    longitude filter, marking land as 0 before regridding, the stride-10 coarse
    grid, blanking land on the coarse grid, the [0,500] quality-control clamp,
    deriving a land mask from a regridded day and tiling it over three days.
    Fields are indexed [latitude][longitude], as the script's arrays are.
    Boolean-index assignments (`a[m] = c`) are in-place updates of a 2-D array. */
module Driver {
  import opened Cells
  import opened Results
  import opened Regrid
  import opened Sorting
  import CoordNames
  import Longitude

  // ---- line 15: lon_sel = lon[lon > 120] ----

  /** The positions of the longitudes east of 120, in ascending order. */
  function EastIndices(lon: seq<real>): (ix: seq<nat>)
    ensures forall k :: 0 <= k < |ix| ==> ix[k] < |lon| && lon[ix[k]] > 120.0
    ensures forall k, l :: 0 <= k < l < |ix| ==> ix[k] < ix[l]
    ensures forall i :: 0 <= i < |lon| && lon[i] > 120.0 ==> i in ix
    decreases |lon|
  {
    if lon == [] then []
    else
      var rest := EastIndices(lon[..|lon| - 1]);
      if lon[|lon| - 1] > 120.0 then rest + [|lon| - 1] else rest
  }

  /** `lon[lon > 120]`: the longitudes east of 120, in their original order. */
  function SelectEast(lon: seq<real>): (r: seq<real>)
    ensures |r| == |EastIndices(lon)|
    ensures forall k :: 0 <= k < |r| ==> r[k] == lon[EastIndices(lon)[k]]
  {
    var ix := EastIndices(lon);
    seq(|ix|, k requires 0 <= k < |ix| => lon[ix[k]])
  }

  /** Every selected longitude is east of 120, every longitude east of 120 is
      selected, and the selection keeps the original order. */
  lemma SelectEastProps(lon: seq<real>)
    ensures forall k :: 0 <= k < |SelectEast(lon)| ==> SelectEast(lon)[k] > 120.0
    ensures forall x :: x in lon && x > 120.0 ==> x in SelectEast(lon)
    ensures forall x :: x in SelectEast(lon) ==> x in lon
    ensures Sorted(lon) ==> Sorted(SelectEast(lon))
  {
    var ix := EastIndices(lon);
    var r := SelectEast(lon);
    forall x | x in lon && x > 120.0 ensures x in r {
      var i :| 0 <= i < |lon| && lon[i] == x;
      var k :| 0 <= k < |ix| && ix[k] == i;
      assert r[k] == x;
    }
    if Sorted(lon) {
      forall k, l | 0 <= k < l < |r| ensures r[k] <= r[l] {
        assert ix[k] < ix[l];
      }
    }
  }

  /** A longitude filter over the whole record drops nothing it should keep:
      the selection of an all-eastern record is the record itself. */
  lemma {:induction false} SelectEastAllEast(lon: seq<real>)
    requires forall i :: 0 <= i < |lon| ==> lon[i] > 120.0
    ensures SelectEast(lon) == lon
  {
    if lon != [] {
      SelectEastAllEast(lon[..|lon| - 1]);
      assert EastIndices(lon) == EastIndices(lon[..|lon| - 1]) + [|lon| - 1];
      assert |EastIndices(lon[..|lon| - 1])| == |lon| - 1;
      forall k | 0 <= k < |lon| - 1 ensures EastIndices(lon)[k] == k {
        assert SelectEast(lon[..|lon| - 1])[k] == lon[..|lon| - 1][EastIndices(lon[..|lon| - 1])[k]];
        IndicesIdentity(lon[..|lon| - 1], k);
      }
    }
  }

  /** For an all-eastern record the positions are 0, 1, 2, ... */
  lemma {:induction false} IndicesIdentity(lon: seq<real>, k: nat)
    requires forall i :: 0 <= i < |lon| ==> lon[i] > 120.0
    requires k < |lon|
    ensures |EastIndices(lon)| == |lon| && EastIndices(lon)[k] == k
    decreases |lon|
  {
    var init := lon[..|lon| - 1];
    assert lon[|lon| - 1] > 120.0;
    assert EastIndices(lon) == EastIndices(init) + [|lon| - 1];
    if |lon| == 1 {
      assert init == [];
    } else {
      assert forall i :: 0 <= i < |init| ==> init[i] == lon[i];
      IndicesIdentity(init, if k < |lon| - 1 then k else 0);
      if k < |lon| - 1 {
        assert EastIndices(lon)[k] == EastIndices(init)[k];
      }
    }
  }

  // ---- lines 34, 39, 43: every 10th grid point ----

  /** `s[::10]`. */
  function Every10<T>(s: seq<T>): (r: seq<T>)
    ensures |r| == (|s| + 9) / 10
    ensures forall i :: 0 <= i < |r| ==> 10 * i < |s| && r[i] == s[10 * i]
  {
    seq((|s| + 9) / 10, i requires 0 <= i < (|s| + 9) / 10 => s[10 * i])
  }

  /** Every element of `s` at a multiple of 10 is kept, and nothing else. */
  lemma Every10Keeps<T>(s: seq<T>, p: nat)
    requires p < |s|
    ensures p % 10 == 0 <==> p / 10 < |Every10(s)| && Every10(s)[p / 10] == s[p] && 10 * (p / 10) == p
  {
  }

  /** `m[::10, ::10]`: every 10th row, every 10th column. */
  function Every10x10<T>(m: seq<seq<T>>, cols: nat): (r: seq<seq<T>>)
    requires IsRect(m, cols)
    ensures HasShape(r, (|m| + 9) / 10, (cols + 9) / 10)
    ensures forall i, j :: 0 <= i < |r| && 0 <= j < (cols + 9) / 10 ==>
      10 * i < |m| && 10 * j < cols && r[i][j] == m[10 * i][10 * j]
  {
    var rows := Every10(m);
    seq(|rows|, i requires 0 <= i < |rows| => Every10(rows[i]))
  }

  // ---- lines 26-28, 43-44: boolean masks and masked assignment ----

  predicate SameShape<T, U>(a: seq<seq<T>>, b: seq<seq<U>>)
  {
    |a| == |b| && forall i :: 0 <= i < |a| ==> |a[i]| == |b[i]|
  }

  /** `np.isnan(f)`. */
  function NaNMask(f: Field): (m: seq<seq<bool>>)
    ensures SameShape(m, f)
    ensures forall i, j :: 0 <= i < |f| && 0 <= j < |f[i]| ==> (m[i][j] <==> f[i][j] == NaN)
  {
    seq(|f|, i requires 0 <= i < |f| => seq(|f[i]|, j requires 0 <= j < |f[i]| => f[i][j] == NaN))
  }

  /** `f[m] = c` on values. */
  function SetAt(f: Field, m: seq<seq<bool>>, c: Cell): (r: Field)
    requires SameShape(m, f)
    ensures SameShape(r, f)
  {
    seq(|f|, i requires 0 <= i < |f| => seq(|f[i]|, j requires 0 <= j < |f[i]| => if m[i][j] then c else f[i][j]))
  }

  /** `a[m] = c`, in place: exactly the marked cells become `c`. */
  method SetWhere(a: array2<Cell>, m: seq<seq<bool>>, c: Cell)
    requires HasShape(m, a.Length0, a.Length1)
    modifies a
    ensures forall i, j :: 0 <= i < a.Length0 && 0 <= j < a.Length1 ==>
      a[i, j] == if m[i][j] then c else old(a[i, j])
    ensures SameShape(m, old(Snapshot(a))) && Snapshot(a) == SetAt(old(Snapshot(a)), m, c)
  {
    for i := 0 to a.Length0
      invariant forall p, q :: 0 <= p < i && 0 <= q < a.Length1 ==> a[p, q] == if m[p][q] then c else old(a[p, q])
      invariant forall p, q :: i <= p < a.Length0 && 0 <= q < a.Length1 ==> a[p, q] == old(a[p, q])
    {
      for j := 0 to a.Length1
        invariant forall p, q :: 0 <= p < i && 0 <= q < a.Length1 ==> a[p, q] == if m[p][q] then c else old(a[p, q])
        invariant forall q :: 0 <= q < j ==> a[i, q] == if m[i][q] then c else old(a[i, q])
        invariant forall p, q :: i <= p < a.Length0 && 0 <= q < a.Length1 && (p > i || q >= j) ==> a[p, q] == old(a[p, q])
      {
        if m[i][j] {
          a[i, j] := c;
        }
      }
    }
    ghost var before := old(Snapshot(a));
    SnapshotIs(a, SetAt(before, m, c));
  }

  /** Lines 26-28 on values: after marking land as 0 the field has no missing
      value left, the land cells hold 0 and every other cell is unchanged. */
  lemma ZeroLandProps(f: Field)
    ensures forall i, j :: 0 <= i < |f| && 0 <= j < |f[i]| ==>
      SetAt(f, NaNMask(f), Val(0.0))[i][j] == if f[i][j] == NaN then Val(0.0) else f[i][j]
    ensures forall i, j :: 0 <= i < |f| && 0 <= j < |f[i]| ==> SetAt(f, NaNMask(f), Val(0.0))[i][j] != NaN
  {
  }

  /** Lines 26-28: mark the missing cells of `var1`, and set them to 0 in both
      fields. */
  method ZeroLand(var1: array2<Cell>, var2: array2<Cell>) returns (mask: seq<seq<bool>>)
    requires var1 != var2
    requires var2.Length0 == var1.Length0 && var2.Length1 == var1.Length1
    modifies var1, var2
    ensures mask == NaNMask(old(Snapshot(var1)))
    ensures HasShape(mask, var1.Length0, var1.Length1)
    ensures forall i, j :: 0 <= i < var1.Length0 && 0 <= j < var1.Length1 ==>
      var1[i, j] == (if mask[i][j] then Val(0.0) else old(var1[i, j])) &&
      var2[i, j] == (if mask[i][j] then Val(0.0) else old(var2[i, j]))
    ensures Snapshot(var1) == SetAt(old(Snapshot(var1)), mask, Val(0.0))
    ensures Snapshot(var2) == SetAt(old(Snapshot(var2)), mask, Val(0.0))
  {
    var f := FromArray(var1);
    mask := NaNMask(f);
    SetWhere(var1, mask, Val(0.0));
    SetWhere(var2, mask, Val(0.0));
  }

  // ---- lines 46-49 and 107-110: the quality-control clamp ----

  /** `a[a > 500] = 500` on one cell; a missing value compares false. */
  function Cap(c: Cell): Cell
  {
    if c.Val? && c.v > 500.0 then Val(500.0) else c
  }

  /** `a[a < 0] = 0` on one cell. */
  function Floor(c: Cell): Cell
  {
    if c.Val? && c.v < 0.0 then Val(0.0) else c
  }

  /** The clamp to [0,500], stated on its own terms. */
  function ClampCell(c: Cell): (r: Cell)
  {
    match c
    case NaN => NaN
    case Val(v) => Val(if v > 500.0 then 500.0 else if v < 0.0 then 0.0 else v)
  }

  /** Capping then flooring is the clamp; a missing value stays missing, every
      other value lands in [0,500], values already there are unchanged. */
  lemma ClampProps(c: Cell)
    ensures Floor(Cap(c)) == ClampCell(c)
    ensures ClampCell(c) == NaN <==> c == NaN
    ensures ClampCell(c).Val? ==> 0.0 <= ClampCell(c).v <= 500.0
    ensures c.Val? && 0.0 <= c.v <= 500.0 ==> ClampCell(c) == c
    ensures ClampCell(ClampCell(c)) == ClampCell(c)
  {
  }

  function MapCells(g: Cell -> Cell, f: Field): (r: Field)
    ensures SameShape(r, f)
    ensures forall i, j :: 0 <= i < |f| && 0 <= j < |f[i]| ==> r[i][j] == g(f[i][j])
  {
    seq(|f|, i requires 0 <= i < |f| => seq(|f[i]|, j requires 0 <= j < |f[i]| => g(f[i][j])))
  }

  /** Mapping twice is mapping the composition. */
  lemma MapCellsCompose(g: Cell -> Cell, h: Cell -> Cell, k: Cell -> Cell, f: Field)
    requires forall c :: k(c) == h(g(c))
    ensures MapCells(h, MapCells(g, f)) == MapCells(k, f)
  {
    var l := MapCells(h, MapCells(g, f));
    var r := MapCells(k, f);
    forall i | 0 <= i < |f| ensures l[i] == r[i] { }
  }

  /** The clamped field: missing cells stay missing, every other cell is in
      [0,500], and clamping again changes nothing. */
  lemma ClampFieldProps(f: Field)
    ensures forall i, j :: 0 <= i < |f| && 0 <= j < |f[i]| ==>
      (MapCells(ClampCell, f)[i][j] == NaN <==> f[i][j] == NaN) &&
      (MapCells(ClampCell, f)[i][j].Val? ==> 0.0 <= MapCells(ClampCell, f)[i][j].v <= 500.0)
    ensures MapCells(ClampCell, MapCells(ClampCell, f)) == MapCells(ClampCell, f)
  {
    forall c ensures ClampCell(ClampCell(c)) == ClampCell(c) { ClampProps(c); }
    MapCellsCompose(ClampCell, ClampCell, ClampCell, f);
  }

  /** One boolean-indexed update `a[cond(a)] = value`, in place. */
  method MapInPlace(a: array2<Cell>, g: Cell -> Cell)
    modifies a
    ensures forall i, j :: 0 <= i < a.Length0 && 0 <= j < a.Length1 ==> a[i, j] == g(old(a[i, j]))
    ensures Snapshot(a) == MapCells(g, old(Snapshot(a)))
  {
    for i := 0 to a.Length0
      invariant forall p, q :: 0 <= p < i && 0 <= q < a.Length1 ==> a[p, q] == g(old(a[p, q]))
      invariant forall p, q :: i <= p < a.Length0 && 0 <= q < a.Length1 ==> a[p, q] == old(a[p, q])
    {
      for j := 0 to a.Length1
        invariant forall p, q :: 0 <= p < i && 0 <= q < a.Length1 ==> a[p, q] == g(old(a[p, q]))
        invariant forall q :: 0 <= q < j ==> a[i, q] == g(old(a[i, q]))
        invariant forall p, q :: i <= p < a.Length0 && 0 <= q < a.Length1 && (p > i || q >= j) ==> a[p, q] == old(a[p, q])
      {
        a[i, j] := g(a[i, j]);
      }
    }
    ghost var before := old(Snapshot(a));
    SnapshotIs(a, MapCells(g, before));
  }

  /** Lines 46-49 (and 107-110): cap both fields at 500, then floor both at 0. */
  method QualityControl(var1: array2<Cell>, var2: array2<Cell>)
    requires var1 != var2
    modifies var1, var2
    ensures Snapshot(var1) == MapCells(ClampCell, old(Snapshot(var1)))
    ensures Snapshot(var2) == MapCells(ClampCell, old(Snapshot(var2)))
  {
    ghost var f1 := Snapshot(var1);
    ghost var f2 := Snapshot(var2);
    MapInPlace(var1, Cap);
    MapInPlace(var2, Cap);
    MapInPlace(var1, Floor);
    MapInPlace(var2, Floor);
    forall c ensures ClampCell(c) == Floor(Cap(c)) { ClampProps(c); }
    MapCellsCompose(Cap, Floor, ClampCell, f1);
    MapCellsCompose(Cap, Floor, ClampCell, f2);
  }

  // ---- lines 19-49: one day on the coarse grid ----

  /** The two coarse fields of one day, on values: land marked 0, both fields
      regridded onto every 10th longitude and latitude, land blanked on the
      coarse grid, then clamped. */
  function DaySpec(f1: Field, f2: Field, lonSel: seq<real>, lat: seq<real>,
                   regrid: (Field, seq<real>, seq<real>, real, real) -> Cell): (r: (Field, Field))
    requires HasShape(f1, |lat|, |lonSel|) && HasShape(f2, |lat|, |lonSel|)
    ensures HasShape(r.0, |Every10(lat)|, |Every10(lonSel)|) && HasShape(r.1, |Every10(lat)|, |Every10(lonSel)|)
  {
    var mask := NaNMask(f1);
    var z1 := SetAt(f1, mask, Val(0.0));
    var z2 := SetAt(f2, mask, Val(0.0));
    var coarse := Every10x10(mask, |lonSel|);
    var i1 := Interp2dArray(lonSel, lat, z1, |lonSel|, Every10(lonSel), Every10(lat), regrid);
    var i2 := Interp2dArray(lonSel, lat, z2, |lonSel|, Every10(lonSel), Every10(lat), regrid);
    OrientKeepsYX(z1, |lonSel|, |lat|);
    OrientKeepsYX(z2, |lonSel|, |lat|);
    (MapCells(ClampCell, SetAt(i1.value, coarse, NaN)), MapCells(ClampCell, SetAt(i2.value, coarse, NaN)))
  }

  /** A coarse cell of either field is missing exactly where the fine-grid
      land mask is set at the matching fine point (10i, 10j), or where the
      regridded value itself is missing; every other coarse cell is the
      clamped regridded value, so lies in [0,500]. */
  lemma DaySpecCells(f1: Field, f2: Field, lonSel: seq<real>, lat: seq<real>,
                     regrid: (Field, seq<real>, seq<real>, real, real) -> Cell, i: nat, j: nat)
    requires HasShape(f1, |lat|, |lonSel|) && HasShape(f2, |lat|, |lonSel|)
    requires i < |Every10(lat)| && j < |Every10(lonSel)|
    ensures 10 * i < |lat| && 10 * j < |lonSel|
    ensures HasShape(DaySpec(f1, f2, lonSel, lat, regrid).0, |Every10(lat)|, |Every10(lonSel)|)
    ensures HasShape(DaySpec(f1, f2, lonSel, lat, regrid).1, |Every10(lat)|, |Every10(lonSel)|)
    ensures DaySpec(f1, f2, lonSel, lat, regrid).0[i][j] ==
      if f1[10 * i][10 * j] == NaN then NaN
      else ClampCell(regrid(SetAt(f1, NaNMask(f1), Val(0.0)), lat, lonSel, Every10(lat)[i], Every10(lonSel)[j]))
    ensures DaySpec(f1, f2, lonSel, lat, regrid).1[i][j] ==
      if f1[10 * i][10 * j] == NaN then NaN
      else ClampCell(regrid(SetAt(f2, NaNMask(f1), Val(0.0)), lat, lonSel, Every10(lat)[i], Every10(lonSel)[j]))
    ensures DaySpec(f1, f2, lonSel, lat, regrid).0[i][j].Val? ==>
      0.0 <= DaySpec(f1, f2, lonSel, lat, regrid).0[i][j].v <= 500.0
  {
    var mask := NaNMask(f1);
    OrientKeepsYX(SetAt(f1, mask, Val(0.0)), |lonSel|, |lat|);
    OrientKeepsYX(SetAt(f2, mask, Val(0.0)), |lonSel|, |lat|);
    ClampProps(regrid(SetAt(f1, mask, Val(0.0)), lat, lonSel, Every10(lat)[i], Every10(lonSel)[j]));
  }

  /** Lines 19-49 for one date: `var1` and `var2` are the two variables read
      for that date, in (latitude, longitude) order; both are updated in place
      by lines 27-28, and the coarse, clamped fields are returned. */
  method ProcessDay(var1: array2<Cell>, var2: array2<Cell>, lonSel: seq<real>, lat: seq<real>,
                    regrid: (Field, seq<real>, seq<real>, real, real) -> Cell) returns (r: (Field, Field))
    requires var1 != var2
    requires var1.Length0 == |lat| && var1.Length1 == |lonSel|
    requires var2.Length0 == |lat| && var2.Length1 == |lonSel|
    modifies var1, var2
    ensures Snapshot(var1) == SetAt(old(Snapshot(var1)), NaNMask(old(Snapshot(var1))), Val(0.0))
    ensures Snapshot(var2) == SetAt(old(Snapshot(var2)), NaNMask(old(Snapshot(var1))), Val(0.0))
    ensures r == DaySpec(old(Snapshot(var1)), old(Snapshot(var2)), lonSel, lat, regrid)
  {
    ghost var f1 := Snapshot(var1);
    ghost var f2 := Snapshot(var2);
    var mask := ZeroLand(var1, var2);
    var z1 := FromArray(var1);
    var z2 := FromArray(var2);
    var r1 := Interp2dArray(lonSel, lat, z1, |lonSel|, Every10(lonSel), Every10(lat), regrid);
    var r2 := Interp2dArray(lonSel, lat, z2, |lonSel|, Every10(lonSel), Every10(lat), regrid);
    OrientKeepsYX(z1, |lonSel|, |lat|);
    OrientKeepsYX(z2, |lonSel|, |lat|);
    var coarse := Every10x10(mask, |lonSel|);
    var a1 := ToArray(r1.value, |Every10(lat)|, |Every10(lonSel)|);
    var a2 := ToArray(r2.value, |Every10(lat)|, |Every10(lonSel)|);
    SetWhere(a1, coarse, NaN);
    SetWhere(a2, coarse, NaN);
    QualityControl(a1, a2);
    var c1 := FromArray(a1);
    var c2 := FromArray(a2);
    r := (c1, c2);
  }

  // ---- lines 78 and 82: the mask file ----

  /** `np.int64(f == 0)`: 1 where the field is exactly 0, 0 elsewhere,
      including at missing values, which compare unequal to everything. */
  function DeriveMask(f: Field): (m: seq<seq<int>>)
    ensures SameShape(m, f)
    ensures forall i, j :: 0 <= i < |f| && 0 <= j < |f[i]| ==> (m[i][j] == 1 <==> f[i][j] == Val(0.0))
    ensures forall i, j :: 0 <= i < |f| && 0 <= j < |f[i]| ==> m[i][j] == 0 || m[i][j] == 1
  {
    seq(|f|, i requires 0 <= i < |f| => seq(|f[i]|, j requires 0 <= j < |f[i]| => if f[i][j] == Val(0.0) then 1 else 0))
  }

  /** For a day produced by lines 19-49 the derived mask never marks a land
      point: land was blanked to a missing value at line 43, and a missing
      value is not 0. It marks exactly the sea points clamped or regridded to 0. */
  lemma DerivedMaskSkipsLand(f1: Field, f2: Field, lonSel: seq<real>, lat: seq<real>,
                             regrid: (Field, seq<real>, seq<real>, real, real) -> Cell, i: nat, j: nat)
    requires HasShape(f1, |lat|, |lonSel|) && HasShape(f2, |lat|, |lonSel|)
    requires i < |Every10(lat)| && j < |Every10(lonSel)|
    ensures 10 * i < |lat| && 10 * j < |lonSel|
    ensures i < |DeriveMask(DaySpec(f1, f2, lonSel, lat, regrid).0)|
    ensures j < |DeriveMask(DaySpec(f1, f2, lonSel, lat, regrid).0)[i]|
    ensures f1[10 * i][10 * j] == NaN ==> DeriveMask(DaySpec(f1, f2, lonSel, lat, regrid).0)[i][j] == 0
  {
    DaySpecCells(f1, f2, lonSel, lat, regrid, i, j);
  }

  /** `np.tile(mask, (n, 1, 1))`: `n` time slices, each the mask. */
  function Tile<T>(mask: seq<seq<T>>, n: nat): (t: seq<seq<seq<T>>>)
    ensures |t| == n && forall k :: 0 <= k < n ==> t[k] == mask
  {
    seq(n, k requires 0 <= k < n => mask)
  }

  /** Line 82: the mask file holds three identical slices, one per day. */
  lemma TileThree<T>(mask: seq<seq<T>>)
    ensures Tile(mask, 3) == [mask, mask, mask]
  {
  }

  // ---- lines 92-110: regrid onto the mask grid, then the clamp ----

  /** The two variables the script regrids onto the mask grid. */
  const MldNames: seq<string> := ["MLD_Tdiff_est", "MLD_Tdiff_dia"]

  /** Lines 92-110: both variables regridded onto the mask grid by `interp2d_nc`
      as written, then clamped to [0,500]. `interp2d_nc` shifts and restores the
      mask longitudes it loaded itself, so the call works on a copy of them. */
  method FinalPass<A>(src: CoordNames.Source<A>, lonMask: array<real>, latMask: seq<real>, landmask: seq<seq<int>>,
                      interp: (string, real, real) -> Cell) returns (r: Result<(Field, Field), CoordNames.ReadError>)
    requires HasShape(landmask, lonMask.Length, |latMask|)
    ensures r.Ok? <==> (src.LonName() in src.coords && |src.coords[src.LonName()]| > 0 &&
      Longitude.CallError(src, MldNames[0]).None? && Longitude.CallError(src, MldNames[1]).None?)
    ensures r.Ok? && !Longitude.HasNegative(src.coords[src.LonName()]) ==>
      r.value == (MapCells(ClampCell, Longitude.PlainOutput(interp, MldNames[0], lonMask[..], latMask, landmask).data),
                  MapCells(ClampCell, Longitude.PlainOutput(interp, MldNames[1], lonMask[..], latMask, landmask).data))
    ensures r.Ok? && Longitude.HasNegative(src.coords[src.LonName()]) ==>
      r.value == (MapCells(ClampCell, ShiftedFinal(interp, MldNames[0], 0, lonMask[..], latMask, landmask)),
                  MapCells(ClampCell, ShiftedFinal(interp, MldNames[1], 1, lonMask[..], latMask, landmask)))
  {
    var copy := new real[lonMask.Length](i requires 0 <= i < lonMask.Length reads lonMask => lonMask[i]);
    assert copy[..] == lonMask[..];
    var outs := Longitude.Interp2dNc(src, MldNames, copy, latMask, landmask, interp);
    if outs.Err? {
      return Err(outs.error);
    }
    var g1, g2 := outs.value[0], outs.value[1];
    assert HasShape(g1.data, lonMask.Length, |latMask|) && HasShape(g2.data, lonMask.Length, |latMask|);
    var a1 := ToArray(g1.data, lonMask.Length, |latMask|);
    var a2 := ToArray(g2.data, lonMask.Length, |latMask|);
    QualityControl(a1, a2);
    var c1 := FromArray(a1);
    var c2 := FromArray(a2);
    r := Ok((c1, c2));
  }

  /** The regridded field of variable `v` from pass `k` of the shifting branch:
      queried at the mask longitudes restored `k` times, labelled with them
      restored `k + 1` times. */
  function ShiftedFinal(interp: (string, real, real) -> Cell, v: string, k: nat, lon: seq<real>, lats: seq<real>,
                        landmask: seq<seq<int>>): (f: Field)
    requires HasShape(landmask, |lon|, |lats|)
    ensures HasShape(f, |lon|, |lats|)
  {
    Longitude.ShiftedOutput(interp, v, Longitude.RestoreN(k, Longitude.ShiftedSorted(lon)),
                            Longitude.RestoreN(k + 1, Longitude.ShiftedSorted(lon)), lats, landmask).data
  }

  /** The first variable's final field, for a source on -180..180 and mask
      longitudes in [0,360): at row j, the j-th mask longitude in ascending
      order, the clamped source value at ShiftLon of that longitude, or a
      missing value on land. */
  lemma FinalShiftedCells(interp: (string, real, real) -> Cell, v: string, lon: seq<real>, lats: seq<real>,
                          landmask: seq<seq<int>>)
    requires Longitude.InRange(lon, 0.0, 360.0) && HasShape(landmask, |lon|, |lats|)
    ensures |SortSeq(lon)| == |lon|
    ensures forall j, i :: 0 <= j < |lon| && 0 <= i < |lats| ==>
      MapCells(ClampCell, ShiftedFinal(interp, v, 0, lon, lats, landmask))[j][i] ==
        if landmask[j][i] == 1 then NaN else ClampCell(interp(v, Longitude.ShiftLon(SortSeq(lon)[j]), lats[i]))
  {
    SortSeqProps(lon);
    var sh := Longitude.ShiftedSorted(lon);
    var out := Longitude.ShiftedOutput(interp, v, Longitude.RestoreN(0, sh), Longitude.RestoreN(1, sh), lats, landmask);
    assert ShiftedFinal(interp, v, 0, lon, lats, landmask) == out.data;
    Longitude.ShiftedOutputLon(interp, v, lon, lats, landmask, 0);
    assert out.lon == SortSeq(lon);
    Longitude.FirstVariableColumns(interp, v, lon, lats, landmask);
    ClampMasked(out.data, landmask, lats, (j: nat, i: nat) requires j < |lon| && i < |lats| => interp(v, Longitude.ShiftLon(out.lon[j]), lats[i]));
  }

  /** The second variable's final field (pass k >= 1), for the same inputs: at
      row j the clamped source value at the j-th ascending mask longitude
      itself, not at its shifted value. */
  lemma FinalShiftedLaterCells(interp: (string, real, real) -> Cell, v: string, k: nat, lon: seq<real>, lats: seq<real>,
                               landmask: seq<seq<int>>)
    requires Longitude.InRange(lon, 0.0, 360.0) && HasShape(landmask, |lon|, |lats|) && k >= 1
    ensures |SortSeq(lon)| == |lon|
    ensures forall j, i :: 0 <= j < |lon| && 0 <= i < |lats| ==>
      MapCells(ClampCell, ShiftedFinal(interp, v, k, lon, lats, landmask))[j][i] ==
        if landmask[j][i] == 1 then NaN else ClampCell(interp(v, SortSeq(lon)[j], lats[i]))
  {
    SortSeqProps(lon);
    var sh := Longitude.ShiftedSorted(lon);
    var out := Longitude.ShiftedOutput(interp, v, Longitude.RestoreN(k, sh), Longitude.RestoreN(k + 1, sh), lats, landmask);
    assert ShiftedFinal(interp, v, k, lon, lats, landmask) == out.data;
    Longitude.ShiftedOutputLon(interp, v, lon, lats, landmask, k);
    assert out.lon == SortSeq(lon);
    Longitude.LaterVariableColumns(interp, v, lon, lats, landmask, k);
    ClampMasked(out.data, landmask, lats, (j: nat, i: nat) requires j < |lon| && i < |lats| => interp(v, out.lon[j], lats[i]));
  }

  /** For mask longitudes in [0,180] every pass gives the first pass's field,
      so both variables are regridded alike. */
  lemma FinalEastAgrees(interp: (string, real, real) -> Cell, v: string, k: nat, lon: seq<real>, lats: seq<real>,
                        landmask: seq<seq<int>>)
    requires forall i :: 0 <= i < |lon| ==> 0.0 <= lon[i] <= 180.0
    requires HasShape(landmask, |lon|, |lats|)
    ensures ShiftedFinal(interp, v, k, lon, lats, landmask) == ShiftedFinal(interp, v, 0, lon, lats, landmask)
  {
    Longitude.EastMaskAgrees(interp, v, lon, lats, landmask, k);
  }

  /** The mask grid of the final pass is the day grid `lon_sel[::10]` (lines 56
      and 72): for a source whose longitudes are at most 180, every one of its
      longitudes lies in (120,180], where `FinalEastAgrees` applies. */
  lemma DayGridEast(lon: seq<real>)
    requires forall i :: 0 <= i < |lon| ==> lon[i] <= 180.0
    ensures forall j :: 0 <= j < |Every10(SelectEast(lon))| ==>
      120.0 < Every10(SelectEast(lon))[j] <= 180.0
  {
    SelectEastProps(lon);
    var sel := SelectEast(lon);
    forall j | 0 <= j < |Every10(sel)| ensures 120.0 < Every10(sel)[j] <= 180.0 {
      assert Every10(sel)[j] == sel[10 * j];
      assert sel[10 * j] == lon[EastIndices(lon)[10 * j]];
    }
  }

  /** Clamping a field whose land cells are missing and whose other cells are
      given by `val` gives the clamped values with the land still missing. */
  lemma ClampMasked(f: Field, landmask: seq<seq<int>>, lats: seq<real>, val: (nat, nat) --> Cell)
    requires HasShape(f, |landmask|, |lats|) && HasShape(landmask, |landmask|, |lats|)
    requires forall j, i :: 0 <= j < |f| && 0 <= i < |lats| ==> val.requires(j, i)
    requires forall j, i :: 0 <= j < |f| && 0 <= i < |lats| ==>
      f[j][i] == if landmask[j][i] == 1 then NaN else val(j, i)
    ensures forall j, i :: 0 <= j < |f| && 0 <= i < |lats| ==>
      MapCells(ClampCell, f)[j][i] == if landmask[j][i] == 1 then NaN else ClampCell(val(j, i))
  {
  }

  /** The same for a source without negative longitudes: the clamped source
      value at the j-th mask longitude, or a missing value on land. */
  lemma FinalPlainCells(interp: (string, real, real) -> Cell, v: string, lon: seq<real>, lats: seq<real>,
                        landmask: seq<seq<int>>)
    requires HasShape(landmask, |lon|, |lats|)
    ensures forall j, i :: 0 <= j < |lon| && 0 <= i < |lats| ==>
      MapCells(ClampCell, Longitude.PlainOutput(interp, v, lon, lats, landmask).data)[j][i] ==
        if landmask[j][i] == 1 then NaN else ClampCell(interp(v, lon[j], lats[i]))
  {
    var out := Longitude.PlainOutput(interp, v, lon, lats, landmask);
    forall j, i | 0 <= j < |lon| && 0 <= i < |lats|
      ensures MapCells(ClampCell, out.data)[j][i] == if landmask[j][i] == 1 then NaN else ClampCell(interp(v, lon[j], lats[i]))
    {
      assert out.data[j][i] == if landmask[j][i] == 1 then NaN else interp(v, lon[j], lats[i]);
    }
  }
}
