/** `interp2d_nc` (tools/pre_function.py:68-127): interpolate each named variable
    of a source file onto the grid of a land-mask file, then blank the land.
    When the source longitudes run -180..180 and the mask's 0..360, the mask
    longitudes are shifted in place (`lon_tmp` is the same array as `lon_mask`),
    sorted, used for the interpolation, and shifted back inside the loop over
    variables.

    Grids here are indexed [longitude][latitude]: entry j of a regridded field is
    the column of values at longitude j, which is what `sortby` along longitude
    moves. The interpolation itself is a library routine, given as `interp`: the
    value of a variable at one (longitude, latitude) point of the source grid. */
module Longitude {
  import opened Cells
  import opened Results
  import opened Sorting
  import opened CoordNames

  // ---- the two conventions ----

  /** Line 88, one entry: `lon[lon > 180] -= 360`. */
  function ShiftLon(x: real): real { if x > 180.0 then x - 360.0 else x }

  /** Line 95, one entry: `lon[lon < 0] += 360`. */
  function RestoreLon(x: real): real { if x < 0.0 then x + 360.0 else x }

  function MapSeq(f: real -> real, s: seq<real>): (r: seq<real>)
    ensures |r| == |s| && forall i :: 0 <= i < |s| ==> r[i] == f(s[i])
  {
    seq(|s|, i requires 0 <= i < |s| => f(s[i]))
  }

  predicate InRange(s: seq<real>, lo: real, hi: real)
  {
    forall i :: 0 <= i < |s| ==> lo <= s[i] < hi
  }

  /** `restore` applied `k` times: what `lon_tmp` holds after `k` passes of the loop. */
  function RestoreN(k: nat, s: seq<real>): (r: seq<real>)
    ensures |r| == |s|
  {
    if k == 0 then s else MapSeq(RestoreLon, RestoreN(k - 1, s))
  }

  /** The shifted and sorted mask longitudes of lines 88-89. */
  function ShiftedSorted(lon: seq<real>): (r: seq<real>)
    ensures |r| == |lon|
  {
    SortSeqProps(MapSeq(ShiftLon, lon));
    SortSeq(MapSeq(ShiftLon, lon))
  }

  /** Line 88, in place. */
  method ShiftWest(a: array<real>)
    modifies a
    ensures forall i :: 0 <= i < a.Length ==> a[i] == if old(a[i]) > 180.0 then old(a[i]) - 360.0 else old(a[i])
    ensures a[..] == MapSeq(ShiftLon, old(a[..]))
  {
    for i := 0 to a.Length
      invariant forall p :: 0 <= p < i ==> a[p] == ShiftLon(old(a[p]))
      invariant forall p :: i <= p < a.Length ==> a[p] == old(a[p])
    {
      if a[i] > 180.0 {
        a[i] := a[i] - 360.0;
      }
    }
  }

  /** Line 95, in place. */
  method RestoreEast(a: array<real>)
    modifies a
    ensures forall i :: 0 <= i < a.Length ==> a[i] == if old(a[i]) < 0.0 then old(a[i]) + 360.0 else old(a[i])
    ensures a[..] == MapSeq(RestoreLon, old(a[..]))
  {
    for i := 0 to a.Length
      invariant forall p :: 0 <= p < i ==> a[p] == RestoreLon(old(a[p]))
      invariant forall p :: i <= p < a.Length ==> a[p] == old(a[p])
    {
      if a[i] < 0.0 {
        a[i] := a[i] + 360.0;
      }
    }
  }

  lemma MapSeqAppend(f: real -> real, u: seq<real>, v: seq<real>)
    ensures MapSeq(f, u + v) == MapSeq(f, u) + MapSeq(f, v)
  {
  }

  /** Mapping a function over two permutations of one another gives two
      permutations of one another. */
  lemma {:induction false} MapSeqPerm(f: real -> real, a: seq<real>, b: seq<real>)
    requires multiset(a) == multiset(b)
    ensures multiset(MapSeq(f, a)) == multiset(MapSeq(f, b))
    decreases |a|
  {
    if a == [] {
      assert |multiset(b)| == 0;
    } else {
      var x := a[0];
      assert x in multiset(b) by { assert x in multiset(a); }
      var j :| 0 <= j < |b| && b[j] == x;
      var b' := b[..j] + b[j + 1..];
      assert b == b[..j] + [x] + b[j + 1..];
      assert a == [x] + a[1..];
      assert multiset(b) == multiset(b[..j]) + multiset{x} + multiset(b[j + 1..]);
      assert multiset(b') == multiset(b[..j]) + multiset(b[j + 1..]);
      assert multiset(b') == multiset(b) - multiset{x};
      assert multiset(a[1..]) == multiset(a) - multiset{x};
      MapSeqPerm(f, a[1..], b');
      MapSeqAppend(f, [x], a[1..]);
      MapSeqAppend(f, b[..j] + [x], b[j + 1..]);
      MapSeqAppend(f, b[..j], [x]);
      MapSeqAppend(f, b[..j], b[j + 1..]);
    }
  }

  /** Every element of a permutation of `s` is an element of `s`. */
  lemma PermMember(s: seq<real>, t: seq<real>, j: nat)
    requires multiset(t) == multiset(s) && j < |t|
    ensures exists i :: 0 <= i < |s| && s[i] == t[j]
  {
    assert t[j] in multiset(t);
    assert t[j] in s;
  }

  /** Lines 88-89: after the shift the mask longitudes are in ascending order,
      and they are exactly the old ones with those above 180 lowered by 360. Every
      one is then at most 180 when none exceeded 540; for mask longitudes in
      [0,360) they lie in (-180,180]. */
  lemma ShiftedSortedProps(lon: seq<real>)
    ensures Sorted(ShiftedSorted(lon))
    ensures multiset(ShiftedSorted(lon)) == multiset(MapSeq(ShiftLon, lon))
    ensures |ShiftedSorted(lon)| == |lon|
    ensures (forall i :: 0 <= i < |lon| ==> lon[i] <= 540.0) ==>
      forall j :: 0 <= j < |ShiftedSorted(lon)| ==> ShiftedSorted(lon)[j] <= 180.0
    ensures InRange(lon, 0.0, 360.0) ==>
      forall j :: 0 <= j < |ShiftedSorted(lon)| ==> -180.0 < ShiftedSorted(lon)[j] <= 180.0
  {
    var m := MapSeq(ShiftLon, lon);
    var s := ShiftedSorted(lon);
    SortSeqProps(m);
    forall j | 0 <= j < |s|
      ensures (forall i :: 0 <= i < |lon| ==> lon[i] <= 540.0) ==> s[j] <= 180.0
      ensures InRange(lon, 0.0, 360.0) ==> -180.0 < s[j] <= 180.0
    {
      PermMember(m, s, j);
      var i :| 0 <= i < |m| && m[i] == s[j];
      assert m[i] == ShiftLon(lon[i]);
    }
  }

  /** A mask longitude above 540 is still above 180 after the shift. */
  lemma ShiftLeavesLarge()
    ensures ShiftedSorted([600.0]) == [240.0]
  {
    assert MapSeq(ShiftLon, [600.0]) == [240.0];
    assert SortSeq([240.0]) == Insert(240.0, SortSeq([]));
  }

  /** Restoring undoes the shift on [0,360). */
  lemma RestoreShift(lon: seq<real>)
    requires InRange(lon, 0.0, 360.0)
    ensures MapSeq(RestoreLon, MapSeq(ShiftLon, lon)) == lon
  {
  }

  /** Lines 88-89 and 95-97: for mask longitudes in [0,360), shifting, sorting,
      restoring and sorting again gives back the mask longitudes in ascending
      order; the restored array itself is a permutation of the original. */
  lemma ShiftRestoreRoundTrip(lon: seq<real>)
    requires InRange(lon, 0.0, 360.0)
    ensures multiset(RestoreN(1, ShiftedSorted(lon))) == multiset(lon)
    ensures SortSeq(RestoreN(1, ShiftedSorted(lon))) == SortSeq(lon)
  {
    var m := MapSeq(ShiftLon, lon);
    SortSeqProps(m);
    MapSeqPerm(RestoreLon, ShiftedSorted(lon), m);
    RestoreShift(lon);
    assert RestoreN(1, ShiftedSorted(lon)) == MapSeq(RestoreLon, ShiftedSorted(lon));
    SortSeqByMultiset(RestoreN(1, ShiftedSorted(lon)), lon);
  }

  /** Restoring is the identity on [0,360), so from the first pass on the array
      stays the same. */
  lemma {:induction false} RestoreNStable(lon: seq<real>, k: nat)
    requires InRange(lon, 0.0, 360.0) && k >= 1
    ensures RestoreN(k, ShiftedSorted(lon)) == RestoreN(1, ShiftedSorted(lon))
    ensures InRange(RestoreN(k, ShiftedSorted(lon)), 0.0, 360.0)
  {
    ShiftedSortedProps(lon);
    if k > 1 {
      RestoreNStable(lon, k - 1);
    }
  }

  // ---- sampling, sortby and land masking ----

  /** A regridded variable: its longitude coordinate and one column per longitude. */
  datatype Regridded = Regridded(lon: seq<real>, data: Field)

  function Column(interp: (string, real, real) -> Cell, v: string, x: real, lats: seq<real>): (c: seq<Cell>)
    ensures |c| == |lats|
  {
    seq(|lats|, i requires 0 <= i < |lats| => interp(v, x, lats[i]))
  }

  /** `ds_orgn[v].interp(lon=lons, lat=lats)`: one column per requested longitude. */
  function Sample(interp: (string, real, real) -> Cell, v: string, lons: seq<real>, lats: seq<real>): (f: Field)
    ensures HasShape(f, |lons|, |lats|)
    ensures forall j :: 0 <= j < |lons| ==> f[j] == Column(interp, v, lons[j], lats)
  {
    seq(|lons|, j requires 0 <= j < |lons| => Column(interp, v, lons[j], lats))
  }

  function Zip(lons: seq<real>, cols: Field): (ps: seq<(real, seq<Cell>)>)
    requires |lons| == |cols|
    ensures |ps| == |lons| && forall j :: 0 <= j < |ps| ==> ps[j] == (lons[j], cols[j])
  {
    seq(|lons|, j requires 0 <= j < |lons| => (lons[j], cols[j]))
  }

  function Vals(ps: seq<(real, seq<Cell>)>): (cols: Field)
    ensures |cols| == |ps| && forall j :: 0 <= j < |ps| ==> cols[j] == ps[j].1
  {
    seq(|ps|, j requires 0 <= j < |ps| => ps[j].1)
  }

  /** Lines 96-97: `assign_coords(lon=coords)` then `sortby(lon)`. */
  function SortByLon(coords: seq<real>, cols: Field): (g: Regridded)
    requires |coords| == |cols|
    ensures |g.lon| == |coords| && |g.data| == |cols|
  {
    SortByKeyProps(Zip(coords, cols));
    var sp := SortByKey(Zip(coords, cols));
    Regridded(Keys(sp), Vals(sp))
  }

  /** `sortby` puts the longitudes in ascending order and keeps every column
      with the longitude it was paired with. */
  lemma SortByLonProps(coords: seq<real>, cols: Field, j: nat)
    requires |coords| == |cols| && j < |cols|
    ensures SortByLon(coords, cols).lon == SortSeq(coords)
    ensures exists m :: (0 <= m < |coords| &&
      SortByLon(coords, cols).lon[j] == coords[m] && SortByLon(coords, cols).data[j] == cols[m])
  {
    var ps := Zip(coords, cols);
    SortByKeyProps(ps);
    assert Keys(ps) == coords;
    var sp := SortByKey(ps);
    assert sp[j] in multiset(ps) by { assert sp[j] in multiset(sp); }
    var m :| 0 <= m < |ps| && ps[m] == sp[j];
  }

  /** The land mask as the source reshapes it: one entry per regridded cell. */
  predicate MaskFits(landmask: seq<seq<int>>, f: Field)
  {
    |landmask| == |f| && forall j :: 0 <= j < |f| ==> |landmask[j]| == |f[j]|
  }

  function MaskLand(f: Field, landmask: seq<seq<int>>): (r: Field)
    requires MaskFits(landmask, f)
    ensures MaskFits(landmask, r)
  {
    seq(|f|, j requires 0 <= j < |f| =>
      seq(|f[j]|, i requires 0 <= i < |f[j]| => if landmask[j][i] == 1 then NaN else f[j][i]))
  }

  /** `data[landmask == 1] = np.nan` (lines 101 and 115), in place. */
  method MaskLandInPlace(a: array2<Cell>, landmask: seq<seq<int>>)
    requires HasShape(landmask, a.Length0, a.Length1)
    modifies a
    ensures forall j, i :: 0 <= j < a.Length0 && 0 <= i < a.Length1 ==>
      a[j, i] == if landmask[j][i] == 1 then NaN else old(a[j, i])
    ensures MaskFits(landmask, old(Snapshot(a))) && Snapshot(a) == MaskLand(old(Snapshot(a)), landmask)
  {
    for j := 0 to a.Length0
      invariant forall p, q :: 0 <= p < j && 0 <= q < a.Length1 ==>
        a[p, q] == if landmask[p][q] == 1 then NaN else old(a[p, q])
      invariant forall p, q :: j <= p < a.Length0 && 0 <= q < a.Length1 ==> a[p, q] == old(a[p, q])
    {
      for i := 0 to a.Length1
        invariant forall p, q :: 0 <= p < j && 0 <= q < a.Length1 ==>
          a[p, q] == if landmask[p][q] == 1 then NaN else old(a[p, q])
        invariant forall q :: 0 <= q < i ==> a[j, q] == if landmask[j][q] == 1 then NaN else old(a[j, q])
        invariant forall p, q :: j <= p < a.Length0 && 0 <= q < a.Length1 && (p > j || q >= i) ==> a[p, q] == old(a[p, q])
      {
        if landmask[j][i] == 1 {
          a[j, i] := NaN;
        }
      }
    }
    ghost var before := old(Snapshot(a));
    SnapshotIs(a, MaskLand(before, landmask));
  }

  /** The masking steps of lines 99-102: copy out the values, mask, read back. */
  method MaskRegridded(g: Regridded, nlat: nat, landmask: seq<seq<int>>) returns (r: Regridded)
    requires HasShape(g.data, |g.lon|, nlat) && HasShape(landmask, |g.lon|, nlat)
    ensures MaskFits(landmask, g.data) && r == Regridded(g.lon, MaskLand(g.data, landmask))
  {
    var a := ToArray(g.data, |g.lon|, nlat);
    MaskLandInPlace(a, landmask);
    var masked := FromArray(a);
    r := Regridded(g.lon, masked);
  }

  // ---- interp2d_nc ----

  predicate HasNegative(s: seq<real>)
  {
    exists i :: 0 <= i < |s| && s[i] < 0.0
  }

  /** One variable of the shifting branch: interpolated at `query`, labelled
      with `coords`, sorted by longitude, land blanked. */
  function ShiftedOutput(interp: (string, real, real) -> Cell, v: string, query: seq<real>, coords: seq<real>,
                         lats: seq<real>, landmask: seq<seq<int>>): (o: Regridded)
    requires |query| == |coords| && HasShape(landmask, |coords|, |lats|)
    ensures |o.lon| == |coords| && HasShape(o.data, |coords|, |lats|)
  {
    var g := SortByLon(coords, Sample(interp, v, query, lats));
    SortByLonShape(coords, Sample(interp, v, query, lats), |lats|);
    Regridded(g.lon, MaskLand(g.data, landmask))
  }

  /** One variable of the other branch: interpolated at the mask longitudes as
      they are, land blanked. */
  function PlainOutput(interp: (string, real, real) -> Cell, v: string, lons: seq<real>,
                       lats: seq<real>, landmask: seq<seq<int>>): (o: Regridded)
    requires HasShape(landmask, |lons|, |lats|)
    ensures o.lon == lons && HasShape(o.data, |lons|, |lats|)
    ensures forall j, i :: 0 <= j < |lons| && 0 <= i < |lats| ==>
      o.data[j][i] == if landmask[j][i] == 1 then NaN else interp(v, lons[j], lats[i])
  {
    Regridded(lons, MaskLand(Sample(interp, v, lons, lats), landmask))
  }

  lemma SortByLonShape(coords: seq<real>, cols: Field, nlat: nat)
    requires |coords| == |cols| && IsRect(cols, nlat)
    ensures HasShape(SortByLon(coords, cols).data, |coords|, nlat)
  {
    forall j | 0 <= j < |cols| ensures |SortByLon(coords, cols).data[j]| == nlat {
      SortByLonProps(coords, cols, j);
    }
  }

  /** The error, if any, that the interpolation call of lines 92-94 / 109-111
      raises for variable `v`. An empty latitude name makes the built expression
      unparsable before anything is evaluated. */
  function CallError<A>(src: Source<A>, v: string): Option<ReadError>
  {
    if src.LatName() == "" then Some(CoordinateNotFound(""))
    else if v !in src.data then Some(KeyNotFound(v))
    else if src.LatName() !in src.coords then Some(CoordinateNotFound(src.LatName()))
    else None
  }

  /** One pass of the loop of lines 90-105: interpolate at the current mask
      longitudes, restore them in place, relabel, sort by longitude, mask. */
  method ShiftedStep(v: string, lonMask: array<real>, latMask: seq<real>, landmask: seq<seq<int>>,
                     interp: (string, real, real) -> Cell) returns (out: Regridded)
    requires HasShape(landmask, lonMask.Length, |latMask|)
    modifies lonMask
    ensures lonMask[..] == MapSeq(RestoreLon, old(lonMask[..]))
    ensures out == ShiftedOutput(interp, v, old(lonMask[..]), lonMask[..], latMask, landmask)
  {
    var query := lonMask[..];
    RestoreEast(lonMask);
    out := LabelSortMask(v, query, lonMask[..], latMask, landmask, interp);
  }

  /** Lines 92-102 once the query and label longitudes are fixed: interpolate at
      `query`, relabel with `coords`, sort by longitude, blank the land. */
  method LabelSortMask(v: string, query: seq<real>, coords: seq<real>, latMask: seq<real>, landmask: seq<seq<int>>,
                       interp: (string, real, real) -> Cell) returns (out: Regridded)
    requires |query| == |coords| && HasShape(landmask, |coords|, |latMask|)
    ensures out == ShiftedOutput(interp, v, query, coords, latMask, landmask)
  {
    var sampled := Sample(interp, v, query, latMask);
    var g := SortByLon(coords, sampled);
    SortByLonShape(coords, sampled, |latMask|);
    out := MaskRegridded(g, |latMask|, landmask);
  }

  /** The loop of lines 90-105, started with the mask longitudes equal to `shifted`. */
  method ShiftedLoop<A>(src: Source<A>, varNames: seq<string>, lonMask: array<real>, latMask: seq<real>,
                        landmask: seq<seq<int>>, interp: (string, real, real) -> Cell, ghost shifted: seq<real>)
    returns (r: Result<seq<Regridded>, ReadError>)
    requires HasShape(landmask, lonMask.Length, |latMask|)
    requires lonMask[..] == shifted
    modifies lonMask
    ensures r.Ok? <==> forall k :: 0 <= k < |varNames| ==> CallError(src, varNames[k]).None?
    ensures r.Ok? ==> lonMask[..] == RestoreN(|varNames|, shifted)
    ensures r.Err? ==> exists k :: 0 <= k < |varNames| && lonMask[..] == RestoreN(k, shifted)
    ensures r.Ok? ==> |r.value| == |varNames| && forall k :: 0 <= k < |varNames| ==>
      r.value[k] == ShiftedOutput(interp, varNames[k], RestoreN(k, shifted), RestoreN(k + 1, shifted), latMask, landmask)
  {
    var outs: seq<Regridded> := [];
    for k := 0 to |varNames|
      invariant lonMask[..] == RestoreN(k, shifted)
      invariant |outs| == k
      invariant forall m :: 0 <= m < k ==> CallError(src, varNames[m]).None?
      invariant forall m :: 0 <= m < k ==>
        outs[m] == ShiftedOutput(interp, varNames[m], RestoreN(m, shifted), RestoreN(m + 1, shifted), latMask, landmask)
    {
      var e := CallError(src, varNames[k]);
      if e.Some? {
        return Err(e.value);
      }
      var out := ShiftedStep(varNames[k], lonMask, latMask, landmask, interp);
      outs := outs + [out];
    }
    r := Ok(outs);
  }

  /** Lines 87-105, the branch taken when the source longitudes include a negative one. */
  method InterpShifted<A>(src: Source<A>, varNames: seq<string>, lonMask: array<real>, latMask: seq<real>,
                          landmask: seq<seq<int>>, interp: (string, real, real) -> Cell)
    returns (r: Result<seq<Regridded>, ReadError>)
    requires HasShape(landmask, lonMask.Length, |latMask|)
    modifies lonMask
    ensures r.Ok? <==> forall k :: 0 <= k < |varNames| ==> CallError(src, varNames[k]).None?
    ensures r.Ok? ==> lonMask[..] == RestoreN(|varNames|, ShiftedSorted(old(lonMask[..])))
    ensures r.Err? ==> exists k :: 0 <= k < |varNames| && lonMask[..] == RestoreN(k, ShiftedSorted(old(lonMask[..])))
    ensures r.Ok? ==> |r.value| == |varNames| && forall k :: 0 <= k < |varNames| ==>
      r.value[k] == ShiftedOutput(interp, varNames[k], RestoreN(k, ShiftedSorted(old(lonMask[..]))),
                                  RestoreN(k + 1, ShiftedSorted(old(lonMask[..]))), latMask, landmask)
  {
    ShiftWest(lonMask);
    SortInPlace(lonMask);
    r := ShiftedLoop(src, varNames, lonMask, latMask, landmask, interp, ShiftedSorted(old(lonMask[..])));
  }

  /** Lines 107-119, the branch taken otherwise: the mask longitudes are used as they are. */
  method InterpPlain<A>(src: Source<A>, varNames: seq<string>, lonMask: array<real>, latMask: seq<real>,
                        landmask: seq<seq<int>>, interp: (string, real, real) -> Cell)
    returns (r: Result<seq<Regridded>, ReadError>)
    requires HasShape(landmask, lonMask.Length, |latMask|)
    ensures r.Ok? <==> forall k :: 0 <= k < |varNames| ==> CallError(src, varNames[k]).None?
    ensures r.Ok? ==> |r.value| == |varNames| && forall k :: 0 <= k < |varNames| ==>
      r.value[k] == PlainOutput(interp, varNames[k], lonMask[..], latMask, landmask)
  {
    var outs: seq<Regridded> := [];
    for k := 0 to |varNames|
      invariant |outs| == k
      invariant forall m :: 0 <= m < k ==> CallError(src, varNames[m]).None?
      invariant forall m :: 0 <= m < k ==> outs[m] == PlainOutput(interp, varNames[m], lonMask[..], latMask, landmask)
    {
      var e := CallError(src, varNames[k]);
      if e.Some? {
        return Err(e.value);
      }
      var out := MaskRegridded(Regridded(lonMask[..], Sample(interp, varNames[k], lonMask[..], latMask)), |latMask|, landmask);
      outs := outs + [out];
    }
    r := Ok(outs);
  }

  /** `interp2d_nc` as written. `lonMask` is the mask file's longitude array,
      mutated in place exactly as `lon_mask` is; the result is the list of
      regridded variables handed to `xr.merge`. */
  method Interp2dNc<A>(src: Source<A>, varNames: seq<string>, lonMask: array<real>, latMask: seq<real>,
                       landmask: seq<seq<int>>, interp: (string, real, real) -> Cell)
    returns (r: Result<seq<Regridded>, ReadError>)
    requires HasShape(landmask, lonMask.Length, |latMask|)
    modifies lonMask
    ensures r.Ok? <==> (src.LonName() in src.coords && |src.coords[src.LonName()]| > 0 &&
      forall k :: 0 <= k < |varNames| ==> CallError(src, varNames[k]).None?)
    ensures src.LonName() !in src.coords ==> r == Err(KeyNotFound(src.LonName())) && lonMask[..] == old(lonMask[..])
    ensures src.LonName() in src.coords && |src.coords[src.LonName()]| == 0 ==>
      r == Err(EmptyCoordinate(src.LonName())) && lonMask[..] == old(lonMask[..])
    ensures src.LonName() in src.coords && !HasNegative(src.coords[src.LonName()]) ==>
      lonMask[..] == old(lonMask[..]) &&
      (r.Ok? ==> |r.value| == |varNames| && forall k :: 0 <= k < |varNames| ==>
         r.value[k] == PlainOutput(interp, varNames[k], old(lonMask[..]), latMask, landmask))
    ensures src.LonName() in src.coords && HasNegative(src.coords[src.LonName()]) ==>
      (r.Ok? ==> lonMask[..] == RestoreN(|varNames|, ShiftedSorted(old(lonMask[..])))) &&
      (r.Err? ==> exists k :: 0 <= k < |varNames| && lonMask[..] == RestoreN(k, ShiftedSorted(old(lonMask[..])))) &&
      (r.Ok? ==> |r.value| == |varNames| && forall k :: 0 <= k < |varNames| ==>
         r.value[k] == ShiftedOutput(interp, varNames[k], RestoreN(k, ShiftedSorted(old(lonMask[..]))),
                                     RestoreN(k + 1, ShiftedSorted(old(lonMask[..]))), latMask, landmask))
  {
    var lonName := src.LonName();
    if lonName !in src.coords {
      return Err(KeyNotFound(lonName));
    }
    if |src.coords[lonName]| == 0 {
      return Err(EmptyCoordinate(lonName));
    }
    if HasNegative(src.coords[lonName]) {
      r := InterpShifted(src, varNames, lonMask, latMask, landmask, interp);
    } else {
      r := InterpPlain(src, varNames, lonMask, latMask, landmask, interp);
    }
  }

  // ---- what each variable receives ----

  /** One cell of a shifting-branch output: the column at sorted position `j`
      was interpolated at some query longitude whose restored value is the
      output longitude `j`. */
  lemma ShiftedOutputCell(interp: (string, real, real) -> Cell, v: string, query: seq<real>, lats: seq<real>,
                          landmask: seq<seq<int>>, j: nat, i: nat)
    requires HasShape(landmask, |query|, |lats|) && j < |query| && i < |lats|
    ensures exists m :: (0 <= m < |query| &&
      ShiftedOutput(interp, v, query, MapSeq(RestoreLon, query), lats, landmask).lon[j] == RestoreLon(query[m]) &&
      ShiftedOutput(interp, v, query, MapSeq(RestoreLon, query), lats, landmask).data[j][i] ==
        (if landmask[j][i] == 1 then NaN else interp(v, query[m], lats[i])))
  {
    var coords := MapSeq(RestoreLon, query);
    var cols := Sample(interp, v, query, lats);
    SortByLonProps(coords, cols, j);
    var m :| 0 <= m < |coords| && SortByLon(coords, cols).lon[j] == coords[m] && SortByLon(coords, cols).data[j] == cols[m];
    assert ShiftedOutput(interp, v, query, coords, lats, landmask).data[j][i] ==
      (if landmask[j][i] == 1 then NaN else interp(v, query[m], lats[i]));
  }

  /** The longitudes of variable `k` of the shifting branch, for mask
      longitudes in [0,360): the mask longitudes in ascending order. */
  lemma ShiftedOutputLon(interp: (string, real, real) -> Cell, v: string, lon: seq<real>, lats: seq<real>,
                         landmask: seq<seq<int>>, k: nat)
    requires InRange(lon, 0.0, 360.0) && HasShape(landmask, |lon|, |lats|)
    ensures ShiftedOutput(interp, v, RestoreN(k, ShiftedSorted(lon)), RestoreN(k + 1, ShiftedSorted(lon)), lats, landmask).lon
      == SortSeq(lon)
  {
    var sh := ShiftedSorted(lon);
    RestoreNStable(lon, k + 1);
    ShiftRestoreRoundTrip(lon);
    if |lon| > 0 {
      SortByLonProps(RestoreN(k + 1, sh), Sample(interp, v, RestoreN(k, sh), lats), 0);
    } else {
      assert SortByLon(RestoreN(k + 1, sh), Sample(interp, v, RestoreN(k, sh), lats)).lon == [];
    }
  }

  /** The first variable of the shifting branch, for mask longitudes in
      [0,360): at output longitude x it holds the source values at the shifted
      longitude ShiftLon(x). */
  lemma FirstVariableColumns(interp: (string, real, real) -> Cell, v: string, lon: seq<real>, lats: seq<real>,
                             landmask: seq<seq<int>>)
    requires InRange(lon, 0.0, 360.0) && HasShape(landmask, |lon|, |lats|)
    ensures forall j, i :: 0 <= j < |lon| && 0 <= i < |lats| ==>
      ShiftedOutput(interp, v, RestoreN(0, ShiftedSorted(lon)), RestoreN(1, ShiftedSorted(lon)), lats, landmask).data[j][i] ==
        if landmask[j][i] == 1 then NaN
        else interp(v, ShiftLon(ShiftedOutput(interp, v, RestoreN(0, ShiftedSorted(lon)), RestoreN(1, ShiftedSorted(lon)), lats, landmask).lon[j]), lats[i])
  {
    var sh := ShiftedSorted(lon);
    ShiftedSortedProps(lon);
    assert RestoreN(1, sh) == MapSeq(RestoreLon, sh);
    assert forall m :: 0 <= m < |sh| ==> ShiftLon(RestoreLon(sh[m])) == sh[m];
    ShiftedOutputInverse(interp, v, sh, lats, landmask, ShiftLon);
    assert RestoreN(0, sh) == sh;
    assert ShiftedOutput(interp, v, RestoreN(0, sh), RestoreN(1, sh), lats, landmask)
        == ShiftedOutput(interp, v, sh, MapSeq(RestoreLon, sh), lats, landmask);
  }

  /** Every later variable (k >= 1) of the shifting branch, for mask
      longitudes in [0,360): at output longitude x it holds the source values
      at x itself, because the restore of line 95 has already run. */
  lemma LaterVariableColumns(interp: (string, real, real) -> Cell, v: string, lon: seq<real>, lats: seq<real>,
                             landmask: seq<seq<int>>, k: nat)
    requires InRange(lon, 0.0, 360.0) && HasShape(landmask, |lon|, |lats|) && k >= 1
    ensures forall j, i :: 0 <= j < |lon| && 0 <= i < |lats| ==>
      ShiftedOutput(interp, v, RestoreN(k, ShiftedSorted(lon)), RestoreN(k + 1, ShiftedSorted(lon)), lats, landmask).data[j][i] ==
        if landmask[j][i] == 1 then NaN
        else interp(v, ShiftedOutput(interp, v, RestoreN(k, ShiftedSorted(lon)), RestoreN(k + 1, ShiftedSorted(lon)), lats, landmask).lon[j], lats[i])
  {
    var query := RestoreN(k, ShiftedSorted(lon));
    RestoreNStable(lon, k);
    assert RestoreN(k + 1, ShiftedSorted(lon)) == MapSeq(RestoreLon, query);
    assert forall m :: 0 <= m < |query| ==> RestoreLon(query[m]) == query[m];
    ShiftedOutputInverse(interp, v, query, lats, landmask, (x: real) => x);
    assert ShiftedOutput(interp, v, query, RestoreN(k + 1, ShiftedSorted(lon)), lats, landmask)
        == ShiftedOutput(interp, v, query, MapSeq(RestoreLon, query), lats, landmask);
  }

  /** When `back` undoes the restore on every query longitude, the column at
      output longitude x holds the source values at back(x). */
  lemma ShiftedOutputInverse(interp: (string, real, real) -> Cell, v: string, query: seq<real>, lats: seq<real>,
                             landmask: seq<seq<int>>, back: real -> real)
    requires HasShape(landmask, |query|, |lats|)
    requires forall m :: 0 <= m < |query| ==> back(RestoreLon(query[m])) == query[m]
    ensures forall j, i :: 0 <= j < |query| && 0 <= i < |lats| ==>
      ShiftedOutput(interp, v, query, MapSeq(RestoreLon, query), lats, landmask).data[j][i] ==
        if landmask[j][i] == 1 then NaN
        else interp(v, back(ShiftedOutput(interp, v, query, MapSeq(RestoreLon, query), lats, landmask).lon[j]), lats[i])
  {
    var out := ShiftedOutput(interp, v, query, MapSeq(RestoreLon, query), lats, landmask);
    forall j, i | 0 <= j < |query| && 0 <= i < |lats|
      ensures out.data[j][i] == if landmask[j][i] == 1 then NaN else interp(v, back(out.lon[j]), lats[i])
    {
      ShiftedOutputCell(interp, v, query, lats, landmask, j, i);
    }
  }

  /** Mask longitude 190 east: the first variable is interpolated at -170, the
      second at 190, outside the source's -180..180 range. */
  lemma LaterVariablesQueryRestored()
    ensures RestoreN(0, ShiftedSorted([190.0])) == [-170.0]
    ensures RestoreN(1, ShiftedSorted([190.0])) == [190.0]
  {
    assert MapSeq(ShiftLon, [190.0]) == [-170.0];
    assert SortSeq([-170.0]) == Insert(-170.0, SortSeq([]));
    assert MapSeq(RestoreLon, [-170.0]) == [190.0];
  }

  /** Lines 87-95 leave `lon_mask` itself reordered: mask longitudes [10, 190]
      come back as [190, 10]. */
  lemma MaskLeftReordered()
    ensures RestoreN(1, ShiftedSorted([10.0, 190.0])) == [190.0, 10.0]
  {
    assert MapSeq(ShiftLon, [10.0, 190.0]) == [10.0, -170.0];
    assert SortSeq([10.0, -170.0]) == Insert(10.0, SortSeq([-170.0]));
    assert SortSeq([-170.0]) == Insert(-170.0, SortSeq([]));
    assert Insert(10.0, [-170.0]) == [-170.0] + Insert(10.0, []);
    assert MapSeq(RestoreLon, [-170.0, 10.0]) == [190.0, 10.0];
  }

  /** On non-negative longitudes the restore does nothing, however often it runs. */
  lemma {:induction false} RestoreNIdle(k: nat, s: seq<real>)
    requires forall i :: 0 <= i < |s| ==> 0.0 <= s[i]
    ensures RestoreN(k, s) == s
  {
    if k > 0 {
      RestoreNIdle(k - 1, s);
      assert MapSeq(RestoreLon, s) == s;
    }
  }

  /** Mask longitudes in [0,180] are not moved by the shift, so the in-loop
      restore never changes them: every variable is then queried and labelled
      as the first one is, and the as-written loop gives what the corrected
      one gives. */
  lemma EastMaskAgrees(interp: (string, real, real) -> Cell, v: string, lon: seq<real>, lats: seq<real>,
                       landmask: seq<seq<int>>, k: nat)
    requires forall i :: 0 <= i < |lon| ==> 0.0 <= lon[i] <= 180.0
    requires HasShape(landmask, |lon|, |lats|)
    ensures RestoreN(k, ShiftedSorted(lon)) == SortSeq(lon)
    ensures ShiftedOutput(interp, v, RestoreN(k, ShiftedSorted(lon)), RestoreN(k + 1, ShiftedSorted(lon)), lats, landmask)
         == ShiftedOutput(interp, v, RestoreN(0, ShiftedSorted(lon)), RestoreN(1, ShiftedSorted(lon)), lats, landmask)
  {
    var sh := ShiftedSorted(lon);
    assert MapSeq(ShiftLon, lon) == lon;
    SortSeqProps(lon);
    assert sh == SortSeq(lon);
    forall j | 0 <= j < |sh| ensures 0.0 <= sh[j] {
      PermMember(lon, sh, j);
    }
    RestoreNIdle(k, sh);
    RestoreNIdle(k + 1, sh);
    RestoreNIdle(1, sh);
  }

  // ---- interp2d_nc with the restore taken out of the loop ----

  /** The shifting branch as evidently intended: every variable is interpolated
      at the shifted, sorted longitudes of a copy of the mask longitudes, and
      labelled with those longitudes restored once. The mask array is not touched. */
  method InterpShiftedFixed<A>(src: Source<A>, varNames: seq<string>, lonMask: array<real>, latMask: seq<real>,
                               landmask: seq<seq<int>>, interp: (string, real, real) -> Cell)
    returns (r: Result<seq<Regridded>, ReadError>)
    requires HasShape(landmask, lonMask.Length, |latMask|)
    ensures r.Ok? <==> forall k :: 0 <= k < |varNames| ==> CallError(src, varNames[k]).None?
    ensures r.Ok? ==> |r.value| == |varNames| && forall k :: 0 <= k < |varNames| ==>
      r.value[k] == ShiftedOutput(interp, varNames[k], RestoreN(0, ShiftedSorted(lonMask[..])),
                                  RestoreN(1, ShiftedSorted(lonMask[..])), latMask, landmask)
  {
    var tmp := new real[lonMask.Length](i requires 0 <= i < lonMask.Length reads lonMask => lonMask[i]);
    assert tmp[..] == lonMask[..];
    ShiftWest(tmp);
    SortInPlace(tmp);
    var query := tmp[..];
    var coords := MapSeq(RestoreLon, query);
    var outs: seq<Regridded> := [];
    for k := 0 to |varNames|
      invariant |outs| == k
      invariant forall m :: 0 <= m < k ==> CallError(src, varNames[m]).None?
      invariant forall m :: 0 <= m < k ==> outs[m] == ShiftedOutput(interp, varNames[m], query, coords, latMask, landmask)
    {
      var e := CallError(src, varNames[k]);
      if e.Some? {
        return Err(e.value);
      }
      var out := LabelSortMask(varNames[k], query, coords, latMask, landmask, interp);
      outs := outs + [out];
    }
    r := Ok(outs);
  }

  /** `interp2d_nc` as evidently intended. For mask longitudes in [0,360) every
      variable of the shifting branch comes out on the mask longitudes in
      ascending order, holding at longitude x the source values at ShiftLon(x). */
  method Interp2dNcFixed<A>(src: Source<A>, varNames: seq<string>, lonMask: array<real>, latMask: seq<real>,
                            landmask: seq<seq<int>>, interp: (string, real, real) -> Cell)
    returns (r: Result<seq<Regridded>, ReadError>)
    requires HasShape(landmask, lonMask.Length, |latMask|)
    ensures r.Ok? <==> (src.LonName() in src.coords && |src.coords[src.LonName()]| > 0 &&
      forall k :: 0 <= k < |varNames| ==> CallError(src, varNames[k]).None?)
    ensures r.Ok? ==> |r.value| == |varNames| && forall k :: 0 <= k < |varNames| ==>
      |r.value[k].lon| == lonMask.Length && HasShape(r.value[k].data, lonMask.Length, |latMask|)
    ensures r.Ok? && !HasNegative(src.coords[src.LonName()]) ==> forall k :: 0 <= k < |varNames| ==>
      r.value[k] == PlainOutput(interp, varNames[k], lonMask[..], latMask, landmask)
    ensures r.Ok? && HasNegative(src.coords[src.LonName()]) ==> forall k :: 0 <= k < |varNames| ==>
      r.value[k] == ShiftedOutput(interp, varNames[k], RestoreN(0, ShiftedSorted(lonMask[..])),
                                  RestoreN(1, ShiftedSorted(lonMask[..])), latMask, landmask)
    ensures r.Ok? && HasNegative(src.coords[src.LonName()]) && InRange(lonMask[..], 0.0, 360.0) ==>
      forall k :: 0 <= k < |varNames| ==>
        r.value[k].lon == SortSeq(lonMask[..]) && |r.value[k].lon| == lonMask.Length &&
        HasShape(r.value[k].data, lonMask.Length, |latMask|) &&
        forall j, i :: 0 <= j < lonMask.Length && 0 <= i < |latMask| ==>
          r.value[k].data[j][i] == if landmask[j][i] == 1 then NaN else interp(varNames[k], ShiftLon(r.value[k].lon[j]), latMask[i])
  {
    var lonName := src.LonName();
    if lonName !in src.coords {
      return Err(KeyNotFound(lonName));
    }
    if |src.coords[lonName]| == 0 {
      return Err(EmptyCoordinate(lonName));
    }
    if HasNegative(src.coords[lonName]) {
      r := InterpShiftedFixed(src, varNames, lonMask, latMask, landmask, interp);
      if r.Ok? && InRange(lonMask[..], 0.0, 360.0) {
        forall k | 0 <= k < |varNames|
          ensures r.value[k].lon == SortSeq(lonMask[..]) && |r.value[k].lon| == lonMask.Length &&
            HasShape(r.value[k].data, lonMask.Length, |latMask|) &&
            forall j, i :: 0 <= j < lonMask.Length && 0 <= i < |latMask| ==>
            r.value[k].data[j][i] == if landmask[j][i] == 1 then NaN else interp(varNames[k], ShiftLon(r.value[k].lon[j]), latMask[i])
        {
          ShiftedOutputLon(interp, varNames[k], lonMask[..], latMask, landmask, 0);
          FirstVariableColumns(interp, varNames[k], lonMask[..], latMask, landmask);
        }
      }
    } else {
      r := InterpPlain(src, varNames, lonMask, latMask, landmask, interp);
    }
  }
}
