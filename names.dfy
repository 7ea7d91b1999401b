/** Coordinate-name resolution and the two readers built on it (`getll_nc`,
    `getdata_nc` in tools/pre_function.py). A coordinate name is chosen by joining,
    in candidate order, those aliases that the dataset declares; opening the file is
    out of scope, so a dataset is given as a value. */
module CoordNames {
  import opened Results

  const LonAliases: seq<string> := ["lon", "longitude"]
  const LatAliases: seq<string> := ["lat", "latitude"]

  /** The candidates that the dataset declares, in candidate order. */
  function Present(candidates: seq<string>, keys: set<string>): seq<string>
  {
    if candidates == [] then []
    else (if candidates[0] in keys then [candidates[0]] else []) + Present(candidates[1..], keys)
  }

  /** The concatenation of a list of strings (Python's `''.join`). */
  function Concat(names: seq<string>): string
  {
    if names == [] then "" else names[0] + Concat(names[1..])
  }

  /** `''.join([c for c in candidates if c in keys])`. */
  function Resolve(candidates: seq<string>, keys: set<string>): string
  {
    Concat(Present(candidates, keys))
  }

  lemma {:induction false} ConcatAppend(a: seq<string>, b: seq<string>)
    ensures Concat(a + b) == Concat(a) + Concat(b)
  {
    if a != [] {
      assert (a + b)[1..] == a[1..] + b;
      ConcatAppend(a[1..], b);
    } else {
      assert a + b == b;
    }
  }

  /** Present keeps exactly the declared candidates and keeps their order. */
  lemma {:induction false} PresentAppend(a: seq<string>, b: seq<string>, keys: set<string>)
    ensures Present(a + b, keys) == Present(a, keys) + Present(b, keys)
  {
    if a != [] {
      assert (a + b)[1..] == a[1..] + b;
      PresentAppend(a[1..], b, keys);
    } else {
      assert a + b == b;
    }
  }

  /** Resolution of a split candidate list is the join of the two resolutions. */
  lemma ResolveAppend(a: seq<string>, b: seq<string>, keys: set<string>)
    ensures Resolve(a + b, keys) == Resolve(a, keys) + Resolve(b, keys)
  {
    PresentAppend(a, b, keys);
    ConcatAppend(Present(a, keys), Present(b, keys));
  }

  lemma {:induction false} PresentNone(candidates: seq<string>, keys: set<string>)
    requires forall i :: 0 <= i < |candidates| ==> candidates[i] !in keys
    ensures Present(candidates, keys) == []
  {
    if candidates != [] {
      PresentNone(candidates[1..], keys);
    }
  }

  lemma {:induction false} PresentAll(candidates: seq<string>, keys: set<string>)
    requires forall i :: 0 <= i < |candidates| ==> candidates[i] in keys
    ensures Present(candidates, keys) == candidates
  {
    if candidates != [] {
      PresentAll(candidates[1..], keys);
      assert candidates == [candidates[0]] + candidates[1..];
    }
  }

  /** No declared candidate: the resolved name is the empty string. */
  lemma ResolveNone(candidates: seq<string>, keys: set<string>)
    requires forall i :: 0 <= i < |candidates| ==> candidates[i] !in keys
    ensures Resolve(candidates, keys) == ""
  {
    PresentNone(candidates, keys);
  }

  /** Exactly one declared candidate: the resolved name is that candidate. */
  lemma ResolveOne(candidates: seq<string>, keys: set<string>, k: nat)
    requires k < |candidates| && candidates[k] in keys
    requires forall i :: 0 <= i < |candidates| && i != k ==> candidates[i] !in keys
    ensures Resolve(candidates, keys) == candidates[k]
  {
    var before, after := candidates[..k], candidates[k + 1..];
    assert candidates == before + [candidates[k]] + after;
    ResolveAppend(before + [candidates[k]], after, keys);
    ResolveAppend(before, [candidates[k]], keys);
    forall i | 0 <= i < |before| ensures before[i] !in keys { assert before[i] == candidates[i]; }
    forall i | 0 <= i < |after| ensures after[i] !in keys { assert after[i] == candidates[k + 1 + i]; }
    ResolveNone(before, keys);
    ResolveNone(after, keys);
    PresentAll([candidates[k]], keys);
    assert Concat([candidates[k]]) == candidates[k] + Concat([]);
  }

  /** Every candidate declared: the resolved name is all of them concatenated. */
  lemma ResolveAll(candidates: seq<string>, keys: set<string>)
    requires forall i :: 0 <= i < |candidates| ==> candidates[i] in keys
    ensures Resolve(candidates, keys) == Concat(candidates)
  {
    PresentAll(candidates, keys);
  }

  /** The longitude name for the standard aliases, case by case. */
  lemma LonNameCases(keys: set<string>)
    ensures "lon" !in keys && "longitude" !in keys ==> Resolve(LonAliases, keys) == ""
    ensures "lon" in keys && "longitude" !in keys ==> Resolve(LonAliases, keys) == "lon"
    ensures "lon" !in keys && "longitude" in keys ==> Resolve(LonAliases, keys) == "longitude"
    ensures "lon" in keys && "longitude" in keys ==> Resolve(LonAliases, keys) == "lonlongitude"
  {
    if "lon" in keys && "longitude" !in keys { ResolveOne(LonAliases, keys, 0); }
    if "lon" !in keys && "longitude" in keys { ResolveOne(LonAliases, keys, 1); }
    if "lon" in keys && "longitude" in keys { ResolveAll(LonAliases, keys); }
    if "lon" !in keys && "longitude" !in keys { ResolveNone(LonAliases, keys); }
  }

  // ---- the dataset and the readers ----

  /** An opened dataset: its 1-D coordinate variables, its data variables
      (payload `A`, opaque) and its time axis. */
  datatype Source<A> = Source(coords: map<string, seq<real>>, data: map<string, A>, times: seq<int>)
  {
    /** `ds.keys()`: every variable name, coordinates included. */
    function Keys(): set<string> { coords.Keys + data.Keys }

    function LonName(): string { Resolve(LonAliases, Keys()) }
    function LatName(): string { Resolve(LatAliases, Keys()) }
  }

  datatype ReadError =
    | KeyNotFound(name: string)         // `ds[name]` on an undeclared name
    | TimeNotFound(time: int)           // `ds.sel(time=t)` on a missing time
    | CoordinateNotFound(name: string)  // a selection keyed by an unusable resolved name
    | EmptyCoordinate(name: string)     // `.min()` of a coordinate with no values

  /** `getll_nc`: the longitude and latitude values under the resolved names. */
  function GetLL<A>(ds: Source<A>): (r: Result<(seq<real>, seq<real>), ReadError>)
    ensures r.Ok? <==> ds.LonName() in ds.coords && ds.LatName() in ds.coords
    ensures r.Ok? ==> r.value == (ds.coords[ds.LonName()], ds.coords[ds.LatName()])
    ensures ds.LonName() !in ds.coords ==> r == Err(KeyNotFound(ds.LonName()))
    ensures ds.LonName() in ds.coords && ds.LatName() !in ds.coords ==> r == Err(KeyNotFound(ds.LatName()))
  {
    var lonName, latName := ds.LonName(), ds.LatName();
    if lonName !in ds.coords then Err(KeyNotFound(lonName))
    else if latName !in ds.coords then Err(KeyNotFound(latName))
    else Ok((ds.coords[lonName], ds.coords[latName]))
  }

  /** A file declaring only `longitude`/`latitude` yields those coordinates. */
  lemma GetLLLongNames<A>(ds: Source<A>)
    requires "longitude" in ds.coords && "latitude" in ds.coords
    requires "lon" !in ds.Keys() && "lat" !in ds.Keys()
    ensures GetLL(ds) == Ok((ds.coords["longitude"], ds.coords["latitude"]))
  {
    LonNameCases(ds.Keys());
    ResolveOne(LatAliases, ds.Keys(), 1);
  }

  /** A file declaring both `lon` and `longitude` resolves to the name
      "lonlongitude", which it does not declare, and the lookup fails. */
  lemma GetLLBothAliases<A>(ds: Source<A>)
    requires "lon" in ds.Keys() && "longitude" in ds.Keys() && "lonlongitude" !in ds.Keys()
    ensures GetLL(ds) == Err(KeyNotFound("lonlongitude"))
  {
    LonNameCases(ds.Keys());
  }

  /** A file declaring neither alias fails on the empty name. */
  lemma GetLLNoAlias<A>(ds: Source<A>)
    requires "lon" !in ds.Keys() && "longitude" !in ds.Keys() && "" !in ds.Keys()
    ensures GetLL(ds) == Err(KeyNotFound(""))
  {
    LonNameCases(ds.Keys());
  }

  /** One variable through the selections `getdata_nc` applies: the time slice,
      then nearest-neighbour selection along longitude and latitude by the
      resolved names. The selections themselves are library calls, given as
      `selTime` and `selNearest`. */
  function SelectOne<A>(ds: Source<A>, v: string, time: Option<int>, lonSel: Option<seq<real>>,
                        latSel: Option<seq<real>>, selTime: (A, int) -> A,
                        selNearest: (A, string, seq<real>) -> A): Result<A, ReadError>
  {
    if v !in ds.data then Err(KeyNotFound(v))
    else
      var da0 := if time.Some? then selTime(ds.data[v], time.value) else ds.data[v];
      if lonSel.Some? && ds.LonName() !in ds.coords then Err(CoordinateNotFound(ds.LonName()))
      else
        var da1 := if lonSel.Some? then selNearest(da0, ds.LonName(), lonSel.value) else da0;
        if latSel.Some? && ds.LatName() !in ds.coords then Err(CoordinateNotFound(ds.LatName()))
        else Ok(if latSel.Some? then selNearest(da1, ds.LatName(), latSel.value) else da1)
  }

  /** The per-variable loop of `getdata_nc`; the first failing variable aborts. */
  function SelectAll<A>(ds: Source<A>, vars: seq<string>, time: Option<int>, lonSel: Option<seq<real>>,
                        latSel: Option<seq<real>>, selTime: (A, int) -> A,
                        selNearest: (A, string, seq<real>) -> A): (r: Result<seq<A>, ReadError>)
    ensures r.Ok? <==> forall k :: 0 <= k < |vars| ==> SelectOne(ds, vars[k], time, lonSel, latSel, selTime, selNearest).Ok?
    ensures r.Ok? ==> |r.value| == |vars|
    ensures r.Ok? ==>
      forall k :: 0 <= k < |vars| ==> r.value[k] == SelectOne(ds, vars[k], time, lonSel, latSel, selTime, selNearest).value
  {
    if vars == [] then Ok([])
    else
      match SelectOne(ds, vars[0], time, lonSel, latSel, selTime, selNearest)
      case Err(e) => Err(e)
      case Ok(a) =>
        match SelectAll(ds, vars[1..], time, lonSel, latSel, selTime, selNearest)
        case Err(e) => Err(e)
        case Ok(rest) => Ok([a] + rest)
  }

  /** `getdata_nc`: the time selection is made on the whole dataset first. */
  function GetData<A>(ds: Source<A>, vars: seq<string>, time: Option<int>, lonSel: Option<seq<real>>,
                      latSel: Option<seq<real>>, selTime: (A, int) -> A,
                      selNearest: (A, string, seq<real>) -> A): (r: Result<seq<A>, ReadError>)
    ensures r.Ok? <==>
      && (time.Some? ==> time.value in ds.times)
      && (forall k :: 0 <= k < |vars| ==> vars[k] in ds.data)
      && (|vars| > 0 && lonSel.Some? ==> ds.LonName() in ds.coords)
      && (|vars| > 0 && latSel.Some? ==> ds.LatName() in ds.coords)
    ensures time.Some? && time.value !in ds.times ==> r == Err(TimeNotFound(time.value))
    ensures r.Ok? ==> |r.value| == |vars|
    ensures r.Ok? ==>
      forall k :: 0 <= k < |vars| ==> r.value[k] == SelectOne(ds, vars[k], time, lonSel, latSel, selTime, selNearest).value
  {
    if time.Some? && time.value !in ds.times then Err(TimeNotFound(time.value))
    else
      var r := SelectAll(ds, vars, time, lonSel, latSel, selTime, selNearest);
      assert |vars| > 0 ==> (r.Ok? ==> SelectOne(ds, vars[0], time, lonSel, latSel, selTime, selNearest).Ok?);
      r
  }

  /** Without a longitude or latitude selection the resolved names are never
      used, so reading succeeds even when no alias is declared. */
  lemma GetDataIgnoresNamesWithoutSelection<A>(ds: Source<A>, vars: seq<string>, time: Option<int>,
                                              selTime: (A, int) -> A, selNearest: (A, string, seq<real>) -> A)
    requires time.Some? ==> time.value in ds.times
    requires forall k :: 0 <= k < |vars| ==> vars[k] in ds.data
    ensures GetData(ds, vars, time, None, None, selTime, selNearest).Ok?
  {
  }
}
