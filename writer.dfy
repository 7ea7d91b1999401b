/** `write_nc` and its inner `write_var` (tools/pre_function.py:15-63): merge the
    new timestamps into the file's time axis, reindex every variable onto the
    merged axis, then overwrite, variable by variable, the rows at the new times.
    The file is given as the value it holds once opened; creating it from a CDL
    template, deleting and re-saving it are file operations outside the model. */
module Writer {
  import opened Cells
  import opened Results
  import opened Sorting
  import opened TimeAxis

  /** One time step of a variable, its spatial grid flattened. */
  type Row = seq<Cell>

  /** A data variable: one row per entry of the file's time axis, each `width` long. */
  datatype Var = Var(width: nat, rows: seq<Row>)

  /** An opened file: time axis, coordinate variables, data variables. */
  datatype FileState = FileState(time: seq<Time>, coords: map<string, seq<real>>, vars: map<string, Var>)

  /** The shape every stored variable has: as many rows as times, all of one width. */
  predicate Consistent(st: FileState)
  {
    forall v :: v in st.vars ==> |st.vars[v].rows| == |st.time| && IsRect(st.vars[v].rows, st.vars[v].width)
  }

  /** The `dims` argument: a single name (only coordinates are written this way)
      or a tuple of dimension names. */
  datatype Dims = Name(name: string) | Tuple(names: seq<string>)

  /** The data passed for one variable: 1-D coordinate values, or one row per new time. */
  datatype Payload = Values(values: seq<real>) | Slices(slices: seq<Row>)

  datatype Item = Item(data: Payload, name: string, dims: Dims)

  datatype WriteError =
    | DuplicateTime               // reindexing an axis that repeats a timestamp
    | MissingVariable(name: string)
    | ShapeMismatch(name: string)

  /** `var_name == dims`: a string equals only a string. */
  predicate IsCoordWrite(it: Item)
  {
    it.dims.Name? && it.dims.name == it.name
  }

  /** The first position of `t` in `s`. */
  function IndexOf(s: seq<Time>, t: Time): (i: nat)
    requires t in s
    ensures i < |s| && s[i] == t
    ensures forall j :: 0 <= j < i ==> s[j] != t
  {
    if s[0] == t then 0 else 1 + IndexOf(s[1..], t)
  }

  lemma IndexOfDistinct(s: seq<Time>, k: nat)
    requires Distinct(s) && k < |s|
    ensures IndexOf(s, s[k]) == k
  {
  }

  function NaNRow(width: nat): (r: Row)
    ensures |r| == width && forall j :: 0 <= j < width ==> r[j] == NaN
  {
    seq(width, _ => NaN)
  }

  /** `reindex(time=axis)` on one variable: the stored row for a time the file
      already had, a row of NaN for a time it did not. */
  function Reindex(oldTime: seq<Time>, v: Var, axis: seq<Time>): (r: Var)
    requires |v.rows| == |oldTime| && IsRect(v.rows, v.width)
    ensures r.width == v.width && |r.rows| == |axis| && IsRect(r.rows, r.width)
  {
    Var(v.width, seq(|axis|, k requires 0 <= k < |axis| =>
      if axis[k] in oldTime then v.rows[IndexOf(oldTime, axis[k])] else NaNRow(v.width)))
  }

  /** Lines 41-48: the merged axis, every variable reindexed onto it. */
  function MergeTime(f: FileState, newTimes: seq<Time>): (r: Result<FileState, WriteError>)
    requires Consistent(f)
    ensures r.Err? <==> !Distinct(f.time)
    ensures r.Ok? ==> Consistent(r.value) && r.value.time == MergedAxis(f.time, newTimes)
    ensures r.Ok? ==> r.value.coords == f.coords && r.value.vars.Keys == f.vars.Keys
  {
    if !Distinct(f.time) then Err(DuplicateTime)
    else
      var axis := MergedAxis(f.time, newTimes);
      Ok(FileState(axis, f.coords, map v | v in f.vars :: Reindex(f.time, f.vars[v], axis)))
  }

  /** The rows after the loop of lines 26-27: each row whose time is one of the
      new times holds that time's slice, every other row is as it was. */
  function Overwritten(axis: seq<Time>, rows: seq<Row>, newTimes: seq<Time>, slices: seq<Row>): (r: seq<Row>)
    requires |rows| == |axis| && |slices| == |newTimes|
    ensures |r| == |rows|
  {
    seq(|rows|, i requires 0 <= i < |rows| =>
      if axis[i] in newTimes then slices[IndexOf(newTimes, axis[i])] else rows[i])
  }

  /** Lines 25-27: `for tm in new_time: da_back[da_back.time == tm] = data.sel(time=tm)`,
      in place on the variable's rows. */
  method OverwriteRows(axis: seq<Time>, back: array<Row>, newTimes: seq<Time>, slices: seq<Row>)
    requires back.Length == |axis| && |slices| == |newTimes| && Distinct(newTimes)
    modifies back
    ensures back[..] == Overwritten(axis, old(back[..]), newTimes, slices)
  {
    for k := 0 to |newTimes|
      invariant forall i :: 0 <= i < back.Length ==>
        back[i] == if axis[i] in newTimes[..k] then slices[IndexOf(newTimes, axis[i])] else old(back[i])
    {
      var tm := newTimes[k];
      IndexOfDistinct(newTimes, k);
      for i := 0 to back.Length
        invariant forall p :: 0 <= p < back.Length ==>
          back[p] == if axis[p] in newTimes[..k] || (p < i && axis[p] == tm)
                     then slices[IndexOf(newTimes, axis[p])] else old(back[p])
      {
        if axis[i] == tm {
          back[i] := slices[k];
        }
      }
      assert newTimes[..k + 1] == newTimes[..k] + [tm];
    }
    assert newTimes[..|newTimes|] == newTimes;
  }

  /** `write_var` on the merged file: coordinates are replaced by values of the
      same length (`assign_coords` refuses a size that conflicts with the
      dimension), data variables have their rows at the new times overwritten. */
  function WriteItem(st: FileState, it: Item, newTimes: seq<Time>): (r: Result<FileState, WriteError>)
    requires Consistent(st) && Distinct(newTimes)
    ensures r.Ok? ==> Consistent(r.value) && r.value.time == st.time
    ensures r.Ok? ==> r.value.vars.Keys == st.vars.Keys && r.value.coords.Keys == st.coords.Keys
    ensures r.Ok? ==> forall c :: c in st.coords ==> |r.value.coords[c]| == |st.coords[c]|
    ensures IsCoordWrite(it) ==>
      (r.Ok? <==> it.name in st.coords && it.data.Values? && |it.data.values| == |st.coords[it.name]|)
    ensures r.Ok? && IsCoordWrite(it) ==>
      it.data.Values? && r.value.vars == st.vars && r.value.coords == st.coords[it.name := it.data.values]
    ensures !IsCoordWrite(it) && it.name !in st.vars ==> r.Err?
  {
    if IsCoordWrite(it) then
      if it.name !in st.coords then Err(MissingVariable(it.name))
      else if !it.data.Values? || |it.data.values| != |st.coords[it.name]| then Err(ShapeMismatch(it.name))
      else Ok(st.(coords := st.coords[it.name := it.data.values]))
    else if !it.data.Slices? || |it.data.slices| != |newTimes| then Err(ShapeMismatch(it.name))
    else if it.name !in st.vars then Err(MissingVariable(it.name))
    else
      var v := st.vars[it.name];
      if !IsRect(it.data.slices, v.width) then Err(ShapeMismatch(it.name))
      else
        var rows := Overwritten(st.time, v.rows, newTimes, it.data.slices);
        assert IsRect(rows, v.width);
        Ok(st.(vars := st.vars[it.name := Var(v.width, rows)]))
  }

  /** The loop of lines 51-53: items written in order, the first failure aborts. */
  function ApplyItems(st: FileState, items: seq<Item>, newTimes: seq<Time>): (r: Result<FileState, WriteError>)
    requires Consistent(st) && Distinct(newTimes)
    ensures r.Ok? ==> Consistent(r.value) && r.value.time == st.time
    ensures r.Ok? ==> r.value.vars.Keys == st.vars.Keys && r.value.coords.Keys == st.coords.Keys
    ensures r.Ok? ==> forall c :: c in st.coords ==> |r.value.coords[c]| == |st.coords[c]|
    decreases |items|
  {
    if items == [] then Ok(st)
    else
      match WriteItem(st, items[0], newTimes)
      case Err(e) => Err(e)
      case Ok(st1) => ApplyItems(st1, items[1..], newTimes)
  }

  /** What `write_nc` leaves in the file. */
  function WriteNcSpec(f: FileState, items: seq<Item>, newTimes: seq<Time>): Result<FileState, WriteError>
    requires Consistent(f) && Distinct(newTimes)
  {
    match MergeTime(f, newTimes)
    case Err(e) => Err(e)
    case Ok(st) => ApplyItems(st, items, newTimes)
  }

  /** `write_nc`, rebinding the dataset through one `write_var` per item. */
  method WriteNc(f: FileState, items: seq<Item>, newTimes: seq<Time>) returns (r: Result<FileState, WriteError>)
    requires Consistent(f) && Distinct(newTimes)
    ensures r == WriteNcSpec(f, items, newTimes)
  {
    var merged := MergeTime(f, newTimes);
    if merged.Err? {
      return Err(merged.error);
    }
    var st := merged.value;
    var k := 0;
    while k < |items|
      invariant 0 <= k <= |items|
      invariant Consistent(st)
      invariant WriteNcSpec(f, items, newTimes) == ApplyItems(st, items[k..], newTimes)
    {
      var it := items[k];
      assert items[k..][0] == it && items[k..][1..] == items[k + 1..];
      if IsCoordWrite(it) {
        if it.name !in st.coords {
          return Err(MissingVariable(it.name));
        } else if !it.data.Values? || |it.data.values| != |st.coords[it.name]| {
          return Err(ShapeMismatch(it.name));
        }
        st := st.(coords := st.coords[it.name := it.data.values]);
      } else {
        if !it.data.Slices? || |it.data.slices| != |newTimes| {
          return Err(ShapeMismatch(it.name));
        } else if it.name !in st.vars {
          return Err(MissingVariable(it.name));
        }
        var v := st.vars[it.name];
        if !IsRect(it.data.slices, v.width) {
          return Err(ShapeMismatch(it.name));
        }
        var back := new Row[|v.rows|](i requires 0 <= i < |v.rows| => v.rows[i]);
        assert back[..] == v.rows;
        OverwriteRows(st.time, back, newTimes, it.data.slices);
        assert IsRect(back[..], v.width);
        st := st.(vars := st.vars[it.name := Var(v.width, back[..])]);
      }
      k := k + 1;
    }
    r := Ok(st);
  }

  // ---- what a write leaves in the file ----

  /** The row a variable holds at time `t`. */
  function RowAt(st: FileState, v: string, t: Time): Row
    requires Consistent(st) && v in st.vars && t in st.time
  {
    st.vars[v].rows[IndexOf(st.time, t)]
  }

  /** One item leaves the rows at the times it does not rewrite alone, and leaves
      every other variable alone entirely. */
  lemma WriteItemFrame(st: FileState, it: Item, newTimes: seq<Time>, v: string, t: Time)
    requires Consistent(st) && Distinct(newTimes)
    requires WriteItem(st, it, newTimes).Ok? && v in st.vars && t in st.time
    requires t !in newTimes || v != it.name || IsCoordWrite(it)
    ensures RowAt(WriteItem(st, it, newTimes).value, v, t) == RowAt(st, v, t)
  {
  }

  /** The items leave the rows at old times that are not rewritten alone. */
  lemma {:induction false} ApplyItemsKeepsOtherTimes(st: FileState, items: seq<Item>, newTimes: seq<Time>, v: string, t: Time)
    requires Consistent(st) && Distinct(newTimes)
    requires ApplyItems(st, items, newTimes).Ok? && v in st.vars && t in st.time && t !in newTimes
    ensures RowAt(ApplyItems(st, items, newTimes).value, v, t) == RowAt(st, v, t)
    decreases |items|
  {
    if items != [] {
      var st1 := WriteItem(st, items[0], newTimes).value;
      WriteItemFrame(st, items[0], newTimes, v, t);
      ApplyItemsKeepsOtherTimes(st1, items[1..], newTimes, v, t);
    }
  }

  /** A variable no item names is left as reindexing made it. */
  lemma {:induction false} ApplyItemsKeepsUnnamed(st: FileState, items: seq<Item>, newTimes: seq<Time>, v: string)
    requires Consistent(st) && Distinct(newTimes)
    requires ApplyItems(st, items, newTimes).Ok? && v in st.vars
    requires forall m :: 0 <= m < |items| ==> items[m].name != v
    ensures ApplyItems(st, items, newTimes).value.vars[v] == st.vars[v]
    decreases |items|
  {
    if items != [] {
      var st1 := WriteItem(st, items[0], newTimes).value;
      ApplyItemsKeepsUnnamed(st1, items[1..], newTimes, v);
    }
  }

  /** Writer preservation: the merged axis is the file's new time axis, no
      variable or coordinate disappears, and every variable keeps, at every old
      time that is not rewritten, exactly the row it had. */
  lemma WriteNcPreserves(f: FileState, items: seq<Item>, newTimes: seq<Time>, v: string, t: Time)
    requires Consistent(f) && Distinct(newTimes)
    requires WriteNcSpec(f, items, newTimes).Ok?
    requires v in f.vars && t in f.time && t !in newTimes
    ensures WriteNcSpec(f, items, newTimes).value.time == MergedAxis(f.time, newTimes)
    ensures WriteNcSpec(f, items, newTimes).value.vars.Keys == f.vars.Keys
    ensures WriteNcSpec(f, items, newTimes).value.coords.Keys == f.coords.Keys
    ensures t in WriteNcSpec(f, items, newTimes).value.time
    ensures RowAt(WriteNcSpec(f, items, newTimes).value, v, t) == RowAt(f, v, t)
  {
    var st := MergeTime(f, newTimes).value;
    MergedMembers(f.time, newTimes);
    ApplyItemsKeepsOtherTimes(st, items, newTimes, v, t);
  }

  /** A variable that no item names holds, at each time of the merged axis, its
      old row if the file had that time, and a row of NaN otherwise. */
  lemma WriteNcUnnamedVar(f: FileState, items: seq<Item>, newTimes: seq<Time>, v: string, t: Time)
    requires Consistent(f) && Distinct(newTimes)
    requires WriteNcSpec(f, items, newTimes).Ok?
    requires v in f.vars && t in MergedAxis(f.time, newTimes)
    requires forall m :: 0 <= m < |items| ==> items[m].name != v
    ensures RowAt(WriteNcSpec(f, items, newTimes).value, v, t) ==
      if t in f.time then RowAt(f, v, t) else NaNRow(f.vars[v].width)
  {
    var st := MergeTime(f, newTimes).value;
    ApplyItemsKeepsUnnamed(st, items, newTimes, v);
  }

  /** After the last item that writes data variable `items[m].name`, that
      variable's row at the k-th new time is the k-th slice supplied. */
  lemma {:induction false} ApplyItemsWritesSlice(st: FileState, items: seq<Item>, newTimes: seq<Time>, m: nat, k: nat)
    requires Consistent(st) && Distinct(newTimes)
    requires ApplyItems(st, items, newTimes).Ok?
    requires m < |items| && !IsCoordWrite(items[m]) && items[m].name in st.vars
    requires forall m' :: m < m' < |items| ==> items[m'].name != items[m].name
    requires items[m].data.Slices? && k < |newTimes| && newTimes[k] in st.time
    ensures k < |items[m].data.slices|
    ensures RowAt(ApplyItems(st, items, newTimes).value, items[m].name, newTimes[k]) == items[m].data.slices[k]
    decreases |items|
  {
    var st1 := WriteItem(st, items[0], newTimes).value;
    if m == 0 {
      IndexOfDistinct(newTimes, k);
      var rest := items[1..];
      forall m' | 0 <= m' < |rest| ensures rest[m'].name != items[0].name { assert rest[m'] == items[m' + 1]; }
      ApplyItemsKeepsUnnamed(st1, rest, newTimes, items[0].name);
    } else {
      assert items[1..][m - 1] == items[m];
      ApplyItemsWritesSlice(st1, items[1..], newTimes, m - 1, k);
    }
  }

  /** Writer overwrite: after `write_nc`, the last data item for a variable has put
      its k-th slice at the k-th new time. */
  lemma WriteNcWritesSlice(f: FileState, items: seq<Item>, newTimes: seq<Time>, m: nat, k: nat)
    requires Consistent(f) && Distinct(newTimes)
    requires WriteNcSpec(f, items, newTimes).Ok?
    requires m < |items| && !IsCoordWrite(items[m]) && items[m].name in f.vars
    requires forall m' :: m < m' < |items| ==> items[m'].name != items[m].name
    requires items[m].data.Slices? && k < |newTimes|
    ensures k < |items[m].data.slices|
    ensures newTimes[k] in WriteNcSpec(f, items, newTimes).value.time
    ensures RowAt(WriteNcSpec(f, items, newTimes).value, items[m].name, newTimes[k]) == items[m].data.slices[k]
  {
    var st := MergeTime(f, newTimes).value;
    MergedMembers(f.time, newTimes);
    ApplyItemsWritesSlice(st, items, newTimes, m, k);
  }

  /** A file whose time axis repeats a timestamp cannot be reindexed: nothing is written. */
  lemma WriteNcDuplicateTime(f: FileState, items: seq<Item>, newTimes: seq<Time>)
    requires Consistent(f) && Distinct(newTimes) && !Distinct(f.time)
    ensures WriteNcSpec(f, items, newTimes) == Err(DuplicateTime)
  {
  }
}
