/** src/models/View.ts: the two kinds of cube view. An MDX view is a name and an MDX
    query; a native view is a name, its column, row and title axes and two suppression
    flags, edited in place and serialised with one loop per axis list. */
module Views {
  import opened Wrappers
  import opened JsValue
  import JsArray
  import ViewAxes
  import Subsets

  /** The `ViewType` enum: the OData type names of the two kinds of view. */
  const NativeType := "ibm.tm1.api.v1.NativeView"
  const MdxType := "ibm.tm1.api.v1.MDXView"

  /** The `ViewContext` enum: the collection a view lives in. */
  const PublicContext := "Views"
  const PrivateContext := "PrivateViews"

  // ---------------------------------------------------------------------------
  // MDXView

  datatype MDXView = MDXView(name: Js, mdx: Js)

  /** `MDXView.fromJson(data)`: `Name` and `MDX` as the response has them. */
  function MdxFromJson(data: Js): (r: Result<MDXView>)
    ensures data.Undefined? || data.Null? ==> r == Err(TypeError)
    ensures !data.Undefined? && !data.Null? ==> r.Ok? && r.value.name == Field(data, "Name") && r.value.mdx == Field(data, "MDX")
  {
    if data.Undefined? || data.Null? then Err(TypeError) else Ok(MDXView(Field(data, "Name"), Field(data, "MDX")))
  }

  /** `mdxView.body`: the MDX odata type, `Name` and `MDX`, in that order. */
  function MdxBody(v: MDXView): (r: Js)
    ensures KeysOf(r) == ["@odata.type", "Name", "MDX"]
    ensures Field(r, "@odata.type") == Str(MdxType)
  {
    var fs := [("@odata.type", Str(MdxType)), ("Name", v.name), ("MDX", v.mdx)];
    FieldsOfLiteral(fs);
    assert Field(Obj(fs), fs[0].0) == fs[0].1;
    Obj(fs)
  }

  /** Reading a body back gives the same view. */
  lemma MdxRoundTrip(v: MDXView)
    ensures MdxFromJson(MdxBody(v)) == Ok(v)
  {
    var fs := MdxBody(v).fields;
    FieldsOfLiteral(fs);
    assert Field(MdxBody(v), fs[1].0) == v.name;
    assert Field(MdxBody(v), fs[2].0) == v.mdx;
  }

  // ---------------------------------------------------------------------------
  // Removing the first axis of a dimension

  /** An axis list with its first element satisfying `p` taken out, if there is one. */
  function RemoveFirst<A>(s: seq<A>, p: A -> bool): (r: seq<A>)
    ensures |s| - 1 <= |r| <= |s|
    ensures multiset(r) <= multiset(s)
    decreases |s|
  {
    if s == [] then []
    else if p(s[0]) then assert s == [s[0]] + s[1..]; s[1..]
    else assert s == [s[0]] + s[1..]; [s[0]] + RemoveFirst(s[1..], p)
  }

  /** The `findIndex`/`splice` pair guarded by `index !== -1` is `RemoveFirst`. */
  lemma {:induction false} FindIndexSpliceIsRemoveFirst<A>(s: seq<A>, p: A -> bool)
    ensures JsArray.SpliceIfFound(s, JsArray.FindIndex(s, p)) == RemoveFirst(s, p)
    decreases |s|
  {
    if s == [] {
    } else if p(s[0]) {
      assert JsArray.FindIndex(s, p) == 0;
      JsArray.SpliceAtIndex(s, 0);
    } else {
      FindIndexSpliceIsRemoveFirst(s[1..], p);
      var k := JsArray.FindIndex(s[1..], p);
      assert JsArray.FindIndex(s, p) == if k == -1 then -1 else k + 1;
      if k != -1 {
        JsArray.SpliceBehindHead(s, k);
      }
    }
  }

  /** Nothing matches: nothing is removed. */
  lemma {:induction false} RemoveFirstNoMatch<A>(s: seq<A>, p: A -> bool)
    requires forall j :: 0 <= j < |s| ==> !p(s[j])
    ensures RemoveFirst(s, p) == s
    decreases |s|
  {
    if s != [] {
      RemoveFirstNoMatch(s[1..], p);
    }
  }

  /** Something matches: exactly the first match is removed, and the rest keep their order. */
  lemma {:induction false} RemoveFirstAt<A>(s: seq<A>, p: A -> bool, i: int)
    requires 0 <= i < |s| && p(s[i]) && forall j :: 0 <= j < i ==> !p(s[j])
    ensures RemoveFirst(s, p) == s[..i] + s[i + 1..]
    ensures |RemoveFirst(s, p)| == |s| - 1
    decreases |s|
  {
    if i > 0 {
      RemoveFirstAt(s[1..], p, i - 1);
      assert [s[0]] + (s[1..][..i - 1] + s[1..][i..]) == s[..i] + s[i + 1..];
    }
  }

  /** Adding an axis for a dimension no axis has yet and then removing that dimension gives
      back the axes as they were. */
  lemma AddThenRemove<A>(s: seq<A>, a: A, p: A -> bool)
    requires forall j :: 0 <= j < |s| ==> !p(s[j])
    requires p(a)
    ensures RemoveFirst(s + [a], p) == s
  {
    var t := s + [a];
    RemoveFirstAt(t, p, |s|);
    assert t[..|s|] == s;
  }

  function SelectionOn(dimensionName: string): ViewAxes.ViewAxisSelection -> bool {
    (c: ViewAxes.ViewAxisSelection) => c.subset.dimensionName == dimensionName
  }

  function TitleOn(dimensionName: string): ViewAxes.ViewAxisTitle -> bool {
    (t: ViewAxes.ViewAxisTitle) => t.subset.dimensionName == dimensionName
  }

  // ---------------------------------------------------------------------------
  // The native view body

  /** The keys of a native view body, in the order `constructBody` writes them. */
  const NativeKeys := ["@odata.type", "Name", "SuppressEmptyColumns", "SuppressEmptyRows", "Columns", "Rows", "Titles"]

  lemma NativeKeysDistinct()
    ensures Distinct(NativeKeys)
  {
  }

  /** The body object once the axis bodies are known. */
  function NativeObject(name: string, sc: Js, sr: Js, cs: seq<Js>, rs: seq<Js>, ts: seq<Js>): (r: Js)
    ensures KeysOf(r) == NativeKeys
    ensures Field(r, "@odata.type") == Str(NativeType) && Field(r, "Name") == Str(name)
    ensures Field(r, "SuppressEmptyColumns") == sc && Field(r, "SuppressEmptyRows") == sr
    ensures Field(r, "Columns") == Arr(cs) && Field(r, "Rows") == Arr(rs) && Field(r, "Titles") == Arr(ts)
  {
    var vs := [Str(NativeType), Str(name), sc, sr, Arr(cs), Arr(rs), Arr(ts)];
    NativeKeysDistinct();
    FieldsOfKeys(NativeKeys, vs);
    assert NativeKeys[0] == "@odata.type" && NativeKeys[1] == "Name";
    assert NativeKeys[2] == "SuppressEmptyColumns" && NativeKeys[3] == "SuppressEmptyRows";
    assert NativeKeys[4] == "Columns" && NativeKeys[5] == "Rows" && NativeKeys[6] == "Titles";
    Obj(Zip(NativeKeys, vs))
  }

  function NativeBody(name: string, suppressEmptyColumns: Js, suppressEmptyRows: Js,
                      columns: seq<ViewAxes.ViewAxisSelection>, rows: seq<ViewAxes.ViewAxisSelection>,
                      titles: seq<ViewAxes.ViewAxisTitle>): (r: Result<Js>)
    ensures r.Ok? ==> KeysOf(r.value) == NativeKeys && Field(r.value, "Name") == Str(name)
  {
    var cs :- MapResult(columns, ViewAxes.SelectionBody);
    var rs :- MapResult(rows, ViewAxes.SelectionBody);
    var ts :- MapResult(titles, ViewAxes.TitleBody);
    Ok(NativeObject(name, suppressEmptyColumns, suppressEmptyRows, cs, rs, ts))
  }

  /** A native view body fails exactly when some axis body throws. */
  lemma NativeBodyFails(name: string, sc: Js, sr: Js, columns: seq<ViewAxes.ViewAxisSelection>,
                        rows: seq<ViewAxes.ViewAxisSelection>, titles: seq<ViewAxes.ViewAxisTitle>)
    ensures NativeBody(name, sc, sr, columns, rows, titles).Ok? <==>
              (forall j :: 0 <= j < |columns| ==> ViewAxes.SelectionBody(columns[j]).Ok?) &&
              (forall j :: 0 <= j < |rows| ==> ViewAxes.SelectionBody(rows[j]).Ok?) &&
              (forall j :: 0 <= j < |titles| ==> ViewAxes.TitleBody(titles[j]).Ok?)
  {
  }

  /** Each axis list of the body has one entry per axis, that axis's own body. */
  lemma NativeBodyAxes(name: string, sc: Js, sr: Js, columns: seq<ViewAxes.ViewAxisSelection>,
                       rows: seq<ViewAxes.ViewAxisSelection>, titles: seq<ViewAxes.ViewAxisTitle>)
    requires NativeBody(name, sc, sr, columns, rows, titles).Ok?
    ensures var b := NativeBody(name, sc, sr, columns, rows, titles).value;
            Field(b, "Columns").Arr? && Field(b, "Rows").Arr? && Field(b, "Titles").Arr?
    ensures var b := NativeBody(name, sc, sr, columns, rows, titles).value;
            |Field(b, "Columns").items| == |columns| && |Field(b, "Rows").items| == |rows| &&
            |Field(b, "Titles").items| == |titles|
    ensures var b := NativeBody(name, sc, sr, columns, rows, titles).value;
            (forall j :: 0 <= j < |columns| ==> Field(b, "Columns").items[j] == ViewAxes.SelectionBody(columns[j]).value) &&
            (forall j :: 0 <= j < |rows| ==> Field(b, "Rows").items[j] == ViewAxes.SelectionBody(rows[j]).value) &&
            (forall j :: 0 <= j < |titles| ==> Field(b, "Titles").items[j] == ViewAxes.TitleBody(titles[j]).value)
  {
  }

  /** One `for … of` loop of `constructBody`: the axis bodies pushed in order. */
  method PushBodies<A>(axes: seq<A>, body: A -> Result<Js>) returns (r: Result<seq<Js>>)
    ensures r == MapResult(axes, body)
  {
    var acc: seq<Js> := [];
    var i := 0;
    while i < |axes|
      invariant 0 <= i <= |axes| && |acc| == i
      invariant forall j :: 0 <= j < i ==> body(axes[j]).Ok? && acc[j] == body(axes[j]).value
    {
      var b := body(axes[i]);
      if b.Err? {
        MapResultFirstError(axes, body, i);
        return Err(b.error);
      }
      acc := acc + [b.value];
      i := i + 1;
    }
    assert MapResult(axes, body).value == acc;
    r := Ok(acc);
  }

  // ---------------------------------------------------------------------------
  // NativeView

  class NativeView {
    var name: string
    var columns: seq<ViewAxes.ViewAxisSelection>
    var rows: seq<ViewAxes.ViewAxisSelection>
    var titles: seq<ViewAxes.ViewAxisTitle>
    /** `true`, `false` or `undefined`: the constructor assigns the arguments over the
        `false` defaults, so an omitted flag is `undefined`. */
    var suppressEmptyColumns: Js
    var suppressEmptyRows: Js

    /** `new NativeView(name, columns, rows, titles, suppressEmptyColumns,
        suppressEmptyRows)`: each given axis list is copied element by element. */
    constructor (name: string, columns: Option<seq<ViewAxes.ViewAxisSelection>>,
                 rows: Option<seq<ViewAxes.ViewAxisSelection>>, titles: Option<seq<ViewAxes.ViewAxisTitle>>,
                 suppressEmptyColumns: Js, suppressEmptyRows: Js)
      ensures this.name == name
      ensures this.columns == (if columns.Some? then columns.value else [])
      ensures this.rows == (if rows.Some? then rows.value else [])
      ensures this.titles == (if titles.Some? then titles.value else [])
      ensures this.suppressEmptyColumns == suppressEmptyColumns && this.suppressEmptyRows == suppressEmptyRows
    {
      this.name := name;
      var cs: seq<ViewAxes.ViewAxisSelection> := [];
      if columns.Some? {
        var i := 0;
        while i < |columns.value|
          invariant 0 <= i <= |columns.value| && cs == columns.value[..i]
        {
          cs := cs + [columns.value[i]];
          i := i + 1;
        }
        assert columns.value[..i] == columns.value;
      }
      var rs: seq<ViewAxes.ViewAxisSelection> := [];
      if rows.Some? {
        var i := 0;
        while i < |rows.value|
          invariant 0 <= i <= |rows.value| && rs == rows.value[..i]
        {
          rs := rs + [rows.value[i]];
          i := i + 1;
        }
        assert rows.value[..i] == rows.value;
      }
      var ts: seq<ViewAxes.ViewAxisTitle> := [];
      if titles.Some? {
        var i := 0;
        while i < |titles.value|
          invariant 0 <= i <= |titles.value| && ts == titles.value[..i]
        {
          ts := ts + [titles.value[i]];
          i := i + 1;
        }
        assert titles.value[..i] == titles.value;
      }
      this.columns := cs;
      this.rows := rs;
      this.titles := ts;
      this.suppressEmptyColumns := suppressEmptyColumns;
      this.suppressEmptyRows := suppressEmptyRows;
    }

    method AddColumn(subset: Subsets.Subset)
      modifies this
      ensures columns == old(columns) + [ViewAxes.ViewAxisSelection(subset)]
      ensures name == old(name) && rows == old(rows) && titles == old(titles)
      ensures suppressEmptyColumns == old(suppressEmptyColumns) && suppressEmptyRows == old(suppressEmptyRows)
    {
      columns := columns + [ViewAxes.ViewAxisSelection(subset)];
    }

    method RemoveColumn(dimensionName: string)
      modifies this
      ensures columns == RemoveFirst(old(columns), SelectionOn(dimensionName))
      ensures name == old(name) && rows == old(rows) && titles == old(titles)
      ensures suppressEmptyColumns == old(suppressEmptyColumns) && suppressEmptyRows == old(suppressEmptyRows)
    {
      FindIndexSpliceIsRemoveFirst(columns, SelectionOn(dimensionName));
      var index := JsArray.FindIndex(columns, SelectionOn(dimensionName));
      if index != -1 {
        columns := JsArray.SpliceOne(columns, index);
      }
    }

    method AddRow(subset: Subsets.Subset)
      modifies this
      ensures rows == old(rows) + [ViewAxes.ViewAxisSelection(subset)]
      ensures name == old(name) && columns == old(columns) && titles == old(titles)
      ensures suppressEmptyColumns == old(suppressEmptyColumns) && suppressEmptyRows == old(suppressEmptyRows)
    {
      rows := rows + [ViewAxes.ViewAxisSelection(subset)];
    }

    method RemoveRow(dimensionName: string)
      modifies this
      ensures rows == RemoveFirst(old(rows), SelectionOn(dimensionName))
      ensures name == old(name) && columns == old(columns) && titles == old(titles)
      ensures suppressEmptyColumns == old(suppressEmptyColumns) && suppressEmptyRows == old(suppressEmptyRows)
    {
      FindIndexSpliceIsRemoveFirst(rows, SelectionOn(dimensionName));
      var index := JsArray.FindIndex(rows, SelectionOn(dimensionName));
      if index != -1 {
        rows := JsArray.SpliceOne(rows, index);
      }
    }

    method AddTitle(subset: Subsets.Subset, selection: string)
      modifies this
      ensures titles == old(titles) + [ViewAxes.ViewAxisTitle(subset, selection)]
      ensures name == old(name) && columns == old(columns) && rows == old(rows)
      ensures suppressEmptyColumns == old(suppressEmptyColumns) && suppressEmptyRows == old(suppressEmptyRows)
    {
      titles := titles + [ViewAxes.ViewAxisTitle(subset, selection)];
    }

    method RemoveTitle(dimensionName: string)
      modifies this
      ensures titles == RemoveFirst(old(titles), TitleOn(dimensionName))
      ensures name == old(name) && columns == old(columns) && rows == old(rows)
      ensures suppressEmptyColumns == old(suppressEmptyColumns) && suppressEmptyRows == old(suppressEmptyRows)
    {
      FindIndexSpliceIsRemoveFirst(titles, TitleOn(dimensionName));
      var index := JsArray.FindIndex(titles, TitleOn(dimensionName));
      if index != -1 {
        titles := JsArray.SpliceOne(titles, index);
      }
    }

    method SuppressEmptyCells()
      modifies this
      ensures suppressEmptyColumns == Bool(true) && suppressEmptyRows == Bool(true)
      ensures name == old(name) && columns == old(columns) && rows == old(rows) && titles == old(titles)
    {
      suppressEmptyColumns := Bool(true);
      suppressEmptyRows := Bool(true);
    }

    /** `nativeView.body`: the header fields, then one loop per axis list. */
    method ConstructBody() returns (r: Result<Js>)
      ensures r == NativeBody(name, suppressEmptyColumns, suppressEmptyRows, columns, rows, titles)
    {
      var cs := PushBodies(columns, ViewAxes.SelectionBody);
      if cs.Err? {
        return Err(cs.error);
      }
      var rs := PushBodies(rows, ViewAxes.SelectionBody);
      if rs.Err? {
        return Err(rs.error);
      }
      var ts := PushBodies(titles, ViewAxes.TitleBody);
      if ts.Err? {
        return Err(ts.error);
      }
      r := Ok(NativeObject(name, suppressEmptyColumns, suppressEmptyRows, cs.value, rs.value, ts.value));
    }
  }
  /** `list.map(parse)` on a response list: a `TypeError` unless it is an array. */
  function MappedList<A>(v: Js, parse: Js -> Result<A>): (r: Result<seq<A>>)
    ensures !v.Arr? ==> r == Err(TypeError)
    ensures v.Arr? ==> r == MapResult(v.items, parse)
  {
    if v.Arr? then MapResult(v.items, parse) else Err(TypeError)
  }

  /** `NativeView.fromJson(data)`: the three axis lists are mapped in the order the
      arguments are written, and the flags are passed through. It succeeds exactly when the
      three lists map and the name is a string. */
  method NativeFromJson(data: Js) returns (r: Result<NativeView>)
    ensures data.Undefined? || data.Null? ==> r == Err(TypeError)
    ensures !data.Undefined? && !data.Null? && !Field(data, "Columns").Arr? ==> r == Err(TypeError)
    ensures !data.Undefined? && !data.Null? ==>
              (r.Ok? <==> MappedList(Field(data, "Columns"), ViewAxes.SelectionFromJson).Ok? &&
                          MappedList(Field(data, "Rows"), ViewAxes.SelectionFromJson).Ok? &&
                          MappedList(Field(data, "Titles"), ViewAxes.TitleFromJson).Ok? &&
                          Field(data, "Name").Str?)
    ensures r.Ok? ==> fresh(r.value) && Field(data, "Name") == Str(r.value.name)
    ensures r.Ok? ==> MappedList(Field(data, "Columns"), ViewAxes.SelectionFromJson) == Ok(r.value.columns) &&
                      MappedList(Field(data, "Rows"), ViewAxes.SelectionFromJson) == Ok(r.value.rows) &&
                      MappedList(Field(data, "Titles"), ViewAxes.TitleFromJson) == Ok(r.value.titles)
    ensures r.Ok? ==> r.value.suppressEmptyColumns == Field(data, "SuppressEmptyColumns") &&
                      r.value.suppressEmptyRows == Field(data, "SuppressEmptyRows")
  {
    if data.Undefined? || data.Null? {
      return Err(TypeError);
    }
    var cs := MappedList(Field(data, "Columns"), ViewAxes.SelectionFromJson);
    if cs.Err? {
      return Err(cs.error);
    }
    var rs := MappedList(Field(data, "Rows"), ViewAxes.SelectionFromJson);
    if rs.Err? {
      return Err(rs.error);
    }
    var ts := MappedList(Field(data, "Titles"), ViewAxes.TitleFromJson);
    if ts.Err? {
      return Err(ts.error);
    }
    var name := AsString(Field(data, "Name"));
    if name.Err? {
      return Err(name.error);
    }
    var v := new NativeView(name.value, Some(cs.value), Some(rs.value), Some(ts.value),
                            Field(data, "SuppressEmptyColumns"), Field(data, "SuppressEmptyRows"));
    r := Ok(v);
  }
}
