/** src/models/Cube.ts: a cube's name, its dimensions and its rules, and the body that
    creates or updates it. */
module Cubes {
  import opened Wrappers
  import opened JsValue
  import OrderedMap
  import Bindings
  import TsEnums

  /** The constructor stores all three as given. `fromJson` hands `Dimensions` over as the
      response carries it, unchecked, and `rules` is `undefined` when omitted. */
  datatype Cube = Cube(name: Js, dimensions: Js, rules: Js)

  /** `new Cube(name, dimensions, rules)` with the list of dimension names the constructor
      is declared to take. */
  function NewCube(name: Js, dimensions: seq<string>, rules: Js): (c: Cube)
    ensures c.dimensions.Arr? && |c.dimensions.items| == |dimensions|
    ensures forall i :: 0 <= i < |dimensions| ==> c.dimensions.items[i] == Str(dimensions[i])
  {
    Cube(name, StrArr(dimensions), rules)
  }

  // ---------------------------------------------------------------------------
  // String conversion and iteration

  /** The values `for (const dimension of this.dimensions)` visits: an array's items and a
      string's characters; any other value is not iterable, and the loop throws. */
  function Iterated(v: Js): (r: Result<seq<Js>>)
    ensures r.Ok? <==> v.Arr? || v.Str?
    ensures v.Arr? ==> r == Ok(v.items)
    ensures v.Str? ==> |r.value| == |v.s| && forall i :: 0 <= i < |v.s| ==> r.value[i] == Str([v.s[i]])
    ensures r.Err? ==> r.error == TypeError
  {
    match v
    case Arr(items) => Ok(items)
    case Str(s) => Ok(seq(|s|, i requires 0 <= i < |s| => Str([s[i]])))
    case _ => Err(TypeError)
  }

  /** `Dimensions('${dimension}')` for one visited value. */
  function Bind(d: Js): (r: Option<Js>)
    ensures r.Some? <==> TsEnums.Text(d).Some?
    ensures r.Some? ==> r.value == Str(Bindings.Segment("Dimensions", TsEnums.Text(d).value))
  {
    match TsEnums.Text(d)
    case Some(t) => Some(Str(Bindings.Segment("Dimensions", t)))
    case None => None
  }

  predicate AllBound(ds: seq<Js>) {
    forall i :: 0 <= i < |ds| ==> Bind(ds[i]).Some?
  }

  /** The bindings for every visited value, in order. */
  function DimensionBinds(ds: seq<Js>): (r: seq<Js>)
    requires AllBound(ds)
    ensures |r| == |ds|
    ensures forall i :: 0 <= i < |ds| ==> r[i] == Str(Bindings.Segment("Dimensions", TsEnums.Text(ds[i]).value))
  {
    seq(|ds|, i requires 0 <= i < |ds| => Bind(ds[i]).value)
  }

  // ---------------------------------------------------------------------------
  // Body and response

  /** The body object for a given list of bindings. */
  function BodyObject(c: Cube, binds: seq<Js>): (r: Js)
    ensures KeysOf(r) == if Truthy(c.rules) then ["Name", "Dimensions@odata.bind", "Rules"]
                         else ["Name", "Dimensions@odata.bind"]
    ensures Field(r, "Name") == c.name
    ensures Field(r, "Dimensions@odata.bind") == Arr(binds)
    ensures Truthy(c.rules) ==> Field(r, "Rules") == c.rules
  {
    var fs := [("Name", c.name), ("Dimensions@odata.bind", Arr(binds))]
              + if Truthy(c.rules) then [("Rules", c.rules)] else [];
    FieldsOfLiteral(fs);
    assert Field(Obj(fs), fs[0].0) == c.name;
    assert Field(Obj(fs), fs[1].0) == Arr(binds);
    assert Truthy(c.rules) ==> Field(Obj(fs), fs[2].0) == c.rules;
    Obj(fs)
  }

  /** `cube.body`: `Name`, one binding per visited dimension, and `Rules` only when the
      rules are truthy. Dimensions that cannot be iterated throw TypeError; a visited
      value whose text is not modelled gives MalformedResponse. */
  function Body(c: Cube): (r: Result<Js>)
    ensures Iterated(c.dimensions).Err? ==> r == Err(TypeError)
    ensures Iterated(c.dimensions).Ok? ==> (r.Ok? <==> AllBound(Iterated(c.dimensions).value))
    ensures r.Ok? ==> Iterated(c.dimensions).Ok? && AllBound(Iterated(c.dimensions).value) &&
                      r.value == BodyObject(c, DimensionBinds(Iterated(c.dimensions).value))
  {
    match Iterated(c.dimensions)
    case Err(e) => Err(e)
    case Ok(ds) => if AllBound(ds) then Ok(BodyObject(c, DimensionBinds(ds))) else Err(MalformedResponse)
  }

  /** `constructBody()`: the `for … of` loop pushes one binding per visited value. */
  method ConstructBody(c: Cube) returns (r: Result<Js>)
    ensures r == Body(c)
  {
    var it := Iterated(c.dimensions);
    if it.Err? {
      return Err(TypeError);
    }
    var ds := it.value;
    var binds: seq<Js> := [];
    var i := 0;
    while i < |ds|
      invariant 0 <= i <= |ds| && |binds| == i
      invariant AllBound(ds[..i]) && binds == DimensionBinds(ds[..i])
    {
      var b := Bind(ds[i]);
      if b.None? {
        assert !AllBound(ds) by { assert Bind(ds[i]).None?; }
        return Err(MalformedResponse);
      }
      binds := binds + [b.value];
      i := i + 1;
      assert ds[..i] == ds[..i - 1] + [ds[i - 1]];
    }
    assert ds[..i] == ds;
    r := Ok(BodyObject(c, binds));
  }

  /** `Cube.fromJson(data)`: `Name`, `Dimensions` and `Rules` handed to the constructor as
      they come; a missing `Rules` is `undefined`. */
  function FromJson(data: Js): (r: Result<Cube>)
    ensures r.Err? <==> data.Undefined? || data.Null?
    ensures r.Err? ==> r.error == TypeError
    ensures r.Ok? ==> r.value.name == Field(data, "Name") && r.value.dimensions == Field(data, "Dimensions") &&
                      r.value.rules == Field(data, "Rules")
  {
    if data.Undefined? || data.Null? then Err(TypeError)
    else Ok(Cube(Field(data, "Name"), Field(data, "Dimensions"), Field(data, "Rules")))
  }

  /** What the services read: `?$expand=Dimensions($select=Name)` gives each dimension as
      an object holding its `Name`. */
  function NamedItem(d: string): (r: Js)
    ensures r.Obj? && Field(r, "Name") == Str(d)
  {
    var fs := [("Name", Str(d))];
    FieldsOfLiteral(fs);
    assert Field(Obj(fs), fs[0].0) == Str(d);
    Obj(fs)
  }

  function ExpandedResponse(name: string, dims: seq<string>): (r: Js)
    ensures Field(r, "Name") == Str(name)
    ensures Field(r, "Dimensions").Arr? && |Field(r, "Dimensions").items| == |dims|
    ensures forall i :: 0 <= i < |dims| ==> Field(r, "Dimensions").items[i] == NamedItem(dims[i])
  {
    var fs := [("Name", Str(name)), ("Dimensions", Arr(seq(|dims|, i requires 0 <= i < |dims| => NamedItem(dims[i]))))];
    FieldsOfLiteral(fs);
    assert Field(Obj(fs), fs[0].0) == Str(name);
    assert Field(Obj(fs), fs[1].0) == fs[1].1;
    Obj(fs)
  }

  /** `fromJson` as evidently intended: each dimension item replaced by its `Name`, as
      `getDimensionNames` in the cube service reads them. `undefined.map`, a value without
      `map` and a `null` item throw TypeError. */
  function FromJsonIntended(data: Js): (r: Result<Cube>)
    ensures r.Ok? <==> !data.Undefined? && !data.Null? && Field(data, "Dimensions").Arr? &&
                       forall i :: 0 <= i < |Field(data, "Dimensions").items| ==>
                         !Field(data, "Dimensions").items[i].Undefined? && !Field(data, "Dimensions").items[i].Null?
    ensures r.Err? ==> r.error == TypeError
    ensures r.Ok? ==> r.value.name == Field(data, "Name") && r.value.rules == Field(data, "Rules") &&
                      r.value.dimensions.Arr? && |r.value.dimensions.items| == |Field(data, "Dimensions").items| &&
                      forall i :: 0 <= i < |Field(data, "Dimensions").items| ==>
                        r.value.dimensions.items[i] == Field(Field(data, "Dimensions").items[i], "Name")
  {
    if data.Undefined? || data.Null? then Err(TypeError)
    else
      var dv := Field(data, "Dimensions");
      if !dv.Arr? then Err(TypeError)
      else if exists i :: 0 <= i < |dv.items| && (dv.items[i].Undefined? || dv.items[i].Null?) then Err(TypeError)
      else
        var names := seq(|dv.items|, i requires 0 <= i < |dv.items| => Field(dv.items[i], "Name"));
        Ok(Cube(Field(data, "Name"), Arr(names), Field(data, "Rules")))
  }

  // ---------------------------------------------------------------------------
  // Properties

  /** A cube built with dimension names binds each of them: read back, binding i gives
      dimension i. */
  lemma BindsNameDimensions(name: Js, dims: seq<string>, rules: Js, i: int)
    requires 0 <= i < |dims| && Bindings.QuoteFree(dims[i])
    ensures Body(NewCube(name, dims, rules)).Ok?
    ensures var binds := Field(Body(NewCube(name, dims, rules)).value, "Dimensions@odata.bind");
            binds.Arr? && |binds.items| == |dims| && binds.items[i].Str? &&
            Bindings.ParsePath(["Dimensions"], binds.items[i].s) == Some([dims[i]])
  {
    var c := NewCube(name, dims, rules);
    assert AllBound(c.dimensions.items);
    Bindings.SegmentPathRoundTrip("Dimensions", dims[i]);
  }

  /** A response without `Rules` gives a cube with undefined rules, whose body then has no
      `Rules` key. */
  lemma MissingRules(name: Js, dims: Js)
    requires Iterated(dims).Ok? && AllBound(Iterated(dims).value)
    ensures var data := Obj([("Name", name), ("Dimensions", dims)]);
            FromJson(data) == Ok(Cube(name, dims, Undefined)) &&
            Body(FromJson(data).value).Ok? &&
            KeysOf(Body(FromJson(data).value).value) == ["Name", "Dimensions@odata.bind"]
  {
    var fs := [("Name", name), ("Dimensions", dims)];
    FieldsOfLiteral(fs);
    assert Field(Obj(fs), fs[0].0) == name;
    assert Field(Obj(fs), fs[1].0) == dims;
    assert !OrderedMap.Has(fs, "Rules");
  }

  /** The body of a cube read from any response: it names the same cube and carries its
      truthy rules; it binds one path per dimension item, and it throws exactly when
      `Dimensions` cannot be iterated. */
  lemma BodyOfResponse(data: Js)
    requires !data.Undefined? && !data.Null?
    ensures FromJson(data).Ok?
    ensures var b := Body(FromJson(data).value);
            (b == Err(TypeError) <==> !Field(data, "Dimensions").Arr? && !Field(data, "Dimensions").Str?) &&
            (b.Ok? ==> Field(b.value, "Name") == Field(data, "Name")) &&
            (b.Ok? && Truthy(Field(data, "Rules")) ==> Field(b.value, "Rules") == Field(data, "Rules")) &&
            (b.Ok? && Field(data, "Dimensions").Arr? ==>
               |Field(b.value, "Dimensions@odata.bind").items| == |Field(data, "Dimensions").items|)
  {
  }

  /** As written: a cube read with `get` holds its dimensions as `{Name}` objects, so the
      body `update` sends binds `Dimensions('[object Object]')` for every one of them, whatever
      the dimensions are called. */
  lemma GetThenUpdateBindsObjectText(name: string, dims: seq<string>, i: int)
    requires 0 <= i < |dims|
    ensures FromJson(ExpandedResponse(name, dims)).Ok?
    ensures var b := Body(FromJson(ExpandedResponse(name, dims)).value);
            b.Ok? && |Field(b.value, "Dimensions@odata.bind").items| == |dims| &&
            Field(b.value, "Dimensions@odata.bind").items[i] == Str(Bindings.Segment("Dimensions", "[object Object]")) &&
            Bindings.ParsePath(["Dimensions"], Field(b.value, "Dimensions@odata.bind").items[i].s) == Some(["[object Object]"])
  {
    var data := ExpandedResponse(name, dims);
    var c := FromJson(data).value;
    var ds := c.dimensions.items;
    assert forall j :: 0 <= j < |ds| ==> ds[j].Obj?;
    assert AllBound(ds);
    var binds := DimensionBinds(ds);
    assert binds[i] == Str(Bindings.Segment("Dimensions", "[object Object]"));
    Bindings.SegmentPathRoundTrip("Dimensions", "[object Object]");
  }

  /** As intended: the body of a cube read that way binds each dimension by its name. */
  lemma GetThenUpdateIntendedBindsNames(name: string, dims: seq<string>, i: int)
    requires 0 <= i < |dims| && Bindings.QuoteFree(dims[i])
    ensures FromJsonIntended(ExpandedResponse(name, dims)).Ok?
    ensures var b := Body(FromJsonIntended(ExpandedResponse(name, dims)).value);
            b.Ok? && |Field(b.value, "Dimensions@odata.bind").items| == |dims| &&
            Field(b.value, "Dimensions@odata.bind").items[i].Str? &&
            Bindings.ParsePath(["Dimensions"], Field(b.value, "Dimensions@odata.bind").items[i].s) == Some([dims[i]])
  {
    var data := ExpandedResponse(name, dims);
    var c := FromJsonIntended(data).value;
    assert forall j :: 0 <= j < |dims| ==> c.dimensions.items[j] == Str(dims[j]);
    assert AllBound(c.dimensions.items);
    Bindings.SegmentPathRoundTrip("Dimensions", dims[i]);
  }
}
