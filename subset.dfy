/** src/models/Subset.ts: a subset of a hierarchy, static (a list of element names) or
    dynamic (an MDX expression), and the body that creates it. */
module Subsets {
  import opened Wrappers
  import opened JsValue
  import Bindings
  import Elements

  datatype Subset = Subset(
    name: string,
    dimensionName: string,
    hierarchyName: string,
    alias: Js,
    expression: Js,
    elements: Option<seq<string>>,
    uniqueName: Js)

  /** `new Subset(name, dimensionName, hierarchyName, alias, expression, elements,
      uniqueName)`: the hierarchy name is `hierarchyName || dimensionName`, so an omitted,
      null or empty hierarchy name falls back to the dimension. */
  function NewSubset(name: string, dimensionName: string, hierarchyName: Option<string>, alias: Js,
                     expression: Js, elements: Option<seq<string>>, uniqueName: Js): (r: Subset)
    ensures hierarchyName.Some? && hierarchyName.value != "" ==> r.hierarchyName == hierarchyName.value
    ensures hierarchyName.None? || hierarchyName.value == "" ==> r.hierarchyName == dimensionName
    ensures r.name == name && r.dimensionName == dimensionName && r.alias == alias &&
            r.expression == expression && r.elements == elements && r.uniqueName == uniqueName
  {
    var h := match hierarchyName case Some(x) => if x != "" then x else dimensionName case None => dimensionName;
    Subset(name, dimensionName, h, alias, expression, elements, uniqueName)
  }

  /** The element binds of a static subset, one per element in order. */
  function ElementBinds(s: Subset, elements: seq<string>): (r: seq<Js>)
    ensures |r| == |elements|
    ensures forall i :: 0 <= i < |r| ==> r[i] == Str(Bindings.ElementPath(s.dimensionName, s.hierarchyName, elements[i]))
  {
    seq(|elements|, i requires 0 <= i < |elements| => Str(Bindings.ElementPath(s.dimensionName, s.hierarchyName, elements[i])))
  }

  /** `constructBodyStatic`: `Name`, `Alias`, and the element binds only when there are
      elements. Without an element list `this.elements.length` throws. */
  function StaticBody(s: Subset): (r: Result<Js>)
    ensures r.Err? <==> s.elements.None?
    ensures r.Err? ==> r.error == TypeError
    ensures r.Ok? ==> r.value.Obj? &&
                      KeysOf(r.value) == (if |s.elements.value| > 0 then ["Name", "Alias", "Elements@odata.bind"]
                                          else ["Name", "Alias"])
    ensures r.Ok? ==> Field(r.value, "Name") == Str(s.name) && Field(r.value, "Alias") == s.alias
    ensures r.Ok? && |s.elements.value| > 0 ==>
              Field(r.value, "Elements@odata.bind") == Arr(ElementBinds(s, s.elements.value))
  {
    match s.elements
    case None => Err(TypeError)
    case Some(es) =>
      var fs := [("Name", Str(s.name)), ("Alias", s.alias)]
                + if |es| > 0 then [("Elements@odata.bind", Arr(ElementBinds(s, es)))] else [];
      FieldsOfLiteral(fs);
      assert Field(Obj(fs), fs[0].0) == Str(s.name);
      assert Field(Obj(fs), fs[1].0) == s.alias;
      assert |es| > 0 ==> Field(Obj(fs), fs[2].0) == Arr(ElementBinds(s, es));
      Ok(Obj(fs))
  }

  /** `constructBodyDynamic`: exactly `Name`, `Alias` and `Expression`. */
  function DynamicBody(s: Subset): (r: Js)
    ensures KeysOf(r) == ["Name", "Alias", "Expression"]
    ensures Field(r, "Name") == Str(s.name) && Field(r, "Alias") == s.alias && Field(r, "Expression") == s.expression
  {
    var fs := [("Name", Str(s.name)), ("Alias", s.alias), ("Expression", s.expression)];
    FieldsOfLiteral(fs);
    assert Field(Obj(fs), fs[0].0) == Str(s.name);
    assert Field(Obj(fs), fs[1].0) == s.alias;
    assert Field(Obj(fs), fs[2].0) == s.expression;
    Obj(fs)
  }

  /** `subset.body`: dynamic exactly when the expression is truthy. */
  function Body(s: Subset): (r: Result<Js>)
    ensures Truthy(s.expression) ==> r == Ok(DynamicBody(s))
    ensures !Truthy(s.expression) ==> r == StaticBody(s)
  {
    if Truthy(s.expression) then Ok(DynamicBody(s)) else StaticBody(s)
  }

  /** `data.Elements.map(e => e['Name'])`, with each name a string. */
  function ElementNames(items: seq<Js>): (r: Result<seq<string>>)
    ensures r.Ok? ==> |r.value| == |items| &&
                      forall i :: 0 <= i < |items| ==> Field(items[i], "Name") == Str(r.value[i])
  {
    if items == [] then Ok([])
    else if items[0].Undefined? || items[0].Null? then Err(TypeError)
    else
      var n :- AsString(Field(items[0], "Name"));
      var ns :- ElementNames(items[1..]);
      assert forall i :: 1 <= i < |items| ==> items[i] == items[1..][i - 1];
      Ok([n] + ns)
  }

  /** The hierarchy name a response carries: falsy values count as none. */
  function OptName(v: Js): (r: Result<Option<string>>)
    ensures r == Ok(None) <==> !Truthy(v)
    ensures v.Str? && v.s != "" ==> r == Ok(Some(v.s))
  {
    if !Truthy(v) then Ok(None)
    else if v.Str? then Ok(Some(v.s))
    else Err(MalformedResponse)
  }

  /** `Subset.fromJson(data)`. The dimension name is sliced out of `UniqueName`, the
      hierarchy name read from `Hierarchy.Name`, and the elements are the `Name` of each
      entry of `Elements`. */
  function FromJson(data: Js): (r: Result<Subset>)
    ensures data.Undefined? || data.Null? ==> r == Err(TypeError)
    ensures !data.Undefined? && !data.Null? && !Field(data, "UniqueName").Str? ==> r == Err(TypeError)
    ensures r.Ok? ==> Field(data, "Name") == Str(r.value.name) &&
                      r.value.dimensionName == Elements.DimensionNameOf(Field(data, "UniqueName").s) &&
                      r.value.uniqueName == Field(data, "UniqueName") &&
                      r.value.alias == Field(data, "Alias") && r.value.expression == Field(data, "Expression")
    ensures r.Ok? ==> Field(data, "Elements").Arr? && r.value.elements.Some? &&
                      ElementNames(Field(data, "Elements").items) == Ok(r.value.elements.value)
    ensures r.Ok? ==> var hn := Field(Field(data, "Hierarchy"), "Name");
                      (Truthy(hn) ==> hn == Str(r.value.hierarchyName)) &&
                      (!Truthy(hn) ==> r.value.hierarchyName == r.value.dimensionName)
    ensures r.Ok? <==> !data.Undefined? && !data.Null? && Field(data, "UniqueName").Str? &&
                       !Field(data, "Hierarchy").Undefined? && !Field(data, "Hierarchy").Null? &&
                       Field(data, "Elements").Arr? && ElementNames(Field(data, "Elements").items).Ok? &&
                       Field(data, "Name").Str? && OptName(Field(Field(data, "Hierarchy"), "Name")).Ok?
  {
    if data.Undefined? || data.Null? then Err(TypeError)
    else
      var u := Field(data, "UniqueName");
      if !u.Str? then Err(TypeError)
      else
        var hier := Field(data, "Hierarchy");
        if hier.Undefined? || hier.Null? then Err(TypeError)
        else
          var els := Field(data, "Elements");
          if !els.Arr? then Err(TypeError)
          else
            var names :- ElementNames(els.items);
            var name :- AsString(Field(data, "Name"));
            var h :- OptName(Field(hier, "Name"));
            Ok(NewSubset(name, Elements.DimensionNameOf(u.s), h, Field(data, "Alias"),
                         Field(data, "Expression"), Some(names), u))
  }

  // ---------------------------------------------------------------------------
  // Properties

  /** The body carries an `Expression` key exactly when the subset is dynamic, and an
      element bind list only when it is static with at least one element. */
  lemma BodyShape(s: Subset)
    requires Body(s).Ok?
    ensures "Expression" in KeysOf(Body(s).value) <==> Truthy(s.expression)
    ensures "Elements@odata.bind" in KeysOf(Body(s).value) <==>
              !Truthy(s.expression) && |s.elements.value| > 0
  {
  }

  /** Each element bind of a static body names the subset's dimension and hierarchy and
      that element: for quote-free names it reads back as exactly those three. */
  lemma StaticBindsReadBack(s: Subset, i: int)
    requires !Truthy(s.expression) && s.elements.Some? && 0 <= i < |s.elements.value|
    requires Bindings.QuoteFree(s.dimensionName) && Bindings.QuoteFree(s.hierarchyName)
    requires Bindings.QuoteFree(s.elements.value[i])
    ensures Body(s).Ok?
    ensures Field(Body(s).value, "Elements@odata.bind").items[i].Str?
    ensures Bindings.ParsePath(["Dimensions", "Hierarchies", "Elements"],
              Field(Body(s).value, "Elements@odata.bind").items[i].s) ==
            Some([s.dimensionName, s.hierarchyName, s.elements.value[i]])
  {
    Bindings.ElementPathRoundTrip(s.dimensionName, s.hierarchyName, s.elements.value[i]);
  }

  /** A subset without an element list and without an expression cannot be serialised. */
  lemma NoElementsThrows(s: Subset)
    requires !Truthy(s.expression) && s.elements.None?
    ensures Body(s) == Err(TypeError)
  {
  }
}
