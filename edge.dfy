/** src/models/Edge.ts: a parent-to-component edge of a hierarchy with its weight. The
    constructor stores both names as given and the weight as given, which is `undefined`
    when it is omitted. */
module Edges {
  import opened Wrappers
  import opened JsValue
  import OrderedMap

  datatype Edge = Edge(parentName: string, componentName: string, weight: Js)

  /** `Edge.fromJson(data)`. */
  function FromJson(data: Js): (r: Result<Edge>)
    ensures data.Undefined? || data.Null? ==> r == Err(TypeError)
    ensures r.Ok? ==> Field(data, "ParentName") == Str(r.value.parentName) &&
                      Field(data, "ComponentName") == Str(r.value.componentName) &&
                      r.value.weight == Field(data, "Weight")
  {
    if data.Undefined? || data.Null? then Err(TypeError)
    else
      var parent :- AsString(Field(data, "ParentName"));
      var component :- AsString(Field(data, "ComponentName"));
      Ok(Edge(parent, component, Field(data, "Weight")))
  }

  /** `edge.body`: exactly `ParentName`, `ComponentName` and `Weight`. */
  function Body(e: Edge): (r: Js)
    ensures KeysOf(r) == ["ParentName", "ComponentName", "Weight"]
  {
    Obj([("ParentName", Str(e.parentName)), ("ComponentName", Str(e.componentName)), ("Weight", e.weight)])
  }

  /** The body reads back as the same edge. */
  lemma FromJsonBody(e: Edge)
    ensures FromJson(Body(e)) == Ok(e)
  {
    var fs := Body(e).fields;
    FieldsOfLiteral(fs);
    assert Field(Body(e), fs[0].0) == Str(e.parentName);
    assert Field(Body(e), fs[1].0) == Str(e.componentName);
    assert Field(Body(e), fs[2].0) == e.weight;
  }

  /** A response without `Weight` gives an edge whose weight is `undefined`: there is no
      default here. */
  lemma MissingWeightStaysUndefined(p: string, c: string)
    ensures FromJson(Obj([("ParentName", Str(p)), ("ComponentName", Str(c))])) == Ok(Edge(p, c, Undefined))
  {
    var fs := [("ParentName", Str(p)), ("ComponentName", Str(c))];
    FieldsOfLiteral(fs);
    assert Field(Obj(fs), fs[0].0) == Str(p);
    assert Field(Obj(fs), fs[1].0) == Str(c);
    assert !OrderedMap.Has(fs, "Weight");
  }
}
