/** src/models/Element.ts: a hierarchy element, the `ElementType` enum, and the dimension
    name sliced out of an element's unique name. */
module Elements {
  import opened Wrappers
  import opened JsString
  import opened JsValue
  import OrderedMap
  import TsEnums
  import Helpers

  // ---------------------------------------------------------------------------
  // ElementType

  const ElementTypeMembers: TsEnums.NumericMembers := [("Numeric", 1), ("String", 2), ("Consolidated", 3)]

  /** `ElementType[key]`. */
  function ElementTypeOf(key: string): (r: Js)
    ensures r.Num? || r.Str? || r.Undefined?
  {
    TsEnums.NumericLookup(ElementTypeMembers, key)
  }

  /** Numeric = 1, String = 2, Consolidated = 3, with the reverse mapping from the code's
      numeral back to the name; any other key reads `undefined`. */
  lemma ElementTypeCodes()
    ensures ElementTypeOf("Numeric") == Num(1.0) && ElementTypeOf("1") == Str("Numeric")
    ensures ElementTypeOf("String") == Num(2.0) && ElementTypeOf("2") == Str("String")
    ensures ElementTypeOf("Consolidated") == Num(3.0) && ElementTypeOf("3") == Str("Consolidated")
  {
    var ms := ElementTypeMembers;
    assert TsEnums.WellformedNumeric(ms);
    TsEnums.NumericRoundTrip(ms, 0);
    TsEnums.NumericRoundTrip(ms, 1);
    TsEnums.NumericRoundTrip(ms, 2);
  }

  lemma ElementTypeMissing(key: string)
    requires key !in ["Numeric", "String", "Consolidated", "1", "2", "3"]
    ensures ElementTypeOf(key) == Undefined
  {
    TsEnums.NumericMissing(ElementTypeMembers, key);
  }

  // ---------------------------------------------------------------------------
  // The dimension part of a unique name

  /** `uniqueName.substring(1, uniqueName.indexOf('].['))`. */
  function DimensionNameOf(u: string): (r: string)
    ensures IndexOf(u, Helpers.Separator) >= 1 ==> r == u[1..IndexOf(u, Helpers.Separator)]
    ensures IndexOf(u, Helpers.Separator) < 1 ==> r == u[..if |u| == 0 then 0 else 1]
  {
    Substring(u, 1, IndexOf(u, Helpers.Separator))
  }

  /** `[D].[…` gives D when D holds no `"].["`. */
  lemma DimensionNameOfUniqueName(d: string, rest: string)
    requires !Contains(d, Helpers.Separator)
    ensures DimensionNameOf("[" + d + Helpers.Separator + rest) == d
  {
    Helpers.BracketPrefixKeepsFree(d);
    assert "[" + d + Helpers.Separator + rest == ("[" + d) + Helpers.Separator + rest;
    Helpers.IndexOfSeparatorAfter("[" + d, rest);
  }

  /** Without a separator `indexOf` is -1, `substring(1, -1)` swaps its ends, and the
      result is the first character. */
  lemma DimensionNameWithoutSeparator(u: string)
    requires !Contains(u, Helpers.Separator)
    ensures DimensionNameOf(u) == u[..if |u| == 0 then 0 else 1]
  {
    IndexOfFound(u, Helpers.Separator);
  }

  // ---------------------------------------------------------------------------
  // HierarchyElement

  datatype HierarchyElement = HierarchyElement(
    name: string,
    dimensionName: string,
    hierarchyName: string,
    elementType: Js,
    uniqueName: Option<string>,
    level: Js,
    index: Js,
    attributes: Option<seq<(string, Js)>>)

  /** The attribute object filled key by key from `Object.entries(attributes)`. */
  function CopyAttributes(fields: seq<(string, Js)>): seq<(string, Js)> {
    OrderedMap.SetAll([], fields)
  }

  /** The attribute part of the constructor: copied when truthy, left undefined when not.
      A truthy value that is not an object is not an attribute map. */
  function AttributesOf(attributes: Js): (r: Result<Option<seq<(string, Js)>>>)
    ensures r.Ok? && r.value.Some? <==> attributes.Obj?
    ensures r.Ok? && r.value.None? <==> !Truthy(attributes)
    ensures attributes.Obj? ==> r == Ok(Some(CopyAttributes(attributes.fields)))
  {
    if !Truthy(attributes) then Ok(None)
    else if attributes.Obj? then Ok(Some(CopyAttributes(attributes.fields)))
    else Err(MalformedResponse)
  }

  /** `new HierarchyElement(name, type, uniqueName, level, index, attributes)`. Both the
      dimension and the hierarchy name are sliced from `uniqueName` with `substring`, so a
      unique name that is not a string (in particular none at all) throws a TypeError. */
  function NewElement(name: string, elementType: Js, uniqueName: Js, level: Js, index: Js, attributes: Js)
    : (r: Result<HierarchyElement>)
    ensures r.Err? <==> !uniqueName.Str? || AttributesOf(attributes).Err?
    ensures !uniqueName.Str? ==> r == Err(TypeError)
    ensures r.Ok? ==> r.value.name == name && r.value.elementType == elementType &&
                      r.value.uniqueName == Some(uniqueName.s) &&
                      r.value.dimensionName == DimensionNameOf(uniqueName.s) &&
                      r.value.hierarchyName == r.value.dimensionName &&
                      r.value.level == level && r.value.index == index &&
                      r.value.attributes == AttributesOf(attributes).value
  {
    if !uniqueName.Str? then Err(TypeError)
    else
      var attrs :- AttributesOf(attributes);
      var dim := DimensionNameOf(uniqueName.s);
      Ok(HierarchyElement(name, dim, dim, elementType, Some(uniqueName.s), level, index, attrs))
  }

  /** The constructor as evidently intended: an element made without a unique name (as
      `Hierarchy.addElement` makes one) gets empty dimension and hierarchy names instead of
      throwing. With a unique name it is the constructor above. */
  function NewElementIntended(name: string, elementType: Js, uniqueName: Option<string>, level: Js, index: Js, attributes: Js)
    : (r: Result<HierarchyElement>)
    ensures r.Err? <==> AttributesOf(attributes).Err?
    ensures uniqueName.Some? ==> r == NewElement(name, elementType, Str(uniqueName.value), level, index, attributes)
    ensures r.Ok? && uniqueName.None? ==> r.value.name == name && r.value.elementType == elementType &&
                                          r.value.dimensionName == "" && r.value.hierarchyName == ""
  {
    match uniqueName
    case Some(u) => NewElement(name, elementType, Str(u), level, index, attributes)
    case None =>
      var attrs :- AttributesOf(attributes);
      Ok(HierarchyElement(name, "", "", elementType, None, level, index, attrs))
  }

  /** `HierarchyElement.fromJson(data)`: the constructor on `Name`, `Type`, `UniqueName`,
      `Level`, `Index` and `Attributes`. */
  function FromJson(data: Js): (r: Result<HierarchyElement>)
    ensures data.Undefined? || data.Null? ==> r == Err(TypeError)
    ensures !data.Undefined? && !data.Null? && !Field(data, "Name").Str? ==> r == Err(MalformedResponse)
    ensures !data.Undefined? && !data.Null? && Field(data, "Name").Str? && !Field(data, "UniqueName").Str? ==>
              r == Err(TypeError)
    ensures r.Ok? <==> !data.Undefined? && !data.Null? && Field(data, "Name").Str? &&
                       Field(data, "UniqueName").Str? && AttributesOf(Field(data, "Attributes")).Ok?
    ensures r.Ok? ==> Field(data, "Name") == Str(r.value.name) &&
                      r.value.elementType == Field(data, "Type") &&
                      r.value.uniqueName == Some(Field(data, "UniqueName").s) &&
                      r.value.dimensionName == DimensionNameOf(Field(data, "UniqueName").s) &&
                      r.value.hierarchyName == r.value.dimensionName &&
                      r.value.level == Field(data, "Level") && r.value.index == Field(data, "Index") &&
                      r.value.attributes == AttributesOf(Field(data, "Attributes")).value
  {
    if data.Undefined? || data.Null? then Err(TypeError)
    else
      var n :- AsString(Field(data, "Name"));
      NewElement(n, Field(data, "Type"), Field(data, "UniqueName"), Field(data, "Level"),
                 Field(data, "Index"), Field(data, "Attributes"))
  }

  /** `element.body`: exactly `Name` and `Type`. */
  function Body(e: HierarchyElement): (r: Js)
    ensures KeysOf(r) == ["Name", "Type"]
    ensures Field(r, "Name") == Str(e.name) && Field(r, "Type") == e.elementType
  {
    var fs := [("Name", Str(e.name)), ("Type", e.elementType)];
    FieldsOfLiteral(fs);
    assert Field(Obj(fs), fs[1].0) == fs[1].1;
    Obj(fs)
  }

  // ---------------------------------------------------------------------------
  // Properties

  /** Copying an object's entries one by one into a fresh object gives the same entries in
      the same order. */
  lemma {:induction false} CopyAttributesExact(fields: seq<(string, Js)>)
    requires OrderedMap.KeysUnique(fields)
    ensures CopyAttributes(fields) == fields
    decreases |fields|
  {
    if fields != [] {
      var n := |fields| - 1;
      var p := fields[..n];
      assert fields == p + [fields[n]];
      assert OrderedMap.KeysUnique(p);
      CopyAttributesExact(p);
      OrderedMap.SetAllStep([], p, fields[n].0, fields[n].1);
      assert !OrderedMap.Has(p, fields[n].0);
    }
  }

  /** A unique name of the form `[D].[H].[M]` yields D as both the dimension and the
      hierarchy of the element: the hierarchy part is never read. */
  lemma ElementNamesFromUniqueName(name: string, t: Js, d: string, h: string, m: string, level: Js, index: Js)
    requires !Contains(d, Helpers.Separator)
    ensures var r := NewElement(name, t, Str("[" + d + Helpers.Separator + h + Helpers.Separator + m + "]"), level, index, Undefined);
            r.Ok? && r.value.dimensionName == d && r.value.hierarchyName == d && r.value.attributes.None?
  {
    var u := "[" + d + Helpers.Separator + h + Helpers.Separator + m + "]";
    assert u == "[" + d + Helpers.Separator + (h + Helpers.Separator + m + "]");
    DimensionNameOfUniqueName(d, h + Helpers.Separator + m + "]");
  }

  /** Without a unique name the constructor throws: this is what `addElement` runs into. */
  lemma NoUniqueNameThrows(name: string, t: Js)
    ensures NewElement(name, t, Undefined, Undefined, Undefined, Undefined) == Err(TypeError)
    ensures NewElementIntended(name, t, None, Undefined, Undefined, Undefined).Ok?
  {
  }
}
