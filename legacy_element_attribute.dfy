/** src/models/ElementAttribute.ts: the older element attribute, which keeps its type as an
    `AttributeType` code and writes the member name into its body. */
module LegacyElementAttributes {
  import opened Wrappers
  import opened JsValue
  import TsEnums

  const AttributeTypeMembers: TsEnums.NumericMembers := [("Numeric", 0), ("String", 1), ("Alias", 2)]

  /** `AttributeType[key]` on the enum object, keyed by `String(key)`. A number whose text
      is not modelled is written with a point or an exponent, which no key of the enum has,
      so it reads `undefined`. */
  function AttributeTypeAt(key: Js): (r: Js)
    ensures TsEnums.Text(key).Some? ==> r == TsEnums.NumericLookup(AttributeTypeMembers, TsEnums.Text(key).value)
    ensures TsEnums.Text(key).None? ==> r == Undefined
  {
    match TsEnums.Text(key)
    case Some(k) => TsEnums.NumericLookup(AttributeTypeMembers, k)
    case None => Undefined
  }

  /** The constructor stores name and type as given. */
  datatype ElementAttribute = ElementAttribute(name: Js, attributeType: Js)

  /** `ElementAttribute.fromJson(data)`: `Type` is stored as it comes, whatever it is. */
  function FromJson(data: Js): (r: Result<ElementAttribute>)
    ensures r.Err? <==> data.Undefined? || data.Null?
    ensures r.Ok? ==> r.value.name == Field(data, "Name") && r.value.attributeType == Field(data, "Type")
  {
    if data.Undefined? || data.Null? then Err(TypeError)
    else Ok(ElementAttribute(Field(data, "Name"), Field(data, "Type")))
  }

  /** `attribute.body`: exactly `Name` and `Type`, the type looked up in `AttributeType`. */
  function Body(a: ElementAttribute): (r: Js)
    ensures KeysOf(r) == ["Name", "Type"]
  {
    Obj([("Name", a.name), ("Type", AttributeTypeAt(a.attributeType))])
  }

  lemma MembersWellformed()
    ensures TsEnums.WellformedNumeric(AttributeTypeMembers)
  {
  }

  /** Codes 0, 1 and 2 are written as 'Numeric', 'String' and 'Alias'. */
  lemma BodyTypeNames(name: Js)
    ensures Body(ElementAttribute(name, Num(0.0))) == Obj([("Name", name), ("Type", Str("Numeric"))])
    ensures Body(ElementAttribute(name, Num(1.0))) == Obj([("Name", name), ("Type", Str("String"))])
    ensures Body(ElementAttribute(name, Num(2.0))) == Obj([("Name", name), ("Type", Str("Alias"))])
  {
    MembersWellformed();
    TsEnums.NumericRoundTrip(AttributeTypeMembers, 0);
    TsEnums.NumericRoundTrip(AttributeTypeMembers, 1);
    TsEnums.NumericRoundTrip(AttributeTypeMembers, 2);
  }

  /** A type stored as an array holding one code is written as that member's name, as
      `AttributeType[[2]]` indexes by `"2"`. */
  lemma ArrayOfCodeWritesName(i: nat)
    requires i < |AttributeTypeMembers|
    ensures AttributeTypeAt(Arr([Num(AttributeTypeMembers[i].1 as real)])) == Str(AttributeTypeMembers[i].0)
  {
    MembersWellformed();
    TsEnums.SingletonText(Num(AttributeTypeMembers[i].1 as real));
    TsEnums.NumericRoundTrip(AttributeTypeMembers, i);
  }

  /** A type stored by name, as a response carries it, is written as its code: the body
      does not give back what `fromJson` read. */
  lemma NameReadsAsCode(name: Js)
    ensures Body(ElementAttribute(name, Str("String"))) == Obj([("Name", name), ("Type", Num(1.0))])
  {
    MembersWellformed();
    TsEnums.NumericRoundTrip(AttributeTypeMembers, 1);
  }
}
