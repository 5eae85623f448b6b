/** src/models/element-attribute.ts: an element attribute that keeps its type by name
    (`'Numeric'`, `'String'` or `'Alias'`) and reads it back as the `AttributeType` code. */
module ElementAttributes {
  import opened Wrappers
  import opened JsValue
  import TsEnums

  const AttributeTypeMembers: TsEnums.NumericMembers := [("Numeric", 0), ("String", 1), ("Alias", 2)]

  /** `AttributeType[key]`. */
  function AttributeTypeOf(key: string): Js {
    TsEnums.NumericLookup(AttributeTypeMembers, key)
  }

  datatype ElementAttribute = ElementAttribute(name: Js, typeName: Js)

  /** The `type` getter, `AttributeType[this._type.toString()]`: a TypeError when no type
      is stored, and otherwise the enum indexed by the stored value's text, so the code
      when that text is a member name (an array `["Alias"]` included). A number whose text
      is not modelled is written with a point or an exponent, which no key of the enum
      has, so it reads `undefined`. */
  function Type(a: ElementAttribute): (r: Result<Js>)
    ensures r.Err? <==> a.typeName.Undefined? || a.typeName.Null?
    ensures a.typeName.Str? ==> r == Ok(AttributeTypeOf(a.typeName.s))
    ensures r.Ok? && TsEnums.Text(a.typeName).Some? ==> r == Ok(AttributeTypeOf(TsEnums.Text(a.typeName).value))
  {
    if a.typeName.Undefined? || a.typeName.Null? then Err(TypeError)
    else match TsEnums.Text(a.typeName)
      case Some(k) => Ok(AttributeTypeOf(k))
      case None => Ok(Undefined)
  }

  /** The `type` setter: only the stored name changes. */
  function SetType(a: ElementAttribute, value: string): (r: ElementAttribute)
    ensures r.name == a.name
    ensures Type(r) == Ok(AttributeTypeOf(value))
  {
    a.(typeName := Str(value))
  }

  /** `ElementAttribute.fromJson(data)`: `Name` and `Type` passed through unchanged. */
  function FromJson(data: Js): (r: Result<ElementAttribute>)
    ensures r.Err? <==> data.Undefined? || data.Null?
    ensures r.Ok? ==> r.value.name == Field(data, "Name") && r.value.typeName == Field(data, "Type")
  {
    if data.Undefined? || data.Null? then Err(TypeError)
    else Ok(ElementAttribute(Field(data, "Name"), Field(data, "Type")))
  }

  /** `attribute.body`: `{Name, Type}` with the numeric code, failing when the getter
      does. */
  function Body(a: ElementAttribute): (r: Result<Js>)
    ensures r.Err? <==> Type(a).Err?
    ensures r.Ok? ==> KeysOf(r.value) == ["Name", "Type"]
  {
    var t :- Type(a);
    Ok(Obj([("Name", a.name), ("Type", t)]))
  }

  // ---------------------------------------------------------------------------
  // Properties

  lemma MembersWellformed()
    ensures TsEnums.WellformedNumeric(AttributeTypeMembers)
  {
  }

  /** 'Numeric' reads 0, 'String' 1 and 'Alias' 2. */
  lemma TypeCodes(name: Js)
    ensures Type(ElementAttribute(name, Str("Numeric"))) == Ok(Num(0.0))
    ensures Type(ElementAttribute(name, Str("String"))) == Ok(Num(1.0))
    ensures Type(ElementAttribute(name, Str("Alias"))) == Ok(Num(2.0))
  {
    MembersWellformed();
    TsEnums.NumericRoundTrip(AttributeTypeMembers, 0);
    TsEnums.NumericRoundTrip(AttributeTypeMembers, 1);
    TsEnums.NumericRoundTrip(AttributeTypeMembers, 2);
  }

  /** After the setter stores member `i`'s name, the getter, and so the body, give that
      member's code. */
  lemma SetThenGet(a: ElementAttribute, i: nat)
    requires i < |AttributeTypeMembers|
    ensures Type(SetType(a, AttributeTypeMembers[i].0)) == Ok(Num(AttributeTypeMembers[i].1 as real))
    ensures Body(SetType(a, AttributeTypeMembers[i].0)) ==
              Ok(Obj([("Name", a.name), ("Type", Num(AttributeTypeMembers[i].1 as real))]))
  {
    MembersWellformed();
    TsEnums.NumericRoundTrip(AttributeTypeMembers, i);
  }

  /** A type stored as an array holding one member name reads that member's code, as
      `["Alias"].toString()` is `"Alias"`. */
  lemma ArrayOfNameReadsCode(a: ElementAttribute, i: nat)
    requires i < |AttributeTypeMembers|
    ensures Type(a.(typeName := Arr([Str(AttributeTypeMembers[i].0)]))) == Ok(Num(AttributeTypeMembers[i].1 as real))
  {
    MembersWellformed();
    TsEnums.SingletonText(Str(AttributeTypeMembers[i].0));
    TsEnums.NumericRoundTrip(AttributeTypeMembers, i);
  }

  /** A response read with `fromJson` serialises with the same name and the code of its
      type name. */
  lemma BodyOfResponse(name: Js, i: nat)
    requires i < |AttributeTypeMembers|
    ensures var data := Obj([("Name", name), ("Type", Str(AttributeTypeMembers[i].0))]);
            FromJson(data).Ok? &&
            Body(FromJson(data).value) == Ok(Obj([("Name", name), ("Type", Num(AttributeTypeMembers[i].1 as real))]))
  {
    var fs := [("Name", name), ("Type", Str(AttributeTypeMembers[i].0))];
    FieldsOfLiteral(fs);
    assert Field(Obj(fs), fs[0].0) == name;
    assert Field(Obj(fs), fs[1].0) == Str(AttributeTypeMembers[i].0);
    MembersWellformed();
    TsEnums.NumericRoundTrip(AttributeTypeMembers, i);
  }
}
