/** src/models/Process.ts: a TurboIntegrator process. Its four procedures always carry the
    generated-statements block, its variables and their UI data are two parallel lists, its
    parameters a third, and its body sends only the data-source fields that belong to the
    data-source type. */
module Processes {
  import opened Wrappers
  import opened JsString
  import opened JsValue
  import JsArray
  import OrderedMap

  // ---------------------------------------------------------------------------
  // The generated-statements block

  const BeginMarker := "#****Begin: Generated Statements***"
  const EndMarker := "#****End: Generated Statements****"
  const Crlf := "\r\n"
  /** `AUTO_GENERATED_STATEMENTS`. */
  const AutoGenerated := BeginMarker + Crlf + EndMarker + Crlf

  /** The literal the recognising pattern opens with: the Begin marker without its last
      three asterisks. The pattern closes with the whole End marker. */
  const PatternOpen := "#****Begin: Generated Statements"

  /** What the pattern `#\*\*\*\*Begin: Generated Statements[\s\S]*#\*\*\*\*End: Generated
      Statements\*\*\*\*` finds: its opening literal, then anything, then the End marker. */
  ghost predicate HasGeneratedBlock(code: string) {
    exists i, j :: OccursAt(code, PatternOpen, i) && OccursAt(code, EndMarker, j) && i + |PatternOpen| <= j
  }

  /** `pattern.test(code)`: the first opening literal, and an End marker after it. */
  function TestPattern(code: string): (b: bool)
    ensures b <==> HasGeneratedBlock(code)
  {
    var i := IndexOf(code, PatternOpen);
    var found := i >= 0 && IndexOfFrom(code, EndMarker, i + |PatternOpen|) >= 0;
    assert found ==> OccursAt(code, EndMarker, IndexOfFrom(code, EndMarker, i + |PatternOpen|));
    assert HasGeneratedBlock(code) ==> found by {
      if HasGeneratedBlock(code) {
        var i', j :| OccursAt(code, PatternOpen, i') && OccursAt(code, EndMarker, j) && i' + |PatternOpen| <= j;
        assert i >= 0 && i <= i';
      }
    }
    found
  }

  /** The text a procedure's code reads as: `code = ''` applies to `undefined` only, and
      `null` is turned into the text "null" by the pattern test and by `+`. */
  function ProcedureText(code: Js): (r: Result<string>)
    ensures code.Undefined? ==> r == Ok("")
    ensures code.Str? ==> r == Ok(code.s)
  {
    match code
    case Undefined => Ok("")
    case Null => Ok("null")
    case Str(s) => Ok(s)
    case _ => Err(MalformedResponse)
  }

  /** `Process.addGeneratedStatement(code)`. */
  function AddGeneratedStatement(code: string): (r: string)
    ensures TestPattern(code) ==> r == code
    ensures !TestPattern(code) ==> r == AutoGenerated + Crlf + code
  {
    if TestPattern(code) then code else AutoGenerated + Crlf + code
  }

  // ---------------------------------------------------------------------------
  // The data source

  const DefaultDataSource: seq<(string, Js)> := [
    ("Type", Str("None")),
    ("dataSourceNameForClient", Null),
    ("dataSourceNameForServer", Null),
    ("asciiDecimalSeparator", Str(".")),
    ("asciiDelimiterChar", Str(",")),
    ("asciiDelimiterType", Str("Character")),
    ("asciiHeaderRecords", Num(1.0)),
    ("asciiQuoteCharacter", Str("\"")),
    ("asciiThousandSeparator", Str(",")),
    ("subset", Null),
    ("view", Null),
    ("userName", Null),
    ("password", Null),
    ("query", Null),
    ("usesUnicode", Bool(false))]

  /** `{ ...this.dataSource, ...dataSource }`: the defaults, overwritten by the given
      fields in place, and new fields appended. */
  function MergeDataSource(given: seq<(string, Js)>): (r: seq<(string, Js)>)
    ensures OrderedMap.Keys(DefaultDataSource) <= OrderedMap.Keys(r)
  {
    OrderedMap.SetAllKeysPrefix(DefaultDataSource, given);
    OrderedMap.SetAll(DefaultDataSource, given)
  }

  const AsciiKeys: seq<string> := ["dataSourceNameForClient", "dataSourceNameForServer", "asciiDecimalSeparator",
    "asciiDelimiterChar", "asciiDelimiterType", "asciiHeaderRecords", "asciiQuoteCharacter", "asciiThousandSeparator"]
  /** The ASCII keys without `asciiDelimiterChar`, what a fixed-width source keeps. */
  const FixedWidthKeys: seq<string> := AsciiKeys[..3] + AsciiKeys[4..]
  const OdbcKeys: seq<string> := ["dataSourceNameForClient", "dataSourceNameForServer", "userName", "password",
    "query", "usesUnicode"]
  const SubsetKeys: seq<string> := ["dataSourceNameForClient", "dataSourceNameForServer", "subset"]
  const ViewKeys: seq<string> := ["dataSourceNameForClient", "dataSourceNameForServer", "view"]

  lemma AsciiKeysDistinct()
    ensures Distinct(["Type"] + AsciiKeys) && Distinct(["Type"] + FixedWidthKeys)
  {
    var ks, fs := ["Type"] + AsciiKeys, ["Type"] + FixedWidthKeys;
    assert Distinct(ks);
    assert forall j :: 0 <= j < |fs| ==> fs[j] == ks[if j < 4 then j else j + 1];
  }

  lemma OtherKeysDistinct()
    ensures Distinct(["Type"] + OdbcKeys) && Distinct(["Type"] + SubsetKeys) && Distinct(["Type"] + ViewKeys)
  {
  }

  /** `this.dataSource[k]` for each of the keys. */
  function Copied(ds: seq<(string, Js)>, keys: seq<string>): (r: seq<Js>)
    ensures |r| == |keys| && forall i :: 0 <= i < |keys| ==> r[i] == Field(Obj(ds), keys[i])
  {
    seq(|keys|, i requires 0 <= i < |keys| => Field(Obj(ds), keys[i]))
  }

  /** An object literal that opens with `Type: ty` and goes on with distinct keys. */
  lemma TypedObject(ty: string, keys: seq<string>, vs: seq<Js>)
    requires |keys| == |vs| && Distinct(["Type"] + keys)
    ensures var r := Obj(Zip(["Type"] + keys, [Str(ty)] + vs));
            KeysOf(r) == ["Type"] + keys && Field(r, "Type") == Str(ty) &&
            forall i :: 0 <= i < |keys| ==> Field(r, keys[i]) == vs[i]
  {
    var ks, ws := ["Type"] + keys, [Str(ty)] + vs;
    FieldsOfKeys(ks, ws);
    assert ks[0] == "Type";
    forall i | 0 <= i < |keys| ensures Field(Obj(Zip(ks, ws)), keys[i]) == vs[i] {
      assert ks[i + 1] == keys[i] && ws[i + 1] == vs[i];
    }
  }

  /** The pairs of the literal `{Type: ty, k1: this.dataSource.k1, …}`. */
  function SourceFields(ty: string, keys: seq<string>, ds: seq<(string, Js)>): seq<(string, Js)> {
    Zip(["Type"] + keys, [Str(ty)] + Copied(ds, keys))
  }

  /** The literal `{Type: ty, k1: this.dataSource.k1, …}`. */
  function SourceObject(ty: string, keys: seq<string>, ds: seq<(string, Js)>): (r: Js)
    requires Distinct(["Type"] + keys)
    ensures KeysOf(r) == ["Type"] + keys
    ensures Field(r, "Type") == Str(ty)
    ensures forall i :: 0 <= i < |keys| ==> Field(r, keys[i]) == Field(Obj(ds), keys[i])
  {
    TypedObject(ty, keys, Copied(ds, keys));
    Obj(SourceFields(ty, keys, ds))
  }

  /** The `switch (this.dataSource.Type)` of `constructBody`. */
  function DataSourceBody(ds: seq<(string, Js)>): (r: Js)
  {
    AsciiKeysDistinct();
    OtherKeysDistinct();
    var ty := Field(Obj(ds), "Type");
    if ty == Str("None") then Obj([("Type", Str("None"))])
    else if ty == Str("ASCII") then
      var full := SourceObject("ASCII", AsciiKeys, ds);
      if Field(Obj(ds), "asciiDelimiterType") == Str("FixedWidth") then Obj(OrderedMap.Delete(full.fields, "asciiDelimiterChar"))
      else full
    else if ty == Str("ODBC") then SourceObject("ODBC", OdbcKeys, ds)
    else if ty == Str("TM1DimensionSubset") then SourceObject("TM1DimensionSubset", SubsetKeys, ds)
    else if ty == Str("TM1CubeView") then SourceObject("TM1CubeView", ViewKeys, ds)
    else Obj([])
  }

  // ---------------------------------------------------------------------------
  // Variables and parameters

  const FormFeed := "\U{000C}"

  /** `typeMap[type]` as it is spliced into the UI text. */
  function VarTypeCode(varType: string): string {
    if varType == "String" then "32" else if varType == "Numeric" then "33" else "undefined"
  }

  /** The UI-data entry `addVariable` pushes. */
  function VariableUIData(varType: string): string {
    "VarType=" + VarTypeCode(varType) + FormFeed + "ColType=827" + FormFeed
  }

  const VariableKeys: seq<string> := ["Name", "Type", "Position", "StartByte", "EndByte"]

  lemma VariableKeysDistinct()
    ensures Distinct(VariableKeys)
  {
  }

  /** The variable record `addVariable` pushes. */
  function VariableRecord(name: string, varType: string, position: nat): (r: Js)
    ensures KeysOf(r) == VariableKeys
    ensures Field(r, "Name") == Str(name) && Field(r, "Type") == Str(varType)
    ensures Field(r, "Position") == Num(position as real)
    ensures Field(r, "StartByte") == Num(0.0) && Field(r, "EndByte") == Num(0.0)
  {
    var vs := [Str(name), Str(varType), Num(position as real), Num(0.0), Num(0.0)];
    VariableKeysDistinct();
    FieldsOfKeys(VariableKeys, vs);
    assert VariableKeys[0] == "Name" && VariableKeys[1] == "Type" && VariableKeys[2] == "Position";
    assert VariableKeys[3] == "StartByte" && VariableKeys[4] == "EndByte";
    Obj(Zip(VariableKeys, vs))
  }

  /** `type || (typeof value === 'string' ? 'String' : 'Numeric')`. */
  function ParameterType(value: Js, paramType: Js): (r: Js)
    ensures Truthy(paramType) ==> r == paramType
    ensures !Truthy(paramType) && value.Str? ==> r == Str("String")
    ensures !Truthy(paramType) && !value.Str? ==> r == Str("Numeric")
  {
    if Truthy(paramType) then paramType else if value.Str? then Str("String") else Str("Numeric")
  }

  const ParameterKeys: seq<string> := ["Name", "Type", "Prompt", "Value"]

  lemma ParameterKeysDistinct()
    ensures Distinct(ParameterKeys)
  {
  }

  /** The parameter record `addParameter` pushes. */
  function ParameterRecord(name: string, value: Js, prompt: Js, paramType: Js): (r: Js)
    ensures KeysOf(r) == ParameterKeys
    ensures Field(r, "Name") == Str(name) && Field(r, "Type") == ParameterType(value, paramType)
    ensures Field(r, "Prompt") == prompt && Field(r, "Value") == value
  {
    var vs := [Str(name), ParameterType(value, paramType), prompt, value];
    ParameterKeysDistinct();
    FieldsOfKeys(ParameterKeys, vs);
    assert ParameterKeys[0] == "Name" && ParameterKeys[1] == "Type" && ParameterKeys[2] == "Prompt";
    assert ParameterKeys[3] == "Value";
    Obj(Zip(ParameterKeys, vs))
  }

  /** `v => v.Name === name`, on a record that has properties. */
  predicate NameIs(name: string, v: Js) {
    Field(v, "Name") == Str(name)
  }

  predicate Nullish(v: Js) {
    v.Undefined? || v.Null?
  }

  /** `list.findIndex(v => v.Name === name)`: the first record with the name, -1 when there
      is none, and a TypeError when an `undefined` or `null` entry comes first. */
  function FindByName(list: seq<Js>, name: string): (r: Result<int>)
    ensures r.Ok? ==> -1 <= r.value < |list|
    ensures r.Ok? ==> forall j :: 0 <= j < |list| && (r.value == -1 || j < r.value) ==> !Nullish(list[j]) && !NameIs(name, list[j])
    ensures r.Ok? && r.value >= 0 ==> NameIs(name, list[r.value])
    ensures r.Err? ==> r.error == TypeError
    ensures r.Err? ==> exists k :: 0 <= k < |list| && Nullish(list[k]) && forall j :: 0 <= j < k ==> !NameIs(name, list[j])
    decreases |list|
  {
    if list == [] then Ok(-1)
    else if Nullish(list[0]) then Err(TypeError)
    else if NameIs(name, list[0]) then Ok(0)
    else
      match FindByName(list[1..], name)
      case Err(e) =>
        ghost var k :| 0 <= k < |list[1..]| && Nullish(list[1..][k]) && forall j :: 0 <= j < k ==> !NameIs(name, list[1..][j]);
        assert Nullish(list[k + 1]) && forall j :: 0 <= j < k + 1 ==> !NameIs(name, list[j]) by {
          forall j | 0 <= j < k + 1 ensures !NameIs(name, list[j]) {
            if j > 0 { assert list[j] == list[1..][j - 1]; }
          }
        }
        Err(e)
      case Ok(i) =>
        assert forall j :: 1 <= j < |list| ==> list[j] == list[1..][j - 1];
        Ok(if i == -1 then -1 else i + 1)
  }

  /** `if (index !== 1) parameters.splice(index, 1)`. */
  function AfterRemoveParameter(ps: seq<Js>, index: int): (r: seq<Js>)
    ensures |ps| - 1 <= |r| <= |ps|
    ensures multiset(r) <= multiset(ps)
  {
    var k := JsArray.SpliceStart(|ps|, index);
    assert k < |ps| ==> ps == ps[..k] + [ps[k]] + ps[k + 1..];
    if index != 1 then JsArray.SpliceOne(ps, index) else ps
  }

  // ---------------------------------------------------------------------------
  // The body

  const BodyKeys: seq<string> := ["Name", "HasSecurityAccess", "PrologProcedure", "MetadataProcedure", "DataProcedure",
    "EpilogProcedure", "UIData", "Variables", "VariablesUIData", "Parameters", "DataSource"]

  lemma BodyKeysDistinct()
    ensures Distinct(BodyKeys)
  {
  }

  datatype Procedures = Procedures(prolog: string, metadata: string, data: string, epilog: string)

  /** `process.body`: the eleven keys in the order the body is written. */
  function ProcessBody(name: Js, hasSecurityAccess: Js, procedures: Procedures, uiData: Js, variables: seq<Js>,
                       variablesUIData: seq<Js>, parameters: seq<Js>, dataSource: Js): (r: Js)
    ensures KeysOf(r) == BodyKeys
  {
    BodyKeysDistinct();
    var vs := [name, hasSecurityAccess, Str(procedures.prolog), Str(procedures.metadata), Str(procedures.data),
               Str(procedures.epilog), uiData, Arr(variables), Arr(variablesUIData), Arr(parameters), dataSource];
    FieldsOfKeys(BodyKeys, vs);
    Obj(Zip(BodyKeys, vs))
  }

  /** The body carries the name and the security flag as stored. */
  lemma ProcessBodyHeader(name: Js, hasSecurityAccess: Js, procedures: Procedures, uiData: Js, variables: seq<Js>,
                          variablesUIData: seq<Js>, parameters: seq<Js>, dataSource: Js)
    ensures var r := ProcessBody(name, hasSecurityAccess, procedures, uiData, variables, variablesUIData, parameters, dataSource);
            Field(r, "Name") == name && Field(r, "HasSecurityAccess") == hasSecurityAccess
  {
    BodyKeysDistinct();
    var vs := [name, hasSecurityAccess, Str(procedures.prolog), Str(procedures.metadata), Str(procedures.data),
               Str(procedures.epilog), uiData, Arr(variables), Arr(variablesUIData), Arr(parameters), dataSource];
    FieldsOfKeys(BodyKeys, vs);
    assert BodyKeys[0] == "Name" && BodyKeys[1] == "HasSecurityAccess";
  }

  /** The body carries the prolog and the metadata procedure as stored. */
  lemma ProcessBodyPrologAndMetadata(name: Js, hasSecurityAccess: Js, procedures: Procedures, uiData: Js, variables: seq<Js>,
                                     variablesUIData: seq<Js>, parameters: seq<Js>, dataSource: Js)
    ensures var r := ProcessBody(name, hasSecurityAccess, procedures, uiData, variables, variablesUIData, parameters, dataSource);
            Field(r, "PrologProcedure") == Str(procedures.prolog) && Field(r, "MetadataProcedure") == Str(procedures.metadata)
  {
    BodyKeysDistinct();
    var vs := [name, hasSecurityAccess, Str(procedures.prolog), Str(procedures.metadata), Str(procedures.data),
               Str(procedures.epilog), uiData, Arr(variables), Arr(variablesUIData), Arr(parameters), dataSource];
    FieldsOfKeys(BodyKeys, vs);
    assert BodyKeys[2] == "PrologProcedure" && BodyKeys[3] == "MetadataProcedure";
  }

  /** The body carries the data and the epilog procedure as stored. */
  lemma ProcessBodyDataAndEpilog(name: Js, hasSecurityAccess: Js, procedures: Procedures, uiData: Js, variables: seq<Js>,
                                 variablesUIData: seq<Js>, parameters: seq<Js>, dataSource: Js)
    ensures var r := ProcessBody(name, hasSecurityAccess, procedures, uiData, variables, variablesUIData, parameters, dataSource);
            Field(r, "DataProcedure") == Str(procedures.data) && Field(r, "EpilogProcedure") == Str(procedures.epilog)
  {
    BodyKeysDistinct();
    var vs := [name, hasSecurityAccess, Str(procedures.prolog), Str(procedures.metadata), Str(procedures.data),
               Str(procedures.epilog), uiData, Arr(variables), Arr(variablesUIData), Arr(parameters), dataSource];
    FieldsOfKeys(BodyKeys, vs);
    assert BodyKeys[4] == "DataProcedure" && BodyKeys[5] == "EpilogProcedure";
  }

  /** The body carries the UI data, the three lists and the data source as given. */
  lemma ProcessBodyLists(name: Js, hasSecurityAccess: Js, procedures: Procedures, uiData: Js, variables: seq<Js>,
                         variablesUIData: seq<Js>, parameters: seq<Js>, dataSource: Js)
    ensures var r := ProcessBody(name, hasSecurityAccess, procedures, uiData, variables, variablesUIData, parameters, dataSource);
            Field(r, "UIData") == uiData && Field(r, "Variables") == Arr(variables) &&
            Field(r, "VariablesUIData") == Arr(variablesUIData) && Field(r, "Parameters") == Arr(parameters) &&
            Field(r, "DataSource") == dataSource
  {
    BodyKeysDistinct();
    var vs := [name, hasSecurityAccess, Str(procedures.prolog), Str(procedures.metadata), Str(procedures.data),
               Str(procedures.epilog), uiData, Arr(variables), Arr(variablesUIData), Arr(parameters), dataSource];
    FieldsOfKeys(BodyKeys, vs);
    assert BodyKeys[6] == "UIData" && BodyKeys[7] == "Variables" && BodyKeys[8] == "VariablesUIData";
    assert BodyKeys[9] == "Parameters" && BodyKeys[10] == "DataSource";
  }

  // ---------------------------------------------------------------------------
  // Process

  class Process {
    var name: Js
    var hasSecurityAccess: Js
    var procedures: Procedures
    var dataSource: seq<(string, Js)>
    var variables: seq<Js>
    var parameters: seq<Js>
    var uiData: Js
    var variablesUIData: seq<Js>

    /** `new Process(name, hasSecurityAccess, procedure, dataSource, parameters, variables,
        UIData, variablesUIData)`, with each procedure's text already read and the given
        data source as its fields. Every procedure gets the generated block; `UIData` is
        stored as given, so the class default is always overwritten. */
    constructor (name: Js, hasSecurityAccess: Js, prolog: string, metadata: string, data: string, epilog: string,
                 dataSource: seq<(string, Js)>, parameters: Option<seq<Js>>, variables: Option<seq<Js>>,
                 uiData: Js, variablesUIData: Option<seq<Js>>)
      ensures this.name == name && this.hasSecurityAccess == hasSecurityAccess && this.uiData == uiData
      ensures procedures == Procedures(AddGeneratedStatement(prolog), AddGeneratedStatement(metadata),
                                       AddGeneratedStatement(data), AddGeneratedStatement(epilog))
      ensures this.dataSource == MergeDataSource(dataSource)
      ensures this.parameters == (if parameters.Some? then parameters.value else [])
      ensures this.variables == (if variables.Some? then variables.value else [])
      ensures this.variablesUIData == (if variablesUIData.Some? then variablesUIData.value else [])
    {
      var merged := MergeDataSource(dataSource);
      this.name := name;
      this.hasSecurityAccess := hasSecurityAccess;
      procedures := Procedures(AddGeneratedStatement(prolog), AddGeneratedStatement(metadata),
                               AddGeneratedStatement(data), AddGeneratedStatement(epilog));
      this.dataSource := merged;
      this.variables := if variables.Some? then variables.value else [];
      this.parameters := if parameters.Some? then parameters.value else [];
      this.uiData := uiData;
      this.variablesUIData := if variablesUIData.Some? then variablesUIData.value else [];
    }

    /** `addVariable(name, type)`: a record at position count + 1 and its UI-data entry. */
    method AddVariable(name: string, varType: string)
      modifies this
      ensures variables == old(variables) + [VariableRecord(name, varType, |old(variables)| + 1)]
      ensures variablesUIData == old(variablesUIData) + [Str(VariableUIData(varType))]
      ensures parameters == old(parameters) && dataSource == old(dataSource) && procedures == old(procedures)
      ensures this.name == old(this.name) && hasSecurityAccess == old(hasSecurityAccess) && uiData == old(uiData)
    {
      var variable := VariableRecord(name, varType, |variables| + 1);
      variables := variables + [variable];
      variablesUIData := variablesUIData + [Str(VariableUIData(varType))];
    }

    /** `removeVariable(name)`: the same index spliced out of both lists when the name is
        found, nothing when it is not. */
    method RemoveVariable(name: string) returns (o: Outcome)
      modifies this
      ensures FindByName(old(variables), name).Err? ==>
                o == Fail(TypeError) && variables == old(variables) && variablesUIData == old(variablesUIData)
      ensures FindByName(old(variables), name).Ok? ==>
                var i := FindByName(old(variables), name).value;
                o == Done && variables == JsArray.SpliceIfFound(old(variables), i) &&
                variablesUIData == JsArray.SpliceIfFound(old(variablesUIData), i)
      ensures parameters == old(parameters) && dataSource == old(dataSource) && procedures == old(procedures)
      ensures this.name == old(this.name) && hasSecurityAccess == old(hasSecurityAccess) && uiData == old(uiData)
    {
      var index := FindByName(variables, name);
      if index.Err? {
        return Fail(index.error);
      }
      if index.value != -1 {
        variables := JsArray.SpliceOne(variables, index.value);
        variablesUIData := JsArray.SpliceOne(variablesUIData, index.value);
      }
      o := Done;
    }

    /** `addParameter(name, value, prompt, type)`. */
    method AddParameter(name: string, value: Js, prompt: Js, paramType: Js)
      modifies this
      ensures parameters == old(parameters) + [ParameterRecord(name, value, prompt, paramType)]
      ensures variables == old(variables) && variablesUIData == old(variablesUIData) && dataSource == old(dataSource) &&
              procedures == old(procedures)
      ensures this.name == old(this.name) && hasSecurityAccess == old(hasSecurityAccess) && uiData == old(uiData)
    {
      var parameter := ParameterRecord(name, value, prompt, paramType);
      parameters := parameters + [parameter];
    }

    /** `removeParameter(name)`, guarded by `index !== 1`. */
    method RemoveParameter(name: string) returns (o: Outcome)
      modifies this
      ensures FindByName(old(parameters), name).Err? ==> o == Fail(TypeError) && parameters == old(parameters)
      ensures FindByName(old(parameters), name).Ok? ==>
                o == Done && parameters == AfterRemoveParameter(old(parameters), FindByName(old(parameters), name).value)
      ensures variables == old(variables) && variablesUIData == old(variablesUIData) && dataSource == old(dataSource) &&
              procedures == old(procedures)
      ensures this.name == old(this.name) && hasSecurityAccess == old(hasSecurityAccess) && uiData == old(uiData)
    {
      var index := FindByName(parameters, name);
      if index.Err? {
        return Fail(index.error);
      }
      if index.value != 1 {
        parameters := JsArray.SpliceOne(parameters, index.value);
      }
      o := Done;
    }

    /** `removeParameter` guarded by `index !== -1`, as evidently intended. */
    method RemoveParameterIntended(name: string) returns (o: Outcome)
      modifies this
      ensures FindByName(old(parameters), name).Err? ==> o == Fail(TypeError) && parameters == old(parameters)
      ensures FindByName(old(parameters), name).Ok? ==>
                o == Done && parameters == JsArray.SpliceIfFound(old(parameters), FindByName(old(parameters), name).value)
      ensures variables == old(variables) && variablesUIData == old(variablesUIData) && dataSource == old(dataSource) &&
              procedures == old(procedures)
      ensures this.name == old(this.name) && hasSecurityAccess == old(hasSecurityAccess) && uiData == old(uiData)
    {
      var index := FindByName(parameters, name);
      if index.Err? {
        return Fail(index.error);
      }
      if index.value != -1 {
        parameters := JsArray.SpliceOne(parameters, index.value);
      }
      o := Done;
    }

    /** `process.body`: the stored fields, and the data source cut down to its type. */
    method ConstructBody() returns (r: Js)
      ensures r == ProcessBody(name, hasSecurityAccess, procedures, uiData, variables, variablesUIData, parameters,
                               DataSourceBody(dataSource))
    {
      var source := DataSourceBody(dataSource);
      r := ProcessBody(name, hasSecurityAccess, procedures, uiData, variables, variablesUIData, parameters, source);
    }
  }

  /** `list ?? []` on a response list: an array, or nothing for `undefined` and `null`. */
  function OptionalList(v: Js): (r: Result<Option<seq<Js>>>)
    ensures Nullish(v) ==> r == Ok(None)
    ensures v.Arr? ==> r == Ok(Some(v.items))
  {
    if Nullish(v) then Ok(None) else if v.Arr? then Ok(Some(v.items)) else Err(MalformedResponse)
  }

  /** What spreading `data.DataSource` adds: its fields, or none for `undefined` and `null`. */
  function SpreadFields(v: Js): (r: Result<seq<(string, Js)>>)
    ensures Nullish(v) ==> r == Ok([])
    ensures v.Obj? ==> r == Ok(v.fields)
  {
    if Nullish(v) then Ok([]) else if v.Obj? then Ok(v.fields) else Err(MalformedResponse)
  }

  /** A response `Process.fromJson` reads: every procedure a string or missing, the data
      source spreadable, and each list an array or missing. */
  predicate Readable(data: Js) {
    !Nullish(data) &&
    ProcedureText(Field(data, "PrologProcedure")).Ok? && ProcedureText(Field(data, "MetadataProcedure")).Ok? &&
    ProcedureText(Field(data, "DataProcedure")).Ok? && ProcedureText(Field(data, "EpilogProcedure")).Ok? &&
    SpreadFields(Field(data, "DataSource")).Ok? && OptionalList(Field(data, "Parameters")).Ok? &&
    OptionalList(Field(data, "Variables")).Ok? && OptionalList(Field(data, "VariablesUIData")).Ok?
  }

  /** A procedure of the response, with the generated block added. */
  function ReadProcedure(data: Js, key: string): string
    requires ProcedureText(Field(data, key)).Ok?
  {
    AddGeneratedStatement(ProcedureText(Field(data, key)).value)
  }

  /** A list of the response, `[]` when missing. */
  function ReadList(data: Js, key: string): seq<Js>
    requires OptionalList(Field(data, key)).Ok?
  {
    var l := OptionalList(Field(data, key)).value;
    if l.Some? then l.value else []
  }

  /** `Process.fromJson(data)`. */
  method FromJson(data: Js) returns (r: Result<Process>)
    ensures Nullish(data) ==> r == Err(TypeError)
    ensures !Nullish(data) && !Readable(data) ==> r == Err(MalformedResponse)
    ensures r.Ok? <==> Readable(data)
    ensures r.Ok? ==> fresh(r.value) && r.value.name == Field(data, "Name") && r.value.uiData == Field(data, "UIData") &&
                      r.value.hasSecurityAccess == Field(data, "HasSecurityAccess")
    ensures r.Ok? ==> r.value.procedures == Procedures(ReadProcedure(data, "PrologProcedure"),
                        ReadProcedure(data, "MetadataProcedure"), ReadProcedure(data, "DataProcedure"),
                        ReadProcedure(data, "EpilogProcedure"))
    ensures r.Ok? ==> r.value.dataSource == MergeDataSource(SpreadFields(Field(data, "DataSource")).value)
    ensures r.Ok? ==> r.value.parameters == ReadList(data, "Parameters") && r.value.variables == ReadList(data, "Variables") &&
                      r.value.variablesUIData == ReadList(data, "VariablesUIData")
  {
    if Nullish(data) {
      return Err(TypeError);
    }
    var prolog := ProcedureText(Field(data, "PrologProcedure"));
    var metadata := ProcedureText(Field(data, "MetadataProcedure"));
    var dataProc := ProcedureText(Field(data, "DataProcedure"));
    var epilog := ProcedureText(Field(data, "EpilogProcedure"));
    var ds := SpreadFields(Field(data, "DataSource"));
    var ps := OptionalList(Field(data, "Parameters"));
    var vs := OptionalList(Field(data, "Variables"));
    var us := OptionalList(Field(data, "VariablesUIData"));
    if prolog.Err? || metadata.Err? || dataProc.Err? || epilog.Err? || ds.Err? || ps.Err? || vs.Err? || us.Err? {
      return Err(MalformedResponse);
    }
    var p := new Process(Field(data, "Name"), Field(data, "HasSecurityAccess"), prolog.value, metadata.value,
                         dataProc.value, epilog.value, ds.value, ps.value, vs.value, Field(data, "UIData"), us.value);
    r := Ok(p);
  }

  // ---------------------------------------------------------------------------
  // Properties

  lemma AutoGeneratedHasBlock(code: string)
    ensures HasGeneratedBlock(AutoGenerated + Crlf + code)
  {
    var r := AutoGenerated + Crlf + code;
    assert r[0..|PatternOpen|] == PatternOpen;
    var j := |BeginMarker| + |Crlf|;
    assert r[j..j + |EndMarker|] == EndMarker;
    assert OccursAt(r, PatternOpen, 0) && OccursAt(r, EndMarker, j);
  }

  /** The result always carries a generated block. */
  lemma AddGeneratedHasBlock(code: string)
    ensures HasGeneratedBlock(AddGeneratedStatement(code))
  {
    if !TestPattern(code) {
      AutoGeneratedHasBlock(code);
    }
  }

  /** Adding the generated block twice is adding it once. */
  lemma AddGeneratedIdempotent(code: string)
    ensures AddGeneratedStatement(AddGeneratedStatement(code)) == AddGeneratedStatement(code)
  {
    AddGeneratedHasBlock(code);
  }

  /** A procedure with no code is the bare generated block and an empty line. */
  lemma MissingCodeIsBareBlock()
    ensures AddGeneratedStatement("") == AutoGenerated + Crlf
  {
    assert !OccursAt("", PatternOpen, IndexOf("", PatternOpen));
  }

  /** A merged data source keeps every default key, in the default order, and holds every
      given key. */
  lemma MergeDataSourceKeys(given: seq<(string, Js)>)
    ensures OrderedMap.Keys(DefaultDataSource) <= OrderedMap.Keys(MergeDataSource(given))
    ensures forall i :: 0 <= i < |given| ==> OrderedMap.Has(MergeDataSource(given), given[i].0)
  {
    OrderedMap.SetAllKeysPrefix(DefaultDataSource, given);
    forall i | 0 <= i < |given| ensures OrderedMap.Has(MergeDataSource(given), given[i].0) {
      OrderedMap.SetAllHas(DefaultDataSource, given, i);
    }
  }

  /** A process made without a data source writes the default `{Type: "None"}`. */
  lemma DefaultDataSourceBody()
    ensures DataSourceBody(MergeDataSource([])) == Obj([("Type", Str("None"))])
  {
    assert MergeDataSource([]) == DefaultDataSource;
    assert OrderedMap.IndexOfKey(DefaultDataSource, "Type") == 0;
  }

  /** Deleting a key of an object literal with distinct keys drops that key's pair. */
  lemma DeleteFromLiteral(ks: seq<string>, vs: seq<Js>, i: int)
    requires |ks| == |vs| && Distinct(ks) && 0 <= i < |ks|
    ensures OrderedMap.Delete(Zip(ks, vs), ks[i]) == Zip(ks[..i] + ks[i + 1..], vs[..i] + vs[i + 1..])
  {
    OrderedMap.IndexOfKeyIs(Zip(ks, vs), ks[i], i);
    var cut, want := Zip(ks, vs)[..i] + Zip(ks, vs)[i + 1..], Zip(ks[..i] + ks[i + 1..], vs[..i] + vs[i + 1..]);
    assert |cut| == |want|;
    forall j | 0 <= j < |cut| ensures cut[j] == want[j] {
      if j >= i {
        assert cut[j] == Zip(ks, vs)[j + 1];
      }
    }
  }

  /** Leaving a key out keeps the others distinct. */
  lemma DistinctWithout(keys: seq<string>, i: int)
    requires Distinct(["Type"] + keys) && 0 <= i < |keys|
    ensures Distinct(["Type"] + (keys[..i] + keys[i + 1..]))
  {
    var ks, fs := ["Type"] + keys, ["Type"] + (keys[..i] + keys[i + 1..]);
    assert forall j :: 0 <= j < |fs| ==> fs[j] == ks[if j <= i then j else j + 1];
  }

  /** Deleting one of the copied keys from a source object gives the source object of the
      remaining keys. */
  lemma SourceObjectWithout(ty: string, keys: seq<string>, ds: seq<(string, Js)>, i: int)
    requires Distinct(["Type"] + keys) && 0 <= i < |keys|
    ensures Distinct(["Type"] + (keys[..i] + keys[i + 1..]))
    ensures OrderedMap.Delete(SourceFields(ty, keys, ds), keys[i]) == SourceFields(ty, keys[..i] + keys[i + 1..], ds)
  {
    DistinctWithout(keys, i);
    var rest := keys[..i] + keys[i + 1..];
    var cs := Copied(ds, keys);
    var ks, vs := ["Type"] + keys, [Str(ty)] + cs;
    assert ks[i + 1] == keys[i];
    DeleteFromLiteral(ks, vs, i + 1);
    WithoutBehindHead("Type", keys, i);
    WithoutBehindHead(Str(ty), cs, i);
    CopiedWithout(ds, keys, i);
  }

  /** Cutting entry `i + 1` out of `[x] + s` is cutting entry `i` out of `s`. */
  lemma WithoutBehindHead<T>(x: T, s: seq<T>, i: int)
    requires 0 <= i < |s|
    ensures ([x] + s)[..i + 1] + ([x] + s)[i + 2..] == [x] + (s[..i] + s[i + 1..])
  {
    var t := [x] + s;
    assert t[1..] == s;
    JsArray.SpliceBehindHead(t, i);
    JsArray.SpliceAtIndex(t, i + 1);
    JsArray.SpliceAtIndex(s, i);
  }

  /** Copying the keys without entry `i` is copying all of them and cutting entry `i`. */
  lemma CopiedWithout(ds: seq<(string, Js)>, keys: seq<string>, i: int)
    requires 0 <= i < |keys|
    ensures Copied(ds, keys[..i] + keys[i + 1..]) == Copied(ds, keys)[..i] + Copied(ds, keys)[i + 1..]
  {
    var rest := keys[..i] + keys[i + 1..];
    var cs := Copied(ds, keys);
    JsArray.SpliceAtIndex(cs, i);
    forall j | 0 <= j < |rest| ensures Copied(ds, rest)[j] == (cs[..i] + cs[i + 1..])[j] {
      OrderedMap.RemoveAt(Zip(keys, cs), i);
      if j < i {
        assert rest[j] == keys[j];
      } else {
        assert rest[j] == keys[j + 1];
      }
    }
  }

  /** The body of a fixed-width ASCII source is the full ASCII object with one pair cut. */
  lemma FixedWidthCut(ds: seq<(string, Js)>)
    requires Field(Obj(ds), "Type") == Str("ASCII") && Field(Obj(ds), "asciiDelimiterType") == Str("FixedWidth")
    ensures DataSourceBody(ds) == Obj(OrderedMap.Delete(SourceFields("ASCII", AsciiKeys, ds), AsciiKeys[3]))
  {
    assert AsciiKeys[3] == "asciiDelimiterChar";
  }

  /** `asciiDelimiterChar` is not among the fixed-width keys. */
  lemma FixedWidthKeysOmitDelimiter()
    ensures AsciiKeys[3] !in FixedWidthKeys
  {
    AsciiKeysDistinct();
    var ks := ["Type"] + AsciiKeys;
    forall j | 0 <= j < |FixedWidthKeys| ensures FixedWidthKeys[j] != AsciiKeys[3] {
      var n := if j < 3 then j else j + 1;
      assert FixedWidthKeys[j] == AsciiKeys[n] == ks[n + 1] && AsciiKeys[3] == ks[4];
    }
  }

  /** A fixed-width ASCII source is sent without `asciiDelimiterChar`: the object built and
      then cut is the object of the other seven fields. */
  lemma FixedWidthOmitsDelimiter(ds: seq<(string, Js)>)
    requires Field(Obj(ds), "Type") == Str("ASCII") && Field(Obj(ds), "asciiDelimiterType") == Str("FixedWidth")
    ensures DataSourceBody(ds) == Obj(SourceFields("ASCII", FixedWidthKeys, ds))
    ensures KeysOf(DataSourceBody(ds)) == ["Type"] + FixedWidthKeys
    ensures "asciiDelimiterChar" !in KeysOf(DataSourceBody(ds))
  {
    AsciiKeysDistinct();
    SourceObjectWithout("ASCII", AsciiKeys, ds, 3);
    FixedWidthCut(ds);
    assert DataSourceBody(ds) == SourceObject("ASCII", FixedWidthKeys, ds);
    FixedWidthKeysOmitDelimiter();
    assert AsciiKeys[3] == "asciiDelimiterChar";
  }

  /** The other source types send `Type` and exactly their own fields. */
  lemma DataSourceKeysByType(ds: seq<(string, Js)>)
    ensures Field(Obj(ds), "Type") == Str("None") ==> KeysOf(DataSourceBody(ds)) == ["Type"]
    ensures Field(Obj(ds), "Type") == Str("ASCII") && Field(Obj(ds), "asciiDelimiterType") != Str("FixedWidth") ==>
              KeysOf(DataSourceBody(ds)) == ["Type"] + AsciiKeys
    ensures Field(Obj(ds), "Type") == Str("ODBC") ==> KeysOf(DataSourceBody(ds)) == ["Type"] + OdbcKeys
    ensures Field(Obj(ds), "Type") == Str("TM1DimensionSubset") ==> KeysOf(DataSourceBody(ds)) == ["Type"] + SubsetKeys
    ensures Field(Obj(ds), "Type") == Str("TM1CubeView") ==> KeysOf(DataSourceBody(ds)) == ["Type"] + ViewKeys
    ensures Field(Obj(ds), "Type") !in [Str("None"), Str("ASCII"), Str("ODBC"), Str("TM1DimensionSubset"), Str("TM1CubeView")] ==>
              DataSourceBody(ds) == Obj([])
  {
    AsciiKeysDistinct();
    OtherKeysDistinct();
  }

  /** The UI-data entries of the two variable types. */
  lemma VariableUIDataCodes()
    ensures VariableUIData("String") == "VarType=32" + FormFeed + "ColType=827" + FormFeed
    ensures VariableUIData("Numeric") == "VarType=33" + FormFeed + "ColType=827" + FormFeed
  {
  }

  /** On records that all have properties, the lookup is `findIndex` on the names. */
  lemma {:induction false} FindByNameOfRecords(list: seq<Js>, name: string)
    requires forall j :: 0 <= j < |list| ==> !Nullish(list[j])
    ensures FindByName(list, name) == Ok(JsArray.FindIndex(list, (v: Js) => NameIs(name, v)))
  {
    var p := (v: Js) => NameIs(name, v);
    var f := JsArray.FindIndex(list, p);
    var r := FindByName(list, name);
    assert r.Ok?;
    if f != -1 {
      assert p(list[f]);
      assert r.value == f;
    }
  }

  /** Splicing the same index out of two lists of one length keeps them of one length and
      keeps each UI-data entry beside its variable. */
  lemma RemoveVariableKeepsParallel(vs: seq<Js>, us: seq<Js>, i: int)
    requires |vs| == |us|
    ensures |JsArray.SpliceIfFound(vs, i)| == |JsArray.SpliceIfFound(us, i)|
    ensures 0 <= i < |vs| ==> forall k :: 0 <= k < |vs| - 1 ==>
              var src := if k < i then k else k + 1;
              JsArray.SpliceIfFound(vs, i)[k] == vs[src] && JsArray.SpliceIfFound(us, i)[k] == us[src]
  {
    if 0 <= i < |vs| {
      JsArray.SpliceAtIndex(vs, i);
      JsArray.SpliceAtIndex(us, i);
    }
  }

  /** As written: a name no parameter has removes the last parameter. */
  lemma RemoveMissingParameterDropsLast(ps: seq<Js>, name: string)
    requires ps != [] && forall j :: 0 <= j < |ps| ==> !Nullish(ps[j]) && !NameIs(name, ps[j])
    ensures FindByName(ps, name) == Ok(-1)
    ensures AfterRemoveParameter(ps, -1) == ps[..|ps| - 1]
  {
    JsArray.SpliceMinusOne(ps);
  }

  /** As written: the parameter at index 1 cannot be removed. */
  lemma SecondParameterIsKept(ps: seq<Js>, name: string)
    requires |ps| >= 2 && !Nullish(ps[0]) && !NameIs(name, ps[0]) && !Nullish(ps[1]) && NameIs(name, ps[1])
    ensures FindByName(ps, name) == Ok(1)
    ensures AfterRemoveParameter(ps, 1) == ps
  {
  }

  /** With the intended guard, a missing name changes nothing and a found one is removed,
      wherever it stands. */
  lemma RemoveParameterIntendedEffect(ps: seq<Js>, name: string)
    requires FindByName(ps, name).Ok?
    ensures FindByName(ps, name).value == -1 ==> JsArray.SpliceIfFound(ps, -1) == ps
    ensures var i := FindByName(ps, name).value;
            i >= 0 ==> JsArray.SpliceIfFound(ps, i) == ps[..i] + ps[i + 1..]
  {
    var i := FindByName(ps, name).value;
    if i >= 0 {
      JsArray.SpliceAtIndex(ps, i);
    }
  }
}
