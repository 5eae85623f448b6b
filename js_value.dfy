/** JavaScript values as the object model builds and reads them: the request bodies it
    sends and the parsed JSON responses its `fromJson` functions take apart. An object's
    properties are kept in insertion order, as `JSON.stringify` and `Object.entries`
    list them. */
module JsValue {
  import opened Wrappers
  import OrderedMap

  datatype Js =
    | Undefined
    | Null
    | Bool(b: bool)
    | Num(n: real)
    | Str(s: string)
    | Arr(items: seq<Js>)
    | Obj(fields: seq<(string, Js)>)

  /** JavaScript truthiness: `undefined`, `null`, `false`, `0` and `''` are falsy. */
  predicate Truthy(v: Js) {
    match v
    case Undefined => false
    case Null => false
    case Bool(b) => b
    case Num(n) => n != 0.0
    case Str(s) => s != ""
    case _ => true
  }

  /** Reading `v[key]`: a TypeError on `undefined` and `null`, `undefined` for a missing
      property (and for the properties of primitives, which the model never reads). */
  function Prop(v: Js, key: string): (r: Result<Js>)
    ensures r.Err? <==> v.Undefined? || v.Null?
    ensures v.Obj? && !OrderedMap.Has(v.fields, key) ==> r == Ok(Undefined)
  {
    match v
    case Undefined => Err(TypeError)
    case Null => Err(TypeError)
    case Obj(fs) => Ok(match OrderedMap.Get(fs, key) case Some(x) => x case None => Undefined)
    case _ => Ok(Undefined)
  }

  /** The property names of an object in order (`Object.keys`). */
  function KeysOf(v: Js): seq<string> {
    if v.Obj? then OrderedMap.Keys(v.fields) else []
  }

  /** An object literal's fields, as body construction writes them. */
  function Field(v: Js, key: string): Js {
    if v.Obj? then (match OrderedMap.Get(v.fields, key) case Some(x) => x case None => Undefined)
    else Undefined
  }

  /** A string field as the TypeScript declaration demands it. */
  function AsString(v: Js): (r: Result<string>)
    ensures r.Ok? <==> v.Str?
  {
    if v.Str? then Ok(v.s) else Err(MalformedResponse)
  }

  /** An optional string field: `undefined` reads as absent. */
  function AsOptString(v: Js): (r: Result<Option<string>>)
    ensures r.Ok? <==> v.Str? || v.Undefined?
  {
    match v
    case Undefined => Ok(None)
    case Str(s) => Ok(Some(s))
    case _ => Err(MalformedResponse)
  }

  /** `x ?? ''` for an optional string. */
  function OrEmpty(s: Option<string>): string {
    match s case Some(x) => x case None => ""
  }

  /** An optional string as the JavaScript value it stands for. */
  function OptStr(s: Option<string>): (r: Js)
    ensures r.Undefined? <==> s.None?
  {
    match s case Some(x) => Str(x) case None => Undefined
  }

  /** In an object literal whose keys differ, each key reads the value written with it. */
  lemma FieldsOfLiteral(fs: seq<(string, Js)>)
    requires OrderedMap.KeysUnique(fs)
    ensures forall i :: 0 <= i < |fs| ==> Field(Obj(fs), fs[i].0) == fs[i].1
  {
    forall i | 0 <= i < |fs| ensures Field(Obj(fs), fs[i].0) == fs[i].1 {
      OrderedMap.IndexOfKeyIs(fs, fs[i].0, i);
    }
  }

  /** The object literal with keys `ks` and values `vs`, pair by pair. */
  function Zip(ks: seq<string>, vs: seq<Js>): (r: seq<(string, Js)>)
    requires |ks| == |vs|
    ensures |r| == |ks| && forall i :: 0 <= i < |ks| ==> r[i] == (ks[i], vs[i])
  {
    seq(|ks|, i requires 0 <= i < |ks| => (ks[i], vs[i]))
  }

  predicate Distinct(ks: seq<string>) {
    forall i, j :: 0 <= i < j < |ks| ==> ks[i] != ks[j]
  }

  /** An object literal with distinct keys has those keys in order, and each reads its own
      value. */
  lemma FieldsOfKeys(ks: seq<string>, vs: seq<Js>)
    requires |ks| == |vs| && Distinct(ks)
    ensures KeysOf(Obj(Zip(ks, vs))) == ks
    ensures forall i :: 0 <= i < |ks| ==> Field(Obj(Zip(ks, vs)), ks[i]) == vs[i]
  {
    var fs := Zip(ks, vs);
    FieldsOfLiteral(fs);
    assert forall i :: 0 <= i < |ks| ==> fs[i].0 == ks[i];
  }

  /** A list of strings as a JavaScript array. */
  function StrArr(s: seq<string>): (r: Js)
    ensures r.Arr? && |r.items| == |s|
    ensures forall i :: 0 <= i < |s| ==> r.items[i] == Str(s[i])
  {
    Arr(seq(|s|, i requires 0 <= i < |s| => Str(s[i])))
  }

  /** A JavaScript array of strings as a list, failing on anything else. */
  function AsStringArray(v: Js): (r: Result<seq<string>>)
    ensures r.Ok? ==> v.Arr? && |r.value| == |v.items|
    ensures r.Ok? ==> forall i :: 0 <= i < |v.items| ==> v.items[i] == Str(r.value[i])
    ensures r.Ok? ==> v == StrArr(r.value)
  {
    if v.Arr? && forall i :: 0 <= i < |v.items| ==> v.items[i].Str? then
      var r := seq(|v.items|, i requires 0 <= i < |v.items| => v.items[i].s);
      assert v == StrArr(r);
      Ok(r)
    else Err(MalformedResponse)
  }

  lemma AsStringArrayOfStrArr(s: seq<string>)
    ensures AsStringArray(StrArr(s)) == Ok(s)
  {
    var v := StrArr(s);
    assert forall i :: 0 <= i < |v.items| ==> v.items[i].Str?;
    var r := seq(|v.items|, i requires 0 <= i < |v.items| => v.items[i].s);
    assert r == s;
  }
}
