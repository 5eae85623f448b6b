/** src/models/Dimension.ts: a dimension and its list of hierarchies. Hierarchies are
    looked up by case- and space-insensitive name, removed by case-insensitive name, and
    the `Leaves` hierarchy is neither removed nor sent in a body. */
module Dimensions {
  import opened Wrappers
  import opened JsString
  import opened JsValue
  import JsArray
  import Helpers
  import Hierarchies

  const LeavesMessage := "'Leaves' hierarchy must not be removed from dimension"

  /** The message `addHierarchy` throws for a name already present. */
  function ExistsMessage(hierarchyName: string, dimensionName: string): string {
    "Hierarchy " + hierarchyName + " already exists in dimension " + dimensionName + "."
  }

  /** `hier => hier.name.toLowerCase() === hierarchyName.toLowerCase()`, on the names. */
  function SameLowerName(hierarchyName: string): string -> bool {
    (n: string) => ToLower(n) == ToLower(hierarchyName)
  }

  predicate IsLeaves(name: string) {
    ToLower(name) == "leaves"
  }

  /** What `deleteHierarchy` leaves of a list of names: the first case-insensitive match
      spliced out, and the last entry when nothing matches. */
  function DeleteFromNames<A>(hs: seq<A>, names: seq<string>, hierarchyName: string): (r: seq<A>)
    requires |names| == |hs|
    ensures |hs| > 0 ==> |r| == |hs| - 1
    ensures |hs| == 0 ==> r == []
  {
    JsArray.SpliceOne(hs, JsArray.FindIndex(names, SameLowerName(hierarchyName)))
  }

  /** The hierarchy bodies `constructBody` pushes, given each hierarchy's name and body:
      every body but those of `leaves` hierarchies, in list order. */
  function KeptBodies(names: seq<string>, bodies: seq<Js>): (r: seq<Js>)
    requires |names| == |bodies|
    ensures |r| <= |bodies|
    decreases |names|
  {
    if names == [] then []
    else
      var n := |names| - 1;
      KeptBodies(names[..n], bodies[..n]) + (if IsLeaves(names[n]) then [] else [bodies[n]])
  }

  function DimensionBody(name: string, hierarchyBodies: seq<Js>): (r: Js)
    ensures KeysOf(r) == ["Name", "Hierarchies"]
    ensures Field(r, "Name") == Str(name) && Field(r, "Hierarchies") == Arr(hierarchyBodies)
  {
    var fs := [("Name", Str(name)), ("Hierarchies", Arr(hierarchyBodies))];
    FieldsOfLiteral(fs);
    assert Field(Obj(fs), fs[1].0) == fs[1].1;
    Obj(fs)
  }

  class Dimension {
    var name: string
    var uniqueName: Js
    var hierarchies: seq<Hierarchies.Hierarchy>
    var defaultHierarchy: Option<Hierarchies.Hierarchy>

    function Names(): (r: seq<string>)
      reads this, set h | h in hierarchies
      ensures r == NamesOf(hierarchies)
    {
      NamesOf(hierarchies)
    }

    /** `new Dimension(name, uniqueName, hierarchies, defaultHierarchy)`, with the
        hierarchies already read. */
    constructor (name: string, uniqueName: Js, hierarchies: seq<Hierarchies.Hierarchy>,
                 defaultHierarchy: Option<Hierarchies.Hierarchy>)
      ensures this.name == name && this.uniqueName == uniqueName
      ensures this.hierarchies == hierarchies && this.defaultHierarchy == defaultHierarchy
    {
      this.name := name;
      this.uniqueName := uniqueName;
      this.hierarchies := hierarchies;
      this.defaultHierarchy := defaultHierarchy;
    }

    /** `hasHierarchy(hierarchyName)`: whether some hierarchy name equals it up to case and
        whitespace. */
    method HasHierarchy(hierarchyName: string) returns (b: bool)
      ensures b <==> exists i :: 0 <= i < |hierarchies| &&
                       Helpers.CaseAndSpaceInsensitiveEquals(hierarchies[i].name, hierarchyName)
    {
      var i := 0;
      while i < |hierarchies|
        invariant 0 <= i <= |hierarchies|
        invariant forall j :: 0 <= j < i ==> !Helpers.CaseAndSpaceInsensitiveEquals(hierarchies[j].name, hierarchyName)
      {
        if Helpers.CaseAndSpaceInsensitiveEquals(hierarchies[i].name, hierarchyName) {
          return true;
        }
        i := i + 1;
      }
      return false;
    }

    /** `addHierarchy(hierarchy)`: throws for a name already present, appends otherwise. */
    method AddHierarchy(hierarchy: Hierarchies.Hierarchy) returns (o: Outcome)
      modifies this
      ensures (exists i :: 0 <= i < |old(hierarchies)| &&
                 Helpers.CaseAndSpaceInsensitiveEquals(old(hierarchies)[i].name, hierarchy.name)) ==>
                o == Fail(Thrown(ExistsMessage(hierarchy.name, name))) && hierarchies == old(hierarchies)
      ensures !(exists i :: 0 <= i < |old(hierarchies)| &&
                  Helpers.CaseAndSpaceInsensitiveEquals(old(hierarchies)[i].name, hierarchy.name)) ==>
                o == Done && hierarchies == old(hierarchies) + [hierarchy]
      ensures name == old(name) && uniqueName == old(uniqueName) && defaultHierarchy == old(defaultHierarchy)
    {
      var present := HasHierarchy(hierarchy.name);
      if present {
        return Fail(Thrown(ExistsMessage(hierarchy.name, name)));
      }
      hierarchies := hierarchies + [hierarchy];
      o := Done;
    }

    /** `deleteHierarchy(hierarchyName)`: throws for `leaves` in any letter case;
        otherwise splices at the first case-insensitive name match, which is -1, and so the
        last hierarchy, when nothing matches. */
    method DeleteHierarchy(hierarchyName: string) returns (o: Outcome)
      modifies this
      ensures IsLeaves(hierarchyName) ==> o == Fail(Thrown(LeavesMessage)) && hierarchies == old(hierarchies)
      ensures !IsLeaves(hierarchyName) ==> o == Done && hierarchies == DeleteFromNames(old(hierarchies), old(Names()), hierarchyName)
      ensures name == old(name) && uniqueName == old(uniqueName) && defaultHierarchy == old(defaultHierarchy)
    {
      if ToLower(hierarchyName) == "leaves" {
        return Fail(Thrown(LeavesMessage));
      }
      var index := JsArray.FindIndex(Names(), SameLowerName(hierarchyName));
      hierarchies := JsArray.SpliceOne(hierarchies, index);
      o := Done;
    }

    /** `dimension.body`: `Name`, and the bodies of the hierarchies other than `leaves`. */
    method ConstructBody() returns (r: Js)
      requires forall h :: h in hierarchies ==> h.Valid()
      ensures r == DimensionBody(name, KeptBodies(old(Names()), old(BodiesOf(hierarchies))))
    {
      var bodies := CollectKeptBodies(hierarchies, Names(), BodiesOf(hierarchies));
      r := DimensionBody(name, bodies);
    }
  }

  /** The names of a list of hierarchies, in list order. */
  function NamesOf(hs: seq<Hierarchies.Hierarchy>): (r: seq<string>)
    reads set h | h in hs
    ensures |r| == |hs| && forall i :: 0 <= i < |hs| ==> r[i] == hs[i].name
  {
    seq(|hs|, i requires 0 <= i < |hs| reads set h | h in hs => hs[i].name)
  }

  /** The body of each hierarchy of a list, in list order. */
  ghost function BodiesOf(hs: seq<Hierarchies.Hierarchy>): (r: seq<Js>)
    reads set h | h in hs, set h | h in hs :: h.elements,
          set h | h in hs :: h.edges, set h | h in hs :: h.edges.store
    requires forall h :: h in hs ==> h.Valid()
    ensures |r| == |hs|
    ensures forall i :: 0 <= i < |hs| ==> r[i] == hs[i].BodyValue()
  {
    seq(|hs|, i requires 0 <= i < |hs| && hs[i].Valid()
                reads set h | h in hs, set h | h in hs :: h.elements, set h | h in hs :: h.edges,
                      set h | h in hs :: h.edges.store =>
                hs[i].BodyValue())
  }

  /** The loop of `body`: the bodies of the hierarchies in list order, `leaves` left out. */
  method CollectKeptBodies(hs: seq<Hierarchies.Hierarchy>, ghost names: seq<string>, ghost all: seq<Js>)
    returns (bodies: seq<Js>)
    requires |names| == |hs| == |all|
    requires forall i :: 0 <= i < |hs| ==> hs[i].Valid() && names[i] == hs[i].name && all[i] == hs[i].BodyValue()
    ensures bodies == KeptBodies(names, all)
  {
    bodies := [];
    var i := 0;
    while i < |hs|
      invariant 0 <= i <= |hs|
      invariant bodies == KeptBodies(names[..i], all[..i])
    {
      var kept := KeptBody(hs[i], names[i], all[i]);
      KeptBodiesStep(names, all, i, bodies, kept);
      bodies := bodies + kept;
      i := i + 1;
    }
    assert names[..i] == names && all[..i] == all;
  }

  lemma KeptBodiesStep(names: seq<string>, all: seq<Js>, i: nat, bodies: seq<Js>, kept: seq<Js>)
    requires |names| == |all| && i < |names|
    requires bodies == KeptBodies(names[..i], all[..i])
    requires kept == if IsLeaves(names[i]) then [] else [all[i]]
    ensures bodies + kept == KeptBodies(names[..i + 1], all[..i + 1])
  {
    KeptBodiesSnoc(names[..i], all[..i], names[i], all[i]);
    assert names[..i + 1] == names[..i] + [names[i]] && all[..i + 1] == all[..i] + [all[i]];
  }

  /** The body one hierarchy adds to the dimension's body: none for `leaves`. The ghost
      parameters are its name and its body. */
  method KeptBody(h: Hierarchies.Hierarchy, ghost n: string, ghost b: Js) returns (bs: seq<Js>)
    requires h.Valid() && n == h.name && b == h.BodyValue()
    ensures bs == if IsLeaves(n) then [] else [b]
  {
    if IsLeaves(h.name) {
      bs := [];
    } else {
      var body := h.ConstructBody();
      bs := [body];
    }
  }

  /** `for (const hierarchy of hierarchies) … Hierarchy.fromJson(hierarchy)`: each item read
      in order; the first that fails fails the whole list. */
  method ParseHierarchies(items: seq<Js>) returns (r: Result<seq<Hierarchies.Hierarchy>>)
    ensures r.Ok? <==> forall i :: 0 <= i < |items| ==> Hierarchies.Readable(items[i])
    ensures r.Ok? ==> |r.value| == |items|
    ensures r.Ok? ==> forall i :: 0 <= i < |items| ==> fresh(r.value[i]) && Hierarchies.ReadFrom(r.value[i], items[i])
  {
    var hs: seq<Hierarchies.Hierarchy> := [];
    var i := 0;
    while i < |items|
      invariant 0 <= i <= |items| && |hs| == i
      invariant forall j :: 0 <= j < i ==> Hierarchies.Readable(items[j])
      invariant forall j :: 0 <= j < i ==> fresh(hs[j]) && Hierarchies.ReadFrom(hs[j], items[j])
    {
      var h := Hierarchies.FromJson(items[i]);
      if h.Err? {
        return Err(h.error);
      }
      ghost var prev := hs;
      hs := hs + [h.value];
      forall j | 0 <= j < i + 1
        ensures Hierarchies.Readable(items[j]) && fresh(hs[j]) && Hierarchies.ReadFrom(hs[j], items[j])
      {
        if j < i {
          assert hs[j] == prev[j];
        }
      }
      i := i + 1;
    }
    r := Ok(hs);
  }

  /** What `Dimension.fromJson` needs of a response: an object with a string `Name`, whose
      truthy `Hierarchies` is a list of readable hierarchies and whose truthy
      `DefaultHierarchy` is readable. */
  predicate Readable(data: Js) {
    !data.Undefined? && !data.Null? && Field(data, "Name").Str? &&
    (Truthy(Field(data, "Hierarchies")) ==>
       Field(data, "Hierarchies").Arr? &&
       forall i :: 0 <= i < |Field(data, "Hierarchies").items| ==> Hierarchies.Readable(Field(data, "Hierarchies").items[i])) &&
    (Truthy(Field(data, "DefaultHierarchy")) ==> Hierarchies.Readable(Field(data, "DefaultHierarchy")))
  }

  /** `Dimension.fromJson(data)`: `Name`, `UniqueName`, every item of a truthy
      `Hierarchies` read as a hierarchy, and a truthy `DefaultHierarchy` read as one. It
      succeeds exactly on the readable responses. */
  method FromJson(data: Js) returns (r: Result<Dimension>)
    ensures data.Undefined? || data.Null? ==> r == Err(TypeError)
    ensures r.Ok? <==> Readable(data)
    ensures r.Ok? ==> fresh(r.value) && Field(data, "Name") == Str(r.value.name) &&
                      r.value.uniqueName == Field(data, "UniqueName")
    ensures r.Ok? && Truthy(Field(data, "Hierarchies")) ==>
              |r.value.hierarchies| == |Field(data, "Hierarchies").items| &&
              forall i :: 0 <= i < |r.value.hierarchies| ==>
                fresh(r.value.hierarchies[i]) && Hierarchies.ReadFrom(r.value.hierarchies[i], Field(data, "Hierarchies").items[i])
    ensures r.Ok? && !Truthy(Field(data, "Hierarchies")) ==> r.value.hierarchies == []
    ensures r.Ok? ==> (r.value.defaultHierarchy.Some? <==> Truthy(Field(data, "DefaultHierarchy")))
    ensures r.Ok? && r.value.defaultHierarchy.Some? ==>
              fresh(r.value.defaultHierarchy.value) &&
              Hierarchies.ReadFrom(r.value.defaultHierarchy.value, Field(data, "DefaultHierarchy"))
  {
    if data.Undefined? || data.Null? {
      return Err(TypeError);
    }
    var name := AsString(Field(data, "Name"));
    if name.Err? {
      return Err(name.error);
    }
    var list := Field(data, "Hierarchies");
    var hs: seq<Hierarchies.Hierarchy> := [];
    if Truthy(list) {
      if !list.Arr? {
        return Err(MalformedResponse);
      }
      var parsed := ParseHierarchies(list.items);
      if parsed.Err? {
        return Err(parsed.error);
      }
      hs := parsed.value;
    }
    var default: Option<Hierarchies.Hierarchy> := None;
    if Truthy(Field(data, "DefaultHierarchy")) {
      var d := Hierarchies.FromJson(Field(data, "DefaultHierarchy"));
      if d.Err? {
        return Err(d.error);
      }
      default := Some(d.value);
    }
    var dim := new Dimension(name.value, Field(data, "UniqueName"), hs, default);
    r := Ok(dim);
  }

  // ---------------------------------------------------------------------------
  // Properties

  /** A matching name removes exactly the first hierarchy whose name matches without
      regard to letter case. */
  lemma DeleteRemovesFirstMatch<A>(hs: seq<A>, names: seq<string>, hierarchyName: string, i: int)
    requires |names| == |hs| && 0 <= i < |hs|
    requires ToLower(names[i]) == ToLower(hierarchyName)
    requires forall j :: 0 <= j < i ==> ToLower(names[j]) != ToLower(hierarchyName)
    ensures DeleteFromNames(hs, names, hierarchyName) == hs[..i] + hs[i + 1..]
  {
    var k := JsArray.FindIndex(names, SameLowerName(hierarchyName));
    assert SameLowerName(hierarchyName)(names[i]);
    assert k == i;
    JsArray.SpliceAtIndex(hs, i);
  }

  /** A name matching none removes the last hierarchy all the same. */
  lemma DeleteWithoutMatchDropsLast<A>(hs: seq<A>, names: seq<string>, hierarchyName: string)
    requires |names| == |hs| && hs != []
    requires forall j :: 0 <= j < |names| ==> ToLower(names[j]) != ToLower(hierarchyName)
    ensures DeleteFromNames(hs, names, hierarchyName) == hs[..|hs| - 1]
  {
    assert forall j :: 0 <= j < |names| ==> !SameLowerName(hierarchyName)(names[j]);
    JsArray.SpliceMinusOne(hs);
  }

  /** The match ignores letter case but not whitespace: `"A b"` is found as `"a B"` but
      not as `"ab"`, which `hasHierarchy` does count as the same name. */
  lemma DeleteMatchIsCaseOnly()
    ensures ToLower("A b") == ToLower("a B")
    ensures ToLower("A b") != ToLower("ab")
    ensures Helpers.CaseAndSpaceInsensitiveEquals("A b", "ab")
  {
    assert ToLower("A b") == "a b";
    assert ToLower("a B") == "a b";
    assert |ToLower("ab")| == 2;
    assert StripWhitespace("A b") == "Ab";
  }

  /** One more hierarchy adds its body, unless it is `leaves`. */
  lemma KeptBodiesSnoc(names: seq<string>, bodies: seq<Js>, n: string, b: Js)
    requires |names| == |bodies|
    ensures KeptBodies(names + [n], bodies + [b]) == KeptBodies(names, bodies) + (if IsLeaves(n) then [] else [b])
  {
    assert (names + [n])[..|names|] == names;
    assert (bodies + [b])[..|bodies|] == bodies;
  }

  /** Without a `leaves` hierarchy every hierarchy's body is sent, in list order. */
  lemma {:induction false} KeptWithoutLeaves(names: seq<string>, bodies: seq<Js>)
    requires |names| == |bodies|
    requires forall i :: 0 <= i < |names| ==> !IsLeaves(names[i])
    ensures KeptBodies(names, bodies) == bodies
    decreases |names|
  {
    if names != [] {
      var n := |names| - 1;
      KeptWithoutLeaves(names[..n], bodies[..n]);
      assert bodies[..n] + [bodies[n]] == bodies;
    }
  }

  /** Only `leaves` hierarchies: nothing is sent. */
  lemma {:induction false} KeptOnlyLeaves(names: seq<string>, bodies: seq<Js>)
    requires |names| == |bodies|
    requires forall i :: 0 <= i < |names| ==> IsLeaves(names[i])
    ensures KeptBodies(names, bodies) == []
    decreases |names|
  {
    if names != [] {
      var n := |names| - 1;
      KeptOnlyLeaves(names[..n], bodies[..n]);
    }
  }

  /** A `leaves` hierarchy, in any letter case, adds nothing to the body; any other adds
      its own body at the end. */
  lemma LeavesAddsNothing(names: seq<string>, bodies: seq<Js>, n: string, b: Js)
    requires |names| == |bodies|
    ensures IsLeaves(n) ==> KeptBodies(names + [n], bodies + [b]) == KeptBodies(names, bodies)
    ensures !IsLeaves(n) ==> KeptBodies(names + [n], bodies + [b]) == KeptBodies(names, bodies) + [b]
  {
    KeptBodiesSnoc(names, bodies, n, b);
  }
}
