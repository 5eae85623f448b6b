/** src/models/Hierarchy.ts: a hierarchy of a dimension. Its elements live in a case- and
    space-insensitive map keyed by element name, its edges in the insensitive tuple store
    keyed by `[parent, component]` with the weight as value. */
module Hierarchies {
  import opened Wrappers
  import opened JsString
  import opened JsValue
  import OrderedMap
  import InsensitiveMap
  import TupleMaps
  import JsonText
  import Elements
  import Edges
  import Subsets
  import ElementAttributes

  type ElementEntries = InsensitiveMap.Entries<(), Elements.HierarchyElement>

  /** Every element is stored under the normal form of its own name. */
  predicate KeyedByName(e: ElementEntries) {
    forall i :: 0 <= i < |e| ==> e[i].0 == InsensitiveMap.StrKey(Normalize(e[i].1.name))
  }

  /** `if (list) { for (const x of list) … parse(x) … }`: a falsy list is skipped, an array
      is parsed item by item; anything else cannot be iterated as a list of records. */
  function ParseList<A>(v: Js, parse: Js -> Result<A>): (r: Result<seq<A>>)
    ensures !Truthy(v) ==> r == Ok([])
    ensures Truthy(v) && !v.Arr? ==> r == Err(MalformedResponse)
    ensures v.Arr? ==> r == MapResult(v.items, parse)
  {
    if !Truthy(v) then Ok([]) else if v.Arr? then MapResult(v.items, parse) else Err(MalformedResponse)
  }

  /** The `set(el.name, el)` calls of the constructor, in order. */
  function ElementPairs(els: seq<Elements.HierarchyElement>): (r: seq<(InsensitiveMap.Key<()>, Elements.HierarchyElement)>)
    ensures |r| == |els| && forall i :: 0 <= i < |els| ==> r[i] == (InsensitiveMap.StrKey(els[i].name), els[i])
  {
    seq(|els|, i requires 0 <= i < |els| => (InsensitiveMap.StrKey(els[i].name), els[i]))
  }

  /** The tuple store after `set([e.parentName, e.componentName], e.weight)` for each edge. */
  function EdgeEntries(es: seq<Edges.Edge>): InsensitiveMap.Entries<(), Js>
    decreases |es|
  {
    if es == [] then []
    else
      var e := es[|es| - 1];
      InsensitiveMap.MapSet(EdgeEntries(es[..|es| - 1]), TupleMaps.TupleKey((e.parentName, e.componentName)), e.weight)
  }

  /** `new HierarchyElement(elementName, ElementType[elementType])` as evidently intended:
      no unique name, so empty dimension and hierarchy names, and no level, index or
      attributes. */
  function BareElement(elementName: string, elementType: string): (r: Elements.HierarchyElement)
    ensures Elements.NewElementIntended(elementName, Elements.ElementTypeOf(elementType), None, Undefined, Undefined, Undefined) == Ok(r)
  {
    Elements.HierarchyElement(elementName, "", "", Elements.ElementTypeOf(elementType), None, Undefined, Undefined, None)
  }

  const BodyKeys := ["Name", "Elements", "Edges"]

  /** The body once the element values and the reported edges are known. */
  function HierarchyBody(name: string, els: seq<Elements.HierarchyElement>, edges: seq<Edges.Edge>): (r: Js)
    ensures KeysOf(r) == BodyKeys
    ensures Field(r, "Name") == Str(name)
    ensures Field(r, "Elements").Arr? && |Field(r, "Elements").items| == |els|
    ensures forall i :: 0 <= i < |els| ==> Field(r, "Elements").items[i] == Elements.Body(els[i])
    ensures Field(r, "Edges").Arr? && |Field(r, "Edges").items| == |edges|
    ensures forall i :: 0 <= i < |edges| ==> Field(r, "Edges").items[i] == Edges.Body(edges[i])
  {
    var eb := seq(|els|, i requires 0 <= i < |els| => Elements.Body(els[i]));
    var gb := seq(|edges|, i requires 0 <= i < |edges| => Edges.Body(edges[i]));
    var vs := [Str(name), Arr(eb), Arr(gb)];
    FieldsOfKeys(BodyKeys, vs);
    assert BodyKeys[0] == "Name" && BodyKeys[1] == "Elements" && BodyKeys[2] == "Edges";
    Obj(Zip(BodyKeys, vs))
  }

  class Hierarchy {
    var name: string
    var dimensionName: string
    var elementAttributes: seq<ElementAttributes.ElementAttribute>
    var subsets: seq<Subsets.Subset>
    const elements: InsensitiveMap.CaseAndSpaceInsensitiveMap<(), Elements.HierarchyElement>
    const edges: TupleMaps.TupleMap

    ghost predicate Valid()
      reads this, elements, edges, edges.store
    {
      elements.Valid() && edges.Valid() && KeyedByName(elements.entries)
    }

    /** The edges as `forEach` reports them: each slot's pair with its weight. */
    ghost function EdgeList(): (r: seq<Edges.Edge>)
      reads this, edges, edges.store
      requires |edges.slots| == |edges.store.entries|
      ensures |r| == |edges.store.entries|
    {
      var slots, entries := edges.slots, edges.store.entries;
      seq(|slots|, i requires 0 <= i < |slots| => Edges.Edge(slots[i].0, slots[i].1, entries[i].1))
    }

    /** The body `constructBody` returns for the current state. */
    ghost function BodyValue(): Js
      reads this, elements, edges, edges.store
      requires Valid()
    {
      HierarchyBody(name, OrderedMap.Values(elements.entries), EdgeList())
    }

    /** `new Hierarchy(name, dimensionName, elements, edges, elementAttributes, subsets)`,
        with the four lists already read by their `fromJson`: each element set under its
        name and each edge under its pair, in order. */
    constructor (name: string, dimensionName: string, els: seq<Elements.HierarchyElement>, es: seq<Edges.Edge>,
                 elementAttributes: seq<ElementAttributes.ElementAttribute>, subsets: seq<Subsets.Subset>)
      ensures this.name == name && this.dimensionName == dimensionName
      ensures elements.entries == InsensitiveMap.FromPairs(ElementPairs(els))
      ensures edges.store.entries == EdgeEntries(es)
      ensures this.elementAttributes == elementAttributes && this.subsets == subsets
      ensures Valid()
      ensures fresh(elements) && fresh(edges) && fresh(edges.store)
    {
      this.name := name;
      this.dimensionName := dimensionName;
      var m := new InsensitiveMap.CaseAndSpaceInsensitiveMap<(), Elements.HierarchyElement>([]);
      InsertElements(m, els);
      var t := new TupleMaps.TupleMap();
      InsertEdges(t, es);
      this.elements := m;
      this.edges := t;
      this.elementAttributes := elementAttributes;
      this.subsets := subsets;
    }

    /** `addElement(elementName, elementType)`: the element is made without a unique name,
        so its constructor throws before anything is stored. */
    method AddElement(elementName: string, elementType: string) returns (o: Outcome)
      ensures o == Fail(TypeError)
    {
      var el := Elements.NewElement(elementName, Elements.ElementTypeOf(elementType), Undefined, Undefined, Undefined, Undefined);
      o := Fail(el.error);
    }

    /** `addElement` as evidently intended: the bare element is set under its name,
        replacing an element of an equivalent name where it stands. */
    method AddElementIntended(elementName: string, elementType: string)
      requires Valid()
      modifies elements
      ensures elements.entries == InsensitiveMap.MapSet(old(elements.entries), InsensitiveMap.StrKey(elementName), BareElement(elementName, elementType))
      ensures Valid()
    {
      var el := BareElement(elementName, elementType);
      SetKeepsKeyedByName(elements.entries, elementName, el);
      elements.Set(InsensitiveMap.StrKey(elementName), el);
    }

    /** `updateElement(elementName, elementType)`: an absent name goes the way of
        `addElement` and throws; a present one has only its element's type replaced. */
    method UpdateElement(elementName: string, elementType: string) returns (o: Outcome)
      requires Valid()
      modifies elements
      ensures !InsensitiveMap.MapHas(old(elements.entries), InsensitiveMap.StrKey(elementName)) ==>
                o == Fail(TypeError) && elements.entries == old(elements.entries)
      ensures InsensitiveMap.MapHas(old(elements.entries), InsensitiveMap.StrKey(elementName)) ==>
                o == Done &&
                elements.entries == InsensitiveMap.MapSet(old(elements.entries), InsensitiveMap.StrKey(elementName),
                  InsensitiveMap.MapGet(old(elements.entries), InsensitiveMap.StrKey(elementName)).value.(elementType := Elements.ElementTypeOf(elementType)))
      ensures Valid()
    {
      var present := elements.Has(InsensitiveMap.StrKey(elementName));
      if !present {
        o := AddElement(elementName, elementType);
      } else {
        var current := elements.Get(InsensitiveMap.StrKey(elementName));
        var el := current.value.(elementType := Elements.ElementTypeOf(elementType));
        StoredNameMatches(elements.entries, elementName);
        SetKeepsKeyedByName(elements.entries, elementName, el);
        elements.Set(InsensitiveMap.StrKey(elementName), el);
        o := Done;
      }
    }

    /** `updateElement` as evidently intended: an absent name is added as a bare element. */
    method UpdateElementIntended(elementName: string, elementType: string)
      requires Valid()
      modifies elements
      ensures !InsensitiveMap.MapHas(old(elements.entries), InsensitiveMap.StrKey(elementName)) ==>
                elements.entries == InsensitiveMap.MapSet(old(elements.entries), InsensitiveMap.StrKey(elementName), BareElement(elementName, elementType))
      ensures InsensitiveMap.MapHas(old(elements.entries), InsensitiveMap.StrKey(elementName)) ==>
                elements.entries == InsensitiveMap.MapSet(old(elements.entries), InsensitiveMap.StrKey(elementName),
                  InsensitiveMap.MapGet(old(elements.entries), InsensitiveMap.StrKey(elementName)).value.(elementType := Elements.ElementTypeOf(elementType)))
      ensures Valid()
    {
      var present := elements.Has(InsensitiveMap.StrKey(elementName));
      if !present {
        AddElementIntended(elementName, elementType);
      } else {
        var o := UpdateElement(elementName, elementType);
      }
    }

    method DeleteElement(elementName: string)
      requires Valid()
      modifies elements
      ensures elements.entries == InsensitiveMap.MapDelete(old(elements.entries), InsensitiveMap.StrKey(elementName))
      ensures Valid()
    {
      var present := elements.Has(InsensitiveMap.StrKey(elementName));
      if present {
        DeleteKeepsKeyedByName(elements.entries, InsensitiveMap.StrKey(elementName));
        var _ := elements.Delete(InsensitiveMap.StrKey(elementName));
      }
    }

    /** `addEdge(parent, component, weight = 1)`: an omitted weight is 1. */
    method AddEdge(parent: string, component: string, weight: Js)
      requires Valid()
      modifies edges, edges.store
      ensures edges.store.entries == InsensitiveMap.MapSet(old(edges.store.entries), TupleMaps.TupleKey((parent, component)),
                                                           if weight.Undefined? then Num(1.0) else weight)
      ensures Valid()
    {
      var w := if weight.Undefined? then Num(1.0) else weight;
      edges.Set((parent, component), w);
    }

    method UpdateEdge(parent: string, component: string, weight: Js)
      requires Valid()
      modifies edges, edges.store
      ensures edges.store.entries == InsensitiveMap.MapSet(old(edges.store.entries), TupleMaps.TupleKey((parent, component)), weight)
      ensures Valid()
    {
      edges.Set((parent, component), weight);
    }

    method DeleteEdge(parent: string, component: string)
      requires Valid()
      modifies edges, edges.store
      ensures edges.store.entries == InsensitiveMap.MapDelete(old(edges.store.entries), TupleMaps.TupleKey((parent, component)))
      ensures Valid()
    {
      var present := edges.Has((parent, component));
      if present {
        var _ := edges.Delete((parent, component));
      }
    }

    /** The `elements` getter: the stored elements in first-insertion order. */
    method ElementValues() returns (r: seq<Elements.HierarchyElement>)
      ensures r == OrderedMap.Values(elements.entries)
    {
      r := elements.Values();
    }

    /** The `edges` getter returns the tuple store's `values()`: the weights alone. */
    method EdgeWeights() returns (r: seq<Js>)
      ensures r == OrderedMap.Values(edges.store.entries)
    {
      r := edges.Values();
    }

    /** `hierarchy.body`: `Name`, the element bodies in map order and an edge body for each
        slot of the tuple store, with the pair `forEach` parses back out of its key. */
    method ConstructBody() returns (r: Js)
      requires Valid()
      ensures r == BodyValue()
    {
      var elementCalls := elements.ForEach();
      var els := ElementsOfCalls(elementCalls);
      assert els == OrderedMap.Values(elements.entries);
      var edgeCalls := edges.ForEach();
      var es := EdgesOfCalls(edgeCalls);
      forall k | 0 <= k < |es|
        ensures es[k] == EdgeList()[k]
      {
        SamePair(edgeCalls[k].1, edges.slots[k]);
      }
      assert es == EdgeList();
      r := HierarchyBody(name, els, es);
    }
  }

  /** The constructor's element loop: `set(el.name, el)` for each element in turn. */
  method InsertElements(m: InsensitiveMap.CaseAndSpaceInsensitiveMap<(), Elements.HierarchyElement>,
                        els: seq<Elements.HierarchyElement>)
    requires m.Valid() && m.entries == []
    modifies m
    ensures m.Valid() && KeyedByName(m.entries)
    ensures m.entries == InsensitiveMap.FromPairs(ElementPairs(els))
  {
    var pairs := ElementPairs(els);
    var i := 0;
    assert pairs[..0] == [];
    while i < |els|
      invariant 0 <= i <= |els|
      invariant m.Valid() && m.entries == InsensitiveMap.FromPairs(pairs[..i])
      invariant KeyedByName(m.entries)
    {
      assert pairs[..i + 1][..i] == pairs[..i];
      SetKeepsKeyedByName(m.entries, els[i].name, els[i]);
      m.Set(InsensitiveMap.StrKey(els[i].name), els[i]);
      i := i + 1;
    }
    assert pairs[..i] == pairs;
  }

  /** The constructor's edge loop: `set([e.parentName, e.componentName], e.weight)` for
      each edge in turn. */
  method InsertEdges(t: TupleMaps.TupleMap, es: seq<Edges.Edge>)
    requires t.Valid() && t.store.entries == []
    modifies t, t.store
    ensures t.Valid() && t.store.entries == EdgeEntries(es)
  {
    var k := 0;
    assert es[..0] == [];
    while k < |es|
      invariant 0 <= k <= |es|
      invariant t.Valid() && t.store.entries == EdgeEntries(es[..k])
    {
      assert es[..k + 1][..k] == es[..k];
      t.Set((es[k].parentName, es[k].componentName), es[k].weight);
      k := k + 1;
    }
    assert es[..k] == es;
  }

  /** The elements handed to the `forEach` callback, in order. */
  method ElementsOfCalls(calls: seq<(Elements.HierarchyElement, InsensitiveMap.Key<()>)>) returns (els: seq<Elements.HierarchyElement>)
    ensures |els| == |calls| && forall i :: 0 <= i < |calls| ==> els[i] == calls[i].0
  {
    els := [];
    var i := 0;
    while i < |calls|
      invariant 0 <= i <= |calls|
      invariant |els| == i && forall j :: 0 <= j < i ==> els[j] == calls[j].0
    {
      els := els + [calls[i].0];
      i := i + 1;
    }
  }

  /** `new Edge(parent, component, weight)` for each `(weight, [parent, component])` the
      tuple store's `forEach` reports, in order. */
  method EdgesOfCalls(calls: seq<(Js, TupleMaps.Pair)>) returns (es: seq<Edges.Edge>)
    ensures |es| == |calls|
    ensures forall i :: 0 <= i < |calls| ==> es[i] == Edges.Edge(calls[i].1.0, calls[i].1.1, calls[i].0)
  {
    es := [];
    var i := 0;
    while i < |calls|
      invariant 0 <= i <= |calls|
      invariant |es| == i && forall j :: 0 <= j < i ==> es[j] == Edges.Edge(calls[j].1.0, calls[j].1.1, calls[j].0)
    {
      var (weight, pair) := calls[i];
      es := es + [Edges.Edge(pair.0, pair.1, weight)];
      i := i + 1;
    }
  }

  /** What `Hierarchy.fromJson` needs of a response: an object whose `UniqueName` can be
      sliced, with a string `Name`, and whose four lists each read. */
  predicate Readable(data: Js) {
    !data.Undefined? && !data.Null? && Field(data, "UniqueName").Str? && Field(data, "Name").Str? &&
    ParseList(Field(data, "Elements"), Elements.FromJson).Ok? &&
    ParseList(Field(data, "Edges"), Edges.FromJson).Ok? &&
    ParseList(Field(data, "Subsets"), Subsets.FromJson).Ok? &&
    ParseList(Field(data, "ElementAttributes"), ElementAttributes.FromJson).Ok?
  }

  /** `h` holds what `fromJson` reads from `data`: the name, the dimension name sliced out
      of the unique name, every element under its name, every edge under its pair, and the
      subsets and element attributes as read, in order. */
  ghost predicate ReadFrom(h: Hierarchy, data: Js)
    reads h, h.elements, h.edges, h.edges.store
  {
    Readable(data) && h.Valid() && Field(data, "Name") == Str(h.name) &&
    h.dimensionName == Elements.DimensionNameOf(Field(data, "UniqueName").s) &&
    h.elements.entries == InsensitiveMap.FromPairs(ElementPairs(ParseList(Field(data, "Elements"), Elements.FromJson).value)) &&
    h.edges.store.entries == EdgeEntries(ParseList(Field(data, "Edges"), Edges.FromJson).value) &&
    h.subsets == ParseList(Field(data, "Subsets"), Subsets.FromJson).value &&
    h.elementAttributes == ParseList(Field(data, "ElementAttributes"), ElementAttributes.FromJson).value
  }

  /** `Hierarchy.fromJson(data)`: the dimension name is sliced out of `UniqueName`, and the
      element, edge, subset and attribute lists are each read with their own `fromJson`.
      It succeeds exactly on the readable responses. */
  method FromJson(data: Js) returns (r: Result<Hierarchy>)
    ensures data.Undefined? || data.Null? ==> r == Err(TypeError)
    ensures !data.Undefined? && !data.Null? && !Field(data, "UniqueName").Str? ==> r == Err(TypeError)
    ensures r.Ok? <==> Readable(data)
    ensures r.Ok? ==> fresh(r.value) && fresh(r.value.elements) && fresh(r.value.edges) && fresh(r.value.edges.store)
    ensures r.Ok? ==> ReadFrom(r.value, data)
  {
    if data.Undefined? || data.Null? {
      return Err(TypeError);
    }
    var u := Field(data, "UniqueName");
    if !u.Str? {
      return Err(TypeError);
    }
    var name := AsString(Field(data, "Name"));
    if name.Err? {
      return Err(name.error);
    }
    var els := ParseList(Field(data, "Elements"), Elements.FromJson);
    if els.Err? {
      return Err(els.error);
    }
    var es := ParseList(Field(data, "Edges"), Edges.FromJson);
    if es.Err? {
      return Err(es.error);
    }
    var ss := ParseList(Field(data, "Subsets"), Subsets.FromJson);
    if ss.Err? {
      return Err(ss.error);
    }
    var eas := ParseList(Field(data, "ElementAttributes"), ElementAttributes.FromJson);
    if eas.Err? {
      return Err(eas.error);
    }
    var h := new Hierarchy(name.value, Elements.DimensionNameOf(u.s), els.value, es.value, eas.value, ss.value);
    r := Ok(h);
  }

  // ---------------------------------------------------------------------------
  // Properties

  /** Setting an element under a name equivalent to its own keeps every element under its
      own name. */
  lemma SetKeepsKeyedByName(e: ElementEntries, k: string, el: Elements.HierarchyElement)
    requires KeyedByName(e)
    requires Normalize(k) == Normalize(el.name)
    ensures KeyedByName(InsensitiveMap.MapSet(e, InsensitiveMap.StrKey(k), el))
  {
  }

  lemma DeleteKeepsKeyedByName(e: ElementEntries, k: InsensitiveMap.Key<()>)
    requires KeyedByName(e)
    ensures KeyedByName(InsensitiveMap.MapDelete(e, k))
  {
    var i := OrderedMap.IndexOfKey(e, InsensitiveMap.NormalizeKey(k));
    if i >= 0 {
      OrderedMap.DeleteShifts(e, InsensitiveMap.NormalizeKey(k));
    }
  }

  /** The element found under a name has a name equivalent to it. */
  lemma StoredNameMatches(e: ElementEntries, k: string)
    requires KeyedByName(e) && InsensitiveMap.MapHas(e, InsensitiveMap.StrKey(k))
    ensures Normalize(InsensitiveMap.MapGet(e, InsensitiveMap.StrKey(k)).value.name) == Normalize(k)
  {
    var i := OrderedMap.IndexOfKey(e, InsensitiveMap.NormalizeKey(InsensitiveMap.StrKey(k)));
    assert e[i].0 == InsensitiveMap.StrKey(Normalize(k));
  }

  /** A pair that serialises to the key of a slot is that slot's pair. */
  lemma SamePair(p: TupleMaps.Pair, q: TupleMaps.Pair)
    requires TupleMaps.TupleKey(p) == TupleMaps.TupleKey(q)
    ensures p == q
  {
    JsonText.StringifyPairInjective(p.0, p.1, q.0, q.1);
  }

  /** No two elements of a hierarchy have equivalent names: `elements` yields one element
      per distinct normal form. */
  lemma ElementNamesDistinct(e: ElementEntries)
    requires InsensitiveMap.Wellformed(e) && KeyedByName(e)
    ensures forall i, j :: 0 <= i < j < |e| ==> Normalize(e[i].1.name) != Normalize(e[j].1.name)
  {
    forall i, j | 0 <= i < j < |e|
      ensures Normalize(e[i].1.name) != Normalize(e[j].1.name)
    {
      assert e[i].0 != e[j].0;
    }
  }

  /** The intended `addElement` on a name equivalent to a stored one replaces that element
      where it stands, keeping the count; on a new name it appends one. */
  lemma AddElementCount(e: ElementEntries, elementName: string, elementType: string)
    ensures var e' := InsensitiveMap.MapSet(e, InsensitiveMap.StrKey(elementName), BareElement(elementName, elementType));
            |e'| == (if InsensitiveMap.MapHas(e, InsensitiveMap.StrKey(elementName)) then |e| else |e| + 1) &&
            InsensitiveMap.MapGet(e', InsensitiveMap.StrKey(elementName)) == Some(BareElement(elementName, elementType))
  {
    InsensitiveMap.SetSize(e, InsensitiveMap.StrKey(elementName), BareElement(elementName, elementType));
    InsensitiveMap.GetAfterSet(e, InsensitiveMap.StrKey(elementName), BareElement(elementName, elementType), InsensitiveMap.StrKey(elementName));
  }

  /** Updating a present element changes its type and nothing else: the names, their order
      and every other element stay as they were. */
  lemma UpdateChangesOnlyType(e: ElementEntries, elementName: string, t: Js, other: string)
    requires InsensitiveMap.MapHas(e, InsensitiveMap.StrKey(elementName))
    ensures var old_ := InsensitiveMap.MapGet(e, InsensitiveMap.StrKey(elementName)).value;
            var e' := InsensitiveMap.MapSet(e, InsensitiveMap.StrKey(elementName), old_.(elementType := t));
            OrderedMap.Keys(e') == OrderedMap.Keys(e) &&
            InsensitiveMap.MapGet(e', InsensitiveMap.StrKey(other)) ==
              if Normalize(other) == Normalize(elementName) then Some(old_.(elementType := t))
              else InsensitiveMap.MapGet(e, InsensitiveMap.StrKey(other))
  {
    var old_ := InsensitiveMap.MapGet(e, InsensitiveMap.StrKey(elementName)).value;
    InsensitiveMap.SetSize(e, InsensitiveMap.StrKey(elementName), old_.(elementType := t));
    InsensitiveMap.GetAfterSet(e, InsensitiveMap.StrKey(elementName), old_.(elementType := t), InsensitiveMap.StrKey(other));
  }

  /** Deleting an element removes it and only it; deleting an absent name changes nothing. */
  lemma DeleteElementEffect(e: ElementEntries, elementName: string, other: string)
    requires InsensitiveMap.Wellformed(e)
    ensures var e' := InsensitiveMap.MapDelete(e, InsensitiveMap.StrKey(elementName));
            InsensitiveMap.MapGet(e', InsensitiveMap.StrKey(other)) ==
              (if Normalize(other) == Normalize(elementName) then None else InsensitiveMap.MapGet(e, InsensitiveMap.StrKey(other))) &&
            |e'| == (if InsensitiveMap.MapHas(e, InsensitiveMap.StrKey(elementName)) then |e| - 1 else |e|)
  {
    InsensitiveMap.GetAfterDelete(e, InsensitiveMap.StrKey(elementName), InsensitiveMap.StrKey(other));
    InsensitiveMap.DeleteSize(e, InsensitiveMap.StrKey(elementName));
  }

  /** An edge added with no weight reads back with weight 1. */
  lemma AddEdgeDefaultWeight(e: InsensitiveMap.Entries<(), Js>, parent: string, component: string)
    ensures InsensitiveMap.MapGet(InsensitiveMap.MapSet(e, TupleMaps.TupleKey((parent, component)), Num(1.0)),
                                  TupleMaps.TupleKey((parent, component))) == Some(Num(1.0))
  {
    TupleMaps.GetAfterSet(e, (parent, component), Num(1.0), (parent, component));
  }

  /** A new element and a new edge each add one to their counts, whatever the counts were
      (the hierarchy test's four elements and one edge become five and two). */
  lemma AddOneOfEach(e: ElementEntries, g: InsensitiveMap.Entries<(), Js>, elementName: string, elementType: string,
                     parent: string, component: string, w: Js)
    requires !InsensitiveMap.MapHas(e, InsensitiveMap.StrKey(elementName))
    requires !InsensitiveMap.MapHas(g, TupleMaps.TupleKey((parent, component)))
    ensures |InsensitiveMap.MapSet(e, InsensitiveMap.StrKey(elementName), BareElement(elementName, elementType))| == |e| + 1
    ensures |InsensitiveMap.MapSet(g, TupleMaps.TupleKey((parent, component)), w)| == |g| + 1
  {
    AddElementCount(e, elementName, elementType);
    TupleMaps.SizeAfterSet(g, (parent, component), w);
  }

  /** The edge the body sends for the slot of `(parent, component)` carries the component
      keys of the names: lowercased, with their whitespace dropped. */
  lemma BodyEdgeNames(slot: TupleMaps.Pair, parent: string, component: string)
    requires TupleMaps.TupleKey(slot) == InsensitiveMap.NormalizeKey(TupleMaps.TupleKey((parent, component)))
    ensures slot == (TupleMaps.ComponentKey(parent), TupleMaps.ComponentKey(component))
  {
    TupleMaps.ReportedPair((parent, component), slot);
  }
}
