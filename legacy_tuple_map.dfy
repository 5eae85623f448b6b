/** src/utils/TupleMap.ts: the older tuple store over a plain, case-sensitive `Map`, keyed
    by `JSON.stringify([parent, component])` exactly. */
module LegacyTupleMaps {
  import opened Wrappers
  import opened JsonText
  import opened JsValue
  import OrderedMap

  type Pair = (string, string)

  function KeyOf(p: Pair): string {
    StringifyPair(p.0, p.1)
  }

  class TupleMap {
    var entries: OrderedMap.Entries<string, Js>
    /** The pairs the stored keys serialise, entry by entry. */
    ghost var pairs: seq<Pair>

    ghost predicate Valid()
      reads this
    {
      OrderedMap.KeysUnique(entries) && OrderedMap.Aligned(entries, pairs, KeyOf)
    }

    constructor ()
      ensures entries == []
      ensures Valid()
    {
      entries := [];
      pairs := [];
    }

    method Get(key: Pair) returns (r: Option<Js>)
      ensures r == OrderedMap.Get(entries, KeyOf(key))
    {
      r := OrderedMap.Get(entries, KeyOf(key));
    }

    method Set(key: Pair, value: Js)
      requires Valid()
      modifies this
      ensures entries == OrderedMap.Set(old(entries), KeyOf(key), value)
      ensures Valid()
    {
      var k := KeyOf(key);
      OrderedMap.SetKeepsUnique(entries, k, value);
      OrderedMap.SetKeepsAligned(entries, pairs, KeyOf, key, value);
      if !OrderedMap.Has(entries, k) {
        pairs := pairs + [key];
      }
      entries := OrderedMap.Set(entries, k, value);
    }

    method Clear()
      modifies this
      ensures entries == []
      ensures Valid()
    {
      entries := [];
      pairs := [];
    }

    method Delete(key: Pair) returns (b: bool)
      requires Valid()
      modifies this
      ensures b == OrderedMap.Has(old(entries), KeyOf(key))
      ensures entries == OrderedMap.Delete(old(entries), KeyOf(key))
      ensures Valid()
    {
      var k := KeyOf(key);
      var i := OrderedMap.IndexOfKey(entries, k);
      b := i >= 0;
      OrderedMap.DeleteKeepsUnique(entries, k);
      OrderedMap.DeleteKeepsAligned(entries, pairs, KeyOf, k);
      if i >= 0 {
        pairs := pairs[..i] + pairs[i + 1..];
      }
      entries := OrderedMap.Delete(entries, k);
    }

    method Has(key: Pair) returns (b: bool)
      ensures b == OrderedMap.Has(entries, KeyOf(key))
    {
      b := OrderedMap.Has(entries, KeyOf(key));
    }

    /** `forEach(callback)`: the value and the parsed key of every entry, in insertion
        order. Each reported pair serialises to its stored key, so it is the pair that
        was set. */
    method ForEach() returns (calls: seq<(Js, Pair)>)
      requires Valid()
      ensures |calls| == |entries|
      ensures forall i :: 0 <= i < |calls| ==> calls[i].0 == entries[i].1 && KeyOf(calls[i].1) == entries[i].0
    {
      calls := [];
      var i := 0;
      while i < |entries|
        invariant 0 <= i <= |entries|
        invariant |calls| == i
        invariant forall j :: 0 <= j < i ==> calls[j] == (entries[j].1, pairs[j])
      {
        var pair := ParseKey(entries[i].0, pairs[i]);
        calls := calls + [(entries[i].1, pair)];
        i := i + 1;
      }
    }

    /** `values()`: walks the entries with a step counter and yields the single-entry
        object `{[key]: value}` for each, in insertion order. */
    method Values() returns (result: seq<Js>)
      ensures |result| == |entries|
      ensures forall i :: 0 <= i < |entries| ==> result[i] == Obj([(entries[i].0, entries[i].1)])
    {
      var all := entries;
      var step := 0;
      result := [];
      while step < |all|
        invariant 0 <= step <= |all|
        invariant |result| == step
        invariant forall i :: 0 <= i < step ==> result[i] == Obj([(all[i].0, all[i].1)])
      {
        var (key, value) := all[step];
        result := result + [Obj([(key, value)])];
        step := step + 1;
      }
    }

    method Size() returns (n: nat)
      ensures n == |entries|
    {
      n := |entries|;
    }
  }

  /** `JSON.parse(key)` on a stored key, which serialises the ghost pair `q`. */
  method ParseKey(k: string, ghost q: Pair) returns (r: Pair)
    requires k == KeyOf(q)
    ensures r == q
  {
    ParseStringifyPair(q.0, q.1);
    r := ParsePair(k).value;
  }

  // ---------------------------------------------------------------------------
  // Properties

  /** Lookups are exact: two pairs are one key only when they are equal, so
      `['A', 'b']` and `['a', 'b']` are different keys. */
  lemma KeysExact(p: Pair, q: Pair)
    ensures KeyOf(p) == KeyOf(q) <==> p == q
  {
    StringifyPairInjective(p.0, p.1, q.0, q.1);
  }

  lemma CaseMatters()
    ensures KeyOf(("A", "b")) != KeyOf(("a", "b"))
  {
    KeysExact(("A", "b"), ("a", "b"));
  }

  /** After `set(p, v)`, `get(p)` is `v` and every other pair reads as before. */
  lemma GetAfterSet(e: OrderedMap.Entries<string, Js>, p: Pair, v: Js, q: Pair)
    ensures OrderedMap.Get(OrderedMap.Set(e, KeyOf(p), v), KeyOf(q)) ==
              if p == q then Some(v) else OrderedMap.Get(e, KeyOf(q))
  {
    KeysExact(p, q);
    OrderedMap.GetAfterSet(e, KeyOf(p), v, KeyOf(q));
  }

  /** Overwriting a stored pair keeps the size; a new pair adds one. */
  lemma SetSize(e: OrderedMap.Entries<string, Js>, p: Pair, v: Js)
    ensures |OrderedMap.Set(e, KeyOf(p), v)| ==
              if OrderedMap.Has(e, KeyOf(p)) then |e| else |e| + 1
  {
    OrderedMap.SetKeys(e, KeyOf(p), v);
  }

  /** After `delete(p)`, `p` is absent, other pairs read as before, and the size drops by
      one exactly when `p` was present. */
  lemma GetAfterDelete(e: OrderedMap.Entries<string, Js>, p: Pair, q: Pair)
    requires OrderedMap.KeysUnique(e)
    ensures OrderedMap.Get(OrderedMap.Delete(e, KeyOf(p)), KeyOf(q)) ==
              if p == q then None else OrderedMap.Get(e, KeyOf(q))
    ensures |OrderedMap.Delete(e, KeyOf(p))| == if OrderedMap.Has(e, KeyOf(p)) then |e| - 1 else |e|
  {
    KeysExact(p, q);
    OrderedMap.GetAfterDelete(e, KeyOf(p), KeyOf(q));
    OrderedMap.DeleteKeys(e, KeyOf(p));
  }

  /** The pair `forEach` reports for the entry of `p` is `p` itself. */
  lemma ReportedPairIsSetPair(p: Pair, reported: Pair)
    requires KeyOf(reported) == KeyOf(p)
    ensures reported == p
  {
    KeysExact(reported, p);
  }
}
