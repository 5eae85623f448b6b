/** src/utils/case-and-space-insensitive-map.ts: a `Map` whose string keys are lowercased
    and stripped of whitespace before every `set`, `get`, `has` and `delete`; keys of any
    other type are used as they are. The object is a real `Map` built with
    `Reflect.construct`, so the entries given to the constructor go through the overridden
    `set`. Its prototype chain does not reach `Map.prototype`: only the methods the class
    declares exist on it, and `size` and `clear` do not. */
module InsensitiveMap {
  import opened Wrappers
  import opened JsString
  import OrderedMap

  /** A key as `typeof key === 'string'` sees it. */
  datatype Key<T> = StrKey(s: string) | Other(v: T)

  function NormalizeKey<T>(k: Key<T>): (r: Key<T>)
    ensures r.StrKey? <==> k.StrKey?
    ensures k.Other? ==> r == k
  {
    match k
    case StrKey(s) => StrKey(Normalize(s))
    case Other(_) => k
  }

  /** Two keys the map treats as the same key. */
  predicate Equivalent<T(==)>(a: Key<T>, b: Key<T>) {
    NormalizeKey(a) == NormalizeKey(b)
  }

  type Entries<T, U> = seq<(Key<T>, U)>

  /** What every reachable map satisfies: each stored key is normalised, and no key is
      stored twice. */
  predicate Wellformed<T(==), U>(e: Entries<T, U>) {
    OrderedMap.KeysUnique(e) &&
    forall i :: 0 <= i < |e| ==> NormalizeKey(e[i].0) == e[i].0
  }

  function MapSet<T(==), U>(e: Entries<T, U>, k: Key<T>, v: U): Entries<T, U> {
    OrderedMap.Set(e, NormalizeKey(k), v)
  }

  function MapGet<T(==), U>(e: Entries<T, U>, k: Key<T>): Option<U> {
    OrderedMap.Get(e, NormalizeKey(k))
  }

  predicate MapHas<T(==), U>(e: Entries<T, U>, k: Key<T>) {
    OrderedMap.Has(e, NormalizeKey(k))
  }

  function MapDelete<T(==), U>(e: Entries<T, U>, k: Key<T>): Entries<T, U> {
    OrderedMap.Delete(e, NormalizeKey(k))
  }

  /** The map the constructor builds: each pair inserted in turn with the overridden `set`. */
  function FromPairs<T(==), U>(items: seq<(Key<T>, U)>): Entries<T, U>
    decreases |items|
  {
    if items == [] then [] else MapSet(FromPairs(items[..|items| - 1]), items[|items| - 1].0, items[|items| - 1].1)
  }

  class CaseAndSpaceInsensitiveMap<T(==), U> {
    var entries: Entries<T, U>

    ghost predicate Valid()
      reads this
    {
      Wellformed(entries)
    }

    /** `new CaseAndSpaceInsensitiveMap(items)`; no argument is the empty list. */
    constructor (items: seq<(Key<T>, U)>)
      ensures entries == FromPairs(items)
      ensures Valid()
    {
      var acc: Entries<T, U> := [];
      var i := 0;
      while i < |items|
        invariant 0 <= i <= |items|
        invariant acc == FromPairs(items[..i])
        invariant Wellformed(acc)
      {
        assert items[..i + 1][..i] == items[..i];
        SetKeepsWellformed(acc, items[i].0, items[i].1);
        acc := MapSet(acc, items[i].0, items[i].1);
        i := i + 1;
      }
      assert items[..i] == items;
      entries := acc;
    }

    method Set(k: Key<T>, v: U)
      requires Valid()
      modifies this
      ensures entries == MapSet(old(entries), k, v)
      ensures Valid()
    {
      SetKeepsWellformed(entries, k, v);
      entries := MapSet(entries, k, v);
    }

    method Get(k: Key<T>) returns (r: Option<U>)
      ensures r == MapGet(entries, k)
    {
      r := OrderedMap.Get(entries, NormalizeKey(k));
    }

    method Has(k: Key<T>) returns (b: bool)
      ensures b == MapHas(entries, k)
    {
      b := OrderedMap.Has(entries, NormalizeKey(k));
    }

    /** `delete(k)`: whether an entry was there, and the map without it. */
    method Delete(k: Key<T>) returns (b: bool)
      requires Valid()
      modifies this
      ensures b == MapHas(old(entries), k)
      ensures entries == MapDelete(old(entries), k)
      ensures Valid()
    {
      b := OrderedMap.Has(entries, NormalizeKey(k));
      DeleteKeepsWellformed(entries, k);
      entries := MapDelete(entries, k);
    }

    /** `forEach(callback)`: the (value, key) arguments of the calls, in insertion order. */
    method ForEach() returns (calls: seq<(U, Key<T>)>)
      ensures |calls| == |entries|
      ensures forall i :: 0 <= i < |entries| ==> calls[i] == (entries[i].1, entries[i].0)
    {
      calls := [];
      var i := 0;
      while i < |entries|
        invariant 0 <= i <= |entries|
        invariant |calls| == i
        invariant forall j :: 0 <= j < i ==> calls[j] == (entries[j].1, entries[j].0)
      {
        calls := calls + [(entries[i].1, entries[i].0)];
        i := i + 1;
      }
    }

    method Entries() returns (r: seq<(Key<T>, U)>)
      ensures r == entries
    {
      r := entries;
    }

    method Keys() returns (r: seq<Key<T>>)
      ensures r == OrderedMap.Keys(entries)
    {
      r := OrderedMap.Keys(entries);
    }

    method Values() returns (r: seq<U>)
      ensures r == OrderedMap.Values(entries)
    {
      r := OrderedMap.Values(entries);
    }
  }

  // ---------------------------------------------------------------------------
  // Properties

  /** String keys are equivalent exactly when `caseAndSpaceInsensitiveEquals` says so. */
  lemma EquivalentIffNormalFormsEqual<T>(a: string, b: string)
    ensures Equivalent<T>(StrKey(a), StrKey(b)) <==> Normalize(a) == Normalize(b)
  {
  }

  /** A key of another type is equivalent only to itself. */
  lemma OtherKeysExact<T>(v: T, k: Key<T>)
    ensures Equivalent(Other(v), k) <==> k == Other(v)
  {
  }

  lemma SetKeepsWellformed<T, U>(e: Entries<T, U>, k: Key<T>, v: U)
    requires Wellformed(e)
    ensures Wellformed(MapSet(e, k, v))
  {
    OrderedMap.SetKeepsUnique(e, NormalizeKey(k), v);
    NormalizeKeyIdempotent(k);
  }

  lemma DeleteKeepsWellformed<T, U>(e: Entries<T, U>, k: Key<T>)
    requires Wellformed(e)
    ensures Wellformed(MapDelete(e, k))
  {
    OrderedMap.DeleteKeepsUnique(e, NormalizeKey(k));
    var i := OrderedMap.IndexOfKey(e, NormalizeKey(k));
    if i >= 0 {
      var e' := MapDelete(e, k);
      assert forall j :: 0 <= j < |e'| ==> e'[j] == (if j < i then e[j] else e[j + 1]);
    }
  }

  lemma NormalizeKeyIdempotent<T>(k: Key<T>)
    ensures NormalizeKey(NormalizeKey(k)) == NormalizeKey(k)
  {
    if k.StrKey? {
      NormalizeIdempotent(k.s);
    }
  }

  /** After `set(k1, v)`, `get(k2)` is `v` for every key equivalent to `k1` and reads as
      before for every other key. */
  lemma GetAfterSet<T, U>(e: Entries<T, U>, k1: Key<T>, v: U, k2: Key<T>)
    ensures MapGet(MapSet(e, k1, v), k2) == if Equivalent(k1, k2) then Some(v) else MapGet(e, k2)
  {
    OrderedMap.GetAfterSet(e, NormalizeKey(k1), v, NormalizeKey(k2));
  }

  /** Setting a key equivalent to a stored one overwrites its value in place: the keys,
      their order and the size stay as they were. A new key is appended in normal form. */
  lemma SetSize<T, U>(e: Entries<T, U>, k: Key<T>, v: U)
    ensures MapHas(e, k) ==> OrderedMap.Keys(MapSet(e, k, v)) == OrderedMap.Keys(e)
    ensures !MapHas(e, k) ==> OrderedMap.Keys(MapSet(e, k, v)) == OrderedMap.Keys(e) + [NormalizeKey(k)]
    ensures |MapSet(e, k, v)| == if MapHas(e, k) then |e| else |e| + 1
  {
    OrderedMap.SetKeys(e, NormalizeKey(k), v);
  }

  /** `has` agrees with `get`. */
  lemma HasIffGet<T, U>(e: Entries<T, U>, k: Key<T>)
    ensures MapHas(e, k) <==> MapGet(e, k).Some?
  {
  }

  /** After `delete(k1)`, no key equivalent to `k1` is present, and every other key reads
      as before. */
  lemma GetAfterDelete<T, U>(e: Entries<T, U>, k1: Key<T>, k2: Key<T>)
    requires Wellformed(e)
    ensures MapGet(MapDelete(e, k1), k2) == if Equivalent(k1, k2) then None else MapGet(e, k2)
    ensures Equivalent(k1, k2) ==> !MapHas(MapDelete(e, k1), k2)
  {
    OrderedMap.GetAfterDelete(e, NormalizeKey(k1), NormalizeKey(k2));
  }

  /** `delete` shrinks the map by one exactly when an equivalent key was present. */
  lemma DeleteSize<T, U>(e: Entries<T, U>, k: Key<T>)
    ensures |MapDelete(e, k)| == if MapHas(e, k) then |e| - 1 else |e|
  {
    OrderedMap.DeleteKeys(e, NormalizeKey(k));
  }

  /** `keys()` yields normal forms: every string key has no whitespace and no upper-case
      letter, whatever was passed to `set`. */
  lemma KeysAreNormalized<T, U>(e: Entries<T, U>)
    requires Wellformed(e)
    ensures forall i :: 0 <= i < |e| && e[i].0.StrKey? ==> IsNormalized(e[i].0.s)
  {
    forall i | 0 <= i < |e| && e[i].0.StrKey?
      ensures IsNormalized(e[i].0.s)
    {
      NormalizeIsNormalized(e[i].0.s);
    }
  }

  /** The constructor's map holds every key given to it. */
  lemma {:induction false} FromPairsHas<T, U>(items: seq<(Key<T>, U)>, i: int)
    requires 0 <= i < |items|
    ensures MapHas(FromPairs(items), items[i].0)
    decreases |items|
  {
    var n := |items| - 1;
    var prefix := FromPairs(items[..n]);
    GetAfterSet(prefix, items[n].0, items[n].1, items[i].0);
    if i < n && !Equivalent(items[n].0, items[i].0) {
      FromPairsHas(items[..n], i);
      assert items[..n][i] == items[i];
    }
  }
}
