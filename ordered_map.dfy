/** The contents of a JavaScript `Map` (and, with unit values, a `Set`): its entries in
    insertion order. Setting an existing key replaces the value where it stands; setting a
    new key appends; deleting removes the entry. Keys are compared with `==`, strings by
    value, as `SameValueZero` does. */
module OrderedMap {
  import opened Wrappers

  type Entries<K, V> = seq<(K, V)>

  predicate KeysUnique<K(==), V>(e: Entries<K, V>) {
    forall i, j :: 0 <= i < j < |e| ==> e[i].0 != e[j].0
  }

  function Keys<K, V>(e: Entries<K, V>): (r: seq<K>)
    ensures |r| == |e| && forall i :: 0 <= i < |e| ==> r[i] == e[i].0
  {
    seq(|e|, i requires 0 <= i < |e| => e[i].0)
  }

  function Values<K, V>(e: Entries<K, V>): (r: seq<V>)
    ensures |r| == |e| && forall i :: 0 <= i < |e| ==> r[i] == e[i].1
  {
    seq(|e|, i requires 0 <= i < |e| => e[i].1)
  }

  /** Where the entry for `k` stands, or -1. */
  function IndexOfKey<K(==), V>(e: Entries<K, V>, k: K): (r: int)
    ensures -1 <= r < |e|
    ensures r >= 0 ==> e[r].0 == k && forall j :: 0 <= j < r ==> e[j].0 != k
    ensures r == -1 <==> forall j :: 0 <= j < |e| ==> e[j].0 != k
  {
    if e == [] then -1
    else if e[0].0 == k then 0
    else var i := IndexOfKey(e[1..], k); if i == -1 then -1 else i + 1
  }

  /** `map.has(k)`. */
  predicate Has<K(==), V>(e: Entries<K, V>, k: K) {
    IndexOfKey(e, k) >= 0
  }

  /** `map.get(k)`, with None for `undefined`. */
  function Get<K(==), V>(e: Entries<K, V>, k: K): (r: Option<V>)
    ensures r.Some? <==> Has(e, k)
  {
    var i := IndexOfKey(e, k);
    if i >= 0 then Some(e[i].1) else None
  }

  /** `map.set(k, v)`. */
  function Set<K(==), V>(e: Entries<K, V>, k: K, v: V): Entries<K, V> {
    var i := IndexOfKey(e, k);
    if i >= 0 then e[i := (k, v)] else e + [(k, v)]
  }

  /** `map.delete(k)`. */
  function Delete<K(==), V>(e: Entries<K, V>, k: K): Entries<K, V> {
    var i := IndexOfKey(e, k);
    if i >= 0 then e[..i] + e[i + 1..] else e
  }

  /** The contract of `IndexOfKey` pins its result down. */
  lemma IndexOfKeyIs<K, V>(e: Entries<K, V>, k: K, r: int)
    requires (r == -1 && forall j :: 0 <= j < |e| ==> e[j].0 != k)
          || (0 <= r < |e| && e[r].0 == k && forall j :: 0 <= j < r ==> e[j].0 != k)
    ensures IndexOfKey(e, k) == r
  {
  }

  lemma HasIffInKeys<K, V>(e: Entries<K, V>, k: K)
    ensures Has(e, k) <==> k in Keys(e)
  {
    if k in Keys(e) {
      var j :| 0 <= j < |Keys(e)| && Keys(e)[j] == k;
      assert e[j].0 == k;
    }
  }

  /** After `set(k, v)`, `get(k)` is `v`, and every other key reads as before. */
  lemma GetAfterSet<K, V>(e: Entries<K, V>, k: K, v: V, k2: K)
    ensures Get(Set(e, k, v), k2) == if k2 == k then Some(v) else Get(e, k2)
  {
    var i := IndexOfKey(e, k);
    var e' := Set(e, k, v);
    if k2 != k {
      assert forall j :: 0 <= j < |e| ==> e'[j].0 == e[j].0;
      IndexOfKeyIs(e', k2, IndexOfKey(e, k2));
    } else if i < 0 {
      assert forall j :: 0 <= j < |e| ==> e'[j] == e[j];
      IndexOfKeyIs(e', k2, |e|);
    } else {
      IndexOfKeyIs(e', k2, i);
    }
  }

  /** `set` on a present key keeps the size; on an absent key it grows it by one.
      The key order is kept, with a new key last. */
  lemma SetKeys<K, V>(e: Entries<K, V>, k: K, v: V)
    ensures Keys(Set(e, k, v)) == if Has(e, k) then Keys(e) else Keys(e) + [k]
    ensures |Set(e, k, v)| == if Has(e, k) then |e| else |e| + 1
  {
  }

  lemma SetKeepsUnique<K, V>(e: Entries<K, V>, k: K, v: V)
    requires KeysUnique(e)
    ensures KeysUnique(Set(e, k, v))
  {
  }

  /** After `delete(k)`, `get(k)` is undefined, and every other key reads as before. */
  lemma GetAfterDelete<K, V>(e: Entries<K, V>, k: K, k2: K)
    requires KeysUnique(e)
    ensures Get(Delete(e, k), k2) == if k2 == k then None else Get(e, k2)
  {
    var i := IndexOfKey(e, k);
    var e' := Delete(e, k);
    if i >= 0 {
      RemoveAt(e, i);
      if k2 == k {
        assert forall j :: 0 <= j < |e'| ==> e'[j].0 != k;
      } else {
        var i2 := IndexOfKey(e, k2);
        if i2 == -1 {
          IndexOfKeyIs(e', k2, -1);
        } else if i2 < i {
          IndexOfKeyIs(e', k2, i2);
        } else {
          IndexOfKeyIs(e', k2, i2 - 1);
        }
      }
    }
  }

  /** `delete` shrinks the size by one exactly when the key was present, and keeps the order
      of the other keys. */
  lemma DeleteKeys<K, V>(e: Entries<K, V>, k: K)
    ensures |Delete(e, k)| == if Has(e, k) then |e| - 1 else |e|
    ensures Has(e, k) ==> Keys(Delete(e, k)) == Keys(e)[..IndexOfKey(e, k)] + Keys(e)[IndexOfKey(e, k) + 1..]
    ensures !Has(e, k) ==> Delete(e, k) == e
  {
    var i := IndexOfKey(e, k);
    if i >= 0 {
      DeleteKeysAt(e, i);
    }
  }

  lemma DeleteKeysAt<K, V>(e: Entries<K, V>, i: int)
    requires 0 <= i < |e|
    ensures Keys(e[..i] + e[i + 1..]) == Keys(e)[..i] + Keys(e)[i + 1..]
  {
    var e' := e[..i] + e[i + 1..];
    var ks := Keys(e);
    var ks' := ks[..i] + ks[i + 1..];
    assert |Keys(e')| == |ks'|;
    forall j | 0 <= j < |e'| ensures Keys(e')[j] == ks'[j] {
      if j < i {
        assert e'[j] == e[j];
        assert ks'[j] == ks[j];
      } else {
        assert e'[j] == e[j + 1];
        assert ks'[j] == ks[j + 1];
      }
    }
  }

  /** The entries without the one at `i`: those before it, then those after it moved down. */
  lemma RemoveAt<K, V>(e: Entries<K, V>, i: int)
    requires 0 <= i < |e|
    ensures |e[..i] + e[i + 1..]| == |e| - 1
    ensures forall j :: 0 <= j < |e| - 1 ==> (e[..i] + e[i + 1..])[j] == if j < i then e[j] else e[j + 1]
  {
    var a, b := e[..i], e[i + 1..];
    forall j | 0 <= j < |e| - 1 ensures (a + b)[j] == if j < i then e[j] else e[j + 1] {
      if j < i {
        assert (a + b)[j] == a[j];
      } else {
        assert (a + b)[j] == b[j - i];
      }
    }
  }

  /** The entries after `delete(k)` of a present key: those before it, then those after it
      moved down by one. */
  lemma DeleteShifts<K, V>(e: Entries<K, V>, k: K)
    requires Has(e, k)
    ensures |Delete(e, k)| == |e| - 1
    ensures forall j :: 0 <= j < |Delete(e, k)| ==>
              Delete(e, k)[j] == if j < IndexOfKey(e, k) then e[j] else e[j + 1]
  {
    var i := IndexOfKey(e, k);
    assert Delete(e, k) == e[..i] + e[i + 1..];
    RemoveAt(e, i);
  }

  lemma DeleteKeepsUnique<K, V>(e: Entries<K, V>, k: K)
    requires KeysUnique(e)
    ensures KeysUnique(Delete(e, k))
  {
    if Has(e, k) {
      var i := IndexOfKey(e, k);
      var e' := Delete(e, k);
      DeleteShifts(e, k);
      forall a, b | 0 <= a < b < |e'| ensures e'[a].0 != e'[b].0 {
        var a' := if a < i then a else a + 1;
        var b' := if b < i then b else b + 1;
        assert e'[a] == e[a'] && e'[b] == e[b'] && a' < b';
      }
    }
  }

  /** Entry `i` is keyed by `f(ps[i])`: the keys are derived from a parallel list. */
  ghost predicate Aligned<K, V, P>(e: Entries<K, V>, ps: seq<P>, f: P -> K) {
    |ps| == |e| && forall i :: 0 <= i < |e| ==> e[i].0 == f(ps[i])
  }

  lemma SetKeepsAligned<K, V, P>(e: Entries<K, V>, ps: seq<P>, f: P -> K, p: P, v: V)
    requires Aligned(e, ps, f)
    ensures Aligned(Set(e, f(p), v), if Has(e, f(p)) then ps else ps + [p], f)
  {
  }

  lemma DeleteKeepsAligned<K, V, P>(e: Entries<K, V>, ps: seq<P>, f: P -> K, k: K)
    requires Aligned(e, ps, f)
    ensures Has(e, k) ==> Aligned(Delete(e, k), ps[..IndexOfKey(e, k)] + ps[IndexOfKey(e, k) + 1..], f)
    ensures !Has(e, k) ==> Delete(e, k) == e
  {
    if Has(e, k) {
      DeleteShifts(e, k);
    }
  }

  /** Inserting the pairs one after another, as the `Map` constructor does. */
  function SetAll<K(==), V>(e: Entries<K, V>, items: seq<(K, V)>): Entries<K, V>
    decreases |items|
  {
    if items == [] then e else SetAll(Set(e, items[0].0, items[0].1), items[1..])
  }

  lemma {:induction false} SetAllKeepsUnique<K, V>(e: Entries<K, V>, items: seq<(K, V)>)
    requires KeysUnique(e)
    ensures KeysUnique(SetAll(e, items))
    decreases |items|
  {
    if items != [] {
      SetKeepsUnique(e, items[0].0, items[0].1);
      SetAllKeepsUnique(Set(e, items[0].0, items[0].1), items[1..]);
    }
  }

  /** The keys already present keep their places: the old key list is a prefix of the new one. */
  lemma {:induction false} SetAllKeysPrefix<K, V>(e: Entries<K, V>, items: seq<(K, V)>)
    ensures Keys(e) <= Keys(SetAll(e, items))
    decreases |items|
  {
    if items != [] {
      var e' := Set(e, items[0].0, items[0].1);
      SetKeys(e, items[0].0, items[0].1);
      SetAllKeysPrefix(e', items[1..]);
    }
  }

  /** Every key that was set is present afterwards. */
  lemma {:induction false} SetAllHas<K, V>(e: Entries<K, V>, items: seq<(K, V)>, i: int)
    requires 0 <= i < |items|
    ensures Has(SetAll(e, items), items[i].0)
    decreases |items|
  {
    var e' := Set(e, items[0].0, items[0].1);
    if i == 0 {
      SetKeys(e, items[0].0, items[0].1);
      HasIffInKeys(e', items[0].0);
      SetAllKeysPrefix(e', items[1..]);
      var ks := Keys(SetAll(e', items[1..]));
      var j :| 0 <= j < |Keys(e')| && Keys(e')[j] == items[0].0;
      assert ks[j] == items[0].0;
      HasIffInKeys(SetAll(e', items[1..]), items[0].0);
    } else {
      SetAllHas(e', items[1..], i - 1);
    }
  }

  lemma SetAllStep<K, V>(e: Entries<K, V>, items: seq<(K, V)>, k: K, v: V)
    ensures SetAll(e, items + [(k, v)]) == Set(SetAll(e, items), k, v)
    decreases |items|
  {
    if items != [] {
      assert (items + [(k, v)])[1..] == items[1..] + [(k, v)];
      SetAllStep(Set(e, items[0].0, items[0].1), items[1..], k, v);
    }
  }
}
