/** src/utils/case-and-space-insensitive-set.ts: a `Set` whose string members are
    lowercased and stripped of whitespace before `add`, `has` and `delete`. Like the map it
    is a real `Set` built with `Reflect.construct`, so the constructor's values go through
    the overridden `add`; `size` counts the members through `keys()`. */
module InsensitiveSet {
  import opened JsString
  import opened InsensitiveMap

  type Members<T> = seq<Key<T>>

  predicate Distinct<T(==)>(m: seq<T>) {
    forall i, j :: 0 <= i < j < |m| ==> m[i] != m[j]
  }

  /** Every reachable set: normalised members, none twice. */
  predicate WellformedSet<T(==)>(m: Members<T>) {
    Distinct(m) && forall i :: 0 <= i < |m| ==> NormalizeKey(m[i]) == m[i]
  }

  /** `has(x)`. */
  predicate SetHas<T(==)>(m: Members<T>, x: Key<T>) {
    NormalizeKey(x) in m
  }

  /** `add(x)`: a member already there keeps its place; a new one goes last. */
  function SetAdd<T(==)>(m: Members<T>, x: Key<T>): (r: Members<T>)
    ensures NormalizeKey(x) in r
    ensures |m| <= |r| <= |m| + 1
    ensures forall y :: y in m ==> y in r
  {
    if NormalizeKey(x) in m then m else m + [NormalizeKey(x)]
  }

  /** `delete(x)`: the normal form of `x` removed. */
  function SetDelete<T(==)>(m: Members<T>, x: Key<T>): (r: Members<T>)
    ensures |r| <= |m|
    ensures forall y :: y in r ==> y in m
  {
    if m == [] then []
    else if m[0] == NormalizeKey(x) then m[1..]
    else [m[0]] + SetDelete(m[1..], x)
  }

  /** The set the constructor builds from a list. */
  function FromList<T(==)>(xs: seq<Key<T>>): Members<T>
    decreases |xs|
  {
    if xs == [] then [] else SetAdd(FromList(xs[..|xs| - 1]), xs[|xs| - 1])
  }

  class CaseAndSpaceInsensitiveSet<T(==)> {
    var members: Members<T>

    ghost predicate Valid()
      reads this
    {
      WellformedSet(members)
    }

    /** `new CaseAndSpaceInsensitiveSet(values)`; no argument is the empty list. */
    constructor (values: seq<Key<T>>)
      ensures members == FromList(values)
      ensures Valid()
    {
      var acc: Members<T> := [];
      var i := 0;
      while i < |values|
        invariant 0 <= i <= |values|
        invariant acc == FromList(values[..i])
        invariant WellformedSet(acc)
      {
        assert values[..i + 1][..i] == values[..i];
        AddKeepsWellformedSet(acc, values[i]);
        acc := SetAdd(acc, values[i]);
        i := i + 1;
      }
      assert values[..i] == values;
      members := acc;
    }

    method Add(x: Key<T>)
      requires Valid()
      modifies this
      ensures members == SetAdd(old(members), x)
      ensures Valid()
    {
      AddKeepsWellformedSet(members, x);
      members := SetAdd(members, x);
    }

    method Clear()
      modifies this
      ensures members == []
      ensures Valid()
    {
      members := [];
    }

    /** `delete(x)`: whether the member was there, and the set without it. */
    method Delete(x: Key<T>) returns (b: bool)
      requires Valid()
      modifies this
      ensures b == SetHas(old(members), x)
      ensures members == SetDelete(old(members), x)
      ensures Valid()
    {
      b := NormalizeKey(x) in members;
      DeleteKeepsWellformedSet(members, x);
      members := SetDelete(members, x);
    }

    method Has(x: Key<T>) returns (b: bool)
      ensures b == SetHas(members, x)
    {
      b := NormalizeKey(x) in members;
    }

    /** `forEach(callback)`: each member is passed as both value and key, in order. */
    method ForEach() returns (calls: seq<(Key<T>, Key<T>)>)
      ensures |calls| == |members|
      ensures forall i :: 0 <= i < |members| ==> calls[i] == (members[i], members[i])
    {
      calls := [];
      var i := 0;
      while i < |members|
        invariant 0 <= i <= |members|
        invariant |calls| == i
        invariant forall j :: 0 <= j < i ==> calls[j] == (members[j], members[j])
      {
        calls := calls + [(members[i], members[i])];
        i := i + 1;
      }
    }

    method Keys() returns (r: seq<Key<T>>)
      ensures r == members
    {
      r := members;
    }

    method Values() returns (r: seq<Key<T>>)
      ensures r == members
    {
      r := members;
    }

    /** `size`: the length of `Array.from(this.keys())`. */
    method Size() returns (n: nat)
      requires Valid()
      ensures n == |members|
      ensures n == |set y | y in members|
    {
      DistinctCard(members);
      n := |members|;
    }
  }

  // ---------------------------------------------------------------------------
  // Properties

  lemma AddKeepsWellformedSet<T>(m: Members<T>, x: Key<T>)
    requires WellformedSet(m)
    ensures WellformedSet(SetAdd(m, x))
  {
    NormalizeKeyIdempotent(x);
  }

  lemma {:induction false} DeleteKeepsWellformedSet<T>(m: Members<T>, x: Key<T>)
    requires WellformedSet(m)
    ensures WellformedSet(SetDelete(m, x))
  {
    if m != [] && m[0] != NormalizeKey(x) {
      DeleteKeepsWellformedSet(m[1..], x);
      var r := SetDelete(m[1..], x);
      assert m[0] !in m[1..];
      assert m[0] !in r;
      assert SetDelete(m, x) == [m[0]] + r;
    }
  }

  /** After `add(y)`, `has(x)` holds for every `x` equivalent to `y`, and membership of the
      other values is as before. */
  lemma HasAfterAdd<T>(m: Members<T>, y: Key<T>, x: Key<T>)
    ensures SetHas(SetAdd(m, y), x) <==> Equivalent(x, y) || SetHas(m, x)
  {
  }

  /** Adding a value equivalent to a member changes nothing, so the size stays; adding a
      new one grows the size by one. */
  lemma AddSize<T>(m: Members<T>, y: Key<T>)
    ensures SetHas(m, y) ==> SetAdd(m, y) == m
    ensures |SetAdd(m, y)| == if SetHas(m, y) then |m| else |m| + 1
  {
  }

  /** `delete(x)` removes the whole equivalence class of `x` and keeps every other member,
      in order; the size drops by one exactly when the class was present. */
  lemma {:induction false} DeleteRemovesClass<T>(m: Members<T>, x: Key<T>, z: Key<T>)
    requires WellformedSet(m)
    ensures SetHas(SetDelete(m, x), z) <==> SetHas(m, z) && !Equivalent(z, x)
    ensures |SetDelete(m, x)| == if SetHas(m, x) then |m| - 1 else |m|
  {
    if m != [] {
      DeleteRemovesClass(m[1..], x, z);
      if m[0] == NormalizeKey(x) {
        assert m[0] !in m[1..];
      }
    }
  }

  /** A list without repetition has as many elements as its set. */
  lemma {:induction false} DistinctCard<T>(m: seq<T>)
    requires Distinct(m)
    ensures |set y | y in m| == |m|
  {
    if m != [] {
      var p := m[..|m| - 1];
      var last := m[|m| - 1];
      DistinctCard(p);
      assert m == p + [last];
      assert (set y | y in m) == (set y | y in p) + {last};
      assert last !in p;
    }
  }

  /** The members of a set built from a list are the normal forms of its values. */
  lemma {:induction false} FromListMembers<T>(xs: seq<Key<T>>)
    ensures (set y | y in FromList(xs)) == (set i | 0 <= i < |xs| :: NormalizeKey(xs[i]))
    ensures WellformedSet(FromList(xs))
    decreases |xs|
  {
    if xs != [] {
      var n := |xs| - 1;
      FromListMembers(xs[..n]);
      AddKeepsWellformedSet(FromList(xs[..n]), xs[n]);
      var before := set i | 0 <= i < n :: NormalizeKey(xs[..n][i]);
      assert before == set i | 0 <= i < n :: NormalizeKey(xs[i]) by {
        forall i | 0 <= i < n ensures xs[..n][i] == xs[i] { }
      }
      var all := set i | 0 <= i < |xs| :: NormalizeKey(xs[i]);
      assert all == (set i | 0 <= i < n :: NormalizeKey(xs[i])) + {NormalizeKey(xs[n])};
    } else {
      assert FromList(xs) == [];
    }
  }

  /** Every value of the list is in the set built from it: `has` holds for it and for
      every value equivalent to it. */
  lemma {:induction false} FromListHas<T>(xs: seq<Key<T>>, i: int, x: Key<T>)
    requires 0 <= i < |xs| && Equivalent(x, xs[i])
    ensures SetHas(FromList(xs), x)
    decreases |xs|
  {
    var n := |xs| - 1;
    HasAfterAdd(FromList(xs[..n]), xs[n], x);
    if i < n {
      FromListHas(xs[..n], i, x);
    }
  }

  /** `size` of a set built from a list is the number of distinct normal forms among its
      values: equivalent values count once. */
  lemma SizeIsDistinctNormalForms<T>(xs: seq<Key<T>>)
    ensures |FromList(xs)| == |set i | 0 <= i < |xs| :: NormalizeKey(xs[i])|
  {
    FromListMembers(xs);
    DistinctCard(FromList(xs));
  }

  /** Two values that are not equivalent make a set of two, both present; a third value
      equivalent to neither is absent. */
  lemma TwoValues<T>(a: Key<T>, b: Key<T>, c: Key<T>)
    requires !Equivalent(a, b) && !Equivalent(c, a) && !Equivalent(c, b)
    ensures |FromList([a, b])| == 2
    ensures SetHas(FromList([a, b]), a) && SetHas(FromList([a, b]), b)
    ensures !SetHas(FromList([a, b]), c)
  {
    assert [a, b][..1] == [a];
    assert [a][..0] == [];
    assert FromList([a]) == [NormalizeKey(a)];
    assert FromList([a, b]) == [NormalizeKey(a), NormalizeKey(b)];
  }

  /** Adding `x` and then a value equivalent to it leaves a single member, which every
      equivalent value finds. */
  lemma AddEquivalentTwice<T>(x: Key<T>, y: Key<T>, z: Key<T>)
    requires Equivalent(x, y) && Equivalent(y, z)
    ensures SetAdd(SetAdd([], x), y) == [NormalizeKey(x)]
    ensures SetHas(SetAdd(SetAdd([], x), y), z)
  {
  }
}
