/** src/utils/tuple-map.ts: a store keyed by `[parent, component]` pairs, kept in a
    case- and space-insensitive map under the key `JSON.stringify(pair)`. The whole JSON
    text is normalised, after escaping: a TAB, LF, VT, FF or CR inside a name has become a
    backslash escape by then and survives, while every other whitespace character is
    dropped and every ASCII capital lowercased. */
module TupleMaps {
  import opened Wrappers
  import opened JsString
  import opened JsonText
  import opened InsensitiveMap
  import OrderedMap
  import opened JsValue

  type Pair = (string, string)

  /** The whitespace characters JSON escapes: TAB, LF, VT, FF and CR. */
  predicate IsControlWhitespace(c: char) {
    IsWhitespace(c) && (c as int) < 0x20
  }

  /** What normalising the serialised key does to one component: whitespace dropped
      unless JSON escaped it, ASCII capitals lowercased. */
  function ComponentKey(s: string): (r: string)
    ensures |r| <= |s|
  {
    if s == [] then []
    else if IsWhitespace(s[0]) && !IsControlWhitespace(s[0]) then ComponentKey(s[1..])
    else [LowerChar(s[0])] + ComponentKey(s[1..])
  }

  /** The inner map's key for a pair. */
  function SlotKey(p: Pair): string {
    Normalize(StringifyPair(p.0, p.1))
  }

  /** Two pairs the store treats as the same key. */
  predicate SameSlot(p: Pair, q: Pair) {
    SlotKey(p) == SlotKey(q)
  }

  function TupleKey(p: Pair): Key<()> {
    StrKey(StringifyPair(p.0, p.1))
  }

  /** A pair whose components are already component keys, as the store reports them. */
  predicate NormalPair(q: Pair) {
    ComponentKey(q.0) == q.0 && ComponentKey(q.1) == q.1
  }

  /** Entry `i` of the store is keyed by the serialisation of pair `i`, a pair of
      component keys. */
  ghost predicate SlotsMatch(e: Entries<(), Js>, slots: seq<Pair>) {
    OrderedMap.Aligned(e, slots, TupleKey) && forall i :: 0 <= i < |slots| ==> NormalPair(slots[i])
  }

  class TupleMap {
    const store: CaseAndSpaceInsensitiveMap<(), Js>
    /** The pairs the stored keys serialise, slot by slot. */
    ghost var slots: seq<Pair>

    ghost predicate Valid()
      reads this, store
    {
      store.Valid() && SlotsMatch(store.entries, slots)
    }

    constructor ()
      ensures fresh(store) && store.entries == []
      ensures Valid()
    {
      store := new CaseAndSpaceInsensitiveMap([]);
      slots := [];
    }

    method Get(key: Pair) returns (r: Option<Js>)
      ensures r == MapGet(store.entries, TupleKey(key))
    {
      r := store.Get(TupleKey(key));
    }

    method Set(key: Pair, value: Js)
      requires Valid()
      modifies this, store
      ensures store.entries == MapSet(old(store.entries), TupleKey(key), value)
      ensures Valid()
    {
      SetKeepsSlotsMatch(store.entries, slots, key, value);
      if !MapHas(store.entries, TupleKey(key)) {
        slots := slots + [(ComponentKey(key.0), ComponentKey(key.1))];
      }
      store.Set(TupleKey(key), value);
    }

    /** `clear()` calls `this._map.clear`, which the insensitive map does not have: a
        TypeError, and nothing changes. */
    method Clear() returns (o: Outcome)
      ensures o == Fail(TypeError)
      ensures store.entries == old(store.entries)
    {
      o := Fail(TypeError);
    }

    /** `clear()` as evidently intended: the store is empty. */
    method ClearIntended()
      requires Valid()
      modifies this, store
      ensures store.entries == []
      ensures Valid()
    {
      store.entries := [];
      slots := [];
    }

    method Delete(key: Pair) returns (b: bool)
      requires Valid()
      modifies this, store
      ensures b == MapHas(old(store.entries), TupleKey(key))
      ensures store.entries == MapDelete(old(store.entries), TupleKey(key))
      ensures Valid()
    {
      DeleteKeepsSlotsMatch(store.entries, slots, key);
      if MapHas(store.entries, TupleKey(key)) {
        ghost var i := OrderedMap.IndexOfKey(store.entries, NormalizeKey(TupleKey(key)));
        slots := slots[..i] + slots[i + 1..];
      }
      b := store.Delete(TupleKey(key));
    }

    method Has(key: Pair) returns (b: bool)
      ensures b == MapHas(store.entries, TupleKey(key))
    {
      b := store.Has(TupleKey(key));
    }

    /** `forEach(callback)`: for each slot in insertion order, the weight and the key as
        `JSON.parse` gives it back. That pair serialises to the stored key, and its
        components are in normal form. */
    method ForEach() returns (calls: seq<(Js, Pair)>)
      requires Valid()
      ensures |calls| == |store.entries|
      ensures forall i :: 0 <= i < |calls| ==>
                calls[i].0 == store.entries[i].1 && TupleKey(calls[i].1) == store.entries[i].0
      ensures forall i :: 0 <= i < |calls| ==> NormalPair(calls[i].1)
    {
      var items := store.ForEach();
      calls := ParseKeys(items, slots);
      ReportedSlots(store.entries, slots, calls);
    }

    /** `values()`: the stored weights in first-insertion order. */
    method Values() returns (r: seq<Js>)
      ensures r == OrderedMap.Values(store.entries)
    {
      r := store.Values();
    }

    /** `size()` reads `this._map.size`, which the insensitive map does not have:
        `undefined`, whatever is stored. */
    method Size() returns (r: Js)
      ensures r == Undefined
    {
      r := Undefined;
    }

    /** `size()` as evidently intended: the number of slots. */
    method SizeIntended() returns (n: nat)
      ensures n == |store.entries|
    {
      n := |store.entries|;
    }
  }

  // ---------------------------------------------------------------------------
  // The keys

  lemma {:induction false} ComponentKeyAppend(a: string, b: string)
    ensures ComponentKey(a + b) == ComponentKey(a) + ComponentKey(b)
  {
    if a != [] {
      assert (a + b)[0] == a[0];
      assert (a + b)[1..] == a[1..] + b;
      ComponentKeyAppend(a[1..], b);
    } else {
      assert a + b == b;
    }
  }

  lemma NormalizeEscapeChar(c: char)
    ensures Normalize(EscapeChar(c)) == Escape(ComponentKey([c]))
  {
    var e := EscapeChar(c);
    assert ComponentKey([c]) == (if IsWhitespace(c) && !IsControlWhitespace(c) then [] else [LowerChar(c)]);
    if c == '"' || c == '\\' || ShortEscape(c).Some? || (c as int) < 0x20 {
      assert IsNormalized(e);
      NormalizeOfNormalized(e);
      assert LowerChar(c) == c;
      assert Escape([c]) == EscapeChar(c) + Escape([]);
    } else if IsWhitespace(c) {
      assert Normalize([c]) == [];
    } else {
      assert Normalize([c]) == [LowerChar(c)];
      assert Escape([LowerChar(c)]) == EscapeChar(LowerChar(c)) + Escape([]);
    }
  }

  /** Normalising the escaped text is escaping the component key. */
  lemma {:induction false} NormalizeEscape(x: string)
    ensures Normalize(Escape(x)) == Escape(ComponentKey(x))
  {
    if x != [] {
      NormalizeEscape(x[1..]);
      NormalizeAppend(EscapeChar(x[0]), Escape(x[1..]));
      NormalizeEscapeChar(x[0]);
      assert x == [x[0]] + x[1..];
      ComponentKeyAppend([x[0]], x[1..]);
      EscapeAppend(ComponentKey([x[0]]), ComponentKey(x[1..]));
    }
  }

  /** The inner key of a pair is the serialisation of its two component keys. */
  lemma SlotKeyIs(p: Pair)
    ensures SlotKey(p) == StringifyPair(ComponentKey(p.0), ComponentKey(p.1))
  {
    StringifyPairPieces(p.0, p.1);
    StringifyPairPieces(ComponentKey(p.0), ComponentKey(p.1));
    NormalizeAroundPieces(Escape(p.0), Escape(p.1));
    NormalizeEscape(p.0);
    NormalizeEscape(p.1);
  }

  /** The brackets, quotes and comma of a serialised pair are left alone by `Normalize`. */
  lemma NormalizeAroundPieces(x: string, y: string)
    ensures Normalize("[\"" + x + "\",\"" + y + "\"]") ==
              "[\"" + Normalize(x) + "\",\"" + Normalize(y) + "\"]"
  {
    var open := "[\"";
    var mid := "\",\"";
    var close := "\"]";
    NormalizeAppend(open + x + mid + y, close);
    NormalizeAppend(open + x + mid, y);
    NormalizeAppend(open + x, mid);
    NormalizeAppend(open, x);
    PunctuationIsNormal();
  }

  /** The punctuation of a serialised pair is its own normal form. */
  lemma PunctuationIsNormal()
    ensures Normalize("[\"") == "[\"" && Normalize("\",\"") == "\",\"" && Normalize("\"]") == "\"]"
  {
    NormalizeOfNormalized("[\"");
    NormalizeOfNormalized("\",\"");
    NormalizeOfNormalized("\"]");
  }

  /** Two pairs share a slot exactly when their components have equal component keys,
      position by position. */
  lemma SameSlotIff(p: Pair, q: Pair)
    ensures SameSlot(p, q) <==>
              ComponentKey(p.0) == ComponentKey(q.0) && ComponentKey(p.1) == ComponentKey(q.1)
  {
    SlotKeyIs(p);
    SlotKeyIs(q);
    StringifyPairInjective(ComponentKey(p.0), ComponentKey(p.1), ComponentKey(q.0), ComponentKey(q.1));
  }

  /** Keys are positional: `[a, b]` and `[b, a]` share a slot only when `a` and `b` have
      the same component key. */
  lemma Positional(a: string, b: string)
    ensures SameSlot((a, b), (b, a)) <==> ComponentKey(a) == ComponentKey(b)
  {
    SameSlotIff((a, b), (b, a));
  }

  /** Without TAB, LF, VT, FF and CR the component key is the normal form. */
  lemma {:induction false} ComponentKeyIsNormalize(s: string)
    requires forall i :: 0 <= i < |s| ==> !IsControlWhitespace(s[i])
    ensures ComponentKey(s) == Normalize(s)
  {
    if s != [] {
      ComponentKeyIsNormalize(s[1..]);
      assert s == [s[0]] + s[1..];
      NormalizeAppend([s[0]], s[1..]);
      assert Normalize([s[0]]) == if IsWhitespace(s[0]) then [] else [LowerChar(s[0])];
    }
  }

  /** The component key is idempotent, so a parsed slot key has normal components. */
  lemma {:induction false} ComponentKeyIdempotent(s: string)
    ensures ComponentKey(ComponentKey(s)) == ComponentKey(s)
  {
    if s != [] {
      ComponentKeyIdempotent(s[1..]);
      if !(IsWhitespace(s[0]) && !IsControlWhitespace(s[0])) {
        var c := LowerChar(s[0]);
        assert ComponentKey([c] + ComponentKey(s[1..])) == [LowerChar(c)] + ComponentKey(ComponentKey(s[1..]));
      }
    }
  }

  /** `[p, c]` and `[p', c']` whose components compare equal under
      `caseAndSpaceInsensitiveEquals` share a slot, provided no name holds a TAB, LF, VT,
      FF or CR. */
  lemma EquivalentComponentsShareSlot(p: Pair, q: Pair)
    requires forall i :: 0 <= i < |p.0| ==> !IsControlWhitespace(p.0[i])
    requires forall i :: 0 <= i < |p.1| ==> !IsControlWhitespace(p.1[i])
    requires forall i :: 0 <= i < |q.0| ==> !IsControlWhitespace(q.0[i])
    requires forall i :: 0 <= i < |q.1| ==> !IsControlWhitespace(q.1[i])
    requires Normalize(p.0) == Normalize(q.0) && Normalize(p.1) == Normalize(q.1)
    ensures SameSlot(p, q)
  {
    ComponentKeyIsNormalize(p.0);
    ComponentKeyIsNormalize(p.1);
    ComponentKeyIsNormalize(q.0);
    ComponentKeyIsNormalize(q.1);
    SameSlotIff(p, q);
  }

  /** A TAB inside a name is kept: `["A\tB", "C"]` and `["AB", "C"]` have equal normal
      forms component by component, yet occupy two slots. */
  lemma TabKeepsSlotsApart(tabbed: string, plain: string, c: string)
    requires tabbed == "A\tB" && plain == "AB"
    ensures Normalize(tabbed) == Normalize(plain)
    ensures !SameSlot((tabbed, c), (plain, c))
  {
    assert ComponentKey(tabbed) == "a\tb";
    assert ComponentKey(plain) == "ab";
    assert ToLower(tabbed) == "a\tb";
    assert StripWhitespace("a\tb") == "ab";
    assert ToLower(plain) == "ab";
    assert StripWhitespace("ab") == "ab";
    SameSlotIff((tabbed, c), (plain, c));
  }

  // ---------------------------------------------------------------------------
  // The store

  lemma ReportedSlots(e: Entries<(), Js>, slots: seq<Pair>, calls: seq<(Js, Pair)>)
    requires |calls| == |e| == |slots|
    requires forall i :: 0 <= i < |slots| ==> e[i].0 == TupleKey(slots[i]) && NormalPair(slots[i])
    requires forall j :: 0 <= j < |calls| ==> calls[j] == (e[j].1, slots[j])
    ensures forall i :: 0 <= i < |calls| ==> calls[i].0 == e[i].1 && TupleKey(calls[i].1) == e[i].0
    ensures forall i :: 0 <= i < |calls| ==> NormalPair(calls[i].1)
  {
  }

  /** `set` keeps the slots matching: a taken slot keeps its pair, a new one is the pair
      of component keys, last. */
  lemma SetKeepsSlotsMatch(e: Entries<(), Js>, slots: seq<Pair>, p: Pair, v: Js)
    requires SlotsMatch(e, slots)
    ensures SlotsMatch(MapSet(e, TupleKey(p), v),
                       if MapHas(e, TupleKey(p)) then slots else slots + [(ComponentKey(p.0), ComponentKey(p.1))])
  {
    var q := (ComponentKey(p.0), ComponentKey(p.1));
    SlotKeyOfTuple(p);
    OrderedMap.SetKeepsAligned(e, slots, TupleKey, q, v);
  }

  /** `delete` keeps the slots matching once the deleted entry's pair is dropped too. */
  lemma DeleteKeepsSlotsMatch(e: Entries<(), Js>, slots: seq<Pair>, p: Pair)
    requires SlotsMatch(e, slots)
    ensures var k := NormalizeKey(TupleKey(p)); var i := OrderedMap.IndexOfKey(e, k);
            MapHas(e, TupleKey(p)) ==> SlotsMatch(MapDelete(e, TupleKey(p)), slots[..i] + slots[i + 1..])
    ensures !MapHas(e, TupleKey(p)) ==> MapDelete(e, TupleKey(p)) == e
  {
    var k := NormalizeKey(TupleKey(p));
    OrderedMap.DeleteKeepsAligned(e, slots, TupleKey, k);
    if OrderedMap.Has(e, k) {
      OrderedMap.RemoveAt(slots, OrderedMap.IndexOfKey(e, k));
    }
  }

  /** The loop of `forEach`: each stored key parsed back into the pair it serialises. */
  method ParseKeys(items: seq<(Js, Key<()>)>, ghost ss: seq<Pair>) returns (calls: seq<(Js, Pair)>)
    requires |items| == |ss| && forall j :: 0 <= j < |items| ==> items[j].1 == TupleKey(ss[j])
    ensures |calls| == |items| && forall j :: 0 <= j < |items| ==> calls[j] == (items[j].0, ss[j])
  {
    calls := [];
    var i := 0;
    while i < |items|
      invariant 0 <= i <= |items|
      invariant |calls| == i
      invariant forall j :: 0 <= j < i ==> calls[j] == (items[j].0, ss[j])
    {
      var pair := ParseKey(items[i].1, ss[i]);
      calls := calls + [(items[i].0, pair)];
      i := i + 1;
    }
  }

  /** `JSON.parse(key)` on a stored key, which serialises the ghost pair `q`. */
  method ParseKey(k: Key<()>, ghost q: Pair) returns (r: Pair)
    requires k == TupleKey(q)
    ensures r == q
  {
    ParseStringifyPair(q.0, q.1);
    r := ParsePair(k.s).value;
  }

  /** The normalised key of a pair is the key of its pair of component keys. */
  lemma SlotKeyOfTuple(p: Pair)
    ensures NormalizeKey(TupleKey(p)) == TupleKey((ComponentKey(p.0), ComponentKey(p.1)))
    ensures NormalPair((ComponentKey(p.0), ComponentKey(p.1)))
  {
    SlotKeyIs(p);
    ComponentKeyIdempotent(p.0);
    ComponentKeyIdempotent(p.1);
  }

  /** After `set(p, v)`, `get(q)` is `v` for every pair in the same slot as `p`, and reads
      as before for every other pair. */
  lemma GetAfterSet(e: Entries<(), Js>, p: Pair, v: Js, q: Pair)
    ensures MapGet(MapSet(e, TupleKey(p), v), TupleKey(q)) ==
              if SameSlot(p, q) then Some(v) else MapGet(e, TupleKey(q))
  {
    InsensitiveMap.GetAfterSet(e, TupleKey(p), v, TupleKey(q));
  }

  /** Setting a pair whose slot is taken overwrites the weight where it stands: the slots
      and their number are unchanged. */
  lemma OverwriteKeepsSlots(e: Entries<(), Js>, p: Pair, v: Js)
    requires MapHas(e, TupleKey(p))
    ensures OrderedMap.Keys(MapSet(e, TupleKey(p), v)) == OrderedMap.Keys(e)
    ensures |MapSet(e, TupleKey(p), v)| == |e|
    ensures MapGet(MapSet(e, TupleKey(p), v), TupleKey(p)) == Some(v)
  {
    SetSize(e, TupleKey(p), v);
    GetAfterSet(e, p, v, p);
  }

  /** After `delete(p)` no pair of the same slot is present; other pairs read as before. */
  lemma GetAfterDelete(e: Entries<(), Js>, p: Pair, q: Pair)
    requires Wellformed(e)
    ensures MapGet(MapDelete(e, TupleKey(p)), TupleKey(q)) ==
              if SameSlot(p, q) then None else MapGet(e, TupleKey(q))
    ensures SameSlot(p, q) ==> !MapHas(MapDelete(e, TupleKey(p)), TupleKey(q))
  {
    InsensitiveMap.GetAfterDelete(e, TupleKey(p), TupleKey(q));
  }

  /** The pair `forEach` reports for the slot of `p` is the pair of its component keys. */
  lemma ReportedPair(p: Pair, reported: Pair)
    requires TupleKey(reported) == NormalizeKey(TupleKey(p))
    ensures reported == (ComponentKey(p.0), ComponentKey(p.1))
  {
    SlotKeyOfTuple(p);
    SlotKeyIs(p);
    StringifyPairInjective(reported.0, reported.1, ComponentKey(p.0), ComponentKey(p.1));
  }

  /** The evidently intended `size()` after setting a pair: unchanged when its slot was
      taken, one more otherwise. */
  lemma SizeAfterSet(e: Entries<(), Js>, p: Pair, v: Js)
    ensures |MapSet(e, TupleKey(p), v)| == if MapHas(e, TupleKey(p)) then |e| else |e| + 1
  {
    SetSize(e, TupleKey(p), v);
  }
}
