/** What a TypeScript enum compiles to, and how the object model indexes one. A numeric
    enum `enum E { A = 1 }` is an object with `E['A'] = 1` and the reverse mapping
    `E['1'] = 'A'`; a string enum has only the forward entries. Indexing converts the key
    with `String(key)`, and a key that names no entry reads `undefined`. */
module TsEnums {
  import opened Wrappers
  import opened JsValue

  function DigitChar(d: nat): (r: char)
    requires d < 10
    ensures '0' <= r <= '9'
  {
    ('0' as int + d) as char
  }

  /** The decimal numeral of a natural number, as `String(n)` writes it. */
  function Decimal(n: nat): (r: string)
    ensures 1 <= |r|
    ensures '0' <= r[0] <= '9'
    decreases n
  {
    if n < 10 then [DigitChar(n)] else Decimal(n / 10) + [DigitChar(n % 10)]
  }

  /** Numbers from 10^21 on are written in exponent form. */
  const ExponentFrom: real := 1000000000000000000000.0

  /** The texts joined with `,`, or None as soon as one is None. */
  function JoinComma(ts: seq<Option<string>>): (r: Option<string>)
    ensures r.Some? <==> forall i :: 0 <= i < |ts| ==> ts[i].Some?
    decreases |ts|
  {
    if ts == [] then Some("")
    else if ts[0].None? then None
    else if |ts| == 1 then ts[0]
    else
      match JoinComma(ts[1..])
      case None => None
      case Some(rest) => Some(ts[0].value + "," + rest)
  }

  /** `String(v)`, the text a template literal, `toString()` and indexing by `v` all use.
      A plain object is `[object Object]`; an array is its items' texts joined with `,`,
      an `undefined` or `null` item counting as the empty text. A number's text is
      modelled for the integers written without an exponent; any other number gives None. */
  function Text(v: Js): (r: Option<string>)
    ensures v.Str? ==> r == Some(v.s)
    ensures v.Obj? ==> r == Some("[object Object]")
    ensures v.Num? && v.n == v.n.Floor as real && 0.0 <= v.n < ExponentFrom ==> r == Some(Decimal(v.n.Floor))
    decreases v
  {
    match v
    case Undefined => Some("undefined")
    case Null => Some("null")
    case Bool(b) => Some(if b then "true" else "false")
    case Num(n) =>
      if n != n.Floor as real || n <= -ExponentFrom || ExponentFrom <= n then None
      else if n.Floor >= 0 then Some(Decimal(n.Floor))
      else Some("-" + Decimal(-n.Floor))
    case Str(s) => Some(s)
    case Arr(items) =>
      JoinComma(seq(|items|, i requires 0 <= i < |items| =>
                      if items[i].Undefined? || items[i].Null? then Some("") else Text(items[i])))
    case Obj(_) => Some("[object Object]")
  }

  /** An array of one item has that item's text, as `[x].toString()` is `String(x)`. */
  lemma SingletonText(v: Js)
    requires !v.Undefined? && !v.Null?
    ensures Text(Arr([v])) == Text(v)
  {
    var ts := seq(1, i requires 0 <= i < 1 => if [v][i].Undefined? || [v][i].Null? then Some("") else Text([v][i]));
    assert ts == [Text(v)];
  }

  /** The members of a numeric enum, by name and code, in declaration order. */
  type NumericMembers = seq<(string, nat)>

  function CodeOfName(ms: NumericMembers, key: string): (r: Option<nat>)
    ensures r.Some? ==> exists i :: 0 <= i < |ms| && ms[i] == (key, r.value)
  {
    if ms == [] then None
    else if ms[0].0 == key then Some(ms[0].1)
    else CodeOfName(ms[1..], key)
  }

  function NameOfCode(ms: NumericMembers, key: string): (r: Option<string>)
    ensures r.Some? ==> exists i :: 0 <= i < |ms| && Decimal(ms[i].1) == key && ms[i].0 == r.value
  {
    if ms == [] then None
    else if Decimal(ms[0].1) == key then Some(ms[0].0)
    else NameOfCode(ms[1..], key)
  }

  /** `E[key]` on a numeric enum: the code of a member name, the name of a member code,
      or `undefined`. */
  function NumericLookup(ms: NumericMembers, key: string): (r: Js)
    ensures r.Num? || r.Str? || r.Undefined?
  {
    match CodeOfName(ms, key)
    case Some(c) => Num(c as real)
    case None =>
      match NameOfCode(ms, key)
      case Some(n) => Str(n)
      case None => Undefined
  }

  /** `E[key]` on a string enum. */
  function StringLookup(ms: seq<(string, string)>, key: string): (r: Js)
    ensures r.Str? || r.Undefined?
    ensures r.Str? ==> exists i :: 0 <= i < |ms| && ms[i] == (key, r.s)
  {
    if ms == [] then Undefined
    else if ms[0].0 == key then Str(ms[0].1)
    else StringLookup(ms[1..], key)
  }

  /** What the TypeScript compiler guarantees of an enum declaration: member names are
      identifiers (they do not start with a digit) and differ, and so do the codes. */
  predicate WellformedNumeric(ms: NumericMembers) {
    (forall i :: 0 <= i < |ms| ==> |ms[i].0| > 0 && !('0' <= ms[i].0[0] <= '9') && (ms[i].1 as real) < ExponentFrom) &&
    (forall i, j :: 0 <= i < j < |ms| ==> ms[i].0 != ms[j].0 && ms[i].1 != ms[j].1)
  }

  predicate WellformedString(ms: seq<(string, string)>) {
    forall i, j :: 0 <= i < j < |ms| ==> ms[i].0 != ms[j].0
  }

  // ---------------------------------------------------------------------------
  // Properties

  /** Different numbers have different numerals. */
  lemma {:induction false} DecimalInjective(a: nat, b: nat)
    ensures Decimal(a) == Decimal(b) <==> a == b
    decreases a
  {
    if Decimal(a) == Decimal(b) && a >= 10 && b >= 10 {
      var da, db := Decimal(a / 10), Decimal(b / 10);
      assert Decimal(a) == da + [DigitChar(a % 10)];
      assert Decimal(b) == db + [DigitChar(b % 10)];
      assert |da| == |db|;
      assert da == Decimal(a)[..|da|] && db == Decimal(b)[..|db|];
      assert DigitChar(a % 10) == Decimal(a)[|da|] == Decimal(b)[|db|] == DigitChar(b % 10);
      DecimalInjective(a / 10, b / 10);
    }
  }

  lemma {:induction false} CodeOfNameAt(ms: NumericMembers, i: nat)
    requires i < |ms| && WellformedNumeric(ms)
    ensures CodeOfName(ms, ms[i].0) == Some(ms[i].1)
  {
    if i > 0 {
      assert ms[0].0 != ms[i].0;
      assert WellformedNumeric(ms[1..]) by {
        forall j | 0 <= j < |ms[1..]| ensures ms[1..][j] == ms[j + 1] { }
      }
      CodeOfNameAt(ms[1..], i - 1);
    }
  }

  lemma {:induction false} NameOfCodeAt(ms: NumericMembers, i: nat)
    requires i < |ms| && WellformedNumeric(ms)
    ensures NameOfCode(ms, Decimal(ms[i].1)) == Some(ms[i].0)
  {
    if i > 0 {
      DecimalInjective(ms[0].1, ms[i].1);
      assert WellformedNumeric(ms[1..]) by {
        forall j | 0 <= j < |ms[1..]| ensures ms[1..][j] == ms[j + 1] { }
      }
      NameOfCodeAt(ms[1..], i - 1);
    }
  }

  lemma NoNameIsANumeral(ms: NumericMembers, n: nat)
    requires WellformedNumeric(ms)
    ensures CodeOfName(ms, Decimal(n)) == None
  {
    forall i | 0 <= i < |ms| ensures ms[i].0 != Decimal(n) {
      assert ms[i].0[0] != Decimal(n)[0];
    }
  }

  /** A member name reads its code, and the code, as a key, reads the name back: the
      forward and the reverse mapping are inverse. */
  lemma NumericRoundTrip(ms: NumericMembers, i: nat)
    requires i < |ms| && WellformedNumeric(ms)
    ensures NumericLookup(ms, ms[i].0) == Num(ms[i].1 as real)
    ensures Text(Num(ms[i].1 as real)) == Some(Decimal(ms[i].1))
    ensures NumericLookup(ms, Decimal(ms[i].1)) == Str(ms[i].0)
  {
    CodeOfNameAt(ms, i);
    NameOfCodeAt(ms, i);
    NoNameIsANumeral(ms, ms[i].1);
  }

  /** A key that is neither a member name nor a member code reads `undefined`. */
  lemma NumericMissing(ms: NumericMembers, key: string)
    requires forall i :: 0 <= i < |ms| ==> ms[i].0 != key && Decimal(ms[i].1) != key
    ensures NumericLookup(ms, key) == Undefined
  {
  }

  lemma {:induction false} StringLookupAt(ms: seq<(string, string)>, i: nat)
    requires i < |ms| && WellformedString(ms)
    ensures StringLookup(ms, ms[i].0) == Str(ms[i].1)
  {
    if i > 0 {
      assert ms[0].0 != ms[i].0;
      assert WellformedString(ms[1..]) by {
        forall j | 0 <= j < |ms[1..]| ensures ms[1..][j] == ms[j + 1] { }
      }
      StringLookupAt(ms[1..], i - 1);
    }
  }

  lemma StringMissing(ms: seq<(string, string)>, key: string)
    requires forall i :: 0 <= i < |ms| ==> ms[i].0 != key
    ensures StringLookup(ms, key) == Undefined
  {
  }
}
