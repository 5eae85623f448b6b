/** The few JavaScript string primitives the object model relies on, with the exact edge
    cases of the ECMAScript definitions (clamping in `substring`, -1 from `indexOf`). */
module JsString {

  /** The characters a JavaScript regular expression's `\s` class matches: the line
      terminators, TAB, VT, FF, the byte-order mark and the space separators. */
  predicate IsWhitespace(c: char) {
    || c == '\t' || c == '\n' || c == '\U{000B}' || c == '\U{000C}' || c == '\r'
    || c == ' ' || c == '\U{00A0}' || c == '\U{1680}'
    || ('\U{2000}' <= c <= '\U{200A}')
    || c == '\U{2028}' || c == '\U{2029}' || c == '\U{202F}' || c == '\U{205F}'
    || c == '\U{3000}' || c == '\U{FEFF}'
  }

  predicate IsUpper(c: char) { 'A' <= c <= 'Z' }

  /** `toLowerCase` on one character, restricted to the ASCII letters. */
  function LowerChar(c: char): (r: char)
    ensures IsUpper(c) ==> 'a' <= r <= 'z' && r as int == c as int + 32
    ensures !IsUpper(c) ==> r == c
    ensures IsWhitespace(r) <==> IsWhitespace(c)
  {
    if IsUpper(c) then (c as int + 32) as char else c
  }

  /** `String.prototype.toLowerCase`. */
  function ToLower(s: string): (r: string)
    ensures |r| == |s|
    ensures forall i :: 0 <= i < |s| ==> r[i] == LowerChar(s[i])
  {
    seq(|s|, i requires 0 <= i < |s| => LowerChar(s[i]))
  }

  /** `str.replace(/\s/g, '')`: every whitespace character removed, the rest kept in order. */
  function StripWhitespace(s: string): (r: string)
    ensures |r| <= |s|
    ensures forall i :: 0 <= i < |r| ==> !IsWhitespace(r[i])
  {
    if s == [] then []
    else if IsWhitespace(s[0]) then StripWhitespace(s[1..])
    else [s[0]] + StripWhitespace(s[1..])
  }

  /** Stripping keeps only characters of the input, and keeps a string without whitespace
      as it is. */
  lemma {:induction false} StripKeeps(s: string)
    ensures forall c :: c in StripWhitespace(s) ==> c in s
    ensures (forall i :: 0 <= i < |s| ==> !IsWhitespace(s[i])) ==> StripWhitespace(s) == s
  {
    if s != [] {
      StripKeeps(s[1..]);
      if !IsWhitespace(s[0]) {
        assert StripWhitespace(s) == [s[0]] + StripWhitespace(s[1..]);
      }
    }
  }

  /** The key normalisation of the case- and space-insensitive containers:
      lowercase first, then drop all whitespace. */
  function Normalize(s: string): string {
    StripWhitespace(ToLower(s))
  }

  /** A string is normalised when no character is whitespace or an upper-case letter. */
  predicate IsNormalized(s: string) {
    forall i :: 0 <= i < |s| ==> !IsWhitespace(s[i]) && !IsUpper(s[i])
  }

  lemma {:induction false} ToLowerAppend(a: string, b: string)
    ensures ToLower(a + b) == ToLower(a) + ToLower(b)
  {
    if a != [] {
      assert (a + b)[1..] == a[1..] + b;
      ToLowerAppend(a[1..], b);
    }
  }

  lemma {:induction false} StripAppend(a: string, b: string)
    ensures StripWhitespace(a + b) == StripWhitespace(a) + StripWhitespace(b)
  {
    if a != [] {
      assert (a + b)[0] == a[0];
      assert (a + b)[1..] == a[1..] + b;
      StripAppend(a[1..], b);
      if !IsWhitespace(a[0]) {
        assert StripWhitespace(a + b) == [a[0]] + (StripWhitespace(a[1..]) + StripWhitespace(b));
      }
    } else {
      assert a + b == b;
    }
  }

  lemma {:induction false} NormalizeAppend(a: string, b: string)
    ensures Normalize(a + b) == Normalize(a) + Normalize(b)
  {
    ToLowerAppend(a, b);
    StripAppend(ToLower(a), ToLower(b));
  }

  /** Lowercasing first or stripping first gives the same string. */
  lemma {:induction false} LowerStripCommute(s: string)
    ensures ToLower(StripWhitespace(s)) == StripWhitespace(ToLower(s))
  {
    if s != [] {
      LowerStripCommute(s[1..]);
      assert ToLower(s)[1..] == ToLower(s[1..]);
      if !IsWhitespace(s[0]) {
        ToLowerAppend([s[0]], StripWhitespace(s[1..]));
      }
    }
  }

  /** `ToLower` changes nothing in a string with no upper-case letter. */
  lemma {:induction false} ToLowerNoUpper(s: string)
    requires forall i :: 0 <= i < |s| ==> !IsUpper(s[i])
    ensures ToLower(s) == s
  {
  }

  /** The normalised form is normalised. */
  lemma NormalizeIsNormalized(s: string)
    ensures IsNormalized(Normalize(s))
  {
    var l := ToLower(s);
    var r := StripWhitespace(l);
    StripKeeps(l);
    forall i | 0 <= i < |r| ensures !IsUpper(r[i]) {
      assert r[i] in l;
    }
  }

  lemma NormalizeOfNormalized(s: string)
    requires IsNormalized(s)
    ensures Normalize(s) == s
  {
    ToLowerNoUpper(s);
    StripKeeps(s);
  }

  /** Normalising twice is normalising once. */
  lemma NormalizeIdempotent(s: string)
    ensures Normalize(Normalize(s)) == Normalize(s)
  {
    NormalizeIsNormalized(s);
    NormalizeOfNormalized(Normalize(s));
  }

  // ---------------------------------------------------------------------------
  // substring, indexOf, split

  /** The clamping of `String.prototype.substring`: an index below 0 counts as 0 and one
      above the length counts as the length. */
  function ClampIndex(i: int, n: nat): (r: nat)
    ensures r <= n
  {
    if i < 0 then 0 else if i > n then n else i
  }

  /** `s.substring(start, end)`: both ends clamped, and swapped when start exceeds end. */
  function Substring(s: string, start: int, end: int): (r: string)
    ensures |r| <= |s|
    ensures 0 <= start <= end <= |s| ==> r == s[start..end]
  {
    var a := ClampIndex(start, |s|);
    var b := ClampIndex(end, |s|);
    if a <= b then s[a..b] else s[b..a]
  }

  /** `s.substring(start)`. */
  function SubstringFrom(s: string, start: int): string {
    Substring(s, start, |s|)
  }

  predicate OccursAt(s: string, pat: string, i: int) {
    0 <= i && i + |pat| <= |s| && s[i..i + |pat|] == pat
  }

  /** The first occurrence of `pat` at or after `from`, or -1. */
  function IndexOfFrom(s: string, pat: string, from: nat): (r: int)
    ensures r == -1 || (from <= r && OccursAt(s, pat, r))
    ensures r != -1 ==> forall j :: from <= j < r ==> !OccursAt(s, pat, j)
    ensures r == -1 ==> forall j :: from <= j ==> !OccursAt(s, pat, j)
    decreases |s| - from
  {
    if from + |pat| > |s| then -1
    else if s[from..from + |pat|] == pat then from
    else IndexOfFrom(s, pat, from + 1)
  }

  /** `s.indexOf(pat)`. */
  function IndexOf(s: string, pat: string): int {
    IndexOfFrom(s, pat, 0)
  }

  predicate Contains(s: string, pat: string) {
    exists i :: 0 <= i <= |s| && OccursAt(s, pat, i)
  }

  lemma IndexOfFound(s: string, pat: string)
    ensures IndexOf(s, pat) >= 0 <==> Contains(s, pat)
  {
  }

  /** `s.split(sep)` for a non-empty separator string. */
  function Split(s: string, sep: string): (r: seq<string>)
    requires |sep| > 0
    ensures |r| >= 1
    decreases |s|
  {
    var i := IndexOf(s, sep);
    if i < 0 then [s] else [s[..i]] + Split(s[i + |sep|..], sep)
  }
}
