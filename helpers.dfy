/** src/utils/helpers.ts: name comparison, unique-name parsing and URL component encoding. */
module Helpers {
  import opened Wrappers
  import opened JsString

  // ---------------------------------------------------------------------------
  // removeSpacesAndLower, caseAndSpaceInsensitiveEquals

  /** `removeSpacesAndLower`: strips the whitespace first and lowercases afterwards, the
      opposite order from the containers; both orders give the one normal form. */
  function RemoveSpacesAndLower(s: string): (r: string)
    ensures r == Normalize(s)
    ensures IsNormalized(r)
    ensures forall i :: 0 <= i < |r| ==> !IsWhitespace(r[i])
  {
    LowerStripCommute(s);
    NormalizeIsNormalized(s);
    ToLower(StripWhitespace(s))
  }

  /** Applying `removeSpacesAndLower` twice is applying it once. */
  lemma RemoveSpacesAndLowerIdempotent(s: string)
    ensures RemoveSpacesAndLower(RemoveSpacesAndLower(s)) == RemoveSpacesAndLower(s)
  {
    NormalizeIdempotent(s);
  }

  /** `caseAndSpaceInsensitiveEquals`: the two names agree exactly when they have the same
      key in the case- and space-insensitive map. */
  predicate CaseAndSpaceInsensitiveEquals(a: string, b: string): (r: bool)
    ensures r <==> Normalize(a) == Normalize(b)
  {
    RemoveSpacesAndLower(a) == RemoveSpacesAndLower(b)
  }

  /** The comparison is an equivalence relation. */
  lemma InsensitiveEqualsIsEquivalence(a: string, b: string, c: string)
    ensures CaseAndSpaceInsensitiveEquals(a, a)
    ensures CaseAndSpaceInsensitiveEquals(a, b) <==> CaseAndSpaceInsensitiveEquals(b, a)
    ensures CaseAndSpaceInsensitiveEquals(a, b) && CaseAndSpaceInsensitiveEquals(b, c) ==>
              CaseAndSpaceInsensitiveEquals(a, c)
  {
  }

  /** Names differing only in letter case and whitespace compare equal. */
  lemma InsensitiveEqualsExample()
    ensures CaseAndSpaceInsensitiveEquals("A b", "aB")
  {
    assert StripWhitespace("A b") == "Ab";
  }

  // ---------------------------------------------------------------------------
  // extractComponentsFromUniqueName

  const Separator: string := "].["

  datatype Components = Components(dimension: string, hierarchy: string, member: string)

  /** `s.substring(0, s.length - 1)`: the string without its last character. */
  function DropLast(s: string): (r: string)
    ensures s != [] ==> r == s[..|s| - 1]
    ensures s == [] ==> r == []
  {
    Substring(s, 0, |s| - 1)
  }

  /** `extractComponentsFromUniqueName`. The name is split at every `"].["`; the first
      piece minus its first character is the dimension. With two pieces the hierarchy is
      the dimension; with more it is the second piece. The member is the next piece minus
      its last character. With a single piece the source reads a property of `undefined`
      and throws a TypeError. */
  function ExtractComponentsFromUniqueName(uniqueName: string): (r: Result<Components>)
    ensures r.Err? <==> !Contains(uniqueName, Separator)
    ensures r.Err? ==> r.error == TypeError
  {
    var parts := Split(uniqueName, Separator);
    var dimension := SubstringFrom(parts[0], 1);
    if |parts| == 1 then
      SplitWithoutSeparator(uniqueName);
      Err(TypeError)
    else
      SplitWithSeparator(uniqueName);
      if |parts| == 2 then Ok(Components(dimension, dimension, DropLast(parts[1])))
      else Ok(Components(dimension, parts[1], DropLast(parts[2])))
  }

  lemma SplitWithoutSeparator(s: string)
    ensures |Split(s, Separator)| == 1 <==> !Contains(s, Separator)
  {
  }

  lemma SplitWithSeparator(s: string)
    ensures Contains(s, Separator) ==> |Split(s, Separator)| >= 2
  {
  }

  /** Where `"].["` first occurs in `a + "].[" + b` when `a` holds none: right after `a`,
      because no proper prefix of the separator is also a suffix of it. */
  lemma IndexOfSeparatorAfter(a: string, b: string)
    requires !Contains(a, Separator)
    ensures IndexOf(a + Separator + b, Separator) == |a|
  {
    var s := a + Separator + b;
    assert s[|a|..|a| + 3] == Separator;
    assert OccursAt(s, Separator, |a|);
    forall j | 0 <= j < |a| ensures !OccursAt(s, Separator, j) {
      if j + 3 <= |a| {
        assert s[j..j + 3] == a[j..j + 3];
        assert !OccursAt(a, Separator, j);
      } else if j == |a| - 1 {
        assert s[j + 1] == ']';
        assert s[j..j + 3][1] == s[j + 1];
      } else if j + 3 <= |s| {
        assert s[j + 2] == ']';
        assert s[j..j + 3][2] == s[j + 2];
      }
    }
  }

  lemma SplitAfter(a: string, b: string)
    requires !Contains(a, Separator)
    ensures Split(a + Separator + b, Separator) == [a] + Split(b, Separator)
  {
    var s := a + Separator + b;
    IndexOfSeparatorAfter(a, b);
    assert s[..|a|] == a;
    assert s[|a| + 3..] == b;
  }

  lemma SplitNone(a: string)
    requires !Contains(a, Separator)
    ensures Split(a, Separator) == [a]
  {
  }

  /** `"[" + d` has a separator only where `d` has one. */
  lemma BracketPrefixKeepsFree(d: string)
    requires !Contains(d, Separator)
    ensures !Contains("[" + d, Separator)
  {
    var s := "[" + d;
    forall j | 0 <= j <= |s| ensures !OccursAt(s, Separator, j) {
      if j > 0 && j + 3 <= |s| {
        assert s[j..j + 3] == d[j - 1..j + 2];
        assert !OccursAt(d, Separator, j - 1);
      } else if j == 0 && 3 <= |s| {
        assert s[0..3][0] == '[';
      }
    }
  }

  /** `m + "]"` has a separator only where `m` has one. */
  lemma BracketSuffixKeepsFree(m: string)
    requires !Contains(m, Separator)
    ensures !Contains(m + "]", Separator)
  {
    var s := m + "]";
    forall j | 0 <= j <= |s| ensures !OccursAt(s, Separator, j) {
      if j + 3 <= |m| {
        assert s[j..j + 3] == m[j..j + 3];
        assert !OccursAt(m, Separator, j);
      } else if j + 3 == |s| {
        assert s[j + 2] == ']';
        assert s[j..j + 3][2] == s[j + 2];
      }
    }
  }

  /** `substring(1)` drops the opening bracket again. */
  lemma DropBracket(d: string)
    ensures SubstringFrom("[" + d, 1) == d
  {
    var s := "[" + d;
    assert Substring(s, 1, |s|) == s[1..];
    assert s[1..] == d;
  }

  /** `[D].[H].[M]` gives back D, H and M when none of them holds `"].["`. */
  lemma ExtractThreeParts(d: string, h: string, m: string)
    requires !Contains(d, Separator) && !Contains(h, Separator) && !Contains(m, Separator)
    ensures ExtractComponentsFromUniqueName("[" + d + Separator + h + Separator + m + "]")
              == Ok(Components(d, h, m))
  {
    var u := "[" + d + Separator + h + Separator + m + "]";
    BracketPrefixKeepsFree(d);
    BracketSuffixKeepsFree(m);
    assert u == ("[" + d) + Separator + (h + Separator + (m + "]"));
    SplitAfter("[" + d, h + Separator + (m + "]"));
    SplitAfter(h, m + "]");
    SplitNone(m + "]");
    assert Split(u, Separator) == ["[" + d, h, m + "]"];
    DropBracket(d);
    assert DropLast(m + "]") == m;
    assert OccursAt(u, Separator, |d| + 1);
  }

  /** `[D].[M]` gives D as both dimension and hierarchy, and M as the member. */
  lemma ExtractTwoParts(d: string, m: string)
    requires !Contains(d, Separator) && !Contains(m, Separator)
    ensures ExtractComponentsFromUniqueName("[" + d + Separator + m + "]")
              == Ok(Components(d, d, m))
  {
    var u := "[" + d + Separator + m + "]";
    BracketPrefixKeepsFree(d);
    BracketSuffixKeepsFree(m);
    assert u == ("[" + d) + Separator + (m + "]");
    SplitAfter("[" + d, m + "]");
    SplitNone(m + "]");
    assert Split(u, Separator) == ["[" + d, m + "]"];
    DropBracket(d);
    assert DropLast(m + "]") == m;
    assert OccursAt(u, Separator, |d| + 1);
  }

  /** With three pieces or more, the components come from the first three. */
  lemma ExtractFromPieces(u: string)
    requires |Split(u, Separator)| >= 3
    ensures var p := Split(u, Separator);
            ExtractComponentsFromUniqueName(u) == Ok(Components(SubstringFrom(p[0], 1), p[1], DropLast(p[2])))
  {
    SplitWithoutSeparator(u);
  }

  /** Three separator-free pieces in front of any rest split off one by one. */
  lemma SplitThreeInFront(a: string, b: string, c: string, rest: string)
    requires !Contains(a, Separator) && !Contains(b, Separator) && !Contains(c, Separator)
    ensures Split(a + Separator + (b + Separator + (c + Separator + rest)), Separator)
              == [a, b, c] + Split(rest, Separator)
  {
    SplitAfter(a, b + Separator + (c + Separator + rest));
    SplitAfter(b, c + Separator + rest);
    SplitAfter(c, rest);
  }

  /** With four or more pieces the later ones are ignored: the member is the third piece
      minus its last character. */
  lemma ExtractIgnoresLaterParts(d: string, h: string, m: string, rest: string)
    requires !Contains(d, Separator) && !Contains(h, Separator) && !Contains(m, Separator)
    ensures ExtractComponentsFromUniqueName("[" + d + Separator + (h + Separator + (m + Separator + rest)))
              == Ok(Components(d, h, DropLast(m)))
  {
    var u := "[" + d + Separator + (h + Separator + (m + Separator + rest));
    BracketPrefixKeepsFree(d);
    SplitThreeInFront("[" + d, h, m, rest);
    ExtractFromPieces(u);
    DropBracket(d);
  }

  // ---------------------------------------------------------------------------
  // fixedEncodeURIComponent

  predicate IsAlpha(c: char) { 'A' <= c <= 'Z' || 'a' <= c <= 'z' }
  predicate IsDigit(c: char) { '0' <= c <= '9' }

  /** The unreserved characters of section 2.3 of RFC 3986. */
  predicate IsUnreserved(c: char) {
    IsAlpha(c) || IsDigit(c) || c == '-' || c == '.' || c == '_' || c == '~'
  }

  /** The five marks `encodeURIComponent` leaves alone although RFC 3986 reserves them. */
  predicate IsMark(c: char) {
    c == '!' || c == '\'' || c == '(' || c == ')' || c == '*'
  }

  /** The characters `encodeURIComponent` does not escape. */
  predicate IsUriUnescaped(c: char) {
    IsUnreserved(c) || IsMark(c)
  }

  /** The UTF-8 encoding of one Unicode scalar value. */
  function Utf8(c: char): (r: seq<int>)
    ensures 1 <= |r| <= 4
    ensures forall i :: 0 <= i < |r| ==> 0 <= r[i] < 256
    ensures (c as int) < 0x80 <==> r == [c as int]
  {
    var n := c as int;
    if n < 0x80 then [n]
    else if n < 0x800 then [0xC0 + n / 64, 0x80 + n % 64]
    else if n < 0x10000 then [0xE0 + n / 4096, 0x80 + (n / 64) % 64, 0x80 + n % 64]
    else [0xF0 + n / 262144, 0x80 + (n / 4096) % 64, 0x80 + (n / 64) % 64, 0x80 + n % 64]
  }

  function HexDigitUpper(d: int): (r: char)
    requires 0 <= d < 16
  {
    if d < 10 then ('0' as int + d) as char else ('A' as int + d - 10) as char
  }

  function HexDigitLower(d: int): (r: char)
    requires 0 <= d < 16
  {
    if d < 10 then ('0' as int + d) as char else ('a' as int + d - 10) as char
  }

  /** `n.toString(16)`: lowercase hexadecimal, no leading zeros. */
  function ToHexLower(n: nat): (r: string)
    ensures |r| >= 1
    decreases n
  {
    if n < 16 then [HexDigitLower(n)] else ToHexLower(n / 16) + [HexDigitLower(n % 16)]
  }

  /** A byte escaped as `%XX` with upper-case digits, as `encodeURIComponent` writes it. */
  function PercentUpper(b: int): string
    requires 0 <= b < 256
  {
    ['%', HexDigitUpper(b / 16), HexDigitUpper(b % 16)]
  }

  function PercentUpperAll(bytes: seq<int>): string
    requires forall i :: 0 <= i < |bytes| ==> 0 <= bytes[i] < 256
  {
    if bytes == [] then [] else PercentUpper(bytes[0]) + PercentUpperAll(bytes[1..])
  }

  /** `encodeURIComponent` on one character. */
  function EncodeUriChar(c: char): string {
    if IsUriUnescaped(c) then [c] else PercentUpperAll(Utf8(c))
  }

  /** `encodeURIComponent(s)`. */
  function EncodeUriComponent(s: string): string {
    if s == [] then [] else EncodeUriChar(s[0]) + EncodeUriComponent(s[1..])
  }

  /** The replacement callback: `'%' + c.charCodeAt(0).toString(16)`. */
  function ReplaceMark(c: char): string {
    if IsMark(c) then ['%'] + ToHexLower(c as nat) else [c]
  }

  /** `str.replace(/[!'()*]/g, callback)`. */
  function ReplaceMarks(s: string): string {
    if s == [] then [] else ReplaceMark(s[0]) + ReplaceMarks(s[1..])
  }

  /** `fixedEncodeURIComponent`. */
  function FixedEncodeUriComponent(s: string): string {
    ReplaceMarks(EncodeUriComponent(s))
  }

  /** What `fixedEncodeURIComponent` makes of one character. */
  function FixedEncodeChar(c: char): string {
    if IsUnreserved(c) then [c]
    else if IsMark(c) then ['%', HexDigitLower(c as int / 16), HexDigitLower(c as int % 16)]
    else PercentUpperAll(Utf8(c))
  }

  lemma {:induction false} ReplaceMarksAppend(a: string, b: string)
    ensures ReplaceMarks(a + b) == ReplaceMarks(a) + ReplaceMarks(b)
  {
    if a != [] {
      assert (a + b)[0] == a[0];
      assert (a + b)[1..] == a[1..] + b;
      ReplaceMarksAppend(a[1..], b);
    } else {
      assert a + b == b;
    }
  }

  predicate IsHexUpperDigit(c: char) { '0' <= c <= '9' || 'A' <= c <= 'F' }

  /** A run of upper-case `%XX` escapes is left alone by the replacement. */
  lemma {:induction false} ReplaceMarksOfEscapes(bytes: seq<int>)
    requires forall i :: 0 <= i < |bytes| ==> 0 <= bytes[i] < 256
    ensures ReplaceMarks(PercentUpperAll(bytes)) == PercentUpperAll(bytes)
  {
    if bytes != [] {
      var t := PercentUpper(bytes[0]);
      assert ReplaceMarks(t) == t by {
        assert t == [t[0]] + ([t[1]] + [t[2]]);
        ReplaceMarksAppend([t[0]], [t[1]] + [t[2]]);
        ReplaceMarksAppend([t[1]], [t[2]]);
      }
      ReplaceMarksAppend(t, PercentUpperAll(bytes[1..]));
      ReplaceMarksOfEscapes(bytes[1..]);
    }
  }

  lemma FixedEncodeCharCorrect(c: char)
    ensures ReplaceMarks(EncodeUriChar(c)) == FixedEncodeChar(c)
  {
    if IsUriUnescaped(c) {
      assert ReplaceMarks([c]) == ReplaceMark(c) + ReplaceMarks([]);
      if IsMark(c) {
        assert 16 <= c as int < 256;
        assert ToHexLower(c as nat) == ToHexLower(c as nat / 16) + [HexDigitLower(c as int % 16)];
      }
    } else {
      ReplaceMarksOfEscapes(Utf8(c));
    }
  }

  /** `fixedEncodeURIComponent` works character by character. */
  lemma {:induction false} FixedEncodeByChars(s: string)
    ensures s == [] ==> FixedEncodeUriComponent(s) == []
    ensures s != [] ==> FixedEncodeUriComponent(s) == FixedEncodeChar(s[0]) + FixedEncodeUriComponent(s[1..])
  {
    if s != [] {
      ReplaceMarksAppend(EncodeUriChar(s[0]), EncodeUriComponent(s[1..]));
      FixedEncodeCharCorrect(s[0]);
    }
  }

  /** The marks come out as `%` and the lowercase hexadecimal code: `*` as `%2a`,
      `(` as `%28`. */
  lemma MarkExamples()
    ensures FixedEncodeUriComponent("*") == "%2a"
    ensures FixedEncodeUriComponent("(") == "%28"
    ensures FixedEncodeUriComponent(")") == "%29"
    ensures FixedEncodeUriComponent("!") == "%21"
    ensures FixedEncodeUriComponent("'") == "%27"
  {
    FixedEncodeByChars("*");
    FixedEncodeByChars("(");
    FixedEncodeByChars(")");
    FixedEncodeByChars("!");
    FixedEncodeByChars("'");
    assert FixedEncodeUriComponent("") == "";
  }

  /** An unreserved character stands for itself; every other character becomes `%XX`
      triplets. */
  lemma FixedEncodeCharShape(c: char)
    ensures IsUnreserved(c) ==> FixedEncodeChar(c) == [c]
    ensures !IsUnreserved(c) ==> IsTriplets(FixedEncodeChar(c))
  {
    if !IsUnreserved(c) && !IsMark(c) {
      PercentUpperAllTriplets(Utf8(c));
    }
  }

  predicate IsHexDigit(c: char) { '0' <= c <= '9' || 'A' <= c <= 'F' || 'a' <= c <= 'f' }

  /** A sequence of percent-encoded octets, section 2.1 of RFC 3986. */
  predicate IsTriplets(s: string) {
    |s| % 3 == 0 && |s| > 0 &&
    forall k :: 0 <= k < |s| / 3 ==> s[3 * k] == '%' && IsHexDigit(s[3 * k + 1]) && IsHexDigit(s[3 * k + 2])
  }

  lemma {:induction false} PercentUpperAllTriplets(bytes: seq<int>)
    requires forall i :: 0 <= i < |bytes| ==> 0 <= bytes[i] < 256
    ensures |PercentUpperAll(bytes)| == 3 * |bytes|
    ensures forall k :: 0 <= k < |bytes| ==>
              PercentUpperAll(bytes)[3 * k] == '%' &&
              IsHexDigit(PercentUpperAll(bytes)[3 * k + 1]) &&
              IsHexDigit(PercentUpperAll(bytes)[3 * k + 2])
  {
    if bytes != [] {
      PercentUpperAllTriplets(bytes[1..]);
      var r := PercentUpperAll(bytes);
      var t := PercentUpperAll(bytes[1..]);
      forall k | 0 <= k < |bytes|
        ensures r[3 * k] == '%' && IsHexDigit(r[3 * k + 1]) && IsHexDigit(r[3 * k + 2])
      {
        if k > 0 {
          assert r[3 * k] == t[3 * (k - 1)];
          assert r[3 * k + 1] == t[3 * (k - 1) + 1];
          assert r[3 * k + 2] == t[3 * (k - 1) + 2];
        }
      }
    }
  }

  /** No `!`, `'`, `(`, `)` or `*` survives `fixedEncodeURIComponent`. */
  lemma {:induction false} FixedEncodeHasNoMarks(s: string)
    ensures forall i :: 0 <= i < |FixedEncodeUriComponent(s)| ==> !IsMark(FixedEncodeUriComponent(s)[i])
  {
    FixedEncodeByChars(s);
    if s != [] {
      FixedEncodeHasNoMarks(s[1..]);
      var c := s[0];
      var head := FixedEncodeChar(c);
      assert forall i :: 0 <= i < |head| ==> !IsMark(head[i]) by {
        if !IsUnreserved(c) && !IsMark(c) {
          PercentUpperAllNoMarks(Utf8(c));
        }
      }
    }
  }

  lemma {:induction false} PercentUpperAllNoMarks(bytes: seq<int>)
    requires forall i :: 0 <= i < |bytes| ==> 0 <= bytes[i] < 256
    ensures forall i :: 0 <= i < |PercentUpperAll(bytes)| ==> !IsMark(PercentUpperAll(bytes)[i])
  {
    if bytes != [] {
      PercentUpperAllNoMarks(bytes[1..]);
    }
  }

  // Decoding, the partner of the encoder.

  function HexValue(c: char): (r: int)
    requires IsHexDigit(c)
    ensures 0 <= r < 16
  {
    if '0' <= c <= '9' then c as int - '0' as int
    else if 'A' <= c <= 'F' then c as int - 'A' as int + 10
    else c as int - 'a' as int + 10
  }

  /** Percent-decoding to octets: `%XX` is the octet XX, any other character its own code. */
  function PercentDecode(s: string): Option<seq<int>>
    decreases |s|
  {
    if s == [] then Some([])
    else if s[0] == '%' then
      if |s| >= 3 && IsHexDigit(s[1]) && IsHexDigit(s[2]) then
        match PercentDecode(s[3..])
        case Some(rest) => Some([16 * HexValue(s[1]) + HexValue(s[2])] + rest)
        case None => None
      else None
    else
      match PercentDecode(s[1..])
      case Some(rest) => Some([s[0] as int] + rest)
      case None => None
  }

  /** The UTF-8 octets of a whole string. */
  function Utf8String(s: string): seq<int> {
    if s == [] then [] else Utf8(s[0]) + Utf8String(s[1..])
  }

  /** One upper-case escape decodes to its octet, in front of whatever the rest decodes to. */
  lemma DecodeOneEscape(b: int, rest: string)
    requires 0 <= b < 256
    ensures PercentDecode(PercentUpper(b) + rest) ==
            match PercentDecode(rest) case Some(t) => Some([b] + t) case None => None
  {
    var s := PercentUpper(b) + rest;
    assert s[0] == '%' && s[1] == HexDigitUpper(b / 16) && s[2] == HexDigitUpper(b % 16);
    assert s[3..] == rest;
    assert HexValue(HexDigitUpper(b / 16)) == b / 16;
    assert HexValue(HexDigitUpper(b % 16)) == b % 16;
  }

  /** A non-empty sequence followed by another is its head in front of the rest of both. */
  lemma HeadThenRest<T>(s: seq<T>, t: seq<T>)
    requires s != []
    ensures s + t == [s[0]] + (s[1..] + t)
  {
  }

  lemma {:induction false} DecodeUpperEscapes(bytes: seq<int>, rest: string, tail: seq<int>)
    requires forall i :: 0 <= i < |bytes| ==> 0 <= bytes[i] < 256
    requires PercentDecode(rest) == Some(tail)
    ensures PercentDecode(PercentUpperAll(bytes) + rest) == Some(bytes + tail)
  {
    if bytes != [] {
      DecodeUpperEscapes(bytes[1..], rest, tail);
      var b := bytes[0];
      var more := PercentUpperAll(bytes[1..]) + rest;
      assert PercentUpperAll(bytes) + rest == PercentUpper(b) + more;
      DecodeOneEscape(b, more);
      HeadThenRest(bytes, tail);
    } else {
      assert PercentUpperAll(bytes) + rest == rest;
      assert bytes + tail == tail;
    }
  }

  lemma DecodeChar(c: char, rest: string, tail: seq<int>)
    requires PercentDecode(rest) == Some(tail)
    ensures PercentDecode(FixedEncodeChar(c) + rest) == Some(Utf8(c) + tail)
  {
    var n := c as int;
    if IsUnreserved(c) {
      assert ([c] + rest)[1..] == rest;
    } else if IsMark(c) {
      var s := FixedEncodeChar(c) + rest;
      assert s[3..] == rest;
      assert HexValue(HexDigitLower(n / 16)) == n / 16;
      assert HexValue(HexDigitLower(n % 16)) == n % 16;
    } else {
      DecodeUpperEscapes(Utf8(c), rest, tail);
    }
  }

  /** Percent-decoding the output of `fixedEncodeURIComponent` gives the UTF-8 octets of
      the input: the encoding loses nothing. */
  lemma {:induction false} FixedEncodeDecodes(s: string)
    ensures PercentDecode(FixedEncodeUriComponent(s)) == Some(Utf8String(s))
  {
    FixedEncodeByChars(s);
    if s != [] {
      FixedEncodeDecodes(s[1..]);
      DecodeChar(s[0], FixedEncodeUriComponent(s[1..]), Utf8String(s[1..]));
    }
  }
}
