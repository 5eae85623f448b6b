/** `JSON.stringify` and `JSON.parse` on the keys of the tuple stores: an array of two
    strings, written compactly as `["parent","component"]`. The string escaping follows
    QuoteJSONString of ECMAScript: `"` and `\` get a backslash, the five control characters
    with a short escape get it, every other character below U+0020 becomes `\u00xx` with
    lower-case hexadecimal digits, and everything else stands for itself. */
module JsonText {
  import opened Wrappers

  function HexLower(d: int): (r: char)
    requires 0 <= d < 16
    ensures '0' <= r <= '9' || 'a' <= r <= 'f'
  {
    if d < 10 then ('0' as int + d) as char else ('a' as int + d - 10) as char
  }

  /** The short escape letter of a control character, if it has one. */
  function ShortEscape(c: char): Option<char> {
    if c == '\U{0008}' then Some('b')
    else if c == '\t' then Some('t')
    else if c == '\n' then Some('n')
    else if c == '\U{000C}' then Some('f')
    else if c == '\r' then Some('r')
    else None
  }

  /** One character inside a JSON string literal. */
  function EscapeChar(c: char): (r: string)
    ensures |r| >= 1
  {
    if c == '"' then ['\\', '"']
    else if c == '\\' then ['\\', '\\']
    else if ShortEscape(c).Some? then ['\\', ShortEscape(c).value]
    else if (c as int) < 0x20 then ['\\', 'u', '0', '0', HexLower(c as int / 16), HexLower(c as int % 16)]
    else [c]
  }

  function Escape(s: string): string {
    if s == [] then [] else EscapeChar(s[0]) + Escape(s[1..])
  }

  /** `JSON.stringify(s)` for a string. */
  function Quote(s: string): string {
    ['"'] + Escape(s) + ['"']
  }

  /** `JSON.stringify([a, b])` for two strings. */
  function StringifyPair(a: string, b: string): string {
    ['['] + Quote(a) + [','] + Quote(b) + [']']
  }

  // ---------------------------------------------------------------------------
  // JSON.parse

  predicate IsHex(c: char) { '0' <= c <= '9' || 'a' <= c <= 'f' || 'A' <= c <= 'F' }

  function HexValue(c: char): (r: int)
    requires IsHex(c)
    ensures 0 <= r < 16
  {
    if '0' <= c <= '9' then c as int - '0' as int
    else if 'a' <= c <= 'f' then c as int - 'a' as int + 10
    else c as int - 'A' as int + 10
  }

  /** The character a backslash escape stands for, by its letter. */
  function UnescapeLetter(e: char): Option<char> {
    if e == '"' then Some('"')
    else if e == '\\' then Some('\\')
    else if e == '/' then Some('/')
    else if e == 'b' then Some('\U{0008}')
    else if e == 't' then Some('\t')
    else if e == 'n' then Some('\n')
    else if e == 'f' then Some('\U{000C}')
    else if e == 'r' then Some('\r')
    else None
  }

  /** The body of a string literal up to its closing quote: the characters it stands for
      and the text after the quote. A `\u` escape naming a surrogate is refused, since a
      lone surrogate is not a character of the model. */
  function ParseChars(s: string): (r: Option<(string, string)>)
    ensures r.Some? ==> |r.value.1| < |s|
    decreases |s|
  {
    if s == [] then None
    else if s[0] == '"' then Some(([], s[1..]))
    else if s[0] == '\\' then
      if |s| < 2 then None
      else if UnescapeLetter(s[1]).Some? then
        match ParseChars(s[2..])
        case Some((t, rest)) => Some(([UnescapeLetter(s[1]).value] + t, rest))
        case None => None
      else if s[1] == 'u' && |s| >= 6 && IsHex(s[2]) && IsHex(s[3]) && IsHex(s[4]) && IsHex(s[5]) then
        var code := 4096 * HexValue(s[2]) + 256 * HexValue(s[3]) + 16 * HexValue(s[4]) + HexValue(s[5]);
        if 0xD800 <= code < 0xE000 then None
        else match ParseChars(s[6..])
          case Some((t, rest)) => Some(([code as char] + t, rest))
          case None => None
      else None
    else if (s[0] as int) < 0x20 then None
    else
      match ParseChars(s[1..])
      case Some((t, rest)) => Some(([s[0]] + t, rest))
      case None => None
  }

  /** `JSON.parse` of a compact array of two strings. */
  function ParsePair(s: string): Option<(string, string)> {
    if |s| >= 2 && s[0] == '[' && s[1] == '"' then
      match ParseChars(s[2..])
      case Some((a, r1)) =>
        if |r1| >= 2 && r1[0] == ',' && r1[1] == '"' then
          match ParseChars(r1[2..])
          case Some((b, r2)) => if r2 == "]" then Some((a, b)) else None
          case None => None
        else None
      case None => None
    else None
  }

  // ---------------------------------------------------------------------------
  // JSON.parse inverts JSON.stringify

  lemma ParseEscapedChar(c: char, rest: string)
    ensures ParseChars(EscapeChar(c) + rest) ==
              match ParseChars(rest)
              case Some((t, r)) => Some(([c] + t, r))
              case None => None
  {
    var s := EscapeChar(c) + rest;
    if c == '"' || c == '\\' || ShortEscape(c).Some? {
      assert s[2..] == rest;
    } else if (c as int) < 0x20 {
      assert s[6..] == rest;
      assert s[1] == 'u' && s[2] == '0' && s[3] == '0';
      var n := c as int;
      assert HexValue(HexLower(n / 16)) == n / 16;
      assert HexValue(HexLower(n % 16)) == n % 16;
      assert 16 * (n / 16) + n % 16 == n;
    } else {
      assert s[1..] == rest;
    }
  }

  lemma {:induction false} ParseEscaped(x: string, rest: string)
    ensures ParseChars(Escape(x) + ['"'] + rest) == Some((x, rest))
  {
    if x == [] {
      assert Escape(x) + ['"'] + rest == ['"'] + rest;
    } else {
      ParseEscaped(x[1..], rest);
      assert Escape(x) + ['"'] + rest == EscapeChar(x[0]) + (Escape(x[1..]) + ['"'] + rest);
      ParseEscapedChar(x[0], Escape(x[1..]) + ['"'] + rest);
      assert [x[0]] + x[1..] == x;
    }
  }

  /** Parsing a serialised pair gives the pair back. */
  lemma ParseStringifyPair(a: string, b: string)
    ensures ParsePair(StringifyPair(a, b)) == Some((a, b))
  {
    var s := StringifyPair(a, b);
    var tail := [','] + Quote(b) + [']'];
    assert s[2..] == Escape(a) + ['"'] + tail;
    ParseEscaped(a, tail);
    assert tail[2..] == Escape(b) + ['"'] + "]";
    ParseEscaped(b, "]");
  }

  /** Distinct pairs have distinct serialisations, in particular `[a, b]` and `[b, a]`
      are different keys unless `a == b`. */
  lemma StringifyPairInjective(a: string, b: string, c: string, d: string)
    ensures StringifyPair(a, b) == StringifyPair(c, d) <==> a == c && b == d
  {
    if StringifyPair(a, b) == StringifyPair(c, d) {
      ParseStringifyPair(a, b);
      ParseStringifyPair(c, d);
    }
  }

  lemma {:induction false} EscapeAppend(a: string, b: string)
    ensures Escape(a + b) == Escape(a) + Escape(b)
  {
    if a != [] {
      assert (a + b)[0] == a[0];
      assert (a + b)[1..] == a[1..] + b;
      EscapeAppend(a[1..], b);
    } else {
      assert a + b == b;
    }
  }

  /** The serialised pair as its three fixed pieces and the two escaped strings. */
  lemma StringifyPairPieces(a: string, b: string)
    ensures StringifyPair(a, b) == "[\"" + Escape(a) + "\",\"" + Escape(b) + "\"]"
  {
  }
}
