/** The OData binding paths the bodies carry: `Dimensions('d')`, `Processes('p')`,
    `Groups('g')`, and the paths `Dimensions('d')/Hierarchies('h')/Elements('e')` and
    `…/Subsets('s')`. The names are spliced in with template literals, without escaping,
    so a path reads back unambiguously only when no name holds a `'`. */
module Bindings {
  import opened Wrappers

  /** `${collection}('${name}')`. */
  function Segment(collection: string, name: string): string {
    collection + "('" + name + "')"
  }

  /** Segments joined with `/`. */
  function Path(collections: seq<string>, names: seq<string>): string
    requires |collections| == |names| >= 1
    decreases |names|
  {
    if |names| == 1 then Segment(collections[0], names[0])
    else Segment(collections[0], names[0]) + "/" + Path(collections[1..], names[1..])
  }

  function ElementPath(d: string, h: string, e: string): string {
    Path(["Dimensions", "Hierarchies", "Elements"], [d, h, e])
  }

  function SubsetPath(d: string, h: string, s: string): string {
    Path(["Dimensions", "Hierarchies", "Subsets"], [d, h, s])
  }

  predicate QuoteFree(s: string) { '\'' !in s }

  // ---------------------------------------------------------------------------
  // Reading a path back

  /** The text up to the first `'`, and the rest from it on. */
  function TakeName(s: string): (r: (string, string))
    ensures r.0 + r.1 == s
    ensures QuoteFree(r.0)
    ensures r.1 == [] || r.1[0] == '\''
  {
    if s == [] || s[0] == '\'' then ([], s)
    else
      var (n, rest) := TakeName(s[1..]);
      ([s[0]] + n, rest)
  }

  /** One segment of `collection` at the start of `s`: its name and the text after it. */
  function ParseSegment(collection: string, s: string): Option<(string, string)> {
    var open := collection + "('";
    if |s| >= |open| && s[..|open|] == open then
      var (n, rest) := TakeName(s[|open|..]);
      if |rest| >= 2 && rest[..2] == "')" then Some((n, rest[2..])) else None
    else None
  }

  /** The names of a whole path of the given collections, if `s` is one. */
  function ParsePath(collections: seq<string>, s: string): Option<seq<string>>
    requires |collections| >= 1
    decreases |collections|
  {
    match ParseSegment(collections[0], s)
    case None => None
    case Some((n, rest)) =>
      if |collections| == 1 then (if rest == [] then Some([n]) else None)
      else if |rest| >= 1 && rest[0] == '/' then
        match ParsePath(collections[1..], rest[1..])
        case Some(ns) => Some([n] + ns)
        case None => None
      else None
  }

  // ---------------------------------------------------------------------------
  // Properties

  lemma {:induction false} TakeNameOf(n: string, rest: string)
    requires QuoteFree(n)
    ensures TakeName(n + "'" + rest) == (n, "'" + rest)
  {
    if n != [] {
      assert (n + "'" + rest)[1..] == n[1..] + "'" + rest;
      TakeNameOf(n[1..], rest);
      assert [n[0]] + n[1..] == n;
    } else {
      assert n + "'" + rest == "'" + rest;
    }
  }

  lemma SegmentRoundTrip(c: string, n: string, rest: string)
    requires QuoteFree(n)
    ensures ParseSegment(c, Segment(c, n) + rest) == Some((n, rest))
  {
    var s := Segment(c, n) + rest;
    var open := c + "('";
    assert s == open + (n + "'" + (")" + rest));
    assert s[..|open|] == open;
    assert s[|open|..] == n + "'" + (")" + rest);
    TakeNameOf(n, ")" + rest);
    var tail := "'" + (")" + rest);
    assert tail[..2] == "')" && tail[2..] == rest;
  }

  /** A path of quote-free names reads back as those names. */
  lemma {:induction false} PathRoundTrip(cs: seq<string>, ns: seq<string>)
    requires |cs| == |ns| >= 1
    requires forall i :: 0 <= i < |ns| ==> QuoteFree(ns[i])
    ensures ParsePath(cs, Path(cs, ns)) == Some(ns)
    decreases |ns|
  {
    if |ns| == 1 {
      SegmentRoundTrip(cs[0], ns[0], "");
      assert Segment(cs[0], ns[0]) + "" == Segment(cs[0], ns[0]);
      assert ns == [ns[0]];
    } else {
      var tail := Path(cs[1..], ns[1..]);
      assert Path(cs, ns) == Segment(cs[0], ns[0]) + ("/" + tail);
      SegmentRoundTrip(cs[0], ns[0], "/" + tail);
      PathRoundTrip(cs[1..], ns[1..]);
      ParsePathStep(cs, Path(cs, ns), ns[0], tail);
      assert [ns[0]] + ns[1..] == ns;
    }
  }

  /** A path of more than one segment reads as its first segment, a `/`, and the rest. */
  lemma ParsePathStep(cs: seq<string>, s: string, n: string, rest: string)
    requires |cs| >= 2 && ParseSegment(cs[0], s) == Some((n, "/" + rest))
    ensures ParsePath(cs, s) == match ParsePath(cs[1..], rest) case Some(ns) => Some([n] + ns) case None => None
  {
    assert ("/" + rest)[1..] == rest;
  }

  /** Quote-free names are determined by their path: distinct names give distinct paths. */
  lemma PathInjective(cs: seq<string>, ns: seq<string>, ms: seq<string>)
    requires |cs| == |ns| == |ms| >= 1
    requires forall i :: 0 <= i < |ns| ==> QuoteFree(ns[i]) && QuoteFree(ms[i])
    ensures Path(cs, ns) == Path(cs, ms) <==> ns == ms
  {
    if Path(cs, ns) == Path(cs, ms) {
      PathRoundTrip(cs, ns);
      PathRoundTrip(cs, ms);
    }
  }

  lemma ElementPathRoundTrip(d: string, h: string, e: string)
    requires QuoteFree(d) && QuoteFree(h) && QuoteFree(e)
    ensures ParsePath(["Dimensions", "Hierarchies", "Elements"], ElementPath(d, h, e)) == Some([d, h, e])
  {
    PathRoundTrip(["Dimensions", "Hierarchies", "Elements"], [d, h, e]);
  }

  lemma SubsetPathRoundTrip(d: string, h: string, s: string)
    requires QuoteFree(d) && QuoteFree(h) && QuoteFree(s)
    ensures ParsePath(["Dimensions", "Hierarchies", "Subsets"], SubsetPath(d, h, s)) == Some([d, h, s])
  {
    PathRoundTrip(["Dimensions", "Hierarchies", "Subsets"], [d, h, s]);
  }

  /** A single segment of a quote-free name reads back as that name. */
  lemma SegmentPathRoundTrip(c: string, n: string)
    requires QuoteFree(n)
    ensures ParsePath([c], Segment(c, n)) == Some([n])
  {
    PathRoundTrip([c], [n]);
  }
}
