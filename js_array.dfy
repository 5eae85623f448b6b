/** `Array.prototype.findIndex` and the one-element `splice` the model's mutators use. */
module JsArray {

  /** `s.findIndex(p)`: the first index whose element satisfies `p`, or -1. */
  function FindIndex<T>(s: seq<T>, p: T -> bool): (r: int)
    ensures -1 <= r < |s|
    ensures r >= 0 ==> p(s[r]) && forall j :: 0 <= j < r ==> !p(s[j])
    ensures r == -1 <==> forall j :: 0 <= j < |s| ==> !p(s[j])
  {
    if s == [] then -1
    else if p(s[0]) then 0
    else var k := FindIndex(s[1..], p); if k == -1 then -1 else k + 1
  }

  /** The position `splice` starts at: a negative start counts back from the end
      (and stops at 0), a start past the end is the end. */
  function SpliceStart(len: nat, start: int): (r: nat)
    ensures r <= len
  {
    if start < 0 then (if len + start < 0 then 0 else len + start)
    else if start > len then len
    else start
  }

  /** `s.splice(start, 1)`, as the array it leaves behind. */
  function SpliceOne<T>(s: seq<T>, start: int): (r: seq<T>)
  {
    var k := SpliceStart(|s|, start);
    if k < |s| then s[..k] + s[k + 1..] else s
  }

  /** `if (index !== -1) s.splice(index, 1)`: the splice guarded against a failed
      `findIndex`. */
  function SpliceIfFound<T>(s: seq<T>, index: int): seq<T> {
    if index != -1 then SpliceOne(s, index) else s
  }

  /** Splicing at an index inside the array removes exactly that element. */
  lemma SpliceAtIndex<T>(s: seq<T>, i: int)
    requires 0 <= i < |s|
    ensures SpliceOne(s, i) == s[..i] + s[i + 1..]
    ensures |SpliceOne(s, i)| == |s| - 1
  {
  }

  /** What a splice leaves was all in the array before. */
  lemma SpliceOneKeeps<T>(s: seq<T>, start: int)
    ensures forall x :: x in SpliceOne(s, start) ==> x in s
  {
    var k := SpliceStart(|s|, start);
    if k < |s| {
      forall x | x in s[..k] + s[k + 1..] ensures x in s {
        if x in s[..k] {
          var j :| 0 <= j < k && s[..k][j] == x;
          assert s[j] == x;
        } else {
          var j :| 0 <= j < |s| - k - 1 && s[k + 1..][j] == x;
          assert s[k + 1 + j] == x;
        }
      }
    }
  }

  /** Splicing past the first element keeps the first element in front. */
  lemma SpliceBehindHead<T>(s: seq<T>, k: int)
    requires 0 <= k < |s| - 1
    ensures SpliceOne(s, k + 1) == [s[0]] + SpliceOne(s[1..], k)
  {
    SpliceAtIndex(s, k + 1);
    SpliceAtIndex(s[1..], k);
    assert s[..k + 1] == [s[0]] + s[1..][..k];
    assert s[k + 2..] == s[1..][k + 1..];
  }

  /** `splice(-1, 1)`, what a failed `findIndex` leads to, removes the last element of a
      non-empty array and leaves an empty one empty. */
  lemma SpliceMinusOne<T>(s: seq<T>)
    ensures s != [] ==> SpliceOne(s, -1) == s[..|s| - 1]
    ensures s == [] ==> SpliceOne(s, -1) == []
  {
  }
}
