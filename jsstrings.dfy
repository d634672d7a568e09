/** The two `indexOf` built-ins the prober relies on, with JavaScript's
    semantics: the index of the first match, or -1 when there is none. */
module JsStrings {

  /** `p` occurs in `s` starting at position `k`. */
  predicate OccursAt(s: string, p: string, k: int)
  {
    0 <= k && k + |p| <= |s| && s[k..k + |p|] == p
  }

  /** `p` occurs somewhere in `s`. */
  ghost predicate Contains(s: string, p: string)
  {
    exists k :: OccursAt(s, p, k)
  }

  predicate StartsWith(s: string, p: string)
  {
    |p| <= |s| && s[..|p|] == p
  }

  /** `String.prototype.indexOf(p, from)`: the first position at or after
      `from` where `p` occurs, or -1. */
  function IndexOfFrom(s: string, p: string, from: nat): (r: int)
    requires from <= |s|
    ensures r == -1 || (from <= r && OccursAt(s, p, r))
    ensures r == -1 ==> forall k :: from <= k ==> !OccursAt(s, p, k)
    ensures r != -1 ==> forall k :: from <= k < r ==> !OccursAt(s, p, k)
    decreases |s| - from
  {
    if from + |p| > |s| then -1
    else if s[from..from + |p|] == p then from
    else IndexOfFrom(s, p, from + 1)
  }

  /** `s.indexOf(p)`. */
  function IndexOf(s: string, p: string): (r: int)
    ensures r == -1 <==> !Contains(s, p)
    ensures r != -1 ==> OccursAt(s, p, r) && forall k :: 0 <= k < r ==> !OccursAt(s, p, k)
  {
    IndexOfFrom(s, p, 0)
  }

  /** A match at position 0 is the first match, so `s.indexOf(p) === 0`
      tests exactly that `s` starts with `p`. */
  lemma IndexOfZeroIsPrefix(s: string, p: string)
    ensures IndexOf(s, p) == 0 <==> StartsWith(s, p)
  {
    if StartsWith(s, p) {
      assert OccursAt(s, p, 0);
    }
  }

  /** `Array.prototype.indexOf(x)` on a sequence: the first position holding
      `x`, or -1. */
  function IndexOfElement<T(==)>(s: seq<T>, x: T): (r: int)
    ensures -1 <= r < |s|
    ensures r == -1 <==> x !in s
    ensures r != -1 ==> s[r] == x && x !in s[..r]
  {
    if s == [] then -1
    else if s[0] == x then 0
    else
      var k := IndexOfElement(s[1..], x);
      if k == -1 then -1 else k + 1
  }
}
