/** Case-sensitive substring search, as `String.prototype.indexOf` performs it. */
module Text {

  /** `q` occurs in `s` starting at position `i`. */
  ghost predicate OccursAt(q: string, s: string, i: int) {
    0 <= i && i + |q| <= |s| && s[i..i + |q|] == q
  }

  /** Reference definition: `q` is a contiguous part of `s`. */
  ghost predicate IsSubstring(q: string, s: string) {
    exists i :: OccursAt(q, s, i)
  }

  /** The first position at or after `from` where `q` occurs in `s`, or -1. */
  function IndexOfFrom(s: string, q: string, from: nat): (r: int)
    requires from <= |s| + 1
    ensures r == -1 || (from <= r && OccursAt(q, s, r))
    ensures r == -1 ==> forall i :: from <= i ==> !OccursAt(q, s, i)
    ensures r != -1 ==> forall i :: from <= i < r ==> !OccursAt(q, s, i)
    decreases |s| + 1 - from
  {
    if from + |q| > |s| then -1
    else if s[from..from + |q|] == q then from
    else IndexOfFrom(s, q, from + 1)
  }

  /** `s.indexOf(q)`: the first position where `q` occurs in `s`, or -1. */
  function IndexOf(s: string, q: string): (r: int)
    ensures r >= 0 <==> IsSubstring(q, s)
    ensures r >= 0 ==> OccursAt(q, s, r) && forall i :: 0 <= i < r ==> !OccursAt(q, s, i)
    ensures r < 0 ==> r == -1
  {
    IndexOfFrom(s, q, 0)
  }
}
