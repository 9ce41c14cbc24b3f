/** Building blocks for the hand-written recognisers that stand in for the fixed
    regular expressions of GitManager.cs: the longest run of characters of one class
    (a greedy `[...]+` or `[...]*`), prefixes, and repetition. */
module Patterns {

  predicate All(s: string, p: char -> bool) {
    forall i :: 0 <= i < |s| ==> p(s[i])
  }

  /** The longest prefix of `s` whose characters all satisfy `p`, and the rest. */
  function TakeWhile(s: string, p: char -> bool): (r: (string, string))
    ensures r.0 + r.1 == s
    ensures All(r.0, p)
    ensures r.1 == [] || !p(r.1[0])
    decreases |s|
  {
    if s == [] || !p(s[0]) then ("", s)
    else
      var (run, rest) := TakeWhile(s[1..], p);
      assert [s[0]] + run + rest == s;
      assert forall i :: 1 <= i < 1 + |run| ==> ([s[0]] + run)[i] == run[i - 1];
      ([s[0]] + run, rest)
  }

  /** A run followed by a character outside the class (or by nothing) is what
      TakeWhile takes. */
  lemma TakeWhileOf(a: string, b: string, p: char -> bool)
    requires All(a, p)
    requires b == [] || !p(b[0])
    ensures TakeWhile(a + b, p) == (a, b)
  {
    var s := a + b;
    var (x, y) := TakeWhile(s, p);
    assert forall i :: 0 <= i < |a| ==> s[i] == a[i];
    assert forall i :: 0 <= i < |x| ==> s[i] == x[i];
    assert y != [] ==> s[|x|] == y[0];
    assert b != [] ==> s[|a|] == b[0];
    assert |x| == |a|;
    assert x == s[..|x|] && a == s[..|a|];
  }

  predicate StartsWith(s: string, prefix: string) {
    |prefix| <= |s| && s[..|prefix|] == prefix
  }

  /** `k` copies of `s`. */
  function Repeat(s: string, k: nat): (r: string)
    ensures |r| == k * |s|
  {
    if k == 0 then "" else s + Repeat(s, k - 1)
  }
}
