/**
 * Sequence helpers, and what it means for a sequence to be split into two
 * lists without reordering (a stable partition).
 */
module Sequences {

  function Front<T>(s: seq<T>): seq<T>
    requires s != []
  {
    s[..|s| - 1]
  }

  function Last<T>(s: seq<T>): T
    requires s != []
  {
    s[|s| - 1]
  }

  /** A concatenation is empty exactly when both parts are. */
  lemma EmptyConcat<T>(a: seq<T>, b: seq<T>)
    ensures a + b == [] <==> a == [] && b == []
  {
    assert |a + b| == |a| + |b|;
  }

  /**
   * s is an interleaving of a and b: every element of s goes to exactly one
   * of a and b, and each of a and b keeps the relative order it had in s.
   */
  ghost predicate Interleaving<T>(s: seq<T>, a: seq<T>, b: seq<T>)
    decreases |s|
  {
    if s == [] then a == [] && b == []
    else
      (a != [] && Last(a) == Last(s) && Interleaving(Front(s), Front(a), b)) ||
      (b != [] && Last(b) == Last(s) && Interleaving(Front(s), a, Front(b)))
  }

  /** An interleaving neither loses nor invents elements. */
  lemma {:induction false} InterleavingSizes<T>(s: seq<T>, a: seq<T>, b: seq<T>)
    requires Interleaving(s, a, b)
    ensures |s| == |a| + |b|
    ensures multiset(s) == multiset(a) + multiset(b)
    decreases |s|
  {
    if s != [] {
      assert s == Front(s) + [Last(s)];
      if a != [] && Last(a) == Last(s) && Interleaving(Front(s), Front(a), b) {
        InterleavingSizes(Front(s), Front(a), b);
        assert a == Front(a) + [Last(a)];
      } else {
        InterleavingSizes(Front(s), a, Front(b));
        assert b == Front(b) + [Last(b)];
      }
    }
  }
}
