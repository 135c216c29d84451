/** Facts about sequences used by several modules: distinctness, the set of elements, sums. */
module Seqs {

  /** No element occurs twice. */
  ghost predicate Distinct<T>(s: seq<T>)
  {
    forall i, j :: 0 <= i < j < |s| ==> s[i] != s[j]
  }

  /** The elements of a sequence as a set (what `new Set(array)` holds). */
  function ToSet<T>(s: seq<T>): (r: set<T>)
  {
    set x | x in s
  }

  /** `new Set(s).size === s.length` exactly when `s` has no repeated element. */
  lemma {:induction false} ToSetSize<T>(s: seq<T>)
    ensures |ToSet(s)| <= |s|
    ensures |ToSet(s)| == |s| <==> Distinct(s)
  {
    if s != [] {
      var t, x := s[..|s| - 1], s[|s| - 1];
      assert s == t + [x];
      ToSetSize(t);
      assert ToSet(s) == ToSet(t) + {x};
      if x in ToSet(t) {
        var k :| 0 <= k < |t| && t[k] == x;
        assert s[k] == s[|s| - 1];
        assert ToSet(s) == ToSet(t);
      } else {
        assert |ToSet(s)| == |ToSet(t)| + 1;
        if Distinct(t) {
          forall i, j | 0 <= i < j < |s| ensures s[i] != s[j] {
            if j == |s| - 1 {
              assert s[i] == t[i];
            } else {
              assert s[i] == t[i] && s[j] == t[j];
            }
          }
        } else {
          var i, j :| 0 <= i < j < |t| && t[i] == t[j];
          assert s[i] == s[j];
        }
      }
    }
  }

  /** Sum of a sequence of numbers, folded from the left as `reduce((sum, x) => sum + x, 0)` does. */
  function Sum(s: seq<real>): (r: real)
  {
    if s == [] then 0.0 else Sum(s[..|s| - 1]) + s[|s| - 1]
  }

  /** Summing the first `i + 1` elements adds `s[i]` to the sum of the first `i`. */
  lemma SumStep(s: seq<real>, i: nat)
    requires i < |s|
    ensures Sum(s[..i + 1]) == Sum(s[..i]) + s[i]
  {
    assert s[..i + 1][..i] == s[..i];
  }

  /** The sum of a concatenation is the sum of the parts. */
  lemma {:induction false} SumConcat(a: seq<real>, b: seq<real>)
    ensures Sum(a + b) == Sum(a) + Sum(b)
  {
    if b != [] {
      assert (a + b)[..|a + b| - 1] == a + b[..|b| - 1];
      SumConcat(a, b[..|b| - 1]);
    } else {
      assert a + b == a;
    }
  }

  /** The sequence backwards. */
  function Reverse<T>(s: seq<T>): (r: seq<T>)
    ensures |r| == |s|
  {
    if s == [] then [] else [s[|s| - 1]] + Reverse(s[..|s| - 1])
  }

  /** Summing backwards gives the same total. */
  lemma {:induction false} SumReverse(s: seq<real>)
    ensures Sum(Reverse(s)) == Sum(s)
  {
    if s != [] {
      var front := s[..|s| - 1];
      SumReverse(front);
      SumConcat([s[|s| - 1]], Reverse(front));
      assert [s[|s| - 1]][..0] == [];
    }
  }

  /** Entry `i` of the reversed sequence is entry `|s| - 1 - i` of the original. */
  lemma {:induction false} ReverseIndex<T>(s: seq<T>, i: int)
    requires 0 <= i < |s|
    ensures Reverse(s)[i] == s[|s| - 1 - i]
  {
    var front := s[..|s| - 1];
    assert Reverse(s) == [s[|s| - 1]] + Reverse(front);
    if i > 0 {
      ReverseIndex(front, i - 1);
      assert Reverse(s)[i] == Reverse(front)[i - 1];
      assert front[|front| - 1 - (i - 1)] == s[|s| - 1 - i];
    }
  }
}
