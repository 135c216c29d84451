/**
 * Standings: score lines ordered by cumulative score, highest first, as
 * `[...scores].sort((a, b) => b.cumulativeScore - a.cumulativeScore)` orders them. The sort of
 * the JavaScript runtime is stable, so lines with equal totals keep their input order. Also the
 * `reduce` that picks the best line, keeping the earlier of two equal totals.
 */
module Standings {
  import opened GameTypes

  /** Cumulative scores never increase along the sequence. */
  predicate NonIncreasing(s: seq<RoundScore>)
  {
    forall i, j :: 0 <= i < j < |s| ==> s[i].cumulativeScore >= s[j].cumulativeScore
  }

  /** Place `x` after every line scoring at least as much, and before the first scoring less. */
  function Insert(sorted: seq<RoundScore>, x: RoundScore): (r: seq<RoundScore>)
    ensures |r| == |sorted| + 1
  {
    if sorted == [] then [x]
    else if sorted[0].cumulativeScore >= x.cumulativeScore then [sorted[0]] + Insert(sorted[1..], x)
    else [x] + sorted
  }

  /** The stable descending order of the lines: each line is inserted after all earlier ones. */
  function SortByScore(s: seq<RoundScore>): (r: seq<RoundScore>)
    ensures |r| == |s|
  {
    if s == [] then [] else Insert(SortByScore(s[..|s| - 1]), s[|s| - 1])
  }

  /** The lines with cumulative score `v`, in their order. */
  function WithScore(s: seq<RoundScore>, v: real): (r: seq<RoundScore>)
  {
    if s == [] then []
    else (if s[0].cumulativeScore == v then [s[0]] else []) + WithScore(s[1..], v)
  }

  /** `scores.reduce((max, s) => s.cumulativeScore > max.cumulativeScore ? s : max)`. */
  function Best(s: seq<RoundScore>): (r: RoundScore)
    requires s != []
  {
    if |s| == 1 then s[0]
    else
      var best := Best(s[..|s| - 1]);
      if s[|s| - 1].cumulativeScore > best.cumulativeScore then s[|s| - 1] else best
  }

  // ---------------------------------------------------------------- insertion

  /** Inserting adds exactly `x`. */
  lemma {:induction false} InsertPermutation(sorted: seq<RoundScore>, x: RoundScore)
    ensures multiset(Insert(sorted, x)) == multiset(sorted) + multiset{x}
  {
    if sorted == [] {
      assert Insert(sorted, x) == [x];
    } else if sorted[0].cumulativeScore >= x.cumulativeScore {
      var tail := sorted[1..];
      InsertPermutation(tail, x);
      assert Insert(sorted, x) == [sorted[0]] + Insert(tail, x);
      assert sorted == [sorted[0]] + tail;
    } else {
      assert Insert(sorted, x) == [x] + sorted;
    }
  }

  /** Inserting into a non-increasing sequence keeps it non-increasing. */
  lemma {:induction false} InsertSorted(sorted: seq<RoundScore>, x: RoundScore)
    requires NonIncreasing(sorted)
    ensures Insert(sorted, x) != []
    ensures Insert(sorted, x)[0] == if sorted != [] && sorted[0].cumulativeScore >= x.cumulativeScore then sorted[0] else x
    ensures NonIncreasing(Insert(sorted, x))
  {
    if sorted != [] && sorted[0].cumulativeScore >= x.cumulativeScore {
      var tail := sorted[1..];
      InsertSorted(tail, x);
      var r, rest := Insert(sorted, x), Insert(tail, x);
      assert r == [sorted[0]] + rest;
      assert rest[0].cumulativeScore <= sorted[0].cumulativeScore;
      forall i, j | 0 <= i < j < |r| ensures r[i].cumulativeScore >= r[j].cumulativeScore {
        if i == 0 {
          assert r[j] == rest[j - 1];
          assert rest[0].cumulativeScore >= rest[j - 1].cumulativeScore;
        } else {
          assert r[i] == rest[i - 1] && r[j] == rest[j - 1];
        }
      }
    }
  }

  /** Among lines of any one score, the inserted line comes last and the others keep their order. */
  lemma {:induction false} InsertStable(sorted: seq<RoundScore>, x: RoundScore, v: real)
    requires NonIncreasing(sorted)
    ensures WithScore(Insert(sorted, x), v) == WithScore(sorted, v) + (if x.cumulativeScore == v then [x] else [])
  {
    if sorted == [] {
    } else if sorted[0].cumulativeScore >= x.cumulativeScore {
      var tail := sorted[1..];
      NonIncreasingTail(sorted);
      InsertStable(tail, x, v);
      var r := Insert(sorted, x);
      assert r == [sorted[0]] + Insert(tail, x);
      assert r[0] == sorted[0] && r[1..] == Insert(tail, x);
      assert WithScore(r, v) == (if sorted[0].cumulativeScore == v then [sorted[0]] else []) + WithScore(Insert(tail, x), v);
    } else {
      if x.cumulativeScore == v {
        NoLineWithScore(sorted, v);
      }
      assert ([x] + sorted)[1..] == sorted;
    }
  }

  /** The tail of a non-increasing sequence is non-increasing. */
  lemma NonIncreasingTail(s: seq<RoundScore>)
    requires s != [] && NonIncreasing(s)
    ensures NonIncreasing(s[1..])
  {
    forall i, j | 0 <= i < j < |s| - 1 ensures s[1..][i].cumulativeScore >= s[1..][j].cumulativeScore {
      assert s[1..][i] == s[i + 1] && s[1..][j] == s[j + 1];
    }
  }

  // ---------------------------------------------------------------- the sort

  /** Filtering by score distributes over appending one line. */
  lemma {:induction false} WithScoreSnoc(s: seq<RoundScore>, x: RoundScore, v: real)
    ensures WithScore(s + [x], v) == WithScore(s, v) + (if x.cumulativeScore == v then [x] else [])
  {
    if s != [] {
      WithScoreSnoc(s[1..], x, v);
      assert (s + [x])[1..] == s[1..] + [x];
    }
  }

  /**
   * The ordered lines are the input lines rearranged, highest total first.
   */
  lemma {:induction false} SortByScoreSpec(s: seq<RoundScore>)
    ensures multiset(SortByScore(s)) == multiset(s)
    ensures NonIncreasing(SortByScore(s))
  {
    if s != [] {
      var front, last := s[..|s| - 1], s[|s| - 1];
      assert s == front + [last];
      SortByScoreSpec(front);
      InsertPermutation(SortByScore(front), last);
      InsertSorted(SortByScore(front), last);
    }
  }

  /** The sort is stable: the lines with any one total appear in their input order. */
  lemma {:induction false} SortByScoreStable(s: seq<RoundScore>, v: real)
    ensures WithScore(SortByScore(s), v) == WithScore(s, v)
  {
    if s != [] {
      var front, last := s[..|s| - 1], s[|s| - 1];
      assert s == front + [last];
      SortByScoreSpec(front);
      SortByScoreStable(front, v);
      InsertStable(SortByScore(front), last, v);
      WithScoreSnoc(front, last, v);
    }
  }

  /**
   * The best line is a line of the input, no line has a higher total, and it is the first line
   * with that total.
   */
  lemma {:induction false} BestIsFirstMaximum(s: seq<RoundScore>)
    requires s != []
    ensures Best(s) in s
    ensures forall i :: 0 <= i < |s| ==> s[i].cumulativeScore <= Best(s).cumulativeScore
    ensures WithScore(s, Best(s).cumulativeScore) != []
    ensures WithScore(s, Best(s).cumulativeScore)[0] == Best(s)
  {
    if |s| == 1 {
      assert s[1..] == [];
    } else {
      var front, last := s[..|s| - 1], s[|s| - 1];
      assert s == front + [last];
      BestIsFirstMaximum(front);
      var best := Best(front);
      if last.cumulativeScore > best.cumulativeScore {
        NoLineWithScore(front, last.cumulativeScore);
        WithScoreSnoc(front, last, last.cumulativeScore);
      } else {
        WithScoreSnoc(front, last, best.cumulativeScore);
      }
    }
  }

  /** If every line scores below `v`, none has score `v`. */
  lemma {:induction false} NoLineWithScore(s: seq<RoundScore>, v: real)
    requires forall i :: 0 <= i < |s| ==> s[i].cumulativeScore < v
    ensures WithScore(s, v) == []
  {
    if s != [] {
      NoLineWithScore(s[1..], v);
    }
  }

  /** The first line of the ordered standings is the line `reduce` picks as best. */
  lemma SortByScoreHead(s: seq<RoundScore>)
    requires s != []
    ensures SortByScore(s)[0] == Best(s)
  {
    SortByScoreSpec(s);
    BestIsFirstMaximum(s);
    var r := SortByScore(s);
    var b := Best(s);
    SortByScoreStable(s, b.cumulativeScore);
    assert r[0] in multiset(s);
    assert b in multiset(r);
    var k :| 0 <= k < |r| && r[k] == b;
    assert r[0].cumulativeScore == b.cumulativeScore;
    assert r == [r[0]] + r[1..];
    assert WithScore(r, b.cumulativeScore)[0] == r[0];
  }
}
