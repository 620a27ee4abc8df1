/**
 * application/utils/image_search.py: `search_similar_images` after the
 * features are known. One result per index entry, sorted by score from
 * high to low with ties kept in index order (Python's `list.sort` is
 * stable, also with `reverse=True`), then cut to the first `top_k`. The
 * similarity of the query to an entry's features is an opaque function.
 */
module ImageSearch {
  import opened Seqs
  import opened OrderedDict

  datatype Match = Match(index: string, score: real)

  // ---------------------------------------------------------------------
  // The result list
  // ---------------------------------------------------------------------

  /** `results` after the loop over `feature_db.items()`. */
  function ResultsOf<F>(featureDb: Dict<string, F>, similarity: F -> real): (r: seq<Match>)
    ensures |r| == |featureDb|
    ensures forall i | 0 <= i < |r| :: r[i].index == featureDb[i].0 && r[i].score == similarity(featureDb[i].1)
  {
    seq(|featureDb|, i requires 0 <= i < |featureDb| => Match(featureDb[i].0, similarity(featureDb[i].1)))
  }

  /** The loop that appends one result per entry. */
  method BuildResults<F>(featureDb: Dict<string, F>, similarity: F -> real) returns (results: seq<Match>)
    ensures results == ResultsOf(featureDb, similarity)
  {
    results := [];
    for i := 0 to |featureDb|
      invariant results == ResultsOf(featureDb[..i], similarity)
    {
      var (idx, dbFeature) := featureDb[i];
      results := results + [Match(idx, similarity(dbFeature))];
    }
    assert featureDb[..|featureDb|] == featureDb;
  }

  /** Distinct keys give results with distinct indices. */
  lemma ResultIndicesDistinct<F>(featureDb: Dict<string, F>, similarity: F -> real)
    requires Valid(featureDb)
    ensures forall i, j | 0 <= i < j < |featureDb| :: ResultsOf(featureDb, similarity)[i].index != ResultsOf(featureDb, similarity)[j].index
  {
    var r := ResultsOf(featureDb, similarity);
    forall i, j | 0 <= i < j < |featureDb| ensures r[i].index != r[j].index {
      assert Keys(featureDb)[i] == r[i].index && Keys(featureDb)[j] == r[j].index;
    }
  }

  // ---------------------------------------------------------------------
  // The stable descending sort
  // ---------------------------------------------------------------------

  /**
   * `x` placed into `t` after every entry that scores at least as high:
   * the step of an insertion sort that scans from the right.
   */
  function InsertAfter(t: seq<Match>, x: Match): (r: seq<Match>)
    ensures |r| == |t| + 1
  {
    if t == [] then [x]
    else if t[|t| - 1].score < x.score then InsertAfter(t[..|t| - 1], x) + [t[|t| - 1]]
    else t + [x]
  }

  /** `results.sort(key=score, reverse=True)`: each entry inserted, in list order, into the sorted prefix. */
  function SortedByScore(s: seq<Match>): (r: seq<Match>)
    ensures |r| == |s|
  {
    if s == [] then [] else InsertAfter(SortedByScore(s[..|s| - 1]), s[|s| - 1])
  }

  lemma {:induction false} InsertAfterPermutes(t: seq<Match>, x: Match)
    ensures multiset(InsertAfter(t, x)) == multiset(t) + multiset{x}
  {
    if t != [] && t[|t| - 1].score < x.score {
      InsertAfterPermutes(t[..|t| - 1], x);
      assert t == t[..|t| - 1] + [t[|t| - 1]];
    }
  }

  /** The sort only reorders: the same results, each as often. */
  lemma {:induction false} SortedByScorePermutes(s: seq<Match>)
    ensures multiset(SortedByScore(s)) == multiset(s)
  {
    if s != [] {
      var init := s[..|s| - 1];
      var last := s[|s| - 1];
      assert s == init + [last];
      SortedByScorePermutes(init);
      InsertAfterPermutes(SortedByScore(init), last);
      assert SortedByScore(s) == InsertAfter(SortedByScore(init), last);
    }
  }

  predicate NonIncreasing(s: seq<Match>) {
    forall i, j | 0 <= i < j < |s| :: s[i].score >= s[j].score
  }

  lemma {:induction false} InsertAfterNonIncreasing(t: seq<Match>, x: Match)
    requires NonIncreasing(t)
    ensures NonIncreasing(InsertAfter(t, x))
  {
    if t != [] && t[|t| - 1].score < x.score {
      var init := t[..|t| - 1];
      var last := t[|t| - 1];
      assert t == init + [last];
      InsertAfterNonIncreasing(init, x);
      InsertAfterAbove(init, x, last);
      NonIncreasingSnoc(InsertAfter(init, x), last);
    }
  }

  /** Inserting an entry that outscores `last` into entries that all outscore it keeps them all above `last`. */
  lemma InsertAfterAbove(init: seq<Match>, x: Match, last: Match)
    requires NonIncreasing(init + [last]) && last.score < x.score
    ensures forall m | m in InsertAfter(init, x) :: m.score >= last.score
  {
    var u := InsertAfter(init, x);
    InsertAfterPermutes(init, x);
    forall m | m in u ensures m.score >= last.score {
      assert m in multiset(u);
      if m != x {
        assert m in multiset(init);
        var k :| 0 <= k < |init| && init[k] == m;
        assert (init + [last])[k] == m && (init + [last])[|init|] == last;
      }
    }
  }

  lemma NonIncreasingSnoc(u: seq<Match>, last: Match)
    requires NonIncreasing(u)
    requires forall m | m in u :: m.score >= last.score
    ensures NonIncreasing(u + [last])
  {
    forall i, j | 0 <= i < j < |u| + 1 ensures (u + [last])[i].score >= (u + [last])[j].score {
      if j == |u| {
        assert (u + [last])[i] == u[i];
      }
    }
  }

  /** Results come out ordered by non-increasing score. */
  lemma {:induction false} SortedByScoreNonIncreasing(s: seq<Match>)
    ensures NonIncreasing(SortedByScore(s))
  {
    if s != [] {
      SortedByScoreNonIncreasing(s[..|s| - 1]);
      InsertAfterNonIncreasing(SortedByScore(s[..|s| - 1]), s[|s| - 1]);
    }
  }

  /** The results that carry score `v`, in list order. */
  function WithScore(s: seq<Match>, v: real): seq<Match> {
    if s == [] then []
    else WithScore(s[..|s| - 1], v) + (if s[|s| - 1].score == v then [s[|s| - 1]] else [])
  }

  /** `WithScore` keeps exactly the results that carry score `v`. */
  lemma {:induction false} WithScoreMembers(s: seq<Match>, v: real, m: Match)
    ensures m in WithScore(s, v) <==> m in s && m.score == v
  {
    if s != [] {
      WithScoreMembers(s[..|s| - 1], v, m);
      assert s == s[..|s| - 1] + [s[|s| - 1]];
    }
  }

  lemma {:induction false} WithScoreConcat(a: seq<Match>, b: seq<Match>, v: real)
    ensures WithScore(a + b, v) == WithScore(a, v) + WithScore(b, v)
    decreases |b|
  {
    if b == [] {
      assert a + b == a;
    } else {
      var init := b[..|b| - 1];
      assert (a + b)[..|a + b| - 1] == a + init;
      WithScoreConcat(a, init, v);
    }
  }

  lemma {:induction false} InsertAfterStable(t: seq<Match>, x: Match, v: real)
    ensures WithScore(InsertAfter(t, x), v) == WithScore(t + [x], v)
  {
    if t != [] && t[|t| - 1].score < x.score {
      var init := t[..|t| - 1];
      var last := t[|t| - 1];
      assert t == init + [last];
      InsertAfterStable(init, x, v);
      PassLowerScore(init, last, x, v);
    }
  }

  /** Moving `x` in front of a lower-scoring `last` changes no run of equal scores. */
  lemma PassLowerScore(init: seq<Match>, last: Match, x: Match, v: real)
    requires last.score < x.score
    requires WithScore(InsertAfter(init, x), v) == WithScore(init + [x], v)
    ensures WithScore(InsertAfter(init + [last], x), v) == WithScore(init + [last] + [x], v)
  {
    var t := init + [last];
    assert t[..|t| - 1] == init && t[|t| - 1] == last;
    assert InsertAfter(t, x) == InsertAfter(init, x) + [last];
    WithScoreConcat(InsertAfter(init, x), [last], v);
    WithScoreSnoc(init, x, v);
    WithScoreSnoc(init, last, v);
    WithScoreSnoc(t, x, v);
  }

  lemma WithScoreSnoc(s: seq<Match>, m: Match, v: real)
    ensures WithScore(s + [m], v) == WithScore(s, v) + (if m.score == v then [m] else [])
  {
    assert (s + [m])[..|s|] == s;
  }

  /** Stability: the results of any one score keep their order in the input. */
  lemma {:induction false} SortedByScoreStable(s: seq<Match>, v: real)
    ensures WithScore(SortedByScore(s), v) == WithScore(s, v)
  {
    if s != [] {
      var init := s[..|s| - 1];
      var last := s[|s| - 1];
      SortedByScoreStable(init, v);
      InsertAfterStable(SortedByScore(init), last, v);
      WithScoreConcat(SortedByScore(init), [last], v);
      WithScoreConcat(init, [last], v);
      assert s == init + [last];
    }
  }

  /**
   * Where the step puts `x`: right after the last entry that scores at
   * least as high, with every entry behind it scoring lower.
   */
  lemma {:induction false} InsertAfterAt(t: seq<Match>, x: Match, j: nat)
    requires j <= |t|
    requires forall k | j <= k < |t| :: t[k].score < x.score
    requires j == 0 || t[j - 1].score >= x.score
    ensures InsertAfter(t, x) == t[..j] + [x] + t[j..]
    decreases |t|
  {
    if j == |t| {
      assert t[..j] == t && t[j..] == [];
    } else {
      var init := t[..|t| - 1];
      var last := t[|t| - 1];
      InsertAfterAt(init, x, j);
      assert init[..j] == t[..j];
      assert init[j..] + [last] == t[j..];
    }
  }

  /**
   * The inner loop: the entries before `a[i]` that score below it move one
   * place right; `j` is the gap left for it.
   */
  method ShiftLower(a: array<Match>, i: nat) returns (j: nat)
    requires i < a.Length
    modifies a
    ensures j <= i
    ensures forall k | 0 <= k < j :: a[k] == old(a[k])
    ensures forall k | j < k <= i :: a[k] == old(a[k - 1])
    ensures forall k | i < k < a.Length :: a[k] == old(a[k])
    ensures forall k | j <= k < i :: old(a[k]).score < old(a[i]).score
    ensures j == 0 || old(a[j - 1]).score >= old(a[i]).score
  {
    var key := a[i];
    j := i;
    while j > 0 && a[j - 1].score < key.score
      invariant 0 <= j <= i
      invariant forall k | 0 <= k < j :: a[k] == old(a[k])
      invariant forall k | j < k <= i :: a[k] == old(a[k - 1])
      invariant forall k | i < k < a.Length :: a[k] == old(a[k])
      invariant forall k | j <= k < i :: old(a[k]).score < key.score
    {
      a[j] := a[j - 1];
      j := j - 1;
    }
  }

  /** One pass of the outer loop: `a[i]` lands after the entries before it that score at least as high. */
  method InsertAt(a: array<Match>, i: nat)
    requires i < a.Length
    modifies a
    ensures a[..i + 1] == InsertAfter(old(a[..i]), old(a[i]))
    ensures a[i + 1..] == old(a[i + 1..])
  {
    var key := a[i];
    ghost var t := a[..i];
    var j := ShiftLower(a, i);
    InsertAfterAt(t, key, j);
    a[j] := key;
    Placed(a[..], t, j, i, key);
  }

  /** The array after the inner loop, read as a sequence. */
  lemma Placed(b: seq<Match>, t: seq<Match>, j: nat, i: nat, key: Match)
    requires j <= i == |t| < |b| && b[j] == key
    requires forall k | 0 <= k < j :: b[k] == t[k]
    requires forall k | j < k <= i :: b[k] == t[k - 1]
    ensures b[..i + 1] == t[..j] + [key] + t[j..i]
  {
  }

  /** The in-place insertion sort behind `results.sort(..., reverse=True)`. */
  method SortByScore(a: array<Match>)
    modifies a
    ensures a[..] == SortedByScore(old(a[..]))
  {
    ghost var s := a[..];
    for i := 0 to a.Length
      invariant a[i..] == s[i..]
      invariant a[..i] == SortedByScore(s[..i])
    {
      assert s[..i + 1] == s[..i] + [s[i]];
      InsertAt(a, i);
    }
    assert s[..a.Length] == s;
  }

  // ---------------------------------------------------------------------
  // search_similar_images
  // ---------------------------------------------------------------------

  /** What `search_similar_images` returns: the sorted results, sliced with `[:top_k]`. */
  function TopMatches<F>(featureDb: Dict<string, F>, similarity: F -> real, topK: int): seq<Match> {
    SliceTo(SortedByScore(ResultsOf(featureDb, similarity)), topK)
  }

  method SearchSimilarImages<F>(featureDb: Dict<string, F>, similarity: F -> real, topK: int := 15) returns (r: seq<Match>)
    ensures r == TopMatches(featureDb, similarity, topK)
  {
    var results := BuildResults(featureDb, similarity);
    var a := new Match[|results|](i requires 0 <= i < |results| => results[i]);
    assert a[..] == results;
    SortByScore(a);
    r := SliceTo(a[..], topK);
  }

  /** A non-negative `top_k` gives min(top_k, index size) results, every one taken from the index. */
  lemma TopMatchesCount<F>(featureDb: Dict<string, F>, similarity: F -> real, topK: int)
    requires topK >= 0
    ensures |TopMatches(featureDb, similarity, topK)| == if |featureDb| < topK then |featureDb| else topK
    ensures forall m | m in TopMatches(featureDb, similarity, topK) :: m in ResultsOf(featureDb, similarity)
  {
    var sorted := SortedByScore(ResultsOf(featureDb, similarity));
    SortedByScorePermutes(ResultsOf(featureDb, similarity));
    forall m | m in TopMatches(featureDb, similarity, topK) ensures m in ResultsOf(featureDb, similarity) {
      assert m in sorted;
      assert m in multiset(sorted);
    }
  }

  /** The returned results are ordered, and no left-out result scores higher than a returned one. */
  lemma TopMatchesBest<F>(featureDb: Dict<string, F>, similarity: F -> real, topK: int)
    ensures NonIncreasing(TopMatches(featureDb, similarity, topK))
    ensures forall i, j | 0 <= i < |TopMatches(featureDb, similarity, topK)| <= j < |featureDb| ::
      SortedByScore(ResultsOf(featureDb, similarity))[j].score <= TopMatches(featureDb, similarity, topK)[i].score
  {
    var sorted := SortedByScore(ResultsOf(featureDb, similarity));
    SortedByScoreNonIncreasing(ResultsOf(featureDb, similarity));
  }

  /** Ties among the returned results come in index order: they are the first of the index's results with that score. */
  lemma TopMatchesStable<F>(featureDb: Dict<string, F>, similarity: F -> real, topK: int, v: real)
    ensures var tied := WithScore(TopMatches(featureDb, similarity, topK), v);
      |tied| <= |WithScore(ResultsOf(featureDb, similarity), v)| && tied == WithScore(ResultsOf(featureDb, similarity), v)[..|tied|]
  {
    var results := ResultsOf(featureDb, similarity);
    var sorted := SortedByScore(results);
    var top := TopMatches(featureDb, similarity, topK);
    SortedByScoreStable(results, v);
    assert sorted == top + sorted[|top|..];
    WithScoreConcat(top, sorted[|top|..], v);
  }
}
