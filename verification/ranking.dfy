/** The final ordering and confidence filter of `search_videos`. */
module Ranking {
  import opened PySlice
  import opened Results

  /** Scores never increase along the list. */
  predicate SortedByScore(s: seq<SearchResult>) {
    forall i, j :: 0 <= i < j < |s| ==> s[i].score >= s[j].score
  }

  /** The results scoring exactly `v`, in list order. A stable sort leaves this sequence
      unchanged for every `v`. */
  function WithScore(s: seq<SearchResult>, v: real): (r: seq<SearchResult>)
    ensures |r| <= |s|
  {
    if |s| == 0 then []
    else (if s[0].score == v then [s[0]] else []) + WithScore(s[1..], v)
  }

  /** Inserts `x` in front of the first element it is not below. */
  function Insert(x: SearchResult, s: seq<SearchResult>): (r: seq<SearchResult>)
    requires SortedByScore(s)
    ensures SortedByScore(r)
    ensures 0 < |r| && (r[0] == x || (0 < |s| && r[0] == s[0]))
  {
    if |s| == 0 then [x]
    else if x.score >= s[0].score then [x] + s
    else
      var rest := Insert(x, s[1..]);
      assert s[0].score >= rest[0].score;
      [s[0]] + rest
  }

  /** Insertion adds exactly `x`. */
  lemma {:induction false} InsertPermutes(x: SearchResult, s: seq<SearchResult>)
    requires SortedByScore(s)
    ensures multiset(Insert(x, s)) == multiset(s) + multiset{x}
    decreases |s|
  {
    if 0 < |s| && x.score < s[0].score {
      InsertPermutes(x, s[1..]);
      assert s == [s[0]] + s[1..];
      assert Insert(x, s) == [s[0]] + Insert(x, s[1..]);
    }
  }

  /** `final_results.sort(key=lambda x: x.score, reverse=True)`: Python's sort is stable
      even when reversed, so results with equal scores keep their Tier-3 order. */
  function SortByScore(s: seq<SearchResult>): (r: seq<SearchResult>)
    ensures SortedByScore(r)
    ensures multiset(r) == multiset(s)
  {
    if |s| == 0 then []
    else
      assert s == [s[0]] + s[1..];
      InsertPermutes(s[0], SortByScore(s[1..]));
      Insert(s[0], SortByScore(s[1..]))
  }

  /** `x` goes in front of every element with its score, as it came before them. */
  lemma {:induction false} InsertStable(x: SearchResult, s: seq<SearchResult>, v: real)
    requires SortedByScore(s)
    ensures WithScore(Insert(x, s), v) == (if x.score == v then [x] else []) + WithScore(s, v)
    decreases |s|
  {
    if |s| == 0 {
    } else if x.score >= s[0].score {
      assert ([x] + s)[1..] == s;
    } else {
      var tail := Insert(x, s[1..]);
      var r := [s[0]] + tail;
      assert SortedByScore(s[1..]);
      InsertStable(x, s[1..], v);
      assert r[0] == s[0] && r[1..] == tail;
      assert WithScore(r, v) == (if s[0].score == v then [s[0]] else []) + WithScore(tail, v);
      assert WithScore(s, v) == (if s[0].score == v then [s[0]] else []) + WithScore(s[1..], v);
      assert x.score == v ==> s[0].score != v;
    }
  }

  /** The sort is stable: for every score, the results with that score keep their order. */
  lemma {:induction false} SortStable(s: seq<SearchResult>, v: real)
    ensures WithScore(SortByScore(s), v) == WithScore(s, v)
    decreases |s|
  {
    if 0 < |s| {
      SortStable(s[1..], v);
      InsertStable(s[0], SortByScore(s[1..]), v);
    }
  }

  /** `[r for r in s if r.score >= confidence_threshold]`. */
  function AtLeast(s: seq<SearchResult>, threshold: real): (r: seq<SearchResult>)
    ensures |r| <= |s|
    // every kept result clears the threshold
    ensures forall k :: 0 <= k < |r| ==> r[k].score >= threshold
  {
    if |s| == 0 then []
    else
      var rest := AtLeast(s[1..], threshold);
      if s[0].score >= threshold then [s[0]] + rest else rest
  }

  /** A result is kept, as often as it occurs, exactly when it clears the threshold. */
  lemma {:induction false} AtLeastCounts(s: seq<SearchResult>, threshold: real)
    ensures forall x :: multiset(AtLeast(s, threshold))[x] == if x.score >= threshold then multiset(s)[x] else 0
  {
    if 0 < |s| {
      AtLeastCounts(s[1..], threshold);
      assert s == [s[0]] + s[1..];
      assert multiset(s) == multiset{s[0]} + multiset(s[1..]);
      var rest := AtLeast(s[1..], threshold);
      if s[0].score >= threshold {
        assert multiset([s[0]] + rest) == multiset{s[0]} + multiset(rest);
      }
    }
  }

  /** On a descending list the threshold filter keeps a prefix, and every result after
      it is below the threshold. */
  lemma {:induction false} AtLeastSortedPrefix(s: seq<SearchResult>, threshold: real)
    requires SortedByScore(s)
    ensures var r := AtLeast(s, threshold);
            r == s[..|r|] && forall k :: |r| <= k < |s| ==> s[k].score < threshold
  {
    if 0 < |s| {
      var tail := s[1..];
      assert SortedByScore(tail);
      AtLeastSortedPrefix(tail, threshold);
      var rest := AtLeast(tail, threshold);
      if s[0].score >= threshold {
        assert AtLeast(s, threshold) == [s[0]] + rest;
        assert [s[0]] + tail[..|rest|] == s[..|rest| + 1];
      } else {
        assert forall k :: 0 <= k < |s| ==> s[k].score < threshold;
        assert |rest| == 0;
      }
    }
  }

  /** The end of `search_videos` after Tier 3: sort by score descending, keep the results
      that clear `confidence_threshold`, return the first `top_k`. */
  function FinalSelection(final: seq<SearchResult>, threshold: real, topK: int): (r: seq<SearchResult>)
    ensures SortedByScore(r)
    // threshold law: everything returned clears the threshold
    ensures forall k :: 0 <= k < |r| ==> r[k].score >= threshold
    // nothing is added and nothing is repeated more often than in the Tier-3 output
    ensures multiset(r) <= multiset(final)
    ensures 0 <= topK ==> |r| <= topK
    // a result that clears the threshold is missing only because results, each scoring at
    // least as high, were returned instead, top_k of them when top_k is not negative
    ensures forall x :: x in final && x.score >= threshold && x !in r ==>
              forall k :: 0 <= k < |r| ==> r[k].score >= x.score
    ensures 0 <= topK ==> forall x :: x in final && x.score >= threshold && x !in r ==>
              |r| == topK
    // no result clears the threshold: an empty list, not an error
    ensures (forall k :: 0 <= k < |final| ==> final[k].score < threshold) ==> r == []
    // as many results as slicing the passing results to top_k gives: no copy is lost
    ensures |r| == |Take(AtLeast(final, threshold), topK)|
    // stability: at every score the returned results are the first passing ones with that
    // score, in Tier-3 order
    ensures forall v :: WithScore(r, v) <= WithScore(AtLeast(final, threshold), v)
    // a passing result at score v is cut off only because results, each scoring at least v,
    // were returned instead, top_k of them when top_k is not negative
    ensures forall v :: |WithScore(r, v)| < |WithScore(AtLeast(final, threshold), v)| ==>
              forall k :: 0 <= k < |r| ==> r[k].score >= v
    ensures 0 <= topK ==> forall v :: |WithScore(r, v)| < |WithScore(AtLeast(final, threshold), v)| ==>
              |r| == topK
  {
    SelectionCount(final, threshold, topK);
    SelectionStable(final, threshold, topK);
    SelectionCutOff(final, threshold, topK);
    SelectionCutOffAnyTopK(final, threshold, topK);
    SelectionBeatsMissing(final, threshold, topK);
    SelectionSorted(final, threshold, topK);
    SelectionSubmultiset(final, threshold, topK);
    SelectionKeepsBest(final, threshold, topK);
    SelectionEmpty(final, threshold, topK);
    Take(AtLeast(SortByScore(final), threshold), topK)
  }

  /** The results scoring `v` in `a + b` are those of `a`, then those of `b`. */
  lemma {:induction false} WithScoreAppend(a: seq<SearchResult>, b: seq<SearchResult>, v: real)
    ensures WithScore(a + b, v) == WithScore(a, v) + WithScore(b, v)
    decreases |a|
  {
    if |a| == 0 {
      assert a + b == b;
    } else {
      WithScoreAppend(a[1..], b, v);
      var head := if a[0].score == v then [a[0]] else [];
      assert (a + b)[0] == a[0] && (a + b)[1..] == a[1..] + b;
      assert WithScore(a + b, v) == head + WithScore(a[1..] + b, v);
      assert WithScore(a, v) == head + WithScore(a[1..], v);
    }
  }

  /** A result scoring `v` is present when some are listed. */
  lemma {:induction false} WithScoreFound(s: seq<SearchResult>, v: real)
    requires 0 < |WithScore(s, v)|
    ensures exists j :: 0 <= j < |s| && s[j].score == v
    decreases |s|
  {
    if s[0].score != v {
      WithScoreFound(s[1..], v);
      var j :| 0 <= j < |s[1..]| && s[1..][j].score == v;
      assert s[j + 1].score == v;
    }
  }

  /** The threshold filter keeps a score level whole or drops it whole. */
  lemma {:induction false} AtLeastWithScore(s: seq<SearchResult>, threshold: real, v: real)
    ensures WithScore(AtLeast(s, threshold), v) == if v >= threshold then WithScore(s, v) else []
    decreases |s|
  {
    if 0 < |s| {
      AtLeastWithScore(s[1..], threshold, v);
      var rest := AtLeast(s[1..], threshold);
      if s[0].score >= threshold {
        assert ([s[0]] + rest)[1..] == rest;
      }
    }
  }

  /** Permuted lists keep equally many results above the threshold. */
  lemma AtLeastSameCount(s: seq<SearchResult>, t: seq<SearchResult>, threshold: real)
    requires multiset(s) == multiset(t)
    ensures |AtLeast(s, threshold)| == |AtLeast(t, threshold)|
  {
    AtLeastCounts(s, threshold);
    AtLeastCounts(t, threshold);
    assert multiset(AtLeast(s, threshold)) == multiset(AtLeast(t, threshold));
    assert |multiset(AtLeast(s, threshold))| == |AtLeast(s, threshold)|;
    assert |multiset(AtLeast(t, threshold))| == |AtLeast(t, threshold)|;
  }

  /** Sorting first does not change which results pass at a given score, nor their order. */
  lemma SortedLevels(final: seq<SearchResult>, threshold: real, v: real)
    ensures WithScore(AtLeast(SortByScore(final), threshold), v) == WithScore(AtLeast(final, threshold), v)
  {
    AtLeastWithScore(SortByScore(final), threshold, v);
    AtLeastWithScore(final, threshold, v);
    SortStable(final, v);
  }

  lemma SelectionCount(final: seq<SearchResult>, threshold: real, topK: int)
    ensures |Take(AtLeast(SortByScore(final), threshold), topK)| == |Take(AtLeast(final, threshold), topK)|
  {
    AtLeastSameCount(SortByScore(final), final, threshold);
  }

  lemma SelectionStable(final: seq<SearchResult>, threshold: real, topK: int)
    ensures forall v :: WithScore(Take(AtLeast(SortByScore(final), threshold), topK), v) <=
                        WithScore(AtLeast(final, threshold), v)
  {
    forall v ensures WithScore(Take(AtLeast(SortByScore(final), threshold), topK), v) <=
                     WithScore(AtLeast(final, threshold), v)
    {
      StableAt(final, threshold, topK, v);
    }
  }

  lemma StableAt(final: seq<SearchResult>, threshold: real, topK: int, v: real)
    ensures WithScore(Take(AtLeast(SortByScore(final), threshold), topK), v) <=
            WithScore(AtLeast(final, threshold), v)
  {
    TakeLevels(AtLeast(SortByScore(final), threshold), topK, v);
    SortedLevels(final, threshold, v);
  }

  /** A prefix lists, at every score, a prefix of the results with that score. */
  lemma TakeLevels(s: seq<SearchResult>, n: int, v: real)
    ensures WithScore(Take(s, n), v) <= WithScore(s, v)
  {
    var r := Take(s, n);
    assert s == r + s[|r|..];
    WithScoreAppend(r, s[|r|..], v);
  }

  lemma SelectionCutOff(final: seq<SearchResult>, threshold: real, topK: int)
    ensures var r := Take(AtLeast(SortByScore(final), threshold), topK);
            0 <= topK ==> forall v :: |WithScore(r, v)| < |WithScore(AtLeast(final, threshold), v)| ==>
              |r| == topK && forall k :: 0 <= k < |r| ==> r[k].score >= v
  {
    var sorted := SortByScore(final);
    var passing := AtLeast(sorted, threshold);
    var r := Take(passing, topK);
    AtLeastSortedPrefix(sorted, threshold);
    SortedPrefix(sorted, |passing|);
    forall v | 0 <= topK && |WithScore(r, v)| < |WithScore(AtLeast(final, threshold), v)|
      ensures |r| == topK && forall k :: 0 <= k < |r| ==> r[k].score >= v
    {
      SortedLevels(final, threshold, v);
      CutOffAt(passing, topK, v);
    }
  }

  /** For any `top_k`, negative included, a passing score level is cut short only by results
      scoring at least as high. */
  lemma SelectionCutOffAnyTopK(final: seq<SearchResult>, threshold: real, topK: int)
    ensures var r := Take(AtLeast(SortByScore(final), threshold), topK);
            forall v :: |WithScore(r, v)| < |WithScore(AtLeast(final, threshold), v)| ==>
              forall k :: 0 <= k < |r| ==> r[k].score >= v
  {
    var sorted := SortByScore(final);
    var passing := AtLeast(sorted, threshold);
    var r := Take(passing, topK);
    AtLeastSortedPrefix(sorted, threshold);
    SortedPrefix(sorted, |passing|);
    assert Take(passing, |r|) == r;
    forall v | |WithScore(r, v)| < |WithScore(AtLeast(final, threshold), v)|
      ensures forall k :: 0 <= k < |r| ==> r[k].score >= v
    {
      SortedLevels(final, threshold, v);
      CutOffAt(passing, |r|, v);
    }
  }

  /** For any `top_k`, negative included, a passing result is missing only when every
      returned result scores at least as high. */
  lemma SelectionBeatsMissing(final: seq<SearchResult>, threshold: real, topK: int)
    ensures var r := Take(AtLeast(SortByScore(final), threshold), topK);
            forall x :: x in final && x.score >= threshold && x !in r ==>
              forall k :: 0 <= k < |r| ==> r[k].score >= x.score
  {
    var r := Take(AtLeast(SortByScore(final), threshold), topK);
    forall x | x in final && x.score >= threshold && x !in r
      ensures forall k :: 0 <= k < |r| ==> r[k].score >= x.score
    {
      BeatsMissingAt(final, threshold, topK, x);
    }
  }

  lemma BeatsMissingAt(final: seq<SearchResult>, threshold: real, topK: int, x: SearchResult)
    requires x in final && x.score >= threshold
    requires x !in Take(AtLeast(SortByScore(final), threshold), topK)
    ensures var r := Take(AtLeast(SortByScore(final), threshold), topK);
            forall k :: 0 <= k < |r| ==> r[k].score >= x.score
  {
    var sorted := SortByScore(final);
    var passing := AtLeast(sorted, threshold);
    var r := Take(passing, topK);
    AtLeastSortedPrefix(sorted, threshold);
    SortedPrefix(sorted, |passing|);
    AtLeastCounts(sorted, threshold);
    assert x in multiset(sorted);
    assert x in multiset(passing);
    var j :| 0 <= j < |passing| && passing[j] == x;
    PrefixBelow(passing, |r|, j);
  }

  /** In a descending list, an element outside a prefix scores no more than the prefix. */
  lemma PrefixBelow(s: seq<SearchResult>, n: nat, j: int)
    requires SortedByScore(s) && n <= |s| && 0 <= j < |s|
    requires s[j] !in s[..n]
    ensures forall k :: 0 <= k < n ==> s[k].score >= s[j].score
  {
  }

  /** In a descending list, a prefix that leaves out some result scoring `v` is `n` long
      and scores at least `v` throughout. */
  lemma CutOffAt(s: seq<SearchResult>, n: nat, v: real)
    requires SortedByScore(s)
    requires |WithScore(Take(s, n), v)| < |WithScore(s, v)|
    ensures |Take(s, n)| == n && forall k :: 0 <= k < n ==> Take(s, n)[k].score >= v
  {
    var r := Take(s, n);
    var cut := s[|r|..];
    assert s == r + cut;
    WithScoreAppend(r, cut, v);
    WithScoreFound(cut, v);
    var j :| 0 <= j < |cut| && cut[j].score == v;
    assert s[|r| + j].score == v;
    assert forall k :: 0 <= k < |r| ==> r[k] == s[k];
  }

  /** The final selection is never longer than the Tier-3 output. */
  lemma SelectionLength(final: seq<SearchResult>, threshold: real, topK: int)
    ensures |FinalSelection(final, threshold, topK)| <= |final|
  {
    var sorted := SortByScore(final);
    assert |sorted| == |final| by {
      assert |multiset(sorted)| == |multiset(final)|;
    }
  }

  lemma SortedPrefix(s: seq<SearchResult>, n: nat)
    requires SortedByScore(s) && n <= |s|
    ensures SortedByScore(s[..n])
  {
    assert forall i :: 0 <= i < n ==> s[..n][i] == s[i];
  }

  lemma SelectionSorted(final: seq<SearchResult>, threshold: real, topK: int)
    ensures SortedByScore(Take(AtLeast(SortByScore(final), threshold), topK))
  {
    var sorted := SortByScore(final);
    var passing := AtLeast(sorted, threshold);
    AtLeastSortedPrefix(sorted, threshold);
    SortedPrefix(sorted, |passing|);
    SortedPrefix(passing, |Take(passing, topK)|);
  }

  lemma SelectionSubmultiset(final: seq<SearchResult>, threshold: real, topK: int)
    ensures multiset(Take(AtLeast(SortByScore(final), threshold), topK)) <= multiset(final)
  {
    var sorted := SortByScore(final);
    var passing := AtLeast(sorted, threshold);
    var r := Take(passing, topK);
    assert passing == r + passing[|r|..];
    AtLeastCounts(sorted, threshold);
    assert multiset(passing) <= multiset(sorted);
  }

  /** In a descending list, an element past a prefix scores no more than the prefix. */
  lemma PrefixDominates(passing: seq<SearchResult>, topK: nat, j: int)
    requires SortedByScore(passing) && 0 <= j < |passing|
    requires passing[j] !in Take(passing, topK)
    ensures |Take(passing, topK)| == topK
    ensures forall k :: 0 <= k < topK ==> passing[k].score >= passing[j].score
  {
  }

  lemma SelectionKeepsBest(final: seq<SearchResult>, threshold: real, topK: int)
    ensures var r := Take(AtLeast(SortByScore(final), threshold), topK);
            0 <= topK ==> forall x :: x in final && x.score >= threshold && x !in r ==>
              |r| == topK && forall k :: 0 <= k < |r| ==> r[k].score >= x.score
  {
    var r := Take(AtLeast(SortByScore(final), threshold), topK);
    forall x | 0 <= topK && x in final && x.score >= threshold && x !in r
      ensures |r| == topK && forall k :: 0 <= k < |r| ==> r[k].score >= x.score
    {
      KeepsBestAt(final, threshold, topK, x);
    }
  }

  lemma KeepsBestAt(final: seq<SearchResult>, threshold: real, topK: nat, x: SearchResult)
    requires x in final && x.score >= threshold
    requires x !in Take(AtLeast(SortByScore(final), threshold), topK)
    ensures var r := Take(AtLeast(SortByScore(final), threshold), topK);
            |r| == topK && forall k :: 0 <= k < |r| ==> r[k].score >= x.score
  {
    var sorted := SortByScore(final);
    var passing := AtLeast(sorted, threshold);
    AtLeastSortedPrefix(sorted, threshold);
    SortedPrefix(sorted, |passing|);
    AtLeastCounts(sorted, threshold);
    assert x in multiset(sorted);
    assert x in multiset(passing);
    var j :| 0 <= j < |passing| && passing[j] == x;
    PrefixDominates(passing, topK, j);
  }

  lemma SelectionEmpty(final: seq<SearchResult>, threshold: real, topK: int)
    ensures (forall k :: 0 <= k < |final| ==> final[k].score < threshold) ==>
              Take(AtLeast(SortByScore(final), threshold), topK) == []
  {
    if forall k :: 0 <= k < |final| ==> final[k].score < threshold {
      SelectionEmptyWhenNoneClears(final, threshold, topK);
    }
  }

  lemma SelectionEmptyWhenNoneClears(final: seq<SearchResult>, threshold: real, topK: int)
    requires forall k :: 0 <= k < |final| ==> final[k].score < threshold
    ensures Take(AtLeast(SortByScore(final), threshold), topK) == []
  {
    var passing := AtLeast(SortByScore(final), threshold);
    AtLeastCounts(SortByScore(final), threshold);
    assert forall x: SearchResult :: x.score >= threshold ==> x !in multiset(final);
    assert multiset(passing) == multiset{};
  }
}
