/** The records the search pipeline passes between its stages. */
module Results {
  import opened Wrappers
  import opened PySlice

  type ChunkId = string

  type FramePath = string

  /** One candidate video segment with the score the latest stage gave it: the fused rank
      score after Tier 1, the LLM relevance divided by 10 after Tier 2, the LLM confidence
      after Tier 3. Times are in seconds. The stages rewrite `score` in place and pass the
      same objects on, so a result also carries its object identity `obj` (Python's
      `id(result)`): two list elements with equal `obj` are one object. */
  datatype SearchResult = SearchResult(
    obj: nat,
    chunkId: ChunkId,
    videoId: string,
    startTime: real,
    endTime: real,
    visualDescription: string,
    audioTranscript: string,
    score: real)

  /** One element of a reranking LLM's ranked list, as parsed JSON. A missing key is `None`;
      so is an unhashable `clip_id` (the `in clip_map` test raises) and a `score` that is not
      a number (the division raises). A hashable `clip_id` that is not a string is `Some` of
      an id no candidate carries: the loop skips it. */
  datatype RankedClip = RankedClip(clipId: Option<ChunkId>, score: Option<real>, confidence: Option<real>)

  /** `r` is the candidate `c` with at most its score rewritten. */
  predicate Rescored(r: SearchResult, c: SearchResult) {
    r == c.(score := r.score)
  }

  /** `r` is some element of `src` with at most its score rewritten. */
  predicate ComesFrom(r: SearchResult, src: seq<SearchResult>) {
    exists j :: 0 <= j < |src| && Rescored(r, src[j])
  }

  /** Every element of `out` is an element of `src` with at most its score rewritten:
      no chunk is invented and no descriptive field changes. */
  predicate DrawnFrom(out: seq<SearchResult>, src: seq<SearchResult>) {
    forall i :: 0 <= i < |out| ==> ComesFrom(out[i], src)
  }

  /** Every object shows one state wherever it appears in the list. */
  predicate Coherent(s: seq<SearchResult>) {
    forall i, j :: 0 <= i < |s| && 0 <= j < |s| && s[i].obj == s[j].obj ==> s[i] == s[j]
  }

  /** The chunk ids present among the candidates. */
  function Ids(s: seq<SearchResult>): set<ChunkId> {
    set c | c in s :: c.chunkId
  }

  /** The chunk ids of the candidates, in order. */
  function ChunkIds(s: seq<SearchResult>): (ids: seq<ChunkId>)
    ensures |ids| == |s| && forall i :: 0 <= i < |s| ==> ids[i] == s[i].chunkId
  {
    seq(|s|, i requires 0 <= i < |s| => s[i].chunkId)
  }

  /** `c` is, among the first `n` candidates, the last one carrying its id. */
  predicate LastOfId(candidates: seq<SearchResult>, n: int, c: SearchResult)
    requires 0 <= n <= |candidates|
  {
    exists i :: 0 <= i < n && candidates[i] == c && forall j :: i < j < n ==> candidates[j].chunkId != c.chunkId
  }

  /** The dictionary `{clip.chunk_id: clip for clip in candidates}`: its keys are exactly the
      candidates' ids, and for a repeated id the later candidate overwrites the earlier one. */
  function ClipMap(candidates: seq<SearchResult>): (m: map<ChunkId, SearchResult>)
    ensures m.Keys == Ids(candidates)
    ensures forall id :: id in m ==> m[id].chunkId == id && LastOfId(candidates, |candidates|, m[id])
  {
    var m := ClipMapUpTo(candidates, |candidates|);
    assert m.Keys == Ids(candidates) by {
      forall id | id in Ids(candidates)
        ensures id in m.Keys
      {
        var c :| c in candidates && c.chunkId == id;
        var i :| 0 <= i < |candidates| && candidates[i] == c;
      }
    }
    m
  }

  /** The dictionary built from the first `n` candidates. */
  function ClipMapUpTo(candidates: seq<SearchResult>, n: nat): (m: map<ChunkId, SearchResult>)
    requires n <= |candidates|
    ensures m.Keys == set i | 0 <= i < n :: candidates[i].chunkId
    ensures forall id :: id in m ==> m[id].chunkId == id && LastOfId(candidates, n, m[id])
  {
    if n == 0 then map[]
    else
      var front := ClipMapUpTo(candidates, n - 1);
      ClipMapStep(candidates, n, front);
      front[candidates[n - 1].chunkId := candidates[n - 1]]
  }

  /** Adding candidate `n - 1` to the dictionary of the ones before it. */
  lemma ClipMapStep(candidates: seq<SearchResult>, n: nat, front: map<ChunkId, SearchResult>)
    requires 0 < n <= |candidates|
    requires front.Keys == set i | 0 <= i < n - 1 :: candidates[i].chunkId
    requires forall id :: id in front ==> front[id].chunkId == id && LastOfId(candidates, n - 1, front[id])
    ensures var m := front[candidates[n - 1].chunkId := candidates[n - 1]];
            && m.Keys == (set i | 0 <= i < n :: candidates[i].chunkId)
            && (forall id :: id in m ==> m[id].chunkId == id && LastOfId(candidates, n, m[id]))
  {
    var last := candidates[n - 1];
    var m := front[last.chunkId := last];
    assert m.Keys == (set i | 0 <= i < n :: candidates[i].chunkId) by {
      forall id | id in (set i | 0 <= i < n :: candidates[i].chunkId)
        ensures id in m.Keys
      {
        var i :| 0 <= i < n && candidates[i].chunkId == id;
        if i < n - 1 {
          assert id in front.Keys;
        }
      }
    }
    forall id | id in m
      ensures LastOfId(candidates, n, m[id])
    {
      if id == last.chunkId {
        assert candidates[n - 1] == m[id];
      } else {
        assert LastOfId(candidates, n - 1, front[id]);
        var i :| 0 <= i < n - 1 && candidates[i] == front[id] &&
                 (forall j :: i < j < n - 1 ==> candidates[j].chunkId != id);
        assert candidates[i] == m[id];
      }
    }
  }

  lemma DrawnFromSelf(s: seq<SearchResult>)
    ensures DrawnFrom(s, s)
  {
    forall i | 0 <= i < |s|
      ensures ComesFrom(s[i], s)
    {
      assert Rescored(s[i], s[i]);
    }
  }

  /** A Python prefix of a list is drawn from the list. */
  lemma DrawnFromPrefix(s: seq<SearchResult>, n: nat)
    requires n <= |s|
    ensures DrawnFrom(s[..n], s)
  {
    forall i | 0 <= i < n
      ensures ComesFrom(s[..n][i], s)
    {
      assert Rescored(s[..n][i], s[i]);
    }
  }

  /** Elements taken (in any order, with repeats) from a list are drawn from it. */
  lemma DrawnFromMembers(out: seq<SearchResult>, s: seq<SearchResult>)
    requires forall i :: 0 <= i < |out| ==> out[i] in s
    ensures DrawnFrom(out, s)
  {
    forall i | 0 <= i < |out|
      ensures ComesFrom(out[i], s)
    {
      var j :| 0 <= j < |s| && s[j] == out[i];
      assert Rescored(out[i], s[j]);
    }
  }

  /** Elements taken from a list in which every object shows one state show one state. */
  lemma CoherentMembers(out: seq<SearchResult>, s: seq<SearchResult>)
    requires forall i :: 0 <= i < |out| ==> out[i] in s
    ensures Coherent(s) ==> Coherent(out)
  {
  }

  /** A list that rewrites at most the scores of another, position by position, has its ids
      in the same order and is drawn from it. */
  lemma RescoredInPlace(r: seq<SearchResult>, s: seq<SearchResult>)
    requires |r| == |s| && forall i :: 0 <= i < |r| ==> Rescored(r[i], s[i])
    ensures ChunkIds(r) == ChunkIds(s)
    ensures DrawnFrom(r, s)
  {
    forall i | 0 <= i < |r|
      ensures ComesFrom(r[i], s)
    {
      assert Rescored(r[i], s[i]);
    }
    assert forall i :: 0 <= i < |r| ==> ChunkIds(r)[i] == ChunkIds(s)[i];
  }

  /** A Python prefix of a list in which every object shows one state shows one state. */
  lemma PrefixCoherent(s: seq<SearchResult>, k: int)
    ensures Coherent(s) ==> Coherent(Take(s, k))
  {
    var p := Take(s, k);
    assert forall i :: 0 <= i < |p| ==> p[i] == s[i] && p[i] in s;
    CoherentMembers(p, s);
  }

  /** Rewriting scores twice is rewriting them once. */
  lemma {:induction false} DrawnFromTrans(a: seq<SearchResult>, b: seq<SearchResult>, c: seq<SearchResult>)
    requires DrawnFrom(a, b) && DrawnFrom(b, c)
    ensures DrawnFrom(a, c)
  {
    forall i | 0 <= i < |a|
      ensures ComesFrom(a[i], c)
    {
      assert ComesFrom(a[i], b);
      var j :| 0 <= j < |b| && Rescored(a[i], b[j]);
      assert ComesFrom(b[j], c);
      var k :| 0 <= k < |c| && Rescored(b[j], c[k]);
      assert Rescored(a[i], c[k]);
    }
  }

  /** There are no more distinct ids than candidates. */
  lemma {:induction false} IdsCard(s: seq<SearchResult>)
    ensures |Ids(s)| <= |s|
  {
    if 0 < |s| {
      IdsCard(s[1..]);
      assert Ids(s) == {s[0].chunkId} + Ids(s[1..]) by {
        assert s == [s[0]] + s[1..];
      }
    }
  }
}
