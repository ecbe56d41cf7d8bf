/** Mapping a reranking LLM's ranked list back onto the candidates it was shown
    (the loops of `TextReranker.rerank` and `MultimodalReranker.rerank`). */
module RerankReply {
  import opened Wrappers
  import opened Results

  /** The key a stage reads from each ranked entry: Tier 2 reads `score` (0-10),
      Tier 3 reads `confidence` (0-1). */
  datatype Key = Score | Confidence

  function Reading(e: RankedClip, key: Key): Option<real> {
    match key
    case Score => e.score
    case Confidence => e.confidence
  }

  /** The value a stage writes into `SearchResult.score`: Tier 2 divides the score by 10,
      Tier 3 copies the confidence unchanged (it is not clamped to [0, 1]). */
  function Written(e: RankedClip, key: Key): Option<real> {
    match Reading(e, key)
    case None => None
    case Some(v) => Some(if key == Score then v / 10.0 else v)
  }

  /** Processing the entry raises KeyError: it has no `clip_id`, or it names a known
      candidate but lacks the key the stage reads. An unknown id is skipped before its
      value is looked at. */
  predicate Raises(e: RankedClip, known: set<ChunkId>, key: Key) {
    e.clipId.None? || (e.clipId.value in known && Reading(e, key).None?)
  }

  predicate Names(entries: seq<RankedClip>, id: ChunkId) {
    exists i :: 0 <= i < |entries| && entries[i].clipId == Some(id)
  }

  /** Reference definition of which ids survive: the entries' ids that are known, in the
      LLM's order; unknown ids are dropped. */
  function KnownIds(entries: seq<RankedClip>, known: set<ChunkId>): (ids: seq<ChunkId>)
    ensures |ids| <= |entries|
    ensures forall k :: 0 <= k < |ids| ==> ids[k] in known && Names(entries, ids[k])
    ensures forall id :: id in known && Names(entries, id) ==> id in ids
    decreases |entries|
  {
    if |entries| == 0 then []
    else
      var e := entries[0];
      var rest := KnownIds(entries[1..], known);
      NamesCons(entries);
      if e.clipId.Some? && e.clipId.value in known then [e.clipId.value] + rest else rest
  }

  /** Entry `i` is the last one naming `id`. */
  predicate LastNaming(entries: seq<RankedClip>, i: int, id: ChunkId)
    requires 0 <= i < |entries|
  {
    entries[i].clipId == Some(id) && forall j :: i < j < |entries| ==> entries[j].clipId != Some(id)
  }

  /** `v` is what the last entry naming `id` writes: because every output element with one
      id is the same Python object, this is the score all of them end up with. */
  predicate LastWriteIs(entries: seq<RankedClip>, id: ChunkId, key: Key, v: real) {
    exists i :: 0 <= i < |entries| && LastNaming(entries, i, id) && Written(entries[i], key) == Some(v)
  }

  /** The loop's state: the ids appended to `reranked_results` so far, and the score
      each candidate object carries after the writes so far. */
  datatype Tally = Tally(picked: seq<ChunkId>, scores: map<ChunkId, real>)

  /** The `for ranked_clip in ...` loop over `entries`, from state `t`; `None` when an entry
      raises. */
  function Loop(entries: seq<RankedClip>, known: set<ChunkId>, key: Key, t: Tally): (r: Option<Tally>)
    ensures r.None? <==> exists i :: 0 <= i < |entries| && Raises(entries[i], known, key)
    ensures r.Some? ==> r.value.picked == t.picked + KnownIds(entries, known)
    ensures r.Some? ==> forall id :: id in known && Names(entries, id) ==>
                          id in r.value.scores && LastWriteIs(entries, id, key, r.value.scores[id])
    ensures r.Some? ==> forall id :: !(id in known && Names(entries, id)) ==>
                          (id in r.value.scores <==> id in t.scores) &&
                          (id in t.scores ==> r.value.scores[id] == t.scores[id])
    decreases |entries|
  {
    if |entries| == 0 then Some(t)
    else
      var e := entries[0];
      NamesCons(entries);
      RaisesCons(entries, known, key);
      if Raises(e, known, key) then None
      else
        var t' := if e.clipId.value in known
                  then Tally(t.picked + [e.clipId.value], t.scores[e.clipId.value := Written(e, key).value])
                  else t;
        var r := Loop(entries[1..], known, key, t');
        LastWriteCons(entries, key);
        r
  }

  lemma NamesCons(entries: seq<RankedClip>)
    requires 0 < |entries|
    ensures forall id :: Names(entries, id) <==> entries[0].clipId == Some(id) || Names(entries[1..], id)
  {
    forall id | Names(entries, id)
      ensures entries[0].clipId == Some(id) || Names(entries[1..], id)
    {
      var i :| 0 <= i < |entries| && entries[i].clipId == Some(id);
      if 0 < i {
        assert entries[1..][i - 1] == entries[i];
      }
    }
    forall id | Names(entries[1..], id)
      ensures Names(entries, id)
    {
      var i :| 0 <= i < |entries[1..]| && entries[1..][i].clipId == Some(id);
      assert entries[i + 1] == entries[1..][i];
    }
  }

  lemma RaisesCons(entries: seq<RankedClip>, known: set<ChunkId>, key: Key)
    requires 0 < |entries|
    ensures (exists i :: 0 <= i < |entries| && Raises(entries[i], known, key)) <==>
            Raises(entries[0], known, key) || exists i :: 0 <= i < |entries[1..]| && Raises(entries[1..][i], known, key)
  {
    if exists i :: 0 <= i < |entries| && Raises(entries[i], known, key) {
      var i :| 0 <= i < |entries| && Raises(entries[i], known, key);
      if 0 < i {
        assert entries[1..][i - 1] == entries[i];
      }
    }
    if exists i :: 0 <= i < |entries[1..]| && Raises(entries[1..][i], known, key) {
      var i :| 0 <= i < |entries[1..]| && Raises(entries[1..][i], known, key);
      assert entries[i + 1] == entries[1..][i];
    }
  }

  /** The last write for an id is made by the first entry only if no later entry names it. */
  lemma LastWriteCons(entries: seq<RankedClip>, key: Key)
    requires 0 < |entries|
    ensures forall id, v :: LastWriteIs(entries[1..], id, key, v) ==> LastWriteIs(entries, id, key, v)
    ensures forall id :: entries[0].clipId == Some(id) && !Names(entries[1..], id) && Written(entries[0], key).Some? ==>
                           LastWriteIs(entries, id, key, Written(entries[0], key).value)
  {
    var rest := entries[1..];
    forall id, v | LastWriteIs(rest, id, key, v)
      ensures LastWriteIs(entries, id, key, v)
    {
      var i :| 0 <= i < |rest| && LastNaming(rest, i, id) && Written(rest[i], key) == Some(v);
      assert entries[i + 1] == rest[i];
      forall j | i + 1 < j < |entries|
        ensures entries[j].clipId != Some(id)
      {
        assert entries[j] == rest[j - 1];
      }
      assert LastNaming(entries, i + 1, id);
    }
    forall id | entries[0].clipId == Some(id) && !Names(rest, id) && Written(entries[0], key).Some?
      ensures LastWriteIs(entries, id, key, Written(entries[0], key).value)
    {
      forall j | 0 < j < |entries|
        ensures entries[j].clipId != Some(id)
      {
        assert entries[j] == rest[j - 1];
      }
      assert LastNaming(entries, 0, id);
    }
  }

  /** The candidate objects in `reranked_results`, each carrying its final score. */
  function Realise(t: Tally, m: map<ChunkId, SearchResult>): (r: seq<SearchResult>)
    requires forall k :: 0 <= k < |t.picked| ==> t.picked[k] in m && t.picked[k] in t.scores
    ensures |r| == |t.picked|
    ensures forall k :: 0 <= k < |r| ==> r[k] == m[t.picked[k]].(score := t.scores[t.picked[k]])
  {
    seq(|t.picked|, k requires 0 <= k < |t.picked| => m[t.picked[k]].(score := t.scores[t.picked[k]]))
  }

  /** The body of both stages' `try` blocks: build the `chunk_id` map, run the loop over
      the entries, return the list.
      `None` when the loop raises, which sends the stage to its fallback. On success the
      output follows the LLM's order, keeps exactly the entries naming a candidate, takes
      each element from the candidates with only its score rewritten, and gives it the
      score the last entry naming it wrote. */
  function MapBack(candidates: seq<SearchResult>, entries: seq<RankedClip>, key: Key)
    : (r: Option<seq<SearchResult>>)
    ensures r.None? <==> exists i :: 0 <= i < |entries| && Raises(entries[i], Ids(candidates), key)
    ensures r.Some? ==> ChunkIds(r.value) == KnownIds(entries, Ids(candidates))
    ensures r.Some? ==> forall k :: 0 <= k < |r.value| ==>
                          r.value[k].chunkId in ClipMap(candidates) &&
                          Rescored(r.value[k], ClipMap(candidates)[r.value[k].chunkId])
    ensures r.Some? ==> forall k :: 0 <= k < |r.value| ==>
                          LastWriteIs(entries, r.value[k].chunkId, key, r.value[k].score)
    ensures r.Some? ==> DrawnFrom(r.value, candidates)
    ensures r.Some? && Coherent(candidates) ==> Coherent(r.value)
  {
    var m := ClipMap(candidates);
    match Loop(entries, m.Keys, key, Tally([], map[]))
    case None => None
    case Some(t) =>
      RealiseIds(candidates, entries, key, t);
      RealiseDrawn(candidates, t);
      RealiseCoherent(candidates, t);
      Some(Realise(t, m))
  }

  lemma RealiseCoherent(candidates: seq<SearchResult>, t: Tally)
    requires forall k :: 0 <= k < |t.picked| ==> t.picked[k] in ClipMap(candidates) && t.picked[k] in t.scores
    ensures Coherent(candidates) ==> Coherent(Realise(t, ClipMap(candidates)))
  {
    var m := ClipMap(candidates);
    var out := Realise(t, m);
    if Coherent(candidates) {
      forall k, l | 0 <= k < |out| && 0 <= l < |out| && out[k].obj == out[l].obj
        ensures out[k] == out[l]
      {
        assert LastOfId(candidates, |candidates|, m[t.picked[k]]);
        assert LastOfId(candidates, |candidates|, m[t.picked[l]]);
        var i :| 0 <= i < |candidates| && candidates[i] == m[t.picked[k]];
        var i' :| 0 <= i' < |candidates| && candidates[i'] == m[t.picked[l]];
        assert candidates[i].obj == candidates[i'].obj;
      }
    }
  }

  /** The index of the first entry that raises, or the number of entries when none does:
      the entries before it are the ones whose writes take effect. */
  function FirstRaise(entries: seq<RankedClip>, known: set<ChunkId>, key: Key): (n: nat)
    ensures n <= |entries|
    ensures forall i :: 0 <= i < n ==> !Raises(entries[i], known, key)
    ensures n < |entries| ==> Raises(entries[n], known, key)
    decreases |entries|
  {
    if |entries| == 0 || Raises(entries[0], known, key) then 0
    else
      var n := 1 + FirstRaise(entries[1..], known, key);
      assert forall i :: 0 < i < |entries| ==> entries[i] == entries[1..][i - 1];
      n
  }

  /** The candidates after the writes in `scores`: the object `clip_map[id]` holds for a
      written `id` shows the written score, at every position where it appears. */
  function Touch(candidates: seq<SearchResult>, scores: map<ChunkId, real>): (r: seq<SearchResult>)
    ensures |r| == |candidates|
    ensures forall i :: 0 <= i < |r| ==> Rescored(r[i], candidates[i])
  {
    var m := ClipMap(candidates);
    seq(|candidates|, i requires 0 <= i < |candidates| =>
      var c := candidates[i];
      if c.chunkId in scores && c.chunkId in m && m[c.chunkId].obj == c.obj
      then c.(score := scores[c.chunkId]) else c)
  }

  /** The same `try` body when an entry raises: the loop stops there, but the scores
      already written stay on the candidate objects the fallback hands back. An object shows
      the last write made before the raising entry to the id it is `clip_map`'s value for;
      every other element is untouched. */
  function Touched(candidates: seq<SearchResult>, entries: seq<RankedClip>, key: Key)
    : (r: seq<SearchResult>)
    ensures |r| == |candidates|
    ensures forall i :: 0 <= i < |r| ==> Rescored(r[i], candidates[i])
    ensures ShowsWrites(candidates, entries[..FirstRaise(entries, Ids(candidates), key)], key, r)
    ensures Coherent(candidates) ==> Coherent(r)
  {
    var m := ClipMap(candidates);
    var read := entries[..FirstRaise(entries, m.Keys, key)];
    var t := Loop(read, m.Keys, key, Tally([], map[])).value;
    TouchWrites(candidates, read, key, t);
    TouchCoherent(candidates, t.scores);
    Touch(candidates, t.scores)
  }

  /** `r` is the candidate list after the writes of the entries `read`: an element that is
      `clip_map`'s object for an id named in `read` shows the last write to that id, and
      every other element is unchanged. */
  predicate ShowsWrites(candidates: seq<SearchResult>, read: seq<RankedClip>, key: Key, r: seq<SearchResult>) {
    |r| == |candidates| &&
    forall i :: 0 <= i < |r| ==>
      candidates[i].chunkId in ClipMap(candidates) &&
      if Names(read, candidates[i].chunkId) && ClipMap(candidates)[candidates[i].chunkId].obj == candidates[i].obj
      then LastWriteIs(read, candidates[i].chunkId, key, r[i].score)
      else r[i] == candidates[i]
  }

  /** When the very first entry raises, the fallback sees the candidates as they were. */
  lemma TouchedNothing(candidates: seq<SearchResult>, entries: seq<RankedClip>, key: Key)
    requires FirstRaise(entries, Ids(candidates), key) == 0
    ensures Touched(candidates, entries, key) == candidates
  {
    var r := Touched(candidates, entries, key);
    assert entries[..0] == [];
    forall i | 0 <= i < |r|
      ensures r[i] == candidates[i]
    {
      assert !Names(entries[..0], candidates[i].chunkId);
    }
  }

  /** An object shows one state after the writes as before. */
  lemma TouchCoherent(candidates: seq<SearchResult>, scores: map<ChunkId, real>)
    ensures Coherent(candidates) ==> Coherent(Touch(candidates, scores))
  {
  }

  lemma TouchWrites(candidates: seq<SearchResult>, read: seq<RankedClip>, key: Key, t: Tally)
    requires Loop(read, Ids(candidates), key, Tally([], map[])) == Some(t)
    ensures ShowsWrites(candidates, read, key, Touch(candidates, t.scores))
  {
    var m := ClipMap(candidates);
    var r := Touch(candidates, t.scores);
    forall i | 0 <= i < |candidates|
      ensures candidates[i].chunkId in m
      ensures if Names(read, candidates[i].chunkId) && m[candidates[i].chunkId].obj == candidates[i].obj
              then LastWriteIs(read, candidates[i].chunkId, key, r[i].score)
              else r[i] == candidates[i]
    {
      var id := candidates[i].chunkId;
      assert candidates[i] in candidates;
      assert id in Ids(candidates);
      if !Names(read, id) {
        assert id !in t.scores;
      }
    }
  }

  lemma RealiseIds(candidates: seq<SearchResult>, entries: seq<RankedClip>, key: Key, t: Tally)
    requires Loop(entries, Ids(candidates), key, Tally([], map[])) == Some(t)
    ensures forall k :: 0 <= k < |t.picked| ==> t.picked[k] in ClipMap(candidates) && t.picked[k] in t.scores
    ensures ChunkIds(Realise(t, ClipMap(candidates))) == KnownIds(entries, Ids(candidates))
  {
    PickedKnown(candidates, entries, key, t);
    RealisedIds(t, ClipMap(candidates));
  }

  /** Realising a tally keeps its ids in order. */
  lemma RealisedIds(t: Tally, m: map<ChunkId, SearchResult>)
    requires forall k :: 0 <= k < |t.picked| ==> t.picked[k] in m && t.picked[k] in t.scores
    requires forall id :: id in m ==> m[id].chunkId == id
    ensures ChunkIds(Realise(t, m)) == t.picked
  {
    var out := Realise(t, m);
    forall k | 0 <= k < |out|
      ensures ChunkIds(out)[k] == t.picked[k]
    {
      assert out[k] == m[t.picked[k]].(score := t.scores[t.picked[k]]);
    }
  }

  /** The loop picks exactly the known ids, and gives each a score. */
  lemma PickedKnown(candidates: seq<SearchResult>, entries: seq<RankedClip>, key: Key, t: Tally)
    requires Loop(entries, Ids(candidates), key, Tally([], map[])) == Some(t)
    ensures t.picked == KnownIds(entries, Ids(candidates))
    ensures forall k :: 0 <= k < |t.picked| ==> t.picked[k] in ClipMap(candidates) && t.picked[k] in t.scores
  {
    var known := Ids(candidates);
    var ids := KnownIds(entries, known);
    assert t.picked == ids by {
      assert t.picked == [] + ids;
    }
    forall k | 0 <= k < |t.picked|
      ensures t.picked[k] in ClipMap(candidates) && t.picked[k] in t.scores
    {
      assert ids[k] in known && Names(entries, ids[k]);
    }
  }

  lemma RealiseDrawn(candidates: seq<SearchResult>, t: Tally)
    requires forall k :: 0 <= k < |t.picked| ==> t.picked[k] in ClipMap(candidates) && t.picked[k] in t.scores
    ensures DrawnFrom(Realise(t, ClipMap(candidates)), candidates)
  {
    var m := ClipMap(candidates);
    var out := Realise(t, m);
    forall k | 0 <= k < |out|
      ensures ComesFrom(out[k], candidates)
    {
      assert LastOfId(candidates, |candidates|, m[t.picked[k]]);
      var i :| 0 <= i < |candidates| && candidates[i] == m[t.picked[k]];
      assert Rescored(out[k], candidates[i]);
    }
  }

  /** No two entries name the same clip. */
  predicate DistinctClipIds(entries: seq<RankedClip>) {
    forall i, j :: 0 <= i < j < |entries| && entries[i].clipId.Some? ==> entries[i].clipId != entries[j].clipId
  }

  /** A repeated id is kept each time, so the output can be longer than the candidate list:
      the same object appears twice, with the confidence the later entry wrote. */
  lemma RepeatedIdRepeatsClip(c: SearchResult)
    ensures var e1 := RankedClip(Some(c.chunkId), None, Some(0.5));
            var e2 := RankedClip(Some(c.chunkId), None, Some(0.9));
            MapBack([c], [e1, e2], Confidence) == Some([c.(score := 0.9), c.(score := 0.9)])
  {
    var e1 := RankedClip(Some(c.chunkId), None, Some(0.5));
    var e2 := RankedClip(Some(c.chunkId), None, Some(0.9));
    assert ClipMap([c]) == map[c.chunkId := c] by {
      assert [c][..0] == [];
    }
    var id := c.chunkId;
    var known := {id};
    assert Ids([c]) == known;
    var t2 := Tally([id, id], map[id := 0.9]);
    assert Loop([], known, Confidence, t2) == Some(t2);
    assert Loop([e2], known, Confidence, Tally([id], map[id := 0.5])) == Some(t2) by {
      assert [e2][1..] == [];
      assert !Raises(e2, known, Confidence) && Written(e2, Confidence) == Some(0.9);
      assert [id] + [id] == [id, id];
      assert map[id := 0.5][id := 0.9] == map[id := 0.9];
    }
    assert Loop([e1, e2], known, Confidence, Tally([], map[])) == Some(t2) by {
      assert [e1, e2][1..] == [e2];
      assert !Raises(e1, known, Confidence) && Written(e1, Confidence) == Some(0.5);
      assert [] + [id] == [id];
      assert map[][id := 0.5] == map[id := 0.5];
    }
    assert Realise(t2, map[id := c]) == [c.(score := 0.9), c.(score := 0.9)];
  }

  /** Without repeated ids, at most one entry survives per known candidate id. */
  lemma KnownIdsDistinct(entries: seq<RankedClip>, known: set<ChunkId>)
    requires DistinctClipIds(entries)
    ensures forall i, j :: 0 <= i < j < |KnownIds(entries, known)| ==>
              KnownIds(entries, known)[i] != KnownIds(entries, known)[j]
    ensures |KnownIds(entries, known)| <= |known|
  {
    KnownIdsNoRepeats(entries, known);
    var ids := KnownIds(entries, known);
    KnownIdsCard(entries, known);
    var elems := set id | id in ids;
    assert elems <= known;
    SubsetCard(elems, known);
  }

  lemma {:induction false} KnownIdsNoRepeats(entries: seq<RankedClip>, known: set<ChunkId>)
    requires DistinctClipIds(entries)
    ensures forall i, j :: 0 <= i < j < |KnownIds(entries, known)| ==>
              KnownIds(entries, known)[i] != KnownIds(entries, known)[j]
    decreases |entries|
  {
    if 0 < |entries| {
      var rest := entries[1..];
      assert DistinctClipIds(rest) by {
        forall i, j | 0 <= i < j < |rest| && rest[i].clipId.Some?
          ensures rest[i].clipId != rest[j].clipId
        {
          assert rest[i] == entries[i + 1] && rest[j] == entries[j + 1];
        }
      }
      KnownIdsNoRepeats(rest, known);
      var tail := KnownIds(rest, known);
      assert forall i, j :: 0 <= i < j < |tail| ==> tail[i] != tail[j];
      var e := entries[0];
      if e.clipId.Some? && e.clipId.value in known {
        var id := e.clipId.value;
        assert id !in tail;
        var ids := [id] + tail;
        assert KnownIds(entries, known) == ids;
        forall i, j | 0 <= i < j < |ids| ensures ids[i] != ids[j]
        {
          assert ids[j] == tail[j - 1] && tail[j - 1] in tail;
          if 0 < i {
            assert ids[i] == tail[i - 1];
          }
        }
      } else {
        assert KnownIds(entries, known) == tail;
      }
    }
  }

  lemma {:induction false} KnownIdsCard(entries: seq<RankedClip>, known: set<ChunkId>)
    requires DistinctClipIds(entries)
    ensures |set id | id in KnownIds(entries, known)| == |KnownIds(entries, known)|
    decreases |entries|
  {
    if 0 < |entries| {
      var rest := entries[1..];
      assert DistinctClipIds(rest) by {
        forall i, j | 0 <= i < j < |rest| && rest[i].clipId.Some?
          ensures rest[i].clipId != rest[j].clipId
        {
          assert rest[i] == entries[i + 1] && rest[j] == entries[j + 1];
        }
      }
      KnownIdsCard(rest, known);
      var e := entries[0];
      if e.clipId.Some? && e.clipId.value in known {
        var id := e.clipId.value;
        var tail := KnownIds(rest, known);
        assert id !in tail;
        assert (set x | x in [id] + tail) == {id} + (set x | x in tail);
      }
    }
  }

  lemma SubsetCard<T>(a: set<T>, b: set<T>)
    requires a <= b
    ensures |a| <= |b|
  {
    assert b == a + (b - a);
  }
}
