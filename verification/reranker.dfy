/** Tier 2 (`TextReranker.rerank`) and Tier 3 (`MultimodalReranker.rerank`). The LLM calls
    are not modelled; each stage receives the parsed reply it would get. */
module Reranker {
  import opened Wrappers
  import opened PySlice
  import opened Results
  import opened RerankReply
  import opened Frames

  /** What Tier 3 gets back from the multimodal LLM. `Unusable`: the call raised, the text
      is not JSON, the JSON value has no `.get` (is not an object), or its `ranked_clips`
      cannot be iterated (`null`, a number), so the loop raises. `Parsed(None)`: an
      object without a `ranked_clips` key, which `.get("ranked_clips", [])` turns into an
      empty list. */
  datatype MultimodalReply =
    | Unusable
    | Parsed(rankedClips: Option<seq<RankedClip>>)

  /** An exception that escapes Tier 3 because it is raised before the `try`. */
  datatype RerankError = FrameStepDivisionByZero

  /** Tier 2 falls back: there is no usable reply (the call raised, the text is not JSON, or
      the JSON value cannot be sliced), or one of the first `top_k` entries raises. */
  predicate TextReplyFails(candidates: seq<SearchResult>, topK: int, reply: Option<seq<RankedClip>>) {
    reply.None? ||
    var scanned := Take(reply.value, topK);
    exists i :: 0 <= i < |scanned| && Raises(scanned[i], Ids(candidates), Score)
  }

  /** `TextReranker.rerank(query, candidates, top_k)` given the text LLM's parsed reply. */
  function TextRerank(candidates: seq<SearchResult>, topK: int, reply: Option<seq<RankedClip>>)
    : (r: seq<SearchResult>)
    // no candidates: nothing to rank
    ensures |candidates| == 0 ==> r == []
    // few enough candidates: returned unchanged, whatever the reply (no call is made)
    ensures |candidates| <= topK ==> r == candidates
    // fail-open: the Tier-1 prefix, in Tier-1 order; with no usable reply the Tier-1
    // scores, otherwise the scores the entries before the raising one already wrote
    ensures 0 < |candidates| && topK < |candidates| && TextReplyFails(candidates, topK, reply) &&
            (reply.None? || FirstRaise(Take(reply.value, topK), Ids(candidates), Score) == 0) ==>
              r == Take(candidates, topK)
    ensures 0 < |candidates| && topK < |candidates| && TextReplyFails(candidates, topK, reply) && reply.Some? ==>
              r == Take(Touched(candidates, Take(reply.value, topK), Score), topK)
    ensures 0 < |candidates| && topK < |candidates| && TextReplyFails(candidates, topK, reply) ==>
              ChunkIds(r) == ChunkIds(Take(candidates, topK))
    // success: the LLM's order, unknown ids dropped, only the first top_k entries read,
    // each score the (last) LLM score for that id divided by 10
    ensures 0 < |candidates| && topK < |candidates| && !TextReplyFails(candidates, topK, reply) ==>
              var scanned := Take(reply.value, topK);
              && ChunkIds(r) == KnownIds(scanned, Ids(candidates))
              && forall k :: 0 <= k < |r| ==> LastWriteIs(scanned, r[k].chunkId, Score, r[k].score)
    // success: each element is the `clip_map` object for its id (the last candidate
    // carrying it) with only its score rewritten
    ensures 0 < |candidates| && topK < |candidates| && !TextReplyFails(candidates, topK, reply) ==>
              forall k :: 0 <= k < |r| ==>
                r[k].chunkId in ClipMap(candidates) && Rescored(r[k], ClipMap(candidates)[r[k].chunkId])
    // no chunk is invented, no descriptive field changes
    ensures DrawnFrom(r, candidates)
    ensures Coherent(candidates) ==> Coherent(r)
    ensures 0 <= topK ==> |r| <= topK
  {
    if |candidates| == 0 then []
    else if |candidates| <= topK then
      assert Take(candidates, topK) == candidates;
      DrawnFromSelf(candidates);
      Take(candidates, topK)
    else
      var fallback := Take(candidates, topK);
      DrawnFromPrefix(candidates, |fallback|);
      match reply
      case None => fallback
      case Some(entries) =>
        var scanned := Take(entries, topK);
        match MapBack(candidates, scanned, Score)
        case None =>
          if FirstRaise(scanned, Ids(candidates), Score) == 0 then
            TouchedNothing(candidates, scanned, Score);
            TouchedPrefix(candidates, scanned, Score, topK)
          else TouchedPrefix(candidates, scanned, Score, topK)
        case Some(out) => out
  }

  /** `candidates[:top_k]` after the writes the loop made before raising. */
  function TouchedPrefix(candidates: seq<SearchResult>, entries: seq<RankedClip>, key: Key, topK: int)
    : (r: seq<SearchResult>)
    requires topK < |candidates|
    ensures r == Take(Touched(candidates, entries, key), topK)
    ensures ChunkIds(r) == ChunkIds(Take(candidates, topK))
    ensures DrawnFrom(r, candidates)
    ensures Coherent(candidates) ==> Coherent(r)
  {
    var r := Take(Touched(candidates, entries, key), topK);
    var prefix := Take(candidates, topK);
    assert forall i :: 0 <= i < |r| ==> Rescored(r[i], prefix[i]);
    RescoredInPlace(r, prefix);
    DrawnFromPrefix(candidates, |prefix|);
    DrawnFromTrans(r, prefix, candidates);
    PrefixCoherent(Touched(candidates, entries, key), topK);
    r
  }

  /** Tier 3 falls back: there is no usable reply, or one of its entries raises. */
  predicate MultimodalReplyFails(candidates: seq<SearchResult>, reply: MultimodalReply) {
    reply.Unusable? ||
    (reply.rankedClips.Some? &&
     exists i :: 0 <= i < |reply.rankedClips.value| && Raises(reply.rankedClips.value[i], Ids(candidates), Confidence))
  }

  /** The `try` block of `MultimodalReranker.rerank`: the reply mapped back onto the
      candidates, or the candidates unchanged when that fails. */
  function MultimodalFromReply(candidates: seq<SearchResult>, reply: MultimodalReply)
    : (r: seq<SearchResult>)
    // fail-open: the Tier-2 candidates, in Tier-2 order; unchanged when there is no usable
    // reply, otherwise with the confidences the entries before the raising one wrote
    ensures MultimodalReplyFails(candidates, reply) &&
            (reply.Unusable? || FirstRaise(reply.rankedClips.value, Ids(candidates), Confidence) == 0) ==>
              r == candidates
    ensures MultimodalReplyFails(candidates, reply) && reply.Parsed? ==>
              r == Touched(candidates, reply.rankedClips.value, Confidence)
    ensures MultimodalReplyFails(candidates, reply) ==> ChunkIds(r) == ChunkIds(candidates)
    // an object without `ranked_clips` gives an empty list, not the fallback
    ensures reply == Parsed(None) ==> r == []
    // success: the LLM's order, unknown ids dropped, every entry read, each score the
    // (last) confidence for that id
    ensures !MultimodalReplyFails(candidates, reply) && reply.rankedClips.Some? ==>
              var entries := reply.rankedClips.value;
              && ChunkIds(r) == KnownIds(entries, Ids(candidates))
              && forall k :: 0 <= k < |r| ==> LastWriteIs(entries, r[k].chunkId, Confidence, r[k].score)
    ensures !MultimodalReplyFails(candidates, reply) && reply.rankedClips.Some? ==>
              forall k :: 0 <= k < |r| ==>
                r[k].chunkId in ClipMap(candidates) && Rescored(r[k], ClipMap(candidates)[r[k].chunkId])
    // no chunk is invented, no descriptive field changes
    ensures DrawnFrom(r, candidates)
    ensures Coherent(candidates) ==> Coherent(r)
  {
    DrawnFromSelf(candidates);
    match reply
    case Unusable => candidates
    case Parsed(None) => []
    case Parsed(Some(entries)) =>
      match MapBack(candidates, entries, Confidence)
      case None =>
        if FirstRaise(entries, Ids(candidates), Confidence) == 0 then
          TouchedNothing(candidates, entries, Confidence);
          TouchedAll(candidates, entries, Confidence)
        else TouchedAll(candidates, entries, Confidence)
      case Some(out) => out
  }

  /** The whole candidate list after the writes the loop made before raising. */
  function TouchedAll(candidates: seq<SearchResult>, entries: seq<RankedClip>, key: Key)
    : (r: seq<SearchResult>)
    ensures r == Touched(candidates, entries, key)
    ensures ChunkIds(r) == ChunkIds(candidates)
    ensures DrawnFrom(r, candidates)
  {
    var r := Touched(candidates, entries, key);
    RescoredInPlace(r, candidates);
    r
  }

  /** `MultimodalReranker.rerank(query, candidates)` given the multimodal LLM's parsed reply,
      the frame lists recorded in the chunk metadata, and the `frames_per_clip` setting. */
  function MultimodalRerank(candidates: seq<SearchResult>, reply: MultimodalReply,
                            frames: map<ChunkId, seq<FramePath>>, framesPerClip: int)
    : (r: Result<seq<SearchResult>, RerankError>)
    // zero or one candidate: returned unchanged, whatever the reply
    ensures |candidates| <= 1 ==> r == Ok(candidates)
    // frame sampling runs before the `try`: its division by zero escapes
    ensures r.Err? <==> 2 <= |candidates| && framesPerClip == 0 && AnyFrames(candidates, frames)
    // otherwise the outcome is that of the reply
    ensures r.Ok? && 2 <= |candidates| ==> r.value == MultimodalFromReply(candidates, reply)
    ensures r.Ok? && Coherent(candidates) ==> Coherent(r.value)
  {
    if |candidates| <= 1 then Ok(candidates)
    else if LoadFrames(candidates, frames, framesPerClip).None? then Err(FrameStepDivisionByZero)
    else Ok(MultimodalFromReply(candidates, reply))
  }
}
