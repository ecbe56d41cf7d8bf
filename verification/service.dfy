/** `search_videos`: the cascade orchestrator. Tier 1 (query weighting, dual embedding
    search and rank fusion) is not modelled; its ranked output is an input. */
module Service {
  import opened Wrappers
  import opened PySlice
  import opened Results
  import opened RerankReply
  import opened Reranker
  import opened Ranking

  /** Tier 2 is always asked for five results, whatever the caller's `top_k`. */
  const Tier2TopK: int := 5

  /** The arguments of `search_videos` that act after Tier 1. */
  datatype SearchRequest = SearchRequest(topK: int, useCascadedReranking: bool, confidenceThreshold: real)

  /** What the services outside the cascade contribute: the parsed replies of the two
      LLM calls, the frame lists recorded in the chunk metadata, and the
      `TIER3_FRAMES_PER_CLIP` setting. */
  datatype Backends = Backends(
    textReply: Option<seq<RankedClip>>,
    multimodalReply: MultimodalReply,
    frames: map<ChunkId, seq<FramePath>>,
    framesPerClip: int)

  /** The Tier-2 output `search_videos` computes. */
  function Tier2(tier1: seq<SearchResult>, env: Backends): seq<SearchResult> {
    TextRerank(tier1, Tier2TopK, env.textReply)
  }

  /** The Tier-3 outcome `search_videos` computes. */
  function Tier3(tier1: seq<SearchResult>, env: Backends): Result<seq<SearchResult>, RerankError> {
    MultimodalRerank(Tier2(tier1, env), env.multimodalReply, env.frames, env.framesPerClip)
  }

  /** `search_videos(...)` given the Tier-1 candidates, the caller's arguments and the
      outside services. */
  function SearchVideos(tier1: seq<SearchResult>, req: SearchRequest, env: Backends)
    : (r: Result<seq<SearchResult>, RerankError>)
    // cascading disabled: the Tier-1 prefix; no reranker runs, no threshold applies
    ensures !req.useCascadedReranking ==> r == Ok(Take(tier1, req.topK))
    // Tier 2 leaves at most one result: its prefix; Tier 3 and the threshold are skipped
    ensures req.useCascadedReranking && |Tier2(tier1, env)| <= 1 ==> r == Ok(Take(Tier2(tier1, env), req.topK))
    // the only modelled exception that escapes is Tier 3's frame-sampling division by zero
    ensures r.Err? <==> req.useCascadedReranking && 1 < |Tier2(tier1, env)| && Tier3(tier1, env).Err?
    ensures r.Err? ==> env.framesPerClip == 0
    // no stage invents a chunk or changes anything but the score
    ensures r.Ok? ==> DrawnFrom(r.value, tier1)
    ensures r.Ok? && Coherent(tier1) ==> Coherent(r.value)
    ensures r.Ok? && 0 <= req.topK ==> |r.value| <= req.topK
    // after Tier 3: the final selection (sort, threshold, top_k) of the Tier-3 output
    ensures req.useCascadedReranking && 1 < |Tier2(tier1, env)| && r.Ok? ==>
              Tier3(tier1, env).Ok? &&
              r.value == FinalSelection(Tier3(tier1, env).value, req.confidenceThreshold, req.topK)
  {
    if !req.useCascadedReranking then
      DrawnFromPrefix(tier1, |Take(tier1, req.topK)|);
      PrefixCoherent(tier1, req.topK);
      Ok(Take(tier1, req.topK))
    else
      var tier2 := Tier2(tier1, env);
      if |tier2| <= 1 then
        DrawnFromPrefix(tier2, |Take(tier2, req.topK)|);
        DrawnFromTrans(Take(tier2, req.topK), tier2, tier1);
        PrefixCoherent(tier2, req.topK);
        Ok(Take(tier2, req.topK))
      else
        match Tier3(tier1, env)
        case Err(e) => Err(e)
        case Ok(final) =>
          var out := FinalSelection(final, req.confidenceThreshold, req.topK);
          SubmultisetDrawn(out, final);
          DrawnFromTrans(out, final, tier2);
          DrawnFromTrans(out, tier2, tier1);
          Ok(out)
  }

  lemma SubmultisetDrawn(out: seq<SearchResult>, s: seq<SearchResult>)
    requires multiset(out) <= multiset(s)
    ensures DrawnFrom(out, s)
    ensures Coherent(s) ==> Coherent(out)
  {
    forall i | 0 <= i < |out|
      ensures out[i] in s
    {
      assert out[i] in multiset(out);
    }
    DrawnFromMembers(out, s);
    CoherentMembers(out, s);
  }


  /** After Tier 3 the result is sorted by score, descending, everything returned clears the
      confidence threshold, and nothing is returned more often than Tier 3 produced it. */
  lemma SearchThresholdLaw(tier1: seq<SearchResult>, req: SearchRequest, env: Backends)
    requires req.useCascadedReranking && 1 < |Tier2(tier1, env)|
    requires SearchVideos(tier1, req, env).Ok?
    ensures Tier3(tier1, env).Ok?
    ensures var out := SearchVideos(tier1, req, env).value;
            && SortedByScore(out)
            && (forall k :: 0 <= k < |out| ==> out[k].score >= req.confidenceThreshold)
            && multiset(out) <= multiset(Tier3(tier1, env).value)
  {
    var final := Tier3(tier1, env).value;
    assert SearchVideos(tier1, req, env).value == FinalSelection(final, req.confidenceThreshold, req.topK);
  }

  /** After Tier 3 a Tier-3 result is missing only because it is below the threshold or
      because results scoring at least as high were returned, `top_k` of them when `top_k`
      is not negative. */
  lemma SearchDropsOnlyBeaten(tier1: seq<SearchResult>, req: SearchRequest, env: Backends)
    requires req.useCascadedReranking && 1 < |Tier2(tier1, env)|
    requires SearchVideos(tier1, req, env).Ok?
    ensures Tier3(tier1, env).Ok?
    ensures var out := SearchVideos(tier1, req, env).value;
            forall x :: x in Tier3(tier1, env).value && x !in out ==>
              x.score < req.confidenceThreshold || forall k :: 0 <= k < |out| ==> out[k].score >= x.score
    ensures var out := SearchVideos(tier1, req, env).value;
            0 <= req.topK ==>
              forall x :: x in Tier3(tier1, env).value && x !in out ==>
                x.score < req.confidenceThreshold ||
                (|out| == req.topK && forall k :: 0 <= k < |out| ==> out[k].score >= x.score)
  {
    var final := Tier3(tier1, env).value;
    assert SearchVideos(tier1, req, env).value == FinalSelection(final, req.confidenceThreshold, req.topK);
  }

  /** After Tier 3 no copy of a passing result is lost, results with equal scores keep their
      Tier-3 order, and a passing score level is cut short only by top_k results scoring at
      least as high. */
  lemma SearchCopiesAndTies(tier1: seq<SearchResult>, req: SearchRequest, env: Backends)
    requires req.useCascadedReranking && 1 < |Tier2(tier1, env)|
    requires SearchVideos(tier1, req, env).Ok?
    ensures Tier3(tier1, env).Ok?
    ensures var out := SearchVideos(tier1, req, env).value;
            |out| == |Take(AtLeast(Tier3(tier1, env).value, req.confidenceThreshold), req.topK)|
    ensures var out := SearchVideos(tier1, req, env).value;
            var passing := AtLeast(Tier3(tier1, env).value, req.confidenceThreshold);
            forall v :: WithScore(out, v) <= WithScore(passing, v)
    ensures var out := SearchVideos(tier1, req, env).value;
            var passing := AtLeast(Tier3(tier1, env).value, req.confidenceThreshold);
            forall v :: |WithScore(out, v)| < |WithScore(passing, v)| ==>
              forall k :: 0 <= k < |out| ==> out[k].score >= v
    ensures var out := SearchVideos(tier1, req, env).value;
            var passing := AtLeast(Tier3(tier1, env).value, req.confidenceThreshold);
            0 <= req.topK ==> forall v :: |WithScore(out, v)| < |WithScore(passing, v)| ==>
              |out| == req.topK
  {
    var final := Tier3(tier1, env).value;
    assert SearchVideos(tier1, req, env).value == FinalSelection(final, req.confidenceThreshold, req.topK);
  }

  /** When no Tier-3 result clears the threshold the answer is an empty list, not an error. */
  lemma SearchEmptyWhenNoneClears(tier1: seq<SearchResult>, req: SearchRequest, env: Backends)
    requires req.useCascadedReranking && 1 < |Tier2(tier1, env)| && Tier3(tier1, env).Ok?
    requires forall k :: 0 <= k < |Tier3(tier1, env).value| ==> Tier3(tier1, env).value[k].score < req.confidenceThreshold
    ensures SearchVideos(tier1, req, env) == Ok([])
  {
  }

  /** The caller's `top_k` only truncates the answer: a smaller `top_k` gives a prefix of
      the answer to a larger one. In particular it never reaches Tier 2. */
  lemma SearchTopKOnlyTruncates(tier1: seq<SearchResult>, req: SearchRequest, env: Backends, k: int)
    requires 0 <= k <= req.topK
    ensures var small := SearchVideos(tier1, req.(topK := k), env);
            var large := SearchVideos(tier1, req, env);
            small.Ok? == large.Ok? && (small.Ok? ==> small.value == Take(large.value, k))
  {
    var small := req.(topK := k);
    if !req.useCascadedReranking {
      TakeTake(tier1, k, req.topK);
    } else if |Tier2(tier1, env)| <= 1 {
      TakeTake(Tier2(tier1, env), k, req.topK);
    } else if Tier3(tier1, env).Ok? {
      var passing := AtLeast(SortByScore(Tier3(tier1, env).value), req.confidenceThreshold);
      TakeTake(passing, k, req.topK);
    }
  }

  /** Because Tier 2 is asked for five results, the cascade returns at most five, whatever
      `top_k` is, as long as the multimodal LLM does not repeat a clip id. */
  lemma SearchAtMostFive(tier1: seq<SearchResult>, req: SearchRequest, env: Backends)
    requires req.useCascadedReranking
    requires env.multimodalReply.Parsed? && env.multimodalReply.rankedClips.Some? ==>
               DistinctClipIds(env.multimodalReply.rankedClips.value)
    requires SearchVideos(tier1, req, env).Ok?
    ensures |SearchVideos(tier1, req, env).value| <= Tier2TopK
  {
    if 1 < |Tier2(tier1, env)| {
      Tier3AtMostFive(tier1, env);
      SelectionLength(Tier3(tier1, env).value, req.confidenceThreshold, req.topK);
    }
  }

  lemma Tier3AtMostFive(tier1: seq<SearchResult>, env: Backends)
    requires env.multimodalReply.Parsed? && env.multimodalReply.rankedClips.Some? ==>
               DistinctClipIds(env.multimodalReply.rankedClips.value)
    requires Tier3(tier1, env).Ok?
    ensures |Tier3(tier1, env).value| <= Tier2TopK
  {
    var tier2 := Tier2(tier1, env);
    var final := Tier3(tier1, env).value;
    if 1 < |tier2| && env.multimodalReply.Parsed? && env.multimodalReply.rankedClips.Some? &&
       !MultimodalReplyFails(tier2, env.multimodalReply) {
      var entries := env.multimodalReply.rankedClips.value;
      KnownIdsDistinct(entries, Ids(tier2));
      IdsCard(tier2);
      assert |ChunkIds(final)| == |final|;
    }
  }
}
