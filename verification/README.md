# Cascaded video search: the reranking cascade in Dafny

This project models the control logic of a video-search backend's three-tier cascade.

- **Tier 1 (hybrid retrieval).** Produces a ranked list of candidate chunks. Here that list is an input.
- **Tier 2 (`TextReranker.rerank`).** A text LLM reorders the candidates and rescores them. The LLM's score is divided by 10. Only the first `top_k` entries of the reply are read.
- **Tier 3 (`MultimodalReranker.rerank`).** A multimodal LLM looks at an evenly spaced sample of each clip's frames and gives each clip a confidence.
- **`search_videos`.** Sequences the tiers and takes the two early exits. After Tier 3 it sorts by score (descending, stable), keeps the results whose score is at least `confidence_threshold`, and truncates to `top_k`.

The LLM replies are parameters: the parsed JSON each stage would receive.

- The text stage receives `Option<seq<RankedClip>>`. `None` means the call raised, the text was not JSON, or the value could not be sliced.
- The multimodal stage receives a `MultimodalReply`:
  - `Unusable`: no usable object, or an object whose `ranked_clips` is present but cannot be iterated (JSON `null` or a number), for which the loop raises inside the `try`;
  - `Parsed(None)`: an object without `ranked_clips`;
  - `Parsed(Some(entries))`: the list of entries.
- A key missing from an entry is a `None` field.

Processing an entry raises, and so sends the stage to its fallback, in two cases:

- the entry has no `clip_id`;
- it names a known candidate but lacks the key the stage reads.

An unknown id is skipped.

The stages rewrite `SearchResult.score` in place and hand the same objects on. The model therefore gives each result its object identity (`obj`). Three consequences follow:

- Every output element with a given id shows the last score written for that id.
- When an entry raises, the writes made by the entries before it remain visible in the fallback (`RerankReply.Touched`).
- `Results.Coherent` says that each object shows one state wherever it appears in a list. Every stage preserves it.

Python's `s[:k]` (including negative `k`), `s[::step]` and `//` are written out in `PySlice`.

Frame sampling is modelled exactly as `max(1, n // frames_per_clip)` followed by `all[::step][:frames_per_clip]`. It runs before Tier 3's `try`. When `frames_per_clip` is 0 and some clip has frames, the `ZeroDivisionError` escapes `search_videos`. The model returns this as `Err(FrameStepDivisionByZero)`.

Behaviour of the code worth knowing, all of it modelled:

- **No filter on the early exits.** When cascading is disabled, or Tier 2 leaves at most one result, the result is returned as `[:top_k]`, neither sorted nor threshold-filtered (`src/search/service.py:88-90`, `102-105`).
- **Fallbacks can carry partial writes.** After a mid-loop `KeyError` the fallback returns the candidate objects showing the scores already written (`src/search/reranker.py:124-140`, `264-280`).
- **Missing `ranked_clips` gives an empty list.** A Tier-3 reply object without `ranked_clips` yields `[]`; the fallback is not taken (`src/search/reranker.py:258`).
- **One modelled exception escapes.** The frame-sampling division by zero is raised outside the `try` (`src/search/reranker.py:243`, `305`). Other exceptions raised outside the `try` blocks are not modelled (see `Service.SearchVideos` under "## Left out").
- **Confidence is unchecked.** The Tier-3 confidence is copied as given; it is neither clamped nor checked to lie in [0, 1] (`src/search/reranker.py:269`).
- **The cascade can return more than five results.** A multimodal reply that repeats a clip id keeps that clip once per repetition (`RerankReply.RepeatedIdRepeatsClip`). The at-most-five bound (`Service.SearchAtMostFive`) therefore holds only for replies without repeated ids.

## Model

| member | source | states |
|---|---|---|
| PySlice.Take | src/search/service.py:90 | Python `s[:k]`: a prefix; a non-negative `k` keeps `min(k, len)` elements; a negative `k` drops the last `-k` |
| PySlice.FloorDiv | src/search/reranker.py:305 | Python `//`: the quotient rounds toward minus infinity, for either sign of the divisor |
| PySlice.StrideLength | src/search/reranker.py:306 | `s[::step]` has ceiling(len / step) elements |
| PySlice.StrideAt | src/search/reranker.py:306 | the i-th element of `s[::step]` is `s[i*step]`, and that index is in range |
| Frames.SampleStep | src/search/reranker.py:305 | the sampling step is at least 1 |
| Frames.SampleFrames | src/search/reranker.py:302-306 | no frames gives an empty sample; the sample fails exactly when there are frames and `frames_per_clip` is 0; a positive `frames_per_clip` bounds its length |
| Frames.SampleFramesPicks | src/search/reranker.py:305-306 | the sample holds min(fpc, ceiling(n/step)) frames, and its i-th frame is `all[i*step]`: evenly spaced, in clip order |
| Frames.SampleFramesFull | src/search/reranker.py:305-306 | a clip with at least `frames_per_clip` frames contributes exactly `frames_per_clip` |
| Frames.SampleFramesAll | src/search/reranker.py:305-306 | a clip with at most `frames_per_clip` frames contributes all of them |
| Frames.SampleFramesNegative | src/search/reranker.py:305-306 | a negative `frames_per_clip` gives step 1, so all but the last `-frames_per_clip` frames are kept |
| Frames.LoadFrames | src/search/reranker.py:282-311 | one sample per clip, in clip order; fails exactly when `frames_per_clip` is 0 and some clip has frames |
| Results.ClipMap | src/search/reranker.py:121 | the `chunk_id` dictionary: its keys are exactly the candidates' ids, and each id maps to the last candidate carrying it |
| RerankReply.KnownIds | src/search/reranker.py:124-130 | reference definition of the surviving ids: the reply's ids in reply order, kept exactly when they name a candidate |
| RerankReply.Loop | src/search/reranker.py:124-130 | the loop raises exactly when some entry raises; otherwise it appends exactly `KnownIds`, and each known id ends with the score its last entry wrote; other scores are unchanged |
| RerankReply.MapBack | src/search/reranker.py:121-130 | fails exactly when an entry raises; on success the output ids are `KnownIds`, each element is that id's `clip_map` candidate with only its score changed, and the score is the last write for the id |
| RerankReply.FirstRaise | src/search/reranker.py:124-129 | the index where the loop stops: no entry before it raises, and the entry at it does |
| RerankReply.Touched | src/search/reranker.py:124-140 | the candidates the fallback returns after a raise: same order and fields; an element that is `clip_map`'s object for an id written before the raise shows that write, every other element is unchanged |
| RerankReply.TouchedNothing | src/search/reranker.py:137-140 | if the first entry raises, the fallback returns the candidates exactly as they were |
| RerankReply.KnownIdsDistinct | src/search/reranker.py:264-270 | without repeated ids in the reply, no id survives twice, so at most one result survives per candidate id |
| RerankReply.RepeatedIdRepeatsClip | src/search/reranker.py:264-270 | a repeated id is kept twice, both copies showing the later confidence |
| Reranker.TextRerank | src/search/reranker.py:78-140 | empty input gives `[]`; at most `top_k` candidates are returned unchanged; a missing reply, or a first scanned entry that raises, gives `candidates[:top_k]`; another failure gives that prefix with the earlier writes; success gives the reply order with unknown ids dropped, only the first `top_k` entries read, and score = LLM score / 10; each returned object is `clip_map`'s, the last candidate with that id; output drawn from the input and at most `top_k` long |
| Reranker.MultimodalFromReply | src/search/reranker.py:249-280 | an unusable reply, or a first entry that raises, gives the candidates unchanged; a later raise gives them in order with the earlier writes; missing `ranked_clips` gives `[]`; success gives the reply order with unknown ids dropped and score = confidence, each object being `clip_map`'s, the last candidate with that id; output drawn from the input |
| Reranker.MultimodalRerank | src/search/reranker.py:221-280 | at most one candidate is returned unchanged; the frame division by zero escapes exactly when there are two or more candidates, `frames_per_clip` is 0 and some clip has frames; otherwise the outcome is that of the reply |
| Ranking.Insert | src/search/service.py:117 | inserting into a descending list keeps it descending |
| Ranking.InsertPermutes | src/search/service.py:117 | insertion adds exactly the inserted element |
| Ranking.SortByScore | src/search/service.py:117 | the sort is descending by score and a permutation |
| Ranking.SortStable | src/search/service.py:117 | the sort is stable: results with equal scores keep their order |
| Ranking.AtLeast | src/search/service.py:120-122 | every kept result has score at least the threshold |
| Ranking.AtLeastCounts | src/search/service.py:120-122 | a result is kept, as many times as it occurs, exactly when its score clears the threshold |
| Ranking.AtLeastSortedPrefix | src/search/service.py:117-122 | on a descending list the filter keeps a prefix, and everything after it is below the threshold |
| Ranking.FinalSelection | src/search/service.py:117-135 | the output is descending; everything clears the threshold; it is a sub-multiset of the Tier-3 output; its length is that of the passing results sliced to `top_k`, so no copy is lost; at every score it holds the first passing results with that score, in Tier-3 order (stability); for any `top_k`, negative included, a passing result or score level is cut short only when every returned result scores at least as high, and for a non-negative `top_k` only when `top_k` results were returned; if none clears, the output is `[]` |
| Ranking.AtLeastWithScore | src/search/service.py:120-122 | the threshold filter keeps every result at a given score, in order, or none of them |
| Ranking.SortedLevels | src/search/service.py:117-122 | sorting before filtering leaves, at every score, the same passing results in the same order |
| Ranking.CutOffAt | src/search/service.py:117-135 | on a descending list, a `[:top_k]` slice that leaves out a result scoring v is `top_k` long and scores at least v throughout |
| Service.SearchVideos | src/search/service.py:17-135 | cascading off gives `tier1[:top_k]`; at most one Tier-2 result gives `tier2[:top_k]`; the only modelled error is the Tier-3 frame division by zero; otherwise the result is the final selection of the Tier-3 output; every result is a Tier-1 candidate with only its score changed; at most `top_k` results; object states stay coherent |
| Service.SearchThresholdLaw | src/search/service.py:117-135 | after Tier 3 the result is sorted, everything clears the threshold, and it is a sub-multiset of the Tier-3 output |
| Service.SearchDropsOnlyBeaten | src/search/service.py:117-135 | after Tier 3 a Tier-3 result is dropped only because it is below the threshold or every returned result scores at least as high, with `top_k` of them returned when `top_k` is not negative |
| Service.SearchCopiesAndTies | src/search/service.py:117-135 | after Tier 3 the answer has as many results as the passing Tier-3 results sliced to `top_k`; results with equal scores keep their Tier-3 order; a passing score level is cut short only by results scoring at least as high, `top_k` of them when `top_k` is not negative |
| Service.SearchEmptyWhenNoneClears | src/search/service.py:128-135 | when no Tier-3 result clears the threshold the answer is an empty list, not an error |
| Service.SearchTopKOnlyTruncates | src/search/service.py:87-135 | the caller's `top_k` only truncates: a smaller `top_k` gives a prefix of the answer to a larger one, with the same success or failure |
| Service.SearchAtMostFive | src/search/service.py:96-135 | Tier 2 is asked for five results, so the cascade returns at most five whatever `top_k` is, provided the multimodal reply repeats no clip id |

## Left out

- Tier 1 is not part of this model: query weighting, dual embedding generation and the vector search with rank fusion. Their code is not among the files modelled, so its ranked output is an input. An exception it raises is not modelled.
- The Gemini call `generate_content` and JSON parsing are not modelled: they are foreign network calls inside the `try` blocks, and their outcome is the reply parameter.
- Service.SearchVideos: exceptions raised outside the `try` blocks by constructing the rerankers (each builds a `genai.Client`, `src/search/service.py:95`, `110`; `src/search/reranker.py:45-49`, `180-184`) or by building the prompts (`_format_clips_for_llm` and `prompt_template.format`, `src/search/reranker.py:99-107`; `_create_multimodal_prompt`, `src/search/reranker.py:246`) escape `search_videos` in Python. They are not modelled: client construction depends on credentials and the network, and prompt building is string templating. The contract's claim that the frame division by zero is the only escaping exception holds only among the modelled ones.
- Reading `{video_id}_chunks.json` and opening frame images is file I/O. The recorded frame lists are a map from chunk id to paths; a chunk with no entry has no frames. Exceptions from a missing or malformed metadata file are not modelled.
- Logging, including the "best score" message when nothing clears the threshold, is not modelled. Neither are the `reasoning` and `best_match` fields.
- `settings` globals are parameters: `frames_per_clip` is `Backends.framesPerClip`.
- Scores are `real`, not floating point.
- A Tier-3 `confidence` that is not a number (for which Python's sort or comparison would raise) is not modelled. Every confidence is a real or missing.
- A hashable `clip_id` that is not a string stands for an id no candidate has. An unhashable one, which would raise, is treated like a missing `clip_id`.
- The Streamlit pages, the desktop application, its stores and build configuration, and `test_rrf.py` are user interface or scripts outside the cascade.
- The sampled frames themselves are not used downstream, only whether sampling raises. They reach the LLM only through the prompt, and the LLM's reply is a parameter.
