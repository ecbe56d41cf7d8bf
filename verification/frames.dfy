/** The deterministic frame sample that Tier 3 attaches to each candidate
    (`MultimodalReranker._load_frames_for_clips`). */
module Frames {
  import opened Wrappers
  import opened PySlice
  import opened Results

  /** `max(1, n // frames_per_clip)`: the distance between two sampled frames. */
  function SampleStep(n: nat, framesPerClip: int): (step: int)
    requires framesPerClip != 0
    ensures 1 <= step
  {
    Max(1, FloorDiv(n, framesPerClip))
  }

  /** The frames sent to the LLM for one clip whose metadata lists `all`: nothing when the
      list is empty, otherwise `all[::step][:frames_per_clip]`. `None` stands for the
      ZeroDivisionError Python raises when `frames_per_clip` is 0 and there are frames. */
  function SampleFrames(all: seq<FramePath>, framesPerClip: int): (r: Option<seq<FramePath>>)
    ensures r.None? <==> 0 < |all| && framesPerClip == 0
    ensures |all| == 0 ==> r == Some([])
    ensures 0 < framesPerClip ==> r.Some? && |r.value| <= framesPerClip
  {
    if |all| == 0 then Some([])
    else if framesPerClip == 0 then None
    else Some(Take(Stride(all, SampleStep(|all|, framesPerClip)), framesPerClip))
  }

  /** The sample is evenly spaced and in clip order: its i-th frame is the clip's
      (i * step)-th, and it holds min(frames_per_clip, ceiling(n / step)) frames. */
  lemma SampleFramesPicks(all: seq<FramePath>, framesPerClip: int)
    requires 0 < framesPerClip && 0 < |all|
    ensures var step := SampleStep(|all|, framesPerClip);
            && SampleFrames(all, framesPerClip).Some?
            && (exists m :: IsCeilDiv(m, |all|, step) && |SampleFrames(all, framesPerClip).value| == Min(framesPerClip, m))
            && forall i :: 0 <= i < |SampleFrames(all, framesPerClip).value| ==>
                 i * step < |all| && SampleFrames(all, framesPerClip).value[i] == all[i * step]
  {
    var step := SampleStep(|all|, framesPerClip);
    var strided := Stride(all, step);
    StrideLength(all, step);
    forall i | 0 <= i < |strided|
      ensures i * step < |all| && strided[i] == all[i * step]
    {
      StrideAt(all, step, i);
    }
  }

  /** A clip with at least frames_per_clip frames contributes exactly frames_per_clip. */
  lemma SampleFramesFull(all: seq<FramePath>, framesPerClip: int)
    requires 0 < framesPerClip <= |all|
    ensures SampleFrames(all, framesPerClip).Some?
    ensures |SampleFrames(all, framesPerClip).value| == framesPerClip
  {
    var step := SampleStep(|all|, framesPerClip);
    StrideLength(all, step);
    EnoughFrames(|all|, framesPerClip, step, |Stride(all, step)|);
  }

  /** A clip with at most frames_per_clip frames contributes all of them. */
  lemma SampleFramesAll(all: seq<FramePath>, framesPerClip: int)
    requires 0 < |all| <= framesPerClip
    ensures SampleFrames(all, framesPerClip) == Some(all)
  {
    var q := FloorDiv(|all|, framesPerClip);
    assert q * framesPerClip <= 1 * framesPerClip;
    MulCancel(q, 1, framesPerClip);
    assert SampleStep(|all|, framesPerClip) == 1;
    StrideOne(all);
    assert Take(all, framesPerClip) == all;
  }

  /** A negative frames_per_clip keeps every frame but the last -frames_per_clip. */
  lemma SampleFramesNegative(all: seq<FramePath>, framesPerClip: int)
    requires framesPerClip < 0 && 0 < |all|
    ensures SampleFrames(all, framesPerClip) == Some(Take(all, framesPerClip))
  {
    NegativeStep(|all|, framesPerClip);
    StrideOne(all);
  }

  /** With at least `f` frames the step is `n // f`, so the stride is at least `f` long. */
  lemma EnoughFrames(n: int, f: int, step: int, m: int)
    requires 0 < f <= n
    requires step == Max(1, FloorDiv(n, f))
    requires IsCeilDiv(m, n, step)
    ensures f <= m
  {
    var q := FloorDiv(n, f);
    assert 1 <= q by {
      if q < 1 {
        MulMonotone(q, 0, f);
      }
    }
    assert f * q <= m * q;
    MulCancel(f, m, q);
  }

  /** A negative `frames_per_clip` floors `n // frames_per_clip` to at most 0, so the step is 1. */
  lemma NegativeStep(n: nat, f: int)
    requires f < 0
    ensures SampleStep(n, f) == 1
  {
    var q := FloorDiv(n, f);
    if 0 < q {
      MulMonotone(1, q, -f);
    }
  }

  lemma {:induction false} StrideOne(s: seq<FramePath>)
    ensures Stride(s, 1) == s
  {
    if 1 < |s| {
      StrideOne(s[1..]);
    }
  }

  lemma MulCancel(a: int, b: int, c: int)
    requires 0 < c && a * c <= b * c
    ensures a <= b
  {
  }

  lemma MulMonotone(a: int, b: int, c: int)
    requires a <= b && 0 <= c
    ensures a * c <= b * c
  {
  }

  /** Where a clip's frames come from: the `frame_paths` recorded for its chunk in the
      video's metadata file; a missing file, chunk or key contributes no frames. */
  function FramesOf(frames: map<ChunkId, seq<FramePath>>, clip: SearchResult): seq<FramePath> {
    if clip.chunkId in frames then frames[clip.chunkId] else []
  }

  /** Some clip has a non-empty frame list recorded. */
  predicate AnyFrames(clips: seq<SearchResult>, frames: map<ChunkId, seq<FramePath>>) {
    exists i :: 0 <= i < |clips| && 0 < |FramesOf(frames, clips[i])|
  }

  /** `_load_frames_for_clips`: one sample per clip, in clip order; `None` when sampling
      any clip raises. */
  function LoadFrames(clips: seq<SearchResult>, frames: map<ChunkId, seq<FramePath>>, framesPerClip: int)
    : (r: Option<seq<seq<FramePath>>>)
    ensures r.None? <==> framesPerClip == 0 && AnyFrames(clips, frames)
    ensures r.Some? ==> |r.value| == |clips|
    ensures r.Some? ==> forall i :: 0 <= i < |clips| ==>
                          SampleFrames(FramesOf(frames, clips[i]), framesPerClip) == Some(r.value[i])
  {
    if |clips| == 0 then Some([])
    else
      var first := SampleFrames(FramesOf(frames, clips[0]), framesPerClip);
      var rest := LoadFrames(clips[1..], frames, framesPerClip);
      AnyFramesCons(clips, frames);
      if first.None? || rest.None? then None
      else
        var r := [first.value] + rest.value;
        assert forall i :: 1 <= i < |clips| ==> clips[i] == clips[1..][i - 1] && r[i] == rest.value[i - 1];
        Some(r)
  }

  lemma AnyFramesCons(clips: seq<SearchResult>, frames: map<ChunkId, seq<FramePath>>)
    requires 0 < |clips|
    ensures AnyFrames(clips, frames) <==> 0 < |FramesOf(frames, clips[0])| || AnyFrames(clips[1..], frames)
  {
    if AnyFrames(clips, frames) {
      var i :| 0 <= i < |clips| && 0 < |FramesOf(frames, clips[i])|;
      if 0 < i {
        assert clips[1..][i - 1] == clips[i];
      }
    }
    if AnyFrames(clips[1..], frames) {
      var i :| 0 <= i < |clips[1..]| && 0 < |FramesOf(frames, clips[1..][i])|;
      assert clips[i + 1] == clips[1..][i];
    }
  }
}
