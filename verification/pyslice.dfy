/** Python's slicing and integer division, written out because they differ from Dafny's. */
module PySlice {

  function Min(a: int, b: int): int { if a <= b then a else b }

  function Max(a: int, b: int): int { if a >= b then a else b }

  /** Python's `s[:k]`. A non-negative bound keeps the first `k` elements (all of them when
      `k >= |s|`); a negative bound drops the last `-k` elements (all of them when `-k >= |s|`). */
  function Take<T>(s: seq<T>, k: int): (r: seq<T>)
    ensures |r| <= |s| && r == s[..|r|]
    ensures 0 <= k ==> |r| == Min(k, |s|)
    ensures k < 0 ==> |r| == Max(0, |s| + k)
  {
    if 0 <= k then s[..Min(k, |s|)] else s[..Max(0, |s| + k)]
  }

  /** Taking a shorter non-negative prefix of a prefix is taking the shorter prefix. */
  lemma TakeTake<T>(s: seq<T>, k: int, k': int)
    requires 0 <= k <= k'
    ensures Take(Take(s, k'), k) == Take(s, k)
  {
  }

  /** `m` is the ceiling of `n / d`: the least count of `d`-wide steps that covers `n`. */
  ghost predicate IsCeilDiv(m: int, n: int, d: int) {
    (m - 1) * d < n <= m * d
  }

  /** Python's `s[::step]` for a positive step: the elements at indices 0, step, 2*step, ...
      that lie inside `s`, in their original order (see StrideLength and StrideAt). */
  function Stride<T>(s: seq<T>, step: int): (r: seq<T>)
    requires 1 <= step
    ensures |r| <= |s|
    decreases |s|
  {
    if |s| == 0 then []
    else if |s| <= step then [s[0]]
    else [s[0]] + Stride(s[step..], step)
  }

  /** A stride keeps ceiling(|s| / step) elements. */
  lemma {:induction false} StrideLength<T>(s: seq<T>, step: int)
    requires 1 <= step
    ensures IsCeilDiv(|Stride(s, step)|, |s|, step)
    decreases |s|
  {
    if step < |s| {
      StrideLength(s[step..], step);
      CeilDivStep(|Stride(s[step..], step)|, |s|, step);
    }
  }

  /** The i-th element of a stride is the (i * step)-th element of the sequence. */
  lemma {:induction false} StrideAt<T>(s: seq<T>, step: int, i: int)
    requires 1 <= step
    requires 0 <= i < |Stride(s, step)|
    ensures i * step < |s| && Stride(s, step)[i] == s[i * step]
    decreases |s|
  {
    if 0 < i {
      assert step < |s|;
      var rest := s[step..];
      assert Stride(s, step) == [s[0]] + Stride(rest, step);
      StrideAt(rest, step, i - 1);
      var j := (i - 1) * step;
      MulSucc(i - 1, step);
      assert rest[j] == s[j + step];
    }
  }

  lemma MulSucc(a: int, b: int)
    ensures (a + 1) * b == a * b + b
  {
  }

  /** One more step covers `d` more elements. */
  lemma CeilDivStep(m: int, n: int, d: int)
    requires IsCeilDiv(m, n - d, d)
    ensures IsCeilDiv(m + 1, n, d)
  {
    MulSucc(m, d);
    MulSucc(m - 1, d);
  }

  /** Python's floor division `a // b`. Dafny's `/` is Euclidean, which rounds the other way
      when `b` is negative and the division is inexact. */
  function FloorDiv(a: int, b: int): (q: int)
    requires b != 0
    ensures 0 < b ==> q * b <= a < q * b + b
    ensures b < 0 ==> q * b + b < a <= q * b
  {
    if 0 < b || a % b == 0 then a / b else a / b - 1
  }
}
