/**
 * Shared vocabulary of the dubbing timeline: non-negative seconds, the
 * Option/Result wrappers used for the pipeline's failure paths, and the
 * `min`/`max` of a non-empty list of timestamps.
 */
module Basics {

  /** A timestamp or a duration, in seconds. Every time source of the
      pipeline (ASR words, diarization turns, clip lengths, the video's
      length) is non-negative; floats are modelled as exact reals. */
  type Seconds = r: real | 0.0 <= r

  datatype Option<T> = None | Some(value: T)

  datatype Result<T, E> = Success(value: T) | Failure(error: E)

  function Abs(x: real): real {
    if x < 0.0 then -x else x
  }

  function Max(a: real, b: real): real {
    if a < b then b else a
  }

  function Min(a: real, b: real): real {
    if a < b then a else b
  }

  /** Python's `min` over a non-empty list (an empty one raises). */
  function SeqMin(s: seq<Seconds>): (m: Seconds)
    requires |s| > 0
    ensures m in s
    ensures forall x :: x in s ==> m <= x
  {
    if |s| == 1 then s[0]
    else
      var rest := SeqMin(s[1..]);
      assert forall x :: x in s ==> x == s[0] || x in s[1..];
      if s[0] <= rest then s[0] else rest
  }

  /** Python's `max` over a non-empty list (an empty one raises). */
  function SeqMax(s: seq<Seconds>): (m: Seconds)
    requires |s| > 0
    ensures m in s
    ensures forall x :: x in s ==> x <= m
  {
    if |s| == 1 then s[0]
    else
      var rest := SeqMax(s[1..]);
      assert forall x :: x in s ==> x == s[0] || x in s[1..];
      if rest <= s[0] then s[0] else rest
  }
}
