/**
 * The silence budget tracker (app.py:501-511 and 576-583). A pause of the
 * original timeline is split in two: up to 0.8 s becomes the credit
 * `previous_silence_time` that the next sentence may borrow when it is
 * fitted, and the rest, `natural_scilence`, is emitted as literal silence
 * straight away. The same split is applied to the lead-in before the first
 * sentence and to the gap after every sentence but the last.
 */
module SilenceBudget {
  import opened Basics

  /** The most pause time that can be carried as credit. */
  const Cap: real := 0.8

  /** `pending`: carried credit; `extra`: silence emitted now. */
  datatype Split = Split(pending: Seconds, extra: Seconds)

  /** The `if natural_scilence >= 0.8 … else …` split of a pause. */
  function SplitGap(gap: Seconds): (s: Split)
    ensures s.pending <= Cap
    ensures s.pending + s.extra == gap
    ensures s.extra > 0.0 ==> s.pending == Cap
    ensures gap < Cap ==> s.extra == 0.0
  {
    if gap >= Cap then Split(Cap, gap - Cap) else Split(gap, 0.0)
  }

  /** The original-timeline pause between a sentence and the next one;
      overlapping sentences leave no pause. */
  function Gap(thisEnd: Seconds, nextStart: Seconds): (g: Seconds)
    ensures g == 0.0 || g == nextStart - thisEnd
    ensures thisEnd <= nextStart ==> g == nextStart - thisEnd
  {
    Max(nextStart - thisEnd, 0.0)
  }

  /** No pause time is created or destroyed: what is carried plus what is
      emitted is the pause, and the carried part is the largest the cap
      allows. */
  lemma SplitIsMinWithCap(gap: Seconds)
    ensures SplitGap(gap).pending == Min(gap, Cap)
    ensures SplitGap(gap).extra == gap - Min(gap, Cap)
  {
  }

  /** A 1.2 s pause carries the full 0.8 s credit and emits 0.4 s now. */
  lemma ExampleLongPause()
    ensures SplitGap(1.2) == Split(0.8, 0.4)
  {
  }
}
