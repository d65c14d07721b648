/**
 * Final assembly (app.py:511, 602-619): the lead-in silence, every chunk in
 * index order, then a trailing silence of `abs(total_length - end)` where
 * `total_length` is the length of the video's audio and `end` the end of
 * the last sentence. Lengths only: the audio content is not modelled.
 *
 * The point of the reconciler is that the dubbed track keeps the original
 * timeline. `TrackLength` proves how far that holds: when every synthesis
 * succeeds and the sentences do not overlap, the track is exactly as long
 * as the original up to the last sentence's end, plus the trailing
 * silence, plus the sum of the chunks' overruns (fitted clips longer than
 * slot plus credit), and nothing else.
 */
module Assembly {
  import opened Basics
  import opened SilenceBudget
  import opened Attribution
  import opened Reconciler

  function SumDurations(chunks: seq<Chunk>): (total: real)
    ensures total >= 0.0
  {
    if |chunks| == 0 then 0.0 else SumDurations(chunks[..|chunks| - 1]) + chunks[|chunks| - 1].duration
  }

  /** Length of the exported `audio/output.wav`. */
  function Track(rec: Reconciled, videoLength: Seconds, lastEnd: Seconds): (t: real)
    ensures t >= rec.prefix + Abs(videoLength - lastEnd)
    ensures |rec.chunks| == 0 ==> t == rec.prefix + Abs(videoLength - lastEnd)
  {
    rec.prefix + SumDurations(rec.chunks) + Abs(videoLength - lastEnd)
  }

  /** The concatenation loop of app.py:608-611 and the trailing silence of
      app.py:614-617, on lengths. */
  method Assemble(rec: Reconciled, videoLength: Seconds, lastEnd: Seconds) returns (total: real)
    ensures total == Track(rec, videoLength, lastEnd)
    ensures total >= rec.prefix + Abs(videoLength - lastEnd)
  {
    var combined := rec.prefix;
    for k := 0 to |rec.chunks|
      invariant combined == rec.prefix + SumDurations(rec.chunks[..k])
    {
      assert rec.chunks[..k + 1][..k] == rec.chunks[..k];
      combined := combined + rec.chunks[k].duration;
    }
    assert rec.chunks[..|rec.chunks|] == rec.chunks;
    combined := combined + Abs(videoLength - lastEnd);
    return combined;
  }

  /** How much a chunk's fitted clip runs past its window. */
  function Overrun(c: Chunk): (o: real)
    ensures o >= 0.0 && (o == 0.0 <==> c.body <= c.window)
  {
    Max(c.body - c.window, 0.0)
  }

  function SumOverruns(chunks: seq<Chunk>): real {
    if |chunks| == 0 then 0.0 else SumOverruns(chunks[..|chunks| - 1]) + Overrun(chunks[|chunks| - 1])
  }

  /** Windows plus pause silences: the part of the track the original
      timeline accounts for. */
  function SumSlots(chunks: seq<Chunk>): real {
    if |chunks| == 0 then 0.0
    else SumSlots(chunks[..|chunks| - 1]) + chunks[|chunks| - 1].window + chunks[|chunks| - 1].extra
  }

  lemma {:induction false} DurationsSplit(chunks: seq<Chunk>)
    requires forall k :: 0 <= k < |chunks| ==> Consistent(chunks[k])
    ensures SumDurations(chunks) == SumSlots(chunks) + SumOverruns(chunks)
  {
    if |chunks| > 0 {
      DurationsSplit(chunks[..|chunks| - 1]);
    }
  }

  lemma {:induction false} NoOverrunsIffFits(chunks: seq<Chunk>)
    ensures SumOverruns(chunks) >= 0.0
    ensures SumOverruns(chunks) == 0.0 <==> forall k :: 0 <= k < |chunks| ==> chunks[k].body <= chunks[k].window
  {
    if |chunks| > 0 {
      var n := |chunks| - 1;
      NoOverrunsIffFits(chunks[..n]);
      if forall k :: 0 <= k < n ==> chunks[..n][k].body <= chunks[..n][k].window {
        assert forall k :: 0 <= k < n ==> chunks[k].body <= chunks[k].window by {
          forall k | 0 <= k < n ensures chunks[k].body <= chunks[k].window {
            assert chunks[..n][k] == chunks[k];
          }
        }
      }
    }
  }

  /** Every sentence got a clip longer than the trimmed tail. */
  predicate AllSynthesized(clips: seq<Option<Seconds>>) {
    forall j :: 0 <= j < |clips| ==> clips[j].Some? && clips[j].value > Tip
  }

  /** Sentences in timeline order, none overlapping the next. */
  predicate Ordered(records: seq<Record>) {
    forall j :: 0 < j < |records| ==> records[j - 1].end <= records[j].start
  }

  /** The pause after sentence `j` that the reconciler splits; none after the last. */
  function PauseAfter(records: seq<Record>, j: nat): Seconds
    requires j < |records|
  {
    if j + 1 < |records| then Gap(records[j].end, records[j + 1].start) else 0.0
  }

  /** The original timeline through the first `i` sentences and the pauses
      after them. */
  function Covered(records: seq<Record>, i: nat): real
    requires 0 < |records| && i <= |records|
  {
    if i == 0 then records[0].start
    else Covered(records, i - 1) + (records[i - 1].end - records[i - 1].start) + PauseAfter(records, i - 1)
  }

  /** Loop invariant of the reconciler: what has been emitted, plus the
      credit still held, is the original timeline covered so far. */
  lemma {:induction false} RunCovers(records: seq<Record>, clips: seq<Option<Seconds>>,
                                     stretches: seq<Option<Seconds>>, i: nat)
    requires Aligned(records, clips, stretches) && 0 < |records| && i <= |records|
    requires AllSynthesized(clips)
    ensures Run(records, clips, stretches, i).Success?
    ensures var p := Run(records, clips, stretches, i).value;
            SplitGap(records[0].start).extra + SumSlots(p.chunks) + (if i < |records| then p.pending else 0.0)
              == Covered(records, i)
  {
    if i > 0 {
      RunCovers(records, clips, stretches, i - 1);
      var p := Run(records, clips, stretches, i - 1).value;
      var raw := clips[i - 1].value;
      var extra := if i < |records| then SplitGap(PauseAfter(records, i - 1)).extra else 0.0;
      var c := MakeChunk(records[i - 1], i - 1, raw, stretches[i - 1], p.pending, extra);
      assert Run(records, clips, stretches, i) == Step(records, clips, stretches, i - 1, p);
      var q := Run(records, clips, stretches, i).value;
      assert q.chunks == p.chunks + [c];
      assert q.chunks[..|q.chunks| - 1] == p.chunks;
      assert c.window == records[i - 1].end - records[i - 1].start + p.pending;
      if i < |records| {
        assert c.extra + q.pending == PauseAfter(records, i - 1);
      } else {
        assert c.extra == 0.0;
      }
    }
  }

  /** For sentences in order the covered timeline ends where the `i`-th
      sentence's following pause ends. */
  lemma {:induction false} CoveredOrdered(records: seq<Record>, i: nat)
    requires 0 < i <= |records| && Ordered(records)
    ensures Covered(records, i) == records[i - 1].end + PauseAfter(records, i - 1)
  {
    if i > 1 {
      CoveredOrdered(records, i - 1);
    }
  }

  /** Drift theorem: the output is as long as the original timeline up to
      the last sentence's end, plus the trailing silence, plus the overruns. */
  lemma TrackLength(records: seq<Record>, clips: seq<Option<Seconds>>, stretches: seq<Option<Seconds>>,
                    videoLength: Seconds)
    requires Aligned(records, clips, stretches) && 0 < |records|
    requires AllSynthesized(clips) && Ordered(records)
    ensures Reconciliation(records, clips, stretches).Success?
    ensures var rec := Reconciliation(records, clips, stretches).value;
            var lastEnd := records[|records| - 1].end;
            Track(rec, videoLength, lastEnd) == lastEnd + Abs(videoLength - lastEnd) + SumOverruns(rec.chunks)
  {
    var n := |records|;
    RunCovers(records, clips, stretches, n);
    CoveredOrdered(records, n);
    var p := Run(records, clips, stretches, n).value;
    DurationsSplit(p.chunks);
  }

  /** When the video is at least as long as the speech, the dubbed track
      has exactly the video's length if and only if no chunk overruns. */
  lemma TrackMatchesVideoIffNoOverrun(records: seq<Record>, clips: seq<Option<Seconds>>,
                                      stretches: seq<Option<Seconds>>, videoLength: Seconds)
    requires Aligned(records, clips, stretches) && 0 < |records|
    requires AllSynthesized(clips) && Ordered(records)
    requires records[|records| - 1].end <= videoLength
    ensures Reconciliation(records, clips, stretches).Success?
    ensures var rec := Reconciliation(records, clips, stretches).value;
            Track(rec, videoLength, records[|records| - 1].end) == videoLength <==>
              forall k :: 0 <= k < |rec.chunks| ==> rec.chunks[k].body <= rec.chunks[k].window
  {
    TrackLength(records, clips, stretches, videoLength);
    NoOverrunsIffFits(Reconciliation(records, clips, stretches).value.chunks);
  }
}
