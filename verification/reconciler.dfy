/**
 * The timing reconciler (app.py:513-592). Sentences are processed in
 * order. Each synthesized clip loses a fixed 350 ms tail, then the ratio
 * `theta = slot / clip` of the sentence's original duration to the clip's
 * duration picks one of three regimes: stretch the clip with a tempo change
 * into the slot plus the borrowed silence credit, drop it in favour of
 * silence of that length, or keep it and put the credit in front of it.
 * The result is padded up to the slot plus credit, and the part of the
 * following pause not carried as credit is appended as literal silence.
 *
 * The TTS collaborator is given as the length of each raw clip (`None`:
 * synthesis failed) and the ffmpeg tempo change as the length of what it
 * produced (`None`: it exited with an error).
 */
module Reconciler {
  import opened Basics
  import opened SilenceBudget
  import opened Attribution

  /** `tip = 350`: the trailing artifact cut from every synthesized clip. */
  const Tip: real := 0.35

  /** Clips with `theta` below this are dropped rather than stretched. */
  const DropBelow: real := 0.44

  datatype Regime = Stretch | Drop | Pad

  /** Comparing a quotient with a constant is comparing the dividend with
      the constant times the (positive) divisor. */
  lemma QuotientBelow(lo: real, lt: real, c: real)
    requires lt > 0.0
    ensures lo / lt < c <==> lo < c * lt
    ensures lo / lt > c <==> lo > c * lt
  {
    var theta := lo / lt;
    assert theta * lt == lo;
    assert (c - theta) * lt == c * lt - lo;
  }

  /** The three-way test on `theta = lo / lt` (app.py:555, 564, 567).
      `theta == 0.44` exactly falls to the pad branch. */
  function ChooseRegime(lo: real, lt: real): (g: Regime)
    requires lt > 0.0
    ensures g == Stretch <==> DropBelow * lt < lo < lt
    ensures g == Drop <==> lo < DropBelow * lt
    ensures g == Pad <==> lt <= lo || lo == DropBelow * lt
  {
    var theta := lo / lt;
    QuotientBelow(lo, lt, 1.0);
    QuotientBelow(lo, lt, DropBelow);
    if theta < 1.0 && theta > DropBelow then Stretch
    else if theta < DropBelow then Drop
    else Pad
  }

  /** What became of a clip; the stretch regimes carry the `atempo` factor. */
  datatype Fit = Stretched(speed: real) | StretchFailed(speed: real) | Dropped | Padded

  datatype Fitted = Fitted(fit: Fit, body: Seconds)

  /** The adjusted clip for slot `lo`, trimmed clip length `lt` and credit
      `pending`; `stretched` is the length ffmpeg produced, if it succeeded. */
  function FitClip(lo: Seconds, lt: real, pending: Seconds, stretched: Option<Seconds>): (f: Fitted)
    requires lt > 0.0
    ensures ChooseRegime(lo, lt) == Drop ==> f == Fitted(Dropped, lo + pending)
    ensures ChooseRegime(lo, lt) == Pad ==> f == Fitted(Padded, pending + lt)
    ensures ChooseRegime(lo, lt) == Stretch ==>
              (f.fit.Stretched? || f.fit.StretchFailed?) && f.fit.speed * (lo + pending) == lt
    ensures ChooseRegime(lo, lt) == Stretch ==>
              match stretched
              case Some(d) => f == Fitted(Stretched(f.fit.speed), d)
              case None => f == Fitted(StretchFailed(f.fit.speed), lo + pending)
    ensures f.body > lo + pending ==> f.fit.Stretched? || (f.fit.Padded? && lo == DropBelow * lt)
  {
    match ChooseRegime(lo, lt)
    case Stretch =>
      var thetaPrim := (lo + pending) / lt;
      var speed := 1.0 / thetaPrim;
      assert speed * (lo + pending) == lt by {
        assert thetaPrim * lt == lo + pending;
        assert speed * thetaPrim == 1.0;
      }
      if stretched.Some? then Fitted(Stretched(speed), stretched.value)
      else Fitted(StretchFailed(speed), lo + pending)
    case Drop => Fitted(Dropped, lo + pending)
    case Pad => Fitted(Padded, pending + lt)
  }

  /** One entry of `su_audio_chunks`: the clip after fitting (`body`), the
      credit it was given, `window`, the source's post-adjust `lo`
      (`end - start + pending`, without the clamp at zero), the literal
      pause silence `extra`, and the chunk's total `duration`. */
  datatype Chunk = Chunk(index: nat, fit: Fit, pending: Seconds, body: Seconds, window: real,
                         extra: Seconds, duration: Seconds)

  /** The chunk for record `r` at index `i` (app.py:538-592). */
  function MakeChunk(r: Record, i: nat, raw: Seconds, stretched: Option<Seconds>,
                     pending: Seconds, extra: Seconds): (c: Chunk)
    requires raw > Tip
    ensures var f := FitClip(Max(r.end - r.start, 0.0), raw - Tip, pending, stretched);
            c.fit == f.fit && c.body == f.body
    ensures c.index == i && c.pending == pending && c.extra == extra
    ensures c.window == r.end - r.start + pending
    ensures c.duration == Max(c.body, c.window) + c.extra
    ensures c.body > c.window ==>
              c.fit.Stretched? || r.end < r.start ||
              (c.fit.Padded? && r.end - r.start == DropBelow * (raw - Tip))
  {
    var lt := raw - Tip;
    var lo: Seconds := Max(r.end - r.start, 0.0);
    var f := FitClip(lo, lt, pending, stretched);
    var window := r.end - r.start + pending;
    Chunk(i, f.fit, pending, f.body, window, extra, f.body + (Max(window - f.body, 0.0) + extra))
  }

  /** The chunk's length is its fitted clip padded up to the window, plus
      the pause silence. */
  predicate Consistent(c: Chunk) {
    c.duration == Max(c.body, c.window) + c.extra
  }

  /** The state carried between iterations. */
  datatype Progress = Progress(pending: Seconds, chunks: seq<Chunk>)

  datatype ReconcileError =
    | NoSentences          // `records[0]` of an empty list
    | EmptyClip(index: nat) // trimmed clip of length zero: `lo / lt` divides by zero

  datatype Reconciled = Reconciled(prefix: Seconds, chunks: seq<Chunk>)

  predicate Aligned(records: seq<Record>, clips: seq<Option<Seconds>>, stretches: seq<Option<Seconds>>) {
    |clips| == |records| && |stretches| == |records|
  }

  function Indices(chunks: seq<Chunk>): (ix: seq<nat>)
    ensures |ix| == |chunks| && forall j :: 0 <= j < |chunks| ==> ix[j] == chunks[j].index
  {
    seq(|chunks|, j requires 0 <= j < |chunks| => chunks[j].index)
  }

  /** The indices below `n` whose synthesis succeeded, in ascending order. */
  function Synthesized(clips: seq<Option<Seconds>>, n: nat): seq<nat>
    requires n <= |clips|
  {
    if n == 0 then [] else Synthesized(clips, n - 1) + (if clips[n - 1].Some? then [n - 1] else [])
  }

  /** One iteration of the loop. A failed synthesis `continue`s: no chunk,
      and the credit is left as it was. */
  function Step(records: seq<Record>, clips: seq<Option<Seconds>>, stretches: seq<Option<Seconds>>,
                i: nat, p: Progress): Result<Progress, ReconcileError>
    requires Aligned(records, clips, stretches) && i < |records|
  {
    match clips[i]
    case None => Success(p)
    case Some(raw) =>
      if raw <= Tip then Failure(EmptyClip(i))
      else if i + 1 < |records| then
        var s := SplitGap(Gap(records[i].end, records[i + 1].start));
        Success(Progress(s.pending, p.chunks + [MakeChunk(records[i], i, raw, stretches[i], p.pending, s.extra)]))
      else
        Success(Progress(p.pending, p.chunks + [MakeChunk(records[i], i, raw, stretches[i], p.pending, 0.0)]))
  }

  /** What one iteration does: a failed synthesis leaves the state as it
      was, a clip no longer than the tip is `EmptyClip`, and otherwise one
      chunk for sentence `i`, given the credit carried in, is appended;
      the pause after the sentence is split into the new credit and the
      chunk's literal silence, and the last sentence has no pause. */
  lemma StepOutcome(records: seq<Record>, clips: seq<Option<Seconds>>, stretches: seq<Option<Seconds>>,
                    i: nat, p: Progress)
    requires Aligned(records, clips, stretches) && i < |records|
    ensures var r := Step(records, clips, stretches, i, p);
            (clips[i].None? ==> r == Success(p)) &&
            (r.Failure? <==> clips[i].Some? && clips[i].value <= Tip) &&
            (r.Failure? ==> r.error == EmptyClip(i))
    ensures var r := Step(records, clips, stretches, i, p);
            r.Success? && clips[i].Some? ==>
              |r.value.chunks| == |p.chunks| + 1 && r.value.chunks[..|p.chunks|] == p.chunks &&
              r.value.chunks[|p.chunks|].index == i && r.value.chunks[|p.chunks|].pending == p.pending &&
              Consistent(r.value.chunks[|p.chunks|])
    ensures var r := Step(records, clips, stretches, i, p);
            r.Success? && clips[i].Some? && i + 1 < |records| ==>
              r.value.pending <= Cap &&
              r.value.chunks[|p.chunks|].extra + r.value.pending == Gap(records[i].end, records[i + 1].start)
    ensures var r := Step(records, clips, stretches, i, p);
            r.Success? && clips[i].Some? && i + 1 == |records| ==>
              r.value.pending == p.pending && r.value.chunks[|p.chunks|].extra == 0.0
  {
  }

  /** The state after the first `i` iterations. */
  function Run(records: seq<Record>, clips: seq<Option<Seconds>>, stretches: seq<Option<Seconds>>, i: nat)
    : (r: Result<Progress, ReconcileError>)
    requires Aligned(records, clips, stretches) && 0 < |records| && i <= |records|
    ensures r.Success? ==> r.value.pending <= Cap
    ensures r.Success? ==> Indices(r.value.chunks) == Synthesized(clips, i)
    ensures r.Success? ==> forall k :: 0 <= k < |r.value.chunks| ==> Consistent(r.value.chunks[k])
    ensures r.Failure? ==> r.error.EmptyClip? && r.error.index < i &&
                           clips[r.error.index].Some? && clips[r.error.index].value <= Tip
  {
    if i == 0 then Success(Progress(SplitGap(records[0].start).pending, []))
    else
      match Run(records, clips, stretches, i - 1)
      case Failure(e) => Failure(e)
      case Success(p) =>
        var r := Step(records, clips, stretches, i - 1, p);
        assert r.Success? && clips[i - 1].Some? ==>
          Indices(r.value.chunks) == Indices(p.chunks) + [i - 1];
        r
  }

  /** The reconciled track: leading silence and the chunks in index order. */
  function Reconciliation(records: seq<Record>, clips: seq<Option<Seconds>>, stretches: seq<Option<Seconds>>)
    : (r: Result<Reconciled, ReconcileError>)
    requires Aligned(records, clips, stretches)
    ensures r.Failure? && r.error == NoSentences <==> |records| == 0
    ensures r.Success? ==> r.value.prefix + SplitGap(records[0].start).pending == records[0].start
    ensures r.Success? ==> forall j :: 0 <= j < |records| && clips[j].Some? ==> clips[j].value > Tip
    ensures r.Failure? && r.error.EmptyClip? ==>
              r.error.index < |records| && clips[r.error.index].Some? && clips[r.error.index].value <= Tip
  {
    if |records| == 0 then Failure(NoSentences)
    else
      match Run(records, clips, stretches, |records|)
      case Failure(e) => Failure(e)
      case Success(p) =>
        RunSuccessClips(records, clips, stretches, |records|);
        Success(Reconciled(SplitGap(records[0].start).extra, p.chunks))
  }

  /** A run that gets through the first `i` iterations met no clip of
      350 ms or less among them. */
  lemma {:induction false} RunSuccessClips(records: seq<Record>, clips: seq<Option<Seconds>>,
                                           stretches: seq<Option<Seconds>>, i: nat)
    requires Aligned(records, clips, stretches) && 0 < |records| && i <= |records|
    requires Run(records, clips, stretches, i).Success?
    ensures forall j :: 0 <= j < i && clips[j].Some? ==> clips[j].value > Tip
  {
    if i > 0 {
      RunSuccessClips(records, clips, stretches, i - 1);
    }
  }

  lemma {:induction false} RunFailureSticks(records: seq<Record>, clips: seq<Option<Seconds>>,
                                            stretches: seq<Option<Seconds>>, i: nat)
    requires Aligned(records, clips, stretches) && 0 < |records| && i <= |records|
    requires Run(records, clips, stretches, i).Failure?
    ensures Run(records, clips, stretches, |records|) == Run(records, clips, stretches, i)
    decreases |records| - i
  {
    if i < |records| {
      RunFailureSticks(records, clips, stretches, i + 1);
    }
  }

  /** The regime test and the adjustment of one clip (app.py:544-570). */
  method FitSentence(r: Record, raw: Seconds, pending: Seconds, stretched: Option<Seconds>)
    returns (fitted: Fitted)
    requires raw > Tip
    ensures fitted == FitClip(Max(r.end - r.start, 0.0), raw - Tip, pending, stretched)
  {
    var lt := raw - Tip;
    var lo := Max(r.end - r.start, 0.0);
    var theta := lo / lt;
    QuotientBelow(lo, lt, 1.0);
    QuotientBelow(lo, lt, DropBelow);
    if theta < 1.0 && theta > DropBelow {
      var thetaPrim := (lo + pending) / lt;
      var speed := 1.0 / thetaPrim;
      match stretched
      case Some(d) =>
        fitted := Fitted(Stretched(speed), d);
      case None =>
        fitted := Fitted(StretchFailed(speed), lo + pending);
    } else if theta < DropBelow {
      fitted := Fitted(Dropped, lo + pending);
    } else {
      fitted := Fitted(Padded, pending + lt);
    }
  }

  /** The work of one iteration on a synthesized clip (app.py:543-592):
      fit the clip, pad it up to its window, and split the pause after the
      sentence into the next credit and literal silence. */
  method AdjustSentence(records: seq<Record>, i: nat, raw: Seconds, stretched: Option<Seconds>,
                        carried: Seconds)
    returns (chunk: Chunk, pending: Seconds)
    requires i < |records| && raw > Tip
    ensures i + 1 < |records| ==>
              var s := SplitGap(Gap(records[i].end, records[i + 1].start));
              pending == s.pending && chunk == MakeChunk(records[i], i, raw, stretched, carried, s.extra)
    ensures i + 1 == |records| ==>
              pending == carried && chunk == MakeChunk(records[i], i, raw, stretched, carried, 0.0)
  {
    pending := carried;
    var fitted := FitSentence(records[i], raw, pending, stretched);
    var body := fitted.body;
    var measured := body;
    var window := records[i].end - records[i].start + pending;
    var extra := 0.0;
    var silence: real;
    if i + 1 < |records| {
      var natural := Max(records[i + 1].start - records[i].end, 0.0);
      if natural >= 0.8 {
        pending := 0.8;
        natural := natural - 0.8;
      } else {
        pending := natural;
        natural := 0.0;
      }
      assert Split(pending, natural) == SplitGap(Gap(records[i].end, records[i + 1].start));
      extra := natural;
      silence := Max(window - measured, 0.0) + natural;
    } else {
      silence := Max(window - measured, 0.0);
    }
    chunk := Chunk(i, fitted.fit, carried, body, window, extra, measured + silence);
  }

  /** The leading-silence split and the loop of app.py:501-592. */
  method Reconcile(records: seq<Record>, clips: seq<Option<Seconds>>, stretches: seq<Option<Seconds>>)
    returns (r: Result<Reconciled, ReconcileError>)
    requires Aligned(records, clips, stretches)
    ensures r == Reconciliation(records, clips, stretches)
  {
    if |records| == 0 {
      return Failure(NoSentences);
    }
    var natural: real := records[0].start;
    var pending: real;
    if natural >= 0.8 {
      pending := 0.8;
      natural := natural - 0.8;
    } else {
      pending := natural;
      natural := 0.0;
    }
    var prefix: Seconds := natural;
    var chunks: seq<Chunk> := [];
    for i := 0 to |records|
      invariant 0.0 <= pending
      invariant Run(records, clips, stretches, i) == Success(Progress(pending, chunks))
    {
      if clips[i].None? {
        continue;
      }
      var raw := clips[i].value;
      if raw <= Tip {
        RunFailureSticks(records, clips, stretches, i + 1);
        return Failure(EmptyClip(i));
      }
      var carried := pending;
      var chunk;
      chunk, pending := AdjustSentence(records, i, raw, stretches[i], carried);
      assert Run(records, clips, stretches, i + 1) ==
        Step(records, clips, stretches, i, Progress(carried, chunks));
      chunks := chunks + [chunk];
    }
    return Success(Reconciled(prefix, chunks));
  }

  /** A failed synthesis adds no chunk and leaves the credit unchanged, so
      the next sentence borrows the pause that preceded the failed one. */
  lemma FailedSynthesisSkips(records: seq<Record>, clips: seq<Option<Seconds>>,
                             stretches: seq<Option<Seconds>>, i: nat)
    requires Aligned(records, clips, stretches) && i < |records| && clips[i].None?
    requires Run(records, clips, stretches, i).Success?
    ensures Run(records, clips, stretches, i + 1) == Run(records, clips, stretches, i)
  {
  }

  /** The chunks come out in ascending index order, one for exactly each
      sentence whose synthesis succeeded; this is the order the numeric
      sort of the chunk files (app.py:605) restores before the concatenation (app.py:608-611). */
  lemma {:induction false} SynthesizedAscending(clips: seq<Option<Seconds>>, n: nat)
    requires n <= |clips|
    ensures forall a, b :: 0 <= a < b < |Synthesized(clips, n)| ==>
              Synthesized(clips, n)[a] < Synthesized(clips, n)[b]
    ensures forall a :: 0 <= a < |Synthesized(clips, n)| ==> Synthesized(clips, n)[a] < n
    ensures forall j :: 0 <= j < n ==> (j in Synthesized(clips, n) <==> clips[j].Some?)
  {
    if n > 0 {
      SynthesizedAscending(clips, n - 1);
      var before := Synthesized(clips, n - 1);
      assert Synthesized(clips, n) == before + (if clips[n - 1].Some? then [n - 1] else []);
      assert n - 1 !in before;
    }
  }

  /** A clip a little longer than its slot is slowed into slot plus credit:
      2.5 s of speech for a 2.0 s sentence after 0.3 s of credit plays at
      `atempo` 2.5 / 2.3. */
  lemma StretchScenario()
    ensures ChooseRegime(2.0, 2.5) == Stretch
    ensures FitClip(2.0, 2.5, 0.3, Some(2.3)) == Fitted(Stretched(2.5 / 2.3), 2.3)
    ensures FitClip(2.0, 2.5, 0.3, None) == Fitted(StretchFailed(2.5 / 2.3), 2.3)
  {
  }

  /** A clip more than 1 / 0.44 times its slot is replaced by silence. */
  lemma DropScenario()
    ensures FitClip(1.0, 4.0, 0.5, Some(1.5)) == Fitted(Dropped, 1.5)
  {
  }

  /** A clip no longer than its slot is kept, after the credit. */
  lemma PadScenario()
    ensures FitClip(3.0, 2.0, 0.8, None) == Fitted(Padded, 2.8)
  {
  }

  /** At `theta == 0.44` exactly the clip is neither stretched nor dropped
      but kept whole, so it runs past its window by `0.56 * lt`. */
  lemma PadAtExactBoundaryOverruns(lt: real, pending: Seconds)
    requires lt > 0.0
    ensures var f := FitClip(DropBelow * lt, lt, pending, None);
            f.fit == Padded && f.body == DropBelow * lt + pending + 0.56 * lt
  {
  }

  /** Only an overshooting tempo change or the exact 0.44 boundary make a
      fitted clip longer than slot plus credit. */
  lemma {:induction false} OverrunCauses(lo: Seconds, lt: real, pending: Seconds, stretched: Option<Seconds>)
    requires lt > 0.0
    ensures var f := FitClip(lo, lt, pending, stretched);
            f.body > lo + pending <==>
              (f.fit.Stretched? && stretched.value > lo + pending) || (f.fit.Padded? && lo == DropBelow * lt)
  {
    var f := FitClip(lo, lt, pending, stretched);
    if f.fit.Padded? && lo == DropBelow * lt {
      assert f.body == pending + lt;
    }
  }
}
