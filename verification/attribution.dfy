/**
 * The speaker attributor and the sentence records (app.py:444-484). Each
 * sentence span is given the speaker of the kept diarization turn it
 * overlaps most; the turn's boundaries are first truncated to whole
 * seconds with `int()`. Ties go to the earlier turn in dict order, and a
 * sentence that overlaps no turn gets the most frequent speaker.
 */
module Attribution {
  import opened Basics
  import opened Diarization
  import opened Segmenter

  /** Python's `int()` on a non-negative float: truncation, i.e. floor. */
  function Trunc(x: Seconds): (n: int)
    ensures 0 <= n && n as real <= x < n as real + 1.0
  {
    x.Floor
  }

  /** `get_overlap` (tools/utils.py is not part of this model): the length of
      the intersection of two intervals, zero when they are disjoint. */
  function GetOverlap(a: (real, real), b: (real, real)): real {
    Max(0.0, Min(a.1, b.1) - Max(a.0, b.0))
  }

  /** The overlap is never negative, never longer than either interval, and
      positive exactly when the two intervals properly intersect. */
  lemma OverlapIsIntersection(a: (real, real), b: (real, real))
    ensures 0.0 <= GetOverlap(a, b)
    ensures GetOverlap(a, b) <= Max(a.1 - a.0, 0.0) && GetOverlap(a, b) <= Max(b.1 - b.0, 0.0)
    ensures GetOverlap(a, b) > 0.0 <==> a.0 < b.1 && b.0 < a.1 && a.0 < a.1 && b.0 < b.1
  {
  }

  /** Overlap of a sentence with a kept turn whose boundaries were truncated. */
  function TurnOverlap(span: Span, key: (Seconds, Seconds)): real {
    GetOverlap((span.start, span.end), (Trunc(key.0) as real, Trunc(key.1) as real))
  }

  function OverlapOf(rolls: Rolls, span: Span, best: Option<nat>): real
    requires best.Some? ==> best.value < |rolls|
  {
    match best
    case None => 0.0
    case Some(k) => TurnOverlap(span, rolls[k].0)
  }

  /** The turn the attribution loop has settled on after the first `n`
      turns. */
  function BestTurn(rolls: Rolls, span: Span, n: nat): (best: Option<nat>)
    requires n <= |rolls|
    ensures best.Some? ==> best.value < n
  {
    if n == 0 then None
    else
      var best := BestTurn(rolls, span, n - 1);
      if TurnOverlap(span, rolls[n - 1].0) > OverlapOf(rolls, span, best) then Some(n - 1) else best
  }

  /** The settled turn is the first one whose overlap is positive and
      maximal; there is none exactly when no turn overlaps at all. */
  lemma {:induction false} BestTurnIsFirstMaximum(rolls: Rolls, span: Span, n: nat)
    requires n <= |rolls|
    ensures var best := BestTurn(rolls, span, n);
            (best.None? <==> forall j :: 0 <= j < n ==> TurnOverlap(span, rolls[j].0) <= 0.0) &&
            (best.Some? ==> TurnOverlap(span, rolls[best.value].0) > 0.0) &&
            (best.Some? ==> forall j :: 0 <= j < n ==>
               TurnOverlap(span, rolls[j].0) <= TurnOverlap(span, rolls[best.value].0)) &&
            (best.Some? ==> forall j :: 0 <= j < best.value ==>
               TurnOverlap(span, rolls[j].0) < TurnOverlap(span, rolls[best.value].0))
  {
    if n > 0 {
      BestTurnIsFirstMaximum(rolls, span, n - 1);
    }
  }

  /** The speaker a sentence is attributed to. */
  function Attributed(rolls: Rolls, span: Span, fallback: Speaker): Speaker {
    match BestTurn(rolls, span, |rolls|)
    case None => fallback
    case Some(k) => rolls[k].1
  }

  /** A sentence overlapping no kept turn goes to the fallback speaker;
      otherwise to the speaker of the first turn of maximal overlap. */
  lemma AttributedSpeaker(rolls: Rolls, span: Span, fallback: Speaker)
    ensures (forall j :: 0 <= j < |rolls| ==> TurnOverlap(span, rolls[j].0) <= 0.0) ==>
            Attributed(rolls, span, fallback) == fallback
    ensures (exists j :: 0 <= j < |rolls| && TurnOverlap(span, rolls[j].0) > 0.0) ==>
            exists k :: 0 <= k < |rolls| && Attributed(rolls, span, fallback) == rolls[k].1 &&
              TurnOverlap(span, rolls[k].0) > 0.0 &&
              (forall j :: 0 <= j < |rolls| ==> TurnOverlap(span, rolls[j].0) <= TurnOverlap(span, rolls[k].0)) &&
              (forall j :: 0 <= j < k ==> TurnOverlap(span, rolls[j].0) < TurnOverlap(span, rolls[k].0))
  {
    BestTurnIsFirstMaximum(rolls, span, |rolls|);
  }

  /** The overlap loop of app.py:457-472. */
  method AttributeSpeaker(rolls: Rolls, span: Span, fallback: Speaker) returns (speaker: Speaker)
    ensures speaker == Attributed(rolls, span, fallback)
  {
    speaker := fallback;
    var maxOverlap := 0.0;
    for i := 0 to |rolls|
      invariant maxOverlap == OverlapOf(rolls, span, BestTurn(rolls, span, i))
      invariant speaker == match BestTurn(rolls, span, i) case None => fallback case Some(k) => rolls[k].1
    {
      var (key, value) := rolls[i];
      var speakerStart := Trunc(key.0);
      var speakerEnd := Trunc(key.1);
      var overlap := GetOverlap((span.start, span.end), (speakerStart as real, speakerEnd as real));
      assert overlap == TurnOverlap(span, key);
      assert BestTurn(rolls, span, i + 1) ==
        if overlap > maxOverlap then Some(i) else BestTurn(rolls, span, i);
      if overlap > maxOverlap {
        maxOverlap := overlap;
        speaker := value;
      }
    }
  }

  /** One row of `records`: `[translated, sentence, start, end, speaker, emotion]`. */
  datatype Record = Record(translated: string, source: string, start: Seconds, end: Seconds,
                           speaker: Speaker, emotion: string)

  /** The text before and after sentence `i` handed to a context-aware
      translator (app.py:450-455); empty at the ends, and both empty when
      the translator takes no context. */
  function Context(spans: seq<Span>, i: nat, contextual: bool): (string, string)
    requires i < |spans|
  {
    if !contextual then ("", "")
    else (if i > 0 then spans[i - 1].text else "", if i + 1 < |spans| then spans[i + 1].text else "")
  }

  /** The record of sentence `i`: its translation in context, its own text
      and bounds, the attributed speaker, and the emotion the classifier
      reports for the audio between the bounds truncated to whole seconds,
      in milliseconds. */
  function RecordFor(spans: seq<Span>, i: nat, rolls: Rolls, fallback: Speaker, contextual: bool,
                     translate: (string, string, string) -> string, emotion: (int, int) -> string): (r: Record)
    requires i < |spans|
    ensures r.source == spans[i].text && r.start == spans[i].start && r.end == spans[i].end
    ensures (forall j :: 0 <= j < |rolls| ==> TurnOverlap(spans[i], rolls[j].0) <= 0.0) ==>
            r.speaker == fallback
    ensures (exists j :: 0 <= j < |rolls| && TurnOverlap(spans[i], rolls[j].0) > 0.0) ==>
            exists k :: 0 <= k < |rolls| && r.speaker == rolls[k].1 &&
              TurnOverlap(spans[i], rolls[k].0) > 0.0 &&
              (forall j :: 0 <= j < |rolls| ==> TurnOverlap(spans[i], rolls[j].0) <= TurnOverlap(spans[i], rolls[k].0)) &&
              (forall j :: 0 <= j < k ==> TurnOverlap(spans[i], rolls[j].0) < TurnOverlap(spans[i], rolls[k].0))
    ensures !contextual ==> r.translated == translate(spans[i].text, "", "")
    ensures contextual ==> r.translated == translate(spans[i].text, if i == 0 then "" else spans[i - 1].text,
                                                     if i + 1 == |spans| then "" else spans[i + 1].text)
    ensures r.emotion == emotion(spans[i].start.Floor * 1000, spans[i].end.Floor * 1000)
  {
    AttributedSpeaker(rolls, spans[i], fallback);
    var context := Context(spans, i, contextual);
    Record(translate(spans[i].text, context.0, context.1), spans[i].text, spans[i].start, spans[i].end,
           Attributed(rolls, spans[i], fallback),
           emotion(Trunc(spans[i].start) * 1000, Trunc(spans[i].end) * 1000))
  }

  /** `records`: one row per span, in the spans' order. */
  function Records(spans: seq<Span>, rolls: Rolls, fallback: Speaker, contextual: bool,
                   translate: (string, string, string) -> string, emotion: (int, int) -> string)
    : (records: seq<Record>)
    ensures |records| == |spans|
    ensures forall i :: 0 <= i < |spans| ==>
              records[i].source == spans[i].text && records[i].start == spans[i].start &&
              records[i].end == spans[i].end && records[i].speaker == Attributed(rolls, spans[i], fallback)
  {
    seq(|spans|, i requires 0 <= i < |spans| => RecordFor(spans, i, rolls, fallback, contextual, translate, emotion))
  }

  /** The record-building loop (app.py:444-484). The translator and the
      emotion classifier are collaborators, given as functions. */
  method BuildRecords(spans: seq<Span>, rolls: Rolls, fallback: Speaker, contextual: bool,
                      translate: (string, string, string) -> string, emotion: (int, int) -> string)
    returns (records: seq<Record>)
    ensures records == Records(spans, rolls, fallback, contextual, translate, emotion)
  {
    records := [];
    for i := 0 to |spans|
      invariant |records| == i
      invariant forall j :: 0 <= j < i ==>
                  records[j] == RecordFor(spans, j, rolls, fallback, contextual, translate, emotion)
    {
      var sentence := spans[i].text;
      var translated;
      if !contextual {
        translated := translate(sentence, "", "");
      } else {
        var before := if i > 0 then spans[i - 1].text else "";
        var after := if i + 1 < |spans| then spans[i + 1].text else "";
        translated := translate(sentence, before, after);
      }
      var speaker := AttributeSpeaker(rolls, spans[i], fallback);
      var start := Trunc(spans[i].start) * 1000;
      var end := Trunc(spans[i].end) * 1000;
      var emotionLabel := emotion(start, end);
      var record := Record(translated, sentence, spans[i].start, spans[i].end, speaker, emotionLabel);
      assert record == RecordFor(spans, i, rolls, fallback, contextual, translate, emotion);
      records := records + [record];
    }
  }
}
