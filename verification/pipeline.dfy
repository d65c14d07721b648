/**
 * The reconciliation engine as `VideoDubbing.__init__` runs it: kept
 * diarization turns and the fallback speaker, sentence spans, records,
 * the reconciled chunks, and the length of the assembled track. The
 * collaborators are parameters: the translator, the emotion classifier,
 * TTS (the raw clip length it produced for a record, or `None`) and the
 * tempo change (the length it produced for sentence `i`, or `None`).
 */
module Pipeline {
  import opened Basics
  import opened OrderedDict
  import opened Diarization
  import opened Segmenter
  import opened Attribution
  import opened Reconciler
  import opened Assembly

  datatype DubError =
    | NoSpeakers                     // `max` over an empty `speakers_rolls`
    | Unstamped(sentence: nat)       // `min([])` for a sentence with no timestamps
    | ReconcileFailed(error: ReconcileError)

  /** What TTS produced for each record. */
  function Clips(records: seq<Record>, tts: Record -> Option<Seconds>): (clips: seq<Option<Seconds>>)
    ensures |clips| == |records| && forall i :: 0 <= i < |records| ==> clips[i] == tts(records[i])
  {
    seq(|records|, i requires 0 <= i < |records| => tts(records[i]))
  }

  /** What the tempo change produced for each of `n` sentences. */
  function Stretches(n: nat, stretch: nat -> Option<Seconds>): (stretches: seq<Option<Seconds>>)
    ensures |stretches| == n && forall i :: 0 <= i < n ==> stretches[i] == stretch(i)
  {
    seq(n, i requires 0 <= i < n => stretch(i))
  }

  /** From the sentence spans on: records, reconciliation and assembly. */
  function Dubbing(spans: seq<Span>, rolls: Rolls, fallback: Speaker, contextual: bool,
                   translate: (string, string, string) -> string, emotion: (int, int) -> string,
                   tts: Record -> Option<Seconds>, stretch: nat -> Option<Seconds>, videoLength: Seconds)
    : (r: Result<real, DubError>)
    ensures r.Failure? ==> r.error.ReconcileFailed?
    ensures r.Failure? && r.error.error == NoSentences <==> |spans| == 0
  {
    Voiced(Records(spans, rolls, fallback, contextual, translate, emotion), tts, stretch, videoLength)
  }

  /** From the records on: synthesis, reconciliation and assembly. */
  function Voiced(records: seq<Record>, tts: Record -> Option<Seconds>, stretch: nat -> Option<Seconds>,
                  videoLength: Seconds): (r: Result<real, DubError>)
    ensures r.Failure? ==> r.error.ReconcileFailed?
    ensures r.Failure? && r.error.error == NoSentences <==> |records| == 0
  {
    var clips := Clips(records, tts);
    var stretches := Stretches(|records|, stretch);
    match Reconciliation(records, clips, stretches)
    case Failure(e) => Failure(ReconcileFailed(e))
    case Success(rec) => Success(Track(rec, videoLength, records[|records| - 1].end))
  }


  /** The output track's length, or the point at which the run stops. */
  function Dubbed(raw: seq<Turn>, words: seq<Word>, sentences: seq<string>, contextual: bool,
                  translate: (string, string, string) -> string, emotion: (int, int) -> string,
                  tts: Record -> Option<Seconds>, stretch: nat -> Option<Seconds>, videoLength: Seconds)
    : (r: Result<real, DubError>)
    ensures r.Failure? && r.error == NoSpeakers <==> |Kept(raw)| == 0
    ensures r.Failure? && r.error.Unstamped? ==>
              r.error.sentence < |sentences| && Unmatched(words, sentences, r.error.sentence) &&
              forall j :: 0 <= j < r.error.sentence ==> !Unmatched(words, sentences, j)
    ensures r.Failure? && r.error.Unstamped? <==>
              0 < |Kept(raw)| && exists k :: 0 <= k < |sentences| && Unmatched(words, sentences, k)
    ensures r.Success? ==> 0 < |Kept(raw)| && 0 < |sentences| && Segmentation(words, sentences).Success?
  {
    var rolls := Kept(raw);
    match MostFrequent(Values(rolls))
    case None => Failure(NoSpeakers)
    case Some(fallback) =>
      SegmentationFailsIffUnmatched(words, sentences);
      match Segmentation(words, sentences)
      case Failure(e) => Failure(Unstamped(e.sentence))
      case Success(spans) =>
        Dubbing(spans, rolls, fallback, contextual, translate, emotion, tts, stretch, videoLength)
  }

  /** The records loop, the reconciler and the assembly (app.py:444-617). */
  method DubSpans(spans: seq<Span>, rolls: Rolls, fallback: Speaker, contextual: bool,
                  translate: (string, string, string) -> string, emotion: (int, int) -> string,
                  tts: Record -> Option<Seconds>, stretch: nat -> Option<Seconds>, videoLength: Seconds)
    returns (r: Result<real, DubError>)
    ensures r == Dubbing(spans, rolls, fallback, contextual, translate, emotion, tts, stretch, videoLength)
  {
    var records := BuildRecords(spans, rolls, fallback, contextual, translate, emotion);
    r := Voice(records, tts, stretch, videoLength);
  }

  /** Synthesis, the reconciler and the assembly (app.py:501-617). */
  method Voice(records: seq<Record>, tts: Record -> Option<Seconds>, stretch: nat -> Option<Seconds>,
               videoLength: Seconds)
    returns (r: Result<real, DubError>)
    ensures r == Voiced(records, tts, stretch, videoLength)
  {
    var clips := Clips(records, tts);
    var stretches := Stretches(|records|, stretch);
    var reconciled := Reconcile(records, clips, stretches);
    if reconciled.Failure? {
      return Failure(ReconcileFailed(reconciled.error));
    }
    var total := Assemble(reconciled.value, videoLength, records[|records| - 1].end);
    return Success(total);
  }


  /** The steps of `__init__` in their order (app.py:111-114, 239, 247-298,
      444-617). */
  method Dub(raw: seq<Turn>, words: seq<Word>, sentences: seq<string>, contextual: bool,
             translate: (string, string, string) -> string, emotion: (int, int) -> string,
             tts: Record -> Option<Seconds>, stretch: nat -> Option<Seconds>, videoLength: Seconds)
    returns (r: Result<real, DubError>)
    ensures r == Dubbed(raw, words, sentences, contextual, translate, emotion, tts, stretch, videoLength)
  {
    var rolls := FilterTurns(raw);
    var fallback := MostFrequent(Values(rolls));
    if fallback.None? {
      return Failure(NoSpeakers);
    }
    var segmented := Segment(words, sentences);
    if segmented.Failure? {
      return Failure(Unstamped(segmented.error.sentence));
    }
    r := DubSpans(segmented.value, rolls, fallback.value, contextual, translate, emotion, tts, stretch, videoLength);
  }
}
