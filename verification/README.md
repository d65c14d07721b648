# ViDubb timeline reconciliation, modelled in Dafny

ViDubb dubs a video into another language. The core of its
`VideoDubbing.__init__` (`app.py`) is timing work on seconds and durations:

- **Diarization filter.** The diarization collaborator yields speaker turns.
  Only turns longer than 1.5 s are kept, in a dict keyed by `(start, end)`.
- **Fallback speaker.** The most frequent label among the kept turns.
- **Sentence segmenter.** It maps every character of every tokenized sentence
  back to the ASR word that owns it, through a running counter `letter`.
  A sentence's span is the `min` and `max` of the timestamps collected.
- **Speaker attributor.** A sentence gets the speaker of the kept turn it
  overlaps most, or else the fallback speaker.
- **Silence budget tracker.** It carries a credit of at most 0.8 s of pause
  time into the fitting of the next sentence.
- **Timing reconciler.** It trims the 350 ms tail off each synthesized clip.
  Then, on `theta = slot / clip`, it stretches the clip with a tempo change,
  drops it for silence, or pads it.
- **Track assembler.** The output is a lead-in silence, then the chunks in
  index order, then a trailing silence of `|video length - last end|`.

The project models these steps and what they guarantee:

- Each loop of the modelled code is a `method`, proved equal to a
  specification function, with two exceptions. The ASR flatten loop
  (app.py:247-253) is not modelled: its output, the flat word list, is an
  input here. The sentence copy loop (app.py:264-265) is the identity on
  the tokenizer's output, so the tokenized sentences are an input too.
- The meaning of each function is stated by its own contract or by a lemma
  about it: `Reconciler.StepOutcome` for `Step`,
  `Attribution.AttributedSpeaker` for `Attributed`,
  `Attribution.OverlapIsIntersection` for `GetOverlap`,
  `Segmenter.OwnerIsContainingWord` and `Segmenter.SentenceStampsMembers`
  for `Stamps` and `SentenceStamps`, `Reconciler.SynthesizedAscending` for
  `Synthesized`, and `Assembly.DurationsSplit`, `Assembly.RunCovers` and
  `Assembly.TrackLength` for the sums and the covered timeline.
  `Attribution.Context` is stated only through the contract of
  `Attribution.RecordFor`.
- Lemmas relate the steps. The central one, `Assembly.TrackLength`, is a drift
  theorem. Suppose every synthesis succeeds and the sentences are in timeline
  order. Then the dubbed track is exactly as long as the original up to the
  last sentence's end, plus the trailing silence, plus the sum of the chunks'
  overruns. The corollary `Assembly.TrackMatchesVideoIffNoOverrun` says the
  track has the video's length if and only if no chunk overruns.

How the model is set up:

- Modules follow the stages: `Basics`, `OrderedDict`, `Diarization`,
  `Segmenter`, `Attribution`, `SilenceBudget`, `Reconciler`, `Assembly`,
  `Pipeline`.
- Python dicts are insertion-ordered association lists. `OrderedDict.Put` is
  `d[k] = v`, proved to refine map update.
- Time is `Basics.Seconds`, a non-negative `real`.
- The collaborators are parameters:
  - TTS is the raw clip length per record, or `None` when synthesis failed.
  - The ffmpeg tempo change is the length it produced, or `None` when it
    exited with an error.
  - The translator and the emotion classifier are functions.
- The Python exceptions on the modelled path are `Result` failures:
  - `max` of an empty list is `NoSpeakers`;
  - `min([])` of a sentence with no timestamps is `Unstamped`;
  - `records[0]` of an empty list is `NoSentences`;
  - `lo / lt` with `lt == 0` is `EmptyClip`.

Source quirks that the model states rather than corrects:

- The tests at app.py:555 and 564 are both strict, so `theta == 0.44`
  exactly is left to the `else` at app.py:567 and the clip is padded.
  `Reconciler.PadAtExactBoundaryOverruns` shows that the clip then overruns
  its window.
- The post-adjust `lo` of app.py:575 is not clamped at zero, unlike the one at
  app.py:548. `Reconciler.MakeChunk` keeps that difference in `window`.
- Turn boundaries are truncated with `int()` before the overlap is computed
  (app.py:463-464).
- Duplicate sentences collapse into one dict entry (app.py:292); see
  `Segmenter.DuplicateSentencesCollapse`.
- A failed synthesis `continue`s without touching the credit (app.py:539-541);
  see `Reconciler.FailedSynthesisSkips`.

## Model

| member | source | states |
|---|---|---|
| OrderedDict.Put | app.py:114 | `d[k] = v`: the key order gains `k` only when `k` is new, keys stay distinct, `(k, v)` is present and replaces the old entry for `k` in place, every other entry keeps its place and value, and nothing else appears |
| OrderedDict.PutRefinesMapUpdate | app.py:114 | on a dict with distinct keys, the map denoted after `d[k] = v` is the old map updated at `k` |
| OrderedDict.PutSameKeyTwice | app.py:292 | assigning to the same key twice leaves one entry holding the second value |
| OrderedDict.PutAll | app.py:292 | assigning a sequence of entries one by one leaves a dict with distinct keys |
| OrderedDict.PutAllKeys | app.py:292 | every key assigned is a key of the resulting dict |
| OrderedDict.PutAllHasLast | app.py:292 | an assignment no later assignment to the same key overrides is an entry of the resulting dict |
| OrderedDict.PutAllEntry | app.py:292 | every entry of the resulting dict is an assignment that no later assignment to the same key overrides |
| OrderedDict.PutAllKeyOrder | app.py:292 | the dict's keys are the keys assigned without repeats, each at the place of its first assignment |
| OrderedDict.FirstOccurrencesOrdered | app.py:292 | those keys are listed in increasing order of their first assignment |
| OrderedDict.PutAllDistinct | app.py:292 | assigning pairs whose keys are all distinct leaves exactly those pairs, in order |
| Diarization.Kept | app.py:111-114 | the kept dict has distinct keys, and every kept turn lasts more than 1.5 s |
| Diarization.FilterTurns | app.py:111-114 | the filter loop builds exactly the dict `Kept` describes |
| Diarization.KeptDenotesKeptMap | app.py:111-114 | the kept list denotes the Python dict obtained by assigning each long turn in order |
| Diarization.KeptKeys | app.py:111-114 | a `(start, end)` is a key of the kept dict if and only if some turn longer than 1.5 s has those boundaries |
| Diarization.KeptLastWins | app.py:111-114 | a long turn's boundaries map to its own speaker unless a later turn has the same boundaries |
| Diarization.ModeIndex | app.py:239 | the index of the first label of maximal count within a prefix |
| Diarization.MostFrequent | app.py:239 | `None` exactly for no kept turns; otherwise a label of the list whose count is maximal, and strictly greater than the count of every label before its first occurrence (Python's `max` keeps the first maximum) |
| Segmenter.Owner | app.py:280-289 | a position owned by word `k` lies within the transcript's characters, and `k` is a word index |
| Segmenter.OwnerIsContainingWord | app.py:280-289 | position `letter` belongs to word `k` if and only if it lies after the characters of the words before `k` and within those of `k` |
| Segmenter.StampsAt | app.py:280-289 | the `k`/`m` loops with counter `f` append exactly the start and end of the word owning position `letter`, or nothing |
| Segmenter.SentenceStampsMembers | app.py:276-289 | a timestamp is collected for a sentence if and only if it is the start or end of a word owning one of the sentence's positions |
| Segmenter.CollectStamps | app.py:276-289 | the character loop collects the stamps of positions `base + 1 .. base + n` in order |
| Segmenter.Collected | app.py:271-290 | one list per sentence; a timestamp is in sentence `k`'s list if and only if it is the start or end of a word owning one of the positions after the `letter` value reached by the earlier sentences (one step per character plus one per sentence), up to that plus the sentence's length |
| Segmenter.FirstEmpty | app.py:292 | the first sentence that collected nothing (where `min([])` raises): every earlier one collected something |
| Segmenter.SpanDictAfter | app.py:292 | the span dict has distinct sentence keys, each entry's start is at most its end, and it has at most one entry per sentence |
| Segmenter.SpanDictIsPutAll | app.py:271-292 | the span dict is the dict obtained by assigning each sentence's `[min, max]` under its text, in sentence order |
| Segmenter.LastOccurrenceAssigned | app.py:292 | a sentence is the last occurrence of its text if and only if its assignment is not overridden by a later one |
| Segmenter.SpansCoverTexts | app.py:292-298 | when every sentence collected something, every sentence's text has a row in `record` |
| Segmenter.SpansHaveLast | app.py:292-298 | the last occurrence of a text leaves a row with its `[min, max]` |
| Segmenter.SpansAreLast | app.py:292-298 | every row of `record` is that of a last occurrence |
| Segmenter.ReadRecord | app.py:295-298 | the loop lists the dict's entries in insertion order, one `[sentence, start, end]` row per entry |
| Segmenter.Segmentation | app.py:271-298 | a failure names the first sentence that collected nothing, every earlier one having collected something; success if and only if every sentence collected something; on success there is at most one span per sentence, none exactly when there are no sentences, and every span starts no later than it ends |
| Segmenter.SegmentationSucceeded | app.py:271-298 | on success every sentence collected at least one timestamp, and the spans are those of the span dict built from all sentences |
| Segmenter.SegmentationCoversTexts | app.py:271-298 | on success every sentence's text has a span |
| Segmenter.SegmentationKeepsLast | app.py:271-298 | on success the last occurrence of a text collected something and its `[min, max]` is a span |
| Segmenter.SegmentationOnlyLast | app.py:271-298 | on success every span is the text and `[min, max]` of a last occurrence, so an earlier duplicate leaves nothing |
| Segmenter.SegmentationOrder | app.py:271-298 | on success the spans' texts are the sentences without repeats, in order of first occurrence |
| Segmenter.SegmentationDistinct | app.py:271-298 | on success with no repeated text, there is one span per sentence in sentence order, and span `k` is sentence `k`'s text with the `[min, max]` of what it collected |
| Segmenter.AddSentence | app.py:273-292 | one pass of the sentence loop fails if and only if the sentence collected nothing, and otherwise stores its `[min, max]` under its text |
| Segmenter.Segment | app.py:271-298 | the segmentation loop computes `Segmentation` |
| Segmenter.NoStampsPastEnd | app.py:276-289 | a sentence of no characters, or one starting past the transcript's characters, collects nothing |
| Segmenter.UnmatchedSentence | app.py:271-290 | an empty sentence, or one starting past the transcript, collects nothing |
| Segmenter.UnmatchedSentenceFails | app.py:271-292 | segmentation fails at such a sentence or at an earlier one |
| Segmenter.OwnerWithinTranscript | app.py:280-289 | every position from 1 to the transcript's character count has an owning word |
| Segmenter.CollectsNothingIffUnmatched | app.py:276-290 | a sentence collects nothing if and only if it is empty or starts at or past the transcript's last character |
| Segmenter.SegmentationFailsIffUnmatched | app.py:271-292 | segmentation fails if and only if some sentence is empty or starts at or past the transcript's last character, and then at the first such sentence |
| Segmenter.RepeatedSentenceDict | app.py:292 | a sentence stored twice leaves one dict entry with the times of its second occurrence |
| Segmenter.DuplicateSentencesCollapse | app.py:292-298 | two identical sentences yield a single span, with the `[min, max]` of the second occurrence's stamps |
| Attribution.Trunc | app.py:463-464 | `int()` of non-negative seconds is its floor |
| Attribution.OverlapIsIntersection | app.py:467 | the overlap is non-negative, no longer than either interval, and positive if and only if the intervals properly intersect |
| Attribution.BestTurn | app.py:459-472 | the turn settled on after `n` turns is one of them |
| Attribution.BestTurnIsFirstMaximum | app.py:459-472 | no turn is chosen if and only if no overlap is positive; otherwise the chosen turn has positive overlap, maximal among all turns and strictly greater than every earlier turn's |
| Attribution.AttributedSpeaker | app.py:457-472 | a sentence overlapping no kept turn gets the fallback speaker; otherwise it gets the speaker of the first turn of maximal positive overlap |
| Attribution.AttributeSpeaker | app.py:457-472 | the overlap loop computes `Attributed` |
| Attribution.RecordFor | app.py:448-484 | record `i` holds span `i`'s text and bounds; its speaker is the fallback when no kept turn's overlap with the truncated bounds is positive, and otherwise the speaker of a turn of positive, maximal overlap, strictly greater than every earlier turn's; its translation is of the text alone, or with the previous and next sentences' texts (empty at either end) when context is on; its emotion is the classifier's for the bounds floored to whole seconds, in milliseconds |
| Attribution.Records | app.py:444-484 | one record per span, in order, each with its span's text and bounds and its attributed speaker |
| Attribution.BuildRecords | app.py:444-484 | the records loop computes `Records` |
| SilenceBudget.SplitGap | app.py:501-509 | the credit is at most 0.8 s, credit plus emitted silence is the whole pause, silence is emitted only when the full 0.8 s is carried, and a pause under 0.8 s is carried whole |
| SilenceBudget.Gap | app.py:577 | the pause after a sentence is zero or the original-timeline gap, and exactly the gap when the sentences do not overlap |
| SilenceBudget.SplitIsMinWithCap | app.py:578-583 | the carried credit is `min(gap, 0.8)` and the emitted silence is the rest |
| SilenceBudget.ExampleLongPause | app.py:578-580 | a 1.2 s pause carries 0.8 s and emits 0.4 s |
| Reconciler.QuotientBelow | app.py:549 | comparing `theta = lo / lt` with a constant is comparing `lo` with the constant times `lt` |
| Reconciler.ChooseRegime | app.py:555-567 | stretch if and only if `0.44 lt < lo < lt`; drop if and only if `lo < 0.44 lt`; pad if and only if `lo >= lt` or `lo == 0.44 lt` |
| Reconciler.FitClip | app.py:555-570 | drop gives silence of slot plus credit; pad gives credit plus the clip; stretch uses speed `lt / (lo + pending)` and gives ffmpeg's output, or silence of slot plus credit when ffmpeg fails; the body exceeds slot plus credit only after a successful stretch or at `theta == 0.44` |
| Reconciler.FitSentence | app.py:543-570 | the trim and the regime branches compute `FitClip` for slot `max(end - start, 0)` and clip `raw - 0.35` |
| Reconciler.MakeChunk | app.py:543-592 | the chunk's fit and clip are those `FitClip` gives for slot `max(end - start, 0)` and clip `raw - 0.35`; the chunk is that clip padded up to `end - start + credit`, plus the pause silence; its clip runs past that window only after a stretch, for a reversed sentence, or at the exact 0.44 boundary |
| Reconciler.StepOutcome | app.py:515-592 | one iteration: a failed synthesis changes nothing; `EmptyClip(i)` if and only if the clip is no longer than 350 ms; otherwise exactly one chunk for sentence `i` is appended, given the credit carried in, and the pause after it splits into the new credit (at most 0.8 s) and the chunk's literal silence, with no pause after the last sentence |
| Reconciler.Run | app.py:501-592 | after any number of iterations the credit is at most 0.8 s, the chunks are exactly those of the synthesized sentences in index order, each chunk's length is its padded clip plus its pause, and a failure is an empty clip met earlier |
| Reconciler.RunSuccessClips | app.py:501-592 | a run that gets through the first `i` iterations met no synthesized clip of 350 ms or less among them |
| Reconciler.Reconciliation | app.py:501-592 | `NoSentences` if and only if there are no records; on success the lead-in silence plus the first credit is the first sentence's start and every synthesized clip is longer than the 350 ms tip; `EmptyClip` names a clip no longer than the tip |
| Reconciler.RunFailureSticks | app.py:501-592 | once an iteration fails, the loop's result is that failure |
| Reconciler.AdjustSentence | app.py:543-592 | the work of one iteration on a synthesized clip yields the chunk `MakeChunk` describes, with the pause after the sentence split into the next credit and the chunk's silence, and no pause after the last sentence |
| Reconciler.Reconcile | app.py:501-592 | the leading split and the reconciliation loop compute `Reconciliation` |
| Reconciler.FailedSynthesisSkips | app.py:539-541 | a failed synthesis adds no chunk and leaves the credit unchanged |
| Reconciler.SynthesizedAscending | app.py:602-611 | the chunks are in strictly ascending index order, one for exactly each sentence whose synthesis succeeded, which is the order the numeric file sort restores |
| Reconciler.StretchScenario | app.py:555-563 | a 2.0 s slot, a 2.5 s clip and 0.3 s of credit stretch at speed 2.5 / 2.3, or become 2.3 s of silence if ffmpeg fails |
| Reconciler.DropScenario | app.py:564-566 | a 1.0 s slot with a 4.0 s clip and 0.5 s of credit becomes 1.5 s of silence |
| Reconciler.PadScenario | app.py:567-570 | a 3.0 s slot with a 2.0 s clip and 0.8 s of credit becomes 2.8 s: credit then clip |
| Reconciler.PadAtExactBoundaryOverruns | app.py:555-570 | at `theta == 0.44` exactly the clip is padded and runs `0.56 lt` past slot plus credit |
| Reconciler.OverrunCauses | app.py:555-570 | a fitted clip is longer than slot plus credit if and only if a successful stretch overshot or `theta == 0.44` exactly |
| Assembly.Track | app.py:608-617 | the exported length is at least lead-in plus trailing silence, and exactly that when there are no chunks |
| Assembly.Assemble | app.py:608-619 | the concatenation yields lead-in plus the chunks plus `abs(video length - last end)`, and so is at least lead-in plus trailing silence |
| Assembly.Overrun | app.py:586-592 | a chunk's overrun is non-negative, and zero if and only if its fitted clip fits its window |
| Assembly.DurationsSplit | app.py:586-592 | the chunks' total length is the windows plus the pauses plus the overruns |
| Assembly.NoOverrunsIffFits | app.py:586-592 | the overruns sum to zero if and only if every fitted clip fits its window |
| Assembly.RunCovers | app.py:501-592 | when every synthesis succeeds, the lead-in, the windows and pauses emitted so far and the credit still held add up to the original timeline covered so far |
| Assembly.CoveredOrdered | app.py:577 | for ordered sentences the covered timeline ends where the pause after the last sentence so far ends |
| Assembly.TrackLength | app.py:501-617 | with every synthesis succeeding and sentences in order, the track is the last sentence's end, plus the trailing silence, plus the sum of the overruns |
| Assembly.TrackMatchesVideoIffNoOverrun | app.py:501-617 | with the video no shorter than the speech, the track has the video's length if and only if no chunk's clip overruns its window |
| Pipeline.Dubbing | app.py:444-617 | from the spans on, the only failures are the reconciler's, and `NoSentences` occurs exactly when there are no spans |
| Pipeline.Dubbed | app.py:111-617 | `NoSpeakers` if and only if no turn is kept; `Unstamped` if and only if some turn is kept and some sentence is empty or starts at or past the transcript's last character, and it names the first such sentence; success implies kept turns, sentences and a successful segmentation |
| Pipeline.Voiced | app.py:501-617 | from the records on, the only failures are the reconciler's, and `NoSentences` occurs exactly when there are no records |
| Pipeline.Voice | app.py:501-617 | synthesis, reconciliation and assembly compute `Voiced` |
| Pipeline.DubSpans | app.py:444-617 | records, reconciliation and assembly compute `Dubbing` |
| Pipeline.Dub | app.py:111-617 | the steps of `__init__` in order compute `Dubbed` |

## Left out

- File system, process and dependency calls: `os.system`, directories,
  `subprocess`, Wav2Lip and the chunk files. The chunk files' numeric sort is
  replaced by the ascending index order that `Reconciler.SynthesizedAscending`
  proves.
- Model inference: pyannote, Whisper, the speechbrain emotion classifier, the
  translators, audio-separator and the TTS engines. Their outputs are inputs
  or function parameters. The emotion classifier's `except` path (label
  `'None'`) is folded into the `emotion` parameter.
- The translator's context switch (`Context_translation`) is the boolean
  `contextual`.
- Face and frame processing, per-speaker audio export, the Gradio UI and
  `language_mapping`.
- `get_overlap`: tools/utils.py is not part of this model. It is taken to be
  the length of the intersection of the two intervals, clamped at zero
  (`Attribution.GetOverlap`).
- The ASR flatten loop (app.py:247-253) is not modelled: the flat word list
  it produces is the input `words`. The sentence copy loop (app.py:264-265)
  copies the tokenizer's output unchanged; its result is the input
  `sentences`.
- The sentence-decomposition block between the segmentation and the records
  loop leaves `new_record` equal to `record`. It is not modelled, and the
  records loop reads the spans directly.
- Floating point and sample-level effects: pydub's millisecond rounding of
  silences, and the exact length `atempo` produces. Durations are exact reals.
  The stretch's output length is a parameter.
- Reconciler.Reconciliation: a trimmed clip of length zero or less is the
  error `EmptyClip`. The source divides by zero whenever the trimmed clip
  is empty, which includes a clip of exactly 350 ms. Which shorter clips
  pydub's slice leaves empty is not modelled: every clip of at most 350 ms
  is treated as empty.
- Assembly.TrackLength: proved only when every synthesis succeeds and the
  sentences are in timeline order. With a failed synthesis, that sentence's
  window and the pause after it are absent from the track. `Reconciler.Run`
  still gives the chunk structure in that case.
- Segmenter.DuplicateSentencesCollapse: the surviving span's times are
  stated through `Collected`, that is, the stamps collected by the second
  occurrence.
- The fallback speaker is computed before segmentation as in the source.
  The per-speaker audio export between them is not modelled.
