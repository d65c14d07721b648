/**
 * The sentence segmenter (app.py:247-298). The ASR collaborator yields
 * timed words; the sentence tokenizer splits their concatenated text into
 * sentences. Each sentence character is mapped to a position of the
 * flattened character stream of all words through a running counter
 * `letter` that advances once per sentence character and once more after
 * each sentence; the word owning that position contributes its start and
 * end times, and the sentence's span is the `min` and `max` of everything
 * collected. Spans are stored in a dict keyed by the sentence text.
 */
module Segmenter {
  import opened Basics
  import opened OrderedDict

  /** One ASR word: `[word, start, end]` of `time_stamped`. */
  datatype Word = Word(text: string, start: Seconds, end: Seconds)

  /** One `[sentence, start, end]` row of `record`. */
  datatype Span = Span(text: string, start: Seconds, end: Seconds)

  /** `min(starts)` of an empty list raises: sentence `sentence` matched no character. */
  datatype SegmentError = NoTimestamps(sentence: nat)

  /** `time_stamped_sentances`: sentence text to `[min, max]`. */
  type SpanDict = seq<(string, (Seconds, Seconds))>

  /** Number of characters of all of `words`. */
  function TotalChars(words: seq<Word>): nat {
    if |words| == 0 then 0 else TotalChars(words[..|words| - 1]) + |words[|words| - 1].text|
  }

  /** The word owning 1-based position `letter` of the concatenated
      characters of `words`, if any. */
  function Owner(words: seq<Word>, letter: int): (k: Option<nat>)
    ensures k.Some? ==> k.value < |words| && 1 <= letter <= TotalChars(words)
  {
    if |words| == 0 then None
    else
      var n := |words| - 1;
      if TotalChars(words[..n]) < letter <= TotalChars(words) then Some(n)
      else Owner(words[..n], letter)
  }

  lemma {:induction false} TotalCharsMonotone(words: seq<Word>, j: nat, k: nat)
    requires j <= k <= |words|
    ensures TotalChars(words[..j]) <= TotalChars(words[..k])
  {
    if j < k {
      TotalCharsMonotone(words, j, k - 1);
      assert words[..k][..k - 1] == words[..k - 1];
    }
  }

  /** Position `letter` belongs to word `k` exactly when it lies after the
      characters of the words before `k` and within those of `k`. */
  lemma {:induction false} OwnerIsContainingWord(words: seq<Word>, letter: int, k: nat)
    ensures Owner(words, letter) == Some(k) <==>
            k < |words| && TotalChars(words[..k]) < letter <= TotalChars(words[..k + 1])
  {
    if |words| > 0 {
      var n := |words| - 1;
      var w := words[..n];
      assert words[..n + 1] == words;
      if k < n {
        assert words[..k] == w[..k] && words[..k + 1] == w[..k + 1];
        TotalCharsMonotone(words, k + 1, n);
      }
      if !(TotalChars(w) < letter <= TotalChars(words)) {
        OwnerIsContainingWord(w, letter, k);
      }
    }
  }

  /** The timestamps the inner loops append for one value of `letter`. */
  function Stamps(words: seq<Word>, letter: int): seq<Seconds> {
    match Owner(words, letter)
    case None => []
    case Some(k) => [words[k].start, words[k].end]
  }

  lemma StampsSnoc(words: seq<Word>, k: nat, letter: int)
    requires k < |words|
    ensures Stamps(words[..k + 1], letter) ==
            Stamps(words[..k], letter) +
            (if TotalChars(words[..k]) < letter <= TotalChars(words[..k + 1])
             then [words[k].start, words[k].end] else [])
  {
    var w := words[..k + 1];
    assert w[..k] == words[..k];
    assert Owner(w, letter) ==
      if TotalChars(words[..k]) < letter <= TotalChars(w) then Some(k) else Owner(words[..k], letter);
  }

  /** The loops over `k` and `m` with the counter `f` (app.py:281-289). */
  method StampsAt(words: seq<Word>, letter: int) returns (found: seq<Seconds>)
    ensures found == Stamps(words, letter)
  {
    found := [];
    var f := 0;
    for k := 0 to |words|
      invariant f == TotalChars(words[..k])
      invariant found == Stamps(words[..k], letter)
    {
      ghost var before := f;
      assert words[..k + 1][..k] == words[..k];
      for m := 0 to |words[k].text|
        invariant f == before + m
        invariant found == Stamps(words[..k], letter) +
                           (if before < letter <= f then [words[k].start, words[k].end] else [])
      {
        f := f + 1;
        if f == letter {
          found := found + [words[k].start, words[k].end];
        }
      }
      StampsSnoc(words, k, letter);
    }
    assert words[..|words|] == words;
  }

  /** Everything `starts` collects over the first `n` characters of a
      sentence whose first character is position `base + 1`. */
  function SentenceStamps(words: seq<Word>, base: int, n: nat): seq<Seconds> {
    if n == 0 then [] else SentenceStamps(words, base, n - 1) + Stamps(words, base + n)
  }

  /** A timestamp is collected exactly when it is the start or end of the
      word owning one of the sentence's positions `base + 1 .. base + n`. */
  lemma {:induction false} SentenceStampsMembers(words: seq<Word>, base: int, n: nat, x: Seconds)
    ensures x in SentenceStamps(words, base, n) <==>
            exists letter :: base < letter <= base + n && x in Stamps(words, letter)
  {
    if n > 0 {
      SentenceStampsMembers(words, base, n - 1, x);
      assert SentenceStamps(words, base, n) == SentenceStamps(words, base, n - 1) + Stamps(words, base + n);
      if x in Stamps(words, base + n) {
        assert base < base + n <= base + n;
      } else if x in SentenceStamps(words, base, n - 1) {
        var letter :| base < letter <= base + (n - 1) && x in Stamps(words, letter);
        assert base < letter <= base + n;
      } else {
        forall letter | base < letter <= base + n ensures x !in Stamps(words, letter) {
          if letter < base + n {
            assert base < letter <= base + (n - 1);
          }
        }
      }
    }
  }

  /** The value of `letter` before sentence `i` is processed. */
  function Offset(sentences: seq<string>, i: nat): nat
    requires i <= |sentences|
  {
    if i == 0 then 0 else Offset(sentences, i - 1) + |sentences[i - 1]| + 1
  }

  /** Every entry's first time is at most its second. */
  predicate WellTimed(d: SpanDict) {
    forall j :: 0 <= j < |d| ==> d[j].1.0 <= d[j].1.1
  }

  /** What every sentence collects into `starts`, in sentence order: a
      timestamp is collected by sentence `k` exactly when it is the start or
      end of a word owning one of the positions that follow the counter's
      value `Offset(sentences, k)` when the sentence begins. */
  function Collected(words: seq<Word>, sentences: seq<string>): (stamps: seq<seq<Seconds>>)
    ensures |stamps| == |sentences|
    ensures forall k, x :: 0 <= k < |sentences| ==>
              (x in stamps[k] <==>
                 exists letter :: Offset(sentences, k) < letter <= Offset(sentences, k) + |sentences[k]| &&
                                  x in Stamps(words, letter))
  {
    var stamps := seq(|sentences|, k requires 0 <= k < |sentences| =>
                        SentenceStamps(words, Offset(sentences, k), |sentences[k]|));
    assert forall k, x :: 0 <= k < |sentences| ==>
      (x in stamps[k] <==>
         exists letter :: Offset(sentences, k) < letter <= Offset(sentences, k) + |sentences[k]| &&
                          x in Stamps(words, letter)) by {
      forall k, x | 0 <= k < |sentences| {
        SentenceStampsMembers(words, Offset(sentences, k), |sentences[k]|, x);
      }
    }
    stamps
  }

  /** The first sentence from `i` on that collected nothing, or
      `|stamps|` when there is none: the sentence at which `min([])`
      raises. */
  function FirstEmpty(stamps: seq<seq<Seconds>>, i: nat): (e: nat)
    requires i <= |stamps|
    ensures i <= e <= |stamps|
    ensures forall j :: i <= j < e ==> |stamps[j]| > 0
    ensures e < |stamps| ==> |stamps[e]| == 0
    decreases |stamps| - i
  {
    if i == |stamps| || |stamps[i]| == 0 then i else FirstEmpty(stamps, i + 1)
  }

  /** `time_stamped_sentances` after the first `i` sentences: each
      sentence that collected something is stored under its text with the
      `min` and `max` of what it collected. The loop only gets this far when
      every one of them did. */
  function SpanDictAfter(sentences: seq<string>, stamps: seq<seq<Seconds>>, i: nat): (d: SpanDict)
    requires |stamps| == |sentences| && i <= |sentences|
    ensures UniqueKeys(d) && WellTimed(d) && |d| <= i
    ensures 0 < i && |stamps[i - 1]| > 0 ==> 0 < |d|
  {
    if i == 0 then []
    else
      var d := SpanDictAfter(sentences, stamps, i - 1);
      var starts := stamps[i - 1];
      if |starts| == 0 then d else Put(d, sentences[i - 1], (SeqMin(starts), SeqMax(starts)))
  }

  /** `record`, read off the dict in insertion order (app.py:295-298). */
  function Spans(d: SpanDict): (spans: seq<Span>)
    ensures |spans| == |d|
    ensures forall i :: 0 <= i < |d| ==> spans[i] == Span(d[i].0, d[i].1.0, d[i].1.1)
  {
    seq(|d|, i requires 0 <= i < |d| => Span(d[i].0, d[i].1.0, d[i].1.1))
  }

  /** The spans of `time_stamped_sentances`, one per distinct sentence,
      or the first sentence, the one at which `min([])` raises, that
      collected no timestamp. */
  function Segmentation(words: seq<Word>, sentences: seq<string>): (r: Result<seq<Span>, SegmentError>)
    ensures r.Failure? ==> r.error.sentence < |sentences|
    ensures r.Failure? ==> |Collected(words, sentences)[r.error.sentence]| == 0 &&
                           forall j :: 0 <= j < r.error.sentence ==> |Collected(words, sentences)[j]| > 0
    ensures r.Success? <==> forall k :: 0 <= k < |sentences| ==> |Collected(words, sentences)[k]| > 0
    ensures r.Success? ==> |r.value| <= |sentences| && (|r.value| == 0 <==> |sentences| == 0)
    ensures r.Success? ==> forall j :: 0 <= j < |r.value| ==> r.value[j].start <= r.value[j].end
  {
    var stamps := Collected(words, sentences);
    var e := FirstEmpty(stamps, 0);
    if e < |sentences| then Failure(NoTimestamps(e))
    else Success(Spans(SpanDictAfter(sentences, stamps, |sentences|)))
  }

  /** The loop over the characters of one sentence (app.py:276-289):
      `letter` advances from `base` once per character and the stamps of
      each position are appended to `starts`. */
  method CollectStamps(words: seq<Word>, base: int, n: nat) returns (starts: seq<Seconds>)
    ensures starts == SentenceStamps(words, base, n)
  {
    starts := [];
    var letter := base;
    for j := 0 to n
      invariant letter == base + j
      invariant starts == SentenceStamps(words, base, j)
    {
      letter := letter + 1;
      var found := StampsAt(words, letter);
      starts := starts + found;
    }
  }

  /** One pass of the sentence loop (app.py:274-292): collect the stamps
      of sentence `i`, whose first character follows position `letter`,
      and store their `min` and `max` under its text, or fail with `min([])`. */
  method AddSentence(words: seq<Word>, sentences: seq<string>, i: nat, letter: int, spans: SpanDict)
    returns (next: Result<SpanDict, SegmentError>)
    requires i < |sentences| && letter == Offset(sentences, i)
    requires spans == SpanDictAfter(sentences, Collected(words, sentences), i)
    ensures next.Failure? <==> |Collected(words, sentences)[i]| == 0
    ensures next.Failure? ==> next.error == NoTimestamps(i)
    ensures next.Success? ==> next.value == SpanDictAfter(sentences, Collected(words, sentences), i + 1)
  {
    ghost var stamps := Collected(words, sentences);
    var starts := CollectStamps(words, letter, |sentences[i]|);
    assert starts == stamps[i];
    if |starts| == 0 {
      return Failure(NoTimestamps(i));
    }
    return Success(Put(spans, sentences[i], (SeqMin(starts), SeqMax(starts))));
  }

  /** The loop that lists the dict as `record` (app.py:295-298). */
  method ReadRecord(d: SpanDict) returns (record: seq<Span>)
    ensures record == Spans(d)
  {
    record := [];
    for i := 0 to |d|
      invariant record == Spans(d[..i])
    {
      var (sentence, times) := d[i];
      record := record + [Span(sentence, times.0, times.1)];
    }
    assert d[..|d|] == d;
  }

  /** The sentence loop of app.py:271-298: it stops at the first sentence
      that collected nothing. */
  method Segment(words: seq<Word>, sentences: seq<string>) returns (r: Result<seq<Span>, SegmentError>)
    ensures r == Segmentation(words, sentences)
  {
    ghost var stamps := Collected(words, sentences);
    var spans: SpanDict := [];
    var letter := 0;
    for i := 0 to |sentences|
      invariant letter == Offset(sentences, i)
      invariant FirstEmpty(stamps, 0) >= i
      invariant spans == SpanDictAfter(sentences, stamps, i)
    {
      var next := AddSentence(words, sentences, i, letter, spans);
      if next.Failure? {
        assert FirstEmpty(stamps, 0) == i;
        return Failure(next.error);
      }
      spans := next.value;
      assert Offset(sentences, i + 1) == letter + |sentences[i]| + 1;
      letter := letter + |sentences[i]| + 1;
    }
    assert FirstEmpty(stamps, 0) == |sentences|;
    var record := ReadRecord(spans);
    return Success(record);
  }

  lemma {:induction false} NoStampsCollected(words: seq<Word>, base: int, n: nat)
    requires forall letter :: base < letter <= base + n ==> Stamps(words, letter) == []
    ensures SentenceStamps(words, base, n) == []
  {
    if n > 0 {
      NoStampsCollected(words, base, n - 1);
      assert Stamps(words, base + n) == [];
    }
  }

  lemma NoStampsPastEnd(words: seq<Word>, base: int, n: nat)
    requires n == 0 || base >= TotalChars(words)
    ensures SentenceStamps(words, base, n) == []
  {
    NoStampsCollected(words, base, n);
  }

  /** An empty sentence, or one starting past the end of the transcript,
      collects nothing. */
  lemma UnmatchedSentence(words: seq<Word>, sentences: seq<string>, k: nat)
    requires k < |sentences| && (|sentences[k]| == 0 || Offset(sentences, k) >= TotalChars(words))
    ensures Collected(words, sentences)[k] == []
  {
    NoStampsPastEnd(words, Offset(sentences, k), |sentences[k]|);
  }

  /** Every position within the transcript's characters has an owning word. */
  lemma {:induction false} OwnerWithinTranscript(words: seq<Word>, letter: int)
    requires 1 <= letter <= TotalChars(words)
    ensures Owner(words, letter).Some?
  {
    var n := |words| - 1;
    if !(TotalChars(words[..n]) < letter) {
      OwnerWithinTranscript(words[..n], letter);
    }
  }

  /** A sentence is empty or starts at or past the end of the transcript's
      characters: then it matches no character. */
  predicate Unmatched(words: seq<Word>, sentences: seq<string>, k: nat)
    requires k < |sentences|
  {
    |sentences[k]| == 0 || Offset(sentences, k) >= TotalChars(words)
  }

  /** A sentence collects nothing exactly when it is unmatched. */
  lemma CollectsNothingIffUnmatched(words: seq<Word>, sentences: seq<string>, k: nat)
    requires k < |sentences|
    ensures Collected(words, sentences)[k] == [] <==> Unmatched(words, sentences, k)
  {
    if Unmatched(words, sentences, k) {
      UnmatchedSentence(words, sentences, k);
    } else {
      var letter := Offset(sentences, k) + 1;
      OwnerWithinTranscript(words, letter);
      var x := words[Owner(words, letter).value].start;
      assert x in Stamps(words, letter);
      assert x in Collected(words, sentences)[k];
    }
  }

  /** Segmentation fails exactly when some sentence is unmatched, and then
      at the first one. */
  lemma SegmentationFailsIffUnmatched(words: seq<Word>, sentences: seq<string>)
    ensures Segmentation(words, sentences).Failure? <==>
            exists k :: 0 <= k < |sentences| && Unmatched(words, sentences, k)
    ensures var r := Segmentation(words, sentences);
            r.Failure? ==> Unmatched(words, sentences, r.error.sentence) &&
                           forall j :: 0 <= j < r.error.sentence ==> !Unmatched(words, sentences, j)
  {
    var r := Segmentation(words, sentences);
    forall k | 0 <= k < |sentences| ensures Collected(words, sentences)[k] == [] <==> Unmatched(words, sentences, k) {
      CollectsNothingIffUnmatched(words, sentences, k);
    }
    if r.Failure? {
      assert Unmatched(words, sentences, r.error.sentence);
    } else {
      assert forall k :: 0 <= k < |sentences| ==> !Unmatched(words, sentences, k);
    }
  }

  /** The loop never gets past a sentence that is empty or starts beyond
      the transcript: it fails there or earlier. */
  lemma UnmatchedSentenceFails(words: seq<Word>, sentences: seq<string>, k: nat)
    requires k < |sentences| && (|sentences[k]| == 0 || Offset(sentences, k) >= TotalChars(words))
    ensures Segmentation(words, sentences).Failure?
    ensures Segmentation(words, sentences).error.sentence <= k
  {
    UnmatchedSentence(words, sentences, k);
  }

  /** The dict of a sentence stored twice holds one entry, with the
      times of the second occurrence. */
  lemma RepeatedSentenceDict(s: string, stamps: seq<seq<Seconds>>)
    requires |stamps| == 2 && |stamps[0]| > 0 && |stamps[1]| > 0
    ensures SpanDictAfter([s, s], stamps, 2) == [(s, (SeqMin(stamps[1]), SeqMax(stamps[1])))]
  {
    PutSameKeyTwice(s, (SeqMin(stamps[0]), SeqMax(stamps[0])), (SeqMin(stamps[1]), SeqMax(stamps[1])));
  }

  /** Two identical sentences collapse into one dict entry, which keeps the
      position of the first and the times of the second. */
  lemma DuplicateSentencesCollapse(words: seq<Word>, s: string)
    requires Segmentation(words, [s, s]).Success?
    ensures var st := Collected(words, [s, s])[1];
            |st| > 0 && Segmentation(words, [s, s]).value == [Span(s, SeqMin(st), SeqMax(st))]
  {
    var stamps := Collected(words, [s, s]);
    assert FirstEmpty(stamps, 0) == 2;
    RepeatedSentenceDict(s, stamps);
    var st := stamps[1];
    assert Spans([(s, (SeqMin(st), SeqMax(st)))]) == [Span(s, SeqMin(st), SeqMax(st))];
  }
  /** Sentence `k` is the last of the first `i` sentences with its text. */
  ghost predicate LastOccurrence(sentences: seq<string>, k: nat, i: nat)
    requires i <= |sentences|
  {
    k < i && forall k' :: k < k' < i ==> sentences[k'] != sentences[k]
  }

  /** `span` is the text of a last occurrence among `sentences` with the
      `min` and `max` of what that occurrence collected. */
  ghost predicate SpanOfLast(sentences: seq<string>, stamps: seq<seq<Seconds>>, span: Span) {
    exists k :: 0 <= k < |sentences| && k < |stamps| && |stamps[k]| > 0 &&
                LastOccurrence(sentences, k, |sentences|) &&
                span == Span(sentences[k], SeqMin(stamps[k]), SeqMax(stamps[k]))
  }

  /** The pairs the sentence loop assigns to the dict when each of the
      first `i` sentences collected something: its text and the `min` and
      `max` of what it collected. */
  function Assignments(sentences: seq<string>, stamps: seq<seq<Seconds>>, i: nat)
    : seq<(string, (Seconds, Seconds))>
    requires |stamps| == |sentences| && i <= |sentences|
    requires forall k :: 0 <= k < i ==> |stamps[k]| > 0
  {
    seq(i, k requires 0 <= k < i => (sentences[k], (SeqMin(stamps[k]), SeqMax(stamps[k]))))
  }

  /** The span dict is the dict those assignments build. */
  lemma {:induction false} SpanDictIsPutAll(sentences: seq<string>, stamps: seq<seq<Seconds>>, i: nat)
    requires |stamps| == |sentences| && i <= |sentences|
    requires forall k :: 0 <= k < i ==> |stamps[k]| > 0
    ensures SpanDictAfter(sentences, stamps, i) == PutAll(Assignments(sentences, stamps, i))
  {
    if i > 0 {
      SpanDictIsPutAll(sentences, stamps, i - 1);
      assert Assignments(sentences, stamps, i)[..i - 1] == Assignments(sentences, stamps, i - 1);
    }
  }

  /** A last occurrence of a text is a last assignment to that key. */
  lemma LastOccurrenceAssigned(sentences: seq<string>, stamps: seq<seq<Seconds>>, n: nat, k: nat)
    requires |stamps| == |sentences| && n <= |sentences|
    requires forall k :: 0 <= k < n ==> |stamps[k]| > 0
    ensures LastOccurrence(sentences, k, n) <==> LastAssigned(Assignments(sentences, stamps, n), k)
  {
    var entries := Assignments(sentences, stamps, n);
    assert forall k' :: 0 <= k' < n ==> entries[k'].0 == sentences[k'];
  }

  /** A successful segmentation read off the dict of all sentences, every
      one of which collected something. */
  lemma SegmentationSucceeded(words: seq<Word>, sentences: seq<string>)
    requires Segmentation(words, sentences).Success?
    ensures forall k :: 0 <= k < |sentences| ==> |Collected(words, sentences)[k]| > 0
    ensures Segmentation(words, sentences).value ==
            Spans(SpanDictAfter(sentences, Collected(words, sentences), |sentences|))
  {
    assert FirstEmpty(Collected(words, sentences), 0) == |sentences|;
  }

  /** The spans read off the dict of `n` sentences that all collected
      something carry every sentence's text. */
  lemma SpansCoverTexts(sentences: seq<string>, stamps: seq<seq<Seconds>>, n: nat, k: nat)
    requires |stamps| == |sentences| && n == |sentences|
    requires forall k :: 0 <= k < n ==> |stamps[k]| > 0
    requires k < n
    ensures exists j :: 0 <= j < |Spans(SpanDictAfter(sentences, stamps, n))| &&
                        Spans(SpanDictAfter(sentences, stamps, n))[j].text == sentences[k]
  {
    var entries := Assignments(sentences, stamps, n);
    var d := SpanDictAfter(sentences, stamps, n);
    SpanDictIsPutAll(sentences, stamps, n);
    PutAllKeys(entries, k);
    assert entries[k].0 == sentences[k];
    var j :| 0 <= j < |d| && Keys(d)[j] == sentences[k];
    assert Spans(d)[j].text == sentences[k];
  }

  /** ... the span of a text is the `[min, max]` of what its last
      occurrence collected ... */
  lemma SpansHaveLast(sentences: seq<string>, stamps: seq<seq<Seconds>>, n: nat, k: nat)
    requires |stamps| == |sentences| && n == |sentences|
    requires forall k :: 0 <= k < n ==> |stamps[k]| > 0
    requires LastOccurrence(sentences, k, n)
    ensures Span(sentences[k], SeqMin(stamps[k]), SeqMax(stamps[k])) in Spans(SpanDictAfter(sentences, stamps, n))
  {
    var entries := Assignments(sentences, stamps, n);
    var d := SpanDictAfter(sentences, stamps, n);
    SpanDictIsPutAll(sentences, stamps, n);
    LastOccurrenceAssigned(sentences, stamps, n, k);
    PutAllHasLast(entries, k);
    var j :| 0 <= j < |d| && d[j] == entries[k];
    assert Spans(d)[j] == Span(sentences[k], SeqMin(stamps[k]), SeqMax(stamps[k]));
  }

  /** ... and every span is of that kind. */
  lemma SpansAreLast(sentences: seq<string>, stamps: seq<seq<Seconds>>, n: nat, j: nat)
    requires |stamps| == |sentences| && n == |sentences|
    requires forall k :: 0 <= k < n ==> |stamps[k]| > 0
    requires j < |Spans(SpanDictAfter(sentences, stamps, n))|
    ensures SpanOfLast(sentences, stamps, Spans(SpanDictAfter(sentences, stamps, n))[j])
  {
    var entries := Assignments(sentences, stamps, n);
    var d := SpanDictAfter(sentences, stamps, n);
    SpanDictIsPutAll(sentences, stamps, n);
    PutAllEntry(entries, j);
    var k :| 0 <= k < n && LastAssigned(entries, k) && d[j] == entries[k];
    LastOccurrenceAssigned(sentences, stamps, n, k);
    assert Spans(d)[j] == Span(sentences[k], SeqMin(stamps[k]), SeqMax(stamps[k]));
    assert LastOccurrence(sentences, k, |sentences|);
  }

  /** On success every sentence's text has a span. */
  lemma SegmentationCoversTexts(words: seq<Word>, sentences: seq<string>, k: nat)
    requires Segmentation(words, sentences).Success?
    requires k < |sentences|
    ensures var spans := Segmentation(words, sentences).value;
            exists j :: 0 <= j < |spans| && spans[j].text == sentences[k]
  {
    SegmentationSucceeded(words, sentences);
    SpansCoverTexts(sentences, Collected(words, sentences), |sentences|, k);
  }

  /** On success the last occurrence of a text leaves the `[min, max]` of
      what it collected as that text's span. */
  lemma SegmentationKeepsLast(words: seq<Word>, sentences: seq<string>, k: nat)
    requires Segmentation(words, sentences).Success?
    requires LastOccurrence(sentences, k, |sentences|)
    ensures |Collected(words, sentences)[k]| > 0
    ensures var stamps := Collected(words, sentences);
            Span(sentences[k], SeqMin(stamps[k]), SeqMax(stamps[k])) in Segmentation(words, sentences).value
  {
    SegmentationSucceeded(words, sentences);
    SpansHaveLast(sentences, Collected(words, sentences), |sentences|, k);
  }

  /** On success every span is that of a last occurrence: an earlier
      occurrence of the same text leaves nothing behind. */
  lemma SegmentationOnlyLast(words: seq<Word>, sentences: seq<string>, j: nat)
    requires Segmentation(words, sentences).Success?
    requires j < |Segmentation(words, sentences).value|
    ensures SpanOfLast(sentences, Collected(words, sentences), Segmentation(words, sentences).value[j])
  {
    SegmentationSucceeded(words, sentences);
    SpansAreLast(sentences, Collected(words, sentences), |sentences|, j);
  }

  /** The spans come in the order in which their texts first occur among
      the sentences; a repeated text keeps the place of its first
      occurrence. */
  lemma SegmentationOrder(words: seq<Word>, sentences: seq<string>)
    requires Segmentation(words, sentences).Success?
    ensures var spans := Segmentation(words, sentences).value;
            |spans| == |FirstOccurrences(sentences)| &&
            forall j :: 0 <= j < |spans| ==> spans[j].text == FirstOccurrences(sentences)[j]
  {
    SegmentationSucceeded(words, sentences);
    var stamps := Collected(words, sentences);
    var n := |sentences|;
    var entries := Assignments(sentences, stamps, n);
    SpanDictIsPutAll(sentences, stamps, n);
    PutAllKeyOrder(entries);
    assert Keys(entries) == sentences;
  }

  /** When no text repeats, there is one span per sentence, in sentence
      order, each the `[min, max]` of what its sentence collected. */
  lemma SegmentationDistinct(words: seq<Word>, sentences: seq<string>, k: nat)
    requires Segmentation(words, sentences).Success?
    requires forall a, b :: 0 <= a < b < |sentences| ==> sentences[a] != sentences[b]
    requires k < |sentences|
    ensures |Segmentation(words, sentences).value| == |sentences|
    ensures |Collected(words, sentences)[k]| > 0
    ensures var stamps := Collected(words, sentences);
            Segmentation(words, sentences).value[k] == Span(sentences[k], SeqMin(stamps[k]), SeqMax(stamps[k]))
  {
    SegmentationSucceeded(words, sentences);
    var stamps := Collected(words, sentences);
    var n := |sentences|;
    var entries := Assignments(sentences, stamps, n);
    SpanDictIsPutAll(sentences, stamps, n);
    assert UniqueKeys(entries);
    PutAllDistinct(entries);
  }

}
