/**
 * The diarization side of speaker attribution: the speaker turns kept from
 * the diarization collaborator, stored in a dict keyed by `(start, end)`
 * (app.py:109-114), and the fallback speaker, the most frequent label among
 * the kept turns (app.py:239).
 */
module Diarization {
  import opened Basics
  import opened OrderedDict

  type Speaker = string

  /** One speech turn as the diarization collaborator yields it. */
  datatype Turn = Turn(start: Seconds, end: Seconds, speaker: Speaker)

  /** `speakers_rolls`: `(start, end)` of a turn to its speaker label. */
  type Rolls = seq<((Seconds, Seconds), Speaker)>

  /** Turns this short or shorter are dropped as attribution noise. */
  const MinTurnLength: real := 1.5

  predicate LongEnough(t: Turn) {
    Abs(t.end as real - t.start) > MinTurnLength
  }

  /** The dict the filter loop leaves after the turns of `raw`. */
  function Kept(raw: seq<Turn>): (d: Rolls)
    ensures UniqueKeys(d)
    ensures forall i :: 0 <= i < |d| ==> Abs(d[i].0.1 as real - d[i].0.0) > MinTurnLength
  {
    if |raw| == 0 then []
    else
      var t := raw[|raw| - 1];
      var d := Kept(raw[..|raw| - 1]);
      if LongEnough(t) then Put(d, (t.start, t.end), t.speaker) else d
  }

  /** The filter loop of app.py:111-114. */
  method FilterTurns(raw: seq<Turn>) returns (rolls: Rolls)
    ensures rolls == Kept(raw)
  {
    rolls := [];
    for i := 0 to |raw|
      invariant rolls == Kept(raw[..i])
    {
      assert raw[..i + 1][..i] == raw[..i];
      var t := raw[i];
      if Abs(t.end as real - t.start) > MinTurnLength {
        rolls := Put(rolls, (t.start, t.end), t.speaker);
      }
    }
    assert raw[..|raw|] == raw;
  }

  /** The dict key a turn is stored under. */
  function Key(t: Turn): (Seconds, Seconds) {
    (t.start, t.end)
  }

  /** Some long turn of `raw` has boundaries `key`. */
  ghost predicate HasLongTurn(raw: seq<Turn>, key: (Seconds, Seconds)) {
    exists i :: 0 <= i < |raw| && LongEnough(raw[i]) && key == Key(raw[i])
  }

  /** What the filter loop means as a Python dict: a map updated once per
      long turn, later turns overwriting earlier ones. */
  ghost function KeptMap(raw: seq<Turn>): map<(Seconds, Seconds), Speaker> {
    if |raw| == 0 then map[]
    else
      var t := raw[|raw| - 1];
      var m := KeptMap(raw[..|raw| - 1]);
      if LongEnough(t) then m[Key(t) := t.speaker] else m
  }

  /** The insertion-ordered list `Kept` denotes exactly that map. */
  lemma {:induction false} KeptDenotesKeptMap(raw: seq<Turn>)
    ensures ToMap(Kept(raw)) == KeptMap(raw)
  {
    if |raw| > 0 {
      var t := raw[|raw| - 1];
      var d := Kept(raw[..|raw| - 1]);
      KeptDenotesKeptMap(raw[..|raw| - 1]);
      if LongEnough(t) {
        assert Kept(raw) == Put(d, Key(t), t.speaker);
        PutRefinesMapUpdate(d, Key(t), t.speaker);
      }
    }
  }

  lemma HasLongTurnSnoc(raw: seq<Turn>, key: (Seconds, Seconds))
    requires |raw| > 0
    ensures HasLongTurn(raw, key) <==>
            HasLongTurn(raw[..|raw| - 1], key) || (LongEnough(raw[|raw| - 1]) && key == Key(raw[|raw| - 1]))
  {
    var prefix := raw[..|raw| - 1];
    if HasLongTurn(prefix, key) {
      var i :| 0 <= i < |prefix| && LongEnough(prefix[i]) && key == Key(prefix[i]);
      assert raw[i] == prefix[i];
    }
    if HasLongTurn(raw, key) {
      var i :| 0 <= i < |raw| && LongEnough(raw[i]) && key == Key(raw[i]);
      if i < |prefix| { assert prefix[i] == raw[i]; }
    }
  }

  lemma {:induction false} KeptMapKeys(raw: seq<Turn>, key: (Seconds, Seconds))
    ensures key in KeptMap(raw) <==> HasLongTurn(raw, key)
  {
    if |raw| > 0 {
      KeptMapKeys(raw[..|raw| - 1], key);
      HasLongTurnSnoc(raw, key);
    }
  }

  /** A kept `(start, end)` is exactly the boundary pair of some long turn. */
  lemma KeptKeys(raw: seq<Turn>, key: (Seconds, Seconds))
    ensures key in ToMap(Kept(raw)) <==> HasLongTurn(raw, key)
  {
    KeptDenotesKeptMap(raw);
    KeptMapKeys(raw, key);
  }

  lemma {:induction false} KeptMapLastWins(raw: seq<Turn>, i: nat)
    requires i < |raw| && LongEnough(raw[i])
    requires forall j :: i < j < |raw| ==> Key(raw[j]) != Key(raw[i])
    ensures Key(raw[i]) in KeptMap(raw) && KeptMap(raw)[Key(raw[i])] == raw[i].speaker
  {
    var n := |raw| - 1;
    var prefix := raw[..n];
    if i < n {
      assert prefix[i] == raw[i];
      assert forall j :: i < j < |prefix| ==> Key(prefix[j]) != Key(prefix[i]) by {
        forall j | i < j < |prefix| ensures Key(prefix[j]) != Key(prefix[i]) {
          assert prefix[j] == raw[j];
        }
      }
      KeptMapLastWins(prefix, i);
    }
  }

  /** A long turn's pair maps to its speaker unless a later turn has the
      same pair, in which case the later label overwrote it. */
  lemma KeptLastWins(raw: seq<Turn>, i: nat)
    requires i < |raw| && LongEnough(raw[i])
    requires forall j :: i < j < |raw| ==> Key(raw[j]) != Key(raw[i])
    ensures Key(raw[i]) in ToMap(Kept(raw))
    ensures ToMap(Kept(raw))[Key(raw[i])] == raw[i].speaker
  {
    KeptDenotesKeptMap(raw);
    KeptMapLastWins(raw, i);
  }

  /** How often `x` occurs in `labels`: Python's `list.count`. */
  function Count(labels: seq<Speaker>, x: Speaker): nat {
    multiset(labels)[x]
  }

  /** Index of the first label of `labels[..n]` whose count (in all of
      `labels`) is maximal: how `max(values, key=values.count)` scans. */
  function ModeIndex(labels: seq<Speaker>, n: nat): (k: nat)
    requires 0 < n <= |labels|
    ensures k < n
    ensures forall j :: 0 <= j < n ==> Count(labels, labels[j]) <= Count(labels, labels[k])
    ensures forall j :: 0 <= j < k ==> Count(labels, labels[j]) < Count(labels, labels[k])
  {
    if n == 1 then 0
    else
      var best := ModeIndex(labels, n - 1);
      if Count(labels, labels[n - 1]) > Count(labels, labels[best]) then n - 1 else best
  }

  /** `most_occured_speaker` (app.py:239): the first label, in list order,
      of maximal count; `max` of an empty list raises, modelled as `None`. */
  function MostFrequent(labels: seq<Speaker>): (r: Option<Speaker>)
    ensures r.None? <==> |labels| == 0
    ensures r.Some? ==> r.value in labels
    ensures r.Some? ==> forall x :: x in labels ==> Count(labels, x) <= Count(labels, r.value)
    ensures r.Some? ==> forall j :: 0 <= j < |labels| && r.value !in labels[..j + 1] ==>
                          Count(labels, labels[j]) < Count(labels, r.value)
  {
    if |labels| == 0 then None
    else
      var k := ModeIndex(labels, |labels|);
      assert forall x :: x in labels ==> exists j :: 0 <= j < |labels| && labels[j] == x;
      Some(labels[k])
  }
}
