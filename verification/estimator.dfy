/** The narration-time estimator of src/make_a_book/tts_time_estimator.py:
    an approximate word count and a seconds estimate that grows with the
    word count and shrinks with the speaking speed. Floating point is
    replaced by exact real arithmetic. */
module Estimator {
  import opened Text

  const WordsToSeconds: real := 0.0743
  const BaseOverheadSeconds: real := 0.5
  const SafetyFactor: real := 1.3
  /** Speeds below this are raised to it before dividing. */
  const MinSpeed: real := 0.25

  // ---------------------------------------------------------------------
  // Word counting
  // ---------------------------------------------------------------------

  /** The regex class `\w`, restricted to ASCII. */
  predicate IsWordChar(c: char) {
    ('a' <= c <= 'z') || ('A' <= c <= 'Z') || ('0' <= c <= '9') || c == '_'
  }

  /** What `str.split()` keeps: anything but whitespace. */
  predicate IsVisible(c: char) {
    !IsSpace(c)
  }

  /** The number of maximal runs of `p`-characters in `s`, where `inRun`
      says whether the character before `s` already belonged to a run. */
  function RunsAfter(s: string, p: char -> bool, inRun: bool): nat
    decreases |s|
  {
    if |s| == 0 then 0
    else (if p(s[0]) && !inRun then 1 else 0) + RunsAfter(s[1..], p, p(s[0]))
  }

  function CountRuns(s: string, p: char -> bool): nat {
    RunsAfter(s, p, false)
  }

  /** `len(re.findall(r"\b\w+\b", text))`: one match per maximal run of word
      characters. */
  function RegexWordCount(text: string): nat {
    CountRuns(text, IsWordChar)
  }

  /** `len(text.split())`: one piece per maximal run of non-whitespace. */
  function SplitWordCount(text: string): nat {
    CountRuns(text, IsVisible)
  }

  /** `count_words(text)`. */
  function CountWords(text: string): (r: nat)
    ensures text == "" ==> r == 0
    ensures r >= RegexWordCount(text) && r >= SplitWordCount(text)
    ensures r == RegexWordCount(text) || r == SplitWordCount(text)
  {
    if text == "" then 0
    else if RegexWordCount(text) >= SplitWordCount(text) then RegexWordCount(text)
    else SplitWordCount(text)
  }

  /** A run-free string is one without any `p`-character. */
  lemma {:induction false} RunsZeroIff(s: string, p: char -> bool)
    ensures RunsAfter(s, p, false) == 0 <==> forall i :: 0 <= i < |s| ==> !p(s[i])
    decreases |s|
  {
    if |s| > 0 {
      RunsZeroIff(s[1..], p);
      if !p(s[0]) {
        assert forall i :: 1 <= i < |s| ==> s[i] == s[1..][i - 1];
      }
    }
  }

  /** Runs are separated, so there are at most half as many as characters,
      rounded up. */
  lemma {:induction false} RunsBound(s: string, p: char -> bool, inRun: bool)
    ensures RunsAfter(s, p, inRun) <= (|s| + (if inRun then 0 else 1)) / 2
    decreases |s|
  {
    if |s| > 0 {
      RunsBound(s[1..], p, p(s[0]));
    }
  }

  /** `count_words` is 0 exactly for blank text. */
  lemma CountWordsZeroIffBlank(text: string)
    ensures CountWords(text) == 0 <==> IsBlank(text)
  {
    RunsZeroIff(text, IsVisible);
    RunsZeroIff(text, IsWordChar);
    if IsBlank(text) {
      assert forall i :: 0 <= i < |text| ==> !IsWordChar(text[i]);
    }
  }

  /** A word needs a character and a separator: never more words than half
      the text, rounded up. */
  lemma CountWordsBound(text: string)
    ensures CountWords(text) <= (|text| + 1) / 2
  {
    RunsBound(text, IsWordChar, false);
    RunsBound(text, IsVisible, false);
  }

  // ---------------------------------------------------------------------
  // Time estimate
  // ---------------------------------------------------------------------

  /** `r` is a nearest integer to `x`, and the even one when `x` lies
      halfway between two integers. */
  predicate RoundsEven(x: real, r: int) {
    && (r as real) - 0.5 <= x <= (r as real) + 0.5
    && (x - x.Floor as real == 0.5 ==> r % 2 == 0)
  }

  /** Python's `round` on a real: to the nearest integer, ties to even. */
  function PyRound(x: real): (r: int)
    ensures RoundsEven(x, r)
  {
    var f := x.Floor;
    var frac := x - f as real;
    if frac < 0.5 then f
    else if frac > 0.5 then f + 1
    else if f % 2 == 0 then f
    else f + 1
  }

  /** Nearest integer with ties to even names exactly one integer. */
  lemma RoundsEvenUnique(x: real, r1: int, r2: int)
    requires RoundsEven(x, r1) && RoundsEven(x, r2)
    ensures r1 == r2
  {
    var f := x.Floor;
    assert f as real <= x < f as real + 1.0;
    if x - f as real == 0.5 {
      assert r1 == f || r1 == f + 1;
    } else if x - f as real < 0.5 {
      assert r1 == f;
    }
  }

  /** Rounding never reverses an order. */
  lemma PyRoundMonotone(x: real, y: real)
    requires x <= y
    ensures PyRound(x) <= PyRound(y)
  {
    var fx, fy := x.Floor, y.Floor;
    assert fx <= fy;
    if fx < fy {
      assert PyRound(x) <= fx + 1 <= fy <= PyRound(y);
    }
  }

  /** `max(speed, 0.25)`. */
  function EffectiveSpeed(speed: real): (s: real)
    ensures s >= MinSpeed
    ensures speed >= MinSpeed ==> s == speed
  {
    if speed >= MinSpeed then speed else MinSpeed
  }

  /** The unrounded estimate in seconds for a positive word count. */
  function RawEstimate(wordCount: int, speed: real): (e: real)
    requires wordCount > 0
    ensures e > 0.0
  {
    var base := BaseOverheadSeconds + WordsToSeconds * wordCount as real;
    (base * SafetyFactor) / EffectiveSpeed(speed)
  }

  /** `estimate_tts_seconds(word_count, speed)`: 0 for no words, otherwise
      the rounded estimate but never less than one second. */
  function EstimateTtsSeconds(wordCount: int, speed: real): (r: int)
    ensures wordCount <= 0 ==> r == 0
    ensures wordCount > 0 ==> r >= 1
    ensures wordCount > 0 ==> RawEstimate(wordCount, speed) - 0.5 <= r as real
    ensures wordCount > 0 ==> (r as real) - 0.5 <= RawEstimate(wordCount, speed) || r == 1
    ensures wordCount > 0 && r > 1 ==> RoundsEven(RawEstimate(wordCount, speed), r)
  {
    if wordCount <= 0 then 0
    else
      var rounded := PyRound(RawEstimate(wordCount, speed));
      if rounded >= 1 then rounded else 1
  }

  /** Speeds below the minimum all give the minimum speed's estimate. */
  lemma EstimateClampsSpeed(wordCount: int, speed: real)
    requires speed <= MinSpeed
    ensures EstimateTtsSeconds(wordCount, speed) == EstimateTtsSeconds(wordCount, MinSpeed)
  {
    if wordCount > 0 {
      assert EffectiveSpeed(speed) == EffectiveSpeed(MinSpeed);
    }
  }

  /** More words never take less time. */
  lemma EstimateMonotoneInWords(w1: int, w2: int, speed: real)
    requires w1 <= w2
    ensures EstimateTtsSeconds(w1, speed) <= EstimateTtsSeconds(w2, speed)
  {
    if w1 > 0 {
      var s := EffectiveSpeed(speed);
      var b1 := (BaseOverheadSeconds + WordsToSeconds * w1 as real) * SafetyFactor;
      var b2 := (BaseOverheadSeconds + WordsToSeconds * w2 as real) * SafetyFactor;
      assert b1 <= b2;
      DivideMonotone(b1, b2, s);
      PyRoundMonotone(RawEstimate(w1, speed), RawEstimate(w2, speed));
    }
  }

  /** Speaking faster never takes more time. */
  lemma EstimateAntitoneInSpeed(wordCount: int, s1: real, s2: real)
    requires s1 <= s2
    ensures EstimateTtsSeconds(wordCount, s1) >= EstimateTtsSeconds(wordCount, s2)
  {
    if wordCount > 0 {
      var b := (BaseOverheadSeconds + WordsToSeconds * wordCount as real) * SafetyFactor;
      DivisorAntitone(b, EffectiveSpeed(s1), EffectiveSpeed(s2));
      PyRoundMonotone(RawEstimate(wordCount, s2), RawEstimate(wordCount, s1));
    }
  }

  lemma DivideMonotone(a: real, b: real, d: real)
    requires a <= b && d > 0.0
    ensures a / d <= b / d
  {
    assert b / d - a / d == (b - a) / d;
  }

  lemma DivisorAntitone(x: real, d1: real, d2: real)
    requires x > 0.0 && 0.0 < d1 <= d2
    ensures x / d1 >= x / d2
  {
    assert x / d1 == (x / d2) * (d2 / d1);
    assert d2 / d1 >= 1.0;
  }
}
