/**
 * The statistics of the quiz result page: how many answers were given, how
 * many were right, the time they took, the rounded percentage of right
 * answers, and the line of advice shown for that percentage.
 */
module QuizResult {
  import opened Geometry

  /** One answered question: whether it was right and the seconds it took. */
  datatype RecordItem = RecordItem(correct: bool, time: real)

  // ---------------------------------------------------------------------------
  // Statistics
  // ---------------------------------------------------------------------------

  /** `recs.filter(r => r.correct).length`. */
  function CorrectCount(recs: seq<RecordItem>): (n: nat)
    ensures n <= |recs|
    ensures n == |recs| <==> forall i :: 0 <= i < |recs| ==> recs[i].correct
    ensures n == 0 <==> forall i :: 0 <= i < |recs| ==> !recs[i].correct
  {
    if |recs| == 0 then 0
    else
      var init := recs[..|recs| - 1];
      assert forall i :: 0 <= i < |init| ==> init[i] == recs[i];
      CorrectCount(init) + (if recs[|recs| - 1].correct then 1 else 0)
  }

  /** `recs.reduce((sum, r) => sum + r.time, 0)`. */
  function TotalTime(recs: seq<RecordItem>): real {
    if |recs| == 0 then 0.0 else TotalTime(recs[..|recs| - 1]) + recs[|recs| - 1].time
  }

  /** The total time of two runs of answers is the sum of their totals. */
  lemma {:induction false} TotalTimeAppend(a: seq<RecordItem>, b: seq<RecordItem>)
    ensures TotalTime(a + b) == TotalTime(a) + TotalTime(b)
  {
    if |b| > 0 {
      var b' := b[..|b| - 1];
      assert (a + b)[..|a + b| - 1] == a + b';
      TotalTimeAppend(a, b');
    } else {
      assert a + b == a;
    }
  }

  /** Times that are never negative add up to a total that is not negative and bounds each of them. */
  lemma {:induction false} TotalTimeBounds(recs: seq<RecordItem>)
    requires forall i :: 0 <= i < |recs| ==> recs[i].time >= 0.0
    ensures TotalTime(recs) >= 0.0
    ensures forall i :: 0 <= i < |recs| ==> recs[i].time <= TotalTime(recs)
  {
    if |recs| > 0 {
      TotalTimeBounds(recs[..|recs| - 1]);
      assert forall i :: 0 <= i < |recs| - 1 ==> recs[..|recs| - 1][i] == recs[i];
    }
  }

  /** `total ? Math.round((correctCnt / total) * 100) : 0`. */
  function Accuracy(recs: seq<RecordItem>): int {
    if |recs| == 0 then 0
    else JsRound((CorrectCount(recs) as real / |recs| as real) * 100.0)
  }

  /** Multiplying by a positive number keeps the order. */
  lemma MulLess(x: real, y: real, k: real)
    requires k > 0.0
    ensures x < y <==> x * k < y * k
  {
  }

  /** The unrounded percentage reaches 99.5 exactly when at most one answer in 200 is wrong. */
  lemma RatioHigh(c: nat, t: nat)
    requires t > 0
    ensures (c as real / t as real) * 100.0 >= 99.5 <==> 200 * (t - c) <= t
  {
    var x := c as real / t as real;
    assert x * t as real == c as real;
    MulLess(x, 0.995, t as real);
  }

  /** The unrounded percentage lies between 0 and 100. */
  lemma RatioRange(c: nat, t: nat)
    requires 0 < t && c <= t
    ensures 0.0 <= (c as real / t as real) * 100.0 <= 100.0
  {
    assert c as real / t as real <= 1.0;
  }

  /** `Math.round` of a number at most 100 gives 100 exactly from 99.5 on. */
  lemma RoundHundred(r: real)
    requires r <= 100.0
    ensures JsRound(r) == 100 <==> r >= 99.5
  {
  }

  /** The accuracy is a whole percentage between 0 and 100. */
  lemma AccuracyRange(recs: seq<RecordItem>)
    ensures 0 <= Accuracy(recs) <= 100
  {
    if |recs| > 0 {
      RatioRange(CorrectCount(recs), |recs|);
    }
  }

  /**
   * A perfect score shows as 100 exactly when at most half a percent of the
   * answers is wrong: `Math.round` lifts 99.5 to 100.
   */
  lemma AccuracyHundred(recs: seq<RecordItem>)
    ensures Accuracy(recs) == 100 <==>
      |recs| > 0 && 200 * (|recs| - CorrectCount(recs)) <= |recs|
  {
    if |recs| > 0 {
      var c, t := CorrectCount(recs), |recs|;
      RatioRange(c, t);
      RatioHigh(c, t);
      RoundHundred((c as real / t as real) * 100.0);
    }
  }

  /** With fewer than 200 answers, 100 is shown only when every answer is right. */
  lemma AccuracyHundredFew(recs: seq<RecordItem>)
    requires |recs| < 200
    ensures Accuracy(recs) == 100 <==>
      |recs| > 0 && forall i :: 0 <= i < |recs| ==> recs[i].correct
  {
    AccuracyHundred(recs);
  }

  /** From 200 answers on, one wrong answer can still show as 100. */
  lemma AccuracyHundredWithMistake()
    ensures var recs := seq(200, i => RecordItem(i != 0, 1.0));
      Accuracy(recs) == 100 && !recs[0].correct
  {
    var recs := seq(200, i => RecordItem(i != 0, 1.0));
    assert recs == [RecordItem(false, 1.0)] + recs[1..];
    assert CorrectCount(recs) == 199 by {
      CorrectCountAppend([RecordItem(false, 1.0)], recs[1..]);
    }
    AccuracyHundred(recs);
  }

  lemma {:induction false} CorrectCountAppend(a: seq<RecordItem>, b: seq<RecordItem>)
    ensures CorrectCount(a + b) == CorrectCount(a) + CorrectCount(b)
  {
    if |b| > 0 {
      var b' := b[..|b| - 1];
      assert (a + b)[..|a + b| - 1] == a + b';
      CorrectCountAppend(a, b');
    } else {
      assert a + b == a;
    }
  }

  // ---------------------------------------------------------------------------
  // Advice
  // ---------------------------------------------------------------------------

  const Congratulation: string := "Congratulation!"
  const Nice: string := "Nice"
  const GoodWork: string := "Good work"
  const TryAgain: string := "Try again!"

  /** The advice chain as the page writes it. */
  function Suggestion(accuracy: int): string {
    if accuracy == 100 then Congratulation
    else if accuracy >= 75 && accuracy < 90 then Nice
    else if accuracy >= 50 && accuracy < 75 then GoodWork
    else TryAgain
  }

  /** Each advice is given on exactly one band of percentages. */
  lemma SuggestionBands(accuracy: int)
    ensures Suggestion(accuracy) == Congratulation <==> accuracy == 100
    ensures Suggestion(accuracy) == Nice <==> 75 <= accuracy < 90
    ensures Suggestion(accuracy) == GoodWork <==> 50 <= accuracy < 75
    ensures Suggestion(accuracy) == TryAgain <==> accuracy < 50 || 90 <= accuracy < 100 || accuracy > 100
  {
  }

  /** How good the advice sounds, from "Try again!" up to "Congratulation!". */
  function Rank(advice: string): int {
    if advice == Congratulation then 3
    else if advice == Nice then 2
    else if advice == GoodWork then 1
    else 0
  }

  /** As written, 90 to 99 percent is told to try again, below what 75 percent is told. */
  lemma SuggestionGap(accuracy: int)
    requires 90 <= accuracy < 100
    ensures Suggestion(accuracy) == TryAgain
    ensures Rank(Suggestion(accuracy)) < Rank(Suggestion(75))
  {
  }

  /** The advice chain with the band below 100 closed: 75 up to 100 is "Nice". */
  function SuggestionIntended(accuracy: int): string {
    if accuracy == 100 then Congratulation
    else if accuracy >= 75 && accuracy < 100 then Nice
    else if accuracy >= 50 && accuracy < 75 then GoodWork
    else TryAgain
  }

  /** A higher percentage never gets worse advice, and the bands cover 0 to 100 without a gap. */
  lemma SuggestionIntendedMonotone(a: int, b: int)
    requires 0 <= a <= b <= 100
    ensures Rank(SuggestionIntended(a)) <= Rank(SuggestionIntended(b))
    ensures SuggestionIntended(a) == TryAgain <==> a < 50
  {
  }

  /** The advice the page gives for a set of answers. */
  function Advice(recs: seq<RecordItem>): string {
    Suggestion(Accuracy(recs))
  }

  /** The advice for a set of answers, with the corrected chain. */
  function AdviceIntended(recs: seq<RecordItem>): string {
    SuggestionIntended(Accuracy(recs))
  }

  /** The corrected advice differs from the page's only for 90 to 99 percent, where it says "Nice". */
  lemma AdviceIntendedAgrees(recs: seq<RecordItem>)
    ensures Advice(recs) != AdviceIntended(recs) <==> 90 <= Accuracy(recs) < 100
    ensures 90 <= Accuracy(recs) < 100 ==> Advice(recs) == TryAgain && AdviceIntended(recs) == Nice
  {
  }

  /** Every answer right earns the congratulation; with fewer than 200 answers, only that does. */
  lemma AdvicePerfect(recs: seq<RecordItem>)
    ensures |recs| > 0 && (forall i :: 0 <= i < |recs| ==> recs[i].correct) ==>
      Advice(recs) == Congratulation
    ensures |recs| < 200 ==>
      (Advice(recs) == Congratulation <==>
        |recs| > 0 && forall i :: 0 <= i < |recs| ==> recs[i].correct)
  {
    AccuracyHundred(recs);
  }

  /** No answers, or no right answer, is told to try again. */
  lemma AdviceNoneRight(recs: seq<RecordItem>)
    requires forall i :: 0 <= i < |recs| ==> !recs[i].correct
    ensures Accuracy(recs) == 0 && Advice(recs) == TryAgain
  {
    if |recs| > 0 {
      JsRoundOfInt(0);
    }
  }
}
