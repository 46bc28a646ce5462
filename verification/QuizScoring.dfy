/** Quiz scores: integer percentages with half-even rounding, and the fold over attempts. */
module QuizScoring {
  import opened Common
  import opened Rounding

  const PASSING_SCORE := 80
  const MAX_QUESTIONS := 20

  datatype ScoreResult = ScoreResult(correctCount: nat, total: nat, score: nat, passed: bool)

  function ScorePercentage(correct: nat, total: nat): nat {
    if total == 0 then 0 else RoundHalfEven(100 * correct, total)
  }

  function ResultOf(correct: nat, total: nat): ScoreResult {
    ScoreResult(correct, total, ScorePercentage(correct, total), ScorePercentage(correct, total) >= PASSING_SCORE)
  }

  /** Rounding turns a fail into a pass exactly for fractions in [79.5%, 80%). */
  lemma PromotedExactly(correct: nat, total: nat)
    requires total > 0
    ensures ResultOf(correct, total).passed && 5 * correct < 4 * total
       <==> 159 * total <= 200 * correct < 160 * total
  {
    RoundedAtLeast(100 * correct, total, PASSING_SCORE);
  }

  /** With at most 43 questions rounding never promotes a fail, so a pass means four fifths. */
  lemma PassMeansFourFifths(correct: nat, total: nat)
    requires 0 < total < 44
    ensures ResultOf(correct, total).passed <==> 5 * correct >= 4 * total
  {
    RoundedAtLeast(100 * correct, total, PASSING_SCORE);
  }

  /** The question cap is what makes this true: 35 of 44 would be rounded up to a pass. */
  lemma FirstPromotedFail()
    ensures ResultOf(35, 44).passed && 5 * 35 < 4 * 44
  {
    PromotedExactly(35, 44);
  }

  /** The score is the percentage rounded to the nearest integer, ties to even; it never exceeds 100. */
  lemma ScoreIsRoundedPercentage(correct: nat, total: nat)
    ensures if total == 0 then ScorePercentage(correct, total) == 0
            else IsRounded(100 * correct, total, ScorePercentage(correct, total))
    ensures correct <= total ==> ScorePercentage(correct, total) <= 100
  {
    if total == 0 {
      return;
    }
    RoundsToNearestEven(100 * correct, total);
    RoundedAtLeast(100 * correct, total, 102);
    var score: int := ScorePercentage(correct, total);
    ScaledOrder(2 * score - 1, 201, total);
  }

  lemma FullScoreMeansAllCorrect(correct: nat, total: nat)
    requires 0 < total <= MAX_QUESTIONS && correct <= total
    ensures ScorePercentage(correct, total) == 100 <==> correct == total
  {
    RoundedAtLeast(100 * correct, total, 100);
    RoundsToNearestEven(100 * correct, total);
    var score: int := ScorePercentage(correct, total);
    ScaledOrder(201, 2 * score - 1, total);
  }

  // ---------- attempts ----------

  /** The stored summary; absent fields are absent JSON keys. */
  datatype Payload = Payload(
    attemptCount: Option<int>, lastScore: Option<int>, bestScore: Option<int>, last: Option<ScoreResult>)

  const EMPTY_PAYLOAD := Payload(None, None, None, None)

  function ApplyAttempt(p: Payload, result: ScoreResult): Payload {
    var count := if p.attemptCount.Some? then p.attemptCount.value else 0;
    var best := if p.bestScore.Some? then Max(p.bestScore.value, result.score) else result.score;
    Payload(Some(count + 1), Some(result.score), Some(best), Some(result))
  }

  /** A quiz step: it accepts attempts until one passes. */
  datatype QuizStep = QuizStep(completed: bool, payload: Payload)

  function Submit(step: QuizStep, result: ScoreResult): QuizStep {
    if step.completed then step else QuizStep(result.passed, ApplyAttempt(step.payload, result))
  }

  function SubmitAll(step: QuizStep, results: seq<ScoreResult>): QuizStep {
    if results == [] then step
    else Submit(SubmitAll(step, results[..|results| - 1]), results[|results| - 1])
  }

  predicate AllFailed(results: seq<ScoreResult>) {
    forall i :: 0 <= i < |results| ==> !results[i].passed
  }

  predicate IsBest(best: int, results: seq<ScoreResult>) {
    && (exists i :: 0 <= i < |results| && results[i].score == best)
    && (forall i :: 0 <= i < |results| ==> results[i].score <= best)
  }

  /** The attempts that count: everything up to and including the first pass. */
  function Counted(results: seq<ScoreResult>): (counted: seq<ScoreResult>)
    ensures counted <= results
  {
    if results == [] then []
    else if results[0].passed then [results[0]]
    else [results[0]] + Counted(results[1..])
  }

  lemma {:induction false} CountedSnoc(results: seq<ScoreResult>)
    requires results != []
    ensures var front := results[..|results| - 1];
      Counted(results) == if AllFailed(front) then results else Counted(front)
    decreases |results|
  {
    if |results| > 1 && !results[0].passed {
      CountedSnoc(results[1..]);
      var front := results[..|results| - 1];
      assert results[1..][..|results| - 2] == front[1..];
      assert AllFailed(front) <==> AllFailed(front[1..]) by {
        assert forall i :: 0 < i < |front| ==> front[i] == front[1..][i - 1];
      }
      assert [results[0]] + results[1..] == results;
    } else if |results| > 1 {
      assert !AllFailed(results[..|results| - 1]);
    }
  }

  /** The payload holds the number of attempts, the last score and the best score. */
  predicate Summarises(p: Payload, attempts: seq<ScoreResult>) {
    if attempts == [] then p == EMPTY_PAYLOAD
    else
      && p.attemptCount == Some(|attempts|)
      && p.lastScore == Some(attempts[|attempts| - 1].score)
      && p.last == Some(attempts[|attempts| - 1])
      && p.bestScore.Some? && IsBest(p.bestScore.value, attempts)
  }

  lemma AttemptExtendsSummary(p: Payload, attempts: seq<ScoreResult>, result: ScoreResult)
    requires Summarises(p, attempts)
    ensures Summarises(ApplyAttempt(p, result), attempts + [result])
  {
    var all := attempts + [result];
    assert all[|attempts|] == result;
    if attempts != [] {
      BestSnoc(p.bestScore.value, attempts, result);
    }
  }

  lemma {:induction false} PayloadSummarisesAttempts(results: seq<ScoreResult>)
    ensures var step := SubmitAll(QuizStep(false, EMPTY_PAYLOAD), results);
      (step.completed <==> !AllFailed(results)) && Summarises(step.payload, Counted(results))
    decreases |results|
  {
    if results != [] {
      var front, last := results[..|results| - 1], results[|results| - 1];
      var before := SubmitAll(QuizStep(false, EMPTY_PAYLOAD), front);
      PayloadSummarisesAttempts(front);
      CountedSnoc(results);
      AllFailedSnoc(results);
      assert SubmitAll(QuizStep(false, EMPTY_PAYLOAD), results) == Submit(before, last);
      if AllFailed(front) {
        AllFailedCountsAll(front);
        AttemptExtendsSummary(before.payload, front, last);
        assert front + [last] == results;
      }
    }
  }

  lemma AllFailedSnoc(results: seq<ScoreResult>)
    requires results != []
    ensures AllFailed(results) <==> AllFailed(results[..|results| - 1]) && !results[|results| - 1].passed
  {
    var front := results[..|results| - 1];
    if AllFailed(front) {
      assert forall i :: 0 <= i < |front| ==> results[i] == front[i];
    } else {
      var i :| 0 <= i < |front| && front[i].passed;
      assert results[i].passed;
    }
  }

  lemma {:induction false} AllFailedCountsAll(results: seq<ScoreResult>)
    requires AllFailed(results)
    ensures Counted(results) == results
    decreases |results|
  {
    if results != [] {
      AllFailedCountsAll(results[1..]);
    }
  }

  lemma BestSnoc(best: int, results: seq<ScoreResult>, last: ScoreResult)
    requires IsBest(best, results)
    ensures IsBest(Max(best, last.score), results + [last])
  {
    var all := results + [last];
    var i :| 0 <= i < |results| && results[i].score == best;
    assert all[i].score == best && all[|results|].score == last.score;
  }

  /** The step is done exactly when its best score reaches the passing score. */
  lemma CompletedIffBestPasses(results: seq<ScoreResult>)
    requires results != []
    requires forall i :: 0 <= i < |results| ==> (results[i].passed <==> results[i].score >= PASSING_SCORE)
    ensures var step := SubmitAll(QuizStep(false, EMPTY_PAYLOAD), results);
      step.payload.bestScore.Some? && (step.completed <==> step.payload.bestScore.value >= PASSING_SCORE)
  {
    PayloadSummarisesAttempts(results);
    var step, counted := SubmitAll(QuizStep(false, EMPTY_PAYLOAD), results), Counted(results);
    var i :| 0 <= i < |counted| && counted[i].score == step.payload.bestScore.value;
    assert counted[i] == results[i];
    if AllFailed(results) {
      assert !results[i].passed;
    } else {
      PassIsCounted(results);
    }
  }

  lemma {:induction false} PassIsCounted(results: seq<ScoreResult>)
    requires !AllFailed(results)
    ensures exists i :: 0 <= i < |Counted(results)| && Counted(results)[i].passed
    decreases |results|
  {
    if results[0].passed {
      assert Counted(results)[0].passed;
    } else {
      assert forall i :: 0 < i < |results| ==> results[i] == results[1..][i - 1];
      PassIsCounted(results[1..]);
      var i :| 0 <= i < |Counted(results[1..])| && Counted(results[1..])[i].passed;
      assert Counted(results)[i + 1].passed;
    }
  }
}
