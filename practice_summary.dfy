/**
 * The end-of-session summary: how many answers were right and the rounded
 * percentage score.
 */
module PracticeSummary {
  import opened Json
  import Seqs
  import Rounding

  /** `a => a.answer_correct`, read as a truth value. */
  function AnsweredCorrectly(): Record -> bool
  {
    a => Truthy(Get(a, "answer_correct"))
  }

  /** `answers.filter(a => a.answer_correct).length`. */
  function CorrectCount(answers: seq<Record>): (n: nat)
    ensures n <= |answers|
  {
    Seqs.Count(answers, AnsweredCorrectly())
  }

  /** `Math.round(correct / total * 100)`, and 0 without answers. */
  function Score(answers: seq<Record>): (score: int)
    ensures 0 <= score <= 100
    ensures answers == [] ==> score == 0
  {
    var c := CorrectCount(answers);
    Rounding.PercentBounds(c, |answers|);
    Rounding.Percent(c, |answers|)
  }

  /**
   * For fewer than 200 answers, the score is 100 exactly when there is an
   * answer and every answer is correct.
   */
  lemma ScoreFullIffAllCorrect(answers: seq<Record>)
    requires |answers| < 200
    ensures Score(answers) == 100 <==>
      answers != [] && forall i :: 0 <= i < |answers| ==> Truthy(Get(answers[i], "answer_correct"))
  {
    Seqs.CountAllIff(answers, AnsweredCorrectly());
    Rounding.PercentFullOnlyIfAll(CorrectCount(answers), |answers|);
  }

  /** Every answer correct scores 100, whatever the number of answers. */
  lemma AllCorrectScoresFull(answers: seq<Record>)
    requires answers != []
    requires forall i :: 0 <= i < |answers| ==> Truthy(Get(answers[i], "answer_correct"))
    ensures Score(answers) == 100
  {
    Seqs.CountAllIff(answers, AnsweredCorrectly());
    Rounding.PercentExtremes(|answers|);
  }

  /** No answer correct scores 0. */
  lemma NoneCorrectScoresZero(answers: seq<Record>)
    requires forall i :: 0 <= i < |answers| ==> !Truthy(Get(answers[i], "answer_correct"))
    ensures Score(answers) == 0
  {
    Seqs.CountNoneIff(answers, AnsweredCorrectly());
    Rounding.PercentExtremes(|answers|);
  }

  /** Appending a correct answer raises the count by one. */
  lemma CorrectAnswerRaisesCount(answers: seq<Record>, a: Record)
    requires Truthy(Get(a, "answer_correct"))
    ensures CorrectCount(answers + [a]) == CorrectCount(answers) + 1
  {
    Seqs.CountAppend(answers, [a], AnsweredCorrectly());
    assert Seqs.Filter([a], AnsweredCorrectly()) == [a];
  }

  /** A wrong answer leaves the count unchanged. */
  lemma WrongAnswerKeepsCount(answers: seq<Record>, a: Record)
    requires !Truthy(Get(a, "answer_correct"))
    ensures CorrectCount(answers + [a]) == CorrectCount(answers)
  {
    Seqs.CountAppend(answers, [a], AnsweredCorrectly());
    assert Seqs.Filter([a], AnsweredCorrectly()) == [];
  }
}
