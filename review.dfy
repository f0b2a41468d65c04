/**
 * The review-and-correct screen: the parent edits the graded questions in
 * memory; editing an answer re-applies the correctness rule; the score is
 * recomputed from the edited list and saved with the rest of the review data.
 */
module Review {
  import opened Wrappers
  import opened Json
  import Seqs
  import Rounding
  import Answers

  /** The two fields whose edit re-grades the question. */
  predicate IsAnswerField(field: string)
  {
    field == "student_answer" || field == "correct_answer"
  }

  /**
   * Question `q` after `updateQuestion(_, field, value)`. `None` when the
   * re-grading throws: a free-text question whose answers include null.
   */
  function Edited(q: Record, field: string, value: Value): (r: Option<Record>)
    ensures r.None? ==> IsAnswerField(field)
    ensures r.Some? ==> r.value.Keys >= q.Keys + {field} && r.value[field] == value
    ensures r.Some? ==> forall k :: k in q && k != field && k != "is_correct" ==> r.value[k] == q[k]
  {
    var q1 := q[field := value];
    if IsAnswerField(field) then
      match Answers.CheckAnswer(Get(q1, "question_type"), Get(q1, "student_answer"), Get(q1, "correct_answer"))
      case None => None
      case Some(c) => Some(q1["is_correct" := Bool(c)])
    else Some(q1)
  }

  /** The edited field holds the new value. */
  lemma EditSetsField(q: Record, field: string, value: Value)
    requires Edited(q, field, value).Some?
    ensures Get(Edited(q, field, value).value, field) == value
  {
  }

  /** An edit of an answer field re-grades with the question card's rule. */
  lemma EditRegrades(q: Record, field: string, value: Value)
    requires IsAnswerField(field)
    ensures var q1 := q[field := value];
      var verdict := Answers.CheckAnswer(Get(q1, "question_type"), Get(q1, "student_answer"), Get(q1, "correct_answer"));
      && (Edited(q, field, value).None? <==> verdict.None?)
      && (verdict.Some? ==> Get(Edited(q, field, value).value, "is_correct") == Bool(verdict.value))
  {
  }

  /** Any other edit leaves the grading as it was. */
  lemma EditKeepsGrade(q: Record, field: string, value: Value)
    requires !IsAnswerField(field) && field != "is_correct"
    ensures Edited(q, field, value).Some?
    ensures Get(Edited(q, field, value).value, "is_correct") == Get(q, "is_correct")
  {
  }

  /** An edit changes only the edited field and possibly `is_correct`. */
  lemma EditIsLocal(q: Record, field: string, value: Value, k: string)
    requires Edited(q, field, value).Some?
    requires k != field && k != "is_correct"
    ensures Get(Edited(q, field, value).value, k) == Get(q, k)
  {
  }

  /** `q => q.is_correct`. */
  function GradedCorrect(): Record -> bool
  {
    q => Truthy(Get(q, "is_correct"))
  }

  datatype Score = Score(correctCount: nat, totalCount: nat, scorePercentage: int)

  /** `recalculateScore()`. */
  function Recalculate(qs: seq<Record>): (s: Score)
    ensures s.totalCount == |qs| && s.correctCount <= s.totalCount
    ensures 0 <= s.scorePercentage <= 100
    ensures qs == [] ==> s.scorePercentage == 0
  {
    var c := Seqs.Count(qs, GradedCorrect());
    Rounding.PercentBounds(c, |qs|);
    Score(c, |qs|, Rounding.Percent(c, |qs|))
  }

  /** The counts follow the grading: all correct and none correct are the extremes. */
  lemma RecalculateExtremes(qs: seq<Record>)
    ensures Recalculate(qs).correctCount == |qs| <==> forall i :: 0 <= i < |qs| ==> Truthy(Get(qs[i], "is_correct"))
    ensures Recalculate(qs).correctCount == 0 <==> forall i :: 0 <= i < |qs| ==> !Truthy(Get(qs[i], "is_correct"))
  {
    Seqs.CountAllIff(qs, GradedCorrect());
    Seqs.CountNoneIff(qs, GradedCorrect());
  }

  /** The question list as the saved review data holds it. */
  function QuestionsValue(qs: seq<Record>): (v: Value)
    ensures v.Arr? && |v.items| == |qs|
    ensures forall i :: 0 <= i < |qs| ==> v.items[i] == Obj(qs[i])
  {
    Arr(Seqs.Map(qs, q => Obj(q)))
  }

  /** `String.fromCharCode(65 + i)`: A, B, C, ... */
  function OptionLetter(i: nat): (c: char)
    requires i < 0xD800 - 65
    ensures c as int == 65 + i
  {
    (65 + i) as char
  }

  /** The option letters a question shows: one per option of a multiple-choice question. */
  function OptionLetters(q: Record): (r: string)
    requires Get(q, "options").Arr? ==> |Get(q, "options").items| < 0xD800 - 65
    ensures Get(q, "question_type") == Str("multiple_choice") && Get(q, "options").Arr? ==>
      |r| == |Get(q, "options").items|
    ensures forall i :: 0 <= i < |r| ==> r[i] as int == 65 + i
    ensures Get(q, "question_type") != Str("multiple_choice") || !Get(q, "options").Arr? ==> r == ""
  {
    var opts := Get(q, "options");
    if Get(q, "question_type") == Str("multiple_choice") && opts.Arr? && |opts.items| > 0 then
      seq(|opts.items|, i requires 0 <= i < |opts.items| => OptionLetter(i))
    else ""
  }

  /** The fields `handleSave` replaces. */
  predicate IsSavedField(k: string)
  {
    k == "allQuestions" || k == "correctCount" || k == "totalCount" || k == "scorePercentage"
  }

  /** The screen's state. */
  class Interface {
    const reviewData: Record
    var editing: seq<Record>
    var hasChanges: bool

    constructor(data: Record, questions: seq<Record>)
      requires Get(data, "allQuestions") == QuestionsValue(questions)
      ensures reviewData == data && editing == questions && !hasChanges
    {
      reviewData := data;
      editing := questions;
      hasChanges := false;
    }

    /**
     * `updateQuestion(i, field, value)`. When re-grading throws, the list and
     * the change flag stay as they were.
     */
    method UpdateQuestion(i: nat, field: string, value: Value) returns (ok: bool)
      requires i < |editing|
      modifies this
      ensures ok <==> Edited(old(editing)[i], field, value).Some?
      ensures ok ==> editing == old(editing)[i := Edited(old(editing)[i], field, value).value] && hasChanges
      ensures !ok ==> editing == old(editing) && hasChanges == old(hasChanges)
      ensures |editing| == |old(editing)|
    {
      var updated := editing;
      var q := updated[i][field := value];
      if IsAnswerField(field) {
        var verdict := Answers.CheckAnswer(Get(q, "question_type"), Get(q, "student_answer"),
                                           Get(q, "correct_answer"));
        if verdict.None? {
          return false;
        }
        q := q["is_correct" := Bool(verdict.value)];
      }
      updated := updated[i := q];
      editing := updated;
      hasChanges := true;
      ok := true;
    }

    /** `recalculateScore()` on the current list. */
    function CurrentScore(): Score
      reads this
    {
      Recalculate(editing)
    }

    /**
     * `handleSave()`: the review data with the edited list and the three
     * counts replaced, every other field as it was.
     */
    method HandleSave() returns (corrected: Record)
      ensures var s := Recalculate(editing);
        && Get(corrected, "allQuestions") == QuestionsValue(editing)
        && Get(corrected, "correctCount") == Num(s.correctCount)
        && Get(corrected, "totalCount") == Num(s.totalCount)
        && Get(corrected, "scorePercentage") == Num(s.scorePercentage)
      ensures corrected.Keys == reviewData.Keys + {"allQuestions", "correctCount", "totalCount", "scorePercentage"}
      ensures forall k :: k in reviewData && !IsSavedField(k) ==> corrected[k] == reviewData[k]
    {
      var s := Recalculate(editing);
      corrected := Merge(reviewData, map[
        "allQuestions" := QuestionsValue(editing),
        "correctCount" := Num(s.correctCount),
        "totalCount" := Num(s.totalCount),
        "scorePercentage" := Num(s.scorePercentage)]);
    }
  }
}
