/**
 * The practice question card: the answer the child has picked or typed,
 * whether it has been submitted, the submission itself with its verdict, and
 * the colour each option button takes.
 */
module QuestionCard {
  import opened Wrappers
  import opened Json
  import Answers

  /** The button styles an option can take. */
  datatype Variant = Default | Outline | Success | Destructive

  /** What pressing "Submit Answer" does. */
  datatype SubmitOutcome =
    | Ignored
      /** `onSubmit(question, answer, isCorrect)` is called. */
    | Submitted(question: Record, answer: Value, isCorrect: bool)
      /** Converting a null correct answer to a string throws. */
    | Crashed

  /** The answer counts as not given: null or the empty string. */
  predicate NoAnswer(v: Value)
  {
    v == Null || v == Str("")
  }

  /** The types answered in a text box. */
  const FillTypes: seq<Value> := [Str("fill_blank"), Str("short_answer"), Str("math_problem")]

  /** `FillTypes.includes(qtype)`. */
  predicate IsFillType(qtype: Value)
  {
    qtype in FillTypes
  }

  /**
   * The style of one option button. Before submission only the selection is
   * highlighted; afterwards the correct option is green, a wrong pick red.
   */
  function VariantFor(isAnswered: bool, selected: Value, correct: Value, option: Value): (v: Variant)
    ensures !isAnswered ==> (v == Default <==> StrictEq(selected, option))
    ensures !isAnswered ==> (v == Outline <==> !StrictEq(selected, option))
    ensures isAnswered ==> (v == Success <==> StrictEq(option, correct))
    ensures isAnswered ==> (v == Destructive <==> !StrictEq(option, correct) && StrictEq(option, selected))
    ensures isAnswered ==> v != Default
  {
    if !isAnswered then (if StrictEq(selected, option) then Default else Outline)
    else if StrictEq(option, correct) then Success
    else if StrictEq(option, selected) then Destructive
    else Outline
  }

  /** One card, as the component's state and props hold it. */
  class Card {
    var question: Record
    var questionNumber: int
    var totalQuestions: int
    var selectedAnswer: Value
    var isAnswered: bool

    constructor(q: Record, number: int, total: int)
      ensures question == q && questionNumber == number && totalQuestions == total
      ensures selectedAnswer == Null && !isAnswered
    {
      question := q;
      questionNumber := number;
      totalQuestions := total;
      selectedAnswer := Null;
      isAnswered := false;
    }

    /** A new question clears the selection and the submitted flag. */
    method ShowQuestion(q: Record, number: int, total: int)
      modifies this
      ensures question == q && questionNumber == number && totalQuestions == total
      ensures selectedAnswer == Null && !isAnswered
    {
      question := q;
      questionNumber := number;
      totalQuestions := total;
      selectedAnswer := Null;
      isAnswered := false;
    }

    /** Clicking an option or typing: ignored once the answer is submitted. */
    method Select(answer: Value)
      modifies this
      ensures selectedAnswer == if old(isAnswered) then old(selectedAnswer) else answer
      ensures isAnswered == old(isAnswered) && question == old(question)
      ensures questionNumber == old(questionNumber) && totalQuestions == old(totalQuestions)
    {
      if !isAnswered {
        selectedAnswer := answer;
      }
    }

    /**
     * `handleSubmit`: without an answer nothing happens; otherwise the card
     * is marked answered and the verdict is reported.
     */
    method Submit() returns (outcome: SubmitOutcome)
      modifies this
      ensures NoAnswer(old(selectedAnswer)) ==> outcome == Ignored && isAnswered == old(isAnswered)
      ensures !NoAnswer(old(selectedAnswer)) ==> isAnswered
      ensures !NoAnswer(old(selectedAnswer)) ==>
        match Answers.CheckAnswer(Get(question, "question_type"), selectedAnswer, Get(question, "correct_answer"))
        case None => outcome == Crashed
        case Some(c) => outcome == Submitted(question, selectedAnswer, c)
      ensures selectedAnswer == old(selectedAnswer) && question == old(question)
      ensures questionNumber == old(questionNumber) && totalQuestions == old(totalQuestions)
    {
      if NoAnswer(selectedAnswer) {
        return Ignored;
      }
      isAnswered := true;
      var verdict := Answers.CheckAnswer(Get(question, "question_type"), selectedAnswer,
                                         Get(question, "correct_answer"));
      match verdict {
        case None => outcome := Crashed;
        case Some(c) => outcome := Submitted(question, selectedAnswer, c);
      }
    }

    /**
     * `isCorrectAnswer()`, which the feedback panel shows. `None` means the
     * render throws, as `Submit` did.
     */
    function IsCorrectAnswer(): (r: Option<bool>)
      reads this
      ensures !isAnswered || selectedAnswer == Null ==> r == Some(false)
    {
      if !isAnswered || selectedAnswer == Null then Some(false)
      else Answers.CheckAnswer(Get(question, "question_type"), selectedAnswer,
                               Get(question, "correct_answer"))
    }

    /**
     * `getButtonVariant(option)`: before submission the selected option is
     * highlighted; afterwards the correct option is green and a wrong pick red.
     */
    function ButtonVariant(option: Value): (v: Variant)
      reads this
      ensures !isAnswered ==> (v == Default <==> StrictEq(selectedAnswer, option))
      ensures !isAnswered ==> (v == Outline <==> !StrictEq(selectedAnswer, option))
      ensures isAnswered ==> (v == Success <==> StrictEq(option, Get(question, "correct_answer")))
      ensures isAnswered ==> (v == Destructive <==>
                 !StrictEq(option, Get(question, "correct_answer")) && StrictEq(option, selectedAnswer))
      ensures isAnswered ==> v != Default
    {
      VariantFor(isAnswered, selectedAnswer, Get(question, "correct_answer"), option)
    }

    /** `isFillType`: the card shows a text box, and the answer is checked as text. */
    function IsFill(): (r: bool)
      reads this
      ensures r <==> Get(question, "question_type") in FillTypes
      ensures r ==> !Answers.IsChoiceType(Get(question, "question_type"))
    {
      FillTypesAreNotChoices(Get(question, "question_type"));
      IsFillType(Get(question, "question_type"))
    }

    /** `isLastQuestion`: the card's number is the total, so its button ends the session. */
    function IsLastQuestion(): (r: bool)
      reads this
      ensures r <==> questionNumber == totalQuestions
    {
      questionNumber == totalQuestions
    }

    /**
     * After a submission, the feedback panel agrees with the verdict passed
     * to `onSubmit`.
     */
    method SubmitThenFeedback() returns (outcome: SubmitOutcome, shown: Option<bool>)
      modifies this
      ensures outcome.Submitted? ==> shown == Some(outcome.isCorrect)
      ensures outcome.Crashed? ==> shown.None?
      ensures outcome.Ignored? ==> NoAnswer(selectedAnswer)
    {
      outcome := Submit();
      shown := IsCorrectAnswer();
    }
  }

  /** Before submission the selected option is "default" and every other one "outline". */
  lemma VariantsBeforeAnswer(selected: Value, correct: Value, option: Value)
    requires !selected.Arr? && !selected.Obj?
    ensures VariantFor(false, selected, correct, option) == if option == selected then Default else Outline
  {
  }

  /**
   * After submission exactly the correct option is green, and a wrong pick is
   * the only red one.
   */
  lemma VariantsAfterAnswer(selected: Value, correct: Value, option: Value)
    requires !option.Arr? && !option.Obj?
    ensures VariantFor(true, selected, correct, option) ==
      if option == correct then Success
      else if option == selected then Destructive
      else Outline
  {
  }

  /** The fill-in types are exactly fill_blank, short_answer and math_problem. */
  lemma FillTypesAreNotChoices(qtype: Value)
    ensures IsFillType(qtype) ==> !Answers.IsChoiceType(qtype)
  {
  }
}
