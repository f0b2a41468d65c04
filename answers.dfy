/**
 * The correctness rule for a practice answer, shared by the question card and
 * the review screen: exact strict equality for multiple-choice and
 * true/false questions, and for every other type, equality after
 * `toString().trim().toLowerCase()` of both sides.
 */
module Answers {
  import opened Wrappers
  import opened Json
  import Text

  /** Question types answered by picking an option. */
  predicate IsChoiceType(qtype: Value)
  {
    qtype == Str("multiple_choice") || qtype == Str("true_false")
  }

  /** `s.trim().toLowerCase()`. */
  function Normalize(s: string): (r: string)
    ensures Text.Lower(r) == r && Text.Trimmed(r)
    ensures |r| <= |s|
  {
    Text.LowerIdempotent(Text.Trim(s));
    Text.TrimIsTrimmed(Text.Lower(s));
    Text.TrimIsTrimmed(s);
    Text.LowerTrimCommute(s);
    Text.Lower(Text.Trim(s))
  }

  /**
   * Whether `given` answers a question of type `qtype` whose answer is
   * `correct`. `None` means the check throws: a free-text question calls
   * `toString()` on both answers, which fails on null and undefined.
   */
  function CheckAnswer(qtype: Value, given: Value, correct: Value): (r: Option<bool>)
    ensures r.None? <==> !IsChoiceType(qtype) && (IsNullish(correct) || IsNullish(given))
  {
    if IsChoiceType(qtype) then Some(StrictEq(given, correct))
    else
      match (ToStringCall(correct), ToStringCall(given))
      case (Some(c), Some(g)) => Some(Normalize(g) == Normalize(c))
      case _ => None
  }

  /** A choice answer is right exactly when it is strictly equal to the answer. */
  lemma ChoiceIsExact(qtype: Value, given: Value, correct: Value)
    requires IsChoiceType(qtype)
    ensures CheckAnswer(qtype, given, correct) == Some(true) <==> StrictEq(given, correct)
    ensures CheckAnswer(qtype, given, correct).Some?
  {
  }

  /**
   * A free-text answer is right exactly when both, as strings, agree after
   * trimming and lower-casing.
   */
  lemma FreeTextIsNormalised(qtype: Value, given: Value, correct: Value)
    requires !IsChoiceType(qtype) && !IsNullish(given) && !IsNullish(correct)
    ensures CheckAnswer(qtype, given, correct) == Some(true)
      <==> Normalize(JsString(given)) == Normalize(JsString(correct))
    ensures CheckAnswer(qtype, given, correct).Some?
  {
  }

  /** The free-text rule does not care which side is the child's answer. */
  lemma FreeTextSymmetric(qtype: Value, given: Value, correct: Value)
    requires !IsChoiceType(qtype)
    ensures CheckAnswer(qtype, given, correct) == CheckAnswer(qtype, correct, given)
  {
  }

  /** Normalising is idempotent. */
  lemma NormalizeIdempotent(s: string)
    ensures Normalize(Normalize(s)) == Normalize(s)
  {
    Text.LowerTrimCommute(Text.Trim(s));
    Text.TrimIdempotent(s);
    Text.LowerIdempotent(Text.Trim(s));
  }

  /** Normalising ignores letter case. */
  lemma NormalizeIgnoresCase(s: string)
    ensures Normalize(Text.Lower(s)) == Normalize(s)
  {
    Text.LowerTrimCommute(s);
    Text.LowerIdempotent(Text.Trim(s));
  }

  /** Padding a free-text answer with white space does not change the verdict. */
  lemma FreeTextIgnoresPadding(qtype: Value, w1: string, s: string, w2: string, correct: Value)
    requires !IsChoiceType(qtype)
    requires forall i :: 0 <= i < |w1| ==> Text.IsSpace(w1[i])
    requires forall i :: 0 <= i < |w2| ==> Text.IsSpace(w2[i])
    ensures CheckAnswer(qtype, Str(w1 + s + w2), correct) == CheckAnswer(qtype, Str(s), correct)
  {
    Text.TrimIgnoresPadding(w1, s, w2);
  }

  /** Lower-casing a free-text answer does not change the verdict. */
  lemma FreeTextIgnoresCase(qtype: Value, s: string, correct: Value)
    requires !IsChoiceType(qtype)
    ensures CheckAnswer(qtype, Str(Text.Lower(s)), correct) == CheckAnswer(qtype, Str(s), correct)
  {
    NormalizeIgnoresCase(s);
  }

  /** A multiple-choice answer that differs only in case is wrong. */
  lemma ChoiceIsCaseSensitive()
    ensures CheckAnswer(Str("multiple_choice"), Str("B"), Str("B")) == Some(true)
    ensures CheckAnswer(Str("multiple_choice"), Str("b"), Str("B")) == Some(false)
  {
  }

  /** A fill-in answer with padding and different case is right. */
  lemma FillBlankExample()
    ensures CheckAnswer(Str("fill_blank"), Str(" paris "), Str("Paris")) == Some(true)
  {
    var s := " paris ";
    assert Text.TrimStart(s) == "paris ";
    assert Text.TrimEnd("paris ") == "paris";
    assert Text.TrimStart("Paris") == "Paris";
    assert Text.TrimEnd("Paris") == "Paris";
    assert Text.Lower("Paris") == "paris";
    assert Text.Lower("paris") == "paris";
  }

  /** A number answer is compared through its decimal string. */
  lemma NumericAnswerExample()
    ensures CheckAnswer(Str("math_problem"), Str(" 12"), Num(12)) == Some(true)
  {
    assert Text.IntToString(12) == "12";
    assert Text.TrimStart(" 12") == "12";
    assert Text.TrimEnd("12") == "12";
    assert Text.TrimStart("12") == "12";
    assert Text.Lower("12") == "12";
  }
}
