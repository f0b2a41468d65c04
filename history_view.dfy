/**
 * The practice history: completed questions filtered by child and by
 * subject. The subjects offered in the filter are `Search.Subjects`.
 */
module HistoryView {
  import opened Json
  import Seqs
  import Search

  /** The effect that sets `filteredQuestions`. */
  function FilteredQuestions(completedQuestions: seq<Record>, selectedChild: string, selectedSubject: string)
    : (r: seq<Record>)
    ensures |r| <= |completedQuestions|
    ensures selectedChild == Search.All && selectedSubject == Search.All ==> r == completedQuestions
    ensures selectedSubject != Search.All ==> forall i :: 0 <= i < |r| ==> Get(r[i], "subject") == Str(selectedSubject)
  {
    Search.Selected(Search.Selected(completedQuestions, "child_id", selectedChild), "subject", selectedSubject)
  }

  /**
   * A question is shown exactly when it is the selected child's and of the
   * selected subject, a selection of "all" not filtering; the order is kept,
   * and with both at "all" every question is shown.
   */
  lemma FilterRule(completedQuestions: seq<Record>, selectedChild: string, selectedSubject: string, q: Record)
    ensures q in FilteredQuestions(completedQuestions, selectedChild, selectedSubject) <==>
      && q in completedQuestions
      && (selectedChild != Search.All ==> Get(q, "child_id") == Str(selectedChild))
      && (selectedSubject != Search.All ==> Get(q, "subject") == Str(selectedSubject))
    ensures Seqs.IsSubsequence(FilteredQuestions(completedQuestions, selectedChild, selectedSubject), completedQuestions)
    ensures FilteredQuestions(completedQuestions, Search.All, Search.All) == completedQuestions
  {
    var byChild := Search.Selected(completedQuestions, "child_id", selectedChild);
    Search.SelectedRule(completedQuestions, "child_id", selectedChild, q);
    Search.SelectedRule(byChild, "subject", selectedSubject, q);
    Seqs.SubsequenceTransitive(FilteredQuestions(completedQuestions, selectedChild, selectedSubject), byChild,
                               completedQuestions);
  }

  /** Filtering by child and then by subject is filtering by subject and then by child. */
  lemma FiltersCommute(completedQuestions: seq<Record>, selectedChild: string, selectedSubject: string)
    ensures FilteredQuestions(completedQuestions, selectedChild, selectedSubject)
         == Search.Selected(Search.Selected(completedQuestions, "subject", selectedSubject), "child_id", selectedChild)
  {
    if selectedChild != Search.All && selectedSubject != Search.All {
      var c := Search.FieldIs("child_id", Str(selectedChild));
      var s := Search.FieldIs("subject", Str(selectedSubject));
      Seqs.FilterFilter(completedQuestions, c, s);
      Seqs.FilterFilter(completedQuestions, s, c);
      Seqs.FilterAgree(completedQuestions, Seqs.Both(c, s), Seqs.Both(s, c));
    }
  }
}
