/**
 * The find-a-tutor page: tutors loaded by rating, then narrowed by a search
 * on name and bio and by a subject.
 */
module FindTutor {
  import opened Wrappers
  import opened Json
  import Seqs
  import Text
  import Sorting
  import Entities
  import Search

  /**
   * `tutor.subjects.includes(subject)`: membership in an array, a substring
   * test on a string; `None`: any other value has no `includes` and the call
   * throws.
   */
  function SubjectsInclude(t: Record, subject: string): (r: Option<bool>)
    ensures Get(t, "subjects").Arr? ==> r == Some(Str(subject) in Get(t, "subjects").items)
    ensures r.None? <==> !Get(t, "subjects").Arr? && !Get(t, "subjects").Str?
  {
    match Get(t, "subjects")
    case Arr(items) => Some(Str(subject) in items)
    case Str(s) => Some(Text.Contains(s, subject))
    case _ => None
  }

  function Teaches(subject: string): Record -> Option<bool>
  {
    t => SubjectsInclude(t, subject)
  }

  /** The effect that sets `filteredTutors`; `None`: one of the filters throws. */
  function FilterTutors(tutors: seq<Record>, searchTerm: string, subjectFilter: string): (r: Option<seq<Record>>)
    ensures searchTerm == "" && subjectFilter == Search.All ==> r == Some(tutors)
  {
    var searched :=
      if searchTerm != "" then Search.FilterOrThrow(tutors, Search.SearchIn("name", "bio", searchTerm))
      else Some(tutors);
    match searched
    case None => None
    case Some(found) =>
      if subjectFilter != Search.All then Search.FilterOrThrow(found, Teaches(subjectFilter)) else Some(found)
  }

  /**
   * A tutor is shown exactly when the search (if any) hits their name or
   * bio and, unless the filter is "all", their subjects include it; the
   * order of the loaded list is kept.
   */
  lemma FilterRule(tutors: seq<Record>, searchTerm: string, subjectFilter: string, t: Record)
    ensures var r := FilterTutors(tutors, searchTerm, subjectFilter);
      r.Some? ==>
        (t in r.value <==>
          && t in tutors
          && (searchTerm != "" ==> Search.Hits(t, "name", searchTerm)
                                   || (Get(t, "name").Str? && Search.Hits(t, "bio", searchTerm)))
          && (subjectFilter != Search.All ==> SubjectsInclude(t, subjectFilter) == Some(true)))
    ensures var r := FilterTutors(tutors, searchTerm, subjectFilter);
      r.Some? ==> Seqs.IsSubsequence(r.value, tutors)
  {
    var found := tutors;
    if searchTerm != "" {
      Search.SearchRule(tutors, "name", "bio", searchTerm, t);
      var s := Search.FilterOrThrow(tutors, Search.SearchIn("name", "bio", searchTerm));
      if s.Some? {
        found := s.value;
      }
    } else {
      Seqs.SubsequenceReflexive(tutors);
    }
    var r := FilterTutors(tutors, searchTerm, subjectFilter);
    if r.Some? && subjectFilter != Search.All {
      Seqs.FilterMembership(found, Search.Holds(Teaches(subjectFilter)), t);
      Seqs.FilterIsSubsequence(found, Search.Holds(Teaches(subjectFilter)));
      Seqs.SubsequenceTransitive(r.value, found, tutors);
    }
  }

  /** A tutor with no subjects list makes a subject filter throw. */
  lemma MissingSubjectsThrow(tutors: seq<Record>, subjectFilter: string, i: nat)
    requires i < |tutors| && "subjects" !in tutors[i] && subjectFilter != Search.All
    ensures FilterTutors(tutors, "", subjectFilter).None?
  {
  }

  /** `Tutor.list('-rating')`: every stored tutor, the best rated first. */
  lemma LoadedTutors(items: seq<Record>)
    ensures var loaded := Entities.Listed(items, "-rating", 0);
      && multiset(loaded) == multiset(items)
      && Sorting.SortedBy(loaded, Entities.KeyOf("rating"), Sorting.Descending)
  {
    assert Entities.ParseSortBy("-rating") == Entities.By("rating", Sorting.Descending);
    Entities.ListedPermutes(items, "-rating");
    Entities.ListedSorted(items, "-rating", 0);
  }
}
