/**
 * The dashboard: the lists of the chosen child (or of every child), the
 * week's assignment count and mean score, the number of open practice
 * questions, and what is loaded and shown.
 */
module Dashboard {
  import opened Wrappers
  import opened Json
  import Seqs
  import Sorting
  import Entities
  import Scores
  import Practice

  const AllChildren: string := "all"
  const AssignmentLimit: nat := 50
  const SuggestionLimit: nat := 3

  /** `a => new Date(a.created_date) > weekAgo`. */
  function After(weekAgo: int): Record -> bool
  {
    a => Scores.DateOf(a).Some? && Scores.DateOf(a).value > weekAgo
  }

  /** The selected child's records: all of them for "all". */
  function ForSelection(s: seq<Record>, selectedChildId: string): seq<Record>
  {
    if selectedChildId == AllChildren then s else Seqs.Filter(s, Scores.OfChild(Str(selectedChildId)))
  }

  datatype Stats = Stats(weeklyAssignments: nat, averageScore: int, practiceQuestions: nat)

  datatype FilteredData = FilteredData(
    stats: Stats,
    displayAssignments: seq<Record>,
    displayPracticeQuestions: seq<Record>,
    /** "All Children", the chosen child's name, or `undefined` when no child has that id. */
    selectedChildName: Value)

  /** The name shown for the selection. */
  function SelectedChildName(children: seq<Record>, selectedChildId: string): (v: Value)
    ensures selectedChildId == AllChildren ==> v == Str("All Children")
    ensures selectedChildId != AllChildren && Entities.FindIndex(children, Str(selectedChildId)) == -1 ==> v == Undef
  {
    if selectedChildId == AllChildren then Str("All Children")
    else
      var i := Entities.FindIndex(children, Str(selectedChildId));
      if i < 0 then Undef else Get(children[i], "name")
  }

  /** The `filteredData` memo, with `weekAgo` the timestamp seven days before now. */
  function Filtered(children: seq<Record>, assignments: seq<Record>, practice: seq<Record>,
                    selectedChildId: string, weekAgo: int): (d: FilteredData)
    ensures d.stats.weeklyAssignments <= |d.displayAssignments| <= |assignments|
    ensures d.stats.practiceQuestions <= |d.displayPracticeQuestions| <= |practice|
    ensures d.stats.weeklyAssignments == 0 ==> d.stats.averageScore == 0
  {
    var mine := ForSelection(assignments, selectedChildId);
    var myPractice := ForSelection(practice, selectedChildId);
    var recent := Seqs.Filter(mine, After(weekAgo));
    FilteredData(
      Stats(|recent|, Scores.AverageScore(recent), Seqs.Count(myPractice, Practice.Incomplete())),
      mine, myPractice, SelectedChildName(children, selectedChildId))
  }

  /** "all" shows everything; another id shows exactly that child's records, in order. */
  lemma SelectionMembers(s: seq<Record>, selectedChildId: string, r: Record)
    ensures selectedChildId == AllChildren ==> ForSelection(s, selectedChildId) == s
    ensures selectedChildId != AllChildren ==>
      (r in ForSelection(s, selectedChildId) <==> r in s && StrictEq(Get(r, "child_id"), Str(selectedChildId)))
    ensures Seqs.IsSubsequence(ForSelection(s, selectedChildId), s)
  {
    Seqs.FilterMembership(s, Scores.OfChild(Str(selectedChildId)), r);
    Seqs.FilterIsSubsequence(s, Scores.OfChild(Str(selectedChildId)));
    Seqs.SubsequenceReflexive(s);
  }

  /** The week's count is of the child's assignments dated strictly after the cutoff. */
  lemma WeeklyCountsRecent(children: seq<Record>, assignments: seq<Record>, practice: seq<Record>,
                           selectedChildId: string, weekAgo: int)
    ensures var d := Filtered(children, assignments, practice, selectedChildId, weekAgo);
      d.stats.weeklyAssignments == |d.displayAssignments| <==>
        forall i :: 0 <= i < |d.displayAssignments| ==>
          Scores.DateOf(d.displayAssignments[i]).Some? && Scores.DateOf(d.displayAssignments[i]).value > weekAgo
  {
    var d := Filtered(children, assignments, practice, selectedChildId, weekAgo);
    Seqs.CountAllIff(d.displayAssignments, After(weekAgo));
  }

  /** An assignment dated exactly at the cutoff is not counted for the week. */
  lemma CutoffIsExclusive(a: Record, weekAgo: int)
    requires Get(a, "created_date") == Num(weekAgo)
    ensures Seqs.Count([a], After(weekAgo)) == 0
  {
    assert [a][1..] == [];
  }

  /** An earlier cutoff counts at least as many assignments. */
  lemma EarlierCutoffCountsMore(children: seq<Record>, assignments: seq<Record>, practice: seq<Record>,
                                selectedChildId: string, w1: int, w2: int)
    requires w1 <= w2
    ensures Filtered(children, assignments, practice, selectedChildId, w2).stats.weeklyAssignments
         <= Filtered(children, assignments, practice, selectedChildId, w1).stats.weeklyAssignments
  {
    var mine := ForSelection(assignments, selectedChildId);
    Seqs.FilterMonotone(mine, After(w2), After(w1));
    Seqs.SubsequenceLength(Seqs.Filter(mine, After(w2)), Seqs.Filter(mine, After(w1)));
  }

  /** The week's mean score is a percentage when the scores are. */
  lemma WeeklyAverageIsPercent(children: seq<Record>, assignments: seq<Record>, practice: seq<Record>,
                               selectedChildId: string, weekAgo: int)
    requires forall i :: 0 <= i < |assignments| ==> 0 <= Scores.ScoreOf(assignments[i]) <= 100
    ensures 0 <= Filtered(children, assignments, practice, selectedChildId, weekAgo).stats.averageScore <= 100
  {
    var mine := ForSelection(assignments, selectedChildId);
    var recent := Seqs.Filter(mine, After(weekAgo));
    SelectionMembers(assignments, selectedChildId, map[]);
    Seqs.FilterIsSubsequence(mine, After(weekAgo));
    Seqs.SubsequenceTransitive(recent, mine, assignments);
    Seqs.SubsequenceMembers(recent, assignments);
    forall i | 0 <= i < |recent|
      ensures 0 <= Scores.ScoreOf(recent[i]) <= 100
    {
      assert recent[i] in assignments;
      var j :| 0 <= j < |assignments| && assignments[j] == recent[i];
    }
    Scores.AverageIsPercent(recent);
  }

  /** The open-question count and the completed ones add up to the child's questions. */
  lemma PracticeCountIsOpenQuestions(children: seq<Record>, assignments: seq<Record>, practice: seq<Record>,
                                     selectedChildId: string, weekAgo: int)
    ensures var d := Filtered(children, assignments, practice, selectedChildId, weekAgo);
      d.stats.practiceQuestions + Seqs.Count(d.displayPracticeQuestions, Practice.Completed())
        == |d.displayPracticeQuestions|
  {
    var d := Filtered(children, assignments, practice, selectedChildId, weekAgo);
    Practice.IncompleteCompletedPartition(d.displayPracticeQuestions);
  }

  /** `Assignment.list('-created_date', 50)`: at most 50, newest first. */
  lemma LoadedAssignments(items: seq<Record>)
    ensures var loaded := Entities.Listed(items, "-created_date", AssignmentLimit);
      && |loaded| == (if |items| < 50 then |items| else 50)
      && Sorting.SortedBy(loaded, Entities.KeyOf("created_date"), Sorting.Descending)
      && multiset(loaded) <= multiset(items)
  {
    assert Entities.ParseSortBy("-created_date") == Entities.By("created_date", Sorting.Descending);
    Entities.ListedLimit(items, "-created_date", AssignmentLimit);
    Entities.ListedSorted(items, "-created_date", AssignmentLimit);
    Entities.ListedSubMultiset(items, "-created_date", AssignmentLimit);
  }

  /** `displayPracticeQuestions.slice(0, 3)`. */
  function Suggestions(d: FilteredData): (r: seq<Record>)
    ensures |r| <= SuggestionLimit && |r| <= |d.displayPracticeQuestions|
    ensures r == d.displayPracticeQuestions[..|r|]
    ensures |d.displayPracticeQuestions| >= SuggestionLimit ==> |r| == SuggestionLimit
  {
    Seqs.SliceTo(d.displayPracticeQuestions, SuggestionLimit)
  }
}
