/**
 * The assignments list page: the search and the child and subject filters,
 * the child's name on each row, and the score tiers. The subjects offered in
 * the filter are `Search.Subjects`.
 */
module AssignmentsList {
  import opened Wrappers
  import opened Json
  import Seqs
  import Entities
  import Scores
  import Text
  import Search

  /** `filterAssignments()`; `None`: the search throws on a title or subject that is not a string. */
  function FilterAssignments(assignments: seq<Record>, searchTerm: string,
                             selectedChild: string, selectedSubject: string): (r: Option<seq<Record>>)
    ensures searchTerm == "" ==> r.Some?
  {
    var searched :=
      if searchTerm != "" then Search.FilterOrThrow(assignments, Search.SearchIn("title", "subject", searchTerm))
      else Some(assignments);
    match searched
    case None => None
    case Some(found) =>
      Some(Search.Selected(Search.Selected(found, "child_id", selectedChild), "subject", selectedSubject))
  }

  /**
   * An assignment is listed exactly when the search (if any) hits its title
   * or subject, and it is the selected child's and of the selected subject
   * unless those are "all".
   */
  lemma FilterRule(assignments: seq<Record>, searchTerm: string, selectedChild: string,
                   selectedSubject: string, a: Record)
    ensures var r := FilterAssignments(assignments, searchTerm, selectedChild, selectedSubject);
      r.Some? ==>
        (a in r.value <==>
          && a in assignments
          && (searchTerm != "" ==> Search.Hits(a, "title", searchTerm)
                                   || (Get(a, "title").Str? && Search.Hits(a, "subject", searchTerm)))
          && (selectedChild != Search.All ==> Get(a, "child_id") == Str(selectedChild))
          && (selectedSubject != Search.All ==> Get(a, "subject") == Str(selectedSubject)))
  {
    if searchTerm != "" {
      Search.SearchRule(assignments, "title", "subject", searchTerm, a);
    }
    var r := FilterAssignments(assignments, searchTerm, selectedChild, selectedSubject);
    if r.Some? {
      var found := if searchTerm != "" then Search.FilterOrThrow(assignments, Search.SearchIn("title", "subject", searchTerm)).value
                   else assignments;
      Search.SelectedRule(found, "child_id", selectedChild, a);
      Search.SelectedRule(Search.Selected(found, "child_id", selectedChild), "subject", selectedSubject, a);
    }
  }

  /** The list keeps the loaded order, and the default filters show everything. */
  lemma FilterKeepsOrder(assignments: seq<Record>, searchTerm: string, selectedChild: string, selectedSubject: string)
    ensures var r := FilterAssignments(assignments, searchTerm, selectedChild, selectedSubject);
      r.Some? ==> Seqs.IsSubsequence(r.value, assignments)
    ensures FilterAssignments(assignments, "", Search.All, Search.All) == Some(assignments)
  {
    var r := FilterAssignments(assignments, searchTerm, selectedChild, selectedSubject);
    if r.Some? {
      var found := if searchTerm != "" then Search.FilterOrThrow(assignments, Search.SearchIn("title", "subject", searchTerm)).value
                   else assignments;
      if searchTerm != "" {
        Search.SearchRule(assignments, "title", "subject", searchTerm, map[]);
      } else {
        Seqs.SubsequenceReflexive(assignments);
      }
      var byChild := Search.Selected(found, "child_id", selectedChild);
      Search.SelectedRule(found, "child_id", selectedChild, map[]);
      Search.SelectedRule(byChild, "subject", selectedSubject, map[]);
      Seqs.SubsequenceTransitive(byChild, found, assignments);
      Seqs.SubsequenceTransitive(r.value, byChild, assignments);
    }
  }

  /** A search can only throw when some title or subject is not a string. */
  lemma SearchOfStrings(assignments: seq<Record>, searchTerm: string, selectedChild: string, selectedSubject: string)
    requires forall i :: 0 <= i < |assignments| ==> Get(assignments[i], "title").Str? && Get(assignments[i], "subject").Str?
    ensures FilterAssignments(assignments, searchTerm, selectedChild, selectedSubject).Some?
  {
    Search.SearchRule(assignments, "title", "subject", searchTerm, map[]);
  }

  /** A row whose title is missing makes any search throw. */
  lemma MissingTitleThrows(assignments: seq<Record>, searchTerm: string, selectedChild: string,
                           selectedSubject: string, i: nat)
    requires i < |assignments| && Get(assignments[i], "title") == Undef && searchTerm != ""
    ensures FilterAssignments(assignments, searchTerm, selectedChild, selectedSubject).None?
  {
  }

  /** `getChildName(childId)`: the first child with that id gives its name, no child gives "Unknown". */
  function GetChildName(children: seq<Record>, childId: Value): (name: Value)
    ensures (forall j :: 0 <= j < |children| ==> !Entities.HasId(children[j], childId)) ==> name == Str("Unknown")
    ensures forall i :: 0 <= i < |children| && Entities.HasId(children[i], childId)
                        && (forall j :: 0 <= j < i ==> !Entities.HasId(children[j], childId))
                        ==> name == Get(children[i], "name")
  {
    var i := Entities.FindIndex(children, childId);
    if i < 0 then Str("Unknown") else Get(children[i], "name")
  }

  /** The icon and colour tiers of a score. */
  datatype Tier = Star | Check | Alert

  /**
   * `getScoreIcon(score)` and `getScoreColor(score)`: `score >= 90`, then
   * `score >= 70`; a score that `Number()` reads as NaN is an alert.
   */
  function ScoreTier(score: Value): (t: Tier)
    ensures t == Star <==> ToNumber(score).Some? && ToNumber(score).value >= 90
    ensures t == Check <==> ToNumber(score).Some? && 70 <= ToNumber(score).value < 90
    ensures t == Alert <==> ToNumber(score).None? || ToNumber(score).value < 70
  {
    GreaterOrEqualNumber(score, 90);
    GreaterOrEqualNumber(score, 70);
    if GreaterOrEqual(score, Num(90)) then Star
    else if GreaterOrEqual(score, Num(70)) then Check
    else Alert
  }

  function TierRank(t: Tier): nat
  {
    match t
    case Alert => 0
    case Check => 1
    case Star => 2
  }

  /** A stored numeral gets the tier of the number it spells. */
  lemma NumeralScoreTier()
    ensures ScoreTier(Str("95")) == Star
    ensures ScoreTier(Str("")) == Alert
  {
    TrimOfNumeral("95");
    assert Text.DigitsValue("95") == 95 by {
      assert "95"[..1] == "9";
    }
  }

  /** A higher score never gets a lower tier. */
  lemma ScoreTierMonotone(a: int, b: int)
    requires a <= b
    ensures TierRank(ScoreTier(Num(a))) <= TierRank(ScoreTier(Num(b)))
  {
  }
}
