/**
 * The per-child progress line on the dashboard: how many assignments the
 * child has and their rounded mean score.
 */
module ChildrenProgress {
  import opened Json
  import Seqs
  import Scores

  datatype ChildProgress = ChildProgress(averageScore: int, totalAssignments: nat)

  /** `getChildProgress(childId)`. */
  function GetChildProgress(assignments: seq<Record>, childId: Value): (p: ChildProgress)
    ensures p.totalAssignments == Seqs.Count(assignments, Scores.OfChild(childId))
    ensures p.totalAssignments <= |assignments|
    ensures p.totalAssignments == 0 ==> p == ChildProgress(0, 0)
  {
    var mine := Seqs.Filter(assignments, Scores.OfChild(childId));
    if |mine| == 0 then ChildProgress(0, 0)
    else ChildProgress(Scores.AverageScore(mine), |mine|)
  }

  /** The count is of exactly the child's assignments. */
  lemma CountsOnlyTheChild(assignments: seq<Record>, childId: Value)
    ensures GetChildProgress(assignments, childId).totalAssignments == |assignments| <==>
      forall i :: 0 <= i < |assignments| ==> StrictEq(Get(assignments[i], "child_id"), childId)
    ensures GetChildProgress(assignments, childId).totalAssignments == 0 <==>
      forall i :: 0 <= i < |assignments| ==> !StrictEq(Get(assignments[i], "child_id"), childId)
  {
    Seqs.CountAllIff(assignments, Scores.OfChild(childId));
    Seqs.CountNoneIff(assignments, Scores.OfChild(childId));
  }

  /** Another child's assignment changes nothing. */
  lemma OtherChildHasNoEffect(assignments: seq<Record>, childId: Value, a: Record)
    requires !StrictEq(Get(a, "child_id"), childId)
    ensures GetChildProgress(assignments + [a], childId) == GetChildProgress(assignments, childId)
    ensures GetChildProgress([a] + assignments, childId) == GetChildProgress(assignments, childId)
  {
    var p := Scores.OfChild(childId);
    assert Seqs.Filter([a], p) == [] by {
      assert [a][1..] == [];
    }
    Seqs.FilterAppend(assignments, [a], p);
    Seqs.FilterAppend([a], assignments, p);
    assert Seqs.Filter(assignments + [a], p) == Seqs.Filter(assignments, p);
    assert Seqs.Filter([a] + assignments, p) == Seqs.Filter(assignments, p);
  }

  /** Percentages give a percentage. */
  lemma AverageIsPercent(assignments: seq<Record>, childId: Value)
    requires forall i :: 0 <= i < |assignments| ==> 0 <= Scores.ScoreOf(assignments[i]) <= 100
    ensures 0 <= GetChildProgress(assignments, childId).averageScore <= 100
  {
    var mine := Seqs.Filter(assignments, Scores.OfChild(childId));
    forall i | 0 <= i < |mine|
      ensures 0 <= Scores.ScoreOf(mine[i]) <= 100
    {
      Seqs.FilterMembership(assignments, Scores.OfChild(childId), mine[i]);
    }
    Scores.AverageIsPercent(mine);
  }
}
