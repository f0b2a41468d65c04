/**
 * The progress page: the selected child's assignments inside a time window,
 * their mean score, the strengths and weaknesses they list, and which child
 * is selected once the data is loaded.
 */
module Progress {
  import opened Wrappers
  import opened Json
  import Seqs
  import Entities
  import Scores

  /**
   * The cutoff timestamps of the windows: seven days, one month and three
   * months before `now`.
   */
  datatype Cutoffs = Cutoffs(now: int, week: int, month: int, quarter: int)

  /** The calendar gives a longer window an earlier cutoff. */
  predicate Nested(c: Cutoffs)
  {
    c.quarter <= c.month <= c.week <= c.now
  }

  /** The cutoff of a window; `None` for "all". An unknown window cuts off at now. */
  function CutoffFor(window: string, c: Cutoffs): (r: Option<int>)
    ensures r.None? <==> window == "all"
  {
    if window == "all" then None
    else if window == "week" then Some(c.week)
    else if window == "month" then Some(c.month)
    else if window == "quarter" then Some(c.quarter)
    else Some(c.now)
  }

  /** `a => new Date(a.created_date) >= cutoffDate`. */
  function NotBefore(cutoff: int): Record -> bool
  {
    a => Scores.DateOf(a).Some? && Scores.DateOf(a).value >= cutoff
  }

  /** `getFilteredAssignments()`. */
  function FilteredAssignments(assignments: seq<Record>, selectedChildId: Value, window: string, c: Cutoffs)
    : (r: seq<Record>)
    ensures |r| <= |assignments|
  {
    var mine := Seqs.Filter(assignments, Scores.OfChild(selectedChildId));
    match CutoffFor(window, c)
    case None => mine
    case Some(cutoff) => Seqs.Filter(mine, NotBefore(cutoff))
  }

  /**
   * An assignment is shown exactly when it is the selected child's and, for
   * a window other than "all", dated no earlier than the cutoff.
   */
  lemma FilteredMembers(assignments: seq<Record>, selectedChildId: Value, window: string, c: Cutoffs, a: Record)
    ensures a in FilteredAssignments(assignments, selectedChildId, window, c) <==>
      && a in assignments
      && StrictEq(Get(a, "child_id"), selectedChildId)
      && (window != "all" ==> Scores.DateOf(a).Some? && Scores.DateOf(a).value >= CutoffFor(window, c).value)
  {
    var mine := Seqs.Filter(assignments, Scores.OfChild(selectedChildId));
    Seqs.FilterMembership(assignments, Scores.OfChild(selectedChildId), a);
    if window != "all" {
      Seqs.FilterMembership(mine, NotBefore(CutoffFor(window, c).value), a);
    }
  }

  /** The window "all" applies no date filter. */
  lemma AllWindowIsChildOnly(assignments: seq<Record>, selectedChildId: Value, c: Cutoffs)
    ensures FilteredAssignments(assignments, selectedChildId, "all", c)
         == Seqs.Filter(assignments, Scores.OfChild(selectedChildId))
  {
  }

  lemma LaterCutoffKeepsFewer(s: seq<Record>, early: int, late: int)
    requires early <= late
    ensures Seqs.IsSubsequence(Seqs.Filter(s, NotBefore(late)), Seqs.Filter(s, NotBefore(early)))
  {
    Seqs.FilterMonotone(s, NotBefore(late), NotBefore(early));
  }

  /**
   * A shorter window shows a subsequence of what a longer one shows, and
   * every window a subsequence of "all".
   */
  lemma WindowsNest(assignments: seq<Record>, selectedChildId: Value, c: Cutoffs)
    requires Nested(c)
    ensures Seqs.IsSubsequence(FilteredAssignments(assignments, selectedChildId, "week", c),
                               FilteredAssignments(assignments, selectedChildId, "month", c))
    ensures Seqs.IsSubsequence(FilteredAssignments(assignments, selectedChildId, "month", c),
                               FilteredAssignments(assignments, selectedChildId, "quarter", c))
    ensures Seqs.IsSubsequence(FilteredAssignments(assignments, selectedChildId, "quarter", c),
                               FilteredAssignments(assignments, selectedChildId, "all", c))
  {
    var mine := Seqs.Filter(assignments, Scores.OfChild(selectedChildId));
    LaterCutoffKeepsFewer(mine, c.month, c.week);
    LaterCutoffKeepsFewer(mine, c.quarter, c.month);
    Seqs.FilterIsSubsequence(mine, NotBefore(c.quarter));
  }

  /** `overallAverage`: the rounded mean score, 0 without assignments. */
  function OverallAverage(filtered: seq<Record>): (r: int)
    ensures filtered == [] ==> r == 0
    ensures (forall i :: 0 <= i < |filtered| ==> 0 <= Scores.ScoreOf(filtered[i]) <= 100) ==> 0 <= r <= 100
  {
    Scores.AverageIsPercent(filtered);
    Scores.AverageScore(filtered)
  }

  /**
   * What `flatMap(a => v || [])` contributes for one value: an array's
   * elements, nothing for a falsy value, and any other value as itself.
   */
  function Flattened(v: Value): seq<Value>
  {
    if v.Arr? then v.items else if !Truthy(v) then [] else [v]
  }

  function ListField(field: string): Record -> seq<Value>
  {
    a => Flattened(Get(a, field))
  }

  /** `filtered.flatMap(a => a[field] || [])`: `allStrengths` and `allWeaknesses`. */
  function AllOf(filtered: seq<Record>, field: string): (r: seq<Value>)
    ensures (forall i :: 0 <= i < |filtered| ==> !Truthy(Get(filtered[i], field))) ==> r == []
  {
    Seqs.FlatMapOfEmpties(filtered, ListField(field));
    Seqs.FlatMap(filtered, ListField(field))
  }

  /** The lists are concatenated in assignment order. */
  lemma AllOfAppend(a: seq<Record>, b: seq<Record>, field: string)
    ensures AllOf(a + b, field) == AllOf(a, field) + AllOf(b, field)
  {
    Seqs.FlatMapAppend(a, b, ListField(field));
  }

  /** An assignment without the list contributes nothing. */
  lemma MissingListIsEmpty(a: Record, rest: seq<Record>, field: string)
    requires field !in a || IsNullish(a[field])
    ensures AllOf([a] + rest, field) == AllOf(rest, field)
  {
    assert ([a] + rest)[1..] == rest;
  }

  /** A value is listed exactly when one of the assignments' lists holds it. */
  lemma AllOfMembers(filtered: seq<Record>, field: string, x: Value)
    ensures x in AllOf(filtered, field) <==>
      exists i :: 0 <= i < |filtered| && x in Flattened(Get(filtered[i], field))
  {
    Seqs.FlatMapMembers(filtered, ListField(field), x);
  }

  /** After `loadData`: the first child when none is selected. */
  function DefaultChild(children: seq<Record>, selected: Value): (r: Value)
    ensures selected != Null || children == [] ==> r == selected
  {
    if |children| > 0 && selected == Null then Get(children[0], "id") else selected
  }

  /** The effect on `children`: a `child` URL parameter naming a loaded child selects it. */
  function UrlChild(children: seq<Record>, childParam: Option<string>, selected: Value): (r: Value)
    ensures r != selected ==> childParam.Some? && r == Str(childParam.value)
  {
    if childParam.Some? && childParam.value != "" && |children| > 0
       && Entities.FindIndex(children, Str(childParam.value)) >= 0
    then Str(childParam.value)
    else selected
  }

  /** The selection once the load and the effect have run. */
  function SelectionAfterLoad(children: seq<Record>, childParam: Option<string>, selected: Value): Value
  {
    UrlChild(children, childParam, DefaultChild(children, selected))
  }

  /**
   * A URL parameter naming a loaded child wins; otherwise the first child is
   * chosen when nothing was selected, and an existing selection stays.
   */
  lemma SelectionRules(children: seq<Record>, childParam: Option<string>, selected: Value)
    ensures (childParam.Some? && childParam.value != ""
             && exists i :: 0 <= i < |children| && Entities.HasId(children[i], Str(childParam.value)))
      ==> SelectionAfterLoad(children, childParam, selected) == Str(childParam.value)
    ensures (childParam.None? || forall i :: 0 <= i < |children| ==> !Entities.HasId(children[i], Str(childParam.value)))
      ==> SelectionAfterLoad(children, childParam, selected) ==
            (if children != [] && selected == Null then Get(children[0], "id") else selected)
  {
  }
}
