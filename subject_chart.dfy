/**
 * The subject performance chart: the assignments grouped by subject in order
 * of first appearance, each group's count and rounded mean score, and the
 * colour of its bar.
 */
module SubjectChart {
  import opened Wrappers
  import opened Json
  import Seqs
  import Text
  import Rounding
  import Grouping
  import Scores

  /** `acc[a.subject]`: the subject as an object key. */
  function SubjectKey(): Record -> string
  {
    a => JsString(Get(a, "subject"))
  }

  function ScoreValue(): Record -> Value
  {
    a => Get(a, "score_percentage")
  }

  function ValueOr0(): Value -> int
  {
    v => match Scores.Addend(v) case Some(n) => n case None => 0
  }

  /** Every value is added as a number by JavaScript's `+`. */
  predicate AllNumeric(vs: seq<Value>)
  {
    forall i :: 0 <= i < |vs| ==> Scores.Addend(vs[i]).Some?
  }

  /** `Math.round(scores.reduce((sum, s) => sum + s, 0) / count)`; `None` is NaN. */
  function MeanOfValues(vs: seq<Value>): (r: Option<int>)
    ensures r.Some? <==> vs != [] && AllNumeric(vs)
  {
    if vs != [] && AllNumeric(vs) then Some(Rounding.RoundDiv(Seqs.Sum(Seqs.Map(vs, ValueOr0())), |vs|))
    else None
  }

  /** One bar: the label, the mean score and the number of assignments. */
  datatype Entry = Entry(subject: string, averageScore: Option<int>, count: nat)

  /** What `reduce` accumulates for one subject. */
  datatype Group = Group(scores: seq<Value>, count: nat)

  /** The scores of group `k`, in input order. */
  function GroupScores(s: seq<Record>, k: string): seq<Value>
  {
    Seqs.Map(Grouping.Members(s, SubjectKey(), k), ScoreValue())
  }

  function EntryFor(s: seq<Record>, k: string): Entry
  {
    Entry(Text.Capitalize(k), MeanOfValues(GroupScores(s, k)), |Grouping.Members(s, SubjectKey(), k)|)
  }

  function EntryOf(s: seq<Record>): string -> Entry
  {
    k => EntryFor(s, k)
  }

  /** `data`: one entry per distinct subject, in order of first appearance. */
  function SubjectData(s: seq<Record>): seq<Entry>
  {
    Seqs.Map(Grouping.Keys(s, SubjectKey()), EntryOf(s))
  }

  function ToEntry(k: string, g: Group): Entry
  {
    Entry(Text.Capitalize(k), MeanOfValues(g.scores), g.count)
  }

  /**
   * `assignments.reduce(...)` into `subjectData`: the accumulator object is
   * updated in place, one assignment at a time; `order` is the order in
   * which its keys were first set.
   */
  method GroupBySubject(assignments: seq<Record>) returns (order: seq<string>, acc: map<string, Group>)
    ensures order == Grouping.Keys(assignments, SubjectKey())
    ensures forall k :: k in acc <==> k in order
    ensures forall k :: k in acc ==>
      acc[k] == Group(GroupScores(assignments, k), |Grouping.Members(assignments, SubjectKey(), k)|)
  {
    order := [];
    acc := map[];
    for i := 0 to |assignments|
      invariant order == Grouping.Keys(assignments[..i], SubjectKey())
      invariant forall k :: k in order ==> k in acc
      invariant forall k :: k in acc ==> k in order
      invariant forall k :: k in acc ==>
        acc[k] == Group(GroupScores(assignments[..i], k), |Grouping.Members(assignments[..i], SubjectKey(), k)|)
    {
      var a := assignments[i];
      var k := JsString(Get(a, "subject"));
      StepKeys(assignments, i);
      ghost var acc0 := acc;
      if k !in acc {
        acc := acc[k := Group([], 0)];
        order := order + [k];
      }
      acc := acc[k := Group(acc[k].scores + [Get(a, "score_percentage")], acc[k].count + 1)];
      forall j | j in acc
        ensures acc[j] == Group(GroupScores(assignments[..i + 1], j),
                                |Grouping.Members(assignments[..i + 1], SubjectKey(), j)|)
      {
        StepGroup(assignments, i, j);
        if j == k && k !in acc0 {
          Grouping.MembersOfKey(assignments[..i], SubjectKey(), k);
        } else if j != k {
          assert acc[j] == acc0[j];
        }
      }
    }
    assert assignments[..|assignments|] == assignments;
  }

  /** `data`: the grouped subjects mapped to their bars. */
  method BuildSubjectData(assignments: seq<Record>) returns (data: seq<Entry>)
    ensures data == SubjectData(assignments)
  {
    var order, acc := GroupBySubject(assignments);
    data := Seqs.Map(order, (k: string) => if k in acc then ToEntry(k, acc[k]) else Entry(k, None, 0));
  }

  /** The keys after one more assignment. */
  lemma StepKeys(s: seq<Record>, i: nat)
    requires i < |s|
    ensures var k := SubjectKey()(s[i]);
      var d := Grouping.Keys(s[..i], SubjectKey());
      Grouping.Keys(s[..i + 1], SubjectKey()) == if k in d then d else d + [k]
  {
    assert s[..i + 1] == s[..i] + [s[i]];
    Grouping.MapSnoc(s[..i], s[i], SubjectKey());
    var t := Seqs.Map(s[..i + 1], SubjectKey());
    assert t[..|t| - 1] == Seqs.Map(s[..i], SubjectKey());
  }

  /** The group of `j` after one more assignment. */
  lemma StepGroup(s: seq<Record>, i: nat, j: string)
    requires i < |s|
    ensures var x := s[i];
      && GroupScores(s[..i + 1], j) ==
           GroupScores(s[..i], j) + (if SubjectKey()(x) == j then [Get(x, "score_percentage")] else [])
      && |Grouping.Members(s[..i + 1], SubjectKey(), j)| ==
           |Grouping.Members(s[..i], SubjectKey(), j)| + (if SubjectKey()(x) == j then 1 else 0)
  {
    assert s[..i + 1] == s[..i] + [s[i]];
    Grouping.MembersSnoc(s[..i], s[i], SubjectKey(), j);
    var m := Grouping.Members(s[..i], SubjectKey(), j);
    if SubjectKey()(s[i]) == j {
      Grouping.MapSnoc(m, s[i], ScoreValue());
    }
  }

  /** `data.reduce((n, e) => n + e.count, 0)`. */
  function TotalCount(data: seq<Entry>): nat
  {
    if data == [] then 0 else TotalCount(data[..|data| - 1]) + data[|data| - 1].count
  }

  lemma {:induction false} TotalCountOfKeys(s: seq<Record>, keys: seq<string>)
    ensures TotalCount(Seqs.Map(keys, EntryOf(s))) == Grouping.TotalSize(keys, s, SubjectKey())
  {
    if keys != [] {
      var m := Seqs.Map(keys, EntryOf(s));
      assert m[..|m| - 1] == Seqs.Map(keys[..|keys| - 1], EntryOf(s));
      TotalCountOfKeys(s, keys[..|keys| - 1]);
    }
  }

  /** The bar counts add up to the number of assignments. */
  lemma CountsSumToTotal(s: seq<Record>)
    ensures TotalCount(SubjectData(s)) == |s|
  {
    TotalCountOfKeys(s, Grouping.Keys(s, SubjectKey()));
    Grouping.TotalSizeIsLength(s, SubjectKey());
  }

  /**
   * One bar per distinct subject, in order of first appearance, each
   * counting that subject's assignments, at least one.
   */
  lemma OneEntryPerSubject(s: seq<Record>)
    ensures var keys := Grouping.Keys(s, SubjectKey());
      && |SubjectData(s)| == |keys|
      && Seqs.NoDuplicates(keys)
      && (forall k :: k in keys <==> exists i :: 0 <= i < |s| && JsString(Get(s[i], "subject")) == k)
      && (forall i :: 0 <= i < |keys| ==>
            SubjectData(s)[i].subject == Text.Capitalize(keys[i])
            && SubjectData(s)[i].count == Seqs.Count(s, Grouping.KeyIs(SubjectKey(), keys[i]))
            && SubjectData(s)[i].count > 0)
  {
    var keys := Grouping.Keys(s, SubjectKey());
    Grouping.KeysOrdered(s, SubjectKey());
    forall k
      ensures k in keys <==> exists i :: 0 <= i < |s| && JsString(Get(s[i], "subject")) == k
    {
      Grouping.KeysMembers(s, SubjectKey(), k);
    }
    forall i | 0 <= i < |keys|
      ensures SubjectData(s)[i].count > 0
    {
      Grouping.MembersOfKey(s, SubjectKey(), keys[i]);
    }
  }

  /** A subject whose scores are all percentages has a percentage mean. */
  lemma MeanIsPercent(vs: seq<Value>)
    requires vs != []
    requires forall i :: 0 <= i < |vs| ==> vs[i].Num? && 0 <= vs[i].n <= 100
    ensures MeanOfValues(vs).Some? && 0 <= MeanOfValues(vs).value <= 100
  {
    var ns := Seqs.Map(vs, ValueOr0());
    Seqs.SumBounds(ns, 0, 100);
    Rounding.RoundDivBetween(Seqs.Sum(ns), |vs|, 0, 100);
  }

  /** One missing score makes the subject's mean NaN. */
  lemma MissingScoreIsNaN(vs: seq<Value>, i: nat)
    requires i < |vs| && vs[i] == Undef
    ensures MeanOfValues(vs).None?
  {
  }

  datatype BarColor = Green | Blue | Amber | Red

  /** `getBarColor(score)`; NaN fails every comparison and is red. */
  function GetBarColor(score: Option<int>): (c: BarColor)
    ensures c == Green <==> score.Some? && score.value >= 90
    ensures c == Blue <==> score.Some? && 80 <= score.value < 90
    ensures c == Amber <==> score.Some? && 70 <= score.value < 80
    ensures c == Red <==> score.None? || score.value < 70
  {
    if score.Some? && score.value >= 90 then Green
    else if score.Some? && score.value >= 80 then Blue
    else if score.Some? && score.value >= 70 then Amber
    else Red
  }

  function Rank(c: BarColor): nat
  {
    match c
    case Red => 0
    case Amber => 1
    case Blue => 2
    case Green => 3
  }

  /** A higher score never gets a lower colour. */
  lemma BarColorMonotone(a: int, b: int)
    requires a <= b
    ensures Rank(GetBarColor(Some(a))) <= Rank(GetBarColor(Some(b)))
  {
  }
}
