/**
 * The achievements of the progress page: badges for a perfect score, a run
 * of improving scores, subject mastery, a quick improvement, consistent
 * scores and many assignments, of which the four newest are shown.
 */
module Achievements {
  import opened Wrappers
  import opened Json
  import Seqs
  import Text
  import Sorting
  import Rounding
  import Entities
  import Grouping
  import Scores
  import SubjectChart

  /** One badge. Its icon and colours are fixed per kind and are not modelled. */
  datatype Achievement = Achievement(id: string, title: string, description: string, date: Value)

  function ScoreOf(a: Record): Value
  {
    Get(a, "score_percentage")
  }

  // ---------------------------------------------------------------- perfect score

  /** `a => a.score_percentage === 100`. */
  function IsPerfect(): Record -> bool
  {
    a => StrictEq(ScoreOf(a), Num(100))
  }

  function PerfectBadge(latest: Record): Achievement
  {
    Achievement("perfect-score", "Perfect Score! 🎯",
                "Scored 100% on " + JsString(Get(latest, "title")), Get(latest, "created_date"))
  }

  /** The perfect-score badge, for the first assignment scored exactly 100. */
  function PerfectPart(s: seq<Record>): (r: seq<Achievement>)
    ensures |r| <= 1 && forall b :: b in r ==> b.id == "perfect-score"
  {
    var perfect := Seqs.Filter(s, IsPerfect());
    if |perfect| > 0 then [PerfectBadge(perfect[0])] else []
  }

  /** The badge is earned exactly when some score is exactly 100, and it names the first one. */
  lemma PerfectScoreRule(s: seq<Record>)
    ensures PerfectPart(s) != [] <==> exists i :: 0 <= i < |s| && ScoreOf(s[i]) == Num(100)
    ensures forall i :: 0 <= i < |s| && ScoreOf(s[i]) == Num(100)
                        && (forall j :: 0 <= j < i ==> ScoreOf(s[j]) != Num(100))
                        ==> PerfectPart(s) == [PerfectBadge(s[i])]
  {
    Seqs.CountNoneIff(s, IsPerfect());
    forall i | 0 <= i < |s| && ScoreOf(s[i]) == Num(100) && (forall j :: 0 <= j < i ==> ScoreOf(s[j]) != Num(100))
      ensures PerfectPart(s) == [PerfectBadge(s[i])]
    {
      Seqs.FilterFirst(s, IsPerfect(), i);
    }
  }

  // ---------------------------------------------------------------- improvement streak

  /** The streak counted from index `i` on: each step that does not lower the score. */
  function StreakFrom(vs: seq<Value>, i: nat): (n: nat)
    requires 1 <= i
    ensures n == 0 || i + n <= |vs|
    decreases |vs| - i
  {
    if i >= |vs| then 0
    else if GreaterOrEqual(vs[i], vs[i - 1]) then 1 + StreakFrom(vs, i + 1)
    else 0
  }

  /** What the `for` loop with `break` counts over the scores in date order. */
  function Streak(vs: seq<Value>): (n: nat)
    ensures n == 0 || n < |vs|
  {
    StreakFrom(vs, 1)
  }

  lemma {:induction false} StreakFromMeaning(vs: seq<Value>, i: nat)
    requires 1 <= i
    ensures forall k :: i <= k < i + StreakFrom(vs, i) ==> GreaterOrEqual(vs[k], vs[k - 1])
    ensures i + StreakFrom(vs, i) < |vs| ==> !GreaterOrEqual(vs[i + StreakFrom(vs, i)], vs[i + StreakFrom(vs, i) - 1])
    decreases |vs| - i
  {
    if i < |vs| && GreaterOrEqual(vs[i], vs[i - 1]) {
      StreakFromMeaning(vs, i + 1);
    }
  }

  /**
   * The streak is the number of leading steps that do not lower the score:
   * every one of them holds, and the next one, if there is one, fails.
   */
  lemma StreakMeaning(vs: seq<Value>)
    ensures forall k :: 1 <= k <= Streak(vs) ==> GreaterOrEqual(vs[k], vs[k - 1])
    ensures Streak(vs) + 1 < |vs| ==> !GreaterOrEqual(vs[Streak(vs) + 1], vs[Streak(vs)])
  {
    StreakFromMeaning(vs, 1);
  }

  /** Scores that never drop make a streak over the whole list. */
  lemma FullStreak(vs: seq<Value>)
    requires vs != []
    requires forall k :: 1 <= k < |vs| ==> GreaterOrEqual(vs[k], vs[k - 1])
    ensures Streak(vs) == |vs| - 1
  {
    StreakMeaning(vs);
  }

  /** `[...assignments].sort((a, b) => new Date(a.created_date) - new Date(b.created_date))`. */
  function ByDate(s: seq<Record>): seq<Record>
  {
    Sorting.SortBy(s, Entities.KeyOf("created_date"), Sorting.Ascending)
  }

  /** The streak reads the assignments oldest first, every one of them. */
  lemma ByDateOrders(s: seq<Record>)
    ensures multiset(ByDate(s)) == multiset(s)
    ensures Sorting.SortedBy(ByDate(s), Entities.KeyOf("created_date"), Sorting.Ascending)
  {
    Sorting.SortPermutes(s, Entities.KeyOf("created_date"), Sorting.Ascending);
    Sorting.SortSorted(s, Entities.KeyOf("created_date"), Sorting.Ascending);
  }

  function StreakBadge(n: nat, newest: Record): Achievement
  {
    Achievement("improvement-streak", Text.IntToString(n + 1) + "-Assignment Streak! 🔥",
                "Consistent improvement across assignments", Get(newest, "created_date"))
  }

  /** The streak badge, from a streak of at least two steps, dated by the newest assignment. */
  function StreakPart(s: seq<Record>): (r: seq<Achievement>)
    ensures |r| <= 1 && forall b :: b in r ==> b.id == "improvement-streak"
    ensures |s| < 3 ==> r == []
  {
    var sorted := ByDate(s);
    Sorting.SortPermutes(s, Entities.KeyOf("created_date"), Sorting.Ascending);
    var n := Streak(Seqs.Map(sorted, ScoreOf));
    if n >= 2 then [StreakBadge(n, sorted[|sorted| - 1])] else []
  }

  /** The badge is earned exactly when the three oldest assignments have scores that never drop. */
  lemma StreakRule(s: seq<Record>)
    ensures var vs := Seqs.Map(ByDate(s), ScoreOf);
      StreakPart(s) != [] <==> |vs| >= 3 && GreaterOrEqual(vs[1], vs[0]) && GreaterOrEqual(vs[2], vs[1])
  {
    var vs := Seqs.Map(ByDate(s), ScoreOf);
    StreakMeaning(vs);
    if |vs| >= 3 && GreaterOrEqual(vs[1], vs[0]) && GreaterOrEqual(vs[2], vs[1]) {
      assert StreakFrom(vs, 3) >= 0;
      assert StreakFrom(vs, 2) >= 1;
    }
  }

  // ---------------------------------------------------------------- subject mastery

  /** `avgScore >= 90 && scores.length >= 2`, where a NaN mean is not at least 90. */
  predicate Mastered(vs: seq<Value>)
  {
    |vs| >= 2 && SubjectChart.AllNumeric(vs)
    && Seqs.Sum(Seqs.Map(vs, SubjectChart.ValueOr0())) >= 90 * |vs|
  }

  /** `assignments.find(a => a.subject === subject)?.created_date`. */
  function SubjectDate(s: seq<Record>, k: string): (d: Value)
    ensures (forall i :: 0 <= i < |s| ==> Get(s[i], "subject") != Str(k)) ==> d == Undef
  {
    if s == [] then Undef
    else if StrictEq(Get(s[0], "subject"), Str(k)) then Get(s[0], "created_date")
    else SubjectDate(s[1..], k)
  }

  /** The date is that of the first assignment whose subject is that very string. */
  lemma {:induction false} SubjectDateIsFirst(s: seq<Record>, k: string, i: nat)
    requires i < |s| && Get(s[i], "subject") == Str(k)
    requires forall j :: 0 <= j < i ==> Get(s[j], "subject") != Str(k)
    ensures SubjectDate(s, k) == Get(s[i], "created_date")
  {
    if i > 0 {
      SubjectDateIsFirst(s[1..], k, i - 1);
    }
  }

  function MasteryBadge(s: seq<Record>, k: string): Achievement
    requires Mastered(SubjectChart.GroupScores(s, k))
  {
    var vs := SubjectChart.GroupScores(s, k);
    var mean := Rounding.RoundDiv(Seqs.Sum(Seqs.Map(vs, SubjectChart.ValueOr0())), |vs|);
    Achievement(k + "-mastery", Text.Capitalize(k) + " Master! 📚",
                "Maintaining " + Text.IntToString(mean) + "% average in " + k, SubjectDate(s, k))
  }

  function MasteryOf(s: seq<Record>, k: string): seq<Achievement>
  {
    if Mastered(SubjectChart.GroupScores(s, k)) then [MasteryBadge(s, k)] else []
  }

  function MasteryFor(s: seq<Record>): string -> seq<Achievement>
  {
    k => MasteryOf(s, k)
  }

  /** The mastery badges, one per mastered subject in order of first appearance. */
  function MasteryPart(s: seq<Record>): seq<Achievement>
  {
    Seqs.FlatMap(Grouping.Keys(s, SubjectChart.SubjectKey()), MasteryFor(s))
  }

  /** A mastery badge is listed exactly for each subject that is mastered. */
  lemma MasteryRule(s: seq<Record>, x: Achievement)
    ensures var keys := Grouping.Keys(s, SubjectChart.SubjectKey());
      x in MasteryPart(s) <==>
        exists i :: 0 <= i < |keys| && Mastered(SubjectChart.GroupScores(s, keys[i])) && x == MasteryBadge(s, keys[i])
  {
    Seqs.FlatMapMembers(Grouping.Keys(s, SubjectChart.SubjectKey()), MasteryFor(s), x);
  }

  /** A mastered subject's rounded mean is at least 90, so its bar in the chart is green. */
  lemma MasteredIsGreen(vs: seq<Value>)
    requires Mastered(vs)
    ensures SubjectChart.MeanOfValues(vs).Some? && SubjectChart.MeanOfValues(vs).value >= 90
    ensures SubjectChart.GetBarColor(SubjectChart.MeanOfValues(vs)) == SubjectChart.Green
  {
    Rounding.RoundDivExact(90, |vs|);
    Rounding.RoundDivMonotone(90 * |vs|, Seqs.Sum(Seqs.Map(vs, SubjectChart.ValueOr0())), |vs|);
  }

  /** The converse fails: a mean of 89.5 rounds to 90 but does not earn the badge. */
  lemma RoundedNinetyIsNotMastery()
    ensures SubjectChart.MeanOfValues([Num(90), Num(89)]) == Some(90)
    ensures !Mastered([Num(90), Num(89)])
  {
    var vs := [Num(90), Num(89)];
    var ns := Seqs.Map(vs, SubjectChart.ValueOr0());
    assert ns == [90, 89];
    assert ns[..1] == [90];
    assert ns[..1][..0] == [];
    assert Seqs.Sum(ns[..1]) == 90;
  }

  /** One score is not enough, however high. */
  lemma OneScoreIsNotMastery(v: Value)
    ensures !Mastered([v])
  {
  }

  // ---------------------------------------------------------------- quick learner

  /** `newest.score_percentage - oldest.score_percentage`: both sides read by `Number()`; `None` is NaN. */
  function Improvement(newest: Value, oldest: Value): (r: Option<int>)
    ensures r.Some? <==> ToNumber(newest).Some? && ToNumber(oldest).Some?
    ensures r.Some? ==> r.value + ToNumber(oldest).value == ToNumber(newest).value
  {
    if ToNumber(newest).Some? && ToNumber(oldest).Some?
    then Some(ToNumber(newest).value - ToNumber(oldest).value)
    else None
  }

  /** Numeric strings subtract as the numbers they spell. */
  lemma ImprovementOfNumerals()
    ensures Improvement(Str("95"), Str("80")) == Some(15)
    ensures Improvement(Str("95"), Undef) == None
  {
    TrimOfNumeral("95");
    TrimOfNumeral("80");
    assert Text.DigitsValue("95") == 95 by {
      assert "95"[..1] == "9";
    }
    assert Text.DigitsValue("80") == 80 by {
      assert "80"[..1] == "8";
    }
  }

  /** The quick-learner badge: the newest of the first three scores beats the oldest by 15 or more. */
  function QuickPart(s: seq<Record>): (r: seq<Achievement>)
    ensures |r| <= 1 && forall b :: b in r ==> b.id == "quick-learner"
    ensures |s| < 3 ==> r == []
  {
    if |s| >= 3 then
      var improvement := Improvement(ScoreOf(s[0]), ScoreOf(s[2]));
      if improvement.Some? && improvement.value >= 15 then
        [Achievement("quick-learner", "Quick Learner! ⚡",
                     "Improved score by " + Text.IntToString(improvement.value) + "% in recent assignments",
                     Get(s[0], "created_date"))]
      else []
    else []
  }

  /** Only the first three assignments matter; what follows them does not. */
  lemma QuickLooksAtThree(s: seq<Record>, rest: seq<Record>)
    requires |s| >= 3
    ensures QuickPart(s + rest) == QuickPart(s)
    ensures QuickPart(s) != [] <==> ToNumber(ScoreOf(s[0])).Some? && ToNumber(ScoreOf(s[2])).Some?
                                     && ToNumber(ScoreOf(s[0])).value >= ToNumber(ScoreOf(s[2])).value + 15
  {
    assert (s + rest)[0] == s[0] && (s + rest)[2] == s[2];
  }

  // ---------------------------------------------------------------- consistent performer

  /** The consistent-performer badge: at least three assignments, and each of the first five scores at least 80. */
  function ConsistentPart(s: seq<Record>): (r: seq<Achievement>)
    ensures |r| <= 1 && forall b :: b in r ==> b.id == "consistent-performer"
    ensures |s| < 3 ==> r == []
  {
    var recent := Seqs.Map(Seqs.SliceTo(s, 5), ScoreOf);
    if (forall i :: 0 <= i < |recent| ==> GreaterOrEqual(recent[i], Num(80))) && |recent| >= 3 then
      [Achievement("consistent-performer", "Consistent Star! ⭐", "Scoring 80%+ on all recent assignments",
                   Get(s[0], "created_date"))]
    else []
  }

  /** The badge looks at the five most recent assignments and no further. */
  lemma ConsistentLooksAtFive(s: seq<Record>, rest: seq<Record>)
    requires |s| >= 5
    ensures ConsistentPart(s + rest) == ConsistentPart(s)
  {
    assert Seqs.SliceTo(s + rest, 5) == Seqs.SliceTo(s, 5);
    assert (s + rest)[0] == s[0];
  }

  /** With three to five assignments, every score must read as a number of at least 80. */
  lemma ConsistentRule(s: seq<Record>)
    requires 3 <= |s| <= 5
    ensures ConsistentPart(s) != [] <==>
      forall i :: 0 <= i < |s| ==> ToNumber(ScoreOf(s[i])).Some? && ToNumber(ScoreOf(s[i])).value >= 80
  {
    assert Seqs.SliceTo(s, 5) == s;
    forall i | 0 <= i < |s|
      ensures GreaterOrEqual(ScoreOf(s[i]), Num(80)) <==> ToNumber(ScoreOf(s[i])).Some? && ToNumber(ScoreOf(s[i])).value >= 80
    {
      GreaterOrEqualNumber(ScoreOf(s[i]), 80);
    }
  }

  // ---------------------------------------------------------------- study champion

  /** The study-champion badge: ten or more assignments over all children. */
  function ChampionPart(s: seq<Record>, all: seq<Record>): (r: seq<Achievement>)
    ensures r != [] <==> |all| >= 10
  {
    if |all| >= 10 then
      [Achievement("study-champion", "Study Champion! 🏆",
                   "Completed " + Text.IntToString(|all|) + " assignments total",
                   if s != [] then Get(s[0], "created_date") else Undef)]
    else []
  }

  // ---------------------------------------------------------------- all of them

  /** Every badge earned, in the order they are pushed. */
  function Collected(s: seq<Record>, all: seq<Record>): seq<Achievement>
  {
    PerfectPart(s) + StreakPart(s) + MasteryPart(s) + QuickPart(s) + ConsistentPart(s) + ChampionPart(s, all)
  }

  /** `new Date(b.date) - new Date(a.date)`: newest first. */
  function DateKey(): Achievement -> Sorting.Key
  {
    (x: Achievement) => Entities.FieldKey(x.date)
  }

  /** What `generateAchievements()` returns. */
  function Shown(s: seq<Record>, all: seq<Record>): (r: seq<Achievement>)
    ensures |r| <= 4
    ensures s == [] && |all| < 10 ==> r == []
  {
    Seqs.SliceTo(Sorting.SortBy(Collected(s, all), DateKey(), Sorting.Descending), 4)
  }

  /** The `for` loop over the scores in date order, which stops at the first drop. */
  method CountStreak(sorted: seq<Record>) returns (streak: nat)
    ensures streak == Streak(Seqs.Map(sorted, ScoreOf))
  {
    ghost var vs := Seqs.Map(sorted, ScoreOf);
    streak := 0;
    var i := 1;
    while i < |sorted|
      invariant 1 <= i && streak == i - 1
      invariant i <= |sorted| || i == 1
      invariant Streak(vs) == streak + StreakFrom(vs, i)
      decreases |sorted| - i
    {
      if GreaterOrEqual(ScoreOf(sorted[i]), ScoreOf(sorted[i - 1])) {
        streak := streak + 1;
      } else {
        break;
      }
      i := i + 1;
    }
  }

  /** The `reduce` into `subjectScores`, then the `forEach` over its entries. */
  method CollectMastery(assignments: seq<Record>) returns (badges: seq<Achievement>)
    ensures badges == MasteryPart(assignments)
  {
    var order, subjectScores := SubjectChart.GroupBySubject(assignments);
    badges := [];
    for j := 0 to |order|
      invariant badges == Seqs.FlatMap(order[..j], MasteryFor(assignments))
    {
      var subject := order[j];
      var scores := subjectScores[subject].scores;
      assert scores == SubjectChart.GroupScores(assignments, subject);
      MasteryStep(assignments, order, j);
      if Mastered(scores) {
        badges := badges + [MasteryBadge(assignments, subject)];
      }
    }
    assert order[..|order|] == order;
  }

  /** One more subject adds its own mastery badge, if any. */
  lemma MasteryStep(s: seq<Record>, order: seq<string>, j: nat)
    requires j < |order|
    ensures Seqs.FlatMap(order[..j + 1], MasteryFor(s)) == Seqs.FlatMap(order[..j], MasteryFor(s)) + MasteryOf(s, order[j])
  {
    assert order[..j + 1] == order[..j] + [order[j]];
    Seqs.FlatMapSnoc(order[..j], order[j], MasteryFor(s));
  }

  /** `generateAchievements()`: the badges are pushed onto a list one by one. */
  method GenerateAchievements(assignments: seq<Record>, allAssignments: seq<Record>)
    returns (shown: seq<Achievement>)
    ensures shown == Shown(assignments, allAssignments)
  {
    var achievements: seq<Achievement> := [];

    var perfectScores := Seqs.Filter(assignments, IsPerfect());
    if |perfectScores| > 0 {
      achievements := achievements + [PerfectBadge(perfectScores[0])];
    }
    assert achievements == PerfectPart(assignments);

    var sorted := ByDate(assignments);
    var streak := CountStreak(sorted);
    if streak >= 2 {
      achievements := achievements + [StreakBadge(streak, sorted[|sorted| - 1])];
    }
    assert achievements == PerfectPart(assignments) + StreakPart(assignments);

    var mastery := CollectMastery(assignments);
    achievements := achievements + mastery;

    achievements := achievements + QuickPart(assignments) + ConsistentPart(assignments)
                    + ChampionPart(assignments, allAssignments);
    assert achievements == Collected(assignments, allAssignments);
    shown := Seqs.SliceTo(Sorting.SortBy(achievements, DateKey(), Sorting.Descending), 4);
  }

  /** The four newest of any list of badges. */
  lemma NewestFour(c: seq<Achievement>)
    ensures var r := Seqs.SliceTo(Sorting.SortBy(c, DateKey(), Sorting.Descending), 4);
      && |r| == (if |c| < 4 then |c| else 4)
      && Sorting.SortedBy(r, DateKey(), Sorting.Descending)
      && multiset(r) <= multiset(c)
      && (|c| <= 4 ==> multiset(r) == multiset(c))
  {
    var sorted := Sorting.SortBy(c, DateKey(), Sorting.Descending);
    Sorting.SortPermutes(c, DateKey(), Sorting.Descending);
    Sorting.SortSorted(c, DateKey(), Sorting.Descending);
    var r := Seqs.SliceTo(sorted, 4);
    Sorting.PrefixSorted(sorted, |r|, DateKey(), Sorting.Descending);
    assert sorted == r + sorted[|r|..];
    if |c| <= 4 {
      assert r == sorted;
    }
  }

  /**
   * At most four badges are shown, newest first, each one earned; when four
   * or fewer are earned, all of them are shown.
   */
  lemma ShownRule(s: seq<Record>, all: seq<Record>)
    ensures var c := Collected(s, all);
      && |Shown(s, all)| == (if |c| < 4 then |c| else 4)
      && Sorting.SortedBy(Shown(s, all), DateKey(), Sorting.Descending)
      && multiset(Shown(s, all)) <= multiset(c)
      && (|c| <= 4 ==> multiset(Shown(s, all)) == multiset(c))
  {
    NewestFour(Collected(s, all));
  }

  /** A child without assignments earns only the champion badge, and only when there are ten assignments. */
  lemma NoAssignments(all: seq<Record>)
    ensures Shown([], all) == ChampionPart([], all)
  {
    assert Grouping.Keys([], SubjectChart.SubjectKey()) == [];
    assert ByDate([]) == [];
    var none: seq<Record> := [];
    assert Seqs.SliceTo(none, 5) == [];
    assert Collected([], all) == ChampionPart([], all);
    var c := ChampionPart([], all);
    if c != [] {
      assert c[1..] == [];
      assert Sorting.SortBy(c, DateKey(), Sorting.Descending) == c;
    }
  }
}
