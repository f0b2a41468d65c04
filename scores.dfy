/**
 * What the statistics views read from an assignment: its score (a missing
 * one counts as 0), its child, its date, and the rounded mean of a list of
 * scores.
 */
module Scores {
  import opened Wrappers
  import opened Json
  import Seqs
  import Rounding

  /** `a.score_percentage || 0`. */
  function ScoreOf(a: Record): int
  {
    match Get(a, "score_percentage")
    case Num(n) => n
    case _ => 0
  }

  function ScoreOfAll(s: seq<Record>): (r: seq<int>)
    ensures |r| == |s| && forall i :: 0 <= i < |s| ==> r[i] == ScoreOf(s[i])
  {
    Seqs.Map(s, ScoreOf)
  }

  /** `s.reduce((sum, a) => sum + (a.score_percentage || 0), 0)`. */
  function TotalScore(s: seq<Record>): int
  {
    Seqs.Sum(ScoreOfAll(s))
  }

  /** `s.length ? Math.round(total / s.length) : 0`. */
  function AverageScore(s: seq<Record>): (r: int)
    ensures s == [] ==> r == 0
  {
    Rounding.Mean(ScoreOfAll(s))
  }

  /** Scores that all lie in [lo, hi] average to a value in [lo, hi]. */
  lemma AverageBetween(s: seq<Record>, lo: int, hi: int)
    requires s != [] && lo <= hi
    requires forall i :: 0 <= i < |s| ==> lo <= ScoreOf(s[i]) <= hi
    ensures lo <= AverageScore(s) <= hi
  {
    Rounding.MeanBetween(ScoreOfAll(s), lo, hi);
  }

  /** Percentages average to a percentage. */
  lemma AverageIsPercent(s: seq<Record>)
    ensures (forall i :: 0 <= i < |s| ==> 0 <= ScoreOf(s[i]) <= 100) ==> 0 <= AverageScore(s) <= 100
  {
    if s != [] && forall i :: 0 <= i < |s| ==> 0 <= ScoreOf(s[i]) <= 100 {
      AverageBetween(s, 0, 100);
    }
  }

  lemma {:induction false} SumOfEqual(s: seq<int>, k: int)
    requires forall i :: 0 <= i < |s| ==> s[i] == k
    ensures Seqs.Sum(s) == k * |s|
  {
    if s != [] {
      SumOfEqual(s[..|s| - 1], k);
    }
  }

  /** Equal scores average to that score. */
  lemma AverageOfEqual(s: seq<Record>, k: int)
    requires s != []
    requires forall i :: 0 <= i < |s| ==> ScoreOf(s[i]) == k
    ensures AverageScore(s) == k
  {
    SumOfEqual(ScoreOfAll(s), k);
    Rounding.RoundDivExact(k, |s|);
  }

  /**
   * What `sum + v` adds to a number `sum`: a number, null as 0, a boolean as
   * 0 or 1; `None` is NaN for undefined, and stands for the concatenation a
   * string, array or object would cause.
   */
  function Addend(v: Value): (r: Option<int>)
    ensures v.Num? ==> r == Some(v.n)
    ensures v.Undef? || v.Str? || v.Arr? || v.Obj? ==> r.None?
    ensures r.Some? ==> r == ToNumber(v)
  {
    match v
    case Null => Some(0)
    case Bool(b) => Some(if b then 1 else 0)
    case Num(n) => Some(n)
    case _ => None
  }

  /** `a => a.child_id === id`. */
  function OfChild(id: Value): Record -> bool
  {
    a => StrictEq(Get(a, "child_id"), id)
  }

  /**
   * `new Date(a.created_date)` as a timestamp; `None` is an invalid date,
   * which compares false with every date.
   */
  function DateOf(a: Record): Option<int>
  {
    match Get(a, "created_date")
    case Num(n) => Some(n)
    case _ => None
  }
}
