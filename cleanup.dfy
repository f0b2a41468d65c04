/**
 * `cleanupOldAssignments`: sorts the stored assignments newest first,
 * keeps the first ten, writes those back and reports how many were deleted
 * and how many remain.
 */
module Cleanup {
  import opened Json
  import Seqs
  import Sorting
  import Text
  import Entities

  const KeepCount: nat := 10

  /** Every assignment carries a timestamp the comparator can subtract. */
  predicate AllDated(s: seq<Record>)
  {
    forall i :: 0 <= i < |s| ==> Entities.NumericLike(Get(s[i], "created_date"))
  }

  /** The comparator `new Date(b.created_date) - new Date(a.created_date)`. */
  function DateKey(): Record -> Sorting.Key
  {
    Entities.KeyOf("created_date")
  }

  /** The timestamp the comparator reads from a dated record. */
  function Timestamp(r: Record): int
  {
    match Get(r, "created_date")
    case Bool(b) => if b then 1 else 0
    case Num(n) => n
    case _ => 0
  }

  /** The assignments newest first, ties in stored order. */
  function NewestFirst(s: seq<Record>): seq<Record>
  {
    Sorting.SortBy(s, DateKey(), Sorting.Descending)
  }

  /** What the cleanup keeps: `sorted.slice(0, 10)`. */
  function Kept(s: seq<Record>): seq<Record>
  {
    Seqs.SliceTo(NewestFirst(s), KeepCount)
  }

  /** What the cleanup drops. */
  function Dropped(s: seq<Record>): seq<Record>
  {
    NewestFirst(s)[|Kept(s)|..]
  }

  datatype Report = Report(success: bool, message: string, deletedCount: int, remainingCount: nat)

  function ReportFor(deleted: int, remaining: nat): Report
  {
    Report(true,
      "Successfully cleaned up " + Text.IntToString(deleted)
        + " old assignments. Kept the 10 most recent.",
      deleted, remaining)
  }

  /** After cleanup the store holds min(10, n) assignments. */
  lemma KeptSize(s: seq<Record>)
    ensures |Kept(s)| == if |s| < KeepCount then |s| else KeepCount
  {
    Sorting.SortPermutes(s, DateKey(), Sorting.Descending);
  }

  /** Kept and dropped assignments are together exactly the original ones. */
  lemma KeptAndDroppedPartition(s: seq<Record>)
    ensures multiset(Kept(s)) + multiset(Dropped(s)) == multiset(s)
    ensures |Kept(s)| + |Dropped(s)| == |s|
  {
    var sorted := NewestFirst(s);
    Sorting.SortPermutes(s, DateKey(), Sorting.Descending);
    assert sorted == Kept(s) + Dropped(s);
  }

  /** The count of deleted assignments is max(0, n - 10). */
  lemma DeletedCount(s: seq<Record>)
    ensures |s| - |Kept(s)| == if |s| > KeepCount then |s| - KeepCount else 0
  {
    KeptSize(s);
  }

  /** The kept assignments are stored newest first. */
  lemma KeptNewestFirst(s: seq<Record>)
    requires AllDated(s)
    ensures forall i, j :: 0 <= i < j < |Kept(s)| ==> Timestamp(Kept(s)[j]) <= Timestamp(Kept(s)[i])
  {
    var sorted := NewestFirst(s);
    Sorting.SortSorted(s, DateKey(), Sorting.Descending);
    Sorting.SortPermutes(s, DateKey(), Sorting.Descending);
    var k := Kept(s);
    forall i, j | 0 <= i < j < |k|
      ensures Timestamp(k[j]) <= Timestamp(k[i])
    {
      assert k[i] == sorted[i] && k[j] == sorted[j];
      DatedMember(s, sorted, i);
      DatedMember(s, sorted, j);
    }
  }

  /** Every record of a permutation of dated records is dated. */
  lemma DatedMember(s: seq<Record>, t: seq<Record>, i: nat)
    requires AllDated(s) && multiset(t) == multiset(s) && i < |t|
    ensures Entities.NumericLike(Get(t[i], "created_date"))
    ensures DateKey()(t[i]) == Sorting.KNum(Timestamp(t[i]))
  {
    assert t[i] in multiset(s);
    var k :| 0 <= k < |s| && s[k] == t[i];
  }

  /** No dropped assignment is newer than a kept one. */
  lemma KeptAreMostRecent(s: seq<Record>)
    requires AllDated(s)
    ensures forall x, y :: x in Kept(s) && y in Dropped(s) ==> Timestamp(y) <= Timestamp(x)
  {
    var sorted := NewestFirst(s);
    Sorting.SortSorted(s, DateKey(), Sorting.Descending);
    Sorting.SortPermutes(s, DateKey(), Sorting.Descending);
    var k, d := Kept(s), Dropped(s);
    assert sorted == k + d;
    forall x, y | x in k && y in d
      ensures Timestamp(y) <= Timestamp(x)
    {
      var i :| 0 <= i < |k| && k[i] == x;
      var j :| 0 <= j < |d| && d[j] == y;
      assert sorted[i] == x && sorted[|k| + j] == y;
      DatedMember(s, sorted, i);
      DatedMember(s, sorted, |k| + j);
    }
  }

  /** A second cleanup keeps everything the first one kept, in the same order. */
  lemma CleanupIdempotent(s: seq<Record>)
    ensures Kept(Kept(s)) == Kept(s)
  {
    var sorted := NewestFirst(s);
    Sorting.SortSorted(s, DateKey(), Sorting.Descending);
    KeptSize(s);
    Sorting.PrefixSorted(sorted, |Kept(s)|, DateKey(), Sorting.Descending);
    Sorting.SortOfSorted(Kept(s), DateKey(), Sorting.Descending);
  }

  /**
   * Cleans up the assignments store. The normal path always succeeds; the
   * failure path of the source comes only from the storage layer.
   */
  method CleanupOldAssignments(store: Entities.Store) returns (report: Report)
    requires AllDated(store.items)
    modifies store
    ensures store.items == Kept(old(store.items))
    ensures report == ReportFor(|old(store.items)| - |store.items|, |store.items|)
  {
    var assignments := store.items;
    var sorted := Sorting.SortBy(assignments, DateKey(), Sorting.Descending);
    var recent := Seqs.SliceTo(sorted, KeepCount);
    var deletedCount := |assignments| - |recent|;
    store.items := recent;
    report := ReportFor(deletedCount, |recent|);
  }
}
