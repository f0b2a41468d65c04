/**
 * The generic entity store: one collection of records per entity type, with
 * `list` (sort and limit), `filter` (exact match), `create`, `update`
 * (shallow merge by id) and `delete`, and the singleton user record.
 *
 * Persistence is the `items` field: each operation reads the collection,
 * changes it and writes it back. A fresh id and the current time are
 * parameters of `Create`; timestamps are stored as `Num` values.
 */
module Entities {
  import opened Wrappers
  import opened Json
  import Seqs
  import Sorting
  import Text

  /** How `list` orders: not at all, or by one field in one direction. */
  datatype Order = Unsorted | By(field: string, dir: Sorting.Direction)

  /** The `sortBy` that `list` uses when none is given: newest first. */
  const DefaultSortBy: string := "-created_date"

  /**
   * `sortBy`: an empty (or null) name means no sorting; a leading `-` means
   * descending on the rest of the name. A call without the argument passes
   * `DefaultSortBy`.
   */
  function ParseSortBy(sortBy: string): (o: Order)
    ensures o.Unsorted? <==> sortBy == ""
    ensures o.By? ==> (o.dir == Sorting.Descending <==> sortBy[0] == '-')
    ensures o.By? && o.dir == Sorting.Descending ==> sortBy == "-" + o.field
    ensures o.By? && o.dir == Sorting.Ascending ==> sortBy == o.field
  {
    if sortBy == "" then Unsorted
    else if sortBy[0] == '-' then By(sortBy[1..], Sorting.Descending)
    else By(sortBy, Sorting.Ascending)
  }

  /** Without an argument, `list` sorts newest first by creation date. */
  lemma DefaultIsNewestFirst()
    ensures ParseSortBy(DefaultSortBy) == By("created_date", Sorting.Descending)
  {
    assert DefaultSortBy[1..] == "created_date";
  }

  /** Fields whose name contains "date" are compared as timestamps. */
  predicate IsDateField(field: string)
  {
    Text.Contains(field, "date")
  }

  /** A value that `<` compares as a number: a number, a timestamp or a boolean. */
  predicate NumericLike(v: Value)
  {
    v.Num? || v.Bool?
  }

  /** The key JavaScript's `<` sees for a comparable field value. */
  function FieldKey(v: Value): Sorting.Key
  {
    match v
    case Num(n) => Sorting.KNum(n)
    case Bool(b) => Sorting.KNum(if b then 1 else 0)
    case Str(s) => Sorting.KStr(s)
    case _ => Sorting.KNum(0)
  }

  function KeyOf(field: string): Record -> Sorting.Key
  {
    r => FieldKey(Get(r, field))
  }

  /**
   * Every record holds a value of the sort field that compares consistently
   * with every other: all numeric, or all strings when the field is not a
   * date.
   */
  predicate Comparable(items: seq<Record>, field: string)
  {
    (forall i :: 0 <= i < |items| ==> NumericLike(Get(items[i], field)))
    || (!IsDateField(field) && forall i :: 0 <= i < |items| ==> Get(items[i], field).Str?)
  }

  /** The ordering `list` applies before the limit. */
  function SortedItems(items: seq<Record>, o: Order): seq<Record>
  {
    match o
    case Unsorted => items
    case By(f, d) => Sorting.SortBy(items, KeyOf(f), d)
  }

  /** What `list(sortBy, limit)` returns; a `limit` of 0 stands for null and 0. */
  function Listed(items: seq<Record>, sortBy: string, limit: int): seq<Record>
  {
    var sorted := SortedItems(items, ParseSortBy(sortBy));
    if limit == 0 then sorted else Seqs.SliceTo(sorted, limit)
  }

  /** The sorted collection is a permutation of the stored one. */
  lemma SortedItemsPermutes(items: seq<Record>, o: Order)
    ensures multiset(SortedItems(items, o)) == multiset(items)
    ensures |SortedItems(items, o)| == |items|
  {
    if o.By? {
      Sorting.SortPermutes(items, KeyOf(o.field), o.dir);
    }
  }

  /** Without a limit, `list` returns every stored record, each as often as stored. */
  lemma ListedPermutes(items: seq<Record>, sortBy: string)
    ensures multiset(Listed(items, sortBy, 0)) == multiset(items)
  {
    SortedItemsPermutes(items, ParseSortBy(sortBy));
  }

  /** A positive limit keeps the first min(limit, n) records of the sorted collection. */
  lemma ListedLimit(items: seq<Record>, sortBy: string, limit: int)
    requires limit > 0
    ensures var sorted := SortedItems(items, ParseSortBy(sortBy));
      Listed(items, sortBy, limit) == sorted[..if limit < |sorted| then limit else |sorted|]
    ensures |SortedItems(items, ParseSortBy(sortBy))| == |items|
  {
    SortedItemsPermutes(items, ParseSortBy(sortBy));
  }

  /** With a limit, the result is drawn from the stored records. */
  lemma ListedSubMultiset(items: seq<Record>, sortBy: string, limit: int)
    ensures multiset(Listed(items, sortBy, limit)) <= multiset(items)
  {
    var sorted := SortedItems(items, ParseSortBy(sortBy));
    SortedItemsPermutes(items, ParseSortBy(sortBy));
    var r := Listed(items, sortBy, limit);
    assert sorted == r + sorted[|r|..];
    assert multiset(sorted) == multiset(r) + multiset(sorted[|r|..]);
  }

  /** `list("f")` is non-decreasing in `f` and `list("-f")` non-increasing, limit or not. */
  lemma ListedSorted(items: seq<Record>, sortBy: string, limit: int)
    requires ParseSortBy(sortBy).By?
    ensures var o := ParseSortBy(sortBy);
      Sorting.SortedBy(Listed(items, sortBy, limit), KeyOf(o.field), o.dir)
  {
    var o := ParseSortBy(sortBy);
    Sorting.SortSorted(items, KeyOf(o.field), o.dir);
    var sorted := SortedItems(items, o);
    var r := Listed(items, sortBy, limit);
    Sorting.PrefixSorted(sorted, |r|, KeyOf(o.field), o.dir);
    assert r == sorted[..|r|];
  }

  /** Records with equal keys keep their stored order. */
  lemma ListedStable(items: seq<Record>, sortBy: string, k: Sorting.Key)
    requires ParseSortBy(sortBy).By?
    ensures var o := ParseSortBy(sortBy);
      Seqs.Filter(Listed(items, sortBy, 0), Sorting.HasKey(KeyOf(o.field), k))
        == Seqs.Filter(items, Sorting.HasKey(KeyOf(o.field), k))
  {
    var o := ParseSortBy(sortBy);
    Sorting.SortStable(items, KeyOf(o.field), o.dir, k);
  }

  /**
   * One criterion: a null or undefined value imposes nothing, any other one
   * must be strictly equal to the record's field.
   */
  predicate Meets(r: Record, key: string, want: Value)
  {
    IsNullish(want) || StrictEq(Get(r, key), want)
  }

  /** A record meets every criterion. */
  predicate Matches(r: Record, criteria: map<string, Value>)
  {
    forall k :: k in criteria ==> Meets(r, k, criteria[k])
  }

  function Matching(criteria: map<string, Value>): Record -> bool
  {
    r => Matches(r, criteria)
  }

  /** Null and undefined criteria can be dropped without changing the match. */
  lemma NullCriteriaIgnored(r: Record, criteria: map<string, Value>, key: string, v: Value)
    requires IsNullish(v)
    ensures Matches(r, criteria[key := v]) <==> Matches(r, criteria - {key})
  {
    var c1, c2 := criteria[key := v], criteria - {key};
    if Matches(r, c2) {
      forall k | k in c1
        ensures Meets(r, k, c1[k])
      {
        if k != key {
          assert k in c2 && c2[k] == c1[k];
        }
      }
    }
    if Matches(r, c1) {
      forall k | k in c2
        ensures Meets(r, k, c2[k])
      {
        assert k in c1 && c2[k] == c1[k];
      }
    }
  }

  /** Empty criteria return everything. */
  lemma FilterNoCriteria(items: seq<Record>)
    ensures Seqs.Filter(items, Matching(map[])) == items
  {
    Seqs.FilterAll(items, Matching(map[]));
  }

  /** The fields `create` sets, overriding any the caller supplied. */
  function Stamp(id: string, now: nat): Record
  {
    map["id" := Str(id), "created_date" := Num(now)]
  }

  /** The record `create(data)` stores and returns. */
  function NewItem(data: Record, id: string, now: nat): (r: Record)
    ensures r.Keys == data.Keys + {"id", "created_date"}
    ensures r["id"] == Str(id) && r["created_date"] == Num(now)
    ensures forall k :: k in data && k != "id" && k != "created_date" ==> r[k] == data[k]
  {
    Merge(data, Stamp(id, now))
  }

  /** The record's id is strictly equal to `id`. */
  predicate HasId(r: Record, id: Value)
  {
    StrictEq(Get(r, "id"), id)
  }

  function IdIsNot(id: Value): Record -> bool
  {
    r => !HasId(r, id)
  }

  /** `items.findIndex(item => item.id === id)`. */
  function FindIndex(items: seq<Record>, id: Value): (i: int)
    ensures -1 <= i < |items|
    ensures i == -1 <==> forall j :: 0 <= j < |items| ==> !HasId(items[j], id)
    ensures i >= 0 ==> HasId(items[i], id) && forall j :: 0 <= j < i ==> !HasId(items[j], id)
  {
    if items == [] then -1
    else if HasId(items[0], id) then 0
    else
      var k := FindIndex(items[1..], id);
      if k == -1 then -1 else k + 1
  }

  /** Ids are unique across the collection. */
  ghost predicate UniqueIds(items: seq<Record>)
  {
    forall i, j :: 0 <= i < j < |items| && "id" in items[i] && "id" in items[j]
      ==> items[i]["id"] != items[j]["id"]
  }

  /**
   * A freshly created record is found by its id, after every earlier record,
   * when the id was not yet in use.
   */
  lemma CreatedIsFound(items: seq<Record>, data: Record, id: string, now: nat)
    requires forall j :: 0 <= j < |items| ==> !HasId(items[j], Str(id))
    ensures FindIndex(items + [NewItem(data, id, now)], Str(id)) == |items|
  {
    var rec := NewItem(data, id, now);
    assert Get(rec, "id") == Str(id);
    FoundAfter(items, rec, Str(id));
  }

  lemma {:induction false} FoundAfter(items: seq<Record>, rec: Record, id: Value)
    requires forall j :: 0 <= j < |items| ==> !HasId(items[j], id)
    requires HasId(rec, id)
    ensures FindIndex(items + [rec], id) == |items|
  {
    if items != [] {
      assert (items + [rec])[1..] == items[1..] + [rec];
      FoundAfter(items[1..], rec, id);
    }
  }

  /** Creating with a fresh id keeps ids unique. */
  lemma CreateKeepsUnique(items: seq<Record>, data: Record, id: string, now: nat)
    requires UniqueIds(items)
    requires forall j :: 0 <= j < |items| ==> Get(items[j], "id") != Str(id)
    ensures UniqueIds(items + [NewItem(data, id, now)])
  {
    var s := items + [NewItem(data, id, now)];
    forall i, j | 0 <= i < j < |s| && "id" in s[i] && "id" in s[j]
      ensures s[i]["id"] != s[j]["id"]
    {
      assert s[i] == items[i];
      if j == |items| {
        assert Get(items[i], "id") == items[i]["id"];
      } else {
        assert s[j] == items[j];
      }
    }
  }

  /** Deleting a freshly created record restores the collection. */
  lemma DeleteUndoesCreate(items: seq<Record>, data: Record, id: string, now: nat)
    requires forall j :: 0 <= j < |items| ==> !HasId(items[j], Str(id))
    ensures Seqs.Filter(items + [NewItem(data, id, now)], IdIsNot(Str(id))) == items
  {
    Seqs.FilterAppend(items, [NewItem(data, id, now)], IdIsNot(Str(id)));
    Seqs.FilterAll(items, IdIsNot(Str(id)));
    assert Seqs.Filter([NewItem(data, id, now)], IdIsNot(Str(id))) == [];
  }

  /** An update that does not change the id keeps ids unique. */
  lemma UpdateKeepsUnique(items: seq<Record>, i: nat, data: Record)
    requires UniqueIds(items) && i < |items|
    requires "id" !in data
    ensures UniqueIds(items[i := Merge(items[i], data)])
  {
    var s := items[i := Merge(items[i], data)];
    forall a, b | 0 <= a < b < |s| && "id" in s[a] && "id" in s[b]
      ensures s[a]["id"] != s[b]["id"]
    {
      assert "id" in items[a] && "id" in items[b];
      assert s[a]["id"] == items[a]["id"] && s[b]["id"] == items[b]["id"];
    }
  }

  /** With unique ids, deleting by an existing id removes exactly one record. */
  lemma DeleteOneOfUnique(items: seq<Record>, id: string)
    requires UniqueIds(items)
    requires exists j :: 0 <= j < |items| && HasId(items[j], Str(id))
    ensures |Seqs.Filter(items, IdIsNot(Str(id)))| == |items| - 1
  {
    var j :| 0 <= j < |items| && HasId(items[j], Str(id));
    assert items == items[..j] + [items[j]] + items[j + 1..];
    var p := IdIsNot(Str(id));
    forall k | 0 <= k < |items| && k != j
      ensures p(items[k])
    {
      if !p(items[k]) {
        assert false;
      }
    }
    var a, b := items[..j], items[j + 1..];
    assert forall k :: 0 <= k < |a| ==> p(a[k]) by {
      forall k | 0 <= k < |a| ensures p(a[k]) { assert a[k] == items[k]; }
    }
    assert forall k :: 0 <= k < |b| ==> p(b[k]) by {
      forall k | 0 <= k < |b| ensures p(b[k]) { assert b[k] == items[j + 1 + k]; }
    }
    Seqs.FilterAll(a, p);
    Seqs.FilterAll(b, p);
    Seqs.FilterAppend(a + [items[j]], b, p);
    Seqs.FilterAppend(a, [items[j]], p);
  }

  /** One collection of records, as `Entity` keeps it. */
  class Store {
    var items: seq<Record>

    constructor(initial: seq<Record>)
      ensures items == initial
    {
      items := initial;
    }

    /**
     * `list(sortBy, limit)`. It sorts a copy and writes nothing back. The
     * sort field must be comparable on every record.
     */
    method List(sortBy: string, limit: int) returns (r: seq<Record>)
      requires ParseSortBy(sortBy).By? ==> Comparable(items, ParseSortBy(sortBy).field)
      ensures r == Listed(items, sortBy, limit)
      ensures multiset(r) <= multiset(items)
      ensures limit == 0 ==> multiset(r) == multiset(items)
      ensures limit > 0 ==> |r| == if limit < |items| then limit else |items|
      ensures ParseSortBy(sortBy).By? ==>
        Sorting.SortedBy(r, KeyOf(ParseSortBy(sortBy).field), ParseSortBy(sortBy).dir)
    {
      var o := ParseSortBy(sortBy);
      var sorted := items;
      if o.By? {
        sorted := Sorting.SortBy(items, KeyOf(o.field), o.dir);
      }
      r := sorted;
      if limit != 0 {
        r := Seqs.SliceTo(sorted, limit);
      }
      SortedItemsPermutes(items, o);
      ListedSubMultiset(items, sortBy, limit);
      if o.By? {
        ListedSorted(items, sortBy, limit);
      }
    }

    /**
     * `filter(criteria)`: the records that meet every criterion, in stored
     * order.
     */
    method Filter(criteria: map<string, Value>) returns (r: seq<Record>)
      ensures forall x :: x in r <==> x in items && Matches(x, criteria)
      ensures Seqs.IsSubsequence(r, items)
      ensures forall x :: Matches(x, criteria) ==> multiset(r)[x] == multiset(items)[x]
      ensures criteria == map[] ==> r == items
    {
      r := Seqs.Filter(items, Matching(criteria));
      forall x
        ensures x in r <==> x in items && Matches(x, criteria)
      {
        Seqs.FilterMembership(items, Matching(criteria), x);
      }
      forall x | Matches(x, criteria)
        ensures multiset(r)[x] == multiset(items)[x]
      {
        Seqs.FilterCount(items, Matching(criteria), x);
      }
      Seqs.FilterIsSubsequence(items, Matching(criteria));
      if criteria == map[] {
        FilterNoCriteria(items);
      }
    }

    /** `create(data)`: appends the caller's fields with a fresh id and timestamp. */
    method Create(data: Record, id: string, now: nat) returns (newItem: Record)
      modifies this
      ensures newItem == NewItem(data, id, now)
      ensures items == old(items) + [newItem]
    {
      newItem := Merge(data, Stamp(id, now));
      items := items + [newItem];
    }

    /**
     * `update(id, data)`: the first record with that id becomes the shallow
     * merge with `data`; an unknown id is an error and writes nothing.
     */
    method Update(id: Value, data: Record) returns (res: Result<Record, string>)
      modifies this
      ensures res.Err? <==> forall j :: 0 <= j < |old(items)| ==> !HasId(old(items)[j], id)
      ensures res.Err? ==> items == old(items)
      ensures res.Ok? ==>
        var i := FindIndex(old(items), id);
        && items == old(items)[i := Merge(old(items)[i], data)]
        && res.value == items[i]
      ensures |items| == |old(items)|
    {
      var index := FindIndex(items, id);
      if index == -1 {
        return Err("Item not found");
      }
      items := items[index := Merge(items[index], data)];
      res := Ok(items[index]);
    }

    /**
     * `delete(id)`: removes every record with that id; an unknown id is an
     * error and writes nothing.
     */
    method Delete(id: Value) returns (res: Result<bool, string>)
      modifies this
      ensures res.Err? <==> forall j :: 0 <= j < |old(items)| ==> !HasId(old(items)[j], id)
      ensures res.Err? ==> items == old(items)
      ensures res.Ok? ==> res.value && items == Seqs.Filter(old(items), IdIsNot(id))
      ensures forall x :: x in items <==> x in old(items) && (res.Ok? ==> !HasId(x, id))
    {
      var filtered := Seqs.Filter(items, IdIsNot(id));
      Seqs.CountAllIff(items, IdIsNot(id));
      forall x
        ensures x in filtered <==> x in items && !HasId(x, id)
      {
        Seqs.FilterMembership(items, IdIsNot(id), x);
      }
      if |filtered| == |items| {
        return Err("Item not found");
      }
      items := filtered;
      res := Ok(true);
    }
  }

  /** `{ ...user, ...data }`, where a missing (null) user spreads to nothing. */
  function MergedUser(user: Option<Record>, data: Record): (r: Record)
    ensures forall k :: k in data ==> k in r && r[k] == data[k]
    ensures user.None? ==> r == data
    ensures user.Some? ==> r.Keys == user.value.Keys + data.Keys
    ensures user.Some? ==> forall k :: k in user.value && k !in data ==> r[k] == user.value[k]
  {
    match user
    case None => Merge(map[], data)
    case Some(u) => Merge(u, data)
  }

  /** Merging twice with the same fields is merging once. */
  lemma MergedUserIdempotent(user: Option<Record>, data: Record)
    ensures MergedUser(Some(MergedUser(user, data)), data) == MergedUser(user, data)
  {
  }

  /** The stored current user. */
  class UserStore {
    var user: Option<Record>

    constructor(initial: Option<Record>)
      ensures user == initial
    {
      user := initial;
    }

    /** `updateMyUserData(data)`: stores and returns the merged user. */
    method UpdateMyUserData(data: Record) returns (updated: Record)
      modifies this
      ensures updated == MergedUser(old(user), data)
      ensures user == Some(updated)
    {
      updated := match user case None => Merge(map[], data) case Some(u) => Merge(u, data);
      user := Some(updated);
    }
  }
}
