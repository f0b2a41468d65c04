/**
 * Grouping a list by a key, as the `reduce` into an object and the `forEach`
 * into a `Map` do: the keys in order of first appearance, and each key's
 * members in input order.
 */
module Grouping {
  import Seqs

  /** The distinct keys, in order of first appearance. */
  function Keys<T, K(==)>(s: seq<T>, key: T -> K): seq<K>
  {
    Seqs.Distinct(Seqs.Map(s, key))
  }

  function KeyIs<T, K(==)>(key: T -> K, k: K): T -> bool
  {
    x => key(x) == k
  }

  /** The members of group `k`, in input order. */
  function Members<T, K(==)>(s: seq<T>, key: T -> K, k: K): seq<T>
  {
    Seqs.Filter(s, KeyIs(key, k))
  }

  /** The sizes of the groups `keys`, added up. */
  function TotalSize<T, K(==)>(keys: seq<K>, s: seq<T>, key: T -> K): nat
  {
    if keys == [] then 0
    else TotalSize(keys[..|keys| - 1], s, key) + |Members(s, key, keys[|keys| - 1])|
  }

  lemma {:induction false} MapSnoc<T, U>(s: seq<T>, x: T, f: T -> U)
    ensures Seqs.Map(s + [x], f) == Seqs.Map(s, f) + [f(x)]
  {
  }

  /** Appending an element adds it to its own group and to no other. */
  lemma MembersSnoc<T, K>(s: seq<T>, x: T, key: T -> K, k: K)
    ensures Members(s + [x], key, k) == Members(s, key, k) + (if key(x) == k then [x] else [])
  {
    Seqs.FilterAppend(s, [x], KeyIs(key, k));
    assert [x][1..] == [];
  }

  /** A key is listed exactly when some element has it. */
  lemma KeysMembers<T, K>(s: seq<T>, key: T -> K, k: K)
    ensures k in Keys(s, key) <==> exists i :: 0 <= i < |s| && key(s[i]) == k
  {
    Seqs.DistinctSpec(Seqs.Map(s, key));
    if k in Seqs.Map(s, key) {
      var i :| 0 <= i < |s| && Seqs.Map(s, key)[i] == k;
    }
  }

  /** Each key once, in order of first appearance. */
  lemma KeysOrdered<T, K>(s: seq<T>, key: T -> K)
    ensures Seqs.NoDuplicates(Keys(s, key))
    ensures forall k :: k in Keys(s, key) ==> k in Seqs.Map(s, key)
    ensures forall i, j :: 0 <= i < j < |Keys(s, key)| ==>
      Seqs.IndexOf(Seqs.Map(s, key), Keys(s, key)[i]) < Seqs.IndexOf(Seqs.Map(s, key), Keys(s, key)[j])
  {
    Seqs.DistinctSpec(Seqs.Map(s, key));
  }

  /** A listed key has at least one member; an unlisted one has none. */
  lemma MembersOfKey<T, K>(s: seq<T>, key: T -> K, k: K)
    ensures k in Keys(s, key) <==> |Members(s, key, k)| > 0
  {
    KeysMembers(s, key, k);
    Seqs.CountNoneIff(s, KeyIs(key, k));
  }

  /** Adding an element grows exactly the group of its key, if that group is listed. */
  lemma {:induction false} TotalSizeSnoc<T, K>(keys: seq<K>, s: seq<T>, x: T, key: T -> K)
    requires Seqs.NoDuplicates(keys)
    ensures TotalSize(keys, s + [x], key) == TotalSize(keys, s, key) + (if key(x) in keys then 1 else 0)
  {
    if keys != [] {
      var init := keys[..|keys| - 1];
      var last := keys[|keys| - 1];
      assert keys == init + [last];
      assert key(x) in keys <==> key(x) in init || key(x) == last;
      assert last !in init;
      TotalSizeSnoc(init, s, x, key);
      MembersSnoc(s, x, key, last);
    }
  }

  /** The groups together hold every element exactly once. */
  lemma {:induction false} TotalSizeIsLength<T, K>(s: seq<T>, key: T -> K)
    ensures TotalSize(Keys(s, key), s, key) == |s|
  {
    if s != [] {
      var p := s[..|s| - 1];
      var x := s[|s| - 1];
      assert s == p + [x];
      MapSnoc(p, x, key);
      var d := Keys(p, key);
      assert Seqs.Map(s, key)[..|s| - 1] == Seqs.Map(p, key);
      TotalSizeIsLength(p, key);
      Seqs.DistinctSpec(Seqs.Map(p, key));
      TotalSizeSnoc(d, p, x, key);
      if key(x) !in d {
        assert Keys(s, key) == d + [key(x)];
        assert (d + [key(x)])[..|d|] == d;
        MembersSnoc(p, x, key, key(x));
        MembersOfKey(p, key, key(x));
      } else {
        assert Keys(s, key) == d;
      }
    }
  }
}
