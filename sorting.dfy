/**
 * `Array.prototype.sort` with a comparator that orders by one key, ascending
 * or descending, and answers 0 for equal keys. The library sort is stable, so
 * it is modelled as a stable insertion sort; its properties (ordered, a
 * permutation, stable, the identity on ordered input) are what the callers
 * rely on.
 */
module Sorting {
  import Seqs

  /** A comparable sort key: a number (or timestamp) or a string. */
  datatype Key = KNum(n: int) | KStr(s: string)

  datatype Direction = Ascending | Descending

  /** JavaScript's `<` on strings: lexicographic on characters. */
  predicate StrLt(a: string, b: string)
  {
    if a == [] then b != []
    else if b == [] then false
    else if a[0] != b[0] then a[0] < b[0]
    else StrLt(a[1..], b[1..])
  }

  /**
   * `<` on keys. Keys of one kind compare as JavaScript does; keys of two
   * kinds are placed numbers-first, an arbitrary choice that callers exclude.
   */
  predicate KeyLt(a: Key, b: Key)
  {
    match (a, b)
    case (KNum(x), KNum(y)) => x < y
    case (KStr(x), KStr(y)) => StrLt(x, y)
    case (KNum(_), KStr(_)) => true
    case (KStr(_), KNum(_)) => false
  }

  lemma {:induction false} StrLtIrreflexive(a: string)
    ensures !StrLt(a, a)
  {
    if a != [] {
      StrLtIrreflexive(a[1..]);
    }
  }

  lemma {:induction false} StrLtTransitive(a: string, b: string, c: string)
    requires StrLt(a, b) && StrLt(b, c)
    ensures StrLt(a, c)
  {
    if a != [] && b != [] && c != [] && a[0] == b[0] && b[0] == c[0] {
      StrLtTransitive(a[1..], b[1..], c[1..]);
    }
  }

  lemma {:induction false} StrLtTotal(a: string, b: string)
    requires a != b
    ensures StrLt(a, b) || StrLt(b, a)
  {
    if a != [] && b != [] && a[0] == b[0] {
      assert a == [a[0]] + a[1..] && b == [b[0]] + b[1..];
      StrLtTotal(a[1..], b[1..]);
    }
  }

  /** `KeyLt` is a strict total order. */
  lemma KeyLtIrreflexive(a: Key)
    ensures !KeyLt(a, a)
  {
    if a.KStr? {
      StrLtIrreflexive(a.s);
    }
  }

  lemma KeyLtTransitive(a: Key, b: Key, c: Key)
    requires KeyLt(a, b) && KeyLt(b, c)
    ensures KeyLt(a, c)
  {
    if a.KStr? && b.KStr? && c.KStr? {
      StrLtTransitive(a.s, b.s, c.s);
    }
  }

  lemma KeyLtTotal(a: Key, b: Key)
    requires a != b
    ensures KeyLt(a, b) || KeyLt(b, a)
  {
    if a.KStr? && b.KStr? {
      StrLtTotal(a.s, b.s);
    }
  }

  /** "Not after" is transitive: the comparator's order is consistent. */
  lemma NotLtTransitive(a: Key, b: Key, c: Key)
    requires !KeyLt(b, a) && !KeyLt(c, b)
    ensures !KeyLt(c, a)
  {
    if KeyLt(c, a) {
      if a == b {
      } else if b == c {
      } else {
        KeyLtTotal(a, b);
        KeyLtTransitive(c, a, b);
      }
    }
  }

  /**
   * The comparator answers negative for (a, b): `a` must precede `b`. It is
   * `aVal < bVal` ascending and `aVal > bVal` descending.
   */
  predicate Before(d: Direction, a: Key, b: Key)
  {
    if d == Ascending then KeyLt(a, b) else KeyLt(b, a)
  }

  /** No element is followed by one that must precede it. */
  ghost predicate SortedBy<T>(s: seq<T>, key: T -> Key, d: Direction)
  {
    forall i, j :: 0 <= i < j < |s| ==> !Before(d, key(s[j]), key(s[i]))
  }

  /** Places `x` after the leading elements that must precede it. */
  function Insert<T>(x: T, s: seq<T>, key: T -> Key, d: Direction): seq<T>
  {
    if s == [] then [x]
    else if Before(d, key(s[0]), key(x)) then [s[0]] + Insert(x, s[1..], key, d)
    else [x] + s
  }

  /** The stable sort of `s` by `key` in direction `d`. */
  function SortBy<T>(s: seq<T>, key: T -> Key, d: Direction): seq<T>
  {
    if s == [] then [] else Insert(s[0], SortBy(s[1..], key, d), key, d)
  }

  lemma {:induction false} InsertPermutes<T>(x: T, s: seq<T>, key: T -> Key, d: Direction)
    ensures multiset(Insert(x, s, key, d)) == multiset(s) + multiset{x}
    ensures |Insert(x, s, key, d)| == |s| + 1
  {
    if s != [] && Before(d, key(s[0]), key(x)) {
      InsertPermutes(x, s[1..], key, d);
      assert s == [s[0]] + s[1..];
    }
  }

  /** Sorting yields a permutation of its input. */
  lemma {:induction false} SortPermutes<T>(s: seq<T>, key: T -> Key, d: Direction)
    ensures multiset(SortBy(s, key, d)) == multiset(s)
    ensures |SortBy(s, key, d)| == |s|
  {
    if s != [] {
      SortPermutes(s[1..], key, d);
      InsertPermutes(s[0], SortBy(s[1..], key, d), key, d);
      assert s == [s[0]] + s[1..];
    }
  }

  lemma BeforeAsymmetric(d: Direction, a: Key, b: Key)
    requires Before(d, a, b)
    ensures !Before(d, b, a)
  {
    KeyLtIrreflexive(a);
    if KeyLt(a, b) && KeyLt(b, a) {
      KeyLtTransitive(a, b, a);
    }
  }

  lemma NotBeforeTransitive(d: Direction, a: Key, b: Key, c: Key)
    requires !Before(d, b, a) && !Before(d, c, b)
    ensures !Before(d, c, a)
  {
    if d == Ascending {
      NotLtTransitive(a, b, c);
    } else {
      NotLtTransitive(c, b, a);
    }
  }

  lemma TailSorted<T>(s: seq<T>, key: T -> Key, d: Direction)
    requires s != [] && SortedBy(s, key, d)
    ensures SortedBy(s[1..], key, d)
  {
    var t := s[1..];
    forall i, j | 0 <= i < j < |t|
      ensures !Before(d, key(t[j]), key(t[i]))
    {
      assert t[i] == s[i + 1] && t[j] == s[j + 1];
    }
  }

  /** A sorted sequence stays sorted behind a head that nothing in it must precede. */
  lemma ConsSorted<T>(y: T, u: seq<T>, key: T -> Key, d: Direction)
    requires SortedBy(u, key, d)
    requires forall j :: 0 <= j < |u| ==> !Before(d, key(u[j]), key(y))
    ensures SortedBy([y] + u, key, d)
  {
    var r := [y] + u;
    forall i, j | 0 <= i < j < |r|
      ensures !Before(d, key(r[j]), key(r[i]))
    {
      assert r[j] == u[j - 1];
      if i > 0 {
        assert r[i] == u[i - 1];
      }
    }
  }

  lemma {:induction false} InsertSorted<T>(x: T, s: seq<T>, key: T -> Key, d: Direction)
    requires SortedBy(s, key, d)
    ensures SortedBy(Insert(x, s, key, d), key, d)
  {
    if s == [] {
    } else if Before(d, key(s[0]), key(x)) {
      var t := s[1..];
      TailSorted(s, key, d);
      InsertSorted(x, t, key, d);
      InsertPermutes(x, t, key, d);
      var u := Insert(x, t, key, d);
      forall j | 0 <= j < |u|
        ensures !Before(d, key(u[j]), key(s[0]))
      {
        assert u[j] in multiset(u);
        if u[j] == x {
          BeforeAsymmetric(d, key(s[0]), key(x));
        } else {
          assert u[j] in multiset(t);
          var k :| 0 <= k < |t| && t[k] == u[j];
          assert t[k] == s[k + 1];
        }
      }
      ConsSorted(s[0], u, key, d);
    } else {
      forall j | 0 <= j < |s|
        ensures !Before(d, key(s[j]), key(x))
      {
        if j > 0 {
          NotBeforeTransitive(d, key(x), key(s[0]), key(s[j]));
        }
      }
      ConsSorted(x, s, key, d);
    }
  }

  /** Sorting yields a sequence ordered by the comparator. */
  lemma {:induction false} SortSorted<T>(s: seq<T>, key: T -> Key, d: Direction)
    ensures SortedBy(SortBy(s, key, d), key, d)
  {
    if s != [] {
      SortSorted(s[1..], key, d);
      InsertSorted(s[0], SortBy(s[1..], key, d), key, d);
    }
  }

  /** The elements whose key is `k`. */
  function HasKey<T>(key: T -> Key, k: Key): T -> bool
  {
    x => key(x) == k
  }

  lemma {:induction false} InsertStable<T>(x: T, s: seq<T>, key: T -> Key, d: Direction, k: Key)
    ensures Seqs.Filter(Insert(x, s, key, d), HasKey(key, k)) == Seqs.Filter([x] + s, HasKey(key, k))
  {
    var p := HasKey(key, k);
    if s != [] && Before(d, key(s[0]), key(x)) {
      InsertStable(x, s[1..], key, d, k);
      KeyLtIrreflexive(key(x));
      assert key(s[0]) != key(x);
      assert ([x] + s)[1..] == s;
      assert ([x] + s[1..])[1..] == s[1..];
      assert s == [s[0]] + s[1..];
      Seqs.FilterAppend([s[0]], s[1..], p);
      assert [s[0]] + Insert(x, s[1..], key, d) == Insert(x, s, key, d);
      Seqs.FilterAppend([s[0]], Insert(x, s[1..], key, d), p);
      Seqs.FilterAppend([x], s, p);
      Seqs.FilterAppend([x], s[1..], p);
      Seqs.FilterAppend([s[0]], s[1..], p);
      assert Seqs.Filter([s[0]], p) == [] || Seqs.Filter([x], p) == [];
    }
  }

  /**
   * The sort is stable: the elements that share any one key keep their
   * relative input order.
   */
  lemma {:induction false} SortStable<T>(s: seq<T>, key: T -> Key, d: Direction, k: Key)
    ensures Seqs.Filter(SortBy(s, key, d), HasKey(key, k)) == Seqs.Filter(s, HasKey(key, k))
  {
    if s != [] {
      var p := HasKey(key, k);
      SortStable(s[1..], key, d, k);
      InsertStable(s[0], SortBy(s[1..], key, d), key, d, k);
      Seqs.FilterAppend([s[0]], SortBy(s[1..], key, d), p);
      Seqs.FilterAppend([s[0]], s[1..], p);
      assert s == [s[0]] + s[1..];
    }
  }

  /** Sorting an ordered sequence changes nothing. */
  lemma {:induction false} SortOfSorted<T>(s: seq<T>, key: T -> Key, d: Direction)
    requires SortedBy(s, key, d)
    ensures SortBy(s, key, d) == s
  {
    if s != [] {
      var t := s[1..];
      assert SortedBy(t, key, d) by {
        forall i, j | 0 <= i < j < |t|
          ensures !Before(d, key(t[j]), key(t[i]))
        {
          assert t[i] == s[i + 1] && t[j] == s[j + 1];
        }
      }
      SortOfSorted(t, key, d);
      if t != [] {
        assert t[0] == s[1];
      }
      assert s == [s[0]] + t;
    }
  }

  /** A prefix of an ordered sequence is ordered. */
  lemma PrefixSorted<T>(s: seq<T>, n: nat, key: T -> Key, d: Direction)
    requires SortedBy(s, key, d) && n <= |s|
    ensures SortedBy(s[..n], key, d)
  {
    forall i, j | 0 <= i < j < n
      ensures !Before(d, key(s[..n][j]), key(s[..n][i]))
    {
      assert s[..n][i] == s[i] && s[..n][j] == s[j];
    }
  }
}
