/**
 A stable sort by an integer key. `Array.prototype.sort` is stable (ECMAScript 2019,
 section 23.1.3.30), so `xs.sort((a, b) => key(a) - key(b))` orders by ascending key
 and keeps the input order among equal keys. Sorting by descending score is sorting by
 the negated score.
 */
module Sorting {
  import opened Seqs

  /** Keys never decrease along `s`. */
  ghost predicate SortedBy<T>(s: seq<T>, key: T -> int) {
    forall i, j | 0 <= i < j < |s| :: key(s[i]) <= key(s[j])
  }

  /** The predicate "has key `k`". */
  function KeyIs<T>(key: T -> int, k: int): T -> bool {
    e => key(e) == k
  }

  /** Inserts `x` before the first element whose key is at least `key(x)`. */
  function Insert<T(!new)>(x: T, s: seq<T>, key: T -> int): (r: seq<T>)
    ensures |r| == |s| + 1
    ensures multiset(r) == multiset(s) + multiset{x}
  {
    if |s| == 0 || key(x) <= key(s[0]) then
      [x] + s
    else
      assert s == [s[0]] + s[1..];
      [s[0]] + Insert(x, s[1..], key)
  }

  /** Inserting into a sorted sequence keeps it sorted. */
  lemma {:induction false} InsertSorted<T(!new)>(x: T, s: seq<T>, key: T -> int)
    requires SortedBy(s, key)
    ensures SortedBy(Insert(x, s, key), key)
  {
    if |s| > 0 && key(x) > key(s[0]) {
      var rest := Insert(x, s[1..], key);
      InsertSorted(x, s[1..], key);
      forall y | y in rest
        ensures key(s[0]) <= key(y)
      {
        assert y in multiset(rest);
        assert y == x || y in s[1..];
      }
    }
  }

  /** Inserting a new element into a duplicate-free sequence keeps it duplicate-free. */
  lemma {:induction false} InsertNoDup<T(!new)>(x: T, s: seq<T>, key: T -> int)
    requires NoDup(s) && x !in s
    ensures NoDup(Insert(x, s, key))
  {
    if |s| > 0 && key(x) > key(s[0]) {
      var rest := Insert(x, s[1..], key);
      assert s == [s[0]] + s[1..];
      InsertNoDup(x, s[1..], key);
      assert multiset(rest)[s[0]] == 0;
    }
  }

  /** Stable insertion sort by ascending key. */
  function SortBy<T(!new)>(s: seq<T>, key: T -> int): (r: seq<T>)
    ensures |r| == |s|
    ensures multiset(r) == multiset(s)
    ensures SortedBy(r, key)
  {
    if |s| == 0 then []
    else
      assert s == [s[0]] + s[1..];
      InsertSorted(s[0], SortBy(s[1..], key), key);
      Insert(s[0], SortBy(s[1..], key), key)
  }

  /** Sorting a duplicate-free sequence leaves it duplicate-free. */
  lemma {:induction false} SortByNoDup<T(!new)>(s: seq<T>, key: T -> int)
    requires NoDup(s)
    ensures NoDup(SortBy(s, key))
  {
    if |s| > 0 {
      assert s == [s[0]] + s[1..];
      SortByNoDup(s[1..], key);
      assert multiset(SortBy(s[1..], key))[s[0]] == 0;
      InsertNoDup(s[0], SortBy(s[1..], key), key);
    }
  }

  /** Inserting `x` puts it in front of every element with the same key. */
  lemma {:induction false} InsertStable<T(!new)>(x: T, s: seq<T>, key: T -> int, k: int)
    ensures Filter(Insert(x, s, key), KeyIs(key, k)) == Filter([x], KeyIs(key, k)) + Filter(s, KeyIs(key, k))
  {
    var p := KeyIs(key, k);
    if |s| == 0 || key(x) <= key(s[0]) {
      FilterConcat([x], s, p);
    } else {
      var s0, t := s[0], s[1..];
      var rest := Insert(x, t, key);
      assert s == [s0] + t;
      assert Insert(x, s, key) == [s0] + rest;
      InsertStable(x, t, key, k);
      FilterConcat([s0], rest, p);
      FilterConcat([s0], t, p);
      assert !(p(x) && p(s0));
      FilterSwap(x, s0, t, p);
    }
  }

  /** Stability: the elements of any one key keep their input order. */
  lemma {:induction false} SortByStable<T(!new)>(s: seq<T>, key: T -> int, k: int)
    ensures Filter(SortBy(s, key), KeyIs(key, k)) == Filter(s, KeyIs(key, k))
  {
    if |s| > 0 {
      SortByStable(s[1..], key, k);
      InsertStable(s[0], SortBy(s[1..], key), key, k);
      assert s == [s[0]] + s[1..];
      FilterConcat([s[0]], s[1..], KeyIs(key, k));
    }
  }

  /**
   What the sort promises about one sequence: every element whose key is below `bound`
   comes before every element whose key is not, and each key's elements keep their order.
   */
  lemma SortByOrdering<T(!new)>(s: seq<T>, key: T -> int, bound: int)
    ensures var r := SortBy(s, key);
      && (forall i, j | 0 <= i < |r| && 0 <= j < |r| && key(r[i]) < bound <= key(r[j]) :: i < j)
      && (forall k :: Filter(r, KeyIs(key, k)) == Filter(s, KeyIs(key, k)))
  {
    forall k
      ensures Filter(SortBy(s, key), KeyIs(key, k)) == Filter(s, KeyIs(key, k))
    {
      SortByStable(s, key, k);
    }
  }

  /** Two elements with equal keys come out in the order they went in. */
  lemma SortByKeepsTieOrder<T(!new)>(s: seq<T>, key: T -> int, x: T, y: T)
    requires key(x) == key(y)
    requires Precedes(s, x, y)
    ensures Precedes(SortBy(s, key), x, y)
  {
    var p := KeyIs(key, key(x));
    FilterKeepsOrder(s, p, x, y);
    SortByStable(s, key, key(x));
    FilterReflectsOrder(SortBy(s, key), p, x, y);
  }

  /**
   Two sorted arrangements of the same elements are identical when no two distinct
   elements share a key.
   */
  lemma {:induction false} SortedUnique<T>(r1: seq<T>, r2: seq<T>, key: T -> int)
    requires SortedBy(r1, key) && SortedBy(r2, key)
    requires multiset(r1) == multiset(r2)
    requires forall a, b | a in r1 && b in r1 :: key(a) == key(b) ==> a == b
    ensures r1 == r2
  {
    if |r1| == 0 {
      assert |multiset(r2)| == 0;
      return;
    }
    assert |r2| == |multiset(r2)| == |multiset(r1)| == |r1|;
    SortedHeadsEqual(r1, r2, key);
    RemoveMatching(r1, r2, 0);
    SplitAt(r2, 0);
    SortedTail(r1, key);
    SortedTail(r2, key);
    SortedUnique(r1[1..], r2[1..], key);
    HeadTailEqual(r1, r2);
  }

  /** The tail of a sorted non-empty sequence is sorted, and its keys stay unique when the whole's are. */
  lemma SortedTail<T>(r: seq<T>, key: T -> int)
    requires SortedBy(r, key) && |r| > 0
    ensures SortedBy(r[1..], key)
    ensures (forall a, b | a in r && b in r :: key(a) == key(b) ==> a == b) ==>
      forall a, b | a in r[1..] && b in r[1..] :: key(a) == key(b) ==> a == b
  {
  }

  /** Two non-empty sorted arrangements of the same elements start alike when no two distinct elements share a key. */
  lemma SortedHeadsEqual<T>(r1: seq<T>, r2: seq<T>, key: T -> int)
    requires SortedBy(r1, key) && SortedBy(r2, key)
    requires multiset(r1) == multiset(r2) && |r1| > 0 && |r2| > 0
    requires forall a, b | a in r1 && b in r1 :: key(a) == key(b) ==> a == b
    ensures r1[0] == r2[0]
  {
    var a, b := r1[0], r2[0];
    assert b in multiset(r1);
    var j1 :| 0 <= j1 < |r1| && r1[j1] == b;
    assert key(a) <= key(b);
    assert a in multiset(r2);
    var j2 :| 0 <= j2 < |r2| && r2[j2] == a;
    assert key(b) <= key(a);
  }

  /** When no two distinct elements share a key, the result depends only on which elements are sorted. */
  lemma SortByIgnoresInputOrder<T(!new)>(s1: seq<T>, s2: seq<T>, key: T -> int)
    requires multiset(s1) == multiset(s2)
    requires forall a, b | a in s1 && b in s1 :: key(a) == key(b) ==> a == b
    ensures SortBy(s1, key) == SortBy(s2, key)
  {
    var r1, r2 := SortBy(s1, key), SortBy(s2, key);
    forall a, b | a in r1 && b in r1
      ensures key(a) == key(b) ==> a == b
    {
      assert a in multiset(s1) && b in multiset(s1);
    }
    SortedUnique(r1, r2, key);
  }

  /** A sequence whose keys strictly increase is already sorted, and sorting leaves it alone. */
  lemma StrictlySortedKept<T(!new)>(s: seq<T>, key: T -> int)
    requires forall i, j | 0 <= i < j < |s| :: key(s[i]) < key(s[j])
    ensures SortBy(s, key) == s
  {
    StrictKeysDistinct(s, key);
    SortedUnique(s, SortBy(s, key), key);
  }

  /** In a sequence whose keys strictly increase, equal keys mean the same element. */
  lemma StrictKeysDistinct<T>(s: seq<T>, key: T -> int)
    requires forall i, j | 0 <= i < j < |s| :: key(s[i]) < key(s[j])
    ensures forall a, b | a in s && b in s :: key(a) == key(b) ==> a == b
  {
    forall a, b | a in s && b in s && key(a) == key(b)
      ensures a == b
    {
      var i :| 0 <= i < |s| && s[i] == a;
      var j :| 0 <= j < |s| && s[j] == b;
      assert i == j;
    }
  }
}
