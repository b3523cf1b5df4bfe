/**
 Sequence helpers shared by the components: the `filter`, `includes`-toggle and
 `findIndex` idioms the client uses on its arrays, with their contracts.
 */
module Seqs {

  /** No element occurs twice. */
  ghost predicate NoDup<T>(xs: seq<T>) {
    forall i, j | 0 <= i < j < |xs| :: xs[i] != xs[j]
  }

  /** In a sequence without repeats, an element sits at one index only. */
  lemma NoDupIndex<T>(xs: seq<T>, i: int, j: int)
    requires NoDup(xs) && 0 <= i < |xs| && 0 <= j < |xs| && xs[i] == xs[j]
    ensures i == j
  {
  }

  /** `xs` is obtained from `ys` by deleting elements (relative order kept). */
  ghost predicate SubseqOf<T>(xs: seq<T>, ys: seq<T>)
    decreases |ys|
  {
    |xs| == 0 || (|ys| > 0 && if xs[0] == ys[0] then SubseqOf(xs[1..], ys[1..]) else SubseqOf(xs, ys[1..]))
  }

  /** `x` occurs strictly before `y` in `xs`. */
  ghost predicate Precedes<T>(xs: seq<T>, x: T, y: T) {
    exists i, j | 0 <= i < j < |xs| :: xs[i] == x && xs[j] == y
  }

  /** `xs.filter(p)`: the elements satisfying `p`, in their original order. */
  function Filter<T(!new)>(xs: seq<T>, p: T -> bool): (r: seq<T>)
    ensures |r| <= |xs|
    ensures forall y :: y in r <==> y in xs && p(y)
  {
    if |xs| == 0 then []
    else
      assert xs == [xs[0]] + xs[1..];
      if p(xs[0]) then [xs[0]] + Filter(xs[1..], p) else Filter(xs[1..], p)
  }
  /** Filtering out at least one element shortens the sequence. */
  lemma {:induction false} FilterDrops<T(!new)>(xs: seq<T>, p: T -> bool, i: int)
    requires 0 <= i < |xs| && !p(xs[i])
    ensures |Filter(xs, p)| < |xs|
  {
    if i > 0 {
      FilterDrops(xs[1..], p, i - 1);
    }
  }

  /** Filtering one element keeps it exactly when it passes. */
  lemma FilterSingleton<T(!new)>(x: T, p: T -> bool)
    ensures Filter([x], p) == if p(x) then [x] else []
  {
    assert [x][1..] == [];
  }

  /** Two single elements that do not both pass can trade places in front of a filtered rest. */
  lemma FilterSwap<T(!new)>(x: T, y: T, t: seq<T>, p: T -> bool)
    requires !(p(x) && p(y))
    ensures Filter([y], p) + (Filter([x], p) + Filter(t, p)) == Filter([x], p) + (Filter([y], p) + Filter(t, p))
  {
    FilterSingleton(x, p);
    FilterSingleton(y, p);
    var fx, fy, ft := Filter([x], p), Filter([y], p), Filter(t, p);
    if p(x) {
      assert fy + (fx + ft) == fx + ft == fx + (fy + ft);
    } else {
      assert fy + (fx + ft) == fy + ft == fx + (fy + ft);
    }
  }

  /** Filtering keeps every copy of a passing element and no copy of a failing one. */
  lemma {:induction false} FilterCount<T(!new)>(xs: seq<T>, p: T -> bool, y: T)
    ensures multiset(Filter(xs, p))[y] == if p(y) then multiset(xs)[y] else 0
  {
    if |xs| > 0 {
      FilterCount(xs[1..], p, y);
      assert xs == [xs[0]] + xs[1..];
      assert multiset(xs) == multiset{xs[0]} + multiset(xs[1..]);
    }
  }

  /** Filtering only deletes: the kept elements stay in their original order. */
  lemma {:induction false} FilterIsSubseq<T(!new)>(xs: seq<T>, p: T -> bool)
    ensures SubseqOf(Filter(xs, p), xs)
  {
    if |xs| > 0 {
      FilterIsSubseq(xs[1..], p);
      var rest := Filter(xs[1..], p);
      if !p(xs[0]) && |rest| > 0 {
        assert rest[0] in xs[1..];
        assert rest[0] != xs[0];
      }
    }
  }

  /** Filtering a duplicate-free sequence leaves it duplicate-free. */
  lemma {:induction false} FilterNoDup<T(!new)>(xs: seq<T>, p: T -> bool)
    ensures NoDup(xs) ==> NoDup(Filter(xs, p))
  {
    if |xs| > 0 && NoDup(xs) {
      assert NoDup(xs[1..]);
      FilterNoDup(xs[1..], p);
      assert xs[0] !in xs[1..];
    }
  }

  /** Filtering keeps a sequence whose elements all pass. */
  lemma {:induction false} FilterKeepsAll<T(!new)>(xs: seq<T>, p: T -> bool)
    requires forall y | y in xs :: p(y)
    ensures Filter(xs, p) == xs
  {
    if |xs| > 0 {
      FilterKeepsAll(xs[1..], p);
    }
  }

  /** Filtering distributes over concatenation. */
  lemma {:induction false} FilterConcat<T(!new)>(a: seq<T>, b: seq<T>, p: T -> bool)
    ensures Filter(a + b, p) == Filter(a, p) + Filter(b, p)
  {
    if |a| == 0 {
      assert a + b == b;
    } else {
      assert (a + b)[1..] == a[1..] + b;
      FilterConcat(a[1..], b, p);
    }
  }

  /** Filtering keeps the relative order of two kept elements. */
  lemma {:induction false} FilterKeepsOrder<T(!new)>(xs: seq<T>, p: T -> bool, x: T, y: T)
    requires p(x) && p(y)
    requires Precedes(xs, x, y)
    ensures Precedes(Filter(xs, p), x, y)
  {
    var t := xs[1..];
    var ft := Filter(t, p);
    var i, j :| 0 <= i < j < |xs| && xs[i] == x && xs[j] == y;
    assert xs == [xs[0]] + t;
    if i == 0 {
      assert y in t;
      var k :| 0 <= k < |ft| && ft[k] == y;
      assert Filter(xs, p) == [x] + ft;
      assert Filter(xs, p)[0] == x && Filter(xs, p)[k + 1] == y;
    } else {
      assert t[i - 1] == x && t[j - 1] == y;
      FilterKeepsOrder(t, p, x, y);
      var a, b :| 0 <= a < b < |ft| && ft[a] == x && ft[b] == y;
      if p(xs[0]) {
        assert Filter(xs, p) == [xs[0]] + ft;
        assert Filter(xs, p)[a + 1] == x && Filter(xs, p)[b + 1] == y;
      }
    }
  }

  /** Filtering creates no new order: two elements ordered after filtering were ordered before. */
  lemma {:induction false} FilterReflectsOrder<T(!new)>(xs: seq<T>, p: T -> bool, x: T, y: T)
    requires Precedes(Filter(xs, p), x, y)
    ensures Precedes(xs, x, y)
  {
    var t := xs[1..];
    var ft := Filter(t, p);
    var fx := Filter(xs, p);
    var i, j :| 0 <= i < j < |fx| && fx[i] == x && fx[j] == y;
    assert xs == [xs[0]] + t;
    if p(xs[0]) {
      assert fx == [xs[0]] + ft;
      if i == 0 {
        assert y in ft;
        var k :| 0 <= k < |t| && t[k] == y;
        assert xs[0] == x && xs[k + 1] == y;
      } else {
        assert ft[i - 1] == x && ft[j - 1] == y;
        FilterReflectsOrder(t, p, x, y);
        var a, b :| 0 <= a < b < |t| && t[a] == x && t[b] == y;
        assert xs[a + 1] == x && xs[b + 1] == y;
      }
    } else {
      FilterReflectsOrder(t, p, x, y);
      var a, b :| 0 <= a < b < |t| && t[a] == x && t[b] == y;
      assert xs[a + 1] == x && xs[b + 1] == y;
    }
  }

  /** The predicate "differs from `x`", i.e. the callback `(y) => y !== x`. */
  function Differs<T(==)>(x: T): T -> bool {
    y => y != x
  }

  /** `xs.filter((y) => y !== x)`. */
  function Remove<T(==,!new)>(xs: seq<T>, x: T): (r: seq<T>)
    ensures x !in r
    ensures forall y | y != x :: (y in r <==> y in xs) && multiset(r)[y] == multiset(xs)[y]
    ensures SubseqOf(r, xs)
    ensures NoDup(xs) ==> NoDup(r)
  {
    FilterIsSubseq(xs, Differs(x));
    FilterNoDup(xs, Differs(x));
    forall y ensures multiset(Filter(xs, Differs(x)))[y] == if y != x then multiset(xs)[y] else 0 {
      FilterCount(xs, Differs(x), y);
    }
    Filter(xs, Differs(x))
  }

  /** Removing an element that is not there changes nothing. */
  lemma RemoveAbsent<T(!new)>(xs: seq<T>, x: T)
    requires x !in xs
    ensures Remove(xs, x) == xs
  {
    FilterKeepsAll(xs, Differs(x));
  }

  /** `xs.includes(x) ? xs.filter((y) => y !== x) : [...xs, x]`. */
  function Toggle<T(==,!new)>(xs: seq<T>, x: T): (r: seq<T>)
    ensures x in r <==> x !in xs
    ensures forall y | y != x :: y in r <==> y in xs
    ensures x !in xs ==> r == xs + [x]
    ensures x in xs ==> SubseqOf(r, xs) && |r| < |xs|
    ensures NoDup(xs) ==> NoDup(r)
  {
    if x in xs then
      var r := Remove(xs, x);
      assert multiset(r)[x] == 0 < multiset(xs)[x];
      assert |r| < |xs| by {
        assert multiset(r) <= multiset(xs);
        assert multiset(r) != multiset(xs);
        assert |multiset(r)| < |multiset(xs)| by {
          assert multiset(xs) == multiset(r) + (multiset(xs) - multiset(r));
        }
      }
      r
    else
      xs + [x]
  }

  /** Toggling an absent element twice is the identity. */
  lemma ToggleTwiceAbsent<T(!new)>(xs: seq<T>, x: T)
    requires x !in xs
    ensures Toggle(Toggle(xs, x), x) == xs
  {
    FilterConcat(xs, [x], Differs(x));
    FilterKeepsAll(xs, Differs(x));
  }

  /** `xs.some((y) => key(y) === k)`. */
  predicate HasKey<T, K(==)>(xs: seq<T>, key: T -> K, k: K) {
    exists i | 0 <= i < |xs| :: key(xs[i]) == k
  }

  /** No element of a sequence without the key carries it. */
  lemma NoKey<T, K>(xs: seq<T>, key: T -> K, k: K)
    requires !HasKey(xs, key, k)
    ensures forall y | y in xs :: key(y) != k
  {
    forall y | y in xs
      ensures key(y) != k
    {
      var i :| 0 <= i < |xs| && xs[i] == y;
    }
  }

  /** No two distinct elements share a key, and none occurs twice. */
  ghost predicate KeyUnique<T, K>(xs: seq<T>, key: T -> K) {
    && NoDup(xs)
    && forall a, b | a in xs && b in xs :: key(a) == key(b) ==> a == b
  }

  /** The callback `(y) => key(y) !== k`. */
  function KeyDiffers<T, K(==)>(key: T -> K, k: K): T -> bool {
    (y: T) => key(y) != k
  }

  /** `xs.filter((y) => key(y) !== k)`: every element carrying the key dropped, the rest kept in order. */
  function WithoutKey<T(!new), K(==)>(xs: seq<T>, key: T -> K, k: K): (r: seq<T>)
    ensures !HasKey(r, key, k)
    ensures forall y :: y in r <==> y in xs && key(y) != k
    ensures SubseqOf(r, xs) && |r| <= |xs|
    ensures KeyUnique(xs, key) ==> KeyUnique(r, key)
    ensures !HasKey(xs, key, k) ==> r == xs
    ensures HasKey(xs, key, k) ==> |r| < |xs|
  {
    var r := Filter(xs, KeyDiffers(key, k));
    FilterIsSubseq(xs, KeyDiffers(key, k));
    FilterNoDup(xs, KeyDiffers(key, k));
    assert !HasKey(r, key, k) by {
      forall i | 0 <= i < |r|
        ensures key(r[i]) != k
      {
        assert r[i] in r;
      }
    }
    if HasKey(xs, key, k) then
      var i :| 0 <= i < |xs| && key(xs[i]) == k;
      FilterDrops(xs, KeyDiffers(key, k), i);
      r
    else
      NoKey(xs, key, k);
      FilterKeepsAll(xs, KeyDiffers(key, k));
      r
  }

  /** Appending an element whose key is new keeps the keys unique. */
  lemma AppendKeyUnique<T, K>(xs: seq<T>, x: T, key: T -> K)
    requires KeyUnique(xs, key) && !HasKey(xs, key, key(x))
    ensures KeyUnique(xs + [x], key)
    ensures HasKey(xs + [x], key, key(x))
  {
    NoKey(xs, key, key(x));
    var r := xs + [x];
    assert r[|xs|] == x;
    forall i, j | 0 <= i < j < |r|
      ensures r[i] != r[j]
    {
      if j == |xs| {
        assert r[i] in xs;
      }
    }
  }

  /** `xs.findIndex(p)`: the first index satisfying `p`, or -1. */
  function FindIndex<T>(xs: seq<T>, p: T -> bool): (r: int)
    ensures -1 <= r < |xs|
    ensures r >= 0 ==> p(xs[r]) && forall j | 0 <= j < r :: !p(xs[j])
    ensures r == -1 <==> forall j | 0 <= j < |xs| :: !p(xs[j])
  {
    if |xs| == 0 then -1
    else if p(xs[0]) then 0
    else
      var k := FindIndex(xs[1..], p);
      if k == -1 then -1 else k + 1
  }

  /** `xs.indexOf(x)`: the first index holding `x`, or -1. */
  function IndexOf<T(==)>(xs: seq<T>, x: T): (r: int)
    ensures -1 <= r < |xs|
    ensures r >= 0 ==> xs[r] == x && x !in xs[..r]
    ensures r == -1 <==> x !in xs
  {
    if |xs| == 0 then -1
    else if xs[0] == x then 0
    else
      var k := IndexOf(xs[1..], x);
      assert k >= 0 ==> xs[..k + 1] == [xs[0]] + xs[1..][..k];
      if k == -1 then -1 else k + 1
  }

  /** In a duplicate-free sequence, `indexOf` finds each element at its own position. */
  lemma IndexOfNoDup<T>(xs: seq<T>, i: int)
    requires NoDup(xs) && 0 <= i < |xs|
    ensures IndexOf(xs, xs[i]) == i
  {
  }

  /** `xs.map(f)`. */
  function Map<A, B>(xs: seq<A>, f: A -> B): (r: seq<B>)
    ensures |r| == |xs|
    ensures forall i | 0 <= i < |xs| :: r[i] == f(xs[i])
  {
    if |xs| == 0 then [] else [f(xs[0])] + Map(xs[1..], f)
  }

  lemma {:induction false} MapConcat<A, B>(a: seq<A>, b: seq<A>, f: A -> B)
    ensures Map(a + b, f) == Map(a, f) + Map(b, f)
  {
  }

  /** Mapping a sequence with one element taken out. */
  lemma MapRemoveAt<A, B>(a: seq<A>, x: A, b: seq<A>, f: A -> B)
    ensures multiset(Map(a + [x] + b, f)) == multiset(Map(a + b, f)) + multiset{f(x)}
  {
    MapConcat(a + [x], b, f);
    MapConcat(a, [x], f);
    MapConcat(a, b, f);
    assert Map([x], f) == [f(x)];
    var fa, fb := Map(a, f), Map(b, f);
    assert Map(a + [x] + b, f) == fa + [f(x)] + fb;
    assert multiset(fa + [f(x)] + fb) == multiset(fa) + multiset{f(x)} + multiset(fb);
  }

  /** Taking the first element of `p` out of both of two arrangements leaves two arrangements. */
  lemma RemoveMatching<A>(p: seq<A>, q: seq<A>, k: int)
    requires multiset(p) == multiset(q) && |p| > 0
    requires 0 <= k < |q| && q[k] == p[0]
    ensures multiset(p[1..]) == multiset(q[..k] + q[k + 1..])
  {
    var x, front, back := p[0], q[..k], q[k + 1..];
    assert q == front + [x] + back;
    assert p == [x] + p[1..];
    assert multiset(front + back) == multiset(q) - multiset{x};
  }

  /** A sequence is its prefix, one element and its suffix. */
  lemma SplitAt<A>(q: seq<A>, k: int)
    requires 0 <= k < |q|
    ensures q == q[..k] + [q[k]] + q[k + 1..]
    ensures q[..0] + q[1..] == q[1..]
  {
    assert q[..0] + q[1..] == q[1..];
  }

  /** Two non-empty sequences with the same head and the same tail are equal. */
  lemma HeadTailEqual<A>(p: seq<A>, q: seq<A>)
    requires |p| > 0 && |q| > 0 && p[0] == q[0] && p[1..] == q[1..]
    ensures p == q
  {
    assert p == [p[0]] + p[1..];
    assert q == [q[0]] + q[1..];
  }

  /** Mapping two arrangements of the same elements gives two arrangements of the same images. */
  lemma {:induction false} MapPermutation<A, B>(p: seq<A>, q: seq<A>, f: A -> B)
    requires multiset(p) == multiset(q)
    ensures multiset(Map(p, f)) == multiset(Map(q, f))
    decreases |p|
  {
    if |p| == 0 {
      assert |q| == |multiset(q)| == 0;
      return;
    }
    var x := p[0];
    assert x in multiset(q);
    var k :| 0 <= k < |q| && q[k] == x;
    RemoveMatching(p, q, k);
    MapPermutation(p[1..], q[..k] + q[k + 1..], f);
    SplitAt(p, 0);
    SplitAt(q, k);
    MapRemoveAt(p[..0], x, p[1..], f);
    MapRemoveAt(q[..k], x, q[k + 1..], f);
  }

  /** The sum of a sequence of naturals, `xs.reduce((t, x) => t + x, 0)`. */
  function Sum(xs: seq<nat>): nat {
    if |xs| == 0 then 0 else xs[0] + Sum(xs[1..])
  }

  lemma {:induction false} SumConcat(a: seq<nat>, b: seq<nat>)
    ensures Sum(a + b) == Sum(a) + Sum(b)
  {
    if |a| > 0 {
      assert (a + b)[1..] == a[1..] + b;
      SumConcat(a[1..], b);
    } else {
      assert a + b == b;
    }
  }

  /** A sum does not depend on the order of its terms. */
  lemma {:induction false} SumPermutation(p: seq<nat>, q: seq<nat>)
    requires multiset(p) == multiset(q)
    ensures Sum(p) == Sum(q)
    decreases |p|
  {
    if |p| == 0 {
      assert |q| == |multiset(q)| == 0;
      return;
    }
    var x := p[0];
    assert x in multiset(q);
    var k :| 0 <= k < |q| && q[k] == x;
    RemoveMatching(p, q, k);
    SumPermutation(p[1..], q[..k] + q[k + 1..]);
    SplitAt(q, k);
    SumConcat(q[..k] + [x], q[k + 1..]);
    SumConcat(q[..k], [x]);
    SumConcat(q[..k], q[k + 1..]);
  }

  /** A rearrangement of a sequence of at most one element is the sequence itself. */
  lemma SmallPermutationEqual<T>(p: seq<T>, q: seq<T>)
    requires multiset(p) == multiset(q) && |q| <= 1
    ensures p == q
  {
    assert |p| == |multiset(p)| == |multiset(q)| == |q|;
    if |q| == 1 {
      assert p[0] in multiset(q);
    }
  }
}
