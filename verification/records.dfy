/**
 A JavaScript object with integer keys and numeric values (`Record<number, number>`),
 represented by its own properties in the order `Object.entries` lists them: for
 array-index keys, ascending numeric order.
 */
module Records {
  import opened Wrappers

  /** One property: key and value. */
  type Entry = (int, int)

  /** The keys are strictly ascending, hence distinct. */
  ghost predicate Ordered(r: seq<Entry>) {
    forall i, j | 0 <= i < j < |r| :: r[i].0 < r[j].0
  }

  /** The keys present. */
  function Keys(r: seq<Entry>): (ks: set<int>)
    ensures forall i | 0 <= i < |r| :: r[i].0 in ks
    ensures forall k | k in ks :: exists i | 0 <= i < |r| :: r[i].0 == k
  {
    if |r| == 0 then {} else {r[0].0} + Keys(r[1..])
  }

  /** `obj[k]`: the value under `k`, `None` standing for `undefined`. */
  function Get(r: seq<Entry>, k: int): (v: Option<int>)
    ensures v.Some? <==> k in Keys(r)
    ensures v.Some? ==> (k, v.value) in r
  {
    if |r| == 0 then None
    else if r[0].0 == k then Some(r[0].1)
    else Get(r[1..], k)
  }

  /** In an ordered record the entry under a key is the only one with that key. */
  lemma {:induction false} GetOrdered(r: seq<Entry>, i: int)
    requires Ordered(r) && 0 <= i < |r|
    ensures Get(r, r[i].0) == Some(r[i].1)
  {
    if i > 0 {
      GetOrdered(r[1..], i - 1);
    }
  }

  /**
   `obj[k] = v`: an existing property keeps its place and takes the new value; a new key
   is inserted at its place in key order.
   */
  function Set(r: seq<Entry>, k: int, v: int): (s: seq<Entry>)
    ensures Get(s, k) == Some(v)
    ensures forall j | j != k :: Get(s, j) == Get(r, j)
    ensures Keys(s) == Keys(r) + {k}
  {
    if |r| == 0 then [(k, v)]
    else if r[0].0 == k then [(k, v)] + r[1..]
    else if k < r[0].0 then [(k, v)] + r
    else [r[0]] + Set(r[1..], k, v)
  }

  /** Setting a key above a bound into a record whose keys are above it keeps them all above it. */
  lemma {:induction false} SetAbove(r: seq<Entry>, k: int, v: int, b: int)
    requires k > b && forall i | 0 <= i < |r| :: r[i].0 > b
    ensures forall i | 0 <= i < |Set(r, k, v)| :: Set(r, k, v)[i].0 > b
  {
    if |r| > 0 && r[0].0 != k && k >= r[0].0 {
      SetAbove(r[1..], k, v, b);
    }
  }

  /** An entry whose key is below all of an ordered record's keys can go in front. */
  lemma ConsOrdered(e: Entry, t: seq<Entry>)
    requires Ordered(t) && forall i | 0 <= i < |t| :: t[i].0 > e.0
    ensures Ordered([e] + t)
  {
    var s := [e] + t;
    forall i, j | 0 <= i < j < |s|
      ensures s[i].0 < s[j].0
    {
      assert s[j] == t[j - 1];
      if i > 0 {
        assert s[i] == t[i - 1];
      }
    }
  }

  /** Setting keeps the keys ascending. */
  lemma {:induction false} SetOrdered(r: seq<Entry>, k: int, v: int)
    requires Ordered(r)
    ensures Ordered(Set(r, k, v))
  {
    if |r| > 0 && r[0].0 != k && k >= r[0].0 {
      SetOrdered(r[1..], k, v);
      SetAbove(r[1..], k, v, r[0].0);
      ConsOrdered(r[0], Set(r[1..], k, v));
    } else if |r| > 0 && r[0].0 == k {
      ConsOrdered((k, v), r[1..]);
      assert [(k, v)] + r[1..] == Set(r, k, v);
    } else if |r| > 0 {
      ConsOrdered((k, v), r);
    }
  }

  /** In an ordered record, setting adds an entry exactly when the key is new. */
  lemma {:induction false} SetLength(r: seq<Entry>, k: int, v: int)
    requires Ordered(r)
    ensures |Set(r, k, v)| == if k in Keys(r) then |r| else |r| + 1
  {
    if |r| > 0 {
      if r[0].0 == k {
      } else if k < r[0].0 {
        assert k !in Keys(r);
      } else {
        SetLength(r[1..], k, v);
      }
    }
  }

  /** The sum of the values. */
  function Total(r: seq<Entry>): int {
    if |r| == 0 then 0 else r[0].1 + Total(r[1..])
  }

  /** Setting a new key adds its value to the total. */
  lemma {:induction false} TotalSetNew(r: seq<Entry>, k: int, v: int)
    requires k !in Keys(r)
    ensures Total(Set(r, k, v)) == Total(r) + v
  {
    if |r| > 0 && r[0].0 != k && k >= r[0].0 {
      TotalSetNew(r[1..], k, v);
    }
  }

  /** The keys of a list of pairs, repeats included once. */
  function PairKeys(pairs: seq<Entry>): set<int> {
    set i | 0 <= i < |pairs| :: pairs[i].0
  }

  /** No key occurs in two pairs. */
  ghost predicate DistinctKeys(pairs: seq<Entry>) {
    forall i, j | 0 <= i < j < |pairs| :: pairs[i].0 != pairs[j].0
  }

  /**
   The object obtained by assigning the pairs in order, as an object literal
   `{[k1]: v1, [k2]: v2, ...}` or a `forEach` of `obj[k] = v` does.
   */
  function FromPairs(pairs: seq<Entry>): (r: seq<Entry>)
    ensures Ordered(r)
  {
    if |pairs| == 0 then []
    else
      var n := |pairs|;
      var prev := FromPairs(pairs[..n - 1]);
      SetOrdered(prev, pairs[n - 1].0, pairs[n - 1].1);
      Set(prev, pairs[n - 1].0, pairs[n - 1].1)
  }

  /** The object has exactly the keys of the pairs. */
  lemma {:induction false} FromPairsKeys(pairs: seq<Entry>)
    ensures Keys(FromPairs(pairs)) == PairKeys(pairs)
  {
    if |pairs| > 0 {
      var n := |pairs|;
      var init := pairs[..n - 1];
      FromPairsKeys(init);
      forall k | k in PairKeys(pairs)
        ensures k in PairKeys(init) + {pairs[n - 1].0}
      {
        var i :| 0 <= i < n && pairs[i].0 == k;
        if i < n - 1 {
          assert init[i].0 == k;
        }
      }
      forall k | k in PairKeys(init)
        ensures k in PairKeys(pairs)
      {
        var i :| 0 <= i < n - 1 && init[i].0 == k;
        assert pairs[i].0 == k;
      }
    }
  }

  /** With distinct keys, each key holds the value it was assigned. */
  lemma {:induction false} FromPairsValues(pairs: seq<Entry>)
    requires DistinctKeys(pairs)
    ensures forall i | 0 <= i < |pairs| :: Get(FromPairs(pairs), pairs[i].0) == Some(pairs[i].1)
  {
    if |pairs| > 0 {
      var n := |pairs|;
      var init := pairs[..n - 1];
      assert DistinctKeys(init);
      FromPairsValues(init);
      forall i | 0 <= i < n - 1
        ensures Get(FromPairs(pairs), pairs[i].0) == Some(pairs[i].1)
      {
        assert init[i] == pairs[i];
      }
    }
  }

  /** The last pair of a list with distinct keys brings a key the earlier pairs lack. */
  lemma LastKeyNew(pairs: seq<Entry>)
    requires DistinctKeys(pairs) && |pairs| > 0
    ensures DistinctKeys(pairs[..|pairs| - 1])
    ensures pairs[|pairs| - 1].0 !in PairKeys(pairs[..|pairs| - 1])
  {
  }

  /** The object of a non-empty list is the object of all but the last pair, with the last one set. */
  lemma FromPairsLast(pairs: seq<Entry>)
    requires |pairs| > 0
    ensures var n := |pairs|;
      FromPairs(pairs) == Set(FromPairs(pairs[..n - 1]), pairs[n - 1].0, pairs[n - 1].1)
  {
  }

  /** With distinct keys, the object's values add up to the pairs' values. */
  lemma {:induction false} FromPairsTotal(pairs: seq<Entry>)
    requires DistinctKeys(pairs)
    ensures Total(FromPairs(pairs)) == Total(pairs)
  {
    if |pairs| > 0 {
      var n := |pairs|;
      var init, last := pairs[..n - 1], pairs[n - 1];
      LastKeyNew(pairs);
      FromPairsTotal(init);
      FromPairsKeys(init);
      TotalSetNew(FromPairs(init), last.0, last.1);
      TotalLast(pairs);
      FromPairsLast(pairs);
    }
  }

  /** The total is the total without the last entry, plus its value. */
  lemma TotalLast(r: seq<Entry>)
    requires |r| > 0
    ensures Total(r) == Total(r[..|r| - 1]) + r[|r| - 1].1
  {
    var n := |r|;
    TotalConcat(r[..n - 1], [r[n - 1]]);
    assert r == r[..n - 1] + [r[n - 1]];
  }

  /** The total of a concatenation is the sum of the totals. */
  lemma {:induction false} TotalConcat(a: seq<Entry>, b: seq<Entry>)
    ensures Total(a + b) == Total(a) + Total(b)
  {
    if |a| == 0 {
      assert a + b == b;
    } else {
      TotalConcat(a[1..], b);
      assert (a + b)[0] == a[0];
      assert (a + b)[1..] == a[1..] + b;
    }
  }

  /** Entries that are all zero total zero. */
  lemma {:induction false} TotalZero(r: seq<Entry>)
    requires forall i | 0 <= i < |r| :: r[i].1 == 0
    ensures Total(r) == 0
  {
    if |r| > 0 {
      TotalZero(r[1..]);
    }
  }
}
