/**
 `decorateBid`, stated over a given registry of bid types and a given canonical order
 of names, so that its properties are proved once for every registry; the module
 `GameData` applies it to the tables the client ships.

 A combination's constituent ids are resolved with `find` (a miss gives `null`), stably
 sorted by the index of their name in the canonical order (`indexOf`, -1 when absent),
 and their names are joined by " - " (`join` renders `null` as the empty string);
 "Piros " goes in front when `isRed` is `true`. The score is the sum of the constituent
 scores, an unknown id counting 0, written in decimal.
 */
module Decoration {
  import opened Wrappers
  import opened Seqs
  import opened Sorting
  import opened Strings

  /** An atomic scoring unit. */
  datatype BidType = BidType(id: int, name: string, score: nat)

  /** A raw bid combination; `isRed` is `true`, `false` or `undefined` (None). */
  datatype RawBid = RawBid(id: int, bidTypeIds: seq<int>, isRed: Option<bool>)

  /** A decorated bid combination. */
  datatype Bid = Bid(id: int, bidTypeIds: seq<int>, isRed: Option<bool>, name: string, score: string)

  /** Separator between constituent names. */
  const NameSeparator: string := " - "

  /** Prefix of the name of a red bid. */
  const RedPrefix: string := "Piros "

  /** The callback `(bt) => bt.id === id`. */
  function HasId(id: int): BidType -> bool {
    (bt: BidType) => bt.id == id
  }

  /** `types.find((bt) => bt.id === id)`: the first entry with that id, if any. */
  function FindBidType(types: seq<BidType>, id: int): (r: Option<BidType>)
    ensures r.None? <==> forall k | 0 <= k < |types| :: types[k].id != id
    ensures r.Some? ==> exists k | 0 <= k < |types| :: types[k] == r.value && r.value.id == id && forall j | 0 <= j < k :: types[j].id != id
  {
    var k := FindIndex(types, HasId(id));
    if k < 0 then None else Some(types[k])
  }

  /** The lookup as a callback, for `ids.map`. */
  function Lookup(types: seq<BidType>): int -> Option<BidType> {
    id => FindBidType(types, id)
  }

  /** What one constituent id adds to the score: its bid type's score, or 0 when unknown. */
  function Contribution(types: seq<BidType>, id: int): nat {
    match FindBidType(types, id)
    case Some(bt) => bt.score
    case None => 0
  }

  /** The contribution as a callback. */
  function ContributionOf(types: seq<BidType>): int -> nat {
    id => Contribution(types, id)
  }

  /** `ids.reduce((total, id) => total + contribution(id), 0)`. */
  function ScoreSum(types: seq<BidType>, ids: seq<int>): nat {
    Sum(Map(ids, ContributionOf(types)))
  }

  /** `ids.map(lookup)`, with `null` for an unknown id. */
  function Resolve(types: seq<BidType>, ids: seq<int>): seq<Option<BidType>> {
    Map(ids, Lookup(types))
  }

  /**
   The sort key of a resolved constituent: `order.indexOf(name)`. A name missing from
   the order, and a `null` entry (whose name is `undefined`), get -1.
   */
  function Place(order: seq<string>, o: Option<BidType>): int {
    match o
    case Some(bt) => IndexOf(order, bt.name)
    case None => -1
  }

  /** The sort key as a callback. */
  function PlaceIn(order: seq<string>): Option<BidType> -> int {
    o => Place(order, o)
  }

  /** The text a resolved constituent contributes to the name; `join` renders `null` as "". */
  function Segment(o: Option<BidType>): string {
    match o
    case Some(bt) => bt.name
    case None => ""
  }

  /** The constituents, resolved and stably sorted by their place in the canonical order. */
  function SortedConstituents(types: seq<BidType>, order: seq<string>, ids: seq<int>): seq<Option<BidType>> {
    SortBy(Resolve(types, ids), PlaceIn(order))
  }

  /** The names of the sorted constituents, one segment each. */
  function Segments(types: seq<BidType>, order: seq<string>, ids: seq<int>): seq<string> {
    Map(SortedConstituents(types, order, ids), Segment)
  }

  /** The composite name: the segments joined by " - ", with "Piros " in front when `isRed` is `true`. */
  function DecorateName(types: seq<BidType>, order: seq<string>, ids: seq<int>, isRed: Option<bool>): string {
    Coloured(isRed, Join(Segments(types, order, ids), NameSeparator))
  }

  /** `isRed ? \`Piros ${joined}\` : joined`: only `true` counts as red; `false` and `undefined` do not. */
  function Coloured(isRed: Option<bool>, joined: string): string {
    if isRed == Some(true) then RedPrefix + joined else joined
  }

  /** `decorateBid`: the raw fields unchanged, plus the derived name and score string. */
  function DecorateBid(types: seq<BidType>, order: seq<string>, raw: RawBid): (b: Bid)
    ensures b.id == raw.id && b.bidTypeIds == raw.bidTypeIds && b.isRed == raw.isRed
    ensures forall i | 0 <= i < |b.score| :: IsDigit(b.score[i])
  {
    Bid(raw.id, raw.bidTypeIds, raw.isRed, DecorateName(types, order, raw.bidTypeIds, raw.isRed),
        NatToString(ScoreSum(types, raw.bidTypeIds)))
  }

  /** `raws.map(decorateBid)`: same length and order, each entry decorated in place. */
  function DecorateAll(types: seq<BidType>, order: seq<string>, raws: seq<RawBid>): (r: seq<Bid>)
    ensures |r| == |raws|
    ensures forall i | 0 <= i < |raws| ::
      && r[i] == DecorateBid(types, order, raws[i])
      && r[i].id == raws[i].id && r[i].bidTypeIds == raws[i].bidTypeIds && r[i].isRed == raws[i].isRed
  {
    Map(raws, (raw: RawBid) => DecorateBid(types, order, raw))
  }

  /** An id missing from the registry adds nothing to the score. */
  lemma ContributionMissing(types: seq<BidType>, id: int)
    requires forall k | 0 <= k < |types| :: types[k].id != id
    ensures Contribution(types, id) == 0 && Lookup(types)(id) == None
  {
  }

  /**
   A registered id resolves to its first entry in the registry and adds that entry's
   score; later entries with the same id are shadowed.
   */
  lemma FirstMatchWins(types: seq<BidType>, id: int, k: int)
    requires 0 <= k < |types| && types[k].id == id
    requires forall j | 0 <= j < k :: types[j].id != id
    ensures Lookup(types)(id) == Some(types[k])
    ensures Contribution(types, id) == types[k].score
  {
    var r := FindBidType(types, id);
    var k' :| 0 <= k' < |types| && types[k'] == r.value && r.value.id == id && forall j | 0 <= j < k' :: types[j].id != id;
    assert k' == k;
  }

  /** Each id adds its contribution to the running total. */
  lemma ScoreSumAppend(types: seq<BidType>, ids: seq<int>, id: int)
    ensures ScoreSum(types, ids + [id]) == ScoreSum(types, ids) + Contribution(types, id)
  {
    var f := ContributionOf(types);
    assert Map(ids + [id], f) == Map(ids, f) + [f(id)];
    SumConcat(Map(ids, f), [f(id)]);
  }

  /** The score does not depend on the order of the constituent ids. */
  lemma ScoreIgnoresOrder(types: seq<BidType>, p: seq<int>, q: seq<int>)
    requires multiset(p) == multiset(q)
    ensures ScoreSum(types, p) == ScoreSum(types, q)
  {
    var f := ContributionOf(types);
    MapPermutation(p, q, f);
    SumPermutation(Map(p, f), Map(q, f));
  }

  /** The score string reads back as the numeric score. */
  lemma ScoreStringIsSum(types: seq<BidType>, order: seq<string>, raw: RawBid)
    ensures ParseDecimal(DecorateBid(types, order, raw).score) == ScoreSum(types, raw.bidTypeIds)
  {
    ParseNatToString(ScoreSum(types, raw.bidTypeIds));
  }

  /**
   In a name, unlisted and unknown constituents (place -1) come before every constituent
   listed in the canonical order, and places never decrease.
   */
  lemma NameUnlistedFirst(types: seq<BidType>, order: seq<string>, ids: seq<int>)
    ensures var sorted := SortedConstituents(types, order, ids);
      && SortedBy(sorted, PlaceIn(order))
      && forall i, j | 0 <= i < |sorted| && 0 <= j < |sorted| && Place(order, sorted[i]) < 0 <= Place(order, sorted[j]) :: i < j
  {
    SortByOrdering(Resolve(types, ids), PlaceIn(order), 0);
  }

  /** In a name, constituents with the same place in the canonical order keep their input order. */
  lemma NameStable(types: seq<BidType>, order: seq<string>, ids: seq<int>, k: int)
    ensures Filter(SortedConstituents(types, order, ids), KeyIs(PlaceIn(order), k))
         == Filter(Resolve(types, ids), KeyIs(PlaceIn(order), k))
  {
    SortByStable(Resolve(types, ids), PlaceIn(order), k);
  }

  /** `a` and `b` differ at some position both have. */
  ghost predicate Diverges(a: string, b: string) {
    exists k | 0 <= k < |a| && k < |b| :: a[k] != b[k]
  }

  /** A string that starts with `a` does not start with `b` when `a` and `b` diverge. */
  lemma DivergentPrefix(s: string, a: string, b: string)
    requires StartsWith(s, a) && Diverges(a, b)
    ensures !StartsWith(s, b)
  {
    var k :| 0 <= k < |a| && k < |b| && a[k] != b[k];
    assert s[k] == a[k];
  }

  /** A joined name whose first segment is empty or diverges from "Piros " does not start with it. */
  lemma JoinNotRed(segs: seq<string>)
    requires |segs| == 0 || segs[0] == "" || Diverges(segs[0], RedPrefix)
    ensures !StartsWith(Join(segs, NameSeparator), RedPrefix)
  {
    if |segs| >= 2 && segs[0] == "" {
      assert NameSeparator[0] != RedPrefix[0];
      DivergentPrefix(Join(segs, NameSeparator), segs[0] + NameSeparator, RedPrefix);
    } else if |segs| >= 1 && segs[0] != "" {
      DivergentPrefix(Join(segs, NameSeparator), segs[0], RedPrefix);
    }
  }

  /**
   When every registered name differs from "Piros " at some position within both, the
   name starts with "Piros " exactly when `isRed` is `true`: `false` and `undefined`
   both give no prefix.
   */
  lemma RedPrefixIffRed(types: seq<BidType>, order: seq<string>, ids: seq<int>, isRed: Option<bool>)
    requires forall bt | bt in types :: Diverges(bt.name, RedPrefix)
    ensures StartsWith(DecorateName(types, order, ids, isRed), RedPrefix) <==> isRed == Some(true)
  {
    var joined := Join(Segments(types, order, ids), NameSeparator);
    if isRed == Some(true) {
      assert (RedPrefix + joined)[..|RedPrefix|] == RedPrefix;
    } else {
      JoinedNotRed(types, order, ids);
    }
  }

  /** Without the prefix, a joined name never starts with "Piros ". */
  lemma JoinedNotRed(types: seq<BidType>, order: seq<string>, ids: seq<int>)
    requires forall bt | bt in types :: Diverges(bt.name, RedPrefix)
    ensures !StartsWith(Join(Segments(types, order, ids), NameSeparator), RedPrefix)
  {
    var sorted := SortedConstituents(types, order, ids);
    var segs := Segments(types, order, ids);
    if |sorted| > 0 && sorted[0].Some? {
      FirstSortedResolved(types, order, ids);
      assert segs[0] == sorted[0].value.name;
    }
    JoinNotRed(segs);
  }

  /** The first sorted constituent, when resolved, is an entry of the registry. */
  lemma FirstSortedResolved(types: seq<BidType>, order: seq<string>, ids: seq<int>)
    requires |SortedConstituents(types, order, ids)| > 0 && SortedConstituents(types, order, ids)[0].Some?
    ensures SortedConstituents(types, order, ids)[0].value in types
  {
    var resolved := Resolve(types, ids);
    var first := SortedConstituents(types, order, ids)[0];
    assert first in multiset(resolved);
    var j :| 0 <= j < |ids| && resolved[j] == first;
    assert FindBidType(types, ids[j]) == first;
  }

  /**
   When every id resolves and no registered name is empty, the name has exactly one
   non-empty segment per id.
   */
  lemma NameComplete(types: seq<BidType>, order: seq<string>, ids: seq<int>)
    requires forall j | 0 <= j < |ids| :: FindBidType(types, ids[j]).Some?
    requires forall bt | bt in types :: bt.name != ""
    ensures var segs := Segments(types, order, ids);
      |segs| == |ids| && forall k | 0 <= k < |segs| :: segs[k] != ""
  {
    var resolved := Resolve(types, ids);
    var sorted := SortedConstituents(types, order, ids);
    forall k | 0 <= k < |sorted|
      ensures Segment(sorted[k]) != ""
    {
      assert sorted[k] in multiset(resolved);
      var j :| 0 <= j < |resolved| && resolved[j] == sorted[k];
    }
  }

  /**
   When no two distinct constituents share a place, the name does not depend on the
   order of the ids.
   */
  lemma NameIgnoresOrder(types: seq<BidType>, order: seq<string>, p: seq<int>, q: seq<int>, isRed: Option<bool>)
    requires multiset(p) == multiset(q)
    requires forall a, b | a in Resolve(types, p) && b in Resolve(types, p) :: Place(order, a) == Place(order, b) ==> a == b
    ensures DecorateName(types, order, p, isRed) == DecorateName(types, order, q, isRed)
  {
    SegmentsIgnoreOrder(types, order, p, q);
  }

  /** The sorted constituents of ids with the same constituents are the same, when no two share a place. */
  lemma SegmentsIgnoreOrder(types: seq<BidType>, order: seq<string>, p: seq<int>, q: seq<int>)
    requires multiset(p) == multiset(q)
    requires forall a, b | a in Resolve(types, p) && b in Resolve(types, p) :: Place(order, a) == Place(order, b) ==> a == b
    ensures Segments(types, order, p) == Segments(types, order, q)
  {
    MapPermutation(p, q, Lookup(types));
    SortByIgnoresInputOrder(Resolve(types, p), Resolve(types, q), PlaceIn(order));
  }

  /** Constituents that already come in strictly increasing place are left where they are. */
  lemma SortedInputKept(types: seq<BidType>, order: seq<string>, ids: seq<int>)
    requires forall i, j | 0 <= i < j < |ids| :: Place(order, Resolve(types, ids)[i]) < Place(order, Resolve(types, ids)[j])
    ensures SortedConstituents(types, order, ids) == Resolve(types, ids)
  {
    StrictlySortedKept(Resolve(types, ids), PlaceIn(order));
  }

  /** The names of some bid types, in their order. */
  function Names(ts: seq<BidType>): (r: seq<string>)
    ensures |r| == |ts| && forall k | 0 <= k < |ts| :: r[k] == ts[k].name
  {
    Map(ts, (t: BidType) => t.name)
  }

  /** The scores of some bid types, in their order. */
  function Scores(ts: seq<BidType>): (r: seq<nat>)
    ensures |r| == |ts| && forall k | 0 <= k < |ts| :: r[k] == ts[k].score
  {
    Map(ts, (t: BidType) => t.score)
  }

  /** Ids that resolve, the `j`-th to `ts[j]`, score the sum of the scores of `ts`. */
  lemma ResolvedScore(types: seq<BidType>, ids: seq<int>, ts: seq<BidType>)
    requires |ts| == |ids|
    requires forall j | 0 <= j < |ts| :: Lookup(types)(ids[j]) == Some(ts[j])
    ensures ScoreSum(types, ids) == Sum(Scores(ts))
  {
    var cs := Map(ids, ContributionOf(types));
    forall j | 0 <= j < |ids|
      ensures cs[j] == ts[j].score
    {
      assert FindBidType(types, ids[j]) == Some(ts[j]);
    }
    assert cs == Scores(ts);
  }

  /**
   Ids that resolve, the `j`-th to `ts[j]`, in strictly increasing place give the names
   of `ts` in the order given.
   */
  lemma InOrderSegments(types: seq<BidType>, order: seq<string>, ids: seq<int>, ts: seq<BidType>)
    requires |ts| == |ids|
    requires forall j | 0 <= j < |ts| :: Lookup(types)(ids[j]) == Some(ts[j])
    requires forall i, j | 0 <= i < j < |ts| :: Place(order, Some(ts[i])) < Place(order, Some(ts[j]))
    ensures Segments(types, order, ids) == Names(ts)
  {
    var resolved := Resolve(types, ids);
    assert forall j | 0 <= j < |ids| :: resolved[j] == Some(ts[j]);
    SortedInputKept(types, order, ids);
    assert Map(resolved, Segment) == Names(ts);
  }

  /**
   When every constituent id resolves, the `j`-th to `ts[j]`, and the constituents already
   follow the canonical order, the name joins their names in the order given (after
   "Piros " for a red bid) and the score is the decimal form of the sum of their scores.
   */
  lemma InOrderDecoration(types: seq<BidType>, order: seq<string>, raw: RawBid, ts: seq<BidType>)
    requires |ts| == |raw.bidTypeIds|
    requires forall j | 0 <= j < |ts| :: Lookup(types)(raw.bidTypeIds[j]) == Some(ts[j])
    requires forall i, j | 0 <= i < j < |ts| :: Place(order, Some(ts[i])) < Place(order, Some(ts[j]))
    ensures var b := DecorateBid(types, order, raw);
      && b.name == Coloured(raw.isRed, Join(Names(ts), NameSeparator))
      && b.score == NatToString(Sum(Scores(ts)))
  {
    InOrderSegments(types, order, raw.bidTypeIds, ts);
    ResolvedScore(types, raw.bidTypeIds, ts);
  }

  /** Two bid types in a row: their names joined once, their scores added. */
  lemma PairNamesScores(t: BidType, u: BidType)
    ensures Join(Names([t, u]), NameSeparator) == t.name + NameSeparator + u.name
    ensures Sum(Scores([t, u])) == t.score + u.score
  {
    assert Names([t, u]) == [t.name, u.name];
    assert Names([t, u])[1..] == [u.name];
    assert Scores([t, u]) == [t.score, u.score];
    assert Scores([t, u])[1..] == [u.score];
    assert Sum([u.score]) == u.score;
  }

  /** Three bid types in a row: their names joined twice, their scores added. */
  lemma TripleNamesScores(t: BidType, u: BidType, v: BidType)
    ensures Join(Names([t, u, v]), NameSeparator) == t.name + NameSeparator + u.name + NameSeparator + v.name
    ensures Sum(Scores([t, u, v])) == t.score + u.score + v.score
  {
    PairNamesScores(u, v);
    assert Names([t, u, v]) == [t.name, u.name, v.name];
    assert Names([t, u, v])[1..] == Names([u, v]);
    assert Scores([t, u, v]) == [t.score, u.score, v.score];
    assert Scores([t, u, v])[1..] == Scores([u, v]);
  }

  /** `InOrderDecoration` for a combination of two bid types. */
  lemma InOrderPairJoined(types: seq<BidType>, order: seq<string>, raw: RawBid, t: BidType, u: BidType)
    requires |raw.bidTypeIds| == 2
    requires Lookup(types)(raw.bidTypeIds[0]) == Some(t) && Lookup(types)(raw.bidTypeIds[1]) == Some(u)
    requires Place(order, Some(t)) < Place(order, Some(u))
    ensures var b := DecorateBid(types, order, raw);
      b.name == Coloured(raw.isRed, Join(Names([t, u]), NameSeparator)) && b.score == NatToString(Sum(Scores([t, u])))
  {
    var ts := [t, u];
    forall j | 0 <= j < |ts|
      ensures Lookup(types)(raw.bidTypeIds[j]) == Some(ts[j])
    {
    }
    InOrderDecoration(types, order, raw, ts);
  }

  /**
   A combination of two registered bid types given in canonical order is named
   "first - second" (after "Piros " for a red bid) and scores the sum of the two.
   */
  lemma InOrderPair(types: seq<BidType>, order: seq<string>, raw: RawBid, t: BidType, u: BidType)
    requires |raw.bidTypeIds| == 2
    requires Lookup(types)(raw.bidTypeIds[0]) == Some(t) && Lookup(types)(raw.bidTypeIds[1]) == Some(u)
    requires Place(order, Some(t)) < Place(order, Some(u))
    ensures var b := DecorateBid(types, order, raw);
      && b.name == Coloured(raw.isRed, t.name + NameSeparator + u.name)
      && b.score == NatToString(t.score + u.score)
  {
    InOrderPairJoined(types, order, raw, t, u);
    PairText(DecorateBid(types, order, raw), raw.isRed, t, u);
  }

  /** A bid named and scored after a pair of bid types, in plain text. */
  lemma PairText(b: Bid, isRed: Option<bool>, t: BidType, u: BidType)
    requires b.name == Coloured(isRed, Join(Names([t, u]), NameSeparator))
    requires b.score == NatToString(Sum(Scores([t, u])))
    ensures b.name == Coloured(isRed, t.name + NameSeparator + u.name)
    ensures b.score == NatToString(t.score + u.score)
  {
    PairNamesScores(t, u);
  }

  /** `InOrderDecoration` for a combination of three bid types. */
  lemma InOrderTripleJoined(types: seq<BidType>, order: seq<string>, raw: RawBid, t: BidType, u: BidType, v: BidType)
    requires |raw.bidTypeIds| == 3
    requires Lookup(types)(raw.bidTypeIds[0]) == Some(t) && Lookup(types)(raw.bidTypeIds[1]) == Some(u)
    requires Lookup(types)(raw.bidTypeIds[2]) == Some(v)
    requires Place(order, Some(t)) < Place(order, Some(u)) < Place(order, Some(v))
    ensures var b := DecorateBid(types, order, raw);
      b.name == Coloured(raw.isRed, Join(Names([t, u, v]), NameSeparator)) && b.score == NatToString(Sum(Scores([t, u, v])))
  {
    var ts := [t, u, v];
    forall j | 0 <= j < |ts|
      ensures Lookup(types)(raw.bidTypeIds[j]) == Some(ts[j])
    {
    }
    InOrderDecoration(types, order, raw, ts);
  }

  /**
   A combination of three registered bid types given in canonical order is named
   "first - second - third" (after "Piros " for a red bid) and scores the sum of the three.
   */
  lemma InOrderTriple(types: seq<BidType>, order: seq<string>, raw: RawBid, t: BidType, u: BidType, v: BidType)
    requires |raw.bidTypeIds| == 3
    requires Lookup(types)(raw.bidTypeIds[0]) == Some(t) && Lookup(types)(raw.bidTypeIds[1]) == Some(u)
    requires Lookup(types)(raw.bidTypeIds[2]) == Some(v)
    requires Place(order, Some(t)) < Place(order, Some(u)) < Place(order, Some(v))
    ensures var b := DecorateBid(types, order, raw);
      && b.name == Coloured(raw.isRed, t.name + NameSeparator + u.name + NameSeparator + v.name)
      && b.score == NatToString(t.score + u.score + v.score)
  {
    InOrderTripleJoined(types, order, raw, t, u, v);
    TripleText(DecorateBid(types, order, raw), raw.isRed, t, u, v);
  }

  /** A bid named and scored after three bid types, in plain text. */
  lemma TripleText(b: Bid, isRed: Option<bool>, t: BidType, u: BidType, v: BidType)
    requires b.name == Coloured(isRed, Join(Names([t, u, v]), NameSeparator))
    requires b.score == NatToString(Sum(Scores([t, u, v])))
    ensures b.name == Coloured(isRed, t.name + NameSeparator + u.name + NameSeparator + v.name)
    ensures b.score == NatToString(t.score + u.score + v.score)
  {
    TripleNamesScores(t, u, v);
  }
}
