/**
 The bid catalog of the score tracker as the client ships it: the registry of atomic
 bid types, the fixed list of bid combinations, the silent bids, and `BIDS`, each
 combination decorated by `decorateBid` (module `Decoration`) over this registry and the
 canonical name order. The tables are given literally, including two identical
 combinations (ids 11 and 32).
 */
module GameData {
  import opened Wrappers
  import opened Seqs
  import opened Sorting
  import opened Strings
  import opened Decoration

  /** A bid a player may declare silently. */
  datatype SilentBid = SilentBid(id: int, name: string, score: nat)

  /** `BID_TYPES`. */
  const BidTypes: seq<BidType> := [
    BidType(1, "Parti", 1),
    BidType(2, "40-100", 4),
    BidType(3, "Négy ász", 4),
    BidType(4, "Ulti", 4),
    BidType(5, "Betli", 5),
    BidType(6, "Durchmars", 6),
    BidType(7, "Színnélküli durchmars", 6),
    BidType(8, "20-100", 8),
    BidType(9, "Rebetli", 10),
    BidType(10, "Terített durchmars", 12),
    BidType(11, "Redurchmars (szín nélküli)", 12),
    BidType(12, "Terített betli", 20),
    BidType(13, "Terített színnélküli durchmars", 24)
  ]

  const BidsDefault: seq<RawBid> :=
    BidsDefault1To10 + BidsDefault11To20 + BidsDefault21To30 + BidsDefault31To40 + BidsDefault41To50 + BidsDefault51To54

  const BidsDefault1To10: seq<RawBid> := [
    RawBid(1, [1], Some(false)),
    RawBid(2, [1], Some(true)),
    RawBid(3, [2], Some(false)),
    RawBid(4, [3, 1], Some(false)),
    RawBid(5, [4, 1], Some(false)),
    RawBid(6, [5], None),
    RawBid(7, [6], Some(false)),
    RawBid(8, [7], None),
    RawBid(9, [2, 3], Some(false)),
    RawBid(10, [2, 4], Some(false))
  ]

  const BidsDefault11To20: seq<RawBid> := [
    RawBid(11, [2], Some(true)),
    RawBid(12, [8], Some(false)),
    RawBid(13, [4, 3, 1], Some(false)),
    RawBid(14, [3, 1], Some(true)),
    RawBid(15, [4, 1], Some(true)),
    RawBid(16, [2, 6], Some(false)),
    RawBid(17, [4, 6], Some(false)),
    RawBid(18, [9], None),
    RawBid(19, [2, 4, 3], Some(false)),
    RawBid(20, [8, 3], Some(false))
  ]

  const BidsDefault21To30: seq<RawBid> := [
    RawBid(21, [8, 4], Some(false)),
    RawBid(22, [6], Some(true)),
    RawBid(23, [9], Some(false)),
    RawBid(24, [8], None),
    RawBid(25, [2, 4, 6], Some(false)),
    RawBid(26, [8, 6], Some(false)),
    RawBid(27, [8, 4, 3], Some(false)),
    RawBid(28, [2, 10], Some(false)),
    RawBid(29, [4, 10], Some(false)),
    RawBid(30, [2, 3], Some(true))
  ]

  const BidsDefault31To40: seq<RawBid> := [
    RawBid(31, [2, 4], Some(true)),
    RawBid(32, [2], Some(true)),
    RawBid(33, [4, 3], Some(true)),
    RawBid(34, [8, 4, 6], Some(false)),
    RawBid(35, [2, 4, 10], Some(false)),
    RawBid(36, [8, 10], Some(false)),
    RawBid(37, [2, 6], Some(true)),
    RawBid(38, [4, 6], Some(true)),
    RawBid(39, [10], Some(false)),
    RawBid(40, [8, 4, 10], Some(false))
  ]

  const BidsDefault41To50: seq<RawBid> := [
    RawBid(41, [2, 4, 3], Some(true)),
    RawBid(42, [8, 3], Some(true)),
    RawBid(43, [8, 4], Some(true)),
    RawBid(44, [10], Some(true)),
    RawBid(45, [13], None),
    RawBid(46, [2, 4, 6], Some(true)),
    RawBid(47, [8, 6], Some(true)),
    RawBid(48, [8, 4, 3], Some(true)),
    RawBid(49, [3, 10], Some(true)),
    RawBid(50, [4, 10], Some(true))
  ]

  const BidsDefault51To54: seq<RawBid> := [
    RawBid(51, [8, 4, 6], Some(true)),
    RawBid(52, [3, 4, 10], Some(true)),
    RawBid(53, [8, 10], Some(true)),
    RawBid(54, [8, 4, 10], Some(true))
  ]

  /** `SILENT_BIDS`. */
  const SilentBids: seq<SilentBid> := [
    SilentBid(1, "100", 2),
    SilentBid(2, "Négy Ász", 2),
    SilentBid(3, "Ulti", 2),
    SilentBid(4, "Durchmars", 3)
  ]

  /** `BID_TYPE_ORDER`: the canonical order of constituent names in a composite name. */
  const BidTypeOrder: seq<string> := [
    "20-100",
    "40-100",
    "Ulti",
    "Négy ász",
    "Durchmars",
    "Parti",
    "Terített durchmars"
  ]

  /** `BIDS`: the catalog decorated entry by entry, in place. */
  function Bids(): (r: seq<Bid>)
    ensures |r| == |BidsDefault|
    ensures forall i | 0 <= i < |r| ::
      r[i].id == BidsDefault[i].id && r[i].bidTypeIds == BidsDefault[i].bidTypeIds && r[i].isRed == BidsDefault[i].isRed
  {
    DecorateAll(BidTypes, BidTypeOrder, BidsDefault)
  }

  /**
   `getBidScore`: the value the decoration writes, as a string, into the score of a bid with
   the same constituents.
   */
  function GetBidScore(bid: Bid): (s: nat)
    ensures s == ParseDecimal(DecorateBid(BidTypes, BidTypeOrder, RawBid(bid.id, bid.bidTypeIds, bid.isRed)).score)
  {
    ScoreStringIsSum(BidTypes, BidTypeOrder, RawBid(bid.id, bid.bidTypeIds, bid.isRed));
    ScoreSum(BidTypes, bid.bidTypeIds)
  }

  /** The ids of the bid types whose names appear in the canonical order. */
  const ListedIds: set<int> := {1, 2, 3, 4, 6, 8, 10}

  /** The place of each registered bid type in the canonical order, -1 when unlisted. */
  function OrderPlace(id: int): int {
    if id == 8 then 0 else if id == 2 then 1 else if id == 4 then 2 else if id == 3 then 3
    else if id == 6 then 4 else if id == 1 then 5 else if id == 10 then 6 else -1
  }

  /** The lookup of `decorateBid` and `getBidScore` in the shipped registry. */
  function LookupShipped(id: int): Option<BidType> {
    Lookup(BidTypes)(id)
  }

  /** Every id 1..13 resolves to the registry entry at position `id - 1` and adds its score. */
  lemma LookupRegistered(id: int)
    requires 1 <= id <= 13
    ensures LookupShipped(id) == Some(BidTypes[id - 1])
    ensures Contribution(BidTypes, id) == BidTypes[id - 1].score
  {
    forall j | 0 <= j < id - 1
      ensures BidTypes[j].id != id
    {
      assert j == 0 || j == 1 || j == 2 || j == 3 || j == 4 || j == 5 || j == 6
        || j == 7 || j == 8 || j == 9 || j == 10 || j == 11;
    }
    assert BidTypes[id - 1].id == id by {
      assert id == 1 || id == 2 || id == 3 || id == 4 || id == 5 || id == 6 || id == 7
        || id == 8 || id == 9 || id == 10 || id == 11 || id == 12 || id == 13;
    }
    FirstMatchWins(BidTypes, id, id - 1);
  }

  /** No id outside 1..13 resolves, so such an id names nothing and adds 0. */
  lemma LookupUnregistered(id: int)
    requires !(1 <= id <= 13)
    ensures LookupShipped(id) == None && Contribution(BidTypes, id) == 0
  {
    forall k | 0 <= k < |BidTypes|
      ensures BidTypes[k].id != id
    {
      assert k == 0 || k == 1 || k == 2 || k == 3 || k == 4 || k == 5 || k == 6 || k == 7
        || k == 8 || k == 9 || k == 10 || k == 11 || k == 12;
    }
    ContributionMissing(BidTypes, id);
  }

  lemma OrderNoDup()
    ensures NoDup(BidTypeOrder)
  {
  }

  /** A listed id sorts at its place in the canonical order. */
  lemma ListedOrderKey(id: int)
    requires id in ListedIds
    ensures Place(BidTypeOrder, LookupShipped(id)) == OrderPlace(id) >= 0
  {
    var bt := BidTypes[id - 1];
    assert bt.name == BidTypeOrder[OrderPlace(id)];
    OrderNoDup();
    IndexOfNoDup(BidTypeOrder, OrderPlace(id));
    LookupRegistered(id);
  }

  /** A registered id that is not listed sorts with key -1, in front of every listed one. */
  lemma UnlistedOrderKey(id: int)
    requires 1 <= id <= 13 && id !in ListedIds
    ensures Place(BidTypeOrder, LookupShipped(id)) == OrderPlace(id) == -1
  {
    UnlistedNameAbsent(id);
    LookupRegistered(id);
  }

  lemma UnlistedNameAbsent(id: int)
    requires 1 <= id <= 13 && id !in ListedIds
    ensures BidTypes[id - 1].name !in BidTypeOrder && OrderPlace(id) == -1
  {
    assert id == 5 || id == 7 || id == 9 || id == 11 || id == 12 || id == 13;
    var name := BidTypes[id - 1].name;
    forall k | 0 <= k < |BidTypeOrder|
      ensures BidTypeOrder[k] != name
    {
      assert k == 0 || k == 1 || k == 2 || k == 3 || k == 4 || k == 5 || k == 6;
    }
  }

  /** No registry name is empty, and each differs from "Piros " within its own length. */
  lemma RegistryNamesNotRed()
    ensures forall bt | bt in BidTypes :: bt.name != "" && Diverges(bt.name, RedPrefix)
  {
    forall i | 0 <= i < |BidTypes|
      ensures BidTypes[i].name != "" && Diverges(BidTypes[i].name, RedPrefix)
    {
      var n := BidTypes[i].name;
      assert i == 0 || i == 1 || i == 2 || i == 3 || i == 4 || i == 5 || i == 6 || i == 7
        || i == 8 || i == 9 || i == 10 || i == 11 || i == 12;
      assert |n| >= 2;
      if n[0] != 'P' {
        assert n[0] != RedPrefix[0];
      } else {
        assert n[1] != RedPrefix[1];
      }
    }
  }

  /** The name of a shipped combination starts with "Piros " exactly when its `isRed` is `true`. */
  lemma BidsRedPrefixIffRed(i: int)
    requires 0 <= i < |BidsDefault|
    ensures StartsWith(Bids()[i].name, RedPrefix) <==> BidsDefault[i].isRed == Some(true)
  {
    RegistryNamesNotRed();
    RedPrefixIffRed(BidTypes, BidTypeOrder, BidsDefault[i].bidTypeIds, BidsDefault[i].isRed);
  }

  /** The score string of a shipped combination reads back as `getBidScore` of it. */
  lemma BidsScoreMatchesGetBidScore(i: int)
    requires 0 <= i < |BidsDefault|
    ensures ParseDecimal(Bids()[i].score) == GetBidScore(Bids()[i])
  {
  }

  /** Every id in `ids` is registered. */
  predicate Registered(ids: seq<int>) {
    forall j | 0 <= j < |ids| :: 1 <= ids[j] <= 13
  }

  /** Every id in `ids` names a bid type listed in the canonical order. */
  predicate Listed(ids: seq<int>) {
    forall j | 0 <= j < |ids| :: ids[j] in ListedIds
  }

  /** A catalog row whose ids are all registered and, when it combines several bid types, all listed. */
  predicate RowWellFormed(r: RawBid) {
    Registered(r.bidTypeIds) && (|r.bidTypeIds| >= 2 ==> Listed(r.bidTypeIds))
  }

  predicate RowsWellFormed(raws: seq<RawBid>) {
    forall i | 0 <= i < |raws| :: RowWellFormed(raws[i])
  }

  /** Rows 1 to 10 of the catalog are well formed. */
  lemma BidsDefault1To10WellFormed()
    ensures RowsWellFormed(BidsDefault1To10)
  {
    forall i | 0 <= i < |BidsDefault1To10|
      ensures RowWellFormed(BidsDefault1To10[i])
    {
      assert i == 0 || i == 1 || i == 2 || i == 3 || i == 4
        || i == 5 || i == 6 || i == 7 || i == 8 || i == 9;
    }
  }

  /** Rows 11 to 20 of the catalog are well formed. */
  lemma BidsDefault11To20WellFormed()
    ensures RowsWellFormed(BidsDefault11To20)
  {
    forall i | 0 <= i < |BidsDefault11To20|
      ensures RowWellFormed(BidsDefault11To20[i])
    {
      assert i == 0 || i == 1 || i == 2 || i == 3 || i == 4
        || i == 5 || i == 6 || i == 7 || i == 8 || i == 9;
    }
  }

  /** Rows 21 to 30 of the catalog are well formed. */
  lemma BidsDefault21To30WellFormed()
    ensures RowsWellFormed(BidsDefault21To30)
  {
    forall i | 0 <= i < |BidsDefault21To30|
      ensures RowWellFormed(BidsDefault21To30[i])
    {
      assert i == 0 || i == 1 || i == 2 || i == 3 || i == 4
        || i == 5 || i == 6 || i == 7 || i == 8 || i == 9;
    }
  }

  /** Rows 31 to 40 of the catalog are well formed. */
  lemma BidsDefault31To40WellFormed()
    ensures RowsWellFormed(BidsDefault31To40)
  {
    forall i | 0 <= i < |BidsDefault31To40|
      ensures RowWellFormed(BidsDefault31To40[i])
    {
      assert i == 0 || i == 1 || i == 2 || i == 3 || i == 4
        || i == 5 || i == 6 || i == 7 || i == 8 || i == 9;
    }
  }

  /** Rows 41 to 50 of the catalog are well formed. */
  lemma BidsDefault41To50WellFormed()
    ensures RowsWellFormed(BidsDefault41To50)
  {
    forall i | 0 <= i < |BidsDefault41To50|
      ensures RowWellFormed(BidsDefault41To50[i])
    {
      assert i == 0 || i == 1 || i == 2 || i == 3 || i == 4
        || i == 5 || i == 6 || i == 7 || i == 8 || i == 9;
    }
  }

  /** Rows 51 to 54 of the catalog are well formed. */
  lemma BidsDefault51To54WellFormed()
    ensures RowsWellFormed(BidsDefault51To54)
  {
    forall i | 0 <= i < |BidsDefault51To54|
      ensures RowWellFormed(BidsDefault51To54[i])
    {
      assert i == 0 || i == 1 || i == 2 || i == 3;
    }
  }

  lemma RowsWellFormedConcat(a: seq<RawBid>, b: seq<RawBid>)
    requires RowsWellFormed(a) && RowsWellFormed(b)
    ensures RowsWellFormed(a + b)
  {
    forall i | |a| <= i < |a + b|
      ensures RowWellFormed((a + b)[i])
    {
      assert (a + b)[i] == b[i - |a|];
    }
  }

  /**
   Every row of the catalog is well formed: each constituent id is registered, and a
   combination of two or more bid types uses only bid types listed in the canonical order.
   */
  lemma ShippedRowsWellFormed()
    ensures forall i | 0 <= i < |BidsDefault| :: Registered(BidsDefault[i].bidTypeIds)
    ensures forall i | 0 <= i < |BidsDefault| && |BidsDefault[i].bidTypeIds| >= 2 :: Listed(BidsDefault[i].bidTypeIds)
  {
    BidsDefault1To10WellFormed();
    BidsDefault11To20WellFormed();
    BidsDefault21To30WellFormed();
    BidsDefault31To40WellFormed();
    BidsDefault41To50WellFormed();
    BidsDefault51To54WellFormed();
    var rows := BidsDefault1To10;
    RowsWellFormedConcat(rows, BidsDefault11To20);
    rows := rows + BidsDefault11To20;
    RowsWellFormedConcat(rows, BidsDefault21To30);
    rows := rows + BidsDefault21To30;
    RowsWellFormedConcat(rows, BidsDefault31To40);
    rows := rows + BidsDefault31To40;
    RowsWellFormedConcat(rows, BidsDefault41To50);
    rows := rows + BidsDefault41To50;
    RowsWellFormedConcat(rows, BidsDefault51To54);
    assert forall i | 0 <= i < |BidsDefault| :: RowWellFormed(BidsDefault[i]);
  }

  /** Registered ids always resolve. */
  lemma RegisteredResolve(ids: seq<int>)
    requires Registered(ids)
    ensures forall j | 0 <= j < |ids| :: FindBidType(BidTypes, ids[j]).Some?
  {
    forall j | 0 <= j < |ids|
      ensures FindBidType(BidTypes, ids[j]).Some?
    {
      LookupRegistered(ids[j]);
    }
  }

  /**
   For every shipped combination no lookup misses, so its name has exactly one
   non-empty segment per constituent id.
   */
  lemma ShippedNamesComplete(i: int)
    requires 0 <= i < |BidsDefault|
    ensures var segs := Segments(BidTypes, BidTypeOrder, BidsDefault[i].bidTypeIds);
      |segs| == |BidsDefault[i].bidTypeIds| && forall k | 0 <= k < |segs| :: segs[k] != ""
  {
    var ids := BidsDefault[i].bidTypeIds;
    ShippedRowsWellFormed();
    RegisteredResolve(ids);
    RegistryNamesNotRed();
    NameComplete(BidTypes, BidTypeOrder, ids);
  }

  /** Two listed ids with the same place are the same id. */
  lemma ListedIdsPlacesDistinct(x: int, y: int)
    requires x in ListedIds && y in ListedIds
    requires Place(BidTypeOrder, LookupShipped(x)) == Place(BidTypeOrder, LookupShipped(y))
    ensures x == y
  {
    ListedOrderKey(x);
    ListedOrderKey(y);
    OrderPlaceInjective(x, y);
  }

  lemma OrderPlaceInjective(x: int, y: int)
    requires x in ListedIds && y in ListedIds && OrderPlace(x) == OrderPlace(y)
    ensures x == y
  {
  }

  /** Among listed constituents no two distinct ones share a place in the canonical order. */
  lemma ListedPlacesDistinct(p: seq<int>)
    requires Listed(p)
    ensures forall a, b | a in Resolve(BidTypes, p) && b in Resolve(BidTypes, p) ::
      Place(BidTypeOrder, a) == Place(BidTypeOrder, b) ==> a == b
  {
    var resolved := Resolve(BidTypes, p);
    forall a, b | a in resolved && b in resolved && Place(BidTypeOrder, a) == Place(BidTypeOrder, b)
      ensures a == b
    {
      var i :| 0 <= i < |p| && resolved[i] == a;
      var j :| 0 <= j < |p| && resolved[j] == b;
      ListedIdsPlacesDistinct(p[i], p[j]);
    }
  }

  /** The name of every shipped combination is the same whatever order its ids are listed in. */
  lemma CatalogNameIgnoresOrder(i: int, p: seq<int>)
    requires 0 <= i < |BidsDefault|
    requires multiset(p) == multiset(BidsDefault[i].bidTypeIds)
    ensures DecorateName(BidTypes, BidTypeOrder, p, BidsDefault[i].isRed) == Bids()[i].name
  {
    var ids := BidsDefault[i].bidTypeIds;
    if |ids| >= 2 {
      ShippedRowsWellFormed();
      ListedPlacesDistinct(ids);
      NameIgnoresOrder(BidTypes, BidTypeOrder, ids, p, BidsDefault[i].isRed);
    } else {
      SmallPermutationEqual(p, ids);
    }
  }
}
