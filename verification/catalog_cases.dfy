/**
 Worked entries of the decorated catalog `BIDS`: what `decorateBid` makes of particular
 rows of the shipped tables, derived from the generic properties of `Decoration`.
 */
module CatalogCases {
  import opened Wrappers
  import opened Seqs
  import opened Strings
  import opened Decoration
  import opened GameData

  /** Each entry of `BIDS` is its catalog row decorated. */
  lemma ShippedBid(i: int)
    requires 0 <= i < |BidsDefault|
    ensures |Bids()| == |BidsDefault| == 54
    ensures Bids()[i] == DecorateBid(BidTypes, BidTypeOrder, BidsDefault[i])
  {
  }

  /** Combination 6, Betli: an unlisted single bid type whose `isRed` is `undefined`. */
  lemma Betli()
    ensures Bids()[5].id == 6 && Bids()[5].bidTypeIds == [5] && Bids()[5].isRed == None
    ensures Bids()[5].name == "Betli" && Bids()[5].score == "5"
  {
    SampleRows();
    BetliDecorated(6);
    ShippedBid(5);
  }

  /** The catalog rows the worked entries start from. */
  lemma SampleRows()
    ensures BidsDefault[5] == RawBid(6, [5], None)
    ensures BidsDefault[10] == RawBid(11, [2], Some(true))
    ensures BidsDefault[31] == RawBid(32, [2], Some(true))
  {
    assert BidsDefault[5] == BidsDefault1To10[5];
    assert BidsDefault[10] == BidsDefault11To20[0];
    assert BidsDefault[31] == BidsDefault31To40[1];
  }

  /** A combination of the single bid type Betli (5) is named "Betli" and scores 5, whatever its id. */
  lemma BetliDecorated(id: int)
    ensures var b := DecorateBid(BidTypes, BidTypeOrder, RawBid(id, [5], None));
      b.name == "Betli" && b.score == "5"
  {
    var t := BidTypes[4];
    assert t == BidType(5, "Betli", 5);
    LookupRegistered(5);
    InOrderDecoration(BidTypes, BidTypeOrder, RawBid(id, [5], None), [t]);
    JoinedOne(t);
    assert NatToString(5) == "5";
  }

  /** Combinations 11 and 32 have the same constituents and colour, so they differ only in id. */
  lemma IdenticalCombinations()
    ensures Bids()[10].id == 11 && Bids()[31].id == 32
    ensures Bids()[10].bidTypeIds == Bids()[31].bidTypeIds == [2]
    ensures Bids()[10].isRed == Bids()[31].isRed == Some(true)
    ensures Bids()[10].name == Bids()[31].name == RedPrefix + "40-100"
    ensures Bids()[10].score == Bids()[31].score == "4"
  {
    SampleRows();
    RedFortyHundredDecorated(11);
    RedFortyHundredDecorated(32);
    ShippedBid(10);
    ShippedBid(31);
  }

  /** A red combination of the single bid type 40-100 (2) is named "Piros 40-100" and scores 4, whatever its id. */
  lemma RedFortyHundredDecorated(id: int)
    ensures var b := DecorateBid(BidTypes, BidTypeOrder, RawBid(id, [2], Some(true)));
      b.name == RedPrefix + "40-100" && b.score == "4"
  {
    var t := BidTypes[1];
    assert t == BidType(2, "40-100", 4);
    LookupRegistered(2);
    InOrderDecoration(BidTypes, BidTypeOrder, RawBid(id, [2], Some(true)), [t]);
    JoinedOne(t);
    assert NatToString(4) == "4";
  }

  /** A single bid type's name and score stand alone. */
  lemma JoinedOne(t: BidType)
    ensures Join(Names([t]), NameSeparator) == t.name && Sum(Scores([t])) == t.score
  {
    assert Names([t]) == [t.name];
    assert Scores([t]) == [t.score];
  }

  /** Ulti (4) is registered and sorts third. */
  lemma UltiEntry()
    ensures LookupShipped(4) == Some(BidType(4, "Ulti", 4))
    ensures Place(BidTypeOrder, Some(BidType(4, "Ulti", 4))) == 2
  {
    LookupRegistered(4);
    ListedOrderKey(4);
  }

  /** Négy ász (3) is registered and sorts fourth. */
  lemma NegyAszEntry()
    ensures LookupShipped(3) == Some(BidType(3, "Négy ász", 4))
    ensures Place(BidTypeOrder, Some(BidType(3, "Négy ász", 4))) == 3
  {
    LookupRegistered(3);
    ListedOrderKey(3);
  }

  /** Parti (1) is registered and sorts sixth. */
  lemma PartiEntry()
    ensures LookupShipped(1) == Some(BidType(1, "Parti", 1))
    ensures Place(BidTypeOrder, Some(BidType(1, "Parti", 1))) == 5
  {
    LookupRegistered(1);
    ListedOrderKey(1);
  }

  lemma UltiPartiText()
    ensures "Ulti" + NameSeparator + "Parti" == "Ulti - Parti"
  {
  }

  lemma UltiNegyAszPartiText()
    ensures "Ulti" + NameSeparator + "Négy ász" + NameSeparator + "Parti" == "Ulti - Négy ász - Parti"
  {
  }

  /** A combination of Ulti and Parti, listed in that order, is named "Ulti - Parti" and scores 5. */
  lemma UltiPartiDecorated(id: int, isRed: Option<bool>)
    ensures var b := DecorateBid(BidTypes, BidTypeOrder, RawBid(id, [4, 1], isRed));
      && b.name == Coloured(isRed, "Ulti - Parti") && b.score == "5"
  {
    UltiEntry();
    PartiEntry();
    InOrderPair(BidTypes, BidTypeOrder, RawBid(id, [4, 1], isRed), BidType(4, "Ulti", 4), BidType(1, "Parti", 1));
    UltiPartiText();
    assert NatToString(5) == "5";
  }

  /** A combination of Ulti, Négy ász and Parti, listed in that order, is named "Ulti - Négy ász - Parti" and scores 9. */
  lemma UltiNegyAszPartiDecorated(id: int, isRed: Option<bool>)
    ensures var b := DecorateBid(BidTypes, BidTypeOrder, RawBid(id, [4, 3, 1], isRed));
      && b.name == Coloured(isRed, "Ulti - Négy ász - Parti") && b.score == "9"
  {
    UltiEntry();
    NegyAszEntry();
    PartiEntry();
    InOrderTriple(BidTypes, BidTypeOrder, RawBid(id, [4, 3, 1], isRed),
      BidType(4, "Ulti", 4), BidType(3, "Négy ász", 4), BidType(1, "Parti", 1));
    UltiNegyAszPartiText();
    assert NatToString(9) == "9";
  }

  /** The catalog rows of the multi-type worked entries. */
  lemma MultiRows()
    ensures BidsDefault[4] == RawBid(5, [4, 1], Some(false))
    ensures BidsDefault[12] == RawBid(13, [4, 3, 1], Some(false))
    ensures BidsDefault[14] == RawBid(15, [4, 1], Some(true))
  {
    assert BidsDefault[4] == BidsDefault1To10[4];
    assert BidsDefault[12] == BidsDefault11To20[2];
    assert BidsDefault[14] == BidsDefault11To20[4];
  }

  /** Combination 5 is Ulti with Parti, not red: named "Ulti - Parti", scoring 5. */
  lemma UltiParti()
    ensures Bids()[4].name == "Ulti - Parti" && Bids()[4].score == "5"
  {
    MultiRows();
    ShippedBid(4);
    UltiPartiDecorated(5, Some(false));
  }

  /** Combination 15 is the red Ulti with Parti: the same name under the red prefix, the same score 5. */
  lemma RedUltiParti()
    ensures Bids()[14].name == RedPrefix + "Ulti - Parti" && Bids()[14].score == "5"
  {
    MultiRows();
    ShippedBid(14);
    UltiPartiDecorated(15, Some(true));
  }

  /** Combination 13 puts Négy ász between Ulti and Parti and scores 4 + 4 + 1 = 9. */
  lemma UltiNegyAszParti()
    ensures Bids()[12].name == "Ulti - Négy ász - Parti" && Bids()[12].score == "9"
  {
    MultiRows();
    ShippedBid(12);
    UltiNegyAszPartiDecorated(13, Some(false));
  }
}
