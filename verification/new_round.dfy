/**
 The draft of a new round (`NewRound`): the record the component keeps in state while
 the user picks a bid combination, the attacker, the defenders, the won bids, the
 contras and the silent bids, and the pure updaters its handlers pass to `setRoundData`.
 */
module NewRound {
  import opened Wrappers
  import opened Seqs
  import opened Strings

  /** One bid of a combination. */
  datatype Licit = Licit(id: string, name: string, baseValue: int)

  /** A bid combination offered in the dropdown. */
  datatype LicitCombination = LicitCombination(id: string, name: string, description: string, licits: seq<Licit>)

  /** A silent bid a player has announced. */
  datatype SilentLicit = SilentLicit(id: string, name: string, playerId: int, value: int)

  /** The state the component builds; `null` is `None`. */
  datatype Draft = Draft(
    licitCombination: Option<LicitCombination>,
    attackerId: Option<int>,
    defenderIds: seq<int>,
    wonLicits: seq<string>,
    contras: seq<string>,
    silentLicits: seq<SilentLicit>)

  /** The initial state: nothing chosen. */
  const Initial: Draft := Draft(None, None, [], [], [], [])

  /** The name and value every silent bid gets. */
  const SilentName: string := "Csendes 100"
  const SilentValue: int := 10

  /** `handleLicitCombinationSelect`: choosing a combination clears the won bids and the contras. */
  function SelectCombination(d: Draft, c: LicitCombination): (r: Draft)
    ensures r.licitCombination == Some(c) && r.wonLicits == [] && r.contras == []
    ensures r.attackerId == d.attackerId && r.defenderIds == d.defenderIds && r.silentLicits == d.silentLicits
  {
    d.(licitCombination := Some(c), wonLicits := [], contras := [])
  }

  /**
   `handleAttackerSelect`: the player becomes the attacker and stops being a defender;
   every other defender stays, in the same order.
   */
  function SelectAttacker(d: Draft, playerId: int): (r: Draft)
    ensures r.attackerId == Some(playerId) && playerId !in r.defenderIds
    ensures forall id | id != playerId :: multiset(r.defenderIds)[id] == multiset(d.defenderIds)[id]
    ensures SubseqOf(r.defenderIds, d.defenderIds)
    ensures r.licitCombination == d.licitCombination && r.wonLicits == d.wonLicits
    ensures r.contras == d.contras && r.silentLicits == d.silentLicits
  {
    d.(attackerId := Some(playerId), defenderIds := Remove(d.defenderIds, playerId))
  }

  /**
   `handleDefenderToggle`: nothing happens for the attacker; any other player is removed
   from the defenders when present and appended when not.
   */
  function ToggleDefender(d: Draft, playerId: int): (r: Draft)
    ensures d.attackerId == Some(playerId) ==> r == d
    ensures d.attackerId != Some(playerId) ==>
      && (playerId in r.defenderIds <==> playerId !in d.defenderIds)
      && (forall id | id != playerId :: id in r.defenderIds <==> id in d.defenderIds)
      && (playerId !in d.defenderIds ==> r.defenderIds == d.defenderIds + [playerId])
      && (playerId in d.defenderIds ==> SubseqOf(r.defenderIds, d.defenderIds) && |r.defenderIds| < |d.defenderIds|)
    ensures r.licitCombination == d.licitCombination && r.attackerId == d.attackerId
    ensures r.wonLicits == d.wonLicits && r.contras == d.contras && r.silentLicits == d.silentLicits
  {
    if d.attackerId == Some(playerId) then d
    else d.(defenderIds := Toggle(d.defenderIds, playerId))
  }

  /** `handleWonLicitToggle`: flips one bid in the won list and touches nothing else. */
  function ToggleWonLicit(d: Draft, licitId: string): (r: Draft)
    ensures licitId in r.wonLicits <==> licitId !in d.wonLicits
    ensures forall id | id != licitId :: id in r.wonLicits <==> id in d.wonLicits
    ensures licitId !in d.wonLicits ==> r.wonLicits == d.wonLicits + [licitId]
    ensures licitId in d.wonLicits ==> SubseqOf(r.wonLicits, d.wonLicits) && |r.wonLicits| < |d.wonLicits|
    ensures r.licitCombination == d.licitCombination && r.attackerId == d.attackerId
    ensures r.defenderIds == d.defenderIds && r.contras == d.contras && r.silentLicits == d.silentLicits
  {
    d.(wonLicits := Toggle(d.wonLicits, licitId))
  }

  /** `handleContraToggle`: flips one bid in the contra list and touches nothing else. */
  function ToggleContra(d: Draft, licitId: string): (r: Draft)
    ensures licitId in r.contras <==> licitId !in d.contras
    ensures forall id | id != licitId :: id in r.contras <==> id in d.contras
    ensures licitId !in d.contras ==> r.contras == d.contras + [licitId]
    ensures licitId in d.contras ==> SubseqOf(r.contras, d.contras) && |r.contras| < |d.contras|
    ensures r.licitCombination == d.licitCombination && r.attackerId == d.attackerId
    ensures r.defenderIds == d.defenderIds && r.wonLicits == d.wonLicits && r.silentLicits == d.silentLicits
  {
    d.(contras := Toggle(d.contras, licitId))
  }

  /** The silent bid a player announces: id "csendes-100-" followed by the player id. */
  function SilentLicitOf(playerId: int): (s: SilentLicit)
    ensures s.playerId == playerId && s.name == SilentName && s.value == SilentValue
  {
    SilentLicit("csendes-100-" + IntToString(playerId), SilentName, playerId, SilentValue)
  }

  /** Different players' silent bids have different ids. */
  lemma SilentLicitIdsDistinct(p: int, q: int)
    requires p != q
    ensures SilentLicitOf(p).id != SilentLicitOf(q).id
  {
    var prefix := "csendes-100-";
    if SilentLicitOf(p).id == SilentLicitOf(q).id {
      assert (prefix + IntToString(p))[|prefix|..] == IntToString(p);
      assert (prefix + IntToString(q))[|prefix|..] == IntToString(q);
      IntToStringInjective(p, q);
    }
  }

  /** The owner of a silent bid. */
  function Owner(sl: SilentLicit): int {
    sl.playerId
  }

  /** Whether some silent bid belongs to the player (`some((sl) => sl.playerId === playerId)`). */
  predicate HasSilent(s: seq<SilentLicit>, playerId: int) {
    HasKey(s, Owner, playerId)
  }

  /**
   `handleSilentLicitToggle`: a player with a silent bid loses every silent bid of theirs,
   the others kept in order; a player without one gains exactly one, appended.
   */
  function ToggleSilentLicit(d: Draft, playerId: int): (r: Draft)
    ensures HasSilent(d.silentLicits, playerId) ==>
      && SubseqOf(r.silentLicits, d.silentLicits)
      && forall sl :: sl in r.silentLicits <==> sl in d.silentLicits && sl.playerId != playerId
    ensures !HasSilent(d.silentLicits, playerId) ==> r.silentLicits == d.silentLicits + [SilentLicitOf(playerId)]
    ensures HasSilent(r.silentLicits, playerId) <==> !HasSilent(d.silentLicits, playerId)
    ensures r.licitCombination == d.licitCombination && r.attackerId == d.attackerId
    ensures r.defenderIds == d.defenderIds && r.wonLicits == d.wonLicits && r.contras == d.contras
  {
    if HasSilent(d.silentLicits, playerId) then
      d.(silentLicits := WithoutKey(d.silentLicits, Owner, playerId))
    else
      var added := d.silentLicits + [SilentLicitOf(playerId)];
      assert Owner(added[|added| - 1]) == playerId;
      d.(silentLicits := added)
  }

  /**
   `canSave`: a combination is chosen, an attacker is chosen, and there are at least two
   defenders; in a valid draft that means at least three different players take part.
   */
  function CanSave(d: Draft): (b: bool)
    ensures b ==> d.attackerId.Some? && (Valid(d) ==> |{d.attackerId.value} + set x | x in d.defenderIds| >= 3)
  {
    ThreePlayers(d);
    d.licitCombination.Some? && d.attackerId.Some? && |d.defenderIds| >= 2
  }

  /** An attacker and two defenders of a valid draft are three different players. */
  lemma ThreePlayers(d: Draft)
    ensures d.attackerId.Some? && |d.defenderIds| >= 2 && Valid(d) ==>
      |{d.attackerId.value} + set x | x in d.defenderIds| >= 3
  {
    if d.attackerId.Some? && |d.defenderIds| >= 2 && Valid(d) {
      var a, u, v := d.attackerId.value, d.defenderIds[0], d.defenderIds[1];
      var s := set x | x in d.defenderIds;
      assert u in s && v in s;
      assert a != u && a != v && u != v;
      assert |{a, u} + {v}| == 3 by {
        assert |{a} + {u}| == 2;
      }
      var three, all := {a, u} + {v}, {a} + s;
      assert three <= all;
      assert all == three + (all - three);
      assert three * (all - three) == {};
    }
  }

  /** `handleSave`: the draft handed to `onSave`, or nothing when it cannot be saved. */
  function Save(d: Draft): (r: Option<Draft>)
    ensures r.Some? <==> CanSave(d)
    ensures r.Some? ==> r.value == d
  {
    if CanSave(d) then Some(d) else None
  }

  /** At most one silent bid per player, and no silent bid twice. */
  ghost predicate OnePerPlayer(s: seq<SilentLicit>) {
    KeyUnique(s, Owner)
  }

  /**
   The draft invariant: no defender twice, the attacker never a defender, no bid won or
   contra'd twice, at most one silent bid per player.
   */
  ghost predicate Valid(d: Draft) {
    && NoDup(d.defenderIds)
    && (d.attackerId.Some? ==> d.attackerId.value !in d.defenderIds)
    && NoDup(d.wonLicits)
    && NoDup(d.contras)
    && OnePerPlayer(d.silentLicits)
  }

  /** A user action on the form. */
  datatype Event =
    | ChooseCombination(combination: LicitCombination)
    | ChooseAttacker(attacker: int)
    | FlipDefender(defender: int)
    | FlipWonLicit(wonId: string)
    | FlipContra(contraId: string)
    | FlipSilentLicit(silentPlayer: int)

  /** The updater a handler applies for an action. */
  function Apply(d: Draft, e: Event): Draft {
    match e
    case ChooseCombination(c) => SelectCombination(d, c)
    case ChooseAttacker(p) => SelectAttacker(d, p)
    case FlipDefender(p) => ToggleDefender(d, p)
    case FlipWonLicit(l) => ToggleWonLicit(d, l)
    case FlipContra(l) => ToggleContra(d, l)
    case FlipSilentLicit(p) => ToggleSilentLicit(d, p)
  }

  /** The draft after a sequence of actions from the initial state. */
  function Run(events: seq<Event>): Draft {
    if |events| == 0 then Initial else Apply(Run(events[..|events| - 1]), events[|events| - 1])
  }

  /** The silent-bid toggle keeps at most one silent bid per player. */
  lemma SilentToggleOnePerPlayer(d: Draft, playerId: int)
    requires OnePerPlayer(d.silentLicits)
    ensures OnePerPlayer(ToggleSilentLicit(d, playerId).silentLicits)
  {
    if !HasSilent(d.silentLicits, playerId) {
      AppendKeyUnique(d.silentLicits, SilentLicitOf(playerId), Owner);
    }
  }

  /** Every handler keeps the draft invariant. */
  lemma ApplyValid(d: Draft, e: Event)
    requires Valid(d)
    ensures Valid(Apply(d, e))
  {
    match e
    case ChooseAttacker(p) =>
    case FlipDefender(p) =>
    case FlipSilentLicit(p) =>
      SilentToggleOnePerPlayer(d, p);
    case _ =>
  }

  /**
   Whatever the user does, starting from the empty form: no defender twice, the attacker
   never among the defenders, at most one silent bid per player.
   */
  lemma {:induction false} RunValid(events: seq<Event>)
    ensures Valid(Run(events))
  {
    if |events| > 0 {
      RunValid(events[..|events| - 1]);
      ApplyValid(Run(events[..|events| - 1]), events[|events| - 1]);
    }
  }

  /**
   A draft that can be saved, whatever actions led to it, names at least three different
   players: the attacker and two defenders.
   */
  lemma SavedDraftHasThreePlayers(events: seq<Event>)
    ensures var d := Run(events);
      Save(d).Some? ==>
        && d.defenderIds[0] != d.defenderIds[1]
        && d.attackerId.value != d.defenderIds[0]
        && d.attackerId.value != d.defenderIds[1]
  {
    RunValid(events);
  }

  /** Flipping a bid that is not won twice restores the draft. */
  lemma WonLicitToggleTwice(d: Draft, licitId: string)
    requires licitId !in d.wonLicits
    ensures ToggleWonLicit(ToggleWonLicit(d, licitId), licitId) == d
  {
    ToggleTwiceAbsent(d.wonLicits, licitId);
  }

  /** Flipping a contra that is not set twice restores the draft. */
  lemma ContraToggleTwice(d: Draft, licitId: string)
    requires licitId !in d.contras
    ensures ToggleContra(ToggleContra(d, licitId), licitId) == d
  {
    ToggleTwiceAbsent(d.contras, licitId);
  }

  /** Flipping a defender who is neither the attacker nor a defender twice restores the draft. */
  lemma DefenderToggleTwice(d: Draft, playerId: int)
    requires playerId !in d.defenderIds
    ensures ToggleDefender(ToggleDefender(d, playerId), playerId) == d
  {
    if d.attackerId != Some(playerId) {
      ToggleTwiceAbsent(d.defenderIds, playerId);
    }
  }

  /** Flipping the silent bid of a player without one twice restores the draft. */
  lemma SilentToggleTwice(d: Draft, playerId: int)
    requires !HasSilent(d.silentLicits, playerId)
    ensures ToggleSilentLicit(ToggleSilentLicit(d, playerId), playerId) == d
  {
    var s := d.silentLicits;
    var x := SilentLicitOf(playerId);
    assert Owner((s + [x])[|s|]) == playerId;
    FilterConcat(s, [x], KeyDiffers(Owner, playerId));
    FilterSingleton(x, KeyDiffers(Owner, playerId));
    NoKey(s, Owner, playerId);
    FilterKeepsAll(s, KeyDiffers(Owner, playerId));
  }

  /** Withdrawing a won bid leaves its contra in place. */
  lemma WithdrawnWinKeepsContra(d: Draft, licitId: string)
    requires licitId in d.wonLicits && licitId in d.contras
    ensures licitId !in ToggleWonLicit(d, licitId).wonLicits
    ensures licitId in ToggleWonLicit(d, licitId).contras
  {
  }

  /** Choosing a new attacker never makes the draft savable by adding defenders. */
  lemma SelectAttackerShrinksDefenders(d: Draft, playerId: int)
    ensures |SelectAttacker(d, playerId).defenderIds| <= |d.defenderIds|
  {
    FilterIsSubseq(d.defenderIds, Differs(playerId));
  }
}
