/**
 Player selection before a game starts (`GameSettings`): the list of selected players,
 bounded by five, toggled by player id, extended with newly created players, and the
 guard that lets a game start with at least three.
 */
module GameSettings {
  import opened Wrappers
  import opened Seqs
  import opened Strings
  import opened Players

  /** Ulti is played by at most five players ... */
  const MaxPlayers: nat := 5
  /** ... and needs at least three. */
  const MinPlayers: nat := 3

  /** `isPlayerSelected`: some selected player has this player's id. */
  predicate IsSelected(selected: seq<Player>, id: int) {
    HasKey(selected, PlayerId, id)
  }

  /**
   `handlePlayerToggle`: a selected player (matched by id) is removed and the others keep
   their order; an unselected one is appended, unless five are already selected, in which
   case nothing changes.
   */
  function TogglePlayer(selected: seq<Player>, player: Player): (r: seq<Player>)
    ensures IsSelected(r, player.id) <==> !IsSelected(selected, player.id) && |selected| < MaxPlayers
    ensures forall p: Player | p.id != player.id :: p in r <==> p in selected
    ensures IsSelected(selected, player.id) ==> SubseqOf(r, selected) && |r| < |selected|
    ensures !IsSelected(selected, player.id) && |selected| < MaxPlayers ==> r == selected + [player]
    ensures !IsSelected(selected, player.id) && |selected| >= MaxPlayers ==> r == selected
  {
    if IsSelected(selected, player.id) then
      WithoutKey(selected, PlayerId, player.id)
    else if |selected| >= MaxPlayers then
      selected
    else
      assert PlayerId((selected + [player])[|selected|]) == player.id;
      selected + [player]
  }

  /** The selection invariant: at most five players, no id twice. */
  ghost predicate ValidSelection(selected: seq<Player>) {
    |selected| <= MaxPlayers && KeyUnique(selected, PlayerId)
  }

  /** Toggling keeps the selection valid. */
  lemma TogglePlayerValid(selected: seq<Player>, player: Player)
    requires ValidSelection(selected)
    ensures ValidSelection(TogglePlayer(selected, player))
  {
    if !IsSelected(selected, player.id) && |selected| < MaxPlayers {
      AppendKeyUnique(selected, player, PlayerId);
    }
  }

  /** The selection after a sequence of toggles from the empty list. */
  function ToggleAll(players: seq<Player>): seq<Player> {
    if |players| == 0 then [] else TogglePlayer(ToggleAll(players[..|players| - 1]), players[|players| - 1])
  }

  /** However the user toggles, at most five players are selected and no id is selected twice. */
  lemma {:induction false} ToggleAllValid(players: seq<Player>)
    ensures ValidSelection(ToggleAll(players))
  {
    if |players| > 0 {
      ToggleAllValid(players[..|players| - 1]);
      TogglePlayerValid(ToggleAll(players[..|players| - 1]), players[|players| - 1]);
    }
  }

  /** Toggling an unselected player twice, below the cap, restores the selection. */
  lemma TogglePlayerTwice(selected: seq<Player>, player: Player)
    requires !IsSelected(selected, player.id) && |selected| < MaxPlayers
    ensures TogglePlayer(TogglePlayer(selected, player), player) == selected
  {
    var k := KeyDiffers(PlayerId, player.id);
    FilterConcat(selected, [player], k);
    FilterSingleton(player, k);
    NoKey(selected, PlayerId, player.id);
    FilterKeepsAll(selected, k);
  }

  /**
   `handleAddNewPlayer`: with a non-blank trimmed name and fewer than five selected, one
   player is appended: the one the server created (`created`), or, when the request
   fails (`None`), a local player whose id is the clock reading `now`. Otherwise nothing
   changes.

   The guard and the append read two different selections. The guard reads `seen`, the
   selection of the render that ran the handler. The append runs after the request has
   settled and extends `current`, the selection its updater receives. The player list
   stays usable while the request is pending, so the user may toggle players in between
   and `current` may differ from `seen`.
   */
  function AddNewPlayer(seen: seq<Player>, current: seq<Player>, name: string, created: Option<Player>, now: int): (r: seq<Player>)
    ensures Trim(name) == "" || |seen| >= MaxPlayers ==> r == current
    ensures Trim(name) != "" && |seen| < MaxPlayers ==>
      && |r| == |current| + 1 && r[..|current|] == current
      && r[|current|] == (if created.Some? then created.value else Player(now, Trim(name)))
  {
    if Trim(name) != "" && |seen| < MaxPlayers then
      var player := if created.Some? then created.value else Player(now, Trim(name));
      assert (current + [player])[..|current|] == current;
      current + [player]
    else
      current
  }

  /** A fallback player never has a blank name. */
  lemma FallbackNamed(seen: seq<Player>, current: seq<Player>, name: string, now: int)
    requires Trim(name) != "" && |seen| < MaxPlayers
    ensures var r := AddNewPlayer(seen, current, name, None, now);
      r[|r| - 1].name != "" && !AllWhitespace(r[|r| - 1].name)
  {
    var t := Trim(name);
    assert !IsJsWhitespace(t[0]);
  }

  /**
   Adding appends at most one player. When the selection did not change during the
   request, it never exceeds five and keeps ids unique when the new id is not yet
   selected; otherwise a valid selection can grow to six.
   */
  lemma AddNewPlayerValid(seen: seq<Player>, current: seq<Player>, name: string, created: Option<Player>, now: int)
    requires ValidSelection(current)
    ensures |AddNewPlayer(seen, current, name, created, now)| <= MaxPlayers + 1
    ensures seen == current ==> |AddNewPlayer(seen, current, name, created, now)| <= MaxPlayers
    ensures var r := AddNewPlayer(seen, current, name, created, now);
      seen == current && |r| == |current| + 1 && !IsSelected(current, r[|current|].id) ==> ValidSelection(r)
  {
    var r := AddNewPlayer(seen, current, name, created, now);
    if seen == current && |r| == |current| + 1 && !IsSelected(current, r[|current|].id) {
      assert r == current + [r[|current|]];
      AppendKeyUnique(current, r[|current|], PlayerId);
    }
  }

  /**
   Six players can be selected and a six-player game started: with four selected the
   user starts adding a player, selects a fifth from the list while the request is
   pending, and the added player is appended to the five.
   */
  lemma SixPlayersReachable()
    ensures var seen := [Player(1, "A"), Player(2, "B"), Player(3, "C"), Player(4, "D")];
      var current := TogglePlayer(seen, Player(5, "E"));
      var r := AddNewPlayer(seen, current, "F", None, 6);
      && ValidSelection(current)
      && |r| == MaxPlayers + 1 && KeyUnique(r, PlayerId)
      && StartGame(r) == Some(r)
  {
    var seen := [Player(1, "A"), Player(2, "B"), Player(3, "C"), Player(4, "D")];
    var current := seen + [Player(5, "E")];
    FifthSelected(seen);
    TrimSingleLetter();
    var r := current + [Player(6, "F")];
    assert AddNewPlayer(seen, current, "F", None, 6) == r;
    IncreasingIdsUnique(current);
    IncreasingIdsUnique(r);
  }

  /** Toggling a fifth player into four with smaller ids appends it. */
  lemma FifthSelected(seen: seq<Player>)
    requires seen == [Player(1, "A"), Player(2, "B"), Player(3, "C"), Player(4, "D")]
    ensures TogglePlayer(seen, Player(5, "E")) == seen + [Player(5, "E")]
  {
    assert forall y | y in seen :: y.id != 5;
  }

  lemma TrimSingleLetter()
    ensures Trim("F") == "F"
  {
    assert LeadingWhitespace("F") == 0;
    assert TrailingWhitespaceStart("F") == 1;
  }

  /** Players listed in strictly increasing id order have unique ids. */
  lemma IncreasingIdsUnique(s: seq<Player>)
    requires forall i, j | 0 <= i < j < |s| :: s[i].id < s[j].id
    ensures KeyUnique(s, PlayerId)
  {
    forall a, b | a in s && b in s && a.id == b.id
      ensures a == b
    {
      var i :| 0 <= i < |s| && s[i] == a;
      var j :| 0 <= j < |s| && s[j] == b;
      assert i == j;
    }
  }

  /** `handleStartGame`: the selection handed to `onStartGame`, or nothing with fewer than three. */
  function StartGame(selected: seq<Player>): (r: Option<seq<Player>>)
    ensures r.Some? <==> |selected| >= MinPlayers
    ensures r.Some? ==> r.value == selected
  {
    if |selected| >= MinPlayers then Some(selected) else None
  }

  /** A game started after any sequence of toggles has three to five players with distinct ids. */
  lemma StartedGameSize(players: seq<Player>)
    requires StartGame(ToggleAll(players)).Some?
    ensures MinPlayers <= |StartGame(ToggleAll(players)).value| <= MaxPlayers
    ensures KeyUnique(StartGame(ToggleAll(players)).value, PlayerId)
  {
    ToggleAllValid(players);
  }
}
