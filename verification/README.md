# Ulti score keeper — a Dafny model of its game logic

The front end of an Ulti score keeper (Ulti is a Hungarian three-player card game, played
at a table of three to five) holds its rules in a few places:

- the bid catalog in `src/data/gameData.ts`:
  - the registry of thirteen atomic bid types;
  - the 54 bid combinations;
  - `decorateBid`, which names each combination after its constituents in a canonical
    order and scores it as the sum of their scores;
- the round form `NewRound`: the draft a user builds (combination, attacker, defenders,
  won bids, contras, silent bids) and the rule for when it may be saved;
- the game set-up `GameSettings`: choosing three to five players and adding new ones;
- the game screen `Game`: its initial state, the last round, a player's rank, and the
  ordering of the score table with its trophy;
- the authentication forms `Register` and `Login`: their validation rules and the way
  editing a field clears its error.

This project models those pieces as pure Dafny functions on immutable data and proves what
they promise.

## Modules

- **`Wrappers`** (`wrappers.dfy`): `Option`, for `null`/`undefined`.
- **`Seqs`** (`seqs.dfy`): the JavaScript array idioms the components use, each with its
  contract:
  - `filter` (`Filter`, `Remove`, `WithoutKey`);
  - the "includes ? filter : append" toggle (`Toggle`);
  - `some` (`HasKey`);
  - `findIndex`, `indexOf`, `map`, and `reduce` as a sum.
- **`Sorting`** (`sorting.dfy`): `Array.prototype.sort`. It is stable since ECMAScript
  2019, so it is modelled as a stable insertion sort by an integer key. A descending
  comparator `b - a` becomes the key `-value`.
- **`Strings`** (`strings.dfy`):
  - `Number.prototype.toString` for naturals and integers, with its reading-back function;
  - `Array.prototype.join`;
  - `String.prototype.trim`, using ECMAScript's whitespace set.
- **`Records`** (`records.dfy`): a JavaScript object with integer keys (`Record<number, number>`).
  - It is an association list kept in ascending key order, the order `Object.entries`
    lists array-index keys in.
  - Assignment keeps an existing key's place and inserts a new key at its place.
- **`Players`** (`players.dfy`): a player (`id`, `name`).
- **`GameData`** and **`Decoration`** (`game_data.dfy`, `decoration.dfy`):
  - the registry `BID_TYPES`, the combinations `BIDS_DEFAULT`, `SILENT_BIDS`,
    `BID_TYPE_ORDER`, `decorateBid`, `BIDS` and `getBidScore`;
  - `Decoration` is generic in the registry and the order; `GameData` instantiates it
    with the shipped tables.
- **`CatalogCases`** (`catalog_cases.dfy`): worked entries of the decorated catalog.
- **`NewRound`**, **`GameSettings`**, **`Game`**, **`Register`**, **`Login`**, **`Forms`**:
  one module per component, and `Forms` for the error-map logic both forms share.

### How the source's behaviour is rendered

- **Name and score of a combination.** `decorateBid` does the following:
  - It resolves each constituent id with `find`. An unknown id becomes `null`.
  - It stably sorts the constituents by `indexOf` of their name in the canonical order.
    A name that is not listed, and `null`, get -1 and so come first.
  - It joins the names with `" - "`. `join` renders `null` as the empty string.
  - It puts `"Piros "` in front only when `isRed` is `true`. `false` and `undefined` are
    both not red.
  - The score is the reduce over the ids **in their original order**, with 0 for an
    unknown id, turned into a decimal string.
- **State handlers.** Each handler of `NewRound` and `GameSettings` is a function from
  the previous state to the next one, as the `setState(prev => …)` updaters are. A user
  session is a sequence of such events (`NewRound.Run`, `GameSettings.ToggleAll`).
- **Initial game state.** `Date.now()` and the result of the player-creation request are
  parameters (`now`, `created`).
- **The shipped catalog.**
  - Every id in it is registered.
  - Every combination of two or more bid types uses only bid types listed in the
    canonical order, so no two constituents of one combination tie in the sort.
  - Six catalog entries name other bid types in their trailing comments than in their
    ids; the model follows the ids:
    - id 23 (`src/data/gameData.ts:63`) is Rebetli (type 9), commented as a coloured
      open durchmars;
    - id 24 (`src/data/gameData.ts:64`) is 20-100 (type 8), commented as a colourless
      redurchmars;
    - id 32 (`src/data/gameData.ts:72`) is red 40-100 (type 2), commented "piros 20-100";
    - id 39 (`src/data/gameData.ts:79`) is Terített durchmars (type 10), commented
      "terített betli";
    - id 49 (`src/data/gameData.ts:89`) is Négy ász with Terített durchmars (types 3
      and 10), commented as 20-100 with Terített durchmars;
    - id 52 (`src/data/gameData.ts:92`) is Négy ász, Ulti and Terített durchmars (types
      3, 4 and 10), commented as 40-100, Ulti and Terített durchmars.
  - Because of id 32, the catalog holds the same combination twice. Id 11 is red 40-100,
    as its comment says, and so is id 32. `CatalogCases.IdenticalCombinations` states
    that the two entries are the same bid apart from their id.

## Model

| member | source | states |
|---|---|---|
| Decoration.FindBidType | src/data/gameData.ts:115 | the first registry entry with the id, and none exactly when no entry has it |
| Decoration.FirstMatchWins | src/data/gameData.ts:114-121 | with repeated ids the first entry is the one that names and scores the constituent |
| Decoration.ContributionMissing | src/data/gameData.ts:135-138 | an id missing from the registry resolves to `null` and adds 0 to the score |
| Decoration.DecorateBid | src/data/gameData.ts:140-146 | id, constituent ids and colour are passed through unchanged; the score string consists of decimal digits |
| Decoration.DecorateAll | src/data/gameData.ts:149 | `map` keeps length and order and decorates each row in place |
| Decoration.ScoreSumAppend | src/data/gameData.ts:135-138 | the reduce adds each id's contribution to the running total |
| Decoration.ScoreIgnoresOrder | src/data/gameData.ts:135-138 | the score does not depend on the order the constituent ids are listed in |
| Decoration.ScoreStringIsSum | src/data/gameData.ts:145 | the score string reads back as the numeric sum of the contributions |
| Decoration.ResolvedScore | src/data/gameData.ts:135-138 | ids resolving to given bid types score the sum of those bid types' scores |
| Decoration.NameUnlistedFirst | src/data/gameData.ts:123-127 | constituents come out sorted by canonical place, and unlisted or unknown ones (place -1) ahead of every listed one |
| Decoration.NameStable | src/data/gameData.ts:123-127 | constituents sharing a place keep their input order (the sort is stable) |
| Decoration.SortedInputKept | src/data/gameData.ts:123-127 | constituents already in strictly increasing canonical place are not moved |
| Decoration.NameComplete | src/data/gameData.ts:129 | when every id is registered and no registered name is empty, there is one non-empty segment per id |
| Decoration.RedPrefixIffRed | src/data/gameData.ts:130-132 | the name starts with "Piros " exactly when `isRed` is `true`, provided no bid type name itself starts that way |
| Decoration.NameIgnoresOrder | src/data/gameData.ts:123-132 | when no two distinct constituents share a place, the name does not depend on the order of the ids |
| Decoration.InOrderSegments | src/data/gameData.ts:123-129 | constituents given in canonical order give their names in that order |
| Decoration.InOrderDecoration | src/data/gameData.ts:104-147 | a combination given in canonical order is named by joining its names (after "Piros " when red) and scores the decimal form of their sum |
| Decoration.InOrderPair | src/data/gameData.ts:104-147 | two registered bid types in canonical order give the name "first - second" and the sum of their scores |
| Decoration.InOrderTriple | src/data/gameData.ts:104-147 | three registered bid types in canonical order give "first - second - third" and the sum of their scores |
| GameData.LookupRegistered | src/data/gameData.ts:24-38 | every id 1 to 13 resolves to the registry entry at position id - 1 and contributes its score |
| GameData.LookupUnregistered | src/data/gameData.ts:24-38 | no other id resolves, so it names nothing and contributes 0 |
| GameData.OrderNoDup | src/data/gameData.ts:105-113 | the canonical order lists no name twice |
| GameData.ListedOrderKey | src/data/gameData.ts:105-113 | each of the seven listed bid types sorts at its own place 0 to 6 |
| GameData.UnlistedOrderKey | src/data/gameData.ts:124-125 | a registered bid type missing from the canonical order gets `indexOf` -1 |
| GameData.UnlistedNameAbsent | src/data/gameData.ts:105-113 | the six unlisted registered bid types have names absent from the canonical order |
| GameData.RegistryNamesNotRed | src/data/gameData.ts:24-38 | no registry name is empty or begins like "Piros " |
| GameData.ListedIdsPlacesDistinct | src/data/gameData.ts:105-113 | two listed bid types with the same place are the same bid type |
| GameData.ListedPlacesDistinct | src/data/gameData.ts:105-113 | among listed constituents no two distinct ones tie in the sort |
| GameData.BidsDefault1To10WellFormed | src/data/gameData.ts:41-50 | rows 1 to 10 use registered ids only, and listed ones when they combine several |
| GameData.BidsDefault11To20WellFormed | src/data/gameData.ts:51-60 | the same for rows 11 to 20 |
| GameData.BidsDefault21To30WellFormed | src/data/gameData.ts:61-70 | the same for rows 21 to 30 |
| GameData.BidsDefault31To40WellFormed | src/data/gameData.ts:71-80 | the same for rows 31 to 40 |
| GameData.BidsDefault41To50WellFormed | src/data/gameData.ts:81-90 | the same for rows 41 to 50 |
| GameData.BidsDefault51To54WellFormed | src/data/gameData.ts:91-94 | the same for rows 51 to 54 |
| GameData.ShippedRowsWellFormed | src/data/gameData.ts:40-95 | every catalog row uses registered ids, and listed ones whenever it combines two or more |
| GameData.RegisteredResolve | src/data/gameData.ts:114-121 | registered ids never resolve to `null` |
| GameData.ShippedNamesComplete | src/data/gameData.ts:114-129 | every shipped combination's name has one non-empty segment per constituent |
| GameData.BidsRedPrefixIffRed | src/data/gameData.ts:149 | a shipped name starts with "Piros " exactly when the row's `isRed` is `true` |
| GameData.Bids | src/data/gameData.ts:149 | `BIDS` has one entry per catalog row, in order, with the row's id, bid types and colour |
| GameData.GetBidScore | src/data/gameData.ts:150-155 | `getBidScore` is the number the decoration writes, as a string, into the score of a bid with the same bid types |
| GameData.BidsScoreMatchesGetBidScore | src/data/gameData.ts:150-155 | each shipped score string reads back as `getBidScore` of the entry |
| GameData.CatalogNameIgnoresOrder | src/data/gameData.ts:149 | every shipped name is the same whatever order the row's ids are listed in |
| CatalogCases.ShippedBid | src/data/gameData.ts:149 | `BIDS` has 54 entries, each its catalog row decorated |
| CatalogCases.Betli | src/data/gameData.ts:46 | combination 6, with `isRed` undefined, is named "Betli" without a prefix and scores "5" |
| CatalogCases.IdenticalCombinations | src/data/gameData.ts:51-72 | combinations 11 and 32 both decorate to "Piros 40-100" scoring "4" |
| CatalogCases.UltiParti | src/data/gameData.ts:45 | combination 5 is named "Ulti - Parti" and scores "5" |
| CatalogCases.UltiNegyAszParti | src/data/gameData.ts:53 | combination 13 is named "Ulti - Négy ász - Parti" and scores "9" |
| CatalogCases.RedUltiParti | src/data/gameData.ts:55 | combination 15 is named "Piros Ulti - Parti" and scores "5" |
| NewRound.SelectCombination | src/components/game/NewRound.tsx:78-86 | choosing a combination clears the won bids and contras and keeps the rest |
| NewRound.SelectAttacker | src/components/game/NewRound.tsx:88-95 | the chosen attacker is set and removed from the defenders, every other defender kept in order |
| NewRound.SelectAttackerShrinksDefenders | src/components/game/NewRound.tsx:92 | choosing an attacker never adds defenders |
| NewRound.ToggleDefender | src/components/game/NewRound.tsx:97-106 | toggling the attacker does nothing; otherwise the player's membership flips (appended at the end when new, removed keeping the others' order) and nothing else changes |
| NewRound.DefenderToggleTwice | src/components/game/NewRound.tsx:97-106 | toggling a non-defender twice restores the draft |
| NewRound.ToggleWonLicit | src/components/game/NewRound.tsx:108-115 | exactly the given bid's membership in the won list flips: appended at the end when new, removed keeping the others' order |
| NewRound.WonLicitToggleTwice | src/components/game/NewRound.tsx:108-115 | flipping a bid that is not won twice restores the draft |
| NewRound.ToggleContra | src/components/game/NewRound.tsx:117-124 | exactly the given bid's membership in the contra list flips: appended at the end when new, removed keeping the others' order |
| NewRound.ContraToggleTwice | src/components/game/NewRound.tsx:117-124 | flipping an unset contra twice restores the draft |
| NewRound.WithdrawnWinKeepsContra | src/components/game/NewRound.tsx:108-124 | withdrawing a won bid leaves its contra standing (the two lists are independent) |
| NewRound.SilentLicitOf | src/components/game/NewRound.tsx:133-138 | a player's silent bid is "Csendes 100", worth 10, owned by that player |
| NewRound.SilentLicitIdsDistinct | src/components/game/NewRound.tsx:134 | different players' silent bids get different ids |
| NewRound.ToggleSilentLicit | src/components/game/NewRound.tsx:126-141 | a player with a silent bid loses all of theirs, others keep theirs in order; a player without one gets one appended |
| NewRound.SilentToggleTwice | src/components/game/NewRound.tsx:126-141 | toggling twice for a player without a silent bid restores the draft |
| NewRound.SilentToggleOnePerPlayer | src/components/game/NewRound.tsx:126-141 | the toggle keeps at most one silent bid per player |
| NewRound.ApplyValid | src/components/game/NewRound.tsx:78-141 | every handler keeps the draft invariant: attacker not a defender, no duplicate defenders, bids or contras, one silent bid per player |
| NewRound.RunValid | src/components/game/NewRound.tsx:65-141 | the invariant holds after any sequence of user actions from the initial state |
| NewRound.CanSave | src/components/game/NewRound.tsx:143-149 | in a valid draft, being saveable means at least three different players take part: the attacker and two defenders |
| NewRound.Save | src/components/game/NewRound.tsx:151-155 | the draft is handed on, unchanged, exactly when a combination, an attacker and two defenders are chosen |
| NewRound.SavedDraftHasThreePlayers | src/components/game/NewRound.tsx:143-149 | a draft that can be saved names three different players: the attacker and two distinct defenders |
| GameSettings.TogglePlayer | src/components/game/GameSettings.tsx:59-72 | a selected player is deselected; an unselected one is appended below five players and ignored at five; no one else changes |
| GameSettings.TogglePlayerValid | src/components/game/GameSettings.tsx:59-72 | toggling keeps at most five players and no id twice |
| GameSettings.ToggleAllValid | src/components/game/GameSettings.tsx:59-72 | after any toggling from the empty selection there are at most five players with distinct ids |
| GameSettings.TogglePlayerTwice | src/components/game/GameSettings.tsx:59-72 | toggling an unselected player twice below the cap restores the selection |
| GameSettings.AddNewPlayer | src/components/game/GameSettings.tsx:74-95 | the guard reads the selection of the render that started the request: a blank name or five players there leave the current selection unchanged; otherwise the created player, or the fallback with the trimmed name, is appended to the current selection |
| GameSettings.FallbackNamed | src/components/game/GameSettings.tsx:86-90 | the fallback player's name is never blank |
| GameSettings.AddNewPlayerValid | src/components/game/GameSettings.tsx:74-95 | adding never yields more than six players, and never more than five when the selection did not change during the request; then distinct ids stay distinct when the new id is not already selected |
| GameSettings.SixPlayersReachable | src/components/game/GameSettings.tsx:75-90 | a fifth player toggled in while the request is pending, followed by the new player, gives a selection of six distinct players that `handleStartGame` accepts |
| GameSettings.StartGame | src/components/game/GameSettings.tsx:97-102 | the selection is handed on unchanged exactly when it has at least three players |
| GameSettings.StartedGameSize | src/components/game/GameSettings.tsx:97-102 | a game started after any toggling has three to five players with distinct ids |
| Records.Get | src/components/game/Game.tsx:129 | reading a key gives a value exactly when the key is present, and that entry's value |
| Records.Set | src/components/game/Game.tsx:27 | after assigning, the key holds the new value, every other key reads as before, and the key set grows by the key |
| Records.SetOrdered | src/components/game/Game.tsx:75 | assignment keeps the entries in the ascending key order `Object.entries` reports |
| Records.FromPairs | src/components/game/Game.tsx:34-40 | an object built by assigning pairs is kept in ascending key order |
| Records.FromPairsKeys | src/components/game/Game.tsx:25-28 | the object has exactly the keys of the assigned pairs |
| Records.FromPairsValues | src/components/game/Game.tsx:25-28 | with distinct keys, each key holds the value assigned to it |
| Records.FromPairsTotal | src/components/game/Game.tsx:34-40 | with distinct keys, the object's values add up to the assigned values |
| Game.ScorePairs | src/components/game/Game.tsx:26-28 | the player at index i is assigned (i + 1) * 10 |
| Game.SampleScoresKeys | src/components/game/Game.tsx:25-28 | every player, and no one else, has a sample score |
| Game.SampleScoresValues | src/components/game/Game.tsx:25-28 | with distinct ids, the player at index i reads back score (i + 1) * 10 |
| Game.ChangePairs | src/components/game/Game.tsx:34-40 | the first five players at most get changes +20, -10, -10, 0, 0 in that order |
| Game.SampleChangesKeys | src/components/game/Game.tsx:34-40 | the sample round changes the scores of the first five players at most, nobody else's |
| Game.SampleChangesValues | src/components/game/Game.tsx:34-40 | with distinct ids the changes read back as +20, -10, -10 and 0 for the fourth and fifth player |
| Game.ChangePairsDistinct | src/components/game/Game.tsx:34-40 | distinct player ids give the change literal distinct keys |
| Game.SampleChangesBalance | src/components/game/Game.tsx:34-40 | with distinct ids the sample round's changes sum to zero |
| Game.SampleRound | src/components/game/Game.tsx:30-42 | the sample round exists exactly when there are more than two players, as round 1 with id 1 |
| Game.InitialGame | src/components/game/Game.tsx:44-52 | the initial game is active, holds the players, the sample scores and rounds, and its round counter is one past the rounds |
| Game.LastRound | src/components/game/Game.tsx:68-72 | the last round, and none exactly when there are no rounds |
| Game.LastRoundAfterRecording | src/components/game/Game.tsx:68-72 | a round just recorded is the last round |
| Game.InitialLastRound | src/components/game/Game.tsx:30-52 | the initial game has a last round, the sample round, exactly with more than two players, and counts round 2 then, round 1 otherwise |
| Game.Standing | src/components/game/Game.tsx:75-76 | the entries rearranged in descending order of score |
| Game.PlayerRank | src/components/game/Game.tsx:74-78 | the rank lies between 0 and the number of entries and is 0 exactly when the player has no score |
| Game.RankedEntry | src/components/game/Game.tsx:74-78 | the entry a rank points at is the player's own score |
| Game.HigherScoreRanksFirst | src/components/game/Game.tsx:74-78 | a strictly higher score gives a strictly smaller rank |
| Game.TiesRankByKey | src/components/game/Game.tsx:75-77 | equal scores rank in ascending id order, the order `Object.entries` lists them in |
| Game.TieKeepsEntryOrder | src/components/game/Game.tsx:76 | of two entries with equal scores, the earlier stays ahead |
| Game.ScoreTable | src/components/game/Game.tsx:128-129 | the players rearranged in descending order of score |
| Game.ScoreTableKeepsTies | src/components/game/Game.tsx:128-129 | players with equal scores keep the order they were passed in |
| Game.Trophy | src/components/game/Game.tsx:133 | the trophy sits on the first row only, and only when that player has a recorded score above 0; a missing score never earns it |
| Game.TrophyGoesToLeader | src/components/game/Game.tsx:133 | a trophy is shown exactly when some player has a positive score, and the first row has the top score |
| Register.UsernameError | src/components/auth/Register.tsx:34-40 | required when blank after trimming, else too short under 3 characters, else bad characters; none exactly for 3 or more characters of `[a-zA-Z0-9_]` |
| Register.PatternNotBlank | src/components/auth/Register.tsx:34-38 | a name matching the pattern is never blank after trimming |
| Register.PasswordError | src/components/auth/Register.tsx:42-46 | required when empty, too short under 6 characters, none from 6 on |
| Register.ConfirmError | src/components/auth/Register.tsx:48-52 | required when empty, a mismatch when different, none exactly when it repeats a non-empty password |
| Register.ValidateForm | src/components/auth/Register.tsx:31-56 | one entry per failing field with that field's message, and valid exactly when there is none |
| Register.ValidIff | src/components/auth/Register.tsx:31-56 | the form validates exactly when the username has 3 or more pattern characters, the password 6 or more characters, and the confirmation repeats it |
| Register.ErrorsIndependent | src/components/auth/Register.tsx:31-56 | each field's error depends only on its own inputs |
| Register.HandleChange | src/components/auth/Register.tsx:15-29 | the edited field takes the value and its error is no longer shown; other errors stay |
| Login.ValidateForm | src/components/auth/Login.tsx:30-43 | the username is required when blank after trimming, the password when empty; valid exactly when neither is |
| Login.ValidIff | src/components/auth/Login.tsx:30-43 | the form validates exactly when the username has a non-whitespace character and the password is non-empty |
| Login.HandleChange | src/components/auth/Login.tsx:14-28 | the edited field takes the value and its error is no longer shown; other errors stay |
| Login.EditHidesOnlyItsError | src/components/auth/Login.tsx:14-43 | after a failed validation, editing a field hides only that field's error |
| Forms.ClearError | src/components/auth/Register.tsx:23-28 | the edited field's error is overwritten by the empty message, keys and other entries unchanged |
| Forms.ClearErrorIdempotent | src/components/auth/Login.tsx:22-27 | clearing is idempotent and never changes whether another field's error is shown |
| Seqs.Filter | src/components/game/NewRound.tsx:92 | `filter` keeps exactly the passing elements and never lengthens |
| Seqs.FilterKeepsOrder | src/components/game/NewRound.tsx:130 | kept elements keep their relative order |
| Seqs.Remove | src/components/game/NewRound.tsx:92 | every copy of the element is removed, other elements keep their count and order |
| Seqs.Toggle | src/components/game/NewRound.tsx:102-104 | membership of the element flips (appended when absent), others unchanged, no duplicates introduced |
| Seqs.ToggleTwiceAbsent | src/components/game/NewRound.tsx:111-113 | toggling an absent element twice is the identity |
| Seqs.WithoutKey | src/components/game/NewRound.tsx:130 | every element with the key is dropped and the rest kept in order |
| Seqs.FindIndex | src/components/game/Game.tsx:77 | the first index satisfying the callback, or -1 exactly when none does |
| Seqs.IndexOf | src/data/gameData.ts:124-125 | the first index holding the element, or -1 exactly when absent |
| Seqs.IndexOfNoDup | src/data/gameData.ts:124-125 | in a list without repeats each element is found at its own index |
| Seqs.SumPermutation | src/data/gameData.ts:135-138 | a sum does not depend on the order of its terms |
| Seqs.MapPermutation | src/data/gameData.ts:114-121 | mapping rearrangements of the same elements gives rearrangements of the same images |
| Sorting.SortBy | src/data/gameData.ts:123-127 | the sort returns a rearrangement of its input, ordered by key |
| Sorting.SortByStable | src/data/gameData.ts:123-127 | elements with the same key keep their input order |
| Sorting.SortByOrdering | src/data/gameData.ts:123-127 | elements with a key below a bound end up before those at or above it, ties in input order |
| Sorting.SortByKeepsTieOrder | src/components/game/Game.tsx:128-129 | of two elements with equal keys the earlier stays ahead |
| Sorting.SortByIgnoresInputOrder | src/data/gameData.ts:123-127 | when no two distinct elements share a key, the result depends only on which elements are sorted |
| Sorting.StrictlySortedKept | src/data/gameData.ts:123-127 | input whose keys strictly increase is left as it is |
| Sorting.SortedUnique | src/data/gameData.ts:123-127 | two sorted rearrangements of the same elements coincide when no two distinct elements share a key |
| Strings.NatToString | src/data/gameData.ts:145 | a non-empty string of decimal digits without a leading zero |
| Strings.ParseNatToString | src/data/gameData.ts:145 | the decimal form reads back as the number |
| Strings.NatToStringInjective | src/data/gameData.ts:145 | different numbers have different decimal forms |
| Strings.IntToString | src/components/game/NewRound.tsx:134 | the decimal form of an integer starts with a minus sign exactly when it is negative |
| Strings.IntToStringInjective | src/components/game/NewRound.tsx:134 | different integers have different decimal forms |
| Strings.Join | src/data/gameData.ts:131-132 | `join` gives "" for no segments and otherwise starts with the first segment, followed by the separator when there is a second |
| Strings.JoinAppend | src/data/gameData.ts:131-132 | joining one more segment, after any non-empty list, appends the separator and that segment |
| Strings.Trim | src/components/auth/Register.tsx:34 | `trim` cuts a whitespace-only prefix and suffix off the input and keeps the rest in between, which has no whitespace at either end and is empty exactly when the input is all whitespace |
| Strings.TrimUnique | src/components/auth/Register.tsx:34 | any cut of the input into whitespace, a middle without whitespace at its ends, and whitespace has `trim`'s result as its middle |

## Left out

- Network, storage and authentication services (`playerService`, `authService`, `apiClient`, local storage) are not part of this model. Their results enter only as parameters, for example the created player of `GameSettings.AddNewPlayer`.
- `Date.now()` and `new Date()` are parameters (`now`) or left out. `createdAt` and `completedAt` are not modelled.
- Rendering, dropdown visibility, disabled buttons, loading flags, dialogs and `console` output are outside the model. The `console.warn` for an unknown bid type id has no effect on the result.
- Round settlement: no source in the component computes the score of a saved round, so nothing is modelled for it. The `onSave` and `onStartGame` callbacks are modelled only as the value they receive.
- The mock `LICIT_COMBINATIONS` in `NewRound.tsx` is left out. A combination is an opaque value to the form.
- `Game`'s score-change display (the signed text of the last round's changes) and the `RoundSummary` component are left out, because they only format values.
- The unused `initialScores` object at the start of `Game`'s initial state is left out, because it is never read.
- Stale reads are modelled as reads of the current state:
  - `handleDefenderToggle` reads the attacker from the render's state rather than from `prev`;
  - `handleChange` tests `errors[name]` from the render's state.
  These coincide unless two updates are queued within one render.
- `handleAddNewPlayer` is the exception. Its guard reads the selection of the render
  that started the request. Its append runs on `prev` after the request returns, and the
  player dropdown stays usable meanwhile. `GameSettings.AddNewPlayer` therefore takes
  both selections, and `GameSettings.SixPlayersReachable` shows that six players can be
  selected this way.
- NewRound.Run: does not model when the defender picker is visible. The source shows it
  only once an attacker is chosen and more than three players take part
  (`src/components/game/NewRound.tsx:249`). In a three-player game no defender can
  therefore be chosen, and such a round can never be saved.
- `Game`'s `players.sort` sorts the prop array in place. The model returns the sorted copy and does not model the mutation of the caller's array.
- Game.ScoreOf: a player without a score compares as 0. In the source, the comparator then yields `NaN`, whose effect on the sort order is implementation-defined.
- Records: only array-index keys are modelled, which `Object.entries` lists in ascending numeric order. Negative or very large ids (such as a `Date.now()` fallback id) would be listed in insertion order.
- String lengths are counted in characters. JavaScript counts UTF-16 code units, so the username and password length limits differ for characters outside the Basic Multilingual Plane.
- `handleSubmit` of both forms (asynchronous submission, loading state and the general error message) is not modelled beyond `validateForm`.
- The type declaration files (`src/types`) are represented only by the datatypes they declare.
- GameSettings.AddNewPlayerValid: promises at most five players only when the selection did not change while the request was pending; otherwise six are possible (`GameSettings.SixPlayersReachable`). It keeps ids distinct only when the new player's id is not already selected. The source does not check this: a server id or a `Date.now()` fallback id could repeat one.
