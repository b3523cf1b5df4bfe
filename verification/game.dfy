/**
 The running game screen (`Game`): the state it starts from (sample scores and a sample
 round), the last-round lookup, a player's rank, and the ordering of the score table
 with its trophy.
 */
module Game {
  import opened Wrappers
  import opened Seqs
  import opened Sorting
  import opened Players
  import opened Records

  /** A finished round: the summary line and the score change of each player. */
  datatype Round = Round(id: int, roundNumber: int, summary: string, scoreChanges: seq<Entry>)

  /** The game state; `createdAt` and the rounds' `completedAt` are not modelled. */
  datatype GameState = GameState(
    id: int,
    players: seq<Player>,
    currentRound: int,
    playerScores: seq<Entry>,
    rounds: seq<Round>,
    isActive: bool)

  /** The ids of a list of players. */
  function IdsOf(players: seq<Player>): set<int> {
    set i | 0 <= i < |players| :: players[i].id
  }

  /** The assignments `mockScores[player.id] = (index + 1) * 10`, in `forEach` order. */
  function ScorePairs(players: seq<Player>): (pairs: seq<Entry>)
    ensures |pairs| == |players|
    ensures forall i | 0 <= i < |players| :: pairs[i] == (players[i].id, (i + 1) * 10)
  {
    seq(|players|, i requires 0 <= i < |players| => (players[i].id, (i + 1) * 10))
  }

  /**
   The sample scores: the player at index `i` gets `(i + 1) * 10`, recorded under its id
   (a later player with the same id overwrites an earlier one).
   */
  function SampleScores(players: seq<Player>): seq<Entry> {
    FromPairs(ScorePairs(players))
  }

  /** Pairs keyed by the ids of a list of players, one per player, have exactly those ids as keys. */
  lemma PairKeysAreIds(pairs: seq<Entry>, players: seq<Player>)
    requires |pairs| == |players| && forall i | 0 <= i < |pairs| :: pairs[i].0 == players[i].id
    ensures PairKeys(pairs) == IdsOf(players)
  {
    forall k | k in IdsOf(players)
      ensures k in PairKeys(pairs)
    {
      var i :| 0 <= i < |players| && players[i].id == k;
      assert pairs[i].0 == k;
    }
  }

  /** Every player, and nobody else, has a sample score. */
  lemma SampleScoresKeys(players: seq<Player>)
    ensures Keys(SampleScores(players)) == IdsOf(players)
  {
    FromPairsKeys(ScorePairs(players));
    PairKeysAreIds(ScorePairs(players), players);
  }

  /** With distinct ids, the player at index `i` has the sample score `(i + 1) * 10`. */
  lemma SampleScoresValues(players: seq<Player>)
    requires DistinctIds(players)
    ensures forall i | 0 <= i < |players| :: Get(SampleScores(players), players[i].id) == Some((i + 1) * 10)
  {
    FromPairsValues(ScorePairs(players));
  }

  /**
   The assignments of the sample round's `scoreChanges` literal: +20, -10, -10, then 0
   for a fourth and a fifth player when there are such.
   */
  function ChangePairs(players: seq<Player>): (pairs: seq<Entry>)
    requires |players| > 2
    ensures |pairs| == if |players| < 5 then |players| else 5
    ensures forall i | 0 <= i < |pairs| :: pairs[i].0 == players[i].id
    ensures pairs[0].1 == 20 && pairs[1].1 == -10 && pairs[2].1 == -10
    ensures forall i | 3 <= i < |pairs| :: pairs[i].1 == 0
  {
    var p := players;
    [(p[0].id, 20), (p[1].id, -10), (p[2].id, -10)]
      + (if |p| > 3 then [(p[3].id, 0)] else [])
      + (if |p| > 4 then [(p[4].id, 0)] else [])
  }

  /** The score changes of the sample round. */
  function SampleChanges(players: seq<Player>): seq<Entry>
    requires |players| > 2
  {
    FromPairs(ChangePairs(players))
  }

  /** The sample round changes the scores of the first five players (at most), nobody else's. */
  lemma SampleChangesKeys(players: seq<Player>)
    requires |players| > 2
    ensures Keys(SampleChanges(players)) == IdsOf(players[..if |players| < 5 then |players| else 5])
  {
    var pairs := ChangePairs(players);
    FromPairsKeys(pairs);
    PairKeysAreIds(pairs, players[..|pairs|]);
  }

  /** With distinct ids: +20 for the first player, -10 for the second and third, 0 for the fourth and fifth. */
  lemma SampleChangesValues(players: seq<Player>)
    requires |players| > 2 && DistinctIds(players)
    ensures var c := SampleChanges(players);
      && Get(c, players[0].id) == Some(20)
      && Get(c, players[1].id) == Some(-10)
      && Get(c, players[2].id) == Some(-10)
      && forall i | 3 <= i < |players| && i < 5 :: Get(c, players[i].id) == Some(0)
  {
    var pairs := ChangePairs(players);
    ChangePairsDistinct(players);
    FromPairsValues(pairs);
  }

  /** Distinct player ids give the change literal distinct keys. */
  lemma ChangePairsDistinct(players: seq<Player>)
    requires |players| > 2 && DistinctIds(players)
    ensures DistinctKeys(ChangePairs(players))
  {
    var pairs := ChangePairs(players);
    forall i, j | 0 <= i < j < |pairs|
      ensures pairs[i].0 != pairs[j].0
    {
      assert pairs[i].0 == players[i].id && pairs[j].0 == players[j].id;
    }
  }

  /** The text of the sample round: the first player won a small ulti, the next two lost. */
  function SampleSummary(players: seq<Player>): string
    requires |players| > 2
  {
    players[0].name + " nyert egy kis ultival, " + players[1].name + " és " + players[2].name + " veszített."
  }

  /** The sample round, present exactly when there are more than two players. */
  function SampleRound(players: seq<Player>): (r: Option<Round>)
    ensures r.Some? <==> |players| > 2
    ensures r.Some? ==> r.value.id == 1 && r.value.roundNumber == 1
    ensures r.Some? ==> r.value.summary == SampleSummary(players) && r.value.scoreChanges == SampleChanges(players)
  {
    if |players| > 2 then Some(Round(1, 1, SampleSummary(players), SampleChanges(players))) else None
  }

  /** With distinct ids the sample round's changes cancel out. */
  lemma SampleChangesBalance(players: seq<Player>)
    requires |players| > 2 && DistinctIds(players)
    ensures Total(SampleChanges(players)) == 0
  {
    var pairs := ChangePairs(players);
    ChangePairsDistinct(players);
    FromPairsTotal(pairs);
    CancellingHead(pairs);
  }

  /** Three entries that cancel, followed by zeros, total zero. */
  lemma CancellingHead(pairs: seq<Entry>)
    requires |pairs| >= 3 && pairs[0].1 + pairs[1].1 + pairs[2].1 == 0
    requires forall i | 3 <= i < |pairs| :: pairs[i].1 == 0
    ensures Total(pairs) == 0
  {
    var head, tail := pairs[..3], pairs[3..];
    assert pairs == head + tail;
    TotalConcat(head, tail);
    TotalZero(tail);
    var a, b, c := pairs[0], pairs[1], pairs[2];
    assert head == [a, b, c];
    assert [a, b, c][1..] == [b, c] && [b, c][1..] == [c] && [c][1..] == [];
    assert Total([c]) == c.1;
    assert Total([b, c]) == b.1 + c.1;
  }

  /**
   The initial `gameState`: the sample scores, the sample round when there is one, and
   `currentRound` one past the number of rounds; `now` stands for `Date.now()`.
   */
  function InitialGame(players: seq<Player>, now: int): (g: GameState)
    ensures g.id == now && g.players == players && g.isActive
    ensures g.currentRound == |g.rounds| + 1
    ensures |g.rounds| == (if |players| > 2 then 1 else 0)
    ensures |players| > 2 ==> g.rounds[0] == SampleRound(players).value
    ensures g.playerScores == SampleScores(players)
  {
    var rounds := match SampleRound(players) case Some(r) => [r] case None => [];
    GameState(now, players, |rounds| + 1, SampleScores(players), rounds, true)
  }

  /** `getLastRound`: the last round, or `None` for `null` when there is none. */
  function LastRound(g: GameState): (r: Option<Round>)
    ensures r.None? <==> |g.rounds| == 0
    ensures r.Some? ==> r.value == g.rounds[|g.rounds| - 1]
  {
    if |g.rounds| > 0 then Some(g.rounds[|g.rounds| - 1]) else None
  }

  /** A round just recorded is the last round, and the round counter is not involved. */
  lemma LastRoundAfterRecording(g: GameState, round: Round)
    ensures LastRound(g.(rounds := g.rounds + [round])) == Some(round)
  {
  }

  /** The initial game has a last round exactly when it has more than two players. */
  lemma InitialLastRound(players: seq<Player>, now: int)
    ensures LastRound(InitialGame(players, now)).Some? <==> |players| > 2
    ensures |players| > 2 ==> LastRound(InitialGame(players, now)) == SampleRound(players)
    ensures InitialGame(players, now).currentRound == if |players| > 2 then 2 else 1
  {
  }

  /** The sort key of the comparator `b - a` on values: higher scores first. */
  function HigherFirst(e: Entry): int {
    -e.1
  }

  /** The entries of `playerScores` ordered by descending score, ties in key order. */
  function Standing(scores: seq<Entry>): (r: seq<Entry>)
    ensures multiset(r) == multiset(scores)
    ensures forall i, j | 0 <= i < j < |r| :: r[i].1 >= r[j].1
  {
    var r := SortBy(scores, HigherFirst);
    assert forall i, j | 0 <= i < j < |r| :: HigherFirst(r[i]) <= HigherFirst(r[j]);
    r
  }

  /** The callback `([id]) => Number(id) === playerId`. */
  function IdIs(playerId: int): Entry -> bool {
    (e: Entry) => e.0 == playerId
  }

  /** The keys of entries with the same elements are the same. */
  lemma KeysOfPermutation(a: seq<Entry>, b: seq<Entry>)
    requires multiset(a) == multiset(b)
    ensures Keys(a) == Keys(b)
  {
    forall k | k in Keys(a)
      ensures k in Keys(b)
    {
      var i :| 0 <= i < |a| && a[i].0 == k;
      assert a[i] in multiset(b);
      var j :| 0 <= j < |b| && b[j] == a[i];
    }
    forall k | k in Keys(b)
      ensures k in Keys(a)
    {
      var j :| 0 <= j < |b| && b[j].0 == k;
      assert b[j] in multiset(a);
      var i :| 0 <= i < |a| && a[i] == b[j];
    }
  }

  /**
   `getPlayerRank`: one more than the position of the player's entry in the standing,
   so 1 to n for a player with a score and 0 for one without.
   */
  function PlayerRank(scores: seq<Entry>, playerId: int): (rank: int)
    ensures 0 <= rank <= |scores|
    ensures rank == 0 <==> playerId !in Keys(scores)
  {
    var r := Standing(scores);
    KeysOfPermutation(r, scores);
    FindIndex(r, IdIs(playerId)) + 1
  }

  /** In an ordered record, the entry a rank points at is the player's own score. */
  lemma RankedEntry(scores: seq<Entry>, playerId: int)
    requires Ordered(scores) && playerId in Keys(scores)
    ensures var i := FindIndex(Standing(scores), IdIs(playerId));
      0 <= i < |scores| && Standing(scores)[i] == (playerId, Get(scores, playerId).value)
  {
    var r := Standing(scores);
    KeysOfPermutation(r, scores);
    var i := FindIndex(r, IdIs(playerId));
    assert r[i] in multiset(scores);
    var j :| 0 <= j < |scores| && scores[j] == r[i];
    GetOrdered(scores, j);
  }

  /** A strictly higher score gives a strictly better (smaller) rank. */
  lemma HigherScoreRanksFirst(scores: seq<Entry>, a: int, b: int)
    requires Ordered(scores) && a in Keys(scores) && b in Keys(scores)
    requires Get(scores, a).value > Get(scores, b).value
    ensures 0 < PlayerRank(scores, a) < PlayerRank(scores, b)
  {
    RankedEntry(scores, a);
    RankedEntry(scores, b);
  }

  /** An ordered record has no entry twice. */
  lemma OrderedNoDup(r: seq<Entry>)
    requires Ordered(r)
    ensures NoDup(r)
  {
  }

  /** Equal scores rank in key order, the order `Object.entries` lists them in. */
  lemma TiesRankByKey(scores: seq<Entry>, a: int, b: int)
    requires Ordered(scores) && a in Keys(scores) && b in Keys(scores)
    requires a < b && Get(scores, a) == Get(scores, b)
    ensures 0 < PlayerRank(scores, a) < PlayerRank(scores, b)
  {
    var ja := EntryIndex(scores, a);
    var jb := EntryIndex(scores, b);
    KeyOrderIsIndexOrder(scores, ja, jb);
    TieKeepsEntryOrder(scores, ja, jb);
    var r := Standing(scores);
    var i, j :| 0 <= i < j < |r| && r[i] == scores[ja] && r[j] == scores[jb];
    RankedEntry(scores, a);
    RankedEntry(scores, b);
    OrderedNoDup(scores);
    SortByNoDup(scores, HigherFirst);
    NoDupIndex(r, FindIndex(r, IdIs(b)), j);
  }

  /** The index of a key's entry in an ordered record. */
  lemma EntryIndex(scores: seq<Entry>, k: int) returns (i: int)
    requires Ordered(scores) && k in Keys(scores)
    ensures 0 <= i < |scores| && scores[i] == (k, Get(scores, k).value)
  {
    i :| 0 <= i < |scores| && scores[i].0 == k;
    GetOrdered(scores, i);
  }

  /** In an ordered record a smaller key sits at a smaller index. */
  lemma KeyOrderIsIndexOrder(scores: seq<Entry>, i: int, j: int)
    requires Ordered(scores) && 0 <= i < |scores| && 0 <= j < |scores|
    requires scores[i].0 < scores[j].0
    ensures i < j
  {
  }

  /** Of two entries with equal scores, the earlier one stays ahead in the standing. */
  lemma TieKeepsEntryOrder(scores: seq<Entry>, i: int, j: int)
    requires 0 <= i < j < |scores| && scores[i].1 == scores[j].1
    ensures Precedes(Standing(scores), scores[i], scores[j])
  {
    SortByKeepsTieOrder(scores, HigherFirst, scores[i], scores[j]);
  }

  /** A player's score on the table; a player without one counts as 0. */
  function ScoreOf(scores: seq<Entry>, playerId: int): int {
    match Get(scores, playerId)
    case Some(v) => v
    case None => 0
  }

  /** The sort key of the score table: higher scores first. */
  function TableKey(scores: seq<Entry>): Player -> int {
    (p: Player) => -ScoreOf(scores, p.id)
  }

  /**
   The score table (`players.sort((a, b) => playerScores[b.id] - playerScores[a.id])`): the
   same players, by non-increasing score.
   */
  function ScoreTable(players: seq<Player>, scores: seq<Entry>): (table: seq<Player>)
    ensures multiset(table) == multiset(players)
    ensures forall i, j | 0 <= i < j < |table| :: ScoreOf(scores, table[i].id) >= ScoreOf(scores, table[j].id)
  {
    var table := SortBy(players, TableKey(scores));
    assert forall i, j | 0 <= i < j < |table| :: TableKey(scores)(table[i]) <= TableKey(scores)(table[j]);
    table
  }

  /** Players with equal scores stay in the order they were passed in. */
  lemma ScoreTableKeepsTies(players: seq<Player>, scores: seq<Entry>, p: Player, q: Player)
    requires ScoreOf(scores, p.id) == ScoreOf(scores, q.id) && Precedes(players, p, q)
    ensures Precedes(ScoreTable(players, scores), p, q)
  {
    SortByKeepsTieOrder(players, TableKey(scores), p, q);
  }

  /** The trophy: only on the first row, and only when that score is positive. */
  function Trophy(table: seq<Player>, scores: seq<Entry>, index: int): (b: bool)
    requires 0 <= index < |table|
    ensures b <==> index == 0 && Get(scores, table[0].id).Some? && Get(scores, table[0].id).value > 0
  {
    index == 0 && ScoreOf(scores, table[0].id) > 0
  }

  /**
   The trophy is shown exactly when some player has a positive score, and the player who
   holds it has the highest score of all.
   */
  lemma TrophyGoesToLeader(players: seq<Player>, scores: seq<Entry>)
    ensures var table := ScoreTable(players, scores);
      (exists i | 0 <= i < |table| :: Trophy(table, scores, i)) <==>
      (exists p | p in players :: ScoreOf(scores, p.id) > 0)
    ensures var table := ScoreTable(players, scores);
      |table| > 0 ==> forall p | p in players :: ScoreOf(scores, p.id) <= ScoreOf(scores, table[0].id)
  {
    var table := ScoreTable(players, scores);
    forall p | p in players
      ensures ScoreOf(scores, p.id) <= ScoreOf(scores, table[0].id)
    {
      assert p in multiset(table);
      var j :| 0 <= j < |table| && table[j] == p;
    }
    if |table| > 0 {
      assert table[0] in multiset(players);
      if ScoreOf(scores, table[0].id) > 0 {
        assert Trophy(table, scores, 0);
      }
    }
  }
}
