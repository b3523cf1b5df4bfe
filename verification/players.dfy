/**
 The player record the game screens pass around (`Player` of the client's types).
 */
module Players {
  import opened Seqs

  /** A player: a numeric id and a display name. */
  datatype Player = Player(id: int, name: string)

  /** The key players are compared by. */
  function PlayerId(p: Player): int {
    p.id
  }

  /** No two positions hold players with the same id. */
  ghost predicate DistinctIds(players: seq<Player>) {
    forall i, j | 0 <= i < j < |players| :: players[i].id != players[j].id
  }

  /** Unique keys, in the sense of `Seqs.KeyUnique`, are distinct ids. */
  lemma KeyUniqueDistinctIds(players: seq<Player>)
    requires KeyUnique(players, PlayerId)
    ensures DistinctIds(players)
  {
    forall i, j | 0 <= i < j < |players|
      ensures players[i].id != players[j].id
    {
      assert players[i] in players && players[j] in players;
    }
  }
}
