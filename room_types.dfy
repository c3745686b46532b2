/**
 * The shape of a room's game state: a tagged union on `roundInProgress`.
 * The idle variant carries the players, the card pool, the last revealed
 * word and the admin; the active variant adds the round-only fields.
 * A card is modelled by its text.
 */
module RoomTypes {
  import opened Wrappers

  datatype RoomData =
    | Idle(
        players: seq<string>,
        cards: seq<string>,
        previousWord: Option<string>,
        adminUsername: Option<string>)
    | Active(
        players: seq<string>,
        cards: seq<string>,
        previousWord: Option<string>,
        adminUsername: Option<string>,
        card: Option<string>,
        roundPlayers: seq<string>,
        seen: seq<string>,
        starterUsername: string,
        noCardUsername: string)
  {
    /** The `roundInProgress` discriminator. */
    predicate RoundInProgress()
    {
      Active?
    }
  }

  /** The state a freshly generated room starts in. */
  const EmptyIdle: RoomData := Idle([], [], None, None)

  predicate NoDuplicates<T(==)>(s: seq<T>)
  {
    forall i, j :: 0 <= i < j < |s| ==> s[i] != s[j]
  }

  /**
   * What every reachable room state satisfies: players are unique; during a
   * round the snapshot still equals the players (nobody can join or leave
   * mid-round), a card was drawn, the starter and the no-card player are
   * round players, and `seen` lists distinct round players.
   */
  ghost predicate WellFormed(d: RoomData)
  {
    && NoDuplicates(d.players)
    && (d.Active? ==>
          && d.roundPlayers == d.players
          && d.card.Some?
          && d.starterUsername in d.roundPlayers
          && d.noCardUsername in d.roundPlayers
          && NoDuplicates(d.seen)
          && (forall u :: u in d.seen ==> u in d.roundPlayers))
  }
}
