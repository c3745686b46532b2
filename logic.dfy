/**
 * The round state machine: creating a room and the four transitions on its
 * data. Each transition is a method that changes `room.data` in place, and
 * each is specified by a function on the old data (Joined, Left, Started,
 * Ended) whose contract says what the transition promises.
 * The preconditions are the `assert.ok` checks the server code opens with.
 */
module Logic {
  import opened Wrappers
  import opened JsBuiltins
  import opened RoomTypes

  class Room {
    const id: nat
    const name: string
    var hidden: bool
    var data: RoomData

    /** `generateRoom(id, name)`: a visible room with no players, no cards, no admin. */
    constructor (id: nat, name: string)
      ensures this.id == id && this.name == name
      ensures !hidden && !data.RoundInProgress()
      ensures data.players == [] && data.cards == []
      ensures data.previousWord == None && data.adminUsername == None
      ensures WellFormed(data)
    {
      this.id := id;
      this.name := name;
      hidden := false;
      data := EmptyIdle;
    }
  }

  // ---------------------------------------------------------------------------
  // Specifications of the transitions

  /** The data after `player` joins an idle room. */
  function Joined(d: RoomData, player: string): (r: RoomData)
    requires d.Idle? && player !in d.players
    ensures r.Idle?
    ensures d.players <= r.players && |r.players| == |d.players| + 1
    ensures multiset(r.players) == multiset(d.players) + multiset{player}
    ensures forall u :: u in r.players <==> u in d.players || u == player
    ensures NoDuplicates(d.players) ==> NoDuplicates(r.players)
    ensures r.cards == d.cards && r.previousWord == d.previousWord && r.adminUsername == d.adminUsername
  {
    Idle(d.players + [player], d.cards, d.previousWord, d.adminUsername)
  }

  /** The data after `player` leaves an idle room. */
  function Left(d: RoomData, player: string): (r: RoomData)
    requires d.Idle? && player in d.players
    ensures r.Idle?
    ensures r.players == RemoveFirst(d.players, player)
    ensures |r.players| == |d.players| - 1
    ensures multiset(r.players) == multiset(d.players) - multiset{player}
    ensures NoDuplicates(d.players) ==> NoDuplicates(r.players) && player !in r.players
    ensures r.cards == d.cards && r.previousWord == d.previousWord && r.adminUsername == d.adminUsername
  {
    var i := IndexOf(d.players, player);
    SpliceAtIndexOf(d.players, player);
    RemoveAtFacts(d.players, i);
    Idle(d.players[..i] + d.players[i + 1..], d.cards, d.previousWord, d.adminUsername)
  }

  /**
   * The data after a round starts with card `cardI` drawn and players
   * `starterI` and `noCardI` chosen (two independent draws).
   */
  function Started(d: RoomData, cardI: nat, starterI: nat, noCardI: nat): (r: RoomData)
    requires d.Idle? && |d.players| >= 2 && |d.cards| > 0
    requires cardI < |d.cards| && starterI < |d.players| && noCardI < |d.players|
    ensures r.Active?
    ensures r.card == Some(d.cards[cardI])
    ensures |r.cards| == |d.cards| - 1
    ensures forall k :: 0 <= k < |r.cards| ==> r.cards[k] == d.cards[if k < cardI then k else k + 1]
    ensures multiset(r.cards) + multiset{d.cards[cardI]} == multiset(d.cards)
    ensures r.roundPlayers == d.players && r.seen == []
    ensures r.starterUsername == d.players[starterI] && r.noCardUsername == d.players[noCardI]
    ensures r.starterUsername in d.players && r.noCardUsername in d.players
    ensures r.players == d.players && r.previousWord == d.previousWord && r.adminUsername == d.adminUsername
    ensures WellFormed(d) ==> WellFormed(r)
  {
    var remaining := d.cards[..cardI] + d.cards[cardI + 1..];
    RemoveAtFacts(d.cards, cardI);
    Active(d.players, remaining, d.previousWord, d.adminUsername,
           Some(d.cards[cardI]), d.players, [], d.players[starterI], d.players[noCardI])
  }

  /** The data after the round ends: the drawn card becomes the previous word. */
  function Ended(d: RoomData): (r: RoomData)
    requires d.Active?
    ensures r.Idle?
    ensures r.previousWord == d.card
    ensures r.players == d.players && r.cards == d.cards && r.adminUsername == d.adminUsername
    ensures WellFormed(d) ==> WellFormed(r)
  {
    Idle(d.players, d.cards, d.card, d.adminUsername)
  }

  /** Taking position `i` out of `s` removes one copy of `s[i]` and keeps the others in order. */
  lemma RemoveAtFacts<T>(s: seq<T>, i: nat)
    requires i < |s|
    ensures var rest := s[..i] + s[i + 1..];
      && |rest| == |s| - 1
      && (forall k :: 0 <= k < |rest| ==> rest[k] == s[if k < i then k else k + 1])
      && multiset(rest) == multiset(s) - multiset{s[i]}
      && (NoDuplicates(s) ==> NoDuplicates(rest) && s[i] !in rest)
  {
    var rest := s[..i] + s[i + 1..];
    assert s == s[..i] + [s[i]] + s[i + 1..];
    forall k | 0 <= k < |rest| ensures rest[k] == s[if k < i then k else k + 1] {}
  }

  // ---------------------------------------------------------------------------
  // The transitions, in place

  /** `handleJoin`: appends `player` to the players of an idle room. */
  method HandleJoin(room: Room, player: string)
    requires !room.data.RoundInProgress() && player !in room.data.players
    modifies room`data
    ensures room.data == Joined(old(room.data), player)
  {
    var d := room.data;
    room.data := Idle(d.players + [player], d.cards, d.previousWord, d.adminUsername);
  }

  /** `handleLeave`: splices `player` out of the players of an idle room. */
  method HandleLeave(room: Room, player: string)
    requires !room.data.RoundInProgress() && player in room.data.players
    modifies room`data
    ensures room.data == Left(old(room.data), player)
  {
    var playerI := IndexOf(room.data.players, player);
    var d := room.data;
    room.data := Idle(d.players[..playerI] + d.players[playerI + 1..], d.cards, d.previousWord, d.adminUsername);
  }

  /**
   * `startRound`: draws a card out of the pool and opens a round. The three
   * random draws are returned so that callers can name them.
   */
  method StartRound(room: Room) returns (cardI: nat, starterI: nat, noCardI: nat)
    requires !room.data.RoundInProgress()
    requires |room.data.players| >= 2 && |room.data.cards| > 0
    modifies room`data
    ensures cardI < |old(room.data.cards)|
    ensures starterI < |old(room.data.players)| && noCardI < |old(room.data.players)|
    ensures room.data == Started(old(room.data), cardI, starterI, noCardI)
  {
    cardI :| 0 <= cardI < |room.data.cards|;
    var card := room.data.cards[cardI];
    var d := room.data;
    room.data := Idle(d.players, d.cards[..cardI] + d.cards[cardI + 1..], d.previousWord, d.adminUsername);
    var players := room.data.players;
    starterI :| 0 <= starterI < |players|;
    noCardI :| 0 <= noCardI < |players|;
    room.data := Active(players, room.data.cards, room.data.previousWord, room.data.adminUsername,
                        Some(card), players, [], players[starterI], players[noCardI]);
  }

  /** `endRound`: closes the round and keeps its card as the previous word. */
  method EndRound(room: Room)
    requires room.data.RoundInProgress()
    modifies room`data
    ensures room.data == Ended(old(room.data))
  {
    room.data := Idle(room.data.players, room.data.cards, room.data.card, room.data.adminUsername);
  }

  // ---------------------------------------------------------------------------
  // Properties relating several transitions

  /** Joining and then leaving again restores the players exactly. */
  lemma LeaveUndoesJoin(d: RoomData, player: string)
    requires d.Idle? && player !in d.players
    ensures Left(Joined(d, player), player) == d
  {
  }

  /**
   * A whole round, start to end: players and admin are as before, the pool has
   * lost exactly the drawn card, and that card is now the previous word.
   */
  lemma RoundConsumesOneCard(d: RoomData, cardI: nat, starterI: nat, noCardI: nat)
    requires d.Idle? && |d.players| >= 2 && |d.cards| > 0
    requires cardI < |d.cards| && starterI < |d.players| && noCardI < |d.players|
    ensures var r := Ended(Started(d, cardI, starterI, noCardI));
      && r.Idle?
      && r.players == d.players && r.adminUsername == d.adminUsername
      && r.previousWord == Some(d.cards[cardI])
      && multiset(r.cards) + multiset{d.cards[cardI]} == multiset(d.cards)
  {
  }

  /**
   * The two player draws are independent: in every room that can start a
   * round, any player can be drawn both as starter and as the one without a card.
   */
  lemma StarterMayGetNoCard(d: RoomData, player: string)
    requires d.Idle? && |d.players| >= 2 && |d.cards| > 0 && player in d.players
    ensures exists starterI: nat, noCardI: nat ::
      && starterI < |d.players| && noCardI < |d.players|
      && Started(d, 0, starterI, noCardI).starterUsername == player
      && Started(d, 0, starterI, noCardI).noCardUsername == player
  {
    var i := IndexOf(d.players, player);
    assert Started(d, 0, i, i).starterUsername == player;
  }

  /** A drawn card can still be in the pool: the pool may hold the same word twice. */
  lemma DrawnWordMayRemainInPool()
    ensures var d := Idle(["A", "B"], ["apple", "apple"], None, None);
      Started(d, 0, 0, 1).card.value in Started(d, 0, 0, 1).cards
  {
    var r := Started(Idle(["A", "B"], ["apple", "apple"], None, None), 0, 0, 1);
    assert r.cards[0] == "apple";
  }
}
