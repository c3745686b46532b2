/**
 * Whole games played through the handlers, from one connection whose own
 * private group is "socket-a". Each method follows a run of events and
 * states what the room looks like at the end.
 */
module Scenarios {
  import opened Wrappers
  import opened JsBuiltins
  import opened RoomTypes
  import opened Logic
  import opened Server

  /** The connection after it joined room 0: its own group and the room's. */
  lemma InRoomZero()
    ensures NatToString(0) == "0"
    ensures Admitted(0, {"socket-a", "0"}, false, 1)
    ensures GroupsAfterCheck(0, {"socket-a", "0"}, false) == {"socket-a", "0"}
  {
    assert NatToString(0) == "0";
    assert |{"socket-a", "0"}| == 2;
  }

  /** Create "Test", join its group, add two cards and seat A and B (A twice). */
  method SetUpGame() returns (registry: Registry, groups: set<string>)
    ensures fresh(registry) && registry.Valid() && |registry.rooms| == 1 && fresh(registry.rooms[0])
    ensures registry.rooms[0].data == Idle(["A", "B"], ["apple", "pear"], None, None)
    ensures groups == {"socket-a", "0"}
  {
    registry := new Registry();
    var outcome, ack := registry.CreateRoom("Test", true);
    assert ack == Some(0);
    var room := registry.rooms[0];

    groups := {"socket-a"};
    outcome, groups := registry.JoinRoom(0, groups);
    InRoomZero();

    assert !IsBlank("apple") by { assert !IsJsWhitespace("apple"[0]); }
    assert !IsBlank("pear") by { assert !IsJsWhitespace("pear"[0]); }
    outcome, groups := registry.AddCard(0, "apple", groups);
    outcome, groups := registry.AddCard(0, "pear", groups);
    assert room.data == Idle([], ["apple", "pear"], None, None);

    outcome, groups := registry.JoinGame(0, "A", groups);
    outcome, groups := registry.JoinGame(0, "B", groups);
    assert room.data.players == ["A", "B"];
    outcome, groups := registry.JoinGame(0, "A", groups);
    assert outcome == Ignored;
  }

  /** Start the round in the room SetUpGame prepares: one of the two cards is drawn. */
  method StartGame() returns (registry: Registry, groups: set<string>, drawn: string)
    ensures fresh(registry) && registry.Valid() && |registry.rooms| == 1 && fresh(registry.rooms[0])
    ensures groups == {"socket-a", "0"}
    ensures var d := registry.rooms[0].data;
      && d.Active? && d.roundPlayers == ["A", "B"] && d.seen == [] && d.card == Some(drawn)
      && drawn in ["apple", "pear"]
      && |d.cards| == 1 && d.cards[0] == (if drawn == "apple" then "pear" else "apple")
  {
    registry, groups := SetUpGame();
    var room := registry.rooms[0];
    ghost var before := room.data;
    InRoomZero();
    assert Admitted(0, groups, false, |registry.rooms|);
    var outcome;
    outcome, groups := registry.StartRound(0, groups);
    assert before == Idle(["A", "B"], ["apple", "pear"], None, None);
    assert exists i: nat, s: nat, n: nat :: i < 2 && s < 2 && n < 2 && room.data == Started(before, i, s, n);
    ghost var cardI: nat, starterI: nat, noCardI: nat :|
      cardI < 2 && starterI < 2 && noCardI < 2 && room.data == Started(before, cardI, starterI, noCardI);
    drawn := room.data.card.value;
    assert drawn == before.cards[cardI];
    assert |room.data.cards| == 1 && room.data.cards[0] == before.cards[1 - cardI];
    assert room.data.roundPlayers == ["A", "B"] && room.data.seen == [];
  }

  /**
   * A whole round: both players view the card (B twice, the second time
   * ignored) and the round ends. Both players are recorded as viewers once,
   * the room is idle again with the same players, the word revealed is one
   * of the two cards and the other one is still in the pool.
   */
  method OneRound() returns (viewers: seq<string>, ended: RoomData)
    ensures viewers == ["A", "B"]
    ensures ended.Idle? && ended.players == ["A", "B"]
    ensures ended.previousWord.Some? && ended.previousWord.value in ["apple", "pear"]
    ensures |ended.cards| == 1 && ended.cards[0] == (if ended.previousWord.value == "apple" then "pear" else "apple")
  {
    var registry, groups, drawn := StartGame();
    var room := registry.rooms[0];
    InRoomZero();

    var outcome;
    outcome, groups := registry.ViewCard(0, "A", groups);
    outcome, groups := registry.ViewCard(0, "B", groups);
    outcome, groups := registry.ViewCard(0, "B", groups);
    assert outcome == Ignored;
    viewers := room.data.seen;

    outcome, groups := registry.EndRound(0, groups);
    ended := room.data;
  }

  /**
   * Kicking a player while a round is in progress reaches the leave
   * transition's assertion: the handler does not guard against it.
   */
  method KickDuringRound() returns (outcome: Outcome)
    ensures outcome == AssertionFailure
  {
    var registry, groups := SetUpGame();
    var room := registry.rooms[0];
    InRoomZero();
    var o;
    o, groups := registry.StartRound(0, groups);
    assert room.data.RoundInProgress();
    outcome, groups := registry.KickPlayer(0, "B", groups);
  }

  /** Deleting hides a room; resetting it afterwards makes it visible again. */
  method DeleteThenReset() returns (hiddenAfterDelete: bool, hiddenAfterReset: bool)
    ensures hiddenAfterDelete && !hiddenAfterReset
  {
    var registry := new Registry();
    var _, _ := registry.CreateRoom("Test", true);
    var groups := {"socket-a"};
    var o;
    o, groups := registry.JoinRoom(0, groups);
    InRoomZero();
    o, groups := registry.DeleteRoom(0, groups);
    hiddenAfterDelete := registry.rooms[0].hidden;
    o, groups := registry.ResetRoom(0, groups);
    hiddenAfterReset := registry.rooms[0].hidden;
  }
}
