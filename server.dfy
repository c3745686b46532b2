/**
 * The game server's event handlers over the room registry.
 *
 * The registry is the list of rooms, indexed by id. A connection's transport
 * groups (its own private group plus one group per room it views, named by
 * the room id in decimal) are passed to every handler, which returns them as
 * the access check left them. Each handler returns what became of the event:
 * ignored (an early return), applied (with the scope of its broadcast), or an
 * assertion failure raised by the state machine.
 */
module Server {
  import opened Wrappers
  import opened JsBuiltins
  import opened RoomTypes
  import opened Logic

  /** The reasons `getRoomIdError` reports; `NoError` is its empty string. */
  datatype RoomIdError =
    | NoError         // ''
    | InvalidId       // 'Invalid room id …'
    | NotInAnyRoom    // 'Client not in any room'
    | NotInRoom       // 'Client not in roomId'
    | NotInRegistry   // 'roomId not in rooms'

  /** Who receives the state broadcast at the end of a handler. */
  datatype Scope =
    | Silent             // nothing is sent
    | Caller             // `socket.emit('roomState', …)`
    | Group              // `io.to(roomId).emit('roomState', …)`
    | GroupAndEveryone   // the room's group, then `io.emit('rooms', …)`
    | Everyone           // `io.emit('rooms', …)`

  datatype Outcome = Ignored | Applied(scope: Scope) | AssertionFailure

  // ---------------------------------------------------------------------------
  // Access check

  /** A group that names a room other than `roomId`: all digits, parsing to another id. */
  predicate IsStale(group: string, roomId: nat)
  {
    AllDigits(group) && ParseDigits(group) != roomId
  }

  /** The groups left once the stale room groups are evicted. */
  function WithoutStale(groups: set<string>, roomId: nat): set<string>
  {
    set g | g in groups && !IsStale(g, roomId)
  }

  /** The membership part of the check: a valid id and, unless joining, being in that room's group. */
  predicate MembershipOk(roomId: int, groups: set<string>, joining: bool)
  {
    roomId >= 0 && (joining || (|groups| != 1 && NatToString(roomId) in groups))
  }

  /** The whole check passes. */
  predicate Admitted(roomId: int, groups: set<string>, joining: bool, roomCount: nat)
  {
    MembershipOk(roomId, groups, joining) && roomId < roomCount
  }

  /** The connection's groups after the check: evicted stale groups when it had more than two. */
  function GroupsAfterCheck(roomId: int, groups: set<string>, joining: bool): set<string>
  {
    if MembershipOk(roomId, groups, joining) && |groups| > 2 then WithoutStale(groups, roomId) else groups
  }

  /**
   * After eviction no group names another room, every group that is not all
   * digits survives, and so does the claimed room's own group.
   */
  lemma EvictionKeepsOnlyClaimedRoom(groups: set<string>, roomId: nat)
    ensures WithoutStale(groups, roomId) <= groups
    ensures forall g :: g in WithoutStale(groups, roomId) && AllDigits(g) ==> ParseDigits(g) == roomId
    ensures forall g :: g in groups && !AllDigits(g) ==> g in WithoutStale(groups, roomId)
    ensures NatToString(roomId) in groups ==> NatToString(roomId) in WithoutStale(groups, roomId)
  {
    ParseNatToString(roomId);
  }

  /**
   * The eviction loop: first collect the stale groups while iterating the
   * set, then delete them one by one.
   */
  method EvictStaleGroups(socketRooms: set<string>, roomId: nat) returns (kept: set<string>)
    ensures kept == WithoutStale(socketRooms, roomId)
  {
    var badRooms: seq<string> := [];
    var pending := socketRooms;
    while pending != {}
      invariant pending <= socketRooms
      invariant forall g :: g in badRooms <==> g in socketRooms && g !in pending && IsStale(g, roomId)
      decreases |pending|
    {
      var room :| room in pending;
      if IsStale(room, roomId) {
        badRooms := badRooms + [room];
      }
      pending := pending - {room};
    }
    kept := socketRooms;
    var k := 0;
    while k < |badRooms|
      invariant 0 <= k <= |badRooms|
      invariant forall g :: g in kept <==> g in socketRooms && g !in badRooms[..k]
    {
      kept := kept - {badRooms[k]};
      k := k + 1;
    }
    assert badRooms[..k] == badRooms;
  }

  /**
   * `getRoomIdError`: the first failing check, in a fixed order, and the
   * groups as the check leaves them. Eviction happens before the range
   * check, so it happens even when the id is then found out of range.
   */
  method GetRoomIdError(roomId: int, socketRooms: set<string>, joining: bool, roomCount: nat)
    returns (err: RoomIdError, after: set<string>)
    ensures roomId < 0 ==> err == InvalidId
    ensures roomId >= 0 && !joining && |socketRooms| == 1 ==> err == NotInAnyRoom
    ensures roomId >= 0 && !joining && |socketRooms| != 1 && NatToString(roomId) !in socketRooms ==> err == NotInRoom
    ensures MembershipOk(roomId, socketRooms, joining) ==> err == (if roomId < roomCount then NoError else NotInRegistry)
    ensures err == NoError <==> Admitted(roomId, socketRooms, joining, roomCount)
    ensures after == GroupsAfterCheck(roomId, socketRooms, joining)
  {
    after := socketRooms;
    if roomId < 0 {
      return InvalidId, after;
    }
    if !joining && |socketRooms| == 1 {
      return NotInAnyRoom, after;
    }
    if !joining && NatToString(roomId) !in socketRooms {
      return NotInRoom, after;
    }
    if |socketRooms| > 2 {
      after := EvictStaleGroups(socketRooms, roomId);
    }
    if roomId < 0 || roomId >= roomCount {
      return NotInRegistry, after;
    }
    return NoError, after;
  }

  /** After joining a room's group, the in-room check for that room passes. */
  lemma {:induction false} JoinedGroupAdmits(roomId: nat, groups: set<string>, ownGroup: string, roomCount: nat)
    requires ownGroup in groups && !AllDigits(ownGroup) && roomId < roomCount
    ensures Admitted(roomId, GroupsAfterCheck(roomId, groups, true) + {NatToString(roomId)}, false, roomCount)
  {
    var after := GroupsAfterCheck(roomId, groups, true) + {NatToString(roomId)};
    EvictionKeepsOnlyClaimedRoom(groups, roomId);
    assert ownGroup in after;
    assert ownGroup != NatToString(roomId);
    var pair := {ownGroup, NatToString(roomId)};
    assert |pair| == 2;
    assert after == pair + (after - pair);
    assert |after| >= 2;
  }

  // ---------------------------------------------------------------------------
  // In-room updates that apply to either variant

  /** `room.data.cards.push(card)`, during a round or not. */
  function CardAdded(d: RoomData, card: string): (r: RoomData)
    ensures r.cards == d.cards + [card]
    ensures r.RoundInProgress() == d.RoundInProgress() && r.players == d.players
    ensures r.previousWord == d.previousWord && r.adminUsername == d.adminUsername
    ensures d.Active? ==> && r.card == d.card && r.roundPlayers == d.roundPlayers && r.seen == d.seen
                          && r.starterUsername == d.starterUsername && r.noCardUsername == d.noCardUsername
    ensures WellFormed(d) ==> WellFormed(r)
  {
    match d
    case Idle(p, c, w, a) => Idle(p, c + [card], w, a)
    case Active(p, c, w, a, x, rp, s, st, nc) => Active(p, c + [card], w, a, x, rp, s, st, nc)
  }

  /** `room.data.adminUsername = admin`, during a round or not. */
  function AdminSet(d: RoomData, admin: Option<string>): (r: RoomData)
    ensures r.adminUsername == admin
    ensures r.RoundInProgress() == d.RoundInProgress() && r.players == d.players && r.cards == d.cards
    ensures r.previousWord == d.previousWord
    ensures d.Active? ==> && r.card == d.card && r.roundPlayers == d.roundPlayers && r.seen == d.seen
                          && r.starterUsername == d.starterUsername && r.noCardUsername == d.noCardUsername
    ensures WellFormed(d) ==> WellFormed(r)
  {
    match d
    case Idle(p, c, w, _) => Idle(p, c, w, admin)
    case Active(p, c, w, _, x, rp, s, st, nc) => Active(p, c, w, admin, x, rp, s, st, nc)
  }

  /**
   * The data after `username` reports having viewed the card: added to `seen`
   * only during a round, only for a round player, and only once.
   */
  function Viewed(d: RoomData, username: string): (r: RoomData)
    ensures d.Idle? ==> r == d
    ensures d.Active? ==> r.Active? && d.seen <= r.seen
    ensures d.Active? ==> forall u :: u in r.seen <==> u in d.seen || (u == username && u in d.roundPlayers)
    ensures d.Active? ==>
      r.seen == (if username in d.roundPlayers && username !in d.seen then d.seen + [username] else d.seen)
    ensures d.Active? && NoDuplicates(d.seen) ==> NoDuplicates(r.seen)
    ensures r.players == d.players && r.cards == d.cards && r.adminUsername == d.adminUsername
    ensures r.previousWord == d.previousWord
    ensures d.Active? ==> && r.card == d.card && r.roundPlayers == d.roundPlayers
                          && r.starterUsername == d.starterUsername && r.noCardUsername == d.noCardUsername
    ensures WellFormed(d) ==> WellFormed(r)
  {
    match d
    case Idle(_, _, _, _) => d
    case Active(p, c, w, a, x, rp, s, st, nc) =>
      if username in rp && username !in s then Active(p, c, w, a, x, rp, s + [username], st, nc) else d
  }

  /** Reporting twice is the same as reporting once. */
  lemma ViewedIdempotent(d: RoomData, username: string)
    ensures Viewed(Viewed(d, username), username) == Viewed(d, username)
  {
  }

  // ---------------------------------------------------------------------------
  // The card payload as it arrives

  /**
   * What `addCard` receives: the event's declared type is a `{card, player}`
   * object, and that is what the room page sends; a bare string is what the
   * handler's `card.trim()` expects.
   */
  datatype CardPayload = CardText(text: string) | CardObject(card: string, player: string)

  /**
   * The blank test of `addCard` as written: `Some(pushed)` when it runs,
   * `None` when `card.trim` is not a function and the handler throws.
   */
  function AddCardTestAsWritten(payload: CardPayload): (pushed: Option<bool>)
    ensures pushed.None? <==> payload.CardObject?
    ensures payload.CardText? ==> pushed == Some(!IsBlank(payload.text))
  {
    match payload
    case CardText(text) => TrimEmptyIffBlank(text); Some(|Trim(text)| > 0)
    case CardObject(_, _) => None
  }

  /** The payload the room page sends for the word "apple" makes the handler throw. */
  lemma RoomPageCardThrows()
    ensures AddCardTestAsWritten(CardObject("apple", "A")) == None
  {
  }

  // ---------------------------------------------------------------------------
  // The registry and its handlers

  class Registry {
    var rooms: seq<Room>

    /** Every room sits at the index equal to its id, and its data is well formed. */
    ghost predicate Valid()
      reads this, rooms
    {
      forall i :: 0 <= i < |rooms| ==> rooms[i].id == i && WellFormed(rooms[i].data)
    }

    /** The room object an id addresses, if any: what an in-room handler may change. */
    function RoomAt(roomId: int): set<Room>
      reads this
    {
      if 0 <= roomId < |rooms| then {rooms[roomId]} else {}
    }

    constructor ()
      ensures Valid() && rooms == []
    {
      rooms := [];
    }

    /** `validateRoomId`: whether the check passes, and the groups it leaves. */
    method ValidateRoomId(roomId: int, socketRooms: set<string>, joining: bool)
      returns (ok: bool, after: set<string>)
      ensures ok == Admitted(roomId, socketRooms, joining, |rooms|)
      ensures ok ==> 0 <= roomId < |rooms|
      ensures after == GroupsAfterCheck(roomId, socketRooms, joining)
    {
      var err;
      err, after := GetRoomIdError(roomId, socketRooms, joining, |rooms|);
      ok := err == NoError;
    }

    /** `createRoom`: appends a fresh room whose id is its index and acknowledges that id. */
    method CreateRoom(name: string, callbackIsFunction: bool) returns (outcome: Outcome, ack: Option<nat>)
      requires Valid()
      modifies this
      ensures Valid()
      ensures !callbackIsFunction ==> outcome == Ignored && ack == None && rooms == old(rooms)
      ensures callbackIsFunction ==>
        && outcome == Applied(Everyone) && ack == Some(old(|rooms|))
        && |rooms| == old(|rooms|) + 1 && rooms[..old(|rooms|)] == old(rooms)
        && fresh(rooms[old(|rooms|)])
        && rooms[old(|rooms|)].name == name && !rooms[old(|rooms|)].hidden
        && rooms[old(|rooms|)].data == EmptyIdle
    {
      if !callbackIsFunction {
        return Ignored, None;
      }
      var roomId := |rooms|;
      var room := new Room(roomId, name);
      rooms := rooms + [room];
      outcome, ack := Applied(Everyone), Some(roomId);
    }

    /** `joinRoom`: the connection joins the room's group and is sent the room. */
    method JoinRoom(roomId: int, socketRooms: set<string>) returns (outcome: Outcome, after: set<string>)
      ensures Admitted(roomId, socketRooms, true, |rooms|) ==>
        outcome == Applied(Caller) && after == GroupsAfterCheck(roomId, socketRooms, true) + {NatToString(roomId)}
      ensures !Admitted(roomId, socketRooms, true, |rooms|) ==>
        outcome == Ignored && after == GroupsAfterCheck(roomId, socketRooms, true)
    {
      var ok;
      ok, after := ValidateRoomId(roomId, socketRooms, true);
      if !ok {
        return Ignored, after;
      }
      after := after + {NatToString(roomId)};
      outcome := Applied(Caller);
    }

    /** `leaveRoom`: the connection leaves the room's group; nothing is sent. */
    method LeaveRoom(roomId: int, socketRooms: set<string>) returns (outcome: Outcome, after: set<string>)
      ensures Admitted(roomId, socketRooms, false, |rooms|) ==>
        outcome == Applied(Silent) && after == GroupsAfterCheck(roomId, socketRooms, false) - {NatToString(roomId)}
      ensures !Admitted(roomId, socketRooms, false, |rooms|) ==>
        outcome == Ignored && after == GroupsAfterCheck(roomId, socketRooms, false)
    {
      var ok;
      ok, after := ValidateRoomId(roomId, socketRooms, false);
      if !ok {
        return Ignored, after;
      }
      after := after - {NatToString(roomId)};
      outcome := Applied(Silent);
    }

    /**
     * `joinGame`: a new username joins the game. The check is the joining one,
     * and a username already playing is ignored; joining during a round is not
     * guarded against and fails the state machine's assertion.
     */
    method JoinGame(roomId: int, username: string, socketRooms: set<string>) returns (outcome: Outcome, after: set<string>)
      requires Valid()
      modifies RoomAt(roomId)
      ensures Valid()
      ensures after == GroupsAfterCheck(roomId, socketRooms, true)
      ensures !Admitted(roomId, socketRooms, true, |rooms|) ==> outcome == Ignored
      ensures !outcome.Applied? ==> unchanged(RoomAt(roomId))
      ensures Admitted(roomId, socketRooms, true, |rooms|) ==>
        var d := old(rooms[roomId].data);
        && (username in d.players ==> outcome == Ignored)
        && (username !in d.players && d.RoundInProgress() ==> outcome == AssertionFailure)
        && (username !in d.players && !d.RoundInProgress() ==>
              outcome == Applied(Group) && rooms[roomId].data == Joined(d, username))
        && rooms[roomId].hidden == old(rooms[roomId].hidden)
    {
      var ok;
      ok, after := ValidateRoomId(roomId, socketRooms, true);
      if !ok {
        return Ignored, after;
      }
      var room := rooms[roomId];
      if username in room.data.players {
        return Ignored, after;
      }
      if room.data.RoundInProgress() {
        return AssertionFailure, after;
      }
      HandleJoin(room, username);
      outcome := Applied(Group);
    }

    /**
     * `leaveGame` (and `kickPlayer`, whose body is the same): the username
     * leaves the game. Neither the round nor membership is checked first, so
     * both a round in progress and an unknown username fail the assertion.
     */
    method LeaveGame(roomId: int, username: string, socketRooms: set<string>) returns (outcome: Outcome, after: set<string>)
      requires Valid()
      modifies RoomAt(roomId)
      ensures Valid()
      ensures after == GroupsAfterCheck(roomId, socketRooms, false)
      ensures !Admitted(roomId, socketRooms, false, |rooms|) ==> outcome == Ignored
      ensures !outcome.Applied? ==> unchanged(RoomAt(roomId))
      ensures Admitted(roomId, socketRooms, false, |rooms|) ==>
        var d := old(rooms[roomId].data);
        && (d.RoundInProgress() || username !in d.players ==> outcome == AssertionFailure)
        && (!d.RoundInProgress() && username in d.players ==>
              outcome == Applied(Group) && rooms[roomId].data == Left(d, username))
        && rooms[roomId].hidden == old(rooms[roomId].hidden)
    {
      var ok;
      ok, after := ValidateRoomId(roomId, socketRooms, false);
      if !ok {
        return Ignored, after;
      }
      var room := rooms[roomId];
      if room.data.RoundInProgress() || username !in room.data.players {
        return AssertionFailure, after;
      }
      HandleLeave(room, username);
      outcome := Applied(Group);
    }

    /** `kickPlayer`: the same guard and transition as `leaveGame`. */
    method KickPlayer(roomId: int, username: string, socketRooms: set<string>) returns (outcome: Outcome, after: set<string>)
      requires Valid()
      modifies RoomAt(roomId)
      ensures Valid()
      ensures after == GroupsAfterCheck(roomId, socketRooms, false)
      ensures !Admitted(roomId, socketRooms, false, |rooms|) ==> outcome == Ignored
      ensures !outcome.Applied? ==> unchanged(RoomAt(roomId))
      ensures Admitted(roomId, socketRooms, false, |rooms|) ==>
        var d := old(rooms[roomId].data);
        && (d.RoundInProgress() || username !in d.players ==> outcome == AssertionFailure)
        && (!d.RoundInProgress() && username in d.players ==>
              outcome == Applied(Group) && rooms[roomId].data == Left(d, username))
        && rooms[roomId].hidden == old(rooms[roomId].hidden)
    {
      outcome, after := LeaveGame(roomId, username, socketRooms);
    }

    /** `addCard`: a card whose text is not blank joins the pool; the room is broadcast either way. */
    method AddCard(roomId: int, card: string, socketRooms: set<string>) returns (outcome: Outcome, after: set<string>)
      requires Valid()
      modifies RoomAt(roomId)
      ensures Valid()
      ensures after == GroupsAfterCheck(roomId, socketRooms, false)
      ensures !Admitted(roomId, socketRooms, false, |rooms|) ==> outcome == Ignored && unchanged(RoomAt(roomId))
      ensures Admitted(roomId, socketRooms, false, |rooms|) ==>
        var d := old(rooms[roomId].data);
        && outcome == Applied(Group)
        && rooms[roomId].data == (if IsBlank(card) then d else CardAdded(d, card))
        && rooms[roomId].hidden == old(rooms[roomId].hidden)
    {
      var ok;
      ok, after := ValidateRoomId(roomId, socketRooms, false);
      if !ok {
        return Ignored, after;
      }
      var room := rooms[roomId];
      TrimEmptyIffBlank(card);
      if |Trim(card)| > 0 {
        room.data := CardAdded(room.data, card);
      }
      outcome := Applied(Group);
    }

    /** `viewCard`: a round player reports having seen the card, once. */
    method ViewCard(roomId: int, username: string, socketRooms: set<string>) returns (outcome: Outcome, after: set<string>)
      requires Valid()
      modifies RoomAt(roomId)
      ensures Valid()
      ensures outcome != AssertionFailure
      ensures after == GroupsAfterCheck(roomId, socketRooms, false)
      ensures !Admitted(roomId, socketRooms, false, |rooms|) ==> outcome == Ignored
      ensures !outcome.Applied? ==> unchanged(RoomAt(roomId))
      ensures Admitted(roomId, socketRooms, false, |rooms|) ==>
        var d := old(rooms[roomId].data);
        && (outcome.Applied? <==> d.RoundInProgress() && username in d.roundPlayers && username !in d.seen)
        && (outcome.Applied? ==> outcome == Applied(Group))
        && rooms[roomId].data == Viewed(d, username)
        && rooms[roomId].hidden == old(rooms[roomId].hidden)
    {
      var ok;
      ok, after := ValidateRoomId(roomId, socketRooms, false);
      if !ok {
        return Ignored, after;
      }
      var room := rooms[roomId];
      if !room.data.RoundInProgress() {
        return Ignored, after;
      }
      if username !in room.data.roundPlayers {
        return Ignored, after;
      }
      if username in room.data.seen {
        return Ignored, after;
      }
      room.data := Viewed(room.data, username);
      outcome := Applied(Group);
    }

    /** `beAdmin`: anyone in the room's group may name any username as admin. */
    method BeAdmin(roomId: int, username: string, socketRooms: set<string>) returns (outcome: Outcome, after: set<string>)
      requires Valid()
      modifies RoomAt(roomId)
      ensures Valid()
      ensures after == GroupsAfterCheck(roomId, socketRooms, false)
      ensures !Admitted(roomId, socketRooms, false, |rooms|) ==> outcome == Ignored && unchanged(RoomAt(roomId))
      ensures Admitted(roomId, socketRooms, false, |rooms|) ==>
        && outcome == Applied(Group)
        && rooms[roomId].data == AdminSet(old(rooms[roomId].data), Some(username))
        && rooms[roomId].hidden == old(rooms[roomId].hidden)
    {
      var ok;
      ok, after := ValidateRoomId(roomId, socketRooms, false);
      if !ok {
        return Ignored, after;
      }
      var room := rooms[roomId];
      room.data := AdminSet(room.data, Some(username));
      outcome := Applied(Group);
    }

    /** `revokeAdmin`: clears the admin. */
    method RevokeAdmin(roomId: int, socketRooms: set<string>) returns (outcome: Outcome, after: set<string>)
      requires Valid()
      modifies RoomAt(roomId)
      ensures Valid()
      ensures after == GroupsAfterCheck(roomId, socketRooms, false)
      ensures !Admitted(roomId, socketRooms, false, |rooms|) ==> outcome == Ignored && unchanged(RoomAt(roomId))
      ensures Admitted(roomId, socketRooms, false, |rooms|) ==>
        && outcome == Applied(Group)
        && rooms[roomId].data == AdminSet(old(rooms[roomId].data), None)
        && rooms[roomId].hidden == old(rooms[roomId].hidden)
    {
      var ok;
      ok, after := ValidateRoomId(roomId, socketRooms, false);
      if !ok {
        return Ignored, after;
      }
      var room := rooms[roomId];
      room.data := AdminSet(room.data, None);
      outcome := Applied(Group);
    }

    /**
     * `startRound`: only an idle room with two players and a card starts a
     * round, so the state machine's assertions always hold here.
     */
    method StartRound(roomId: int, socketRooms: set<string>) returns (outcome: Outcome, after: set<string>)
      requires Valid()
      modifies RoomAt(roomId)
      ensures Valid()
      ensures outcome != AssertionFailure
      ensures after == GroupsAfterCheck(roomId, socketRooms, false)
      ensures !Admitted(roomId, socketRooms, false, |rooms|) ==> outcome == Ignored
      ensures !outcome.Applied? ==> unchanged(RoomAt(roomId))
      ensures Admitted(roomId, socketRooms, false, |rooms|) ==>
        var d := old(rooms[roomId].data);
        && (d.RoundInProgress() || |d.players| < 2 || |d.cards| == 0 ==> outcome == Ignored)
        && (!d.RoundInProgress() && |d.players| >= 2 && |d.cards| > 0 ==>
              && outcome == Applied(Group)
              && exists cardI: nat, starterI: nat, noCardI: nat ::
                   && cardI < |d.cards| && starterI < |d.players| && noCardI < |d.players|
                   && rooms[roomId].data == Started(d, cardI, starterI, noCardI))
        && rooms[roomId].hidden == old(rooms[roomId].hidden)
    {
      var ok;
      ok, after := ValidateRoomId(roomId, socketRooms, false);
      if !ok {
        return Ignored, after;
      }
      var room := rooms[roomId];
      if room.data.RoundInProgress() {
        return Ignored, after;
      }
      if |room.data.players| < 2 {
        return Ignored, after;
      }
      if |room.data.cards| == 0 {
        return Ignored, after;
      }
      var cardI, starterI, noCardI := Logic.StartRound(room);
      outcome := Applied(Group);
    }

    /** `endRound`: only a round in progress is ended, so the assertion always holds here. */
    method EndRound(roomId: int, socketRooms: set<string>) returns (outcome: Outcome, after: set<string>)
      requires Valid()
      modifies RoomAt(roomId)
      ensures Valid()
      ensures outcome != AssertionFailure
      ensures after == GroupsAfterCheck(roomId, socketRooms, false)
      ensures !Admitted(roomId, socketRooms, false, |rooms|) ==> outcome == Ignored
      ensures !outcome.Applied? ==> unchanged(RoomAt(roomId))
      ensures Admitted(roomId, socketRooms, false, |rooms|) ==>
        var d := old(rooms[roomId].data);
        && (!d.RoundInProgress() ==> outcome == Ignored)
        && (d.RoundInProgress() ==> outcome == Applied(Group) && rooms[roomId].data == Ended(d))
        && rooms[roomId].hidden == old(rooms[roomId].hidden)
    {
      var ok;
      ok, after := ValidateRoomId(roomId, socketRooms, false);
      if !ok {
        return Ignored, after;
      }
      var room := rooms[roomId];
      if !room.data.RoundInProgress() {
        return Ignored, after;
      }
      Logic.EndRound(room);
      outcome := Applied(Group);
    }

    /**
     * `resetRoom`: the entry is replaced by a freshly generated room with the
     * same id and name, which is visible again even if it had been deleted.
     */
    method ResetRoom(roomId: int, socketRooms: set<string>) returns (outcome: Outcome, after: set<string>)
      requires Valid()
      modifies this
      ensures Valid()
      ensures after == GroupsAfterCheck(roomId, socketRooms, false)
      ensures !Admitted(roomId, socketRooms, false, |rooms|) ==> outcome == Ignored && rooms == old(rooms)
      ensures Admitted(roomId, socketRooms, false, |rooms|) ==>
        && outcome == Applied(Group)
        && |rooms| == old(|rooms|)
        && rooms == old(rooms)[roomId := rooms[roomId]]
        && fresh(rooms[roomId])
        && rooms[roomId].id == roomId && rooms[roomId].name == old(rooms[roomId].name)
        && !rooms[roomId].hidden && rooms[roomId].data == EmptyIdle
    {
      var ok;
      ok, after := ValidateRoomId(roomId, socketRooms, false);
      if !ok {
        return Ignored, after;
      }
      var room := new Room(rooms[roomId].id, rooms[roomId].name);
      rooms := rooms[roomId := room];
      outcome := Applied(Group);
    }

    /** `deleteRoom`: hides the room from the listing; its data stays as it was. */
    method DeleteRoom(roomId: int, socketRooms: set<string>) returns (outcome: Outcome, after: set<string>)
      requires Valid()
      modifies RoomAt(roomId)
      ensures Valid()
      ensures after == GroupsAfterCheck(roomId, socketRooms, false)
      ensures !Admitted(roomId, socketRooms, false, |rooms|) ==> outcome == Ignored && unchanged(RoomAt(roomId))
      ensures Admitted(roomId, socketRooms, false, |rooms|) ==>
        && outcome == Applied(GroupAndEveryone)
        && rooms[roomId].hidden
        && rooms[roomId].data == old(rooms[roomId].data)
    {
      var ok;
      ok, after := ValidateRoomId(roomId, socketRooms, false);
      if !ok {
        return Ignored, after;
      }
      rooms[roomId].hidden := true;
      outcome := Applied(GroupAndEveryone);
    }
  }
}
