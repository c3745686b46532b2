# Party word game server, modelled in Dafny

This project models the server side of a party word-guessing game. Players
gather in rooms. In each round one word card is drawn from the room's pool,
every player but one is meant to see it, and players report having viewed it.

The model covers two parts of the server.

- **The round state machine** (`backend/src/logic.ts`). It generates a fresh
  room, lets a player join or leave an idle room, starts a round and ends it.
- **The room registry and its event handlers** (`backend/src/index.ts`). The
  registry is the list of rooms indexed by id. An access check tests a claimed
  room id against the connection's transport groups and evicts stale room
  groups. Each event handler is a chain of guards followed by one change.

## Layout

- `wrappers.dfy`: `Option`, the model of TypeScript's `T | null`.
- `js_builtins.dfy`: the JavaScript built-ins the server depends on, written
  out. These are `trim`, `toString` on ids, the `/^\d+$/u` test with
  `parseInt`, and `indexOf` with `splice(i, 1)`.
- `room_types.dfy`: `RoomData`, the room state as a tagged union. `Idle` and
  `Active` stand for `roundInProgress` false and true. `WellFormed` is the
  invariant every reachable state keeps.
- `logic.dfy`: class `Room` (its constructor is `generateRoom`) and the four
  transitions. Each transition is a method that changes `room.data` in place.
  Each is specified by a function of the old data (`Joined`, `Left`,
  `Started`, `Ended`), and that function's contract states what the
  transition promises.
- `server.dfy`: the access check, class `Registry` and one method per socket
  event.
- `scenarios.dfy`: whole games played through the handlers.

## Modelling choices

- A card is its text. `addCard` applies the blank test to that text.
- Each handler takes the connection's group set (`socket.rooms`) and returns
  the set as the access check left it. `joinRoom` and `leaveRoom` return it
  with the room's group added or removed.
- Each handler also returns an `Outcome`:
  - `Ignored`: the handler returned early and sent nothing.
  - `Applied(scope)`: the handler ran to the end. `scope` records who receives
    the broadcast.
  - `AssertionFailure`: a state machine `assert.ok` threw. The registry is left
    as it was when the throw happened.
- The random draws (`Math.floor(Math.random() * n)`) are nondeterministic
  choices of an index below `n`. `Logic.StartRound` returns them.
- The state machine shares no array between two fields (`roundPlayers` is a
  `structuredClone`, and `seen` starts as a fresh `[]`). So a room's data is
  modelled as a value that the transitions reassign.
- Two properties one might expect do not hold of the code. The model follows
  the code:
  - `hidden` is not one-way. `resetRoom` regenerates the room, and a
    regenerated room is visible again (`Scenarios.DeleteThenReset`).
  - The drawn card can still be in the pool, because the pool may hold the
    same word twice (`Logic.DrawnWordMayRemainInPool`).
- What `joinGame`, `leaveGame` and `kickPlayer` do mid-round is pinned down.
  None of them checks `roundInProgress`, and `leaveGame` and `kickPlayer` do
  not check membership either. So they can reach the state machine's
  assertions. Their contracts state when the outcome is `AssertionFailure`.
  `Scenarios.KickDuringRound` shows that kicking a player mid-round fails.

## Model

| member | source | states |
|---|---|---|
| `JsBuiltins.TrimEmptyIffBlank` | backend/src/index.ts:100 | `card.trim().length > 0` holds exactly when the text has a character that is not JavaScript whitespace |
| `JsBuiltins.NatToString` | backend/src/index.ts:21 | the group name of a room id is a non-empty run of digits with no leading zero |
| `JsBuiltins.ParseNatToString` | backend/src/index.ts:25 | `parseInt` of a room id's group name gives back the id |
| `JsBuiltins.NatToStringInjective` | backend/src/index.ts:21 | different room ids have different group names |
| `JsBuiltins.IndexOf` | backend/src/logic.ts:29 | `indexOf` of a present player is a position holding that player with no earlier occurrence |
| `JsBuiltins.SpliceAtIndexOf` | backend/src/logic.ts:29-30 | splicing at `indexOf` removes exactly the first occurrence and keeps the rest in order |
| `Logic.Room.constructor` | backend/src/logic.ts:5-16 | `generateRoom(id, name)`: that id and name, not hidden, idle, no players or cards, no previous word, no admin |
| `Logic.Joined` | backend/src/logic.ts:18-23 | joining appends the player: old players are a prefix, length grows by one, membership gains exactly the player, no duplicates are kept, the other fields are unchanged |
| `Logic.HandleJoin` | backend/src/logic.ts:18-23 | requires idle and a new player (the two asserts), and updates the room's data in place as `Joined` says |
| `Logic.Left` | backend/src/logic.ts:25-31 | leaving removes the first occurrence (matching a reference definition), length drops by one, the multiset loses one copy, no duplicates means the player is gone, the other fields are unchanged |
| `Logic.HandleLeave` | backend/src/logic.ts:25-31 | requires idle and a present player (the two asserts), and updates the room's data in place as `Left` says |
| `Logic.Started` | backend/src/logic.ts:33-50 | starting draws card `cardI` (the pool shrinks by one and keeps its order, and pool plus card equals the old pool), snapshots the players, empties `seen`, takes the starter and the no-card player from positions `starterI` and `noCardI` of the players, and keeps the invariant |
| `Logic.StartRound` | backend/src/logic.ts:33-50 | requires idle, at least 2 players and a card (the three asserts), draws in-range indices and updates the data as `Started` says |
| `Logic.Ended` | backend/src/logic.ts:52-62 | ending gives an idle state whose previous word is the round's card, with players, cards and admin unchanged, and keeps the invariant |
| `Logic.EndRound` | backend/src/logic.ts:52-62 | requires a round in progress (the assert) and updates the data as `Ended` says |
| `Logic.LeaveUndoesJoin` | backend/src/logic.ts:18-31 | a player who joins and then leaves restores the room's data exactly |
| `Logic.RoundConsumesOneCard` | backend/src/logic.ts:33-62 | over a whole round players and admin are unchanged, the drawn card becomes the previous word, and the pool loses exactly that card |
| `Logic.StarterMayGetNoCard` | backend/src/logic.ts:47-48 | the starter and the no-card player are drawn independently: in every room that can start a round, any player can be drawn as both |
| `Logic.DrawnWordMayRemainInPool` | backend/src/logic.ts:38-39 | with a duplicated word in the pool, the drawn word is still in the pool after the draw |
| `Server.EvictionKeepsOnlyClaimedRoom` | backend/src/index.ts:22-28 | after eviction every all-digit group parses to the claimed id, every other group is kept, and so is the claimed room's own group |
| `Server.EvictStaleGroups` | backend/src/index.ts:22-28 | the collect-then-delete loops remove exactly the all-digit groups that parse to another id |
| `Server.GetRoomIdError` | backend/src/index.ts:16-32 | the first failing check in a fixed order (invalid id, not in any room, not in this room, out of range), `NoError` exactly when all pass, eviction of stale groups before the range check when there are more than two groups |
| `Server.JoinedGroupAdmits` | backend/src/index.ts:60-66 | after `joinRoom` adds the room's group to a connection with its own private group, the in-room check for that room passes |
| `Server.CardAdded` | backend/src/index.ts:100 | pushing a card appends it to the pool in either variant, leaves every other field unchanged and keeps the invariant |
| `Server.AdminSet` | backend/src/index.ts:123 | setting or clearing the admin changes only `adminUsername` (every other field, round-only ones included, is stated unchanged) and keeps the invariant |
| `Server.Viewed` | backend/src/index.ts:109-114 | during a round `seen` becomes the old `seen` plus the user exactly when the user is a round player not yet in it, and is unchanged otherwise; no duplicates are introduced, every other field is unchanged, and idle data is untouched |
| `Server.ViewedIdempotent` | backend/src/index.ts:110-114 | viewing twice has the same effect as viewing once |
| `Server.AddCardTestAsWritten` | backend/src/index.ts:100 | the handler's blank test throws for a `{card, player}` payload and tests the text of a string payload |
| `Server.RoomPageCardThrows` | frontend/src/routes/Room.tsx:36 | the payload the room page sends for "apple" makes the test throw |
| `Server.Registry.constructor` | backend/src/index.ts:14 | the registry starts empty and valid |
| `Server.Registry.ValidateRoomId` | backend/src/index.ts:34-38 | true exactly when the access check passes, in which case the id indexes the registry |
| `Server.Registry.CreateRoom` | backend/src/index.ts:50-58 | with a callback, appends a fresh visible idle room named `name` whose id is the old length and acknowledges that id; without one, nothing changes |
| `Server.Registry.JoinRoom` | backend/src/index.ts:60-66 | with the joining check passed, the connection joins the room's group and is sent the room; otherwise it is ignored |
| `Server.Registry.LeaveRoom` | backend/src/index.ts:68-72 | with the in-room check passed, the connection leaves the room's group and nothing is sent |
| `Server.Registry.JoinGame` | backend/src/index.ts:74-84 | uses the joining check; a username already playing is ignored with no change; a new one mid-round is an assertion failure; otherwise the data becomes `Joined` |
| `Server.Registry.LeaveGame` | backend/src/index.ts:86-94 | an assertion failure mid-round or for a username not playing; otherwise the data becomes `Left` |
| `Server.Registry.KickPlayer` | backend/src/index.ts:137-144 | the same guard and effect as `leaveGame` |
| `Server.Registry.AddCard` | backend/src/index.ts:96-103 | appends the text only when it is not blank, and broadcasts either way |
| `Server.Registry.ViewCard` | backend/src/index.ts:105-116 | applied exactly when a round is in progress, the username is a round player and has not viewed yet; the data becomes `Viewed` |
| `Server.Registry.BeAdmin` | backend/src/index.ts:118-126 | any connection in the room may name any username as admin |
| `Server.Registry.RevokeAdmin` | backend/src/index.ts:128-135 | clears the admin |
| `Server.Registry.StartRound` | backend/src/index.ts:146-157 | never an assertion failure; ignored unless the room is idle with at least 2 players and a card, and then the data becomes `Started` for some in-range draws |
| `Server.Registry.EndRound` | backend/src/index.ts:159-166 | never an assertion failure; ignored unless a round is in progress, and then the data becomes `Ended` |
| `Server.Registry.ResetRoom` | backend/src/index.ts:168-173 | replaces only that entry, with a fresh room of the same id and name that is visible and idle |
| `Server.Registry.DeleteRoom` | backend/src/index.ts:175-181 | sets `hidden` and leaves the data as it was; the broadcast goes to the room and to everyone |
| `Scenarios.SetUpGame` | backend/src/index.ts:50-103 | creating "Test", joining its group, adding two cards and seating A and B (A twice) gives players `["A", "B"]` and cards `["apple", "pear"]` |
| `Scenarios.StartGame` | backend/src/index.ts:146-157 | starting that game snapshots `["A", "B"]`, empties `seen` and leaves the card not drawn as the only one in the pool |
| `Scenarios.OneRound` | backend/src/index.ts:105-166 | both players end up in `seen` once (a repeated view is ignored); after the round ends the room is idle with the same players, its previous word is one of the two cards and the other is still in the pool |
| `Scenarios.KickDuringRound` | backend/src/index.ts:137-144 | kicking a player while a round is in progress fails the leave assertion |
| `Scenarios.DeleteThenReset` | backend/src/index.ts:168-181 | a deleted room is hidden, and resetting it makes it visible again |

`Server.Registry.Valid` is kept by every handler. It says two things. Every
room sits at the index equal to its id (`rooms[i].id == i`, from
backend/src/index.ts:53-54 and 171). Every room's data is `WellFormed`:
- players have no duplicates;
- during a round `roundPlayers` equals `players`;
- a card was drawn;
- the starter and the no-card player are round players;
- `seen` lists distinct round players.

## Left out

- The Express, HTTP and socket.io setup, and every `emit`, are transport. Only
  the scope of each broadcast is recorded, in `Outcome`. The `createRoom`
  callback is modelled as the acknowledged id.
- `socket.join` and `socket.leave` are awaited. Other events may run during
  that wait. The model treats the group change as immediate, so it does not
  capture that interleaving.
- `console.warn` in `validateRoomId` is diagnostics only.
- Payload shape validation is not modelled. The room id is an `int` and the
  username a `string`. A non-integer or non-numeric id cannot be expressed,
  though the source rejects both at the first check.
- `getRoomIdError` takes the group set as nullable, defaulting to null. Every
  caller passes `socket.rooms`, so the model takes a set and leaves out the
  null path.
- JavaScript numbers beyond 2^53 are left out. So are ids that `toString`
  writes in exponent form. `parseInt` on such long digit strings is left out
  too.
- Strings are sequences of Unicode scalar values, not UTF-16 code units.
- What happens after an assertion failure is not modelled. In the running
  server the exception escapes the handler.
- `Logic.StartRound`: the draws may be any in-range indices. The uniform
  distribution of `Math.random` is not modelled.
- The frontend is not part of this model. It is the React pages, the local
  login and the socket client. The room page's `{card, player}` payload is
  used only for the finding below.

## Findings

| source | as written | input that shows it | evidently intended | confidence | as-written member | corrected member |
|---|---|---|---|---|---|---|
| backend/src/index.ts:100 | `card.trim()` is called on the payload, but the event's declared type and the room page (frontend/src/routes/Room.tsx:36) send a `{card, player}` object, which has no `trim`, so the handler throws | `addCard(0, {card: "apple", player: "A"})` | test the card's text for blankness and add the text to the pool | not executed; medium (the declared types disagree with the handler) | `Server.AddCardTestAsWritten` (with `Server.RoomPageCardThrows`) | `Server.Registry.AddCard` |
