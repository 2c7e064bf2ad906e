# Marbleous room lifecycle, modelled in Dafny

Marbleous is a multiplayer arcade game server. At start-up it creates a fixed
pool of ten rooms, `room-1` to `room-10`, each with room for ten players and
starting in the lobby phase (`LOBBY_VOTING`). Connections join a room and are
put on team `A` or `B` by the parity of the room's player counter. They toggle
their ready flag; a strict majority of ready players (with at least two
players) starts the game (`IN_PROGRESS`). A placeholder timer eliminates one
living player. The game ends (`GAME_OVER`) when the living players belong to at
most one team. A second timer then returns the room to the lobby with every
player unready and alive. Disconnecting removes the player and re-runs the win
check if a game is running.

This project models that state machine as pure functions over immutable
values:

- `RoomIds` (`room_ids.dfy`): the decimal rendering of room numbers. It builds
  the identifiers `room-<i>` and names `Salon de Jeu <i>`, and proves that
  distinct numbers give distinct identifiers.
- `Rooms` (`rooms.dfy`): the `Room` record (`players`, `playerCount`,
  `maxPlayers`, `gameState`) and every handler of one room as a transition,
  with the invariants `WellFormed` and `Consistent`.
- `RoomProperties` (`room_properties.dfy`): lemmas about the room handlers.
  They cover the invariants, the start and win rules, the reset, and a
  complete two-player round.
- `Registry` (`registry.dfy`): the server state, which is the room pool plus
  the room each connection joined last (`socket.roomId`). It also holds the
  socket handlers, the two timer callbacks as explicit transitions, and the
  room list.
- `RegistryProperties` (`registry_properties.dfy`): the start-up pool, the
  invariants over any sequence of events, the allowed phase changes, and what
  the room list says about joining.

Two counter invariants are kept apart. `WellFormed` says
`|players| <= playerCount <= maxPlayers`; every handler keeps it, whatever
connections do. `Consistent` adds `playerCount == |players|`. It holds only
while every join comes from a connection not already seated in the target
room: the join handler increments the counter even when it overwrites an
existing entry (`RejoinBreaksConsistency`).

Facts about the handlers that the model keeps:

- The start rule is a strict majority of the counted players, with at least
  two players counted.
- The win rule counts living teams: the game ends when at most one team has a
  living player.
- Players carry a team assigned at join time.
- Joining is allowed in every phase.
- The source tests `ready > playerCount / 2` in floating-point division. For
  integers this is `2 * ready > playerCount`, which the model uses.
- The team parity test `playerCount % 2 === 0` gives the same team under
  Dafny's Euclidean `%` even for a negative counter.

## Model

| member | source | states |
|---|---|---|
| Registry.InitialRooms | server.js:20-30 | the start-up loop creates exactly n distinct rooms keyed `room-1`..`room-n`, each an empty lobby room with its own id and name |
| RegistryProperties.InitialPoolShape | server.js:20-30 | at start-up there are exactly ten rooms, whose keys are exactly `room-1` to `room-10`, and no connection is seated |
| RegistryProperties.InitialPoolRooms | server.js:20-30 | at start-up every room has its key as id, no players, counter 0, capacity 10 and the lobby phase, so every counter is consistent |
| RegistryProperties.PoolIdentifiers | server.js:21-24 | the template strings give `room-1`, `room-10` and `Salon de Jeu 1` |
| RoomIds.RoomIdInjective | server.js:21 | two room numbers with the same `room-<i>` identifier are equal, so the pool has no key collision |
| RoomIds.DecimalInjective | server.js:21 | the decimal rendering of a number determines the number |
| Rooms.Join | server.js:47-61 | a room whose counter has reached its capacity refuses with the full-room error; otherwise the joiner is seated not ready, alive, on team A for an even counter and B for an odd one, the counter rises by one, and no other player, the phase and the header change |
| Registry.OnJoinRoom | server.js:40-61 | with the room looked up among the pool's own keys, an unknown room id is refused as invalid and a full room as full, both leaving the whole server unchanged; otherwise only the target room changes, as the room join does, and the connection remembers that room |
| Registry.PropertyLookup | server.js:41 | the property read finds a room exactly for a pool key, and a truthy built-in exactly for an inherited `Object.prototype` name that is not a pool key |
| Registry.JoinAsWritten | server.js:40-61 | the handler as written throws exactly for an inherited name that is not a pool key, after recording that name as the connection's room and with no room changed; on every other id it answers as the own-key join does |
| RegistryProperties.InheritedNamesOutsidePool | server.js:21 | no `room-<i>` identifier is an inherited property name |
| RegistryProperties.InheritedNameThrows | server.js:41-55 | in any state whose rooms are keyed `room-<i>`, joining an inherited name makes the handler as written throw while the own-key join refuses it as invalid and changes nothing |
| RegistryProperties.ReachableKeysArePoolIds | server.js:19-30 | every room of a state reachable from start-up is keyed `room-<i>`, so the previous row applies to every reachable state |
| RoomProperties.JoinKeepsWellFormed | server.js:47-61 | any join keeps the counter between the number of seated players and the capacity |
| RoomProperties.JoinKeepsConsistent | server.js:55-61 | a join by an id not yet seated keeps the counter equal to the number of seated players |
| RoomProperties.RejoinBreaksConsistency | server.js:55-61 | a second join by an already seated id is accepted while the counter allows and leaves the counter one above the number of seated players |
| RegistryProperties.RejoinBreaksServerConsistency | server.js:40-61 | the same failure of the counter invariant for the server handler |
| RoomProperties.ConsecutiveJoinsAlternateTeams | server.js:59 | two successive joins of different ids land on opposite teams |
| RegistryProperties.SwitchingRoomsStrandsPlayer | server.js:52-53 | a connection seated in one room that joins another stays seated in the first, and its later disconnect leaves only the second room |
| Rooms.ToggleReady | server.js:73-75 | the ready toggle flips exactly the caller's ready flag and changes nothing else; a caller who is not seated changes nothing |
| RoomProperties.ToggleReadyInvolution | server.js:75 | toggling twice restores the room |
| RoomProperties.ToggleReadyCount | server.js:75 | a toggle moves the ready count by exactly one, down when the caller was ready and up otherwise |
| Rooms.PlayerReady | server.js:72-78 | a seated caller toggles and then the start check runs; anyone else leaves the room unchanged; membership and counter never change |
| Registry.OnPlayerReady | server.js:71-79 | a caller with no room, or not seated in its room, changes nothing; otherwise only that room changes, by the room ready handler |
| Rooms.CheckGameStart | server.js:126-138 | the phase changes exactly when the room is in the lobby and at least two players are counted with a strict majority ready; then it becomes in progress with every player alive and ready flags, teams and membership kept; otherwise the room is unchanged |
| Rooms.StartGame | server.js:140-147 | starting sets the phase to in progress and every player alive, keeping ready flags, teams and membership |
| RoomProperties.UnanimousReadyStarts | server.js:135 | a lobby of two or more players who are all ready starts |
| RoomProperties.HalfReadyDoesNotStart | server.js:135 | half of the counted players ready is not enough |
| RoomProperties.LonePlayerNeverStarts | server.js:135 | fewer than two counted players never start |
| RoomProperties.MajorityIsEnough | server.js:134-135 | two ready players out of three start the game |
| RoomProperties.FirstVoteWaits | server.js:131-135 | in a two-player lobby with nobody ready, the first vote only toggles: one ready of two is no majority |
| RoomProperties.SecondVoteStarts | server.js:131-136 | in a two-player lobby with one vote in, the other player's vote toggles and starts the game |
| Rooms.ActiveTeamsAtMostOne | server.js:162-169 | the set of living teams has at most one element exactly when all living players share a team, and is empty exactly when nobody is alive |
| Rooms.WinningTeam | server.js:170 | the reported team is absent exactly when nobody is alive, and otherwise is the team of every living player |
| Rooms.CheckWinCondition | server.js:157-173 | outside a running game nothing happens; in a running game the game ends exactly when all living players share a team, the room moves to game over with nothing else changed, and the reported winner is that team or none when nobody is alive |
| Rooms.EndGame | server.js:175-178 | ending sets the phase to game over and changes nothing else |
| RoomProperties.BothTeamsAliveContinues | server.js:169 | a running game with a living player on each team continues unchanged |
| RoomProperties.NoGameOverOutsidePlay | server.js:160 | outside a running game the win check, the elimination step and a disconnect never report a game over |
| Rooms.ResetAfterGameOver | server.js:183-189 | the reset returns the room to the lobby with every seated player not ready and alive, teams and membership kept |
| Registry.OnResetTimer | server.js:183-192 | the reset timer changes only its own room, by the reset |
| RoomProperties.ResetClearsFlags | server.js:186-189 | after the reset the ready count is zero and every seated player is alive |
| RoomProperties.ResetIdempotent | server.js:183-189 | resetting twice equals resetting once |
| RoomProperties.ResetDoesNotRestart | server.js:183-189 | a freshly reset room does not start until someone votes |
| RegistryProperties.ResetReturnsToLobby | server.js:183-192 | the reset timer sends its room to the lobby and touches no other room |
| Rooms.Disconnect | server.js:94-101 | a seated player is removed with the counter down by one and no other player changed; the game ends exactly when it was running and the remaining living players share a team, reporting no winner exactly when nobody remains alive and otherwise the team of every remaining living player; a player who is not seated changes nothing |
| Registry.OnDisconnect | server.js:88-107 | the connection's room record is dropped; if it is seated in the room it joined last, only that room changes, by the room disconnect; otherwise no room changes and no game ends |
| RoomProperties.HandlersKeepInvariants | server.js:88-108 | ready votes, the win check and disconnects keep both counter invariants |
| RoomProperties.ResetKeepsRoomInvariants | server.js:183-189 | the reset after a game keeps both counter invariants |
| Rooms.Eliminate | server.js:196-213 | in a running game with more than one living player exactly the chosen living player is marked dead, nothing else changes, and the game ends exactly when the remaining living players share a team, reporting no winner exactly when nobody remains alive and otherwise the team of every remaining living player; otherwise nothing changes |
| Registry.OnEliminationTimer | server.js:196-216 | the elimination timer changes only its own room, by the elimination step, and does nothing for an unknown room |
| RoomProperties.EliminationNeverDraws | server.js:200-213 | the elimination step leaves someone alive, so a game it ends always has a winning team |
| RoomProperties.EliminateKeepsInvariants | server.js:196-213 | the elimination step keeps both counter invariants |
| RoomProperties.TwoPlayerRound | server.js:55-213 | two players join on teams A and B; one ready vote of two does not start, the second does; eliminating the first ends the game with team B winning; the reset returns to an unready lobby |
| Registry.RoomList | server.js:113-124 | the room list has one entry per room, copying its id, name, counter and capacity |
| RegistryProperties.ListedFullIffJoinRefused | public/lobby.js:17 | a room the lobby shows as full is exactly a room whose join is refused as full |
| RegistryProperties.JoinKeepsInvariants | server.js:40-61 | a join keeps the room pool and the counter bounds, and a fresh join keeps every counter exact |
| RegistryProperties.ReadyKeepsInvariants | server.js:71-79 | a ready vote keeps the pool and both counter invariants |
| RegistryProperties.DisconnectKeepsInvariants | server.js:88-108 | a disconnect keeps the pool and both counter invariants |
| RegistryProperties.EliminationKeepsInvariants | server.js:196-216 | the elimination timer keeps the pool and both counter invariants |
| RegistryProperties.ResetKeepsInvariants | server.js:183-192 | the reset timer keeps the pool and both counter invariants |
| RegistryProperties.HandlersOnlyMoveForward | server.js:140-178 | a join never changes a phase, a ready vote can only move lobby to in progress, and a disconnect or elimination can only move in progress to game over |
| RegistryProperties.RunKeepsPool | server.js:19-30 | after any sequence of events the pool has the same rooms with the same ids, names and capacities, and every counter stays within its bounds |
| RegistryProperties.FreshRunKeepsConsistent | server.js:55-96 | when every join is fresh, any sequence of events keeps each counter equal to its room's number of seated players |
| RegistryProperties.RunFromPool | server.js:19-30 | from ten rooms with exact counters, any sequence of events keeps the same ten rooms with bounded counters, and exact counters when every join is fresh |
| RegistryProperties.ReachableKeepsPool | server.js:19-30 | every state reachable from start-up has the same ten rooms and bounded counters, and exact counters when every join was fresh |

## Left out

- Transport: the Express and socket.io setup, every `emit`, broadcast and
  log line (server.js:1-13, 32-37, 63-67, 77, 104-105, 149-150, 179-180,
  190, 208-212). The handlers return the game-over report (winning team or
  none) and the join error as values instead of emitting them.
- Time: the ten-second `setTimeout` calls (server.js:154, 183-192) are
  modelled as the transitions `OnEliminationTimer` and `OnResetTimer`. A
  sequence of events may fire either timer for any room at any moment and any
  number of times, which over-approximates the source: there a start schedules
  exactly one elimination and a game over exactly one reset, each ten seconds
  later.
- The inactivity sweep and heartbeats (server.js:17, 34, 83-85, 220-229),
  which depend on the clock and on forced socket disconnects. A forced
  disconnect is an ordinary `OnDisconnect`.
- `Math.random` in the elimination (server.js:203): the victim is a
  parameter required to be a living player whenever the step acts.
- RegistryProperties.Apply: an elimination event whose victim is not a
  living player is dropped from a sequence of events, because the random pick
  never makes such a choice.
- The client pages public/game.js and public/lobby.js (DOM rendering,
  heartbeats). The lobby's full-room test appears only to relate it to the
  server's capacity check.
- Registry.OnJoinRoom: the room id is taken to be a string. A payload of
  another type is converted to a string by the property read (an array
  `["room-1"]` finds `room-1`); that conversion is not modelled.
- Registry.JoinAsWritten: what the exception does next is not modelled. The
  state it returns is the one left behind if the process survives; a later
  disconnect of that connection would read `players` from the built-in again.
- The bubble-matching play itself: no game-play code is in server.js, so there
  is nothing of it to model.

## Findings

| source | as written | input that shows it | evidently intended | confidence | as-written member | corrected member |
|---|---|---|---|---|---|---|
| server.js:41-55 | the room guard tests the truthiness of `rooms[roomId]`, which also finds names inherited from `Object.prototype`; the capacity test `undefined >= undefined` is false, the name is recorded as the connection's room, and writing into the missing `players` throws a TypeError inside the listener | `joinRoom("constructor")`, for instance from the page `/game.html?room=constructor` | only the pool's own keys are rooms, so the request is refused as an invalid room | high (not executed) | Registry.JoinAsWritten, RegistryProperties.InheritedNameThrows | Registry.OnJoinRoom |
