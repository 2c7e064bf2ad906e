/** One game room of the server and the handlers of its lifecycle
    (lobby vote, game in progress, game over, back to the lobby), each written
    as a pure transition from the room before the event to the room after it.
    Sockets, broadcasts, logging and timers are outside this module: a timer
    callback becomes a transition of its own (`Eliminate`, `ResetAfterGameOver`)
    that the caller applies when the timer fires. */
module Rooms {

  type PlayerId = string

  datatype Option<T> = None | Some(value: T)

  /** The two teams; a player's team is fixed when the player joins. */
  datatype Team = A | B

  /** The three phases of a room. */
  datatype GameState = LobbyVoting | InProgress | GameOver

  datatype Player = Player(id: PlayerId, isReady: bool, isAlive: bool, team: Team)

  /** `playerCount` is a counter the handlers keep beside `players`; nothing
      forces it to equal the number of entries of `players`. */
  datatype Room = Room(
    id: string,
    name: string,
    players: map<PlayerId, Player>,
    playerCount: int,
    maxPlayers: int,
    gameState: GameState)

  /** Why a join request is refused. */
  datatype JoinError = InvalidRoom | RoomFull

  datatype JoinResult = Joined(room: Room) | Rejected(error: JoinError)

  /** Whether a handler ended the game, and the winning team it reports:
      `None` when nobody is alive any more. */
  datatype GameEnd = Continues | Ended(winningTeam: Option<Team>)

  /** The room after a handler, with the game-over report it emits, if any. */
  datatype Step = Step(room: Room, outcome: GameEnd)

  /** Capacity given to every room of the pool. */
  const MaxPlayers: int := 10

  /** An empty room in the lobby phase. */
  function NewRoom(id: string, name: string): Room
  {
    Room(id, name, map[], 0, MaxPlayers, LobbyVoting)
  }

  // ---------------------------------------------------------------------------
  // Invariants and derived views

  /** Every player record carries the key it is stored under. */
  predicate IdsMatchKeys(r: Room)
  {
    forall k :: k in r.players ==> r.players[k].id == k
  }

  /** What every handler keeps, whatever the joining connections do: the counter
      never falls below the number of seated players and never exceeds the capacity. */
  predicate WellFormed(r: Room)
  {
    && |r.players| <= r.playerCount <= r.maxPlayers
    && IdsMatchKeys(r)
  }

  /** The intended invariant: the counter is exactly the number of seated players. */
  predicate Consistent(r: Room)
  {
    WellFormed(r) && r.playerCount == |r.players|
  }

  /** Identity and capacity of a room, which no handler changes. */
  predicate SameHeader(r: Room, r': Room)
  {
    r'.id == r.id && r'.name == r.name && r'.maxPlayers == r.maxPlayers
  }

  /** Same members and counter, possibly different flags and phase. */
  predicate SameMembers(r: Room, r': Room)
  {
    SameHeader(r, r') && r'.players.Keys == r.players.Keys && r'.playerCount == r.playerCount
  }

  function ReadyIds(r: Room): set<PlayerId>
  {
    set k | k in r.players && r.players[k].isReady
  }

  function ReadyCount(r: Room): nat
  {
    |ReadyIds(r)|
  }

  function AliveIds(r: Room): set<PlayerId>
  {
    set k | k in r.players && r.players[k].isAlive
  }

  function AliveCount(r: Room): nat
  {
    |AliveIds(r)|
  }

  /** The teams that still have at least one living player. */
  function ActiveTeams(r: Room): set<Team>
  {
    set k | k in r.players && r.players[k].isAlive :: r.players[k].team
  }

  /** All living players are on one team (vacuously so when nobody is alive). */
  predicate AliveTeamsAgree(r: Room)
  {
    forall i, j ::
      i in r.players && j in r.players && r.players[i].isAlive && r.players[j].isAlive
      ==> r.players[i].team == r.players[j].team
  }

  predicate SomeoneAlive(r: Room)
  {
    exists k :: k in r.players && r.players[k].isAlive
  }

  /** The start rule: at least two players counted, and a strict majority of the
      counted players ready. The source compares the ready count with
      `playerCount / 2` in real (floating-point) division; for integers,
      `ready > total / 2` is `2 * ready > total`. */
  predicate MajorityReady(r: Room)
  {
    r.playerCount >= 2 && 2 * ReadyCount(r) > r.playerCount
  }

  /** At most one team is alive exactly when the living players agree on a team. */
  lemma ActiveTeamsAtMostOne(r: Room)
    ensures |ActiveTeams(r)| <= 1 <==> AliveTeamsAgree(r)
    ensures ActiveTeams(r) == {} <==> !SomeoneAlive(r)
  {
    var teams := ActiveTeams(r);
    if AliveTeamsAgree(r) {
      if SomeoneAlive(r) {
        var k :| k in r.players && r.players[k].isAlive;
        var t := r.players[k].team;
        assert teams == {t} by {
          forall u | u in teams ensures u == t {
            var m :| m in r.players && r.players[m].isAlive && r.players[m].team == u;
          }
        }
      } else {
        assert teams == {};
      }
    } else {
      var i, j :| i in r.players && j in r.players && r.players[i].isAlive && r.players[j].isAlive
                  && r.players[i].team != r.players[j].team;
      var both := {r.players[i].team, r.players[j].team};
      assert both == {A, B};
      assert teams == both;
    }
    if SomeoneAlive(r) {
      var k :| k in r.players && r.players[k].isAlive;
      assert r.players[k].team in teams;
    }
  }

  /** The team the game-over report names: the one team still alive, if any. */
  function WinningTeam(r: Room): (w: Option<Team>)
    requires AliveTeamsAgree(r)
    ensures w.None? <==> !SomeoneAlive(r)
    ensures w.Some? ==> forall k :: k in r.players && r.players[k].isAlive ==> r.players[k].team == w.value
  {
    ActiveTeamsAtMostOne(r);
    if A in ActiveTeams(r) then Some(A)
    else if B in ActiveTeams(r) then Some(B)
    else None
  }

  // ---------------------------------------------------------------------------
  // Handlers

  /** The team of the next joiner: `A` when the counter is even, `B` otherwise. */
  function TeamForSeat(count: int): Team
  {
    if count % 2 == 0 then A else B
  }

  /** A join request for this room. A full room refuses; otherwise the joiner is
      seated (not ready, alive, team by the counter's parity) and the counter goes
      up by one. An id already seated is overwritten and still counted again. */
  function Join(r: Room, pid: PlayerId): (res: JoinResult)
    ensures res.Rejected? <==> r.playerCount >= r.maxPlayers
    ensures res.Rejected? ==> res.error == RoomFull
    ensures res.Joined? ==>
      && SameHeader(r, res.room)
      && res.room.gameState == r.gameState
      && res.room.playerCount == r.playerCount + 1
      && res.room.players.Keys == r.players.Keys + {pid}
      && res.room.players[pid] == Player(pid, false, true, TeamForSeat(r.playerCount))
      && (forall k :: k in r.players && k != pid ==> res.room.players[k] == r.players[k])
  {
    if r.playerCount >= r.maxPlayers then
      Rejected(RoomFull)
    else
      var p := Player(pid, false, true, TeamForSeat(r.playerCount));
      Joined(r.(players := r.players[pid := p], playerCount := r.playerCount + 1))
  }

  /** The ready toggle: flips the caller's `isReady` and nothing else; a caller
      that is not seated changes nothing. */
  function ToggleReady(r: Room, pid: PlayerId): (r': Room)
    ensures pid !in r.players ==> r' == r
    ensures SameMembers(r, r') && r'.gameState == r.gameState
    ensures pid in r.players ==>
      && r'.players[pid].isReady == !r.players[pid].isReady
      && r'.players[pid].(isReady := r.players[pid].isReady) == r.players[pid]
    ensures forall k :: k in r.players && k != pid ==> r'.players[k] == r.players[k]
  {
    if pid in r.players then
      var p := r.players[pid];
      r.(players := r.players[pid := p.(isReady := !p.isReady)])
    else
      r
  }

  /** Start of a game: the phase becomes in-progress and every player is alive
      again; readiness and teams are kept. */
  function StartGame(r: Room): (r': Room)
    ensures SameMembers(r, r')
    ensures r'.gameState == InProgress
    ensures forall k :: k in r.players ==> r'.players[k] == r.players[k].(isAlive := true)
  {
    r.(gameState := InProgress,
       players := map k | k in r.players :: r.players[k].(isAlive := true))
  }

  /** The start check run after each ready toggle: only a room in the lobby
      phase can start, and it starts exactly under the majority rule. */
  function CheckGameStart(r: Room): (r': Room)
    ensures r'.gameState != r.gameState <==> r.gameState == LobbyVoting && MajorityReady(r)
    ensures r'.gameState == r.gameState ==> r' == r
    ensures r'.gameState != r.gameState ==>
      && SameMembers(r, r')
      && r'.gameState == InProgress
      && (forall k :: k in r.players ==>
            && r'.players[k].isAlive
            && r'.players[k].isReady == r.players[k].isReady
            && r'.players[k].team == r.players[k].team
            && r'.players[k].id == r.players[k].id)
  {
    if r.gameState != LobbyVoting then r
    else if MajorityReady(r) then StartGame(r)
    else r
  }

  /** The whole `playerReady` handler on a room: a seated caller toggles and the
      start check runs; anyone else changes nothing. */
  function PlayerReady(r: Room, pid: PlayerId): (r': Room)
    ensures pid !in r.players ==> r' == r
    ensures SameMembers(r, r')
    ensures pid in r.players ==> r' == CheckGameStart(ToggleReady(r, pid))
  {
    if pid in r.players then CheckGameStart(ToggleReady(r, pid)) else r
  }

  /** The win check: only a room in progress can end, and it ends exactly when the
      living players span at most one team; that team, or nobody, is reported. */
  function CheckWinCondition(r: Room): (s: Step)
    ensures r.gameState != InProgress ==> s == Step(r, Continues)
    ensures r.gameState == InProgress ==> (s.outcome.Ended? <==> AliveTeamsAgree(r))
    ensures s.outcome.Continues? ==> s.room == r
    ensures s.outcome.Ended? ==> s.room == r.(gameState := GameOver)
    ensures s.outcome.Ended? ==> (s.outcome.winningTeam.None? <==> !SomeoneAlive(r))
    ensures s.outcome.Ended? && s.outcome.winningTeam.Some? ==>
      forall k :: k in r.players && r.players[k].isAlive ==> r.players[k].team == s.outcome.winningTeam.value
  {
    ActiveTeamsAtMostOne(r);
    if r.gameState != InProgress then Step(r, Continues)
    else if |ActiveTeams(r)| <= 1 then Step(EndGame(r), Ended(WinningTeam(r)))
    else Step(r, Continues)
  }

  /** Entering the game-over phase; the players are left as they are. */
  function EndGame(r: Room): (r': Room)
    ensures r'.gameState == GameOver
    ensures r'.(gameState := r.gameState) == r
  {
    r.(gameState := GameOver)
  }

  /** The delayed reset after a game: back to the lobby, every seated player not
      ready and alive, membership and teams kept. */
  function ResetAfterGameOver(r: Room): (r': Room)
    ensures SameMembers(r, r')
    ensures r'.gameState == LobbyVoting
    ensures forall k :: k in r.players ==>
      r'.players[k] == r.players[k].(isReady := false, isAlive := true)
  {
    r.(gameState := LobbyVoting,
       players := map k | k in r.players :: r.players[k].(isReady := false, isAlive := true))
  }

  /** A disconnect: a seated player is removed and the counter goes down by one,
      and the win check runs only when the game was in progress. A player who is
      not seated changes nothing. */
  function Disconnect(r: Room, pid: PlayerId): (s: Step)
    ensures pid !in r.players ==> s == Step(r, Continues)
    ensures pid in r.players ==>
      && SameHeader(r, s.room)
      && s.room.players.Keys == r.players.Keys - {pid}
      && s.room.playerCount == r.playerCount - 1
      && (forall k :: k in s.room.players ==> s.room.players[k] == r.players[k])
    ensures pid in r.players ==>
      var left := r.(players := r.players - {pid});
      && (s.outcome.Ended? <==> r.gameState == InProgress && AliveTeamsAgree(left))
      && s.room.gameState == (if s.outcome.Ended? then GameOver else r.gameState)
      && (s.outcome.Ended? ==> (s.outcome.winningTeam.None? <==> !SomeoneAlive(left)))
      && (s.outcome.Ended? && s.outcome.winningTeam.Some? ==>
            forall k :: k in left.players && left.players[k].isAlive ==>
              left.players[k].team == s.outcome.winningTeam.value)
  {
    if pid in r.players then
      var left := r.(players := r.players - {pid}, playerCount := r.playerCount - 1);
      if r.gameState == InProgress then CheckWinCondition(left) else Step(left, Continues)
    else
      Step(r, Continues)
  }

  /** The placeholder elimination timer: in a game in progress with more than one
      living player, the chosen living player (a random pick in the source) is
      marked dead and the win check runs; otherwise nothing changes. */
  function Eliminate(r: Room, victim: PlayerId): (s: Step)
    requires r.gameState == InProgress && AliveCount(r) > 1 ==>
      victim in r.players && r.players[victim].isAlive
    ensures !(r.gameState == InProgress && AliveCount(r) > 1) ==> s == Step(r, Continues)
    ensures r.gameState == InProgress && AliveCount(r) > 1 ==>
      var after := r.(players := r.players[victim := r.players[victim].(isAlive := false)]);
      && SameMembers(r, s.room)
      && !s.room.players[victim].isAlive
      && s.room.players[victim].(isAlive := true) == r.players[victim]
      && (forall k :: k in r.players && k != victim ==> s.room.players[k] == r.players[k])
      && AliveIds(s.room) == AliveIds(r) - {victim}
      && (s.outcome.Ended? <==> AliveTeamsAgree(after))
      && s.room.gameState == (if s.outcome.Ended? then GameOver else InProgress)
      && (s.outcome.Ended? ==> (s.outcome.winningTeam.None? <==> !SomeoneAlive(after)))
      && (s.outcome.Ended? && s.outcome.winningTeam.Some? ==>
            forall k :: k in after.players && after.players[k].isAlive ==>
              after.players[k].team == s.outcome.winningTeam.value)
  {
    if r.gameState != InProgress || AliveCount(r) <= 1 then
      Step(r, Continues)
    else
      var p := r.players[victim];
      CheckWinCondition(r.(players := r.players[victim := p.(isAlive := false)]))
  }
}
