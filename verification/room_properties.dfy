/** Properties of the room handlers: the invariants they keep, how the start and
    win rules behave, and a complete round from an empty room to game over. */
module RoomProperties {
  import opened Rooms

  // ---------------------------------------------------------------------------
  // Invariants

  /** Whatever id joins, the counter stays between the number of seated players
      and the capacity. */
  lemma JoinKeepsWellFormed(r: Room, pid: PlayerId)
    requires WellFormed(r)
    ensures Join(r, pid).Joined? ==> WellFormed(Join(r, pid).room)
  {
    if Join(r, pid).Joined? {
      var r' := Join(r, pid).room;
      assert |r'.players| <= |r.players| + 1 by {
        assert r'.players.Keys <= r.players.Keys + {pid};
      }
    }
  }

  /** A join by an id not yet seated keeps the counter equal to the number of
      seated players (and so within the capacity). */
  lemma JoinKeepsConsistent(r: Room, pid: PlayerId)
    requires Consistent(r)
    requires pid !in r.players
    ensures Join(r, pid).Joined? ==> Consistent(Join(r, pid).room)
  {
  }

  /** A second join by an id already seated is accepted whenever the counter
      allows it, and leaves the counter one above the number of seated players:
      without the freshness condition the counter invariant fails. */
  lemma RejoinBreaksConsistency(r: Room, pid: PlayerId)
    requires Consistent(r)
    requires pid in r.players
    requires r.playerCount < r.maxPlayers
    ensures Join(r, pid).Joined?
    ensures Join(r, pid).room.playerCount == |Join(r, pid).room.players| + 1
    ensures !Consistent(Join(r, pid).room)
  {
    assert Join(r, pid).room.players.Keys == r.players.Keys;
  }

  /** Two joins in a row are put on opposite teams. */
  lemma ConsecutiveJoinsAlternateTeams(r: Room, p: PlayerId, q: PlayerId)
    requires Join(r, p).Joined?
    requires Join(Join(r, p).room, q).Joined?
    requires p != q
    ensures Join(Join(r, p).room, q).room.players[p].team != Join(Join(r, p).room, q).room.players[q].team
  {
  }

  /** A ready vote, the win check and a disconnect keep both invariants. */
  lemma HandlersKeepInvariants(r: Room, pid: PlayerId)
    ensures WellFormed(r) ==> WellFormed(PlayerReady(r, pid))
    ensures Consistent(r) ==> Consistent(PlayerReady(r, pid))
    ensures WellFormed(r) ==> WellFormed(CheckWinCondition(r).room)
    ensures Consistent(r) ==> Consistent(CheckWinCondition(r).room)
    ensures WellFormed(r) ==> WellFormed(Disconnect(r, pid).room)
    ensures Consistent(r) ==> Consistent(Disconnect(r, pid).room)
  {
    if pid in r.players {
      var r' := Disconnect(r, pid).room;
      assert |r'.players| == |r.players| - 1 by {
        assert r'.players.Keys == r.players.Keys - {pid};
      }
    }
  }

  /** The reset after a game keeps both invariants. */
  lemma ResetKeepsRoomInvariants(r: Room)
    ensures WellFormed(r) ==> WellFormed(ResetAfterGameOver(r))
    ensures Consistent(r) ==> Consistent(ResetAfterGameOver(r))
  {
  }

  /** The elimination step keeps both invariants. */
  lemma EliminateKeepsInvariants(r: Room, victim: PlayerId)
    requires r.gameState == InProgress && AliveCount(r) > 1 ==>
      victim in r.players && r.players[victim].isAlive
    ensures WellFormed(r) ==> WellFormed(Eliminate(r, victim).room)
    ensures Consistent(r) ==> Consistent(Eliminate(r, victim).room)
  {
  }

  // ---------------------------------------------------------------------------
  // Readiness and the start rule

  /** Toggling twice restores the room. */
  lemma ToggleReadyInvolution(r: Room, pid: PlayerId)
    ensures ToggleReady(ToggleReady(r, pid), pid) == r
  {
    if pid in r.players {
      assert ToggleReady(ToggleReady(r, pid), pid).players == r.players;
    }
  }

  /** A toggle moves the ready count by exactly one, in the direction of the
      caller's new flag. */
  lemma ToggleReadyCount(r: Room, pid: PlayerId)
    requires pid in r.players
    ensures r.players[pid].isReady ==> ReadyCount(ToggleReady(r, pid)) == ReadyCount(r) - 1
    ensures !r.players[pid].isReady ==> ReadyCount(ToggleReady(r, pid)) == ReadyCount(r) + 1
  {
    var r' := ToggleReady(r, pid);
    if r.players[pid].isReady {
      assert ReadyIds(r') == ReadyIds(r) - {pid};
    } else {
      assert ReadyIds(r') == ReadyIds(r) + {pid};
    }
  }

  /** A lobby whose two or more seated players are all ready starts. */
  lemma UnanimousReadyStarts(r: Room)
    requires Consistent(r)
    requires r.gameState == LobbyVoting
    requires |r.players| >= 2
    requires forall k :: k in r.players ==> r.players[k].isReady
    ensures CheckGameStart(r).gameState == InProgress
  {
    assert ReadyIds(r) == r.players.Keys;
  }

  /** Half of the counted players ready is not enough: the majority is strict. */
  lemma HalfReadyDoesNotStart(r: Room)
    requires 2 * ReadyCount(r) <= r.playerCount
    ensures CheckGameStart(r) == r
  {
  }

  /** A lone player never starts a game, ready or not. */
  lemma LonePlayerNeverStarts(r: Room)
    requires r.playerCount < 2
    ensures CheckGameStart(r) == r
  {
  }

  /** The rule is a majority, not unanimity: two ready players out of three start. */
  lemma MajorityIsEnough()
    ensures
      var r := Room("room-1", "Salon de Jeu 1",
                    map["p" := Player("p", true, true, A),
                        "q" := Player("q", true, true, B),
                        "s" := Player("s", false, true, A)],
                    3, MaxPlayers, LobbyVoting);
      CheckGameStart(r).gameState == InProgress
  {
    var r := Room("room-1", "Salon de Jeu 1",
                  map["p" := Player("p", true, true, A),
                      "q" := Player("q", true, true, B),
                      "s" := Player("s", false, true, A)],
                  3, MaxPlayers, LobbyVoting);
    assert ReadyIds(r) == {"p", "q"};
    assert "p" != "q";
  }

  // ---------------------------------------------------------------------------
  // Reset after game over

  /** After the reset nobody is ready and everybody is alive. */
  lemma ResetClearsFlags(r: Room)
    ensures ReadyCount(ResetAfterGameOver(r)) == 0
    ensures AliveIds(ResetAfterGameOver(r)) == r.players.Keys
  {
    assert ReadyIds(ResetAfterGameOver(r)) == {};
  }

  /** Resetting twice is the same as resetting once. */
  lemma ResetIdempotent(r: Room)
    ensures ResetAfterGameOver(ResetAfterGameOver(r)) == ResetAfterGameOver(r)
  {
  }

  /** A freshly reset room does not start again until someone toggles ready. */
  lemma ResetDoesNotRestart(r: Room)
    ensures CheckGameStart(ResetAfterGameOver(r)) == ResetAfterGameOver(r)
  {
    ResetClearsFlags(r);
  }

  // ---------------------------------------------------------------------------
  // Win check, elimination and disconnect

  /** Outside a running game the win check, the elimination step and a
      disconnect never report a game over. */
  lemma NoGameOverOutsidePlay(r: Room, pid: PlayerId)
    requires r.gameState != InProgress
    ensures CheckWinCondition(r).outcome == Continues
    ensures Eliminate(r, pid) == Step(r, Continues)
    ensures Disconnect(r, pid).outcome == Continues
  {
  }

  /** The elimination step leaves at least one player alive, so a game it ends
      always has a winning team. */
  lemma EliminationNeverDraws(r: Room, victim: PlayerId)
    requires r.gameState == InProgress && AliveCount(r) > 1 ==>
      victim in r.players && r.players[victim].isAlive
    ensures AliveCount(r) >= 1 ==> AliveCount(Eliminate(r, victim).room) >= 1
    ensures Eliminate(r, victim).outcome.Ended? ==> Eliminate(r, victim).outcome.winningTeam.Some?
  {
    var s := Eliminate(r, victim);
    if r.gameState == InProgress && AliveCount(r) > 1 {
      assert |AliveIds(r) - {victim}| == AliveCount(r) - 1;
      var after := r.(players := r.players[victim := r.players[victim].(isAlive := false)]);
      assert AliveIds(after) == AliveIds(s.room);
      var k :| k in AliveIds(after);
      assert SomeoneAlive(after);
    }
  }

  /** A two-team game keeps going while both teams have someone alive. */
  lemma BothTeamsAliveContinues(r: Room, p: PlayerId, q: PlayerId)
    requires r.gameState == InProgress
    requires p in r.players && q in r.players
    requires r.players[p].isAlive && r.players[q].isAlive
    requires r.players[p].team != r.players[q].team
    ensures CheckWinCondition(r) == Step(r, Continues)
  {
  }

  // ---------------------------------------------------------------------------
  // A complete round

  /** Two players join an empty room on opposite teams; the first ready vote is
      one of two, which is no majority, and the second starts the game; the
      elimination of one ends it with the other's team as the winner; the reset
      returns both to an unready lobby. */
  lemma TwoPlayerRound(p: PlayerId, q: PlayerId)
    requires p != q
    ensures
      var r2 := Join(Join(NewRoom("room-1", "Salon de Jeu 1"), p).room, q).room;
      var r3 := PlayerReady(r2, p);
      var r4 := PlayerReady(r3, q);
      var s := Eliminate(r4, p);
      && r2.players[p].team == A && r2.players[q].team == B
      && r3.gameState == LobbyVoting
      && r4.gameState == InProgress
      && s.outcome == Ended(Some(B))
      && s.room.gameState == GameOver
      && ResetAfterGameOver(s.room).gameState == LobbyVoting
      && ReadyCount(ResetAfterGameOver(s.room)) == 0
  {
    var r0 := NewRoom("room-1", "Salon de Jeu 1");
    var pa, qb := Player(p, false, true, A), Player(q, false, true, B);
    var r2 := Join(Join(r0, p).room, q).room;
    TwoJoins(p, q);
    assert ReadyIds(r2) == {};
    var r3 := PlayerReady(r2, p);
    FirstVoteWaits(r2, p);
    var r4 := PlayerReady(r3, q);
    SecondVoteStarts(r3, q);
    var s := Eliminate(r4, p);
    LastTeamStanding(r4, p, q);
    ResetClearsFlags(s.room);
  }

  /** The first two joins of an empty room, on teams A and B. */
  lemma TwoJoins(p: PlayerId, q: PlayerId)
    requires p != q
    ensures
      var r0 := NewRoom("room-1", "Salon de Jeu 1");
      Join(Join(r0, p).room, q).room
        == r0.(players := map[p := Player(p, false, true, A), q := Player(q, false, true, B)], playerCount := 2)
  {
  }

  /** In a two-player lobby where nobody is ready, the first vote does not start. */
  lemma FirstVoteWaits(r: Room, p: PlayerId)
    requires r.gameState == LobbyVoting && r.playerCount == 2
    requires p in r.players
    requires ReadyIds(r) == {}
    ensures PlayerReady(r, p) == ToggleReady(r, p)
    ensures ReadyCount(PlayerReady(r, p)) == 1
  {
    ToggleReadyCount(r, p);
  }

  /** In a two-player lobby with one vote in, the other player's vote starts. */
  lemma SecondVoteStarts(r: Room, q: PlayerId)
    requires r.gameState == LobbyVoting && r.playerCount == 2
    requires q in r.players && !r.players[q].isReady
    requires ReadyCount(r) == 1
    ensures PlayerReady(r, q) == StartGame(ToggleReady(r, q))
  {
    ToggleReadyCount(r, q);
  }

  /** With two living players left, eliminating one ends the game and the
      other's team wins. */
  lemma LastTeamStanding(r4: Room, p: PlayerId, q: PlayerId)
    requires p != q
    requires r4.gameState == InProgress
    requires r4.players.Keys == {p, q}
    requires r4.players[p].isAlive && r4.players[q].isAlive
    requires r4.players[q].team == B
    ensures Eliminate(r4, p).outcome == Ended(Some(B))
    ensures Eliminate(r4, p).room.gameState == GameOver
  {
    assert AliveIds(r4) == {p, q};
    var s := Eliminate(r4, p);
    assert AliveIds(s.room) == {q};
  }
}
