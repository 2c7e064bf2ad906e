/** Properties of the server state: the start-up pool, the invariants every
    event keeps over any sequence of events, the phase changes each handler may
    make, and what the room list tells a client about joining. */
module RegistryProperties {
  import opened Rooms
  import opened RoomIds
  import opened Registry
  import RoomProperties

  // ---------------------------------------------------------------------------
  // Start-up

  /** The decimal identifiers of the first and last rooms. */
  lemma PoolIdentifiers()
    ensures RoomIdOf(1) == "room-1"
    ensures RoomIdOf(10) == "room-10"
    ensures RoomNameOf(1) == "Salon de Jeu 1"
  {
    assert Decimal(10) == Decimal(1) + [Digit(0)];
  }

  /** Every room among the first n is an empty lobby room stored under its own id. */
  lemma {:induction false} InitialRoomsEmpty(n: nat)
    ensures forall k :: k in InitialRooms(n) ==> InitialRooms(n)[k] == NewRoom(k, InitialRooms(n)[k].name)
  {
    if n > 0 {
      InitialRoomsEmpty(n - 1);
    }
  }

  /** At start-up there are exactly ten distinct rooms, keyed `room-1` to
      `room-10`, and nobody is seated. */
  lemma InitialPoolShape()
    ensures |InitialServer().rooms| == 10
    ensures InitialServer().seats == map[]
    ensures forall i: nat :: 1 <= i <= PoolSize ==> RoomIdOf(i) in InitialServer().rooms
    ensures forall k :: k in InitialServer().rooms ==> exists i: nat :: 1 <= i <= PoolSize && k == RoomIdOf(i)
  {
  }

  /** At start-up every room is empty, in the lobby phase, with capacity ten
      and its own id, so every counter is consistent. */
  lemma InitialPoolRooms()
    ensures forall k :: k in InitialServer().rooms ==>
      InitialServer().rooms[k] == Room(k, InitialServer().rooms[k].name, map[], 0, 10, LobbyVoting)
    ensures AllConsistent(InitialServer())
  {
    var m := InitialRooms(PoolSize);
    InitialRoomsEmpty(PoolSize);
    assert AllConsistent(Server(m, map[]));
  }

  // ---------------------------------------------------------------------------
  // Invariants of each handler

  /** A change confined to one room that keeps that room's header keeps the
      pool, and keeps an invariant of all rooms when the changed room has it. */
  lemma OneRoomChanged(s: Server, s': Server, k: RoomId)
    requires k in s.rooms
    requires OthersUnchanged(s, s', k)
    requires SameHeader(s.rooms[k], s'.rooms[k])
    ensures SamePool(s, s')
    ensures AllWellFormed(s) && WellFormed(s'.rooms[k]) ==> AllWellFormed(s')
    ensures AllConsistent(s) && Consistent(s'.rooms[k]) ==> AllConsistent(s')
  {
  }

  /** A join keeps the pool and the counter bounds, whoever joins; a join by a
      connection not already seated in the target room also keeps every counter
      equal to its room's number of seated players. */
  lemma JoinKeepsInvariants(s: Server, pid: PlayerId, roomId: RoomId)
    ensures SamePool(s, OnJoinRoom(s, pid, roomId).server)
    ensures AllWellFormed(s) ==> AllWellFormed(OnJoinRoom(s, pid, roomId).server)
    ensures AllConsistent(s) && (roomId in s.rooms ==> pid !in s.rooms[roomId].players) ==>
      AllConsistent(OnJoinRoom(s, pid, roomId).server)
  {
    var s' := OnJoinRoom(s, pid, roomId).server;
    if roomId in s.rooms && s'.rooms != s.rooms {
      var r := s.rooms[roomId];
      if AllWellFormed(s) {
        RoomProperties.JoinKeepsWellFormed(r, pid);
      }
      if AllConsistent(s) && pid !in r.players {
        RoomProperties.JoinKeepsConsistent(r, pid);
      }
      OneRoomChanged(s, s', roomId);
    }
  }

  /** A ready vote keeps the pool and both counter invariants. */
  lemma ReadyKeepsInvariants(s: Server, pid: PlayerId)
    ensures SamePool(s, OnPlayerReady(s, pid))
    ensures AllWellFormed(s) ==> AllWellFormed(OnPlayerReady(s, pid))
    ensures AllConsistent(s) ==> AllConsistent(OnPlayerReady(s, pid))
  {
    if pid in s.seats && s.seats[pid] in s.rooms {
      RoomProperties.HandlersKeepInvariants(s.rooms[s.seats[pid]], pid);
      OneRoomChanged(s, OnPlayerReady(s, pid), s.seats[pid]);
    }
  }

  /** A disconnect keeps the pool and both counter invariants. */
  lemma DisconnectKeepsInvariants(s: Server, pid: PlayerId)
    ensures SamePool(s, OnDisconnect(s, pid).server)
    ensures AllWellFormed(s) ==> AllWellFormed(OnDisconnect(s, pid).server)
    ensures AllConsistent(s) ==> AllConsistent(OnDisconnect(s, pid).server)
  {
    if pid in s.seats && s.seats[pid] in s.rooms {
      RoomProperties.HandlersKeepInvariants(s.rooms[s.seats[pid]], pid);
      OneRoomChanged(s, OnDisconnect(s, pid).server, s.seats[pid]);
    }
  }

  /** The elimination timer keeps the pool and both counter invariants. */
  lemma EliminationKeepsInvariants(s: Server, roomId: RoomId, victim: PlayerId)
    requires roomId in s.rooms && s.rooms[roomId].gameState == InProgress && AliveCount(s.rooms[roomId]) > 1 ==>
      victim in s.rooms[roomId].players && s.rooms[roomId].players[victim].isAlive
    ensures SamePool(s, OnEliminationTimer(s, roomId, victim).server)
    ensures AllWellFormed(s) ==> AllWellFormed(OnEliminationTimer(s, roomId, victim).server)
    ensures AllConsistent(s) ==> AllConsistent(OnEliminationTimer(s, roomId, victim).server)
  {
    if roomId in s.rooms {
      RoomProperties.EliminateKeepsInvariants(s.rooms[roomId], victim);
      OneRoomChanged(s, OnEliminationTimer(s, roomId, victim).server, roomId);
    }
  }

  /** The reset timer keeps the pool and both counter invariants. */
  lemma ResetKeepsInvariants(s: Server, roomId: RoomId)
    ensures SamePool(s, OnResetTimer(s, roomId))
    ensures AllWellFormed(s) ==> AllWellFormed(OnResetTimer(s, roomId))
    ensures AllConsistent(s) ==> AllConsistent(OnResetTimer(s, roomId))
  {
    if roomId in s.rooms {
      RoomProperties.ResetKeepsRoomInvariants(s.rooms[roomId]);
      OneRoomChanged(s, OnResetTimer(s, roomId), roomId);
    }
  }

  // ---------------------------------------------------------------------------
  // Phase changes

  /** No handler except the reset timer moves a room backwards: a join never
      changes a phase, a ready vote can only start its room, and a disconnect or
      an elimination can only end a running game. */
  lemma HandlersOnlyMoveForward(s: Server, pid: PlayerId, roomId: RoomId, victim: PlayerId, k: RoomId)
    requires roomId in s.rooms && s.rooms[roomId].gameState == InProgress && AliveCount(s.rooms[roomId]) > 1 ==>
      victim in s.rooms[roomId].players && s.rooms[roomId].players[victim].isAlive
    requires k in s.rooms
    ensures OnJoinRoom(s, pid, roomId).server.rooms[k].gameState == s.rooms[k].gameState
    ensures ForwardStep(s.rooms[k].gameState, OnDisconnect(s, pid).server.rooms[k].gameState)
    ensures ForwardStep(s.rooms[k].gameState, OnEliminationTimer(s, roomId, victim).server.rooms[k].gameState)
    ensures OnPlayerReady(s, pid).rooms[k].gameState != s.rooms[k].gameState ==>
      s.rooms[k].gameState == LobbyVoting && OnPlayerReady(s, pid).rooms[k].gameState == InProgress
    ensures OnDisconnect(s, pid).server.rooms[k].gameState != s.rooms[k].gameState ==>
      s.rooms[k].gameState == InProgress && OnDisconnect(s, pid).server.rooms[k].gameState == GameOver
  {
  }

  /** The reset timer sends its room back to the lobby and touches no other room. */
  lemma ResetReturnsToLobby(s: Server, roomId: RoomId)
    requires roomId in s.rooms
    ensures OnResetTimer(s, roomId).rooms[roomId].gameState == LobbyVoting
    ensures OthersUnchanged(s, OnResetTimer(s, roomId), roomId)
  {
  }

  // ---------------------------------------------------------------------------
  // The room list and joining

  /** A room the list shows as full is exactly a room that refuses a join as full. */
  lemma ListedFullIffJoinRefused(s: Server, pid: PlayerId, roomId: RoomId)
    requires roomId in RoomList(s)
    ensures RoomList(s)[roomId].IsFull() <==> OnJoinRoom(s, pid, roomId).error == Some(RoomFull)
  {
  }

  /** No inherited property name has the form `room-<i>`: none of them starts
      with an `r`. */
  lemma InheritedNamesOutsidePool(i: nat)
    ensures RoomIdOf(i) !in InheritedNames
  {
    var id := RoomIdOf(i);
    assert id[0] == 'r';
    forall n | n in InheritedNames ensures n != id {
      assert n[0] != 'r';
    }
  }

  /** Joining an inherited name: the handler as written throws after recording
      the name as the connection's room, whereas an own-key lookup refuses it as
      an invalid room and changes nothing. This holds in every state whose rooms
      are all keyed `room-<i>`, which includes every state reachable from
      start-up. */
  lemma InheritedNameThrows(s: Server, pid: PlayerId, name: RoomId)
    requires name in InheritedNames
    requires forall k :: k in s.rooms ==> exists i: nat :: 1 <= i <= PoolSize && k == RoomIdOf(i)
    ensures JoinAsWritten(s, pid, name) == Threw(s.(seats := s.seats[pid := name]))
    ensures OnJoinRoom(s, pid, name) == Reply(s, Some(InvalidRoom))
  {
    if name in s.rooms {
      var i: nat :| 1 <= i <= PoolSize && name == RoomIdOf(i);
      InheritedNamesOutsidePool(i);
      assert false;
    }
  }

  /** A connection that joins a second room stays seated in the first: the
      first room keeps its record and its counter, and a later disconnect only
      leaves the second room. */
  lemma SwitchingRoomsStrandsPlayer(s: Server, pid: PlayerId, a: RoomId, b: RoomId)
    requires a in s.rooms && b in s.rooms && a != b
    requires pid in s.rooms[a].players
    requires OnJoinRoom(s, pid, b).error.None?
    ensures
      var s1 := OnJoinRoom(s, pid, b).server;
      var s2 := OnDisconnect(s1, pid).server;
      && s1.seats[pid] == b
      && s2.rooms[a] == s.rooms[a]
      && pid in s2.rooms[a].players
      && pid !in s2.rooms[b].players
  {
  }

  // ---------------------------------------------------------------------------
  // Sequences of events

  /** One inbound socket event or timer callback. */
  datatype Event =
    | JoinEvent(pid: PlayerId, roomId: RoomId)
    | ReadyEvent(pid: PlayerId)
    | DisconnectEvent(pid: PlayerId)
    | EliminationEvent(roomId: RoomId, victim: PlayerId)
    | ResetEvent(roomId: RoomId)

  /** The elimination timer's pick is a legal one: a living player whenever the
      callback acts. */
  predicate LegalPick(s: Server, roomId: RoomId, victim: PlayerId)
  {
    roomId in s.rooms && s.rooms[roomId].gameState == InProgress && AliveCount(s.rooms[roomId]) > 1 ==>
      victim in s.rooms[roomId].players && s.rooms[roomId].players[victim].isAlive
  }

  /** The server after one event. An elimination event that names a pick the
      random choice could not have made is ignored. */
  function Apply(s: Server, e: Event): Server
  {
    match e
    case JoinEvent(pid, roomId) => OnJoinRoom(s, pid, roomId).server
    case ReadyEvent(pid) => OnPlayerReady(s, pid)
    case DisconnectEvent(pid) => OnDisconnect(s, pid).server
    case EliminationEvent(roomId, victim) =>
      if LegalPick(s, roomId, victim) then OnEliminationTimer(s, roomId, victim).server else s
    case ResetEvent(roomId) => OnResetTimer(s, roomId)
  }

  /** The server after a sequence of events, in order. */
  function Run(s: Server, es: seq<Event>): Server
    decreases |es|
  {
    if es == [] then s else Run(Apply(s, es[0]), es[1..])
  }

  /** Every join in the sequence comes from a connection not already seated in
      the room it asks for. */
  predicate JoinsFresh(s: Server, es: seq<Event>)
    decreases |es|
  {
    if es == [] then true
    else
      && (es[0].JoinEvent? && es[0].roomId in s.rooms ==> es[0].pid !in s.rooms[es[0].roomId].players)
      && JoinsFresh(Apply(s, es[0]), es[1..])
  }

  /** One event keeps the pool and both counter invariants (the second only
      for a fresh join). */
  lemma ApplyKeepsInvariants(s: Server, e: Event)
    ensures SamePool(s, Apply(s, e))
    ensures AllWellFormed(s) ==> AllWellFormed(Apply(s, e))
    ensures AllConsistent(s) && JoinsFresh(s, [e]) ==> AllConsistent(Apply(s, e))
  {
    match e
    case JoinEvent(pid, roomId) => JoinKeepsInvariants(s, pid, roomId);
    case ReadyEvent(pid) => ReadyKeepsInvariants(s, pid);
    case DisconnectEvent(pid) => DisconnectKeepsInvariants(s, pid);
    case EliminationEvent(roomId, victim) =>
      if LegalPick(s, roomId, victim) {
        EliminationKeepsInvariants(s, roomId, victim);
      }
    case ResetEvent(roomId) => ResetKeepsInvariants(s, roomId);
  }

  /** Every sequence of events keeps the pool of rooms and each counter between
      its room's number of seated players and its capacity. */
  lemma {:induction false} RunKeepsPool(s: Server, es: seq<Event>)
    ensures SamePool(s, Run(s, es))
    ensures AllWellFormed(s) ==> AllWellFormed(Run(s, es))
    decreases |es|
  {
    if es != [] {
      ApplyKeepsInvariants(s, es[0]);
      RunKeepsPool(Apply(s, es[0]), es[1..]);
    }
  }

  /** When every join is fresh, every sequence of events from a consistent state
      keeps each counter equal to its room's number of seated players. */
  lemma {:induction false} FreshRunKeepsConsistent(s: Server, es: seq<Event>)
    requires AllConsistent(s)
    requires JoinsFresh(s, es)
    ensures AllConsistent(Run(s, es))
    decreases |es|
  {
    if es != [] {
      assert JoinsFresh(s, [es[0]]);
      ApplyKeepsInvariants(s, es[0]);
      FreshRunKeepsConsistent(Apply(s, es[0]), es[1..]);
    }
  }

  /** Two states with the same pool have the same number of rooms. */
  lemma SamePoolSameSize(s: Server, t: Server)
    requires SamePool(s, t)
    ensures |t.rooms| == |s.rooms|
  {
    assert |t.rooms.Keys| == |s.rooms.Keys|;
  }

  /** From a state with ten rooms and exact counters, every sequence of events
      keeps the pool of ten rooms and bounded counters, and exact counters when
      every join is fresh. */
  lemma RunFromPool(s: Server, es: seq<Event>)
    requires |s.rooms| == 10 && AllConsistent(s)
    ensures SamePool(s, Run(s, es))
    ensures AllWellFormed(Run(s, es))
    ensures |Run(s, es).rooms| == 10
    ensures JoinsFresh(s, es) ==> AllConsistent(Run(s, es))
  {
    RunKeepsPool(s, es);
    SamePoolSameSize(s, Run(s, es));
    if JoinsFresh(s, es) {
      FreshRunKeepsConsistent(s, es);
    }
  }

  /** Every state reachable from start-up has the pool of ten rooms and bounded
      counters; when every join is fresh, its counters are also exact. */
  lemma ReachableKeepsPool(es: seq<Event>)
    ensures SamePool(InitialServer(), Run(InitialServer(), es))
    ensures AllWellFormed(Run(InitialServer(), es))
    ensures |Run(InitialServer(), es).rooms| == 10
    ensures JoinsFresh(InitialServer(), es) ==> AllConsistent(Run(InitialServer(), es))
  {
    InitialPoolShape();
    InitialPoolRooms();
    RunFromPool(InitialServer(), es);
  }

  /** Every room of a state reachable from start-up is keyed `room-<i>`, so
      `InheritedNameThrows` applies to every such state. */
  lemma ReachableKeysArePoolIds(es: seq<Event>)
    ensures forall k :: k in Run(InitialServer(), es).rooms ==> exists i: nat :: 1 <= i <= PoolSize && k == RoomIdOf(i)
  {
    InitialPoolShape();
    ReachableKeepsPool(es);
  }

  /** A connection that asks again to join the room it is seated in is
      accepted while the counter allows it, and the counter then overstates the
      number of seated players. */
  lemma RejoinBreaksServerConsistency(s: Server, pid: PlayerId, roomId: RoomId)
    requires AllConsistent(s)
    requires roomId in s.rooms && pid in s.rooms[roomId].players
    requires s.rooms[roomId].playerCount < s.rooms[roomId].maxPlayers
    ensures OnJoinRoom(s, pid, roomId).error.None?
    ensures !AllConsistent(OnJoinRoom(s, pid, roomId).server)
  {
    RoomProperties.RejoinBreaksConsistency(s.rooms[roomId], pid);
  }
}
