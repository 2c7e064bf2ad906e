/** The server's global game state: the fixed pool of rooms created at start-up,
    and for every connected socket that has joined a room, the room it joined
    last (the socket's `roomId`). Each socket event handler and each timer
    callback is a pure transition of this state. */
module Registry {
  import opened Rooms
  import opened RoomIds

  type RoomId = string

  /** `seats[pid]` is the room connection `pid` joined last; a connection that
      never joined successfully has no entry. */
  datatype Server = Server(rooms: map<RoomId, Room>, seats: map<PlayerId, RoomId>)

  /** A join request's effect: the new server state and the error sent back to
      the requester, if any. */
  datatype Reply = Reply(server: Server, error: Option<JoinError>)

  /** A handler's new server state and the game-over report it emits, if any. */
  datatype ServerStep = ServerStep(server: Server, outcome: GameEnd)

  /** The number of rooms created at start-up. */
  const PoolSize: nat := 10

  /** Rooms 1 to n of the pool, each empty and in the lobby phase, keyed by its
      identifier. */
  function InitialRooms(n: nat): (m: map<RoomId, Room>)
    ensures forall k :: k in m ==> exists i: nat :: 1 <= i <= n && k == RoomIdOf(i)
    ensures |m| == n
    ensures forall i: nat :: 1 <= i <= n ==> RoomIdOf(i) in m && m[RoomIdOf(i)] == NewRoom(RoomIdOf(i), RoomNameOf(i))
  {
    if n == 0 then
      map[]
    else
      var prev := InitialRooms(n - 1);
      assert RoomIdOf(n) !in prev by {
        forall i: nat | 1 <= i < n ensures RoomIdOf(i) != RoomIdOf(n) {
          if RoomIdOf(i) == RoomIdOf(n) {
            RoomIdInjective(i, n);
          }
        }
      }
      prev[RoomIdOf(n) := NewRoom(RoomIdOf(n), RoomNameOf(n))]
  }

  /** The state at process start: the whole pool, nobody seated. */
  function InitialServer(): Server
  {
    Server(InitialRooms(PoolSize), map[])
  }

  // ---------------------------------------------------------------------------
  // Invariants

  /** Two states have the same pool: the same room identifiers, and each room
      keeps its id, name and capacity. */
  predicate SamePool(s: Server, s': Server)
  {
    && s'.rooms.Keys == s.rooms.Keys
    && forall k :: k in s.rooms ==> SameHeader(s.rooms[k], s'.rooms[k])
  }

  predicate AllWellFormed(s: Server)
  {
    forall k :: k in s.rooms ==> WellFormed(s.rooms[k])
  }

  predicate AllConsistent(s: Server)
  {
    forall k :: k in s.rooms ==> Consistent(s.rooms[k])
  }

  /** The phase changes a handler other than the reset timer may make: a start
      (lobby to in progress) or an end (in progress to game over). */
  predicate ForwardStep(before: GameState, after: GameState)
  {
    || before == after
    || (before == LobbyVoting && after == InProgress)
    || (before == InProgress && after == GameOver)
  }

  /** Only the listed room may have changed; every other room is as it was. */
  predicate OthersUnchanged(s: Server, s': Server, roomId: RoomId)
  {
    && s'.rooms.Keys == s.rooms.Keys
    && forall k :: k in s.rooms && k != roomId ==> s'.rooms[k] == s.rooms[k]
  }

  // ---------------------------------------------------------------------------
  // Socket handlers

  /** `joinRoom(roomId)` with the room looked up among the pool's own keys: an
      unknown room or a full room is refused and nothing changes; otherwise the
      room seats the requester and the requester's connection remembers the
      room. A previous seat elsewhere is not released. */
  function OnJoinRoom(s: Server, pid: PlayerId, roomId: RoomId): (rep: Reply)
    ensures roomId !in s.rooms ==> rep == Reply(s, Some(InvalidRoom))
    ensures roomId in s.rooms && s.rooms[roomId].playerCount >= s.rooms[roomId].maxPlayers ==>
      rep == Reply(s, Some(RoomFull))
    ensures rep.error.None? <==>
      roomId in s.rooms && s.rooms[roomId].playerCount < s.rooms[roomId].maxPlayers
    ensures rep.error.None? ==>
      && OthersUnchanged(s, rep.server, roomId)
      && Join(s.rooms[roomId], pid) == Joined(rep.server.rooms[roomId])
      && rep.server.seats == s.seats[pid := roomId]
  {
    if roomId !in s.rooms then
      Reply(s, Some(InvalidRoom))
    else
      match Join(s.rooms[roomId], pid)
      case Rejected(e) => Reply(s, Some(e))
      case Joined(r') => Reply(Server(s.rooms[roomId := r'], s.seats[pid := roomId]), None)
  }

  /** The property names every plain JavaScript object inherits from
      `Object.prototype`. Reading one of them from the object holding the pool
      yields a built-in value, which is truthy but has none of a room's fields. */
  const InheritedNames: set<string> := {
    "constructor", "__proto__", "hasOwnProperty", "isPrototypeOf",
    "propertyIsEnumerable", "toLocaleString", "toString", "valueOf",
    "__defineGetter__", "__defineSetter__", "__lookupGetter__", "__lookupSetter__"
  }

  /** What the property read `rooms[roomId]` yields: nothing, a room of the
      pool, or an inherited built-in. An own key shadows an inherited name. */
  datatype Lookup = Undefined | OwnRoom(room: Room) | Builtin

  function PropertyLookup(s: Server, roomId: RoomId): (l: Lookup)
    ensures l.OwnRoom? <==> roomId in s.rooms
    ensures l.OwnRoom? ==> l.room == s.rooms[roomId]
    ensures l.Builtin? <==> roomId !in s.rooms && roomId in InheritedNames
  {
    if roomId in s.rooms then OwnRoom(s.rooms[roomId])
    else if roomId in InheritedNames then Builtin
    else Undefined
  }

  /** The join handler as written, which guards with the truthiness of the
      property read instead of an own-key test. */
  datatype RawJoin = Answered(reply: Reply) | Threw(server: Server)

  /** `joinRoom(roomId)` exactly as the handler is written. On an inherited name
      the guard passes, `undefined >= undefined` is false so the capacity test
      passes too, the connection records the name as its room, and writing into
      the built-in's missing `players` throws a TypeError out of the listener. */
  function JoinAsWritten(s: Server, pid: PlayerId, roomId: RoomId): (j: RawJoin)
    ensures j.Threw? <==> roomId !in s.rooms && roomId in InheritedNames
    ensures j.Threw? ==> j.server == s.(seats := s.seats[pid := roomId])
    ensures j.Answered? ==> j.reply == OnJoinRoom(s, pid, roomId)
  {
    match PropertyLookup(s, roomId)
    case Undefined => Answered(Reply(s, Some(InvalidRoom)))
    case Builtin => Threw(s.(seats := s.seats[pid := roomId]))
    case OwnRoom(r) =>
      match Join(r, pid)
      case Rejected(e) => Answered(Reply(s, Some(e)))
      case Joined(r') => Answered(Reply(Server(s.rooms[roomId := r'], s.seats[pid := roomId]), None))
  }

  /** `playerReady()`: the caller's current room runs the ready handler; a caller
      without a room, or not seated in it, changes nothing. */
  function OnPlayerReady(s: Server, pid: PlayerId): (s': Server)
    ensures s'.seats == s.seats
    ensures pid !in s.seats || s.seats[pid] !in s.rooms || pid !in s.rooms[s.seats[pid]].players ==> s' == s
    ensures pid in s.seats && s.seats[pid] in s.rooms ==>
      && OthersUnchanged(s, s', s.seats[pid])
      && s'.rooms[s.seats[pid]] == PlayerReady(s.rooms[s.seats[pid]], pid)
  {
    if pid in s.seats && s.seats[pid] in s.rooms && pid in s.rooms[s.seats[pid]].players then
      var rid := s.seats[pid];
      s.(rooms := s.rooms[rid := PlayerReady(s.rooms[rid], pid)])
    else
      s
  }

  /** `disconnect`: the connection's seat record goes away; if it is seated in
      the room it joined last, that room runs the disconnect handler (and possibly
      ends its game); nothing else changes. */
  function OnDisconnect(s: Server, pid: PlayerId): (st: ServerStep)
    ensures st.server.seats == s.seats - {pid}
    ensures pid !in s.seats || s.seats[pid] !in s.rooms || pid !in s.rooms[s.seats[pid]].players ==>
      st == ServerStep(s.(seats := s.seats - {pid}), Continues)
    ensures pid in s.seats && s.seats[pid] in s.rooms ==>
      && OthersUnchanged(s, st.server, s.seats[pid])
      && Disconnect(s.rooms[s.seats[pid]], pid) == Step(st.server.rooms[s.seats[pid]], st.outcome)
  {
    var seats' := s.seats - {pid};
    if pid in s.seats && s.seats[pid] in s.rooms && pid in s.rooms[s.seats[pid]].players then
      var rid := s.seats[pid];
      var step := Disconnect(s.rooms[rid], pid);
      ServerStep(Server(s.rooms[rid := step.room], seats'), step.outcome)
    else
      ServerStep(s.(seats := seats'), Continues)
  }

  // ---------------------------------------------------------------------------
  // Timer callbacks

  /** The elimination timer set when a game starts, firing for `roomId`; `victim`
      stands for the random pick among the living players. */
  function OnEliminationTimer(s: Server, roomId: RoomId, victim: PlayerId): (st: ServerStep)
    requires roomId in s.rooms && s.rooms[roomId].gameState == InProgress && AliveCount(s.rooms[roomId]) > 1 ==>
      victim in s.rooms[roomId].players && s.rooms[roomId].players[victim].isAlive
    ensures st.server.seats == s.seats
    ensures roomId !in s.rooms ==> st == ServerStep(s, Continues)
    ensures roomId in s.rooms ==>
      && OthersUnchanged(s, st.server, roomId)
      && Eliminate(s.rooms[roomId], victim) == Step(st.server.rooms[roomId], st.outcome)
  {
    if roomId in s.rooms then
      var step := Eliminate(s.rooms[roomId], victim);
      ServerStep(s.(rooms := s.rooms[roomId := step.room]), step.outcome)
    else
      ServerStep(s, Continues)
  }

  /** The reset timer set when a game ends, firing for `roomId`. */
  function OnResetTimer(s: Server, roomId: RoomId): (s': Server)
    ensures s'.seats == s.seats
    ensures roomId !in s.rooms ==> s' == s
    ensures roomId in s.rooms ==>
      && OthersUnchanged(s, s', roomId)
      && s'.rooms[roomId] == ResetAfterGameOver(s.rooms[roomId])
  {
    if roomId in s.rooms then s.(rooms := s.rooms[roomId := ResetAfterGameOver(s.rooms[roomId])]) else s
  }

  // ---------------------------------------------------------------------------
  // Room list

  /** One line of the room list sent to every client. */
  datatype RoomSummary = RoomSummary(id: string, name: string, playerCount: int, maxPlayers: int)
  {
    /** The lobby page greys out a room with this property. */
    predicate IsFull()
    {
      playerCount >= maxPlayers
    }
  }

  /** The room list: one summary per room of the pool, copying its identity,
      counter and capacity. */
  function RoomList(s: Server): (l: map<RoomId, RoomSummary>)
    ensures l.Keys == s.rooms.Keys
    ensures forall k :: k in l ==>
      && l[k].id == s.rooms[k].id
      && l[k].name == s.rooms[k].name
      && l[k].playerCount == s.rooms[k].playerCount
      && l[k].maxPlayers == s.rooms[k].maxPlayers
  {
    map k | k in s.rooms :: RoomSummary(s.rooms[k].id, s.rooms[k].name, s.rooms[k].playerCount, s.rooms[k].maxPlayers)
  }
}
