/** The server's in-memory registry (`rooms` and `userMap` in server.js) and the
    Socket.IO handlers that read and change it. Each handler runs to completion, so
    each is one function from the registry before the event to the registry after it
    and the messages it emits, in emission order. */
module SessionRegistry {
  import opened Common

  type RoomId = string

  /** `rooms.get(roomId)`: the members in insertion order, the host and the lock flag. */
  datatype Room = Room(users: seq<SocketId>, host: SocketId, locked: bool)

  /** `userMap.get(socket.id)`: the room the socket joined last, its nickname and timezone. */
  datatype User = User(roomId: RoomId, nickname: string, timezone: string)

  datatype Registry = Registry(rooms: map<RoomId, Room>, userMap: map<SocketId, User>)

  /** How an emit is addressed, in Socket.IO's own terms. */
  datatype Recipient =
    | ToSocket(id: SocketId)                           // socket.emit, targetSocket.emit
    | ToRoom(room: string)                             // io.to(room).emit: every socket in it
    | ToRoomExcept(room: string, sender: SocketId)     // socket.to(room).emit: all but the sender

  /** One entry of the `users` list of `room-info`. */
  datatype MemberInfo = MemberInfo(socketId: SocketId, nickname: string, timezone: string)

  /** The server-to-client events with their payloads. */
  datatype Event =
    | JoinError(errorType: string, message: string)
    | ExistingUsers(users: seq<SocketId>)
    | UserJoined(socketId: SocketId, nickname: string, timezone: string)
    | RoomInfo(roomId: RoomId, host: SocketId, isHost: bool, locked: bool, members: seq<MemberInfo>)
    | RelayedSignal(from: SocketId, signal: Signal)
    | ChatMessage(from: SocketId, nickname: string, message: string)
    | PlaySound(sound: string, nickname: string)
    | UserTyping(socketId: SocketId, nickname: string)
    | UserStopTyping(socketId: SocketId, nickname: string)
    | ErrorMessage(message: string)
    | Kicked(reason: string, hostNickname: string)
    | AdminMuteAll(hostNickname: string)
    | RoomStatus(locked: bool, hostNickname: string)
    | Nudge(hostNickname: string)
    | NewHost(hostId: SocketId, hostNickname: string)
    | UserLeft(socketId: SocketId, nickname: string)

  datatype Emit = Emit(to: Recipient, event: Event)

  /** The registry after an event, and what the handler emitted. */
  datatype Step = Step(registry: Registry, out: seq<Emit>)

  const RoomLockedMessage: string := "Комната заблокирована для новых участников"
  const NoRightsMessage: string := "У вас нет прав для этого действия"
  const NoAdminRightsMessage: string := "У вас нет прав администратора"
  const UnknownAdminActionMessage: string := "Неизвестное админ-действие"
  const HostKickReason: string := "Вы были исключены из комнаты хостом"
  const AdminKickReason: string := "Вы были исключены из комнаты администратором"

  function RoomFullMessage(max: int): string {
    "Комната переполнена. Максимум участников: " + IntToString(max)
  }

  /** `parseInt(process.env.MAX_PARTICIPANTS) || 6`, given what `parseInt` made of the
      variable (`None` for NaN). Both NaN and 0 are falsy, so the limit is never 0;
      a negative value survives. */
  function MaxParticipants(parsed: Option<int>): (max: int)
    ensures max != 0
    ensures parsed.Some? && parsed.value != 0 ==> max == parsed.value
    ensures parsed.None? || parsed.value == 0 ==> max == 6
  {
    if parsed.None? || parsed.value == 0 then 6 else parsed.value
  }

  /** The registry's consistency: every room is non-empty, duplicate-free, within the
      limit and hosted by one of its members, and every mapped socket is a member of the
      room it is mapped to. A room may also hold sockets mapped elsewhere (or not at all). */
  ghost predicate RoomConsistent(room: Room, max: int) {
    && 0 < |room.users| <= max
    && NoDup(room.users)
    && room.host in room.users
  }

  ghost predicate Consistent(reg: Registry, max: int) {
    && max >= 1
    && (forall id :: id in reg.rooms ==> RoomConsistent(reg.rooms[id], max))
    && (forall s :: s in reg.userMap ==>
          reg.userMap[s].roomId in reg.rooms && s in reg.rooms[reg.userMap[s].roomId].users)
  }

  /** The room a join works on: the stored one, or the one created on first reference. */
  function RoomFor(reg: Registry, sock: SocketId, roomId: RoomId): Room {
    if roomId in reg.rooms then reg.rooms[roomId] else Room([], sock, false)
  }

  /** The admission guards, in the order the handler checks them. */
  predicate LockedOut(room: Room, sock: SocketId) {
    room.locked && sock !in room.users
  }

  predicate Full(room: Room, max: int, sock: SocketId) {
    |room.users| >= max && sock !in room.users
  }

  /** `userMap.get(id)?.nickname || 'Unknown'` and `userMap.get(id)?.timezone || 'UTC'`. */
  function NicknameOf(userMap: map<SocketId, User>, id: SocketId): string {
    if id in userMap then OrElse(userMap[id].nickname, "Unknown") else "Unknown"
  }

  function TimezoneOf(userMap: map<SocketId, User>, id: SocketId): string {
    if id in userMap then OrElse(userMap[id].timezone, "UTC") else "UTC"
  }

  /** The `users` list of `room-info`: one entry per member, in membership order. */
  function MemberInfos(users: seq<SocketId>, userMap: map<SocketId, User>): (r: seq<MemberInfo>)
    ensures |r| == |users|
    ensures forall i :: 0 <= i < |users| ==> r[i].socketId == users[i]
    ensures forall i :: 0 <= i < |users| && users[i] !in userMap ==>
              r[i].nickname == "Unknown" && r[i].timezone == "UTC"
    ensures forall i :: 0 <= i < |users| && users[i] in userMap && userMap[users[i]].nickname != "" ==>
              r[i].nickname == userMap[users[i]].nickname
    ensures forall i :: 0 <= i < |users| && users[i] in userMap && userMap[users[i]].nickname == "" ==>
              r[i].nickname == "Unknown"
    ensures forall i :: 0 <= i < |users| && users[i] in userMap ==>
              r[i].timezone == OrElse(userMap[users[i]].timezone, "UTC")
  {
    seq(|users|, i requires 0 <= i < |users| =>
      MemberInfo(users[i], NicknameOf(userMap, users[i]), TimezoneOf(userMap, users[i])))
  }

  /** `join-room` (server.js:44-112). */
  function Join(reg: Registry, max: int, sock: SocketId, roomId: RoomId, nickname: string, timezone: string): (r: Step)
    // the room exists afterwards, and no other room changes
    ensures r.registry.rooms.Keys == reg.rooms.Keys + {roomId}
    ensures forall id :: id in reg.rooms && id != roomId ==> r.registry.rooms[id] == reg.rooms[id]
    // a refusal changes no membership and no user record, and is told to the joiner alone
    ensures LockedOut(RoomFor(reg, sock, roomId), sock) || Full(RoomFor(reg, sock, roomId), max, sock) ==>
              r.registry.userMap == reg.userMap &&
              r.registry.rooms[roomId] == RoomFor(reg, sock, roomId) &&
              |r.out| == 1 && r.out[0].to == ToSocket(sock) && r.out[0].event.JoinError?
    // a join never takes a room above the limit
    ensures max >= 0 && |RoomFor(reg, sock, roomId).users| <= max ==> |r.registry.rooms[roomId].users| <= max
  {
    var rooms := reg.rooms[roomId := RoomFor(reg, sock, roomId)];
    var room := rooms[roomId];
    if LockedOut(room, sock) then
      Step(Registry(rooms, reg.userMap), [Emit(ToSocket(sock), JoinError("room-locked", RoomLockedMessage))])
    else if Full(room, max, sock) then
      Step(Registry(rooms, reg.userMap), [Emit(ToSocket(sock), JoinError("room-full", RoomFullMessage(max)))])
    else
      var existingUsers := room.users;
      var joined := room.(users := Add(room.users, sock));
      var tz := OrElse(timezone, "UTC");
      var userMap := reg.userMap[sock := User(roomId, nickname, tz)];
      Step(Registry(rooms[roomId := joined], userMap),
           [ Emit(ToSocket(sock), ExistingUsers(existingUsers)),
             Emit(ToRoomExcept(roomId, sock), UserJoined(sock, nickname, tz)),
             Emit(ToSocket(sock), RoomInfo(roomId, joined.host, sock == joined.host, joined.locked,
                                           MemberInfos(joined.users, userMap))) ])
  }

  /** Creating the room first, as the handler does before its guards, does not change
      what the join gives. */
  lemma JoinAfterCreate(reg: Registry, max: int, sock: SocketId, roomId: RoomId, nickname: string, timezone: string)
    ensures Join(Registry(reg.rooms[roomId := RoomFor(reg, sock, roomId)], reg.userMap), max, sock, roomId, nickname, timezone) ==
            Join(reg, max, sock, roomId, nickname, timezone)
  {
    var created := Registry(reg.rooms[roomId := RoomFor(reg, sock, roomId)], reg.userMap);
    assert RoomFor(created, sock, roomId) == RoomFor(reg, sock, roomId);
    assert created.rooms[roomId := RoomFor(created, sock, roomId)] == reg.rooms[roomId := RoomFor(reg, sock, roomId)];
  }

  /** The refusals of `join-room` in the order the handler checks them, and the room a
      first reference creates. */
  lemma JoinRefusals(reg: Registry, max: int, sock: SocketId, roomId: RoomId, nickname: string, timezone: string)
    ensures var r := Join(reg, max, sock, roomId, nickname, timezone);
            // an unknown room is created unlocked with the joiner as host, and (when the
            // limit allows one member) the joiner becomes its only member
            && (roomId !in reg.rooms ==> r.registry.rooms[roomId].host == sock && !r.registry.rooms[roomId].locked)
            && (roomId !in reg.rooms && max >= 1 ==> r.registry.rooms[roomId].users == [sock])
            // the lock is checked first: a non-member is refused and nothing else changes
            && (roomId in reg.rooms && LockedOut(reg.rooms[roomId], sock) ==>
                  r.registry == reg &&
                  r.out == [Emit(ToSocket(sock), JoinError("room-locked", RoomLockedMessage))])
            // then the limit: a non-member finding the room full is refused
            && (roomId in reg.rooms && !LockedOut(reg.rooms[roomId], sock) && Full(reg.rooms[roomId], max, sock) ==>
                  r.registry == reg &&
                  r.out == [Emit(ToSocket(sock), JoinError("room-full", RoomFullMessage(max)))])
  {
    if roomId in reg.rooms {
      assert reg.rooms[roomId := reg.rooms[roomId]] == reg.rooms;
    }
  }

  /** What an admitted join does: the joiner is added to the room and mapped to it, and is
      sent the existing members and then the room as it now is, while the others hear of
      the arrival. A member that joins again is always admitted and changes no membership. */
  lemma JoinAdmits(reg: Registry, max: int, sock: SocketId, roomId: RoomId, nickname: string, timezone: string)
    ensures var r := Join(reg, max, sock, roomId, nickname, timezone);
            var room := RoomFor(reg, sock, roomId);
            var tz := OrElse(timezone, "UTC");
            && (sock in room.users ==> r.registry.rooms[roomId] == room && sock in r.registry.userMap)
            && (!LockedOut(room, sock) && !Full(room, max, sock) ==>
                  && r.registry.rooms[roomId] == room.(users := Add(room.users, sock))
                  && r.registry.userMap == reg.userMap[sock := User(roomId, nickname, tz)]
                  && |r.out| == 3
                  && r.out[0] == Emit(ToSocket(sock), ExistingUsers(room.users))
                  && r.out[1] == Emit(ToRoomExcept(roomId, sock), UserJoined(sock, nickname, tz))
                  && r.out[2].to == ToSocket(sock)
                  && r.out[2].event.RoomInfo?
                  && r.out[2].event.host == room.host
                  && (r.out[2].event.isHost <==> sock == room.host)
                  && r.out[2].event.locked == room.locked
                  && r.out[2].event.members == MemberInfos(Add(room.users, sock), r.registry.userMap))
  {
  }

  /** `signal` (server.js:115-121): `socket.to(to)` addresses the room named by the target's
      id, which holds only the target, minus the sender. */
  function Relay(reg: Registry, sock: SocketId, to: SocketId, signal: Signal): (r: Step)
    ensures r.registry == reg
    ensures |r.out| == 1 && r.out[0].to == ToRoomExcept(to, sock)
    ensures r.out[0].event == RelayedSignal(sock, signal)
  {
    Step(reg, [Emit(ToRoomExcept(to, sock), RelayedSignal(sock, signal))])
  }

  /** `chat-message` (server.js:124-138): only a mapped socket is heard, by its whole room. */
  function Chat(reg: Registry, sock: SocketId, message: string): (r: Step)
    ensures r.registry == reg
    ensures sock !in reg.userMap ==> r.out == []
    ensures sock in reg.userMap ==>
              r.out == [Emit(ToRoom(reg.userMap[sock].roomId),
                             ChatMessage(sock, reg.userMap[sock].nickname, message))]
  {
    if sock in reg.userMap then
      var user := reg.userMap[sock];
      Step(reg, [Emit(ToRoom(user.roomId), ChatMessage(sock, user.nickname, message))])
    else
      Step(reg, [])
  }

  /** `play-sound` (server.js:141-151): a mapped socket's sound goes to the rest of its room. */
  function Sound(reg: Registry, sock: SocketId, sound: string): (r: Step)
    ensures r.registry == reg
    ensures sock !in reg.userMap ==> r.out == []
    ensures sock in reg.userMap ==>
              r.out == [Emit(ToRoomExcept(reg.userMap[sock].roomId, sock),
                             PlaySound(sound, reg.userMap[sock].nickname))]
  {
    if sock in reg.userMap then
      var user := reg.userMap[sock];
      Step(reg, [Emit(ToRoomExcept(user.roomId, sock), PlaySound(sound, user.nickname))])
    else
      Step(reg, [])
  }

  /** `user-typing` / `user-stop-typing` (server.js:154-172): relayed to the rest of the
      room only when the room the client names is the one the socket is mapped to. */
  function Typing(reg: Registry, sock: SocketId, roomId: RoomId, started: bool): (r: Step)
    ensures r.registry == reg
    ensures |r.out| <= 1
    ensures |r.out| == 1 <==> sock in reg.userMap && reg.userMap[sock].roomId == roomId
    ensures |r.out| == 1 ==>
              r.out[0].to == ToRoomExcept(roomId, sock) &&
              r.out[0].event == (if started then UserTyping(sock, reg.userMap[sock].nickname)
                                 else UserStopTyping(sock, reg.userMap[sock].nickname))
  {
    if sock in reg.userMap && reg.userMap[sock].roomId == roomId then
      var nickname := reg.userMap[sock].nickname;
      var event := if started then UserTyping(sock, nickname) else UserStopTyping(sock, nickname);
      Step(reg, [Emit(ToRoomExcept(roomId, sock), event)])
    else
      Step(reg, [])
  }

  /** `disconnect` (server.js:262-297). */
  function Disconnect(reg: Registry, sock: SocketId): (r: Step)
    ensures r.registry.userMap == reg.userMap - {sock}
    ensures sock !in reg.userMap ==> r == Step(reg, [])
    ensures sock in reg.userMap && reg.userMap[sock].roomId !in reg.rooms ==> r.registry.rooms == reg.rooms && r.out == []
    // only the socket's own room changes
    ensures sock in reg.userMap ==>
              forall id :: id in reg.rooms && id != reg.userMap[sock].roomId ==>
                id in r.registry.rooms && r.registry.rooms[id] == reg.rooms[id]
    ensures r.registry.rooms.Keys <= reg.rooms.Keys
    ensures sock in reg.userMap && reg.userMap[sock].roomId in reg.rooms ==>
              var id := reg.userMap[sock].roomId;
              var room := reg.rooms[id];
              var rest := Remove(room.users, sock);
              // the room is evicted exactly when it becomes empty
              && (id in r.registry.rooms <==> rest != [])
              && (rest != [] ==>
                    && r.registry.rooms[id].users == rest
                    && r.registry.rooms[id].locked == room.locked
                    // the host role passes to the earliest-inserted remaining member
                    && r.registry.rooms[id].host == (if room.host == sock then rest[0] else room.host)
                    // the others hear of the departure, last
                    && |r.out| > 0
                    && r.out[|r.out| - 1] == Emit(ToRoomExcept(id, sock), UserLeft(sock, reg.userMap[sock].nickname)))
              && (rest == [] ==> r.out == [])
              // a handed-on host role is announced to the room first
              && (room.host == sock && rest != [] ==>
                    r.out == [ Emit(ToRoom(id), NewHost(rest[0], NicknameOf(reg.userMap, rest[0]))),
                               Emit(ToRoomExcept(id, sock), UserLeft(sock, reg.userMap[sock].nickname)) ])
              && (room.host != sock && rest != [] ==> |r.out| == 1)
  {
    if sock !in reg.userMap then Step(reg, [])
    else
      var user := reg.userMap[sock];
      var userMap := reg.userMap - {sock};
      if user.roomId !in reg.rooms then Step(Registry(reg.rooms, userMap), [])
      else
        var room := reg.rooms[user.roomId];
        var rest := Remove(room.users, sock);
        var handOver := room.host == sock && |rest| > 0;
        var host := if handOver then rest[0] else room.host;
        var announced := if handOver then [Emit(ToRoom(user.roomId), NewHost(host, NicknameOf(reg.userMap, host)))] else [];
        if |rest| == 0 then
          Step(Registry(reg.rooms - {user.roomId}, userMap), announced)
        else
          Step(Registry(reg.rooms[user.roomId := Room(rest, host, room.locked)], userMap),
               announced + [Emit(ToRoomExcept(user.roomId, sock), UserLeft(sock, user.nickname))])
  }

  /** The requester is mapped to a room that exists and is its host. */
  predicate IsHost(reg: Registry, sock: SocketId) {
    sock in reg.userMap && reg.userMap[sock].roomId in reg.rooms &&
    reg.rooms[reg.userMap[sock].roomId].host == sock
  }

  /** A kick that passed the host check: if the target is connected (`io.sockets.sockets`),
      it is told why and by whom, then disconnected, which runs the disconnect handler at
      once. The target need not be in the host's room. */
  function KickTarget(reg: Registry, hostNickname: string, targetId: SocketId, reason: string,
                      connected: set<SocketId>): (r: Step)
    ensures targetId !in connected ==> r == Step(reg, [])
    ensures targetId in connected ==>
              r.registry == Disconnect(reg, targetId).registry &&
              r.out == [Emit(ToSocket(targetId), Kicked(reason, hostNickname))] + Disconnect(reg, targetId).out
  {
    if targetId in connected then
      var left := Disconnect(reg, targetId);
      Step(left.registry, [Emit(ToSocket(targetId), Kicked(reason, hostNickname))] + left.out)
    else
      Step(reg, [])
  }

  /** `kick-user` (server.js:175-200). */
  function Kick(reg: Registry, sock: SocketId, targetId: SocketId, connected: set<SocketId>): (r: Step)
    // anyone but the host changes nothing, and a mapped non-host of a live room is told so
    ensures !IsHost(reg, sock) ==> r.registry == reg
    ensures !IsHost(reg, sock) && sock in reg.userMap && reg.userMap[sock].roomId in reg.rooms ==>
              r.out == [Emit(ToSocket(sock), ErrorMessage(NoRightsMessage))]
    ensures !IsHost(reg, sock) && !(sock in reg.userMap && reg.userMap[sock].roomId in reg.rooms) ==>
              r.out == []
    ensures IsHost(reg, sock) ==>
              r == KickTarget(reg, reg.userMap[sock].nickname, targetId, HostKickReason, connected)
  {
    if sock !in reg.userMap then Step(reg, [])
    else
      var user := reg.userMap[sock];
      if user.roomId !in reg.rooms then Step(reg, [])
      else if reg.rooms[user.roomId].host != sock then
        Step(reg, [Emit(ToSocket(sock), ErrorMessage(NoRightsMessage))])
      else
        KickTarget(reg, user.nickname, targetId, HostKickReason, connected)
  }

  /** `admin-action` (server.js:203-259). */
  function AdminAction(reg: Registry, sock: SocketId, action: string, targetId: SocketId, reason: string,
                       locked: bool, connected: set<SocketId>): (r: Step)
    ensures !IsHost(reg, sock) ==> r.registry == reg
    ensures !IsHost(reg, sock) && sock in reg.userMap ==>
              r.out == [Emit(ToSocket(sock), ErrorMessage(NoAdminRightsMessage))]
    ensures sock !in reg.userMap ==> r.out == []
    ensures IsHost(reg, sock) ==>
              var user := reg.userMap[sock];
              var room := reg.rooms[user.roomId];
              && (action == "kick" ==>
                    r == KickTarget(reg, user.nickname, targetId, OrElse(reason, AdminKickReason), connected))
              // the lock flag is the only state an admin broadcast changes
              && (action == "room-lock" ==>
                    && r.registry == Registry(reg.rooms[user.roomId := room.(locked := locked)], reg.userMap)
                    && r.out == [Emit(ToRoom(user.roomId), RoomStatus(locked, user.nickname))])
              && (action == "mute-all" ==>
                    r == Step(reg, [Emit(ToRoomExcept(user.roomId, sock), AdminMuteAll(user.nickname))]))
              && (action == "nudge-all" ==>
                    r == Step(reg, [Emit(ToRoomExcept(user.roomId, sock), Nudge(user.nickname))]))
              && (action !in {"kick", "room-lock", "mute-all", "nudge-all"} ==>
                    r == Step(reg, [Emit(ToSocket(sock), ErrorMessage(UnknownAdminActionMessage))]))
  {
    if sock !in reg.userMap then Step(reg, [])
    else
      var user := reg.userMap[sock];
      if user.roomId !in reg.rooms || reg.rooms[user.roomId].host != sock then
        Step(reg, [Emit(ToSocket(sock), ErrorMessage(NoAdminRightsMessage))])
      else
        var room := reg.rooms[user.roomId];
        if action == "kick" then
          KickTarget(reg, user.nickname, targetId, OrElse(reason, AdminKickReason), connected)
        else if action == "mute-all" then
          Step(reg, [Emit(ToRoomExcept(user.roomId, sock), AdminMuteAll(user.nickname))])
        else if action == "room-lock" then
          Step(Registry(reg.rooms[user.roomId := room.(locked := locked)], reg.userMap),
               [Emit(ToRoom(user.roomId), RoomStatus(locked, user.nickname))])
        else if action == "nudge-all" then
          Step(reg, [Emit(ToRoomExcept(user.roomId, sock), Nudge(user.nickname))])
        else
          Step(reg, [Emit(ToSocket(sock), ErrorMessage(UnknownAdminActionMessage))])
  }

  // ---------------------------------------------------------------------------
  // The registry's consistency is kept by every handler (given a limit of at least one)

  lemma EmptyRegistryConsistent(max: int)
    requires max >= 1
    ensures Consistent(Registry(map[], map[]), max)
  {
  }

  /** Adding a socket to a room it may enter, and mapping it there, keeps the registry
      consistent. */
  lemma {:induction false} AddMemberKeepsConsistency(reg: Registry, max: int, sock: SocketId, roomId: RoomId, user: User)
    requires Consistent(reg, max) && user.roomId == roomId
    requires !Full(RoomFor(reg, sock, roomId), max, sock)
    ensures var room := RoomFor(reg, sock, roomId);
            Consistent(Registry(reg.rooms[roomId := room.(users := Add(room.users, sock))], reg.userMap[sock := user]), max)
  {
    var room := RoomFor(reg, sock, roomId);
    var joined := room.(users := Add(room.users, sock));
    var r := Registry(reg.rooms[roomId := joined], reg.userMap[sock := user]);
    assert RoomConsistent(joined, max) by {
      if roomId in reg.rooms {
        assert RoomConsistent(room, max);
      } else {
        assert room.users == [] && room.host == sock;
      }
    }
    forall id | id in r.rooms
      ensures RoomConsistent(r.rooms[id], max)
    {
      if id != roomId {
        assert r.rooms[id] == reg.rooms[id];
      }
    }
    forall s | s in r.userMap
      ensures r.userMap[s].roomId in r.rooms && s in r.rooms[r.userMap[s].roomId].users
    {
      if s != sock {
        var id := reg.userMap[s].roomId;
        assert s in reg.rooms[id].users;
        assert id == roomId ==> s in joined.users;
      }
    }
  }

  lemma {:induction false} JoinKeepsConsistency(reg: Registry, max: int, sock: SocketId, roomId: RoomId,
                                                nickname: string, timezone: string)
    requires Consistent(reg, max)
    ensures Consistent(Join(reg, max, sock, roomId, nickname, timezone).registry, max)
  {
    var room := RoomFor(reg, sock, roomId);
    if !LockedOut(room, sock) && !Full(room, max, sock) {
      var user := User(roomId, nickname, OrElse(timezone, "UTC"));
      AddMemberKeepsConsistency(reg, max, sock, roomId, user);
      assert Join(reg, max, sock, roomId, nickname, timezone).registry ==
             Registry(reg.rooms[roomId := room.(users := Add(room.users, sock))], reg.userMap[sock := user]);
    } else {
      // a refusal leaves the registry as it was: a new room is neither locked nor full
      assert roomId in reg.rooms;
      assert reg.rooms[roomId := reg.rooms[roomId]] == reg.rooms;
    }
  }

  lemma DisconnectKeepsConsistency(reg: Registry, max: int, sock: SocketId)
    requires Consistent(reg, max)
    ensures Consistent(Disconnect(reg, sock).registry, max)
  {
    var r := Disconnect(reg, sock).registry;
    if sock in reg.userMap {
      var id := reg.userMap[sock].roomId;
      var room := reg.rooms[id];
      var rest := Remove(room.users, sock);
      if rest != [] {
        assert RoomConsistent(r.rooms[id], max);
      }
      forall s | s in r.userMap
        ensures r.userMap[s].roomId in r.rooms && s in r.rooms[r.userMap[s].roomId].users
      {
        var sid := reg.userMap[s].roomId;
        assert s in reg.rooms[sid].users;
        if sid == id {
          assert s in rest;
        }
      }
    }
  }

  lemma KickTargetKeepsConsistency(reg: Registry, max: int, hostNickname: string, targetId: SocketId,
                                   reason: string, connected: set<SocketId>)
    requires Consistent(reg, max)
    ensures Consistent(KickTarget(reg, hostNickname, targetId, reason, connected).registry, max)
  {
    DisconnectKeepsConsistency(reg, max, targetId);
  }

  lemma KickKeepsConsistency(reg: Registry, max: int, sock: SocketId, targetId: SocketId, connected: set<SocketId>)
    requires Consistent(reg, max)
    ensures Consistent(Kick(reg, sock, targetId, connected).registry, max)
  {
    if IsHost(reg, sock) {
      KickTargetKeepsConsistency(reg, max, reg.userMap[sock].nickname, targetId, HostKickReason, connected);
    }
  }

  lemma AdminActionKeepsConsistency(reg: Registry, max: int, sock: SocketId, action: string, targetId: SocketId,
                                    reason: string, locked: bool, connected: set<SocketId>)
    requires Consistent(reg, max)
    ensures Consistent(AdminAction(reg, sock, action, targetId, reason, locked, connected).registry, max)
  {
    if IsHost(reg, sock) {
      var user := reg.userMap[sock];
      if action == "kick" {
        KickTargetKeepsConsistency(reg, max, user.nickname, targetId, OrElse(reason, AdminKickReason), connected);
      } else if action == "room-lock" {
        var r := AdminAction(reg, sock, action, targetId, reason, locked, connected).registry;
        assert RoomConsistent(r.rooms[user.roomId], max);
      }
    }
  }

  // ---------------------------------------------------------------------------
  // Host succession, and what the code does at its edges

  /** When the host leaves a room that others remain in, the role goes to the member
      inserted earliest among those who remain, that member is announced to the room,
      and the host is a member again. */
  lemma HostSuccession(reg: Registry, max: int, sock: SocketId)
    requires Consistent(reg, max)
    requires IsHost(reg, sock)
    requires |reg.rooms[reg.userMap[sock].roomId].users| >= 2
    ensures var id := reg.userMap[sock].roomId;
            var users := reg.rooms[id].users;
            var heir := if users[0] == sock then users[1] else users[0];
            var r := Disconnect(reg, sock);
            && id in r.registry.rooms
            && r.registry.rooms[id].host == heir
            && heir in r.registry.rooms[id].users
            && r.out[0] == Emit(ToRoom(id), NewHost(heir, NicknameOf(reg.userMap, heir)))
  {
    var id := reg.userMap[sock].roomId;
    var users := reg.rooms[id].users;
    assert sock in users;
    assert |Remove(users, sock)| == |users| - 1;
    RemoveFirst(users, sock);
  }

  /** With a negative limit (the only way a limit below one arises) the creator of a room
      is refused as the room is full, and the room stays registered with no members and a
      host outside it. */
  lemma NegativeLimitStrandsNewRoom(reg: Registry, parsed: Option<int>, sock: SocketId, roomId: RoomId,
                                    nickname: string, timezone: string)
    requires MaxParticipants(parsed) < 1
    requires roomId !in reg.rooms
    ensures var r := Join(reg, MaxParticipants(parsed), sock, roomId, nickname, timezone);
            && parsed.Some? && parsed.value < 0
            && r.registry.rooms[roomId] == Room([], sock, false)
            && r.out == [Emit(ToSocket(sock), JoinError("room-full", RoomFullMessage(parsed.value)))]
            && !Consistent(r.registry, MaxParticipants(parsed))
  {
    JoinRefusals(reg, MaxParticipants(parsed), sock, roomId, nickname, timezone);
  }

  /** A socket that joins a second room is re-mapped to it but is not removed from the
      first; its later disconnect removes it only from the second, so the first keeps it
      as a member for good. */
  lemma SecondJoinLeavesStaleMember(reg: Registry, max: int, sock: SocketId, first: RoomId, second: RoomId,
                                    nickname: string, timezone: string)
    requires Consistent(reg, max)
    requires sock in reg.userMap && reg.userMap[sock].roomId == first && first != second
    requires second !in reg.rooms
    ensures var joined := Join(reg, max, sock, second, nickname, timezone).registry;
            var left := Disconnect(joined, sock).registry;
            && joined.userMap[sock].roomId == second
            && sock in joined.rooms[first].users
            && sock !in left.userMap
            && first in left.rooms && sock in left.rooms[first].users
            && second !in left.rooms
  {
    var joined := Join(reg, max, sock, second, nickname, timezone).registry;
    JoinRefusals(reg, max, sock, second, nickname, timezone);
    JoinAdmits(reg, max, sock, second, nickname, timezone);
    assert Remove([sock], sock) == [];
  }
}
