/** The per-connection Socket.IO handlers of server.js as methods of one object that owns
    `rooms` and `userMap` and updates them in place, checking the same guards in the same order
    as the source. Each method's new state and emits are those of the SessionRegistry
    function of the same event, whose properties are proved in that module; each method
    also keeps the registry's consistency. */
module Gateway {
  import opened Common
  import opened SessionRegistry

  class SessionGateway {
    var rooms: map<RoomId, Room>
    var userMap: map<SocketId, User>
    /** `MAX_PARTICIPANTS`: read from the environment at every join, the same value each time. */
    const maxParticipants: int

    function Snapshot(): Registry
      reads this
    {
      Registry(rooms, userMap)
    }

    ghost predicate Valid()
      reads this
    {
      Consistent(Snapshot(), maxParticipants)
    }

    /** The server at start-up, given what `parseInt` made of `MAX_PARTICIPANTS`. */
    constructor (parsedMax: Option<int>)
      ensures maxParticipants == MaxParticipants(parsedMax)
      ensures rooms == map[] && userMap == map[]
      ensures maxParticipants >= 1 ==> Valid()
    {
      rooms := map[];
      userMap := map[];
      maxParticipants := MaxParticipants(parsedMax);
      new;
      if maxParticipants >= 1 {
        EmptyRegistryConsistent(maxParticipants);
      }
    }

    /** `join-room` (server.js:44-112). */
    method JoinRoom(sock: SocketId, roomId: RoomId, nickname: string, timezone: string) returns (out: seq<Emit>)
      modifies this
      ensures Step(Snapshot(), out) == Join(old(Snapshot()), maxParticipants, sock, roomId, nickname, timezone)
      ensures old(Valid()) ==> Valid()
    {
      ghost var before := Snapshot();
      if roomId !in rooms {
        rooms := rooms[roomId := Room([], sock, false)];
      }
      JoinAfterCreate(before, maxParticipants, sock, roomId, nickname, timezone);
      var room := rooms[roomId];
      // each refusal ends the handler, so the admission is the last branch
      if room.locked && sock !in room.users {
        out := [Emit(ToSocket(sock), JoinError("room-locked", RoomLockedMessage))];
      } else if |room.users| >= maxParticipants && sock !in room.users {
        out := [Emit(ToSocket(sock), JoinError("room-full", RoomFullMessage(maxParticipants)))];
      } else {
        out := Admit(sock, roomId, nickname, timezone);
      }
      if Consistent(before, maxParticipants) { JoinKeepsConsistency(before, maxParticipants, sock, roomId, nickname, timezone); }
    }

    /** The admission part of `join-room` (server.js:78-108), once the guards have
        passed: the joiner is added and mapped, and the three emits are made. */
    method Admit(sock: SocketId, roomId: RoomId, nickname: string, timezone: string) returns (out: seq<Emit>)
      requires roomId in rooms
      requires !LockedOut(rooms[roomId], sock) && !Full(rooms[roomId], maxParticipants, sock)
      modifies this
      ensures Step(Snapshot(), out) == Join(old(Snapshot()), maxParticipants, sock, roomId, nickname, timezone)
    {
      ghost var before := Snapshot();
      ghost var result := Join(before, maxParticipants, sock, roomId, nickname, timezone);
      var room := rooms[roomId];
      var existingUsers := room.users;
      room := room.(users := Add(room.users, sock));
      rooms := rooms[roomId := room];
      var tz := OrElse(timezone, "UTC");
      userMap := userMap[sock := User(roomId, nickname, tz)];
      out := [ Emit(ToSocket(sock), ExistingUsers(existingUsers)),
               Emit(ToRoomExcept(roomId, sock), UserJoined(sock, nickname, tz)),
               Emit(ToSocket(sock), RoomInfo(roomId, room.host, sock == room.host, room.locked,
                                             MemberInfos(room.users, userMap))) ];
      assert before.rooms[roomId := RoomFor(before, sock, roomId)] == before.rooms;
      assert result == Step(Snapshot(), out);
    }

    /** `signal` (server.js:115-121): forwarded without looking at the registry. */
    method Signal(sock: SocketId, to: SocketId, signal: Common.Signal) returns (out: seq<Emit>)
      ensures Step(Snapshot(), out) == Relay(Snapshot(), sock, to, signal)
    {
      out := [Emit(ToRoomExcept(to, sock), RelayedSignal(sock, signal))];
    }

    /** `chat-message` (server.js:124-138). */
    method ChatMessage(sock: SocketId, message: string) returns (out: seq<Emit>)
      ensures Step(Snapshot(), out) == Chat(Snapshot(), sock, message)
    {
      out := [];
      if sock in userMap {
        var user := userMap[sock];
        out := [Emit(ToRoom(user.roomId), Event.ChatMessage(sock, user.nickname, message))];
      }
    }

    /** `play-sound` (server.js:141-151). */
    method PlaySound(sock: SocketId, sound: string) returns (out: seq<Emit>)
      ensures Step(Snapshot(), out) == Sound(Snapshot(), sock, sound)
    {
      out := [];
      if sock in userMap {
        var user := userMap[sock];
        out := [Emit(ToRoomExcept(user.roomId, sock), Event.PlaySound(sound, user.nickname))];
      }
    }

    /** `user-typing` (server.js:154-162). */
    method UserTyping(sock: SocketId, roomId: RoomId) returns (out: seq<Emit>)
      ensures Step(Snapshot(), out) == Typing(Snapshot(), sock, roomId, true)
    {
      out := [];
      if sock in userMap && userMap[sock].roomId == roomId {
        out := [Emit(ToRoomExcept(roomId, sock), Event.UserTyping(sock, userMap[sock].nickname))];
      }
    }

    /** `user-stop-typing` (server.js:164-172). */
    method UserStopTyping(sock: SocketId, roomId: RoomId) returns (out: seq<Emit>)
      ensures Step(Snapshot(), out) == Typing(Snapshot(), sock, roomId, false)
    {
      out := [];
      if sock in userMap && userMap[sock].roomId == roomId {
        out := [Emit(ToRoomExcept(roomId, sock), Event.UserStopTyping(sock, userMap[sock].nickname))];
      }
    }

    /** `disconnect` (server.js:262-297). */
    method Disconnect(sock: SocketId) returns (out: seq<Emit>)
      modifies this
      ensures Step(Snapshot(), out) == SessionRegistry.Disconnect(old(Snapshot()), sock)
      ensures old(Valid()) ==> Valid()
    {
      if Valid() {
        DisconnectKeepsConsistency(Snapshot(), maxParticipants, sock);
      }
      out := [];
      if sock !in userMap {
        return;
      }
      var user := userMap[sock];
      if user.roomId in rooms {
        var room := rooms[user.roomId];
        room := room.(users := Remove(room.users, sock));
        if room.host == sock && |room.users| > 0 {
          var newHost := room.users[0];
          room := room.(host := newHost);
          out := out + [Emit(ToRoom(user.roomId), NewHost(newHost, NicknameOf(userMap, newHost)))];
        }
        if |room.users| == 0 {
          rooms := rooms - {user.roomId};
        } else {
          rooms := rooms[user.roomId := room];
          out := out + [Emit(ToRoomExcept(user.roomId, sock), UserLeft(sock, user.nickname))];
        }
      }
      userMap := userMap - {sock};
    }

    /** `targetSocket.emit('kicked', ...)` then `targetSocket.disconnect()`, which runs the
        target's disconnect handler before returning. */
    method ForceDisconnect(hostNickname: string, targetId: SocketId, reason: string, connected: set<SocketId>)
      returns (out: seq<Emit>)
      modifies this
      ensures Step(Snapshot(), out) == KickTarget(old(Snapshot()), hostNickname, targetId, reason, connected)
      ensures old(Valid()) ==> Valid()
    {
      out := [];
      if targetId in connected {
        var left := Disconnect(targetId);
        out := [Emit(ToSocket(targetId), Kicked(reason, hostNickname))] + left;
      }
    }

    /** `kick-user` (server.js:175-200); `connected` stands for `io.sockets.sockets`. */
    method KickUser(sock: SocketId, targetId: SocketId, connected: set<SocketId>) returns (out: seq<Emit>)
      modifies this
      ensures Step(Snapshot(), out) == Kick(old(Snapshot()), sock, targetId, connected)
      ensures old(Valid()) ==> Valid()
    {
      out := [];
      if sock !in userMap {
        return;
      }
      var user := userMap[sock];
      if user.roomId !in rooms {
        return;
      }
      if rooms[user.roomId].host != sock {
        out := [Emit(ToSocket(sock), ErrorMessage(NoRightsMessage))];
        return;
      }
      out := ForceDisconnect(user.nickname, targetId, HostKickReason, connected);
    }

    /** `admin-action` (server.js:203-259). */
    method AdminAction(sock: SocketId, action: string, targetId: SocketId, reason: string, locked: bool,
                       connected: set<SocketId>) returns (out: seq<Emit>)
      modifies this
      ensures Step(Snapshot(), out) == SessionRegistry.AdminAction(old(Snapshot()), sock, action, targetId, reason, locked, connected)
      ensures old(Valid()) ==> Valid()
    {
      if Valid() {
        AdminActionKeepsConsistency(Snapshot(), maxParticipants, sock, action, targetId, reason, locked, connected);
      }
      out := [];
      if sock !in userMap {
        return;
      }
      var user := userMap[sock];
      if user.roomId !in rooms || rooms[user.roomId].host != sock {
        out := [Emit(ToSocket(sock), ErrorMessage(NoAdminRightsMessage))];
        return;
      }
      var room := rooms[user.roomId];
      if action == "kick" {
        out := ForceDisconnect(user.nickname, targetId, OrElse(reason, AdminKickReason), connected);
      } else if action == "mute-all" {
        out := [Emit(ToRoomExcept(user.roomId, sock), AdminMuteAll(user.nickname))];
      } else if action == "room-lock" {
        room := room.(locked := locked);
        rooms := rooms[user.roomId := room];
        out := [Emit(ToRoom(user.roomId), RoomStatus(room.locked, user.nickname))];
      } else if action == "nudge-all" {
        out := [Emit(ToRoomExcept(user.roomId, sock), Nudge(user.nickname))];
      } else {
        out := [Emit(ToSocket(sock), ErrorMessage(UnknownAdminActionMessage))];
      }
    }
  }
}
