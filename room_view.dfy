/** The client's view of who else is in the room: `WindowManager.participants`
    (public/js/main.js:854), a JavaScript `Map` from socket id to a participant record,
    and the host flag, as updated by the `room-info`, `user-joined`, `user-left`,
    `new-host`, `user-typing` and `user-stop-typing` handlers.

    A `Map` iterates in insertion order, and `set` on a present key keeps its place, so
    the map is a duplicate-free `order` of keys beside `entries`. */
module RoomView {
  import opened Common
  import SessionRegistry

  /** One participant record. A field the record does not have is `None`; `isTyping` is
      read only for its truth value, so a missing one is `false`. */
  datatype Participant = Participant(
    nickname: string,
    micEnabled: Option<bool>,
    camEnabled: Option<bool>,
    timezone: Option<string>,
    isTyping: bool)

  datatype Roster = Roster(
    roomId: string,                         // this.app.roomId
    isHost: bool,                           // this.app.isHost
    order: seq<SocketId>,
    entries: map<SocketId, Participant>)

  const Empty: Roster := Roster("", false, [], map[])

  /** `order` lists exactly the keys of `entries`, each once. */
  predicate Valid(r: Roster) {
    NoDup(r.order) && (forall id :: id in r.order ==> id in r.entries) && (forall id :: id in r.entries ==> id in r.order)
  }

  /** `participants.set(id, p)`. */
  function SetEntry(r: Roster, id: SocketId, p: Participant): (s: Roster)
    ensures s.entries == r.entries[id := p] && s.order == Add(r.order, id)
    ensures s.roomId == r.roomId && s.isHost == r.isHost
    ensures Valid(r) ==> Valid(s)
  {
    r.(order := Add(r.order, id), entries := r.entries[id := p])
  }

  /** `participants.delete(id)`. */
  function DeleteEntry(r: Roster, id: SocketId): (s: Roster)
    ensures s.entries == r.entries - {id} && s.order == Remove(r.order, id)
    ensures s.roomId == r.roomId && s.isHost == r.isHost
    ensures Valid(r) ==> Valid(s)
  {
    r.(order := Remove(r.order, id), entries := r.entries - {id})
  }

  /** The record room-info leaves: the nickname and nothing else. */
  function Listed(nickname: string): Participant {
    Participant(nickname, None, None, None, false)
  }

  /** The socket ids of a `room-info` member list, in order. */
  function Ids(users: seq<SessionRegistry.MemberInfo>): (ids: seq<SocketId>)
    ensures |ids| == |users| && forall k :: 0 <= k < |users| ==> ids[k] == users[k].socketId
  {
    seq(|users|, k requires 0 <= k < |users| => users[k].socketId)
  }

  /** `data.users.forEach(...)` in `handleRoomInfo` (main.js:1623-1627): every listed
      member other than this client is set to a nickname-only record. */
  function ListMembers(r: Roster, selfId: SocketId, users: seq<SessionRegistry.MemberInfo>): (s: Roster)
    ensures s.roomId == r.roomId && s.isHost == r.isHost
    ensures Valid(r) ==> Valid(s)
    decreases |users|
  {
    if users == [] then r
    else
      var n := |users| - 1;
      var prev := ListMembers(r, selfId, users[..n]);
      if users[n].socketId != selfId then SetEntry(prev, users[n].socketId, Listed(users[n].nickname)) else prev
  }

  lemma IdsPrefix(users: seq<SessionRegistry.MemberInfo>, n: nat)
    requires n <= |users|
    ensures Ids(users[..n]) == Ids(users)[..n]
  {
  }

  /** A socket is present after the listing iff it was before or it is listed and is not
      this client; the earlier order is kept as a prefix. */
  lemma {:induction false} ListMembersKeys(r: Roster, selfId: SocketId, users: seq<SessionRegistry.MemberInfo>)
    ensures var s := ListMembers(r, selfId, users);
            && r.order <= s.order
            && forall id :: id in s.entries <==> id in r.entries || (id != selfId && id in Ids(users))
  {
    if users != [] {
      var n := |users| - 1;
      ListMembersKeys(r, selfId, users[..n]);
      IdsPrefix(users, n);
      assert Ids(users) == Ids(users[..n]) + [users[n].socketId];
    }
  }

  /** This client's own record, and the record of every socket not listed, are left as
      they were. */
  lemma {:induction false} ListMembersKeeps(r: Roster, selfId: SocketId, users: seq<SessionRegistry.MemberInfo>)
    ensures var s := ListMembers(r, selfId, users);
            forall id :: id in r.entries && (id == selfId || id !in Ids(users)) ==> id in s.entries && s.entries[id] == r.entries[id]
  {
    if users != [] {
      var n := |users| - 1;
      var prev := ListMembers(r, selfId, users[..n]);
      var s := ListMembers(r, selfId, users);
      ListMembersKeeps(r, selfId, users[..n]);
      IdsPrefix(users, n);
      assert Ids(users) == Ids(users[..n]) + [users[n].socketId];
      forall id | id in r.entries && (id == selfId || id !in Ids(users))
        ensures id in s.entries && s.entries[id] == r.entries[id]
      {
        assert id in prev.entries && prev.entries[id] == r.entries[id];
        assert id == selfId || id != users[n].socketId;
      }
    }
  }

  /** A listed socket other than this client ends with the record of its last listing. */
  lemma {:induction false} ListMembersRecords(r: Roster, selfId: SocketId, users: seq<SessionRegistry.MemberInfo>)
    ensures var s := ListMembers(r, selfId, users);
            forall k :: 0 <= k < |users| && users[k].socketId != selfId && users[k].socketId !in Ids(users[k + 1..]) ==>
              users[k].socketId in s.entries && s.entries[users[k].socketId] == Listed(users[k].nickname)
  {
    if users != [] {
      var n := |users| - 1;
      var prev := ListMembers(r, selfId, users[..n]);
      var s := ListMembers(r, selfId, users);
      ListMembersRecords(r, selfId, users[..n]);
      forall k | 0 <= k < |users| && users[k].socketId != selfId && users[k].socketId !in Ids(users[k + 1..])
        ensures users[k].socketId in s.entries && s.entries[users[k].socketId] == Listed(users[k].nickname)
      {
        if k < n {
          assert users[..n][k] == users[k];
          assert users[n] == users[k + 1..][n - k - 1];
          assert users[..n][k + 1..] == users[k + 1..n];
          assert Ids(users[k + 1..n]) == Ids(users[k + 1..])[..n - k - 1];
          assert users[k].socketId != users[n].socketId;
        }
      }
    }
  }

  /** `handleRoomInfo(data)` (main.js:1599-1629): the room and host flag are taken from
      the message, and the member list is applied. */
  function RoomInfo(r: Roster, selfId: SocketId, roomId: string, isHost: bool,
                    users: seq<SessionRegistry.MemberInfo>): (s: Roster)
    ensures s.roomId == roomId && s.isHost == isHost
    ensures Valid(r) ==> Valid(s)
  {
    ListMembers(r.(roomId := roomId, isHost := isHost), selfId, users)
  }

  /** After `room-info`, the view holds exactly the sockets it held and the listed ones
      other than this client; each listed one has its last listing's nickname and
      nothing else; this client's own record and every unlisted one are untouched. */
  lemma RoomInfoContents(r: Roster, selfId: SocketId, roomId: string, isHost: bool,
                         users: seq<SessionRegistry.MemberInfo>)
    ensures var s := RoomInfo(r, selfId, roomId, isHost, users);
            && r.order <= s.order
            && (forall id :: id in s.entries <==> id in r.entries || (id != selfId && id in Ids(users)))
            && (forall id :: id in r.entries && (id == selfId || id !in Ids(users)) ==> id in s.entries && s.entries[id] == r.entries[id])
            && (forall k :: 0 <= k < |users| && users[k].socketId != selfId && users[k].socketId !in Ids(users[k + 1..]) ==>
                  users[k].socketId in s.entries && s.entries[users[k].socketId] == Listed(users[k].nickname))
  {
    var r' := r.(roomId := roomId, isHost := isHost);
    ListMembersKeys(r', selfId, users);
    ListMembersKeeps(r', selfId, users);
    ListMembersRecords(r', selfId, users);
  }

  /** `handleUserJoined(data)` (main.js:1631-1655); `localTimezone` is what
      `Intl.DateTimeFormat().resolvedOptions().timeZone` gives. */
  function UserJoined(r: Roster, id: SocketId, nickname: string, timezone: string, localTimezone: string): (s: Roster)
    ensures id in s.entries && s.order == Add(r.order, id)
    ensures s.entries[id] == Participant(nickname, Some(true), Some(true), Some(OrElse(timezone, localTimezone)), false)
    ensures forall other :: other != id ==> (other in s.entries <==> other in r.entries)
    ensures forall other :: other != id && other in r.entries ==> s.entries[other] == r.entries[other]
    ensures Valid(r) ==> Valid(s)
  {
    SetEntry(r, id, Participant(nickname, Some(true), Some(true), Some(OrElse(timezone, localTimezone)), false))
  }

  /** `handleUserLeft(data)` (main.js:1657-1672). */
  function UserLeft(r: Roster, id: SocketId): (s: Roster)
    ensures id !in s.entries && id !in s.order
    ensures forall other :: other != id ==> (other in s.entries <==> other in r.entries)
    ensures forall other :: other != id && other in r.entries ==> s.entries[other] == r.entries[other]
    ensures Valid(r) ==> Valid(s)
  {
    DeleteEntry(r, id)
  }

  /** `handleNewHost(data)` (main.js:1674-1680): the host flag follows the announcement. */
  function NewHost(r: Roster, selfId: SocketId, hostId: SocketId): (s: Roster)
    ensures s.isHost <==> hostId == selfId
    ensures s.(isHost := r.isHost) == r
  {
    r.(isHost := hostId == selfId)
  }

  /** `handleUserTyping` / `handleUserStopTyping` (main.js:2619-2652): an unknown socket is
      ignored; a known one has its flag set in place, keeping its position. */
  function Typing(r: Roster, id: SocketId, typing: bool): (s: Roster)
    ensures id !in r.entries ==> s == r
    ensures id in r.entries ==> s.entries == r.entries[id := r.entries[id].(isTyping := typing)]
    ensures s.order == r.order && s.entries.Keys == r.entries.Keys
    ensures s.roomId == r.roomId && s.isHost == r.isHost
    ensures Valid(r) ==> Valid(s)
  {
    if id in r.entries then r.(entries := r.entries[id := r.entries[id].(isTyping := typing)]) else r
  }

  /** The nicknames of the typing participants of `order`, in order (main.js:2658-2660). */
  function TypingAmong(order: seq<SocketId>, entries: map<SocketId, Participant>): (names: seq<string>)
    ensures |names| <= |order|
    ensures forall i :: 0 <= i < |order| && order[i] in entries && entries[order[i]].isTyping ==>
              entries[order[i]].nickname in names
  {
    if order == [] then []
    else
      var rest := TypingAmong(order[1..], entries);
      assert forall i :: 1 <= i < |order| ==> order[i] == order[1..][i - 1];
      if order[0] in entries && entries[order[0]].isTyping then [entries[order[0]].nickname] + rest else rest
  }

  /** `name` is the nickname of a typing participant of `order`. */
  ghost predicate TypistNamed(order: seq<SocketId>, entries: map<SocketId, Participant>, name: string) {
    exists i :: 0 <= i < |order| && order[i] in entries && entries[order[i]].isTyping && entries[order[i]].nickname == name
  }

  lemma TypistNamedInTail(order: seq<SocketId>, entries: map<SocketId, Participant>, name: string)
    requires |order| > 0 && TypistNamed(order[1..], entries, name)
    ensures TypistNamed(order, entries, name)
  {
    var i :| 0 <= i < |order[1..]| && order[1..][i] in entries && entries[order[1..][i]].isTyping &&
             entries[order[1..][i]].nickname == name;
    assert order[i + 1] == order[1..][i];
  }

  /** Every name listed belongs to a participant of `order` who is typing. */
  lemma {:induction false} TypingNamesAreTypists(order: seq<SocketId>, entries: map<SocketId, Participant>)
    ensures forall k :: 0 <= k < |TypingAmong(order, entries)| ==> TypistNamed(order, entries, TypingAmong(order, entries)[k])
  {
    if order != [] {
      TypingNamesAreTypists(order[1..], entries);
      var names := TypingAmong(order, entries);
      var rest := TypingAmong(order[1..], entries);
      var head := order[0] in entries && entries[order[0]].isTyping;
      assert names == if head then [entries[order[0]].nickname] + rest else rest;
      forall k | 0 <= k < |names|
        ensures TypistNamed(order, entries, names[k])
      {
        if head && k == 0 {
          assert order[0] in entries && entries[order[0]].isTyping && entries[order[0]].nickname == names[k];
        } else {
          var k' := if head then k - 1 else k;
          assert names[k] == rest[k'];
          TypistNamedInTail(order, entries, rest[k']);
        }
      }
    }
  }

  /** The participants of `order` who are typing. */
  ghost function Typists(order: seq<SocketId>, entries: map<SocketId, Participant>): set<SocketId> {
    set id | id in order && id in entries && entries[id].isTyping
  }

  /** Over a duplicate-free order (the keys of a `Map`), there is one name per typing
      participant: the count the indicator's sentence is chosen by. */
  lemma {:induction false} TypingCount(order: seq<SocketId>, entries: map<SocketId, Participant>)
    requires NoDup(order)
    ensures |TypingAmong(order, entries)| == |Typists(order, entries)|
  {
    if order == [] {
      assert Typists(order, entries) == {};
    } else {
      var tail := order[1..];
      assert NoDup(tail);
      TypingCount(tail, entries);
      assert order[0] !in tail;
      assert order == [order[0]] + tail;
      if order[0] in entries && entries[order[0]].isTyping {
        assert Typists(order, entries) == {order[0]} + Typists(tail, entries);
        assert order[0] !in Typists(tail, entries);
      } else {
        assert Typists(order, entries) == Typists(tail, entries);
      }
    }
  }

  function TypingNames(r: Roster): seq<string> {
    TypingAmong(r.order, r.entries)
  }

  /** No one listed as typing gives no names. */
  lemma {:induction false} NoTypistsNoNames(order: seq<SocketId>, entries: map<SocketId, Participant>)
    requires forall id :: id in entries ==> !entries[id].isTyping
    ensures TypingAmong(order, entries) == []
  {
    if order != [] {
      NoTypistsNoNames(order[1..], entries);
    }
  }

  /** Starting and then stopping typing leaves a participant who was not typing as before. */
  lemma StopUndoesStart(r: Roster, id: SocketId)
    requires id in r.entries && !r.entries[id].isTyping
    ensures Typing(Typing(r, id, true), id, false) == r
  {
    assert Typing(Typing(r, id, true), id, false).entries == r.entries;
  }

  /** `this.participants` and the host flag of `WindowManager`, updated in place. */
  class ParticipantsView {
    const selfId: SocketId                  // this.app.socket.id
    var roomId: string
    var isHost: bool
    var order: seq<SocketId>
    var entries: map<SocketId, Participant>

    function View(): Roster
      reads this
    {
      Roster(roomId, isHost, order, entries)
    }

    constructor (self: SocketId)
      ensures selfId == self && View() == Empty && Valid(View())
    {
      selfId := self;
      roomId := "";
      isHost := false;
      order := [];
      entries := map[];
    }

    method Set(id: SocketId, p: Participant)
      modifies this
      ensures View() == SetEntry(old(View()), id, p)
    {
      order := Add(order, id);
      entries := entries[id := p];
    }

    method HandleRoomInfo(roomId': string, isHost': bool, users: seq<SessionRegistry.MemberInfo>)
      modifies this
      ensures View() == RoomInfo(old(View()), selfId, roomId', isHost', users)
      ensures old(Valid(View())) ==> Valid(View())
    {
      roomId := roomId';
      isHost := isHost';
      ghost var start := View();
      var i := 0;
      while i < |users|
        invariant 0 <= i <= |users|
        invariant View() == ListMembers(start, selfId, users[..i])
      {
        assert users[..i + 1][..i] == users[..i];
        ghost var prev := ListMembers(start, selfId, users[..i]);
        assert ListMembers(start, selfId, users[..i + 1]) ==
          if users[i].socketId != selfId then SetEntry(prev, users[i].socketId, Listed(users[i].nickname)) else prev;
        if users[i].socketId != selfId {
          Set(users[i].socketId, Listed(users[i].nickname));
        }
        i := i + 1;
      }
      assert users[..i] == users;
    }

    method HandleUserJoined(id: SocketId, nickname: string, timezone: string, localTimezone: string)
      modifies this
      ensures View() == UserJoined(old(View()), id, nickname, timezone, localTimezone)
      ensures old(Valid(View())) ==> Valid(View())
    {
      Set(id, Participant(nickname, Some(true), Some(true), Some(OrElse(timezone, localTimezone)), false));
    }

    method HandleUserLeft(id: SocketId)
      modifies this
      ensures View() == UserLeft(old(View()), id)
      ensures old(Valid(View())) ==> Valid(View())
    {
      order := Remove(order, id);
      entries := entries - {id};
    }

    method HandleNewHost(hostId: SocketId)
      modifies this
      ensures View() == NewHost(old(View()), selfId, hostId)
    {
      isHost := hostId == selfId;
    }

    method HandleTyping(id: SocketId, typing: bool)
      modifies this
      ensures View() == Typing(old(View()), id, typing)
      ensures old(Valid(View())) ==> Valid(View())
    {
      if id !in entries {
        return;
      }
      var participant := entries[id];
      entries := entries[id := participant.(isTyping := typing)];
    }

    /** `Array.from(this.participants.values()).filter(p => p.isTyping).map(p => p.nickname)`. */
    method TypingUsers() returns (names: seq<string>)
      ensures names == TypingNames(View())
    {
      names := [];
      var i := |order|;
      while i > 0
        invariant 0 <= i <= |order|
        invariant names == TypingAmong(order[i..], entries)
      {
        i := i - 1;
        assert order[i..][1..] == order[i + 1..];
        if order[i] in entries && entries[order[i]].isTyping {
          names := [entries[order[i]].nickname] + names;
        }
      }
    }
  }
}
