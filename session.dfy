/** The server and the clients together: which sockets an emit reaches, and what the
    two sides' handlers do in combination when a newcomer joins, when two peers
    negotiate through the relay, and when the host leaves. */
module Session {
  import opened Common
  import opened SessionRegistry
  import N = Negotiation
  import RoomView

  /** Socket.IO rooms: every socket is in the room named by its own id, and a socket
      admitted by `join-room` was put in that room by `socket.join(roomId)` and leaves
      it when it disconnects, as it leaves the registry's member list. */
  ghost predicate InRoom(reg: Registry, room: string, s: SocketId) {
    s == room || (room in reg.rooms && s in reg.rooms[room].users)
  }

  /** Whether an emit addressed to `to` reaches socket `s`, judged on the registry as the
      handler leaves it. */
  ghost predicate Reaches(reg: Registry, to: Recipient, s: SocketId) {
    match to
    case ToSocket(id) => s == id
    case ToRoom(room) => InRoom(reg, room, s)
    case ToRoomExcept(room, sender) => s != sender && InRoom(reg, room, s)
  }

  /** When a newcomer is admitted, `user-joined` reaches exactly the members it did not
      find listed in `existing-users` apart from itself: the two messages split the room
      between them. */
  lemma ArrivalReachesExistingMembers(reg: Registry, max: int, b: SocketId, roomId: RoomId,
                                      nickname: string, timezone: string, s: SocketId)
    requires !LockedOut(RoomFor(reg, b, roomId), b) && !Full(RoomFor(reg, b, roomId), max, b)
    requires s != roomId
    ensures var j := Join(reg, max, b, roomId, nickname, timezone);
            Reaches(j.registry, j.out[1].to, s) <==> s in RoomFor(reg, b, roomId).users && s != b
  {
    JoinAdmits(reg, max, b, roomId, nickname, timezone);
  }

  /** Exactly one side of each new pair initiates: the newcomer makes an initiator
      connection toward every existing member, and each member that hears of it makes a
      responder connection toward the newcomer; the newcomer never connects to itself. */
  lemma {:induction false} OneInitiatorPerPair(reg: Registry, max: int, b: SocketId, roomId: RoomId,
                                               nickname: string, timezone: string,
                                               newcomer: N.Client, member: N.Client, a: SocketId)
    requires Consistent(reg, max)
    requires !LockedOut(RoomFor(reg, b, roomId), b) && !Full(RoomFor(reg, b, roomId), max, b)
    requires b !in RoomFor(reg, b, roomId).users && a in RoomFor(reg, b, roomId).users
    ensures var j := Join(reg, max, b, roomId, nickname, timezone);
            && j.out[0].to == ToSocket(b) && j.out[0].event.ExistingUsers?
            && b !in j.out[0].event.users && a in j.out[0].event.users
            && Reaches(j.registry, j.out[1].to, a) && j.out[1].event.UserJoined?
            && var nb := N.OnExistingUsers(newcomer, j.out[0].event.users);
               var na := N.OnUserJoined(member, j.out[1].event.socketId);
               && a in nb.peers && nb.peers[a] < |nb.conns| && nb.conns[nb.peers[a]].initiator
               && b in na.peers && !na.conns[na.peers[b]].initiator
  {
    var j := Join(reg, max, b, roomId, nickname, timezone);
    var room := RoomFor(reg, b, roomId);
    JoinAdmits(reg, max, b, roomId, nickname, timezone);
    assert j.registry.rooms[roomId].users == Add(room.users, b);
    assert a in j.registry.rooms[roomId].users;
    N.CreatePeersRegisters(newcomer, j.out[0].event.users, true);
  }

  /** The newcomer's side of the offer: for any `existing-users` list naming `a`, its
      connection toward `a` is an initiator, and its negotiation sends one offer to `a`
      after creating and setting it. */
  lemma {:induction false} NewcomerOffers(newcomer: N.Client, users: seq<SocketId>, a: SocketId, offerSdp: string)
    requires a in users
    ensures var nb := N.OnExistingUsers(newcomer, users);
            && a in nb.peers && nb.peers[a] < |nb.conns| && nb.conns[nb.peers[a]].initiator
            && nb.conns[nb.peers[a]].remote == a
            && var ob := N.OnNegotiationNeeded(nb, nb.peers[a], offerSdp, N.AllResolve);
               && ob.peers == nb.peers && |ob.conns| == |nb.conns|
               && ob.outbox == nb.outbox + [N.SignalTo(a, N.Description("offer", offerSdp))]
               && ob.conns[nb.peers[a]].calls ==
                    nb.conns[nb.peers[a]].calls + [N.CreateOffer, N.SetLocalDescription(N.Description("offer", offerSdp))]
  {
    N.CreatePeersRegisters(newcomer, users, true);
  }

  /** The member's side: its responder connection toward `b` never offers, and an offer
      from `b` is set, answered and the answer sent back to `b`. */
  lemma {:induction false} MemberAnswers(member: N.Client, b: SocketId, offerSdp: string, answerSdp: string)
    requires N.Refs(member)
    ensures var na := N.OnUserJoined(member, b);
            var k := na.peers[b];
            var offer := N.Description("offer", offerSdp);
            var oa := N.OnSignal(na, b, offer, answerSdp, N.AllResolve);
            && k < |na.conns| && !na.conns[k].initiator
            && oa.outbox == na.outbox + [N.SignalTo(b, N.Description("answer", answerSdp))]
            && oa.conns[k].calls == na.conns[k].calls +
                 [N.SetRemoteDescription(offer), N.CreateAnswer, N.SetLocalDescription(N.Description("answer", answerSdp))]
            && N.OnNegotiationNeeded(na, k, offerSdp, N.AllResolve) == na
  {
  }

  /** The initiator's side of the answer: on a connection that offered, the answer is
      set after the offer's own two calls, and nothing is sent. `NewcomerOffers` shows the
      newcomer's connection toward an existing member is such a connection. */
  lemma {:induction false} NewcomerSetsAnswer(nb: N.Client, a: SocketId, offerSdp: string, answerSdp: string,
                                              ob: N.Client, fb: N.Client)
    requires N.Refs(nb) && a in nb.peers && nb.conns[nb.peers[a]].initiator
    requires ob == N.OnNegotiationNeeded(nb, nb.peers[a], offerSdp, N.AllResolve)
    requires fb == N.OnSignal(ob, a, N.Description("answer", answerSdp), "", N.AllResolve)
    ensures fb.outbox == ob.outbox
    ensures fb.conns[nb.peers[a]].calls == nb.conns[nb.peers[a]].calls +
              [N.CreateOffer, N.SetLocalDescription(N.Description("offer", offerSdp)),
               N.SetRemoteDescription(N.Description("answer", answerSdp))]
  {
    var i := nb.peers[a];
    var offer := N.Description("offer", offerSdp);
    var answer := N.Description("answer", answerSdp);
    var before := nb.conns[i].calls;
    assert ob.conns[i].calls == before + [N.CreateOffer, N.SetLocalDescription(offer)];
    assert N.Refs(ob) && ob.peers[a] == i;
    assert answer.sdpType != "offer" by { assert answer.sdpType[0] != "offer"[0]; }
    assert N.SignalCalls(answer, "", N.AllResolve) == [N.SetRemoteDescription(answer)];
    assert fb.conns[i].calls == ob.conns[i].calls + [N.SetRemoteDescription(answer)];
    assert before + [N.CreateOffer, N.SetLocalDescription(offer)] + [N.SetRemoteDescription(answer)] ==
           before + [N.CreateOffer, N.SetLocalDescription(offer), N.SetRemoteDescription(answer)];
  }

  /** The offer/answer exchange of section 5 of RFC 8829 as the two managers and the relay
      perform it, up to the answer's arrival: the initiator's negotiation sends an offer to
      the member; the relay delivers it tagged with the initiator; the member's responder
      connection sets it, answers, and sends the answer back, which the relay delivers to
      the initiator (whose handling of it is `NewcomerSetsAnswer`). The responder's own
      negotiation event sends nothing. */
  lemma {:induction false} OfferAnswerExchange(reg: Registry, newcomer: N.Client, member: N.Client,
                                               users: seq<SocketId>, a: SocketId, b: SocketId,
                                               offerSdp: string, answerSdp: string,
                                               nb: N.Client, ob: N.Client, na: N.Client, oa: N.Client)
    requires N.Refs(newcomer) && N.Refs(member) && a != b
    // the newcomer hears of `a` and negotiates toward it
    requires a in users && nb == N.OnExistingUsers(newcomer, users) && a in nb.peers && nb.peers[a] < |nb.conns|
    requires ob == N.OnNegotiationNeeded(nb, nb.peers[a], offerSdp, N.AllResolve)
    // the member hears of `b` and receives the relayed offer
    requires na == N.OnUserJoined(member, b) && b in na.peers
    requires oa == N.OnSignal(na, b, N.Description("offer", offerSdp), answerSdp, N.AllResolve)
    // the offer goes to the member, and the relay delivers it from the newcomer
    ensures ob.outbox == nb.outbox + [N.SignalTo(a, N.Description("offer", offerSdp))]
    ensures Relay(reg, b, a, N.Description("offer", offerSdp)).out ==
              [Emit(ToRoomExcept(a, b), RelayedSignal(b, N.Description("offer", offerSdp)))]
    ensures Reaches(reg, ToRoomExcept(a, b), a)
    // the member answers it to the newcomer, and the relay delivers the answer
    ensures oa.outbox == na.outbox + [N.SignalTo(b, N.Description("answer", answerSdp))]
    ensures oa.conns[na.peers[b]].calls == na.conns[na.peers[b]].calls +
              [N.SetRemoteDescription(N.Description("offer", offerSdp)), N.CreateAnswer,
               N.SetLocalDescription(N.Description("answer", answerSdp))]
    ensures Relay(reg, a, b, N.Description("answer", answerSdp)).out ==
              [Emit(ToRoomExcept(b, a), RelayedSignal(a, N.Description("answer", answerSdp)))]
    ensures Reaches(reg, ToRoomExcept(b, a), b)
    // the member's connection never offers
    ensures N.OnNegotiationNeeded(na, na.peers[b], offerSdp, N.AllResolve) == na
  {
    NewcomerOffers(newcomer, users, a, offerSdp);
    MemberAnswers(member, b, offerSdp, answerSdp);
  }

  /** When the host leaves, `new-host` reaches every member who remains, and exactly one
      of them, the heir, takes its view's host flag from it. */
  lemma {:induction false} OneClientBecomesHost(reg: Registry, max: int, h: SocketId, view: RoomView.Roster)
    requires Consistent(reg, max) && IsHost(reg, h)
    requires |reg.rooms[reg.userMap[h].roomId].users| >= 2
    ensures var id := reg.userMap[h].roomId;
            var d := Disconnect(reg, h);
            && d.out[0].event.NewHost?
            && (forall s :: s in d.registry.rooms[id].users ==> Reaches(d.registry, d.out[0].to, s))
            && (forall s :: s in d.registry.rooms[id].users ==>
                  (RoomView.NewHost(view, s, d.out[0].event.hostId).isHost <==> s == d.registry.rooms[id].host))
            && d.registry.rooms[id].host in d.registry.rooms[id].users
  {
    HostSuccession(reg, max, h);
  }
}
