/** `WebRTCManager` (public/js/main.js:228-669) as an object whose fields its methods
    update in place, with the source's loops over tracks and peers. Each method's new
    state is the Negotiation function of the same event applied to the old state, and
    each method keeps the manager's invariant. */
module RtcManager {
  import opened Common
  import opened Negotiation

  class WebRTCManager {
    var conns: seq<Connection>
    var peers: map<SocketId, nat>
    var localStream: Option<seq<Track>>
    var isScreenSharing: bool
    var originalVideoTrack: Option<Track>
    var outbox: seq<Outgoing>
    var stopped: set<Track>

    function State(): Client
      reads this
    {
      Client(conns, peers, localStream, isScreenSharing, originalVideoTrack, outbox, stopped)
    }

    ghost predicate Valid()
      reads this
    {
      Negotiation.Valid(State())
    }

    constructor ()
      ensures State() == Initial && Valid()
    {
      conns := [];
      peers := map[];
      localStream := None;
      isScreenSharing := false;
      originalVideoTrack := None;
      outbox := [];
      stopped := {};
      new;
      InitialValid();
    }

    /** `this.localStream = stream` once `getUserMedia` (or the placeholder stream) provides one. */
    method AttachLocalStream(stream: seq<Track>)
      requires Valid()
      modifies this
      ensures State() == old(State()).(localStream := Some(stream))
      ensures Valid()
    {
      localStream := Some(stream);
    }

    /** `createPeerConnection(socketId, isInitiator)`: store a new connection, then add
        every local track to it in stream order. */
    method CreatePeerConnection(id: SocketId, initiator: bool)
      requires Valid()
      modifies this
      ensures State() == CreatePeer(old(State()), id, initiator)
      ensures Valid()
    {
      ghost var c0 := State();
      var index := |conns|;
      conns := conns + [Connection(id, initiator, [], [])];
      peers := peers[id := index];
      if localStream.Some? {
        var tracks := localStream.value;
        var i := 0;
        while i < |tracks|
          invariant 0 <= i <= |tracks|
          invariant conns == c0.conns + [Connection(id, initiator, tracks[..i], AddTrackCalls(tracks[..i]))]
          invariant State() == c0.(conns := conns, peers := c0.peers[id := index])
        {
          assert tracks[..i + 1] == tracks[..i] + [tracks[i]];
          assert AddTrackCalls(tracks[..i + 1]) == AddTrackCalls(tracks[..i]) + [AddTrack(tracks[i])];
          var peer := conns[index];
          conns := conns[index := peer.(senders := peer.senders + [tracks[i]], calls := peer.calls + [AddTrack(tracks[i])])];
          i := i + 1;
        }
        assert tracks[..i] == tracks;
      }
      CreatePeerKeepsValid(c0, id, initiator);
    }

    /** The `existing-users` handler: an initiator connection toward each listed socket, in order. */
    method OnExistingUsers(users: seq<SocketId>)
      requires Valid()
      modifies this
      ensures State() == Negotiation.OnExistingUsers(old(State()), users)
      ensures Valid()
    {
      ghost var c0 := State();
      var i := 0;
      while i < |users|
        invariant 0 <= i <= |users|
        invariant State() == CreatePeers(c0, users[..i], true)
        invariant Valid()
      {
        assert users[..i + 1][..i] == users[..i];
        assert CreatePeers(c0, users[..i + 1], true) == CreatePeer(CreatePeers(c0, users[..i], true), users[i], true);
        CreatePeerConnection(users[i], true);
        i := i + 1;
      }
      assert users[..i] == users;
    }

    /** The `user-joined` handler: a responder connection toward the newcomer. */
    method OnUserJoined(id: SocketId)
      requires Valid()
      modifies this
      ensures State() == Negotiation.OnUserJoined(old(State()), id)
      ensures Valid()
    {
      CreatePeerConnection(id, false);
    }

    /** `removePeer(socketId)`. */
    method RemovePeer(id: SocketId)
      requires Valid()
      modifies this
      ensures State() == Negotiation.RemovePeer(old(State()), id)
      ensures Valid()
    {
      ghost var c0 := State();
      if id in peers {
        var peer := peers[id];
        conns := conns[peer := WithCall(conns[peer], Close)];
        peers := peers - {id};
      }
      RemovePeerKeepsValid(c0, id);
    }

    /** The `user-left` handler. */
    method OnUserLeft(id: SocketId)
      requires Valid()
      modifies this
      ensures State() == Negotiation.OnUserLeft(old(State()), id)
      ensures Valid()
    {
      RemovePeer(id);
    }

    /** Record a call on connection `i`. */
    method Call(i: nat, call: Call)
      requires i < |conns|
      modifies this
      ensures State() == old(State()).(conns := old(conns)[i := WithCall(old(conns)[i], call)])
    {
      conns := conns[i := WithCall(conns[i], call)];
    }

    /** The offer branch of the `signal` handler on connection `i`: set the offer, create
        and set the answer, then send it; a rejected call ends the chain. */
    method AnswerOffer(i: nat, from: SocketId, signal: Signal, answerSdp: string, aw: Await)
      requires i < |conns|
      modifies this
      ensures var answer := Description("answer", answerSdp);
              var conn := old(conns)[i];
              State() == old(State()).(
                conns := old(conns)[i := conn.(calls := conn.calls +
                           Performed([SetRemoteDescription(signal), CreateAnswer, SetLocalDescription(answer)], aw))],
                outbox := old(outbox) + if Completes(aw, 3) then [SignalTo(from, answer)] else [])
    {
      ghost var c0 := State();
      ghost var conn := conns[i];
      var answer := Description("answer", answerSdp);
      ghost var planned := [SetRemoteDescription(signal), CreateAnswer, SetLocalDescription(answer)];
      Call(i, SetRemoteDescription(signal));
      assert planned[..1] == [SetRemoteDescription(signal)];
      assert conns == c0.conns[i := conn.(calls := conn.calls + planned[..1])];
      if aw == RejectsAt(0) {
        assert Performed(planned, aw) == planned[..1];
        return;
      }
      Call(i, CreateAnswer);
      assert planned[..2] == planned[..1] + [CreateAnswer];
      assert conn.calls + planned[..1] + [CreateAnswer] == conn.calls + planned[..2];
      assert conns == c0.conns[i := conn.(calls := conn.calls + planned[..2])];
      if aw == RejectsAt(1) {
        assert Performed(planned, aw) == planned[..2];
        return;
      }
      Call(i, SetLocalDescription(answer));
      assert planned == planned[..2] + [SetLocalDescription(answer)];
      assert conn.calls + planned[..2] + [SetLocalDescription(answer)] == conn.calls + planned;
      assert conns == c0.conns[i := conn.(calls := conn.calls + planned)];
      assert Performed(planned, aw) == planned;
      if aw == RejectsAt(2) {
        return;
      }
      outbox := outbox + [SignalTo(from, answer)];
    }

    /** The `signal` handler: each awaited call either resolves, and the handler goes on,
        or rejects, and the `catch` ends it. */
    method OnSignal(from: SocketId, signal: Signal, answerSdp: string, aw: Await)
      requires Valid()
      modifies this
      ensures State() == Negotiation.OnSignal(old(State()), from, signal, answerSdp, aw)
      ensures Valid()
    {
      ghost var c0 := State();
      OnSignalKeepsValid(c0, from, signal, answerSdp, aw);
      if from !in peers {
        return;
      }
      var i := peers[from];
      ghost var conn := conns[i];
      if signal.sdpType == "offer" {
        AnswerOffer(i, from, signal, answerSdp, aw);
      } else if signal.sdpType == "answer" {
        assert Performed([SetRemoteDescription(signal)], aw) == [SetRemoteDescription(signal)];
        Call(i, SetRemoteDescription(signal));
      } else if signal.candidate != "" {
        assert Performed([AddIceCandidate(signal)], aw) == [AddIceCandidate(signal)];
        Call(i, AddIceCandidate(signal));
      } else {
        assert conn.(calls := conn.calls + []) == conn;
      }
    }

    /** `onnegotiationneeded` of connection `i`, installed only when it was created as initiator. */
    method OnNegotiationNeeded(i: nat, offerSdp: string, aw: Await)
      requires Valid() && i < |conns|
      modifies this
      ensures State() == Negotiation.OnNegotiationNeeded(old(State()), i, offerSdp, aw)
      ensures Valid()
    {
      ghost var c0 := State();
      NegotiationNeededKeepsValid(c0, i, offerSdp, aw);
      if !conns[i].initiator {
        return;
      }
      var offer := Description("offer", offerSdp);
      ghost var planned := [CreateOffer, SetLocalDescription(offer)];
      ghost var conn := conns[i];
      Call(i, CreateOffer);
      assert planned[..1] == [CreateOffer];
      assert conns == c0.conns[i := conn.(calls := conn.calls + planned[..1])];
      if aw == RejectsAt(0) {
        assert Performed(planned, aw) == planned[..1];
        return;
      }
      Call(i, SetLocalDescription(offer));
      assert planned == planned[..1] + [SetLocalDescription(offer)];
      assert conn.calls + planned[..1] + [SetLocalDescription(offer)] == conn.calls + planned;
      assert conns == c0.conns[i := conn.(calls := conn.calls + planned)];
      if aw == RejectsAt(1) {
        assert Performed(planned, aw) == planned;
        return;
      }
      assert Performed(planned, aw) == planned;
      outbox := outbox + [SignalTo(conns[i].remote, offer)];
    }

    /** `onicecandidate` of connection `i`. */
    method OnIceCandidate(i: nat, candidate: Option<string>)
      requires Valid() && i < |conns|
      modifies this
      ensures State() == Negotiation.OnIceCandidate(old(State()), i, candidate)
      ensures Valid()
    {
      IceCandidateKeepsValid(State(), i, candidate);
      if candidate.Some? {
        outbox := outbox + [SignalTo(conns[i].remote, Signal("", "", candidate.value))];
      }
    }

    /** `onconnectionstatechange` of connection `i`: the socket it was created for is removed. */
    method OnConnectionStateChange(i: nat, state: ConnectionState)
      requires Valid() && i < |conns|
      modifies this
      ensures State() == Negotiation.OnConnectionStateChange(old(State()), i, state)
      ensures Valid()
    {
      if state == Failed || state == Disconnected {
        RemovePeer(conns[i].remote);
      }
    }

    /** `Object.values(this.peers).forEach(...)` replacing each live peer's video track. */
    method SwapVideoTracks(track: Track)
      requires Refs(State())
      modifies this
      ensures State() == old(State()).(conns := SwapAll(old(conns), old(peers).Values, track))
    {
      ghost var c0 := State();
      var pending := peers.Values;
      ghost var done: set<nat> := {};
      while pending != {}
        invariant pending + done == c0.peers.Values && pending !! done
        invariant forall j :: j in pending ==> j < |conns|
        invariant |conns| == |c0.conns|
        invariant forall j :: 0 <= j < |conns| ==> conns[j] == if j in done then SwapVideo(c0.conns[j], track) else c0.conns[j]
        invariant State() == c0.(conns := conns)
        decreases pending
      {
        var j :| j in pending;
        conns := conns[j := SwapVideo(conns[j], track)];
        pending := pending - {j};
        done := done + {j};
      }
      assert conns == SwapAll(c0.conns, c0.peers.Values, track);
    }

    /** `stopScreenShare()`. */
    method StopScreenShare()
      requires Valid()
      modifies this
      ensures State() == Negotiation.StopScreenShare(old(State()))
      ensures Valid()
    {
      ghost var c0 := State();
      StopScreenShareKeepsValid(c0);
      if !isScreenSharing || originalVideoTrack.None? {
        return;
      }
      var original := originalVideoTrack.value;
      SwapVideoTracks(original);
      if localStream.None? {
        // `this.localStream.getVideoTracks()` throws
        return;
      }
      var stream := localStream.value;
      var current := VideoTrack(stream);
      if current.Some? {
        stream := Remove(stream, current.value);
        stopped := stopped + {current.value};
      }
      localStream := Some(Add(stream, original));
      isScreenSharing := false;
      originalVideoTrack := None;
    }

    /** `toggleScreenShare()`; `display` is the video track of the captured screen, or
        `None` when `getDisplayMedia` rejects. */
    method ToggleScreenShare(display: Option<Track>) returns (sharing: bool)
      requires Valid()
      requires display.Some? ==> display.value.kind == Video
      modifies this
      ensures Toggled(State(), sharing) == Negotiation.ToggleScreenShare(old(State()), display)
      ensures Valid()
    {
      ghost var c0 := State();
      ToggleScreenShareKeepsValid(c0, display);
      if isScreenSharing {
        StopScreenShare();
        return false;
      }
      if display.None? || localStream.None? {
        return false;
      }
      var screen := display.value;
      var stream := localStream.value;
      originalVideoTrack := VideoTrack(stream);
      SwapVideoTracks(screen);
      if originalVideoTrack.None? {
        // `this.localStream.removeTrack(undefined)` throws
        return false;
      }
      localStream := Some(Add(Remove(stream, originalVideoTrack.value), screen));
      isScreenSharing := true;
      return true;
    }

    /** `Object.values(this.peers).forEach(peer => peer.close())`. */
    method CloseLivePeers()
      requires Refs(State())
      modifies this
      ensures State() == old(State()).(conns := CloseAll(old(conns), old(peers).Values))
    {
      ghost var c0 := State();
      var pending := peers.Values;
      ghost var done: set<nat> := {};
      while pending != {}
        invariant pending + done == c0.peers.Values && pending !! done
        invariant forall j :: j in pending ==> j < |conns|
        invariant |conns| == |c0.conns|
        invariant forall j :: 0 <= j < |conns| ==> conns[j] == if j in done then WithCall(c0.conns[j], Close) else c0.conns[j]
        invariant State() == c0.(conns := conns)
        decreases pending
      {
        var j :| j in pending;
        conns := conns[j := WithCall(conns[j], Close)];
        pending := pending - {j};
        done := done + {j};
      }
      assert conns == CloseAll(c0.conns, c0.peers.Values);
    }

    /** `this.localStream.getTracks().forEach(track => track.stop())`. */
    method StopTracks(tracks: seq<Track>)
      modifies this
      ensures State() == old(State()).(stopped := old(stopped) + TrackSet(tracks))
    {
      ghost var c0 := State();
      var i := 0;
      while i < |tracks|
        invariant 0 <= i <= |tracks|
        invariant State() == c0.(stopped := c0.stopped + TrackSet(tracks[..i]))
      {
        assert TrackSet(tracks[..i + 1]) == TrackSet(tracks[..i]) + {tracks[i]} by {
          assert tracks[..i + 1] == tracks[..i] + [tracks[i]];
        }
        stopped := stopped + {tracks[i]};
        i := i + 1;
      }
      assert tracks[..i] == tracks;
    }

    /** `cleanup()`: close every live connection, forget them all, stop every local track. */
    method Cleanup()
      requires Valid()
      modifies this
      ensures State() == Negotiation.Cleanup(old(State()))
      ensures Valid()
    {
      CleanupKeepsValid(State());
      CloseLivePeers();
      peers := map[];
      if localStream.Some? {
        StopTracks(localStream.value);
        localStream := None;
      } else {
        assert TrackSet([]) == {};
      }
    }
  }
}
