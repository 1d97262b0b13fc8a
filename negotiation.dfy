/** The client's peer-connection orchestration (`WebRTCManager` in public/js/main.js) as
    functions from the manager's state before an event to its state after it.

    Every RTCPeerConnection the manager creates is an entry of `conns`, in creation order;
    its index is its identity, so a connection that has been replaced in `peers` or closed
    is still there with the calls that were made on it. A connection is an abstract object:
    the model records which of its methods were called, and the tracks its senders carry.
    `outbox` is what went out through `socket.emit('signal', ...)`. */
module Negotiation {
  import opened Common

  datatype Kind = Audio | Video

  /** A MediaStreamTrack; `id` tells tracks apart. */
  datatype Track = Track(id: nat, kind: Kind)

  /** The calls the model records on an RTCPeerConnection. */
  datatype Call =
    | AddTrack(track: Track)
    | SetRemoteDescription(description: Signal)
    | CreateAnswer
    | CreateOffer
    | SetLocalDescription(description: Signal)
    | AddIceCandidate(candidate: Signal)
    | ReplaceTrack(track: Track)
    | Close

  /** One RTCPeerConnection: the socket it was created for, whether it was given an
      `onnegotiationneeded` handler (created as initiator), the track of each of its
      senders, and the calls made on it so far. */
  datatype Connection = Connection(remote: SocketId, initiator: bool, senders: seq<Track>, calls: seq<Call>)

  /** `RTCPeerConnection.connectionState`. */
  datatype ConnectionState = New | Connecting | Connected | Disconnected | Failed | Closed

  /** How a chain of awaited calls in an async handler settles: all resolve, or the one
      at position `step` (from 0) rejects and the `catch` ends the handler. */
  datatype Await = AllResolve | RejectsAt(step: nat)

  /** `socket.emit('signal', {to, signal})`. */
  datatype Outgoing = SignalTo(to: SocketId, signal: Signal)

  datatype Client = Client(
    conns: seq<Connection>,
    peers: map<SocketId, nat>,           // this.peers: socketId -> connection
    localStream: Option<seq<Track>>,     // this.localStream and the tracks it holds
    isScreenSharing: bool,
    originalVideoTrack: Option<Track>,
    outbox: seq<Outgoing>,
    stopped: set<Track>)                 // tracks on which track.stop() was called

  /** The manager as its constructor leaves it (main.js:229-257). */
  const Initial: Client := Client([], map[], None, false, None, [], {})

  /** The description a connection produces: `{type, sdp}`. */
  function Description(sdpType: string, sdp: string): Signal {
    Signal(sdpType, sdp, "")
  }

  /** Every entry of `peers` names a connection that was created for that socket. */
  predicate Refs(c: Client) {
    forall id :: id in c.peers ==> c.peers[id] < |c.conns| && c.conns[c.peers[id]].remote == id
  }

  /** Some connection toward `id` was created as initiator. */
  ghost predicate InitiatorToward(conns: seq<Connection>, id: SocketId) {
    exists i :: 0 <= i < |conns| && conns[i].initiator && conns[i].remote == id
  }

  /** The manager's invariant: each peer entry is a live connection made for that socket,
      the saved camera track exists only while sharing, and every offer that went out
      went to a socket toward which this client holds an initiator connection. */
  ghost predicate Valid(c: Client) {
    && Refs(c)
    && (forall id :: id in c.peers ==> Close !in c.conns[c.peers[id]].calls)
    && (!c.isScreenSharing ==> c.originalVideoTrack.None?)
    && (forall k :: 0 <= k < |c.outbox| && c.outbox[k].signal.sdpType == "offer" ==>
          InitiatorToward(c.conns, c.outbox[k].to))
  }

  /** The calls of an awaited chain that are actually made. */
  function Performed(planned: seq<Call>, aw: Await): (r: seq<Call>)
    ensures r <= planned
    ensures aw.AllResolve? ==> r == planned
    ensures aw.RejectsAt? ==> |r| == if aw.step < |planned| then aw.step + 1 else |planned|
  {
    match aw
    case AllResolve => planned
    case RejectsAt(k) => if k < |planned| then planned[..k + 1] else planned
  }

  /** No call of a chain of `n` rejects. */
  predicate Completes(aw: Await, n: nat) {
    aw.AllResolve? || aw.step >= n
  }

  function LocalTracks(c: Client): seq<Track> {
    if c.localStream.Some? then c.localStream.value else []
  }

  function AddTrackCalls(tracks: seq<Track>): (r: seq<Call>)
    ensures |r| == |tracks|
    ensures forall i :: 0 <= i < |tracks| ==> r[i] == AddTrack(tracks[i])
  {
    seq(|tracks|, i requires 0 <= i < |tracks| => AddTrack(tracks[i]))
  }

  /** The fields other than `conns` and `peers` are those of `c`. */
  predicate SameMedia(r: Client, c: Client) {
    r.(conns := c.conns, peers := c.peers) == c
  }

  // ---------------------------------------------------------------------------
  // Creating and destroying connections

  /** The connection `createPeerConnection` builds toward `id`: one sender and one
      `addTrack` call per local track, nothing else called yet. */
  function Fresh(id: SocketId, initiator: bool, tracks: seq<Track>): Connection {
    Connection(id, initiator, tracks, AddTrackCalls(tracks))
  }

  /** `createPeerConnection(socketId, isInitiator)` (main.js:473-531). */
  function CreatePeer(c: Client, id: SocketId, initiator: bool): (r: Client)
    // a new connection is stored under the socket, replacing any entry that was there
    ensures r.peers == c.peers[id := |c.conns|]
    // it is appended; a replaced connection is left as it was: it is not closed
    ensures r.conns == c.conns + [Fresh(id, initiator, LocalTracks(c))]
    ensures SameMedia(r, c)
    ensures Refs(c) ==> Refs(r)
  {
    c.(conns := c.conns + [Fresh(id, initiator, LocalTracks(c))], peers := c.peers[id := |c.conns|])
  }

  /** `users.forEach(userId => this.createPeerConnection(userId, initiator))`. */
  function CreatePeers(c: Client, ids: seq<SocketId>, initiator: bool): (r: Client)
    // one new connection per listed socket, in order; the earlier ones are kept as they were
    ensures |r.conns| == |c.conns| + |ids|
    ensures r.conns[..|c.conns|] == c.conns
    ensures forall k :: 0 <= k < |ids| ==> r.conns[|c.conns| + k] == Fresh(ids[k], initiator, LocalTracks(c))
    ensures SameMedia(r, c)
    decreases |ids|
  {
    if ids == [] then c
    else
      var prev := CreatePeers(c, ids[..|ids| - 1], initiator);
      var r := CreatePeer(prev, ids[|ids| - 1], initiator);
      assert LocalTracks(prev) == LocalTracks(c);
      forall k | 0 <= k < |ids|
        ensures r.conns[|c.conns| + k] == Fresh(ids[k], initiator, LocalTracks(c))
      {
        if k < |ids| - 1 {
          assert ids[k] == ids[..|ids| - 1][k];
          assert r.conns[|c.conns| + k] == prev.conns[|c.conns| + k];
        }
      }
      r
  }

  /** Every listed socket ends up with a connection of the given role created by the call;
      the other entries are untouched, so every entry still names its own socket. */
  lemma {:induction false} CreatePeersRegisters(c: Client, ids: seq<SocketId>, initiator: bool)
    ensures var r := CreatePeers(c, ids, initiator);
            && (forall id :: id in ids ==>
                  id in r.peers && |c.conns| <= r.peers[id] < |r.conns| &&
                  r.conns[r.peers[id]].remote == id && r.conns[r.peers[id]].initiator == initiator)
            && (forall id :: id !in ids ==> (id in r.peers <==> id in c.peers))
            && (forall id :: id !in ids && id in c.peers ==> r.peers[id] == c.peers[id])
            && (Refs(c) ==> Refs(r))
    decreases |ids|
  {
    if ids != [] {
      var n := |ids| - 1;
      var prev := CreatePeers(c, ids[..n], initiator);
      var r := CreatePeers(c, ids, initiator);
      var last := ids[n];
      CreatePeersRegisters(c, ids[..n], initiator);
      assert r == CreatePeer(prev, last, initiator);
      assert r.peers == prev.peers[last := |prev.conns|];
      assert r.conns == prev.conns + [Fresh(last, initiator, LocalTracks(prev))];
      forall id | id in ids
        ensures id in r.peers && |c.conns| <= r.peers[id] < |r.conns|
        ensures r.conns[r.peers[id]].remote == id && r.conns[r.peers[id]].initiator == initiator
      {
        if id != last {
          assert id in ids[..n];
          assert r.peers[id] == prev.peers[id] && r.conns[prev.peers[id]] == prev.conns[prev.peers[id]];
        }
      }
      forall id | id !in ids
        ensures (id in r.peers <==> id in c.peers) && (id in c.peers ==> r.peers[id] == c.peers[id])
      {
        assert id != last && id !in ids[..n];
      }
      if Refs(c) {
        forall id | id in r.peers
          ensures r.peers[id] < |r.conns| && r.conns[r.peers[id]].remote == id
        {
          if id != last {
            assert r.peers[id] == prev.peers[id] && r.conns[prev.peers[id]] == prev.conns[prev.peers[id]];
          }
        }
      }
    }
  }

  /** The `existing-users` handler (main.js:261-266): the newcomer initiates toward everyone listed. */
  function OnExistingUsers(c: Client, users: seq<SocketId>): Client {
    CreatePeers(c, users, true)
  }

  /** The `user-joined` handler (main.js:269-272): an incumbent responds to the newcomer. */
  function OnUserJoined(c: Client, id: SocketId): Client {
    CreatePeer(c, id, false)
  }

  function WithCall(conn: Connection, call: Call): Connection {
    conn.(calls := conn.calls + [call])
  }

  /** `removePeer(socketId)` (main.js:534-543): close and forget the entry, if there is one. */
  function RemovePeer(c: Client, id: SocketId): (r: Client)
    requires Refs(c)
    ensures id !in r.peers && r.peers == c.peers - {id}
    ensures |r.conns| == |c.conns|
    ensures id !in c.peers ==> r == c
    ensures id in c.peers ==> r.conns[c.peers[id]] == WithCall(c.conns[c.peers[id]], Close)
    ensures forall i :: 0 <= i < |c.conns| && !(id in c.peers && i == c.peers[id]) ==> r.conns[i] == c.conns[i]
    ensures SameMedia(r, c)
    ensures Refs(r)
  {
    if id in c.peers then
      var i := c.peers[id];
      c.(conns := c.conns[i := WithCall(c.conns[i], Close)], peers := c.peers - {id})
    else
      c
  }

  /** The `user-left` handler (main.js:275-278). */
  function OnUserLeft(c: Client, id: SocketId): Client
    requires Refs(c)
  {
    RemovePeer(c, id)
  }

  /** `onconnectionstatechange` of connection `i` (main.js:506-511): a failed or
      disconnected connection removes whatever is stored under its socket now. */
  function OnConnectionStateChange(c: Client, i: nat, state: ConnectionState): (r: Client)
    requires Refs(c) && i < |c.conns|
    ensures state == Failed || state == Disconnected ==> r == RemovePeer(c, c.conns[i].remote)
    ensures state != Failed && state != Disconnected ==> r == c
    ensures Refs(r)
  {
    if state == Failed || state == Disconnected then RemovePeer(c, c.conns[i].remote) else c
  }

  /** Close every connection whose index is in `live`. */
  function CloseAll(conns: seq<Connection>, live: set<nat>): (r: seq<Connection>)
    ensures |r| == |conns|
    ensures forall i :: 0 <= i < |conns| ==> r[i] == if i in live then WithCall(conns[i], Close) else conns[i]
  {
    seq(|conns|, i requires 0 <= i < |conns| => if i in live then WithCall(conns[i], Close) else conns[i])
  }

  function TrackSet(tracks: seq<Track>): set<Track> {
    set t | t in tracks
  }

  /** `cleanup()` (main.js:656-669). The screen-share flags are left as they are. */
  function Cleanup(c: Client): (r: Client)
    ensures r.peers == map[] && r.localStream.None?
    ensures |r.conns| == |c.conns|
    ensures forall i :: 0 <= i < |c.conns| ==>
              r.conns[i] == if i in c.peers.Values then WithCall(c.conns[i], Close) else c.conns[i]
    ensures r.stopped == c.stopped + TrackSet(LocalTracks(c))
    ensures r.isScreenSharing == c.isScreenSharing && r.originalVideoTrack == c.originalVideoTrack
    ensures r.outbox == c.outbox
  {
    c.(conns := CloseAll(c.conns, c.peers.Values), peers := map[], localStream := None,
       stopped := c.stopped + TrackSet(LocalTracks(c)))
  }

  // ---------------------------------------------------------------------------
  // Signalling

  /** The calls the `signal` handler makes, chosen by the payload (main.js:291-304). */
  function SignalCalls(signal: Signal, answerSdp: string, aw: Await): seq<Call> {
    if signal.sdpType == "offer" then
      Performed([SetRemoteDescription(signal), CreateAnswer, SetLocalDescription(Description("answer", answerSdp))], aw)
    else if signal.sdpType == "answer" then
      Performed([SetRemoteDescription(signal)], aw)
    else if signal.candidate != "" then
      Performed([AddIceCandidate(signal)], aw)
    else
      []
  }

  /** The `signal` handler (main.js:281-308). `answerSdp` is what `createAnswer()` produces. */
  function OnSignal(c: Client, from: SocketId, signal: Signal, answerSdp: string, aw: Await): (r: Client)
    requires Refs(c)
    // a signal from a socket without a connection is ignored
    ensures from !in c.peers ==> r == c
    // no connection is created, replaced or removed, and only the sender's one is called
    ensures r.peers == c.peers && |r.conns| == |c.conns|
    ensures forall i :: 0 <= i < |c.conns| && !(from in c.peers && i == c.peers[from]) ==> r.conns[i] == c.conns[i]
    ensures from in c.peers ==>
              var conn := c.conns[c.peers[from]];
              r.conns[c.peers[from]] == conn.(calls := conn.calls + SignalCalls(signal, answerSdp, aw))
    // an offer is answered, once, to its sender, when every call of the chain resolves
    ensures from in c.peers && signal.sdpType == "offer" ==>
              r.outbox == c.outbox + if Completes(aw, 3) then [SignalTo(from, Description("answer", answerSdp))] else []
    // an answer only sets the remote description
    ensures from in c.peers && signal.sdpType == "answer" ==>
              r.outbox == c.outbox &&
              r.conns[c.peers[from]].calls == c.conns[c.peers[from]].calls + Performed([SetRemoteDescription(signal)], aw)
    // a candidate goes straight to addIceCandidate, with no queue
    ensures from in c.peers && signal.sdpType != "offer" && signal.sdpType != "answer" && signal.candidate != "" ==>
              r.outbox == c.outbox &&
              r.conns[c.peers[from]].calls == c.conns[c.peers[from]].calls + Performed([AddIceCandidate(signal)], aw)
    // anything else is ignored
    ensures signal.sdpType != "offer" && signal.sdpType != "answer" && signal.candidate == "" ==> r == c
    // this handler never sends an offer: whatever it sends is an answer to the sender
    ensures c.outbox <= r.outbox
    ensures forall k :: |c.outbox| <= k < |r.outbox| ==> r.outbox[k] == SignalTo(from, Description("answer", answerSdp))
    ensures r.(conns := c.conns, outbox := c.outbox) == c
  {
    if from !in c.peers then c
    else
      var i := c.peers[from];
      var calls := SignalCalls(signal, answerSdp, aw);
      var answered := signal.sdpType == "offer" && Completes(aw, 3);
      assert calls == [] ==> c.conns[i].(calls := c.conns[i].calls + calls) == c.conns[i];
      c.(conns := c.conns[i := c.conns[i].(calls := c.conns[i].calls + calls)],
         outbox := c.outbox + if answered then [SignalTo(from, Description("answer", answerSdp))] else [])
  }

  /** `onnegotiationneeded` of connection `i` (main.js:514-528). Only an initiator
      connection has the handler; `offerSdp` is what `createOffer()` produces. */
  function OnNegotiationNeeded(c: Client, i: nat, offerSdp: string, aw: Await): (r: Client)
    requires i < |c.conns|
    // a responder never originates an offer
    ensures !c.conns[i].initiator ==> r == c
    ensures c.conns[i].initiator ==>
              && r.conns == c.conns[i := c.conns[i].(calls := c.conns[i].calls +
                                          Performed([CreateOffer, SetLocalDescription(Description("offer", offerSdp))], aw))]
              && r.outbox == c.outbox + if Completes(aw, 2) then [SignalTo(c.conns[i].remote, Description("offer", offerSdp))] else []
    ensures r.(conns := c.conns, outbox := c.outbox) == c
  {
    if !c.conns[i].initiator then c
    else
      var offer := Description("offer", offerSdp);
      var conn := c.conns[i];
      c.(conns := c.conns[i := conn.(calls := conn.calls + Performed([CreateOffer, SetLocalDescription(offer)], aw))],
         outbox := c.outbox + if Completes(aw, 2) then [SignalTo(conn.remote, offer)] else [])
  }

  /** `onicecandidate` of connection `i` (main.js:496-503): a discovered candidate goes to
      the connection's socket; the end-of-candidates event (`null`) sends nothing. */
  function OnIceCandidate(c: Client, i: nat, candidate: Option<string>): (r: Client)
    requires i < |c.conns|
    ensures candidate.None? ==> r == c
    ensures candidate.Some? ==>
              r == c.(outbox := c.outbox + [SignalTo(c.conns[i].remote, Signal("", "", candidate.value))])
  {
    match candidate
    case None => c
    case Some(cand) => c.(outbox := c.outbox + [SignalTo(c.conns[i].remote, Signal("", "", cand))])
  }

  // ---------------------------------------------------------------------------
  // Screen sharing

  /** The position of the first video track: `getVideoTracks()[0]`, and
      `getSenders().find(s => s.track && s.track.kind === 'video')`. */
  function FirstVideo(tracks: seq<Track>): (r: Option<nat>)
    ensures r.Some? ==> r.value < |tracks| && tracks[r.value].kind == Video
    ensures r.Some? ==> forall k :: 0 <= k < r.value ==> tracks[k].kind != Video
    ensures r.None? ==> forall k :: 0 <= k < |tracks| ==> tracks[k].kind != Video
  {
    if tracks == [] then None
    else if tracks[0].kind == Video then Some(0)
    else
      match FirstVideo(tracks[1..])
      case None => None
      case Some(k) => Some(k + 1)
  }

  function VideoTrack(tracks: seq<Track>): Option<Track> {
    match FirstVideo(tracks)
    case None => None
    case Some(k) => Some(tracks[k])
  }

  /** `sender.replaceTrack(track)` on a connection's first video sender, if it has one. */
  function SwapVideo(conn: Connection, track: Track): (r: Connection)
    ensures r.remote == conn.remote && r.initiator == conn.initiator && |r.senders| == |conn.senders|
    ensures FirstVideo(conn.senders).None? ==> r == conn
    ensures FirstVideo(conn.senders).Some? ==>
              var k := FirstVideo(conn.senders).value;
              r.senders == conn.senders[k := track] && r.calls == conn.calls + [ReplaceTrack(track)]
  {
    match FirstVideo(conn.senders)
    case None => conn
    case Some(k) => conn.(senders := conn.senders[k := track], calls := conn.calls + [ReplaceTrack(track)])
  }

  /** `Object.values(this.peers).forEach(...)` swapping the video track of each live peer. */
  function SwapAll(conns: seq<Connection>, live: set<nat>, track: Track): (r: seq<Connection>)
    ensures |r| == |conns|
    ensures forall i :: 0 <= i < |conns| ==> r[i] == if i in live then SwapVideo(conns[i], track) else conns[i]
  {
    seq(|conns|, i requires 0 <= i < |conns| => if i in live then SwapVideo(conns[i], track) else conns[i])
  }

  /** `stopScreenShare()` (main.js:623-653). */
  function StopScreenShare(c: Client): (r: Client)
    // nothing happens unless sharing with a saved camera track
    ensures !c.isScreenSharing || c.originalVideoTrack.None? ==> r == c
    ensures c.isScreenSharing && c.originalVideoTrack.Some? ==>
              && r.conns == SwapAll(c.conns, c.peers.Values, c.originalVideoTrack.value)
              && r.peers == c.peers && r.outbox == c.outbox
              // without a local stream, `this.localStream.getVideoTracks()` throws: the flags stay
              && (c.localStream.None? ==> r.localStream.None? && r.isScreenSharing && r.originalVideoTrack == c.originalVideoTrack)
              // otherwise the flags are reset and the camera track is back in the stream
              && (c.localStream.Some? ==>
                    && !r.isScreenSharing && r.originalVideoTrack.None?
                    && r.localStream.Some? && c.originalVideoTrack.value in r.localStream.value)
  {
    if !c.isScreenSharing || c.originalVideoTrack.None? then c
    else
      var original := c.originalVideoTrack.value;
      var swapped := c.(conns := SwapAll(c.conns, c.peers.Values, original));
      match c.localStream
      case None => swapped
      case Some(stream) =>
        var current := VideoTrack(stream);
        var kept := if current.Some? then Remove(stream, current.value) else stream;
        var stopped := if current.Some? then c.stopped + {current.value} else c.stopped;
        swapped.(localStream := Some(Add(kept, original)), stopped := stopped,
                 isScreenSharing := false, originalVideoTrack := None)
  }

  datatype Toggled = Toggled(client: Client, sharing: bool)

  /** `toggleScreenShare()` (main.js:570-620). `display` is the video track of the stream
      `getDisplayMedia` resolves with, or `None` when it rejects. */
  function ToggleScreenShare(c: Client, display: Option<Track>): (r: Toggled)
    requires display.Some? ==> display.value.kind == Video
    ensures c.isScreenSharing ==> r == Toggled(StopScreenShare(c), false)
    // when it starts sharing, the camera track is saved, the screen track replaces it in the
    // stream, and every live peer with a video sender now sends the screen track
    ensures r.sharing <==> !c.isScreenSharing && display.Some? && c.localStream.Some? && VideoTrack(c.localStream.value).Some?
    ensures r.sharing ==>
              && r.client.isScreenSharing
              && r.client.originalVideoTrack == VideoTrack(c.localStream.value)
              && r.client.localStream == Some(Add(Remove(c.localStream.value, VideoTrack(c.localStream.value).value), display.value))
              && r.client.conns == SwapAll(c.conns, c.peers.Values, display.value)
    ensures !c.isScreenSharing && (display.None? || c.localStream.None?) ==> r == Toggled(c, false)
    ensures r.client.peers == c.peers && r.client.outbox == c.outbox
  {
    if c.isScreenSharing then Toggled(StopScreenShare(c), false)
    else if display.None? || c.localStream.None? then Toggled(c, false)
    else
      var screen := display.value;
      var stream := c.localStream.value;
      var original := VideoTrack(stream);
      var swapped := c.(originalVideoTrack := original, conns := SwapAll(c.conns, c.peers.Values, screen));
      match original
      // `this.localStream.removeTrack(undefined)` throws after the senders were swapped
      case None => Toggled(swapped, false)
      case Some(camera) =>
        Toggled(swapped.(localStream := Some(Add(Remove(stream, camera), screen)), isScreenSharing := true), true)
  }

  // ---------------------------------------------------------------------------
  // The invariant

  /** `b` keeps every connection of `a` with its socket and role, possibly after new ones. */
  predicate SameRoles(a: seq<Connection>, b: seq<Connection>) {
    |a| <= |b| && forall i :: 0 <= i < |a| ==> b[i].remote == a[i].remote && b[i].initiator == a[i].initiator
  }

  lemma RolesKeepInitiators(a: seq<Connection>, b: seq<Connection>)
    requires SameRoles(a, b)
    ensures forall id :: InitiatorToward(a, id) ==> InitiatorToward(b, id)
  {
    forall id | InitiatorToward(a, id)
      ensures InitiatorToward(b, id)
    {
      var i :| 0 <= i < |a| && a[i].initiator && a[i].remote == id;
      assert b[i].initiator && b[i].remote == id;
    }
  }

  /** The manager starts out valid. */
  lemma InitialValid()
    ensures Valid(Initial)
  {
  }

  /** No `close()` is among the calls a new connection starts with. */
  lemma AddTrackCallsOpen(tracks: seq<Track>)
    ensures Close !in AddTrackCalls(tracks)
  {
    var calls := AddTrackCalls(tracks);
    forall i | 0 <= i < |calls|
      ensures calls[i] != Close
    {
      assert calls[i] == AddTrack(tracks[i]);
    }
  }

  lemma {:induction false} CreatePeerKeepsValid(c: Client, id: SocketId, initiator: bool)
    requires Valid(c)
    ensures Valid(CreatePeer(c, id, initiator))
  {
    var r := CreatePeer(c, id, initiator);
    AddTrackCallsOpen(LocalTracks(c));
    assert r.conns[|c.conns|].calls == AddTrackCalls(LocalTracks(c));
    RolesKeepInitiators(c.conns, r.conns);
  }

  lemma {:induction false} CreatePeersKeepsValid(c: Client, ids: seq<SocketId>, initiator: bool)
    requires Valid(c)
    ensures Valid(CreatePeers(c, ids, initiator))
    decreases |ids|
  {
    if ids != [] {
      assert CreatePeers(c, ids, initiator) == CreatePeer(CreatePeers(c, ids[..|ids| - 1], initiator), ids[|ids| - 1], initiator);
      var prev := CreatePeers(c, ids[..|ids| - 1], initiator);
      CreatePeersKeepsValid(c, ids[..|ids| - 1], initiator);
      CreatePeerKeepsValid(prev, ids[|ids| - 1], initiator);
    }
  }

  lemma {:induction false} RemovePeerKeepsValid(c: Client, id: SocketId)
    requires Valid(c)
    ensures Valid(RemovePeer(c, id))
  {
    var r := RemovePeer(c, id);
    if id in c.peers {
      // two entries never share a connection, since each names its own socket
      forall other | other in r.peers
        ensures Close !in r.conns[r.peers[other]].calls
      {
        assert c.conns[c.peers[other]].remote == other != id == c.conns[c.peers[id]].remote;
      }
      RolesKeepInitiators(c.conns, r.conns);
    }
  }

  lemma ConnectionStateChangeKeepsValid(c: Client, i: nat, state: ConnectionState)
    requires Valid(c) && i < |c.conns|
    ensures Valid(OnConnectionStateChange(c, i, state))
  {
    RemovePeerKeepsValid(c, c.conns[i].remote);
  }

  /** Nothing in an awaited chain of calls is a `close()`. */
  lemma SignalCallsOpen(signal: Signal, answerSdp: string, aw: Await)
    ensures Close !in SignalCalls(signal, answerSdp, aw)
  {
    var calls := SignalCalls(signal, answerSdp, aw);
    forall j | 0 <= j < |calls|
      ensures calls[j] != Close
    {
    }
  }

  lemma {:induction false} OnSignalKeepsValid(c: Client, from: SocketId, signal: Signal, answerSdp: string, aw: Await)
    requires Valid(c)
    ensures Valid(OnSignal(c, from, signal, answerSdp, aw))
  {
    var r := OnSignal(c, from, signal, answerSdp, aw);
    if from in c.peers {
      SignalCallsOpen(signal, answerSdp, aw);
      var i := c.peers[from];
      forall id | id in r.peers
        ensures Close !in r.conns[r.peers[id]].calls
      {
        if r.peers[id] == i {
          assert r.conns[i].calls == c.conns[i].calls + SignalCalls(signal, answerSdp, aw);
        }
      }
      RolesKeepInitiators(c.conns, r.conns);
      forall k | 0 <= k < |r.outbox| && r.outbox[k].signal.sdpType == "offer"
        ensures InitiatorToward(r.conns, r.outbox[k].to)
      {
        assert k < |c.outbox| && r.outbox[k] == c.outbox[k];
      }
    }
  }

  /** An offer leaves only through an initiator connection, so the invariant that every
      offer was sent to a socket this client initiates toward is kept. */
  lemma {:induction false} NegotiationNeededKeepsValid(c: Client, i: nat, offerSdp: string, aw: Await)
    requires Valid(c) && i < |c.conns|
    ensures Valid(OnNegotiationNeeded(c, i, offerSdp, aw))
  {
    var r := OnNegotiationNeeded(c, i, offerSdp, aw);
    if c.conns[i].initiator {
      var planned := [CreateOffer, SetLocalDescription(Description("offer", offerSdp))];
      var calls := Performed(planned, aw);
      assert Close !in calls by {
        forall j | 0 <= j < |calls|
          ensures calls[j] != Close
        {
          assert calls[j] == planned[j];
        }
      }
      forall id | id in r.peers
        ensures Close !in r.conns[r.peers[id]].calls
      {
        if r.peers[id] == i {
          assert r.conns[i].calls == c.conns[i].calls + calls;
        }
      }
      RolesKeepInitiators(c.conns, r.conns);
      assert InitiatorToward(r.conns, c.conns[i].remote) by {
        assert r.conns[i].initiator && r.conns[i].remote == c.conns[i].remote;
      }
      forall k | 0 <= k < |r.outbox| && r.outbox[k].signal.sdpType == "offer"
        ensures InitiatorToward(r.conns, r.outbox[k].to)
      {
        if k < |c.outbox| {
          assert r.outbox[k] == c.outbox[k];
        }
      }
    }
  }

  lemma {:induction false} IceCandidateKeepsValid(c: Client, i: nat, candidate: Option<string>)
    requires Valid(c) && i < |c.conns|
    ensures Valid(OnIceCandidate(c, i, candidate))
  {
    var r := OnIceCandidate(c, i, candidate);
    forall k | 0 <= k < |r.outbox| && r.outbox[k].signal.sdpType == "offer"
      ensures InitiatorToward(r.conns, r.outbox[k].to)
    {
      if k < |c.outbox| {
        assert r.outbox[k] == c.outbox[k];
      }
    }
  }

  lemma {:induction false} CleanupKeepsValid(c: Client)
    requires Valid(c)
    ensures Valid(Cleanup(c))
  {
    RolesKeepInitiators(c.conns, Cleanup(c).conns);
  }

  lemma SwapAllKeepsRoles(conns: seq<Connection>, live: set<nat>, track: Track)
    ensures SameRoles(conns, SwapAll(conns, live, track))
  {
  }

  /** Swapping a video track calls `replaceTrack`, never `close()`, on live connections. */
  lemma {:induction false} SwapAllKeepsOpen(c: Client, track: Track)
    requires Valid(c)
    ensures forall id :: id in c.peers ==> Close !in SwapAll(c.conns, c.peers.Values, track)[c.peers[id]].calls
  {
    var swapped := SwapAll(c.conns, c.peers.Values, track);
    forall id | id in c.peers
      ensures Close !in swapped[c.peers[id]].calls
    {
      var i := c.peers[id];
      assert i in c.peers.Values;
      assert swapped[i] == SwapVideo(c.conns[i], track);
    }
  }

  lemma {:induction false} StopScreenShareKeepsValid(c: Client)
    requires Valid(c)
    ensures Valid(StopScreenShare(c))
  {
    if c.isScreenSharing && c.originalVideoTrack.Some? {
      var track := c.originalVideoTrack.value;
      SwapAllKeepsRoles(c.conns, c.peers.Values, track);
      RolesKeepInitiators(c.conns, SwapAll(c.conns, c.peers.Values, track));
      SwapAllKeepsOpen(c, track);
    }
  }

  lemma {:induction false} ToggleScreenShareKeepsValid(c: Client, display: Option<Track>)
    requires Valid(c)
    requires display.Some? ==> display.value.kind == Video
    ensures Valid(ToggleScreenShare(c, display).client)
  {
    if c.isScreenSharing {
      StopScreenShareKeepsValid(c);
    } else if display.Some? && c.localStream.Some? {
      var track := display.value;
      SwapAllKeepsRoles(c.conns, c.peers.Values, track);
      RolesKeepInitiators(c.conns, SwapAll(c.conns, c.peers.Values, track));
      SwapAllKeepsOpen(c, track);
    }
  }

  // ---------------------------------------------------------------------------
  // Behaviour

  /** Removing a peer twice is removing it once. */
  lemma RemovePeerIdempotent(c: Client, id: SocketId)
    requires Refs(c)
    ensures RemovePeer(RemovePeer(c, id), id) == RemovePeer(c, id)
  {
  }

  /** A second connection toward a socket that already has one orphans the first: it is
      never closed, and no entry refers to it any more. */
  lemma {:induction false} ReplacedConnectionLeaks(c: Client, id: SocketId, initiator: bool)
    requires Valid(c) && id in c.peers
    ensures var r := CreatePeer(c, id, initiator);
            Close !in r.conns[c.peers[id]].calls &&
            forall other :: other in r.peers ==> r.peers[other] != c.peers[id]
  {
    var r := CreatePeer(c, id, initiator);
    forall other | other in r.peers
      ensures r.peers[other] != c.peers[id]
    {
      if other != id {
        assert c.conns[c.peers[other]].remote == other;
      }
    }
  }

  /** A connection that is no longer the one stored for its socket can still tear down the
      one that is: its failure closes the replacement and forgets the socket. */
  lemma {:induction false} StaleFailureRemovesReplacement(c: Client, i: nat)
    requires Refs(c) && i < |c.conns|
    requires c.conns[i].remote in c.peers && c.peers[c.conns[i].remote] != i
    ensures var id := c.conns[i].remote;
            var r := OnConnectionStateChange(c, i, Failed);
            id !in r.peers && r.conns[c.peers[id]] == WithCall(c.conns[c.peers[id]], Close) && r.conns[i] == c.conns[i]
  {
  }

  /** A signal that arrives before the connection exists is lost: processing it and then
      creating the connection gives the same state as creating the connection alone. */
  lemma EarlySignalIsLost(c: Client, from: SocketId, signal: Signal, answerSdp: string, aw: Await, initiator: bool)
    requires Refs(c) && from !in c.peers
    ensures CreatePeer(OnSignal(c, from, signal, answerSdp, aw), from, initiator) == CreatePeer(c, from, initiator)
  {
  }

  /** At most one video track, as a camera stream has. */
  predicate OneVideo(stream: seq<Track>, camera: Track) {
    camera in stream && camera.kind == Video &&
    forall k :: 0 <= k < |stream| && stream[k].kind == Video ==> stream[k] == camera
  }

  /** Replacing the first video track by another video track keeps it first. */
  lemma FirstVideoReplaced(tracks: seq<Track>, k: nat, track: Track)
    requires FirstVideo(tracks) == Some(k) && track.kind == Video
    ensures FirstVideo(tracks[k := track]) == Some(k)
  {
    var swapped := tracks[k := track];
    assert swapped[k].kind == Video;
    assert forall j :: 0 <= j < k ==> swapped[j] == tracks[j];
  }

  /** The stream side of a round trip: the camera is the video track taken out, the
      screen track is the one found again when stopping, and the stream ends with the
      tracks it started with. */
  lemma {:induction false} StreamRoundTrip(stream: seq<Track>, screen: Track, camera: Track)
    requires NoDup(stream) && OneVideo(stream, camera)
    requires screen.kind == Video && screen !in stream
    ensures VideoTrack(stream) == Some(camera)
    ensures VideoTrack(Add(Remove(stream, camera), screen)) == Some(screen)
    ensures TrackSet(Add(Remove(Add(Remove(stream, camera), screen), screen), camera)) == TrackSet(stream)
  {
    var p := FirstVideo(stream).value;
    assert stream[p] == camera;
    var rest := Remove(stream, camera);
    var during := Add(rest, screen);
    assert VideoTrack(during) == Some(screen) by {
      var j := FirstVideo(during).value;
      assert during[j] in during;
    }
    var after := Add(Remove(during, screen), camera);
    forall x | x in stream ensures x in after {
      if x != camera { assert x in rest; assert x in during; assert x != screen; }
    }
  }

  /** The sender side of a round trip: swapping in the screen track and then the camera
      track leaves each live connection's first video sender with the camera, after one
      `replaceTrack` each way. */
  lemma {:induction false} SendersRoundTrip(conns: seq<Connection>, live: set<nat>, screen: Track, camera: Track)
    requires screen.kind == Video
    ensures var s := SwapAll(SwapAll(conns, live, screen), live, camera);
            forall i :: 0 <= i < |conns| && i in live && FirstVideo(conns[i].senders).Some? ==>
              && s[i].senders == conns[i].senders[FirstVideo(conns[i].senders).value := camera]
              && s[i].calls == conns[i].calls + [ReplaceTrack(screen), ReplaceTrack(camera)]
  {
    var shared := SwapAll(conns, live, screen);
    var s := SwapAll(shared, live, camera);
    forall i | 0 <= i < |conns| && i in live && FirstVideo(conns[i].senders).Some?
      ensures s[i].senders == conns[i].senders[FirstVideo(conns[i].senders).value := camera]
      ensures s[i].calls == conns[i].calls + [ReplaceTrack(screen), ReplaceTrack(camera)]
    {
      var k := FirstVideo(conns[i].senders).value;
      assert shared[i] == SwapVideo(conns[i], screen);
      FirstVideoReplaced(conns[i].senders, k, screen);
      assert s[i] == SwapVideo(shared[i], camera);
      assert conns[i].senders[k := screen][k := camera] == conns[i].senders[k := camera];
    }
  }

  /** Sharing the screen and then stopping puts the camera back: every live connection's
      video sender carries the camera track again, after one `replaceTrack` each way; the
      stream holds the same tracks as before; the screen track is stopped; and the flags
      are reset. */
  lemma {:induction false} ScreenShareRoundTrip(c: Client, screen: Track, camera: Track)
    requires Valid(c) && !c.isScreenSharing
    requires c.localStream.Some? && NoDup(c.localStream.value) && OneVideo(c.localStream.value, camera)
    requires screen.kind == Video && screen !in c.localStream.value
    ensures var t := ToggleScreenShare(c, Some(screen));
            var s := ToggleScreenShare(t.client, None).client;
            && t.sharing
            && !s.isScreenSharing && s.originalVideoTrack.None? && s.peers == c.peers && s.outbox == c.outbox
            && s.localStream.Some? && TrackSet(s.localStream.value) == TrackSet(c.localStream.value)
            && screen in s.stopped
            && |s.conns| == |c.conns|
            && forall i :: 0 <= i < |c.conns| && i in c.peers.Values && FirstVideo(c.conns[i].senders).Some? ==>
                 && s.conns[i].senders == c.conns[i].senders[FirstVideo(c.conns[i].senders).value := camera]
                 && s.conns[i].calls == c.conns[i].calls + [ReplaceTrack(screen), ReplaceTrack(camera)]
  {
    var stream := c.localStream.value;
    StreamRoundTrip(stream, screen, camera);
    SendersRoundTrip(c.conns, c.peers.Values, screen, camera);
    var shared := ToggleScreenShare(c, Some(screen)).client;
    assert shared.originalVideoTrack == Some(camera);
    assert shared.localStream == Some(Add(Remove(stream, camera), screen));
    assert shared.conns == SwapAll(c.conns, c.peers.Values, screen);
    var s := StopScreenShare(shared);
    assert s == ToggleScreenShare(shared, None).client;
    assert s.conns == SwapAll(shared.conns, c.peers.Values, camera);
  }
}
