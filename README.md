# NearSnap signalling and room model

NearSnap is a small browser video-chat service. A Node.js server (`server.js`) keeps, in
memory, a registry of rooms (ordered member sets, a host, a lock flag) and of the user
record of every joined socket, and relays Socket.IO messages between the members of a
room. Each browser (`public/js/main.js`) runs a `WebRTCManager` that keeps one
`RTCPeerConnection` per other member, negotiates it through the server's `signal` relay,
and swaps its video track while the screen is shared. A `WindowManager` keeps the
participant list, the host flag and the typing indicator.

This project models that core in Dafny:

- `common.dfy`: socket ids, signalling payloads, and JavaScript's `x || fallback` on strings. A JavaScript `Set` read in insertion order is modelled as a duplicate-free sequence with `Add` and `Remove`. Also the decimal rendering of a number in a template literal.
- `registry.dfy` (`SessionRegistry`): each server handler is a function from the registry before an event to the registry after it and the emits it makes, in order. An emit is addressed as Socket.IO addresses it: to one socket, to a room, or to a room except the sender. The module proves that every handler keeps the registry's consistency, given a limit of at least one. It also proves host succession and two edge behaviours of the code.
- `gateway.dfy` (`Gateway.SessionGateway`): the same handlers as methods of an object whose `rooms` and `userMap` fields change in place, checking the guards in the source's order. Each method is proved equal to its registry function, and each keeps the consistency invariant.
- `negotiation.dfy` (`Negotiation`): the `WebRTCManager` state as a value.
  - Every connection ever created is kept in creation order, together with the calls made on it (`addTrack`, `setRemoteDescription`, `createAnswer`, `replaceTrack`, `close`, ...).
  - A map sends each socket to the connection stored for it now.
  - The manager keeps an outbox of the signals it emits.
  - Every handler is a function. The manager's invariant is that each entry is a connection made for that socket, is not closed, and that offers go only where this client initiates. The invariant is proved preserved by every handler.
  - The module also proves the screen-share round trip and several behaviours at the edges.
- `rtc_manager.dfy` (`RtcManager.WebRTCManager`): the manager as a class with the source's loops over tracks and peers. Each method is proved equal to its `Negotiation` function and keeps the invariant.
- `room_view.dfy` (`RoomView`): the client's participant map (a JavaScript `Map`, thus ordered) and host flag. It covers the `room-info`, `user-joined`, `user-left`, `new-host` and typing handlers, as functions and as methods of `ParticipantsView`.
- `display.dfy` (`Display`): the lookup tables and classifications of the client: capture resolution, grid layout, network quality, and the typing-indicator sentence.
- `session.dfy` (`Session`): both sides together.
  - `user-joined` reaches exactly the members listed to the newcomer.
  - Each new pair gets exactly one initiator.
  - The offer/answer exchange of section 5 of RFC 8829 runs as the relay and the two managers perform it.
  - Exactly one client takes the host role when the host leaves.

What is decided outside the program becomes a parameter:
- what `parseInt` made of `MAX_PARTICIPANTS`;
- the set of connected sockets (`io.sockets.sockets`);
- the SDP text that `createOffer()` and `createAnswer()` produce;
- the track `getDisplayMedia` gives, or its rejection;
- whether and where an awaited call in a handler rejects (`Await`);
- the measured ping, or the failure of the health request;
- the browser's own time zone.

Every asynchronous handler runs to completion before the next event is handled.

The code, and so the model, behaves as follows:
- Remote ICE candidates go straight to `addIceCandidate`. There is no queue for candidates that arrive before the remote description.
- There is no negotiation state machine or glare handling. Only the connection created as initiator installs `onnegotiationneeded`.
- The host role passes to the earliest-inserted remaining member of the room's `Set`. It is not chosen by join time.
- `room-info` is sent only to the joiner. Its member list includes the joiner.
- A member that rejoins is admitted even into a full or locked room. It is sent `existing-users` listing itself.

## Model

| member | source | states |
|---|---|---|
| Common.Add | server.js:82 | `Set.add`: the element is present afterwards, nothing else is added, order is kept as a prefix, a present element keeps its place, and no duplicate is introduced |
| Common.Remove | server.js:268 | `Set.delete`: exactly the other elements remain, no duplicate is introduced, and the length drops by one when the element was present in a duplicate-free sequence |
| Common.RemoveSplits | server.js:268 | `Set.delete` on a present element cuts out its one occurrence and keeps the elements before and after it in their order, so membership lists stay in insertion order across removals |
| Common.RemoveAbsent | server.js:268 | deleting an absent element changes nothing |
| Common.RemoveFirst | server.js:271-272 | after a removal, `Array.from(room.users)[0]` is the earliest-inserted element other than the removed one |
| Common.NatToString | server.js:73 | the decimal rendering reads back as the number and has no leading zero |
| Common.IntToString | server.js:73 | `${i}` reads back as the number: a non-negative one as its digits, a negative one as a minus sign followed by the digits of its magnitude |
| SessionRegistry.MaxParticipants | server.js:48 | `parseInt(...) \|\| 6`: NaN and 0 both give 6, any other parsed value is kept, so the limit is never 0 |
| SessionRegistry.MemberInfos | server.js:103-108 | one entry per member in membership order, with `'Unknown'`/`'UTC'` for unmapped sockets; a mapped socket gets its stored nickname, or `'Unknown'` when that is empty, and its stored timezone, or `'UTC'` when that is empty |
| SessionRegistry.Join | server.js:44-112 | the room exists afterwards and no other room changes; a refusal is told only to the joiner and changes neither membership nor user records; a join never takes a room above the limit |
| SessionRegistry.JoinAfterCreate | server.js:50-56 | creating the room before the guards, as the handler does, leaves the outcome of the join unchanged |
| SessionRegistry.JoinRefusals | server.js:50-76 | a new room is created unlocked with the joiner as host; the lock is checked before the limit; each refusal leaves the registry as it was and emits its own error with the source's message |
| SessionRegistry.JoinAdmits | server.js:78-108 | on admission the joiner is added and mapped with timezone defaulted to `'UTC'`; it gets `existing-users` (the members before it), the others get `user-joined`, and it gets `room-info` with host, host flag, lock and the member list; a member rejoining changes no membership |
| SessionRegistry.Relay | server.js:115-121 | the signal is forwarded, tagged with the sender, to the room named by the target minus the sender; nothing changes |
| SessionRegistry.Chat | server.js:124-138 | only a mapped socket is heard, by its whole room including itself, with its stored nickname |
| SessionRegistry.Sound | server.js:141-151 | a mapped socket's sound goes to the rest of its room |
| SessionRegistry.Typing | server.js:154-172 | at most one emit, present exactly when the socket is mapped to the room it names, addressed to the rest of that room |
| SessionRegistry.Disconnect | server.js:262-297 | the user record goes; only its room changes; the room is deleted exactly when it empties; otherwise the host passes to the first remaining member and is announced to the room before the others hear of the departure |
| SessionRegistry.KickTarget | server.js:189-198 | a connected target is told why and by whom, then the disconnect handler runs for it; an unconnected target changes nothing |
| SessionRegistry.Kick | server.js:175-200 | only the host of an existing room can kick; a mapped non-host of an existing room is told it has no rights; otherwise nothing happens |
| SessionRegistry.AdminAction | server.js:203-259 | only the host acts; `kick`, `room-lock` (the lock flag is the only state changed), `mute-all`, `nudge-all`, and an error for anything else |
| SessionRegistry.EmptyRegistryConsistent | server.js:28-29 | the registry starts consistent |
| SessionRegistry.AddMemberKeepsConsistency | server.js:82-83 | adding an admissible socket to a room and mapping it there keeps every room non-empty, duplicate-free, within the limit and hosted by a member |
| SessionRegistry.JoinKeepsConsistency | server.js:44-112 | `join-room` keeps the registry consistent |
| SessionRegistry.DisconnectKeepsConsistency | server.js:262-297 | `disconnect` keeps the registry consistent |
| SessionRegistry.KickTargetKeepsConsistency | server.js:189-198 | a kick keeps the registry consistent |
| SessionRegistry.KickKeepsConsistency | server.js:175-200 | `kick-user` keeps the registry consistent |
| SessionRegistry.AdminActionKeepsConsistency | server.js:203-259 | `admin-action` keeps the registry consistent |
| SessionRegistry.HostSuccession | server.js:270-279 | when the host leaves a room others remain in, the earliest-inserted other member becomes host, remains a member, and is announced first |
| SessionRegistry.NegativeLimitStrandsNewRoom | server.js:48-76 | with a negative `MAX_PARTICIPANTS`, the creator of a room is refused as full and an empty room with an absent host stays registered |
| SessionRegistry.SecondJoinLeavesStaleMember | server.js:82-83 | a socket joining a second room stays a member of the first after it disconnects |
| Gateway.SessionGateway.constructor | server.js:28-29 | the server starts with no rooms and no users and the limit `MaxParticipants` gives |
| Gateway.SessionGateway.JoinRoom | server.js:44-112 | new state and emits are those of `Join`; consistency is kept |
| Gateway.SessionGateway.Admit | server.js:78-108 | once both guards have passed, adding and mapping the joiner and making the three emits gives the state and emits of `Join` |
| Gateway.SessionGateway.Signal | server.js:115-121 | emits are those of `Relay` |
| Gateway.SessionGateway.ChatMessage | server.js:124-138 | emits are those of `Chat` |
| Gateway.SessionGateway.PlaySound | server.js:141-151 | emits are those of `Sound` |
| Gateway.SessionGateway.UserTyping | server.js:154-162 | emits are those of `Typing` with a start |
| Gateway.SessionGateway.UserStopTyping | server.js:164-172 | emits are those of `Typing` with a stop |
| Gateway.SessionGateway.Disconnect | server.js:262-297 | new state and emits are those of `Disconnect`; consistency is kept |
| Gateway.SessionGateway.ForceDisconnect | server.js:189-198 | `targetSocket.disconnect()` runs the disconnect handler for the target |
| Gateway.SessionGateway.KickUser | server.js:175-200 | new state and emits are those of `Kick`; consistency is kept |
| Gateway.SessionGateway.AdminAction | server.js:203-259 | new state and emits are those of `AdminAction`; consistency is kept |
| Negotiation.Performed | public/js/main.js:290-307 | the calls of an awaited chain that are made: a prefix of the plan, all of it when nothing rejects, up to and including the rejecting call otherwise |
| Negotiation.AddTrackCalls | public/js/main.js:478-482 | one `addTrack` per local track, in stream order |
| Negotiation.CreatePeer | public/js/main.js:473-531 | the new connection is stored under the socket, replacing any entry without closing it, and starts with one sender and one `addTrack` per local track |
| Negotiation.CreatePeers | public/js/main.js:261-266 | one fresh connection per listed socket, in list order, after the earlier ones, which are kept |
| Negotiation.CreatePeersRegisters | public/js/main.js:261-266 | every listed socket ends with a connection of the given role created by the call; other entries are untouched and still name their own socket |
| Negotiation.RemovePeer | public/js/main.js:534-543 | the entry is forgotten and its connection closed, and nothing else is touched; an absent socket changes nothing |
| Negotiation.OnConnectionStateChange | public/js/main.js:506-511 | `failed` or `disconnected` removes whatever is stored under the connection's socket; other states change nothing |
| Negotiation.CloseAll | public/js/main.js:658 | exactly the live connections get a `close()` |
| Negotiation.Cleanup | public/js/main.js:656-669 | every live connection is closed, all entries are forgotten, every local track is stopped and the stream dropped; the screen-share flags stay |
| Negotiation.OnSignal | public/js/main.js:281-308 | unknown senders are ignored; only the sender's connection is called; an offer is set, answered and, if every call resolves, answered once to its sender; an answer or candidate is only set; anything else is ignored; this handler never sends an offer |
| Negotiation.OnNegotiationNeeded | public/js/main.js:514-528 | a responder never offers; an initiator creates and sets the offer and sends it to the connection's socket when both calls resolve |
| Negotiation.OnIceCandidate | public/js/main.js:496-503 | a discovered candidate goes to the connection's socket; the end of candidates sends nothing |
| Negotiation.FirstVideo | public/js/main.js:576-577 | the index of the first video track, with no video track before it; none when there is none |
| Negotiation.SwapVideo | public/js/main.js:586-591 | `replaceTrack` on the first video sender, if any, and nothing else |
| Negotiation.SwapAll | public/js/main.js:583-592 | exactly the live connections swap their video track |
| Negotiation.StopScreenShare | public/js/main.js:623-653 | only when sharing with a saved camera track: every live sender gets the camera back; with a stream, the flags reset and the camera is back in the stream; without one, the flags stay (the getter throws) |
| Negotiation.ToggleScreenShare | public/js/main.js:570-620 | while sharing, it stops; otherwise it starts exactly when a screen track, a stream and a camera track exist, saving the camera, putting the screen track into the stream and every live sender |
| Negotiation.RolesKeepInitiators | public/js/main.js:473-531 | keeping each connection's socket and role keeps every socket this client initiates toward |
| Negotiation.InitialValid | public/js/main.js:229-257 | the manager starts in its invariant |
| Negotiation.AddTrackCallsOpen | public/js/main.js:478-482 | a new connection starts with no `close()` |
| Negotiation.CreatePeerKeepsValid | public/js/main.js:473-531 | creating a connection keeps the invariant |
| Negotiation.CreatePeersKeepsValid | public/js/main.js:261-266 | `existing-users` keeps the invariant |
| Negotiation.RemovePeerKeepsValid | public/js/main.js:534-543 | removing a peer keeps the invariant |
| Negotiation.ConnectionStateChangeKeepsValid | public/js/main.js:506-511 | a state change keeps the invariant |
| Negotiation.SignalCallsOpen | public/js/main.js:290-304 | no call of the signal handler's chains is a `close()` |
| Negotiation.OnSignalKeepsValid | public/js/main.js:281-308 | the signal handler keeps the invariant |
| Negotiation.NegotiationNeededKeepsValid | public/js/main.js:514-528 | an offer leaves only through an initiator connection, so the invariant is kept |
| Negotiation.IceCandidateKeepsValid | public/js/main.js:496-503 | sending a candidate keeps the invariant |
| Negotiation.CleanupKeepsValid | public/js/main.js:656-669 | cleanup keeps the invariant |
| Negotiation.SwapAllKeepsRoles | public/js/main.js:583-592 | swapping tracks keeps every connection's socket and role |
| Negotiation.SwapAllKeepsOpen | public/js/main.js:583-592 | swapping tracks closes no live connection |
| Negotiation.StopScreenShareKeepsValid | public/js/main.js:623-653 | stopping a screen share keeps the invariant |
| Negotiation.ToggleScreenShareKeepsValid | public/js/main.js:570-620 | toggling a screen share keeps the invariant |
| Negotiation.RemovePeerIdempotent | public/js/main.js:534-543 | removing a peer twice is removing it once |
| Negotiation.ReplacedConnectionLeaks | public/js/main.js:474-475 | a second connection toward a socket orphans the first: it is not closed and no entry refers to it |
| Negotiation.StaleFailureRemovesReplacement | public/js/main.js:506-511 | a replaced connection's failure closes the current connection of its socket and forgets the socket |
| Negotiation.EarlySignalIsLost | public/js/main.js:283-289 | a signal that arrives before its connection exists leaves no trace |
| Negotiation.FirstVideoReplaced | public/js/main.js:586-591 | putting a video track in the first video position keeps that position first |
| Negotiation.StreamRoundTrip | public/js/main.js:576-647 | sharing takes out the camera track and stopping finds the screen track again, leaving the stream's tracks as they were |
| Negotiation.SendersRoundTrip | public/js/main.js:583-641 | the screen track and then the camera track through every live sender leave the camera in place after one `replaceTrack` each way |
| Negotiation.ScreenShareRoundTrip | public/js/main.js:570-653 | share then stop restores the camera on every live sender, the stream's tracks and the flags, and stops the screen track |
| RtcManager.WebRTCManager.constructor | public/js/main.js:229-257 | the manager starts with no connections and no stream, in its invariant |
| RtcManager.WebRTCManager.AttachLocalStream | public/js/main.js:332 | only the local stream changes |
| RtcManager.WebRTCManager.CreatePeerConnection | public/js/main.js:473-531 | the loop over tracks gives the state of `CreatePeer`; the invariant is kept |
| RtcManager.WebRTCManager.OnExistingUsers | public/js/main.js:261-266 | the loop over users gives the state of `OnExistingUsers`; the invariant is kept |
| RtcManager.WebRTCManager.OnUserJoined | public/js/main.js:269-272 | the state of `OnUserJoined`; the invariant is kept |
| RtcManager.WebRTCManager.RemovePeer | public/js/main.js:534-543 | the state of `RemovePeer`; the invariant is kept |
| RtcManager.WebRTCManager.OnUserLeft | public/js/main.js:275-278 | the state of `OnUserLeft`; the invariant is kept |
| RtcManager.WebRTCManager.Call | public/js/main.js:290-304 | records one call on one connection and changes nothing else |
| RtcManager.WebRTCManager.AnswerOffer | public/js/main.js:291-298 | the three awaited calls are made until one rejects, and the answer is sent only when all resolve |
| RtcManager.WebRTCManager.OnSignal | public/js/main.js:281-308 | the state of `OnSignal`; the invariant is kept |
| RtcManager.WebRTCManager.OnNegotiationNeeded | public/js/main.js:514-528 | the state of `OnNegotiationNeeded`; the invariant is kept |
| RtcManager.WebRTCManager.OnIceCandidate | public/js/main.js:496-503 | the state of `OnIceCandidate`; the invariant is kept |
| RtcManager.WebRTCManager.OnConnectionStateChange | public/js/main.js:506-511 | the state of `OnConnectionStateChange`; the invariant is kept |
| RtcManager.WebRTCManager.SwapVideoTracks | public/js/main.js:583-592 | the loop over live peers gives `SwapAll` and changes nothing else |
| RtcManager.WebRTCManager.StopScreenShare | public/js/main.js:623-653 | the state of `StopScreenShare`; the invariant is kept |
| RtcManager.WebRTCManager.ToggleScreenShare | public/js/main.js:570-620 | the state and result of `ToggleScreenShare`; the invariant is kept |
| RtcManager.WebRTCManager.CloseLivePeers | public/js/main.js:658 | the loop over live peers gives `CloseAll` and changes nothing else |
| RtcManager.WebRTCManager.StopTracks | public/js/main.js:662 | the loop over tracks stops exactly the given tracks |
| RtcManager.WebRTCManager.Cleanup | public/js/main.js:656-669 | the state of `Cleanup`; the invariant is kept |
| RoomView.SetEntry | public/js/main.js:1625 | `Map.set`: the record is stored, the key keeps its position or goes last, and the order still lists the keys once |
| RoomView.DeleteEntry | public/js/main.js:1658 | `Map.delete`: the key goes from the records and the order, and the others stay in order |
| RoomView.Ids | public/js/main.js:1623 | the socket ids of the member list, in order |
| RoomView.ListMembers | public/js/main.js:1623-1627 | room and host flag are kept, and so is the view's consistency |
| RoomView.IdsPrefix | public/js/main.js:1623 | the ids of a prefix are the prefix of the ids |
| RoomView.ListMembersKeys | public/js/main.js:1623-1627 | a socket is present afterwards iff it was before or it is listed and is not this client; the earlier order is a prefix of the new one |
| RoomView.ListMembersKeeps | public/js/main.js:1623-1627 | this client's own record and every unlisted record are left as they were |
| RoomView.ListMembersRecords | public/js/main.js:1623-1627 | a listed socket other than this client ends with a nickname-only record from its last listing |
| RoomView.RoomInfo | public/js/main.js:1599-1629 | the room and host flag come from the message, and the view stays consistent |
| RoomView.RoomInfoContents | public/js/main.js:1599-1629 | after `room-info` the view holds exactly the old and the listed sockets other than this client, with the records `ListMembersKeeps` and `ListMembersRecords` describe |
| RoomView.UserJoined | public/js/main.js:1631-1655 | the newcomer gets a record with mic and camera on, its time zone or the browser's, not typing; nothing else changes |
| RoomView.UserLeft | public/js/main.js:1657-1672 | the leaver's record goes and nothing else changes |
| RoomView.NewHost | public/js/main.js:1674-1680 | the host flag is set exactly when the announced host is this client; nothing else changes |
| RoomView.Typing | public/js/main.js:2619-2652 | an unknown socket is ignored; a known one has only its typing flag set, keeping its place |
| RoomView.TypingAmong | public/js/main.js:2658-2660 | no more names than participants, and every typing participant's name is included |
| RoomView.TypingCount | public/js/main.js:2658-2685 | over the duplicate-free keys of the map, the number of names is the number of typing participants, which is the count `updateTypingIndicator` chooses its sentence by |
| RoomView.TypistNamedInTail | public/js/main.js:2658-2660 | a typist of the tail is a typist of the whole |
| RoomView.TypingNamesAreTypists | public/js/main.js:2658-2660 | every name listed belongs to a typing participant |
| RoomView.NoTypistsNoNames | public/js/main.js:2658-2660 | no typing participant gives no names |
| RoomView.StopUndoesStart | public/js/main.js:2619-2652 | starting then stopping typing restores a participant who was not typing |
| RoomView.ParticipantsView.constructor | public/js/main.js:854 | the view starts empty and consistent |
| RoomView.ParticipantsView.Set | public/js/main.js:1625 | `participants.set` in place is `SetEntry` |
| RoomView.ParticipantsView.HandleRoomInfo | public/js/main.js:1599-1629 | the loop over the member list gives `RoomInfo`; consistency is kept |
| RoomView.ParticipantsView.HandleUserJoined | public/js/main.js:1631-1655 | the state of `UserJoined`; consistency is kept |
| RoomView.ParticipantsView.HandleUserLeft | public/js/main.js:1657-1672 | the state of `UserLeft`; consistency is kept |
| RoomView.ParticipantsView.HandleNewHost | public/js/main.js:1674-1680 | the state of `NewHost` |
| RoomView.ParticipantsView.HandleTyping | public/js/main.js:2619-2652 | the state of `Typing`; consistency is kept |
| RoomView.ParticipantsView.TypingUsers | public/js/main.js:2658-2660 | the names are those of `TypingAmong` over the view, in order |
| Display.VideoResolution | public/js/main.js:726-735 | a tabled quality gives its entry; anything else gives 1280 by 720 |
| Display.ResolutionIsTabled | public/js/main.js:726-735 | every setting gets one of the four entries, none above 1920 by 1080 |
| Display.ResolutionsOrdered | public/js/main.js:727-732 | a higher quality name gives a strictly larger picture |
| Display.LayoutFor | public/js/main.js:1306-1327 | layout-1 iff one, layout-2 iff two, layout-3-4 iff at most four otherwise, layout-5-6 iff more than four |
| Display.LayoutFits | public/js/main.js:1306-1327 | for one to six participants the chosen layout has room for all, and it is the smallest that does |
| Display.LayoutMonotone | public/js/main.js:1306-1327 | more participants never choose a smaller layout |
| Display.EmptyCountGetsGrid | public/js/main.js:1306-1327 | a count below one falls into the four-tile branch |
| Display.PingQuality | public/js/main.js:2350-2356 | poor iff above 150 ms, good iff above 50 and at most 150, excellent iff at most 50 |
| Display.QualityMonotone | public/js/main.js:2350-2356 | a slower answer never rates better |
| Display.NetworkCheck | public/js/main.js:2337-2368 | a measured ping is classified and kept; a failed request gives poor with 999 |
| Display.NetworkStatusAgrees | public/js/main.js:2337-2368 | the stored quality is always the classification of the stored ping |
| Display.TypingText | public/js/main.js:2655-2697 | no text iff nobody types; one name with the singular verb, two names joined by " и " with the plural verb, otherwise the count and " участников" with the plural verb |
| Display.DigitPrefix | public/js/main.js:2688 | the longest run of leading decimal digits |
| Display.DigitPrefixOfNumeral | public/js/main.js:2688 | a numeral followed by a non-digit reads back as that numeral |
| Display.TypingTextTellsCount | public/js/main.js:2655-2697 | with three or more typists the sentence starts with their count; with one or two it starts with the first name, and the second follows " и " |
| Session.ArrivalReachesExistingMembers | server.js:88-97 | `user-joined` reaches exactly the members listed to the newcomer |
| Session.OneInitiatorPerPair | public/js/main.js:261-272 | for each pair of newcomer and member, the newcomer's connection is an initiator and the member's is a responder |
| Session.NewcomerOffers | public/js/main.js:514-528 | for any `existing-users` list naming a member, the newcomer's connection toward it is an initiator and sends exactly one offer to it |
| Session.MemberAnswers | public/js/main.js:291-298 | the member's responder connection never offers; it answers a relayed offer to its sender |
| Session.NewcomerSetsAnswer | public/js/main.js:299-300 | the initiator sets the answer after its own two calls and sends nothing |
| Session.OfferAnswerExchange | server.js:115-121 | through the relay, the offer reaches the member tagged with the newcomer, and the member's answer reaches the newcomer |
| Session.OneClientBecomesHost | server.js:270-279 | after the host leaves, `new-host` reaches every remaining member and exactly one of their views takes the host flag |

## Left out

- The Socket.IO transport, reconnection and `connect_error` handling are not modelled. Emits are addressed values. `Session.Reaches` approximates Socket.IO room membership by the registry after the handler.
- Socket.IO room membership (`socket.join`) is not a separate state. A socket is taken to be in its room exactly while the registry lists it.
- Timestamps, `console` logging, DOM updates, notifications, sounds and the mascot are not modelled: they change no modelled state.
- `data.locked` in `room-lock` is collapsed to a boolean. The model has no `undefined`.
- `initializeLocalStream`, `createDummyStream`, voice detection and the audio analysers are left out because they are media I/O. The stream they produce is a parameter of `AttachLocalStream`.
- `toggleMicrophone`, `toggleCamera` and `updateStreamConstraints` are left out: they flip `enabled` on tracks or renegotiate constraints, which is browser state.
- Chat history, settings, themes and UI scale in `localStorage` are left out: they are storage I/O.
- `removeVideoElement` and `handleRemoteStream` are left out: they are DOM updates.
- `getVideoResolution`: keys inherited from `Object.prototype` (such as `"constructor"`) are not modelled. Every string that is not a table key falls back to 720p.
- Negotiation.StopScreenShare: the screen stream's own tracks are not stopped when `getDisplayMedia`'s stream ends by itself. The browser's `onended` callback is not modelled.
- Negotiation.ToggleScreenShare: when the stream has no video track, the source throws after swapping the senders. The model keeps that partial state and does not model the exception.
- Handlers are atomic. The interleaving of awaited calls between events is not modelled, so a signal arriving in the middle of another handler's chain is not covered.
- RoomView.TypingAmong: it does not state that the names come in the map's insertion order. `TypingNamesAreTypists`, the inclusion ensures and `TypingCount` state membership both ways and the count; the order is only fixed by the definition.
- The lemma that a leaver is no longer listed as typing is not part of this model. `UserLeft` states that the record is removed.
