# Stream: a verified model of the room relay, the directory rules and the browser reducer

This project models the logic at the centre of the Stream video-chat system. Each component of the system is covered on its own, and the project also proves properties that span the components.

- **Signaling Gateway.** This is a WebSocket relay.
  - Its membership registry maps rooms to socket lists and each socket back to its room and user (`Membership.ConnectionManager`).
  - Its bus bridge keeps the set of subscribed room channels and a start-once listener flag (`EventBus.RedisManager`).
  - The bus callback turns each bus message into a kick, a local broadcast or nothing (`Relay.Dispatch`).
  - The per-connection handler denies or admits a join, turns each client frame into a published envelope, and tears the connection down (`Relay.Gateway`).
- **Directory Service.** The gRPC handlers keep the durable room, ban and message rules (`ManagementService`). The HTTP room endpoints create, look up, list and moderate rooms (`RoomsApi`). Both work over the abstract tables of `Directory.Database`.
- **Browser hook.** The hook reduces each delivered envelope into the `messages`, `peers` and `users` lists (`SignalClient.Reduce`). It also keeps a peer-connection table (`SignalClient.SignalingHook`), and its close-code predicate decides when to reconnect.
- **Cross-layer properties** (`CrossLayer`):
  - the kick chain: from a ban over HTTP, through the published `system_kick` envelope and the 4003 close, to the browser not reconnecting;
  - the echo of a member's own chat message;
  - the roster a joiner receives;
  - a ban that refuses the next join.

Sockets are opaque numbers. The bus, the database and the RPC channel become recorded effects (`Relay.Effect`, `EventBus.BusCommand`). Their results are inputs, for example the `JoinVerdict` of `validate_join`, the set of sockets whose send raises, and whether the kick publish succeeds. JSON text is abstracted as `Json.Wire`: `Encoded(v)` is the text an encoder produced for `v`, and `Garbage` is text no decoder accepts. Integers are unbounded, like Python's.

The model follows the code where the code and its accompanying description differ:

- `existing_users` lists the joining user too when its id is nonzero, because `connect` runs before `get_active_users`.
- A client frame that is not a JSON object raises out of the handler. That handler then ends without the disconnect path, so the socket stays registered and UserLeft is never called (`Relay.Gateway.Receive`).
- `disconnect` reads the room id's truth value, so a socket in room 0 stays in room 0's list after its reverse entries are gone. The registry invariant `Membership.Coherent` allows exactly that.
- `UserJoined` does not compare the counter with `max_participants`.

## Model

| member | source | states |
|---|---|---|
| Decimal.NatToStringValue | signaling_layer/redis_manager.py:40 | the digits `str` writes for a natural number read back as that number |
| Decimal.IntToString | signaling_layer/redis_manager.py:40 | `str(i)` is non-empty, all decimal digits except a leading minus sign; `IntToStringRoundTrip` reads it back |
| Decimal.ParseInt | signaling_layer/main.py:38 | `int(text)` succeeds only on text holding at least one decimal digit; `ParseDigits`, `ParseNegated` give its value and the three `…SpaceIgnored` lemmas show that surrounding white space is ignored |
| Decimal.LeadingSpaceIgnored | signaling_layer/main.py:38 | a leading white-space character does not change what `int` reads |
| Decimal.TrailingSpaceIgnored | signaling_layer/main.py:38 | a trailing white-space character does not change what `int` reads |
| Decimal.SurroundingSpaceIgnored | signaling_layer/main.py:38 | any run of white space before and after the text does not change what `int` reads |
| Decimal.ParseDigits | signaling_layer/main.py:38 | `int` of a bare digit run is its value |
| Decimal.ParseNegated | signaling_layer/main.py:38 | `int` of a minus sign and a digit run is the negated value |
| Decimal.IntToStringRoundTrip | signaling_layer/main.py:38 | `int(str(i)) == i` for every integer |
| Decimal.IntToStringInjective | signaling_layer/redis_manager.py:40 | different integers print differently |
| Membership.RemoveFirst | signaling_layer/connection_manager.py:26 | `list.remove` shortens a list holding `x` by one, leaves other lists unchanged, and keeps every other element |
| Membership.RemoveFirstNoDup | signaling_layer/connection_manager.py:26 | on a duplicate-free list, `remove` leaves no occurrence and no duplicate |
| Membership.WithoutMembers | signaling_layer/connection_manager.py:40-41 | a socket survives the broadcast filter exactly when it is in the list and not skipped |
| Membership.WithoutNothing | signaling_layer/connection_manager.py:37 | with `exclude=None` every socket of the list is attempted, in list order |
| Membership.WithoutAppend | signaling_layer/connection_manager.py:40-45 | the filter distributes over concatenation, so a skipped or failed socket never holds back later ones |
| Membership.WithoutWithout | signaling_layer/connection_manager.py:41-44 | skipping the excluded socket and then the failed ones is skipping their union |
| Membership.WithoutSnoc | signaling_layer/connection_manager.py:40-41 | filtering a list extended by one socket extends the filtered list by that socket exactly when it is kept |
| Membership.BroadcastStep | signaling_layer/connection_manager.py:40-45 | one loop iteration attempts the socket unless it is excluded, and delivers to it unless its send raises |
| Membership.KickOf | signaling_layer/connection_manager.py:69-72 | a close is issued exactly when a socket was found, with code 4003 and the blocked reason |
| Membership.SameUser | signaling_layer/connection_manager.py:65 | a registered user equals a decoded JSON target exactly when the target is that integer, or `true`/`false` for user 1/0; a missing registration equals only null |
| Membership.FirstMatch | signaling_layer/connection_manager.py:63-67 | a found socket is in the room's list and registered to the target; nothing is found only when no socket of the list is |
| Membership.FirstMatchSpec | signaling_layer/connection_manager.py:63-67 | the kick target is the earliest socket whose registered user equals the target; none is found only when no socket of the list has that user |
| Membership.DetachedCoherent | signaling_layer/connection_manager.py:21-33 | removing a socket of a nonzero room keeps the tables coherent: no empty list remains and the socket is in no list |
| Membership.AttachedCoherent | signaling_layer/connection_manager.py:14-18 | appending a new socket to a room's list and both reverse maps keeps the lists duplicate-free and the tables coherent |
| Membership.ForgottenCoherent | signaling_layer/connection_manager.py:25-33 | a room-0 socket dropped only from the reverse maps keeps the tables coherent |
| Membership.ConnectionManager.constructor | signaling_layer/connection_manager.py:6-12 | the registry starts with three empty tables |
| Membership.ConnectionManager.Connect | signaling_layer/connection_manager.py:14-18 | the socket becomes the last element of its room's list, no other room's list changes, both reverse maps point to the room and the user, and a nonzero user becomes one of the room's active users |
| Membership.ConnectionManager.Disconnect | signaling_layer/connection_manager.py:21-35 | returns the pair recorded before removal ((None, None) for a removed socket, with nothing changed); removes the socket from both reverse maps; for a nonzero room, removes it from every list and deletes an emptied list's key; a room-0 socket stays in room 0's list |
| Membership.ConnectionManager.RoomCount | signaling_layer/connection_manager.py:47-48 | the count is the length of the room's list, and zero exactly when the room has no entry |
| Membership.ConnectionManager.ActiveUsers | signaling_layer/connection_manager.py:50-58 | the result holds each distinct nonzero user registered for a socket of the room exactly once |
| Membership.ConnectionManager.BroadcastToRoom | signaling_layer/connection_manager.py:37-45 | sends are attempted to every socket of the room's list except `exclude`, in order; a socket whose send raises is skipped and later sends go on; an unknown room gets no sends |
| Membership.ConnectionManager.KickUser | signaling_layer/connection_manager.py:60-75 | only the first socket of the room whose user equals the target is closed, with 4003; no match means no close; the tables are not modified |
| EventBus.Channel | signaling_layer/redis_manager.py:40 | every room channel starts with `room:` and is longer than the prefix |
| EventBus.PublishTo | signaling_layer/redis_manager.py:39-41 | the publish goes on channel `room:` + `str(room_id)` and carries text that decodes to the message |
| EventBus.ListenerStep | signaling_layer/redis_manager.py:28-31 | an item is forwarded exactly when it is a `message` item and a callback is set, as its (channel, data) |
| EventBus.Forwarded | signaling_layer/redis_manager.py:26-31 | a run forwards at most one pair per item read, and nothing at all while no callback is set |
| EventBus.ForwardedAppend | signaling_layer/redis_manager.py:26-34 | the items forwarded by two consecutive runs are those of the first followed by those of the second |
| EventBus.FailureDoesNotStopListener | signaling_layer/redis_manager.py:32-34 | a read that raises forwards nothing and loses nothing after it |
| EventBus.ForwardedOnlyMessages | signaling_layer/redis_manager.py:29-31 | every forwarded pair comes from a `message` item of the run, and nothing is forwarded without a callback |
| EventBus.RedisManager.constructor | signaling_layer/redis_manager.py:7-12 | no room is subscribed, no listener runs and no callback is set |
| EventBus.RedisManager.Connect | signaling_layer/redis_manager.py:14-18 | the first call starts the listener (which subscribes to the control channel), and later calls start nothing, so at most one listener is ever started |
| EventBus.RedisManager.SetCallback | signaling_layer/redis_manager.py:36-37 | the callback is installed; nothing else changes |
| EventBus.RedisManager.Subscribe | signaling_layer/redis_manager.py:43-50 | the bus subscription is issued only for a room not yet subscribed; the set gains the room either way, so a repeat is a no-op |
| EventBus.RedisManager.Unsubscribe | signaling_layer/redis_manager.py:52-57 | the bus unsubscription is issued and the room removed only if it was subscribed; otherwise nothing happens |
| EventBus.RedisManager.ListenerRun | signaling_layer/redis_manager.py:26-34 | a finite run of the listener hands the callback exactly the filtered items, in order |
| EventBus.SubscribeThenUnsubscribe | signaling_layer/redis_manager.py:43-57 | subscribing a new room twice, then unsubscribing it, restores the subscribed set |
| Relay.Segment | signaling_layer/main.py:38 | `split(":")[0]` is a colon-free prefix of the text that is either the whole text or stops right at its first colon |
| Relay.SegmentWithoutColon | signaling_layer/main.py:38 | a colon-free text is its own first segment |
| Relay.RoomOfChannel | signaling_layer/main.py:36-38 | a room id is read only from a channel starting with `room:` |
| Relay.ChannelRoundTrip | signaling_layer/main.py:36-38 | the room id the callback reads back from a room's channel is that room's id |
| Relay.ChannelInjective | signaling_layer/redis_manager.py:40 | different rooms publish on different channels |
| Relay.Dispatch | signaling_layer/main.py:34-51 | a channel without a room id, or data that does not decode, is dropped; a kick or broadcast is for the channel's room; a broadcast carries the raw data unchanged |
| Relay.DispatchPublished | signaling_layer/main.py:42-49 | a published `system_kick` object is a kick of its `user_id` in that room and is not broadcast; any other object is broadcast verbatim; a non-object is dropped |
| Relay.Translate | signaling_layer/main.py:96-126 | chat and the three signal types are republished under the connection's own user id with exactly their documented fields; every other type publishes nothing |
| Relay.FrameEffects | signaling_layer/main.py:93-126 | handling a frame raises exactly when the text is not a JSON object |
| Relay.FramePublishesOnOwnRoom | signaling_layer/main.py:99-126 | a frame publishes at most one envelope, always on the sender's own room channel, plus at most the detached store call |
| Relay.SendsOf | signaling_layer/connection_manager.py:43 | one send of the text to each target, in target order |
| Relay.ListenerEffects | signaling_layer/main.py:34-51 | the callback only sends and closes, never publishes or calls an RPC; it acts only on a room channel, sends the raw data unchanged to sockets of that room whose send succeeds, closes only a socket of that room, and does at most one thing per socket of the room |
| Relay.HandleRedisMessage | signaling_layer/main.py:34-51 | the callback's effects are the kick's close or the broadcast's sends, as `ListenerEffects` describes |
| Relay.KickIsNotBroadcast | signaling_layer/main.py:42-46 | a kick envelope reaches no socket as text and closes at most one socket |
| Relay.PublishedReachesRoom | signaling_layer/main.py:49 | any other published envelope reaches every socket of the room whose send succeeds, the publisher's own included (the echo) |
| Relay.OtherChannelsIgnored | signaling_layer/main.py:36 | a message on a channel not starting with `room:` has no effect |
| Relay.LinkedAttach | signaling_layer/main.py:67-70 | registering a new handler's socket and subscribing its room keeps handlers, registry and subscriptions linked |
| Relay.LinkedDetach | signaling_layer/main.py:131-135 | unregistering a handler's socket keeps the links when the subscriptions follow the room table |
| Relay.Gateway.constructor | signaling_layer/main.py:12-18 | at start the callback is installed and then the listener started, issuing only the control-channel subscription |
| Relay.Gateway.Join | signaling_layer/main.py:53-89 | a refused join (including an RPC failure) closes the socket with 1008 and the reason, and touches neither the registry nor the subscriptions; an admitted join runs connect, subscribe-if-new, UserJoined, the roster send and the `user_joined` publish, in that order, and the roster includes the joiner whenever its user id is nonzero |
| Relay.Gateway.JoinAfterRpcFailure | signaling_layer/grpc_client.py:20-22 | when the `validate_join` RPC fails the join is refused: the socket is closed with 1008 and "Internal Error", and the registry, the subscriptions and the handlers are unchanged |
| Relay.Gateway.Admit | signaling_layer/main.py:67-89 | the admitted steps, in order, with the registry and subscription updates and the roster holding each active user once |
| Relay.Gateway.Receive | signaling_layer/main.py:92-126 | a valid frame adds exactly its translated effects; a frame that raises ends the handler with no teardown effect, and the socket stays registered |
| Relay.Gateway.Leave | signaling_layer/main.py:128-146 | teardown unregisters the socket (removing it from its room's list, and deleting that list when emptied, unless the room is 0; every other list is unchanged), unsubscribes the room exactly when it is now empty, then calls UserLeft and publishes `user_left`, keeping subscriptions equal to the rooms that have sockets |
| Relay.Gateway.OnBusMessage | signaling_layer/main.py:34-51 | the listener's callback appends exactly the dispatch's effects and leaves the handlers alone |
| Directory.FindRoom | management_layer/grpc_server.py:92 | the first-row query on the id column (or on the name column, as room creation runs it): a found room is in the table with that key; none is found only when no row has that key |
| Directory.RoomIndex | management_layer/grpc_server.py:111 | the row an update writes holds that id; no index only when no row has it |
| Directory.FindBan | management_layer/grpc_server.py:97-100 | a found ban names that room and user; none only when no row does |
| Directory.ActiveRoomsMembers | management_layer/grpc_server.py:74 | a room is in the active listing exactly when it is in the table and active |
| Directory.Joined | management_layer/grpc_server.py:112-114 | a join counts one more participant and reactivates the room, keeping its identity |
| Directory.Left | management_layer/grpc_server.py:124-128 | a leave counts one fewer, clamped at zero, where the room becomes inactive; the counter is never negative and an active room is occupied |
| Directory.LeftAfterJoined | management_layer/grpc_server.py:108-133 | a leave after a join restores an occupied room and leaves a previously empty room inactive |
| Directory.Database.constructor | management_layer/models.py:6-53 | the tables start empty apart from the registered users |
| ManagementService.OwnedBy | management_layer/grpc_server.py:164-169 | ownership is undefined exactly for a missing room, and otherwise is whether the room's creator is the requester |
| ManagementService.ValidateJoin | management_layer/grpc_server.py:88-106 | a join is allowed exactly when the room exists and the pair is not banned; a missing room is reported before a ban; a ban yields `Banned: ` and its reason; otherwise `OK` |
| ManagementService.UpdateRoom | management_layer/grpc_server.py:111-130 | only the row with that id changes, and a missing room changes nothing |
| ManagementService.UserJoined | management_layer/grpc_server.py:108-118 | an existing room counts one more and is active; the reply is always allowed with `Joined` |
| ManagementService.UserLeft | management_layer/grpc_server.py:120-133 | an existing room counts one fewer, clamped at zero, where it goes inactive; the reply is always allowed with `Left` |
| ManagementService.StoreMessage | management_layer/grpc_server.py:135-158 | a banned sender stores nothing and gets false; otherwise exactly one message with the given room, user and content is appended |
| ManagementService.BlockUser | management_layer/grpc_server.py:160-196 | a missing room, a requester who is not the owner and a self-block fail in that order with their own errors and leave the bans unchanged; otherwise the call succeeds, adding a ban only if none exists, so each pair is banned at most once |
| ManagementService.ListRooms | management_layer/grpc_server.py:71-85 | one response per active room, in the order of the model's `rooms` sequence (which stands for the unordered query's result order), with its id, name and counters |
| ManagementService.LastLeaverUnlists | management_layer/test_scenario.py:110-118 | once the last participant leaves, the room is no longer listed |
| ManagementService.JoinedRoomListed | management_layer/grpc_server.py:112-115 | a room someone joined is listed again |
| RoomsApi.CreateRoom | management_layer/rooms.py:33-47 | a taken name is refused with 400 and nothing is added; otherwise exactly one active, empty room owned by the caller is added under a new id |
| RoomsApi.GetRoom | management_layer/rooms.py:53-58 | the room with that id, or 404 `Room not found` exactly when there is none |
| RoomsApi.ListRooms | management_layer/rooms.py:49-51 | a room is listed exactly when it is active |
| RoomsApi.KickNotice | management_layer/rooms.py:89-96 | the kick is published on the room's channel as an object with exactly `type` = `system_kick` and the target's `user_id` |
| RoomsApi.BlockUserFromRoom | management_layer/rooms.py:60-101 | 404 for a missing room, then 403, 400 and 404 in order, each adding no ban; an existing ban gives `User already banned` with nothing published; otherwise exactly one ban is committed, the kick is published (a failed publish is swallowed and the ban stays), and the message names the user and the room |
| RoomsApi.BlockLeavesBanned | management_layer/rooms.py:81-101 | a successful request leaves the pair banned, adds at most one row, and publishes nothing but the kick |
| SignalClient.Strings | client_layer/src/hooks/useWebRTC.ts:101 | `ids.map(String)` keeps the length, and each element is the text of the matching id |
| SignalClient.JsonString | client_layer/src/hooks/useWebRTC.ts:96-97 | `String` of a JSON integer is text that reads back as the same integer, so the sender and target ids the hook compares are the relay's decimal ids |
| SignalClient.Truthy | client_layer/src/hooks/useWebRTC.ts:130 | `undefined` and `null` are falsy, and every array and object, even an empty one, is truthy |
| SignalClient.AddOnce | client_layer/src/hooks/useWebRTC.ts:119 | the element ends up in the list, nothing else is added, and a duplicate-free list stays so |
| SignalClient.FilterOutMembers | client_layer/src/hooks/useWebRTC.ts:158-159 | the filter removes every occurrence of the id and keeps every other element |
| SignalClient.FilterOutNoDup | client_layer/src/hooks/useWebRTC.ts:158-159 | the filter keeps a duplicate-free list duplicate-free |
| SignalClient.Classify | client_layer/src/hooks/useWebRTC.ts:96-161 | `existing_users` and `chat` are recognised by type alone; every other handled branch is for a sender whose id differs from the user's own |
| SignalClient.Roster | client_layer/src/hooks/useWebRTC.ts:101-106 | the listed ids come first, in order, and the user's own id is added only when missing |
| SignalClient.Reduce | client_layer/src/hooks/useWebRTC.ts:93-163 | the handler throws exactly on `existing_users` whose `ids` is not an array, and only chat changes the transcript |
| SignalClient.ExistingUsersRoster | client_layer/src/hooks/useWebRTC.ts:100-107 | `existing_users` makes the roster the listed ids, with the user's own id added if absent, and changes nothing else |
| SignalClient.OwnSignalsIgnored | client_layer/src/hooks/useWebRTC.ts:110 | the user's own envelopes other than chat change nothing |
| SignalClient.ChatAppended | client_layer/src/hooks/useWebRTC.ts:113-114 | every chat envelope, the user's own echo included, is appended to the transcript and nothing else changes |
| SignalClient.JoinedUpdates | client_layer/src/hooks/useWebRTC.ts:116-128 | a join adds the sender to a duplicate-free roster once, and always appends it to `peers` |
| SignalClient.OfferGate | client_layer/src/hooks/useWebRTC.ts:129-140 | an offer is taken exactly when addressed to the user or to a falsy target, and adds the sender to `peers` at most once |
| SignalClient.AnswerAndCandidateGate | client_layer/src/hooks/useWebRTC.ts:141-152 | answers and candidates are taken exactly when addressed to the user, and never change the lists |
| SignalClient.LeftRemovesEverywhere | client_layer/src/hooks/useWebRTC.ts:153-160 | a departure removes every occurrence of the sender from `peers` and `users` and keeps everyone else |
| SignalClient.OnClose | client_layer/src/hooks/useWebRTC.ts:30-36 | the alert is raised exactly on the codes that are not retried, showing the close reason or the default text |
| SignalClient.SignalingHook.constructor | client_layer/src/hooks/useWebRTC.ts:93-98 | the hook starts with empty lists and no peer connections |
| SignalClient.SignalingHook.CreatePeerConnection | client_layer/src/hooks/useWebRTC.ts:57-89 | an existing connection for the target is returned unchanged; otherwise a fresh one is recorded, so there is at most one connection per target |
| SignalClient.SignalingHook.HandleMessage | client_layer/src/hooks/useWebRTC.ts:93-163 | the lists become the reducer's result (unchanged when the handler throws), and peer connections are created on joins and offers and deleted on departures, keeping existing handles |
| SignalClient.SignalingHook.UpdatePeers | client_layer/src/hooks/useWebRTC.ts:116-160 | joins and offers reuse or create the sender's connection, answers and candidates touch only an existing one, and a departure closes and deletes it |
| CrossLayer.KickChain | management_layer/rooms.py:89-96 | the published kick is dispatched as a kick of that user in that room, closes only that user's sockets in the room with 4003, closes one whenever the user is there, and the browser alerts and does not reconnect |
| CrossLayer.RefusalsAreFinal | client_layer/src/hooks/useWebRTC.ts:32-40 | the browser reconnects exactly on codes other than the kick (4003) and the refusal (1008), and alerts exactly on those two |
| CrossLayer.OwnChatEchoed | signaling_layer/main.py:99-108 | a member's chat frame is published on its room, comes back to its own socket when that send succeeds, and is appended by its own browser |
| CrossLayer.IdNames | client_layer/src/hooks/useWebRTC.ts:101 | the names the browser reads from the roster are exactly the ids' decimal texts |
| CrossLayer.RosterReachesBrowser | signaling_layer/main.py:79-83 | the roster sent to a joiner becomes the browser's user list: exactly the ids' texts plus the user's own id |
| CrossLayer.JoinAnnouncementReachesBrowser | signaling_layer/main.py:86-89 | another user's `user_joined` and `user_left` announcements reach the browser's join and leave branches with that user's decimal id |
| CrossLayer.BanThenRejoin | management_layer/rooms.py:60-101 | a ban accepted over HTTP (exactly when the owner bans another registered user) makes the Directory refuse that user's next join |

## Left out

- Relay.Gateway.Admit treats the roster `send_text` to the joiner as always succeeding. In the source that send raises when the client has already gone; the handler then goes straight to the teardown, and the `user_joined` publish never happens. Only the broadcast sends have a failure input.
- Network, bus, database and RPC I/O are left out. Each becomes a recorded effect, and its outcome is an input: the join verdict, the sockets whose send raises, whether the kick publish succeeds. The `grpc_client` stubs themselves are not part of this model. Their RPC failure is the `RpcFailureVerdict` input (`Relay.Gateway.JoinAfterRpcFailure`).
- Asynchronous concurrency is not modelled: the listener task, the detached `store_message` task, and interleavings between connection handlers. Each handler step runs on its own.
- The endless loops (the listener and the frame loop) are modelled as single steps and finite runs (`EventBus.RedisManager.ListenerRun`, `Relay.Gateway.Receive`). The listener's one-second retry sleep and timeout are not modelled.
- JSON text is not modelled. `Json.Wire` stands for the encoded text, so a frame that is valid JSON but not an object is covered, while the encoder's exact output is not.
- Decimal.ParseInt accepts ASCII white space (including the separators U+001C to U+001F), a sign and ASCII digits. Python's `int` also accepts `_` separators, non-ASCII digits and non-ASCII white space; those are not modelled.
- SignalClient.JsonString prints integers only. JSON numbers with fractions or exponents, and JavaScript's number precision, are not modelled.
- Membership.SameUser compares with integers and booleans only. `Json` has no fractional numbers, so a `system_kick` whose `user_id` is a float equal to the user's id (Python's `5 == 5.0`) is not modelled as a kick.
- Relay.Gateway.Join takes the route's ids as unbounded integers. The RPC request fields have a fixed width, so an id outside it makes building the `validate_join` request raise. That exception is neither the RPC error the client catches nor a disconnect, so the handler ends after the accept without a 1008 close. That outcome is not modelled.
- JSON.parse failing in the browser is not modelled. The relay only delivers text that an encoder produced.
- Only JSON objects reach the browser hook, so `msg` is modelled as an object.
- Register, Login, password hashing and JWT decoding (`get_current_user`) are foreign cryptography. The HTTP endpoints take the authenticated caller's id as a parameter.
- The gRPC `CreateRoom` is left out, because it depends on a database unique-constraint exception.
- `get_room_messages` is left out, because it depends on the database's ordering and limit.
- Database exceptions, rollbacks and foreign keys are not modelled. This covers the `except` paths of `StoreMessage` and `BlockUser` (the `str(e)` error) and Room ids generated by the database. A new room gets the id `nextRoomId`, which is above every id handed out.
- RTCPeerConnection, media tracks, the offer and answer promise chains, ICE candidates sent back to the relay, and React rendering are not modelled. Peer connections are only handles recorded as `SignalClient.PeerAction` requests.
- The page redirect after an alert is left out.
- User.is_banned, Message.timestamp and the ORM relationships are left out, because no modelled rule reads them.
- Logging is left out.
