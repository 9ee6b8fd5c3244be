/**
 * The relay's entry points (signaling_layer/main.py): the bus callback that turns a
 * bus message into a kick or a local broadcast, the translation of client frames
 * into published envelopes, and the per-connection handler as a sequence of steps
 * over the registry and the bus bridge.
 */
module Relay {
  import opened Wrappers
  import opened Json
  import Decimal
  import opened Membership
  import opened EventBus

  /** The close status a denied join receives (policy violation). */
  const DenyCode: int := 1008

  /** `s.split(":")[0]`: the text before the first colon. */
  function Segment(s: string): (r: string)
    ensures ':' !in r
    ensures |r| <= |s| && r == s[..|r|]
    ensures r == s || (|r| < |s| && s[|r|] == ':')
  {
    if s == [] || s[0] == ':' then [] else [s[0]] + Segment(s[1..])
  }

  lemma {:induction false} SegmentWithoutColon(s: string)
    requires ':' !in s
    ensures Segment(s) == s
  {
    if s != [] {
      SegmentWithoutColon(s[1..]);
    }
  }

  /**
   * The room id `handle_redis_message` reads from a channel: None when the channel
   * does not start with "room:" or when `int(channel.split(":")[1])` raises.
   */
  function RoomOfChannel(channel: string): (r: Option<int>)
    ensures r.Some? ==> |channel| >= |RoomPrefix| && channel[..|RoomPrefix|] == RoomPrefix
  {
    if |channel| >= |RoomPrefix| && channel[..|RoomPrefix|] == RoomPrefix then
      Decimal.ParseInt(Segment(channel[|RoomPrefix|..]))
    else None
  }

  /** The room a channel was named for is the room read back from it. */
  lemma ChannelRoundTrip(roomId: int)
    ensures RoomOfChannel(Channel(roomId)) == Some(roomId)
  {
    var digits := Decimal.IntToString(roomId);
    assert Channel(roomId)[|RoomPrefix|..] == digits;
    assert ':' !in digits by {
      forall k | 0 <= k < |digits| ensures digits[k] != ':' {
      }
    }
    SegmentWithoutColon(digits);
    Decimal.IntToStringRoundTrip(roomId);
  }

  /** Channels of different rooms differ. */
  lemma ChannelInjective(a: int, b: int)
    requires Channel(a) == Channel(b)
    ensures a == b
  {
    ChannelRoundTrip(a);
    ChannelRoundTrip(b);
  }

  /** What the bus callback decides for one message. */
  datatype Action =
    | KickAction(room: int, target: Json)
    | BroadcastAction(room: int, data: Wire)
    | DropAction

  /**
   * `handle_redis_message`'s decision. Other channels are ignored; a room id that
   * does not parse, text that is not JSON, or JSON that is not an object (no `.get`)
   * raises inside the try and is dropped; a `system_kick` becomes a kick of its
   * `user_id`; anything else is broadcast as the raw text.
   */
  function Dispatch(channel: string, data: Wire): (a: Action)
    ensures a.DropAction? <== RoomOfChannel(channel).None? || Decode(data).None?
    ensures !a.DropAction? ==> RoomOfChannel(channel) == Some(a.room)
    ensures a.BroadcastAction? ==> a.data == data
  {
    match RoomOfChannel(channel)
    case None => DropAction
    case Some(room) =>
      match Decode(data)
      case None => DropAction
      case Some(v) =>
        if !v.JObj? then DropAction
        else if GetOrNull(v.fields, "type") == JStr("system_kick") then KickAction(room, GetOrNull(v.fields, "user_id"))
        else BroadcastAction(room, data)
  }

  /**
   * A message published on a room's channel: a `system_kick` object is a kick of its
   * user in that room and is not broadcast; any other object is broadcast verbatim.
   */
  lemma DispatchPublished(roomId: int, message: Json)
    ensures message.JObj? && GetOrNull(message.fields, "type") == JStr("system_kick") ==>
      Dispatch(Channel(roomId), Encoded(message)) == KickAction(roomId, GetOrNull(message.fields, "user_id"))
    ensures message.JObj? && GetOrNull(message.fields, "type") != JStr("system_kick") ==>
      Dispatch(Channel(roomId), Encoded(message)) == BroadcastAction(roomId, Encoded(message))
    ensures !message.JObj? ==> Dispatch(Channel(roomId), Encoded(message)) == DropAction
  {
    ChannelRoundTrip(roomId);
  }

  /** A Directory RPC, with the arguments the relay passes. */
  datatype Rpc =
    | ValidateJoinRpc(userId: int, roomId: int)
    | UserJoinedRpc(userId: int, roomId: int)
    | UserLeftRpc(userId: int, roomId: int)
    | StoreMessageRpc(userId: int, roomId: int, content: Json)

  /** What the relay does to the outside world, in order. */
  datatype Effect =
    | Accept(socket: Socket)           // websocket.accept()
    | Call(rpc: Rpc)                   // an awaited RPC; its failure is only logged
    | Spawn(rpc: Rpc)                  // an RPC in a detached task
    | SendText(socket: Socket, text: Wire)
    | CloseSocket(close: CloseCommand)
    | Bus(cmd: BusCommand)

  /** The result of `validate_join`. */
  datatype JoinVerdict = JoinVerdict(allowed: bool, reason: string)

  /** `validate_join` when the RPC itself fails: the join is refused. */
  const RpcFailureVerdict: JoinVerdict := JoinVerdict(false, "Internal Error")

  function ExistingUsersMsg(ids: seq<int>): Json {
    JObj(map["type" := JStr("existing_users"), "ids" := JArr(seq(|ids|, i requires 0 <= i < |ids| => JInt(ids[i])))])
  }

  function UserJoinedMsg(userId: int): Json {
    JObj(map["type" := JStr("user_joined"), "user_id" := JInt(userId)])
  }

  function UserLeftMsg(userId: int): Json {
    JObj(map["type" := JStr("user_left"), "user_id" := JInt(userId)])
  }

  predicate IsSignal(kind: Json) {
    kind == JStr("offer") || kind == JStr("answer") || kind == JStr("candidate")
  }

  /**
   * The envelope published for one decoded client frame: `chat` and the three
   * signalling types are republished under the connection's own user id (the frame
   * cannot choose its sender); every other type publishes nothing.
   */
  function Translate(userId: int, frame: map<string, Json>): (payload: Option<Json>)
    ensures payload.Some? <==> GetOrNull(frame, "type") == JStr("chat") || IsSignal(GetOrNull(frame, "type"))
    ensures payload.Some? ==>
      && payload.value.JObj?
      && "type" in payload.value.fields && payload.value.fields["type"] == GetOrNull(frame, "type")
      && "user_id" in payload.value.fields && payload.value.fields["user_id"] == JInt(userId)
    ensures payload.Some? && IsSignal(GetOrNull(frame, "type")) ==>
      payload.value.fields.Keys == {"type", "user_id", "target_id", "data"}
      && payload.value.fields["target_id"] == GetOrNull(frame, "target_id")
      && payload.value.fields["data"] == GetOrNull(frame, "data")
    ensures payload.Some? && GetOrNull(frame, "type") == JStr("chat") ==>
      payload.value.fields.Keys == {"type", "user_id", "content"}
      && payload.value.fields["content"] == GetOrNull(frame, "content")
  {
    var kind := GetOrNull(frame, "type");
    if kind == JStr("chat") then
      Some(JObj(map["type" := JStr("chat"), "user_id" := JInt(userId), "content" := GetOrNull(frame, "content")]))
    else if IsSignal(kind) then
      Some(JObj(map["type" := kind, "user_id" := JInt(userId),
                    "target_id" := GetOrNull(frame, "target_id"), "data" := GetOrNull(frame, "data")]))
    else None
  }

  /**
   * The effects of one client frame, or None when handling it raises out of the
   * handler (text that is not JSON, or JSON that is not an object).
   */
  function FrameEffects(roomId: int, userId: int, raw: Wire): (fx: Option<seq<Effect>>)
    ensures fx.None? <==> Decode(raw).None? || !Decode(raw).value.JObj?
  {
    match Decode(raw)
    case None => None
    case Some(v) =>
      if !v.JObj? then None
      else match Translate(userId, v.fields)
        case None => Some([])
        case Some(payload) =>
          if GetOrNull(v.fields, "type") == JStr("chat") then
            Some([Bus(PublishTo(roomId, payload)), Spawn(StoreMessageRpc(userId, roomId, GetOrNull(v.fields, "content")))])
          else Some([Bus(PublishTo(roomId, payload))])
  }

  /** A relayed frame publishes at most one envelope, always on the sender's own room channel. */
  lemma FramePublishesOnOwnRoom(roomId: int, userId: int, raw: Wire)
    requires FrameEffects(roomId, userId, raw).Some?
    ensures forall e :: e in FrameEffects(roomId, userId, raw).value && e.Bus? ==>
      e.cmd.PublishCmd? && e.cmd.channel == Channel(roomId)
    ensures |FrameEffects(roomId, userId, raw).value| <= 2
  {
  }

  /** One `send_text` of `text` to each socket of `targets`, in order. */
  function SendsOf(targets: seq<Socket>, text: Wire): (fx: seq<Effect>)
    ensures |fx| == |targets|
    ensures forall i :: 0 <= i < |fx| ==> fx[i] == SendText(targets[i], text)
  {
    seq(|targets|, i requires 0 <= i < |targets| => SendText(targets[i], text))
  }

  function ClosesOf(close: Option<CloseCommand>): seq<Effect> {
    if close.Some? then [CloseSocket(close.value)] else []
  }

  /** The effects of the bus callback for one message, given the registry and the sockets whose send fails. */
  function ListenerEffects(m: ConnectionManager, channel: string, data: Wire, broken: set<Socket>): (fx: seq<Effect>)
    reads m
    ensures fx != [] ==> RoomOfChannel(channel).Some?
    ensures forall e :: e in fx ==> e.SendText? || e.CloseSocket?
    ensures forall e :: e in fx && e.SendText? ==>
      e.text == data && e.socket in m.Members(RoomOfChannel(channel).value) && e.socket !in broken
    ensures forall e :: e in fx && e.CloseSocket? ==> e.close.socket in m.Members(RoomOfChannel(channel).value)
    ensures |fx| <= |m.Members(if RoomOfChannel(channel).Some? then RoomOfChannel(channel).value else 0)|
  {
    match Dispatch(channel, data)
    case KickAction(room, target) => ClosesOf(KickOf(FirstMatch(m.Members(room), m.socketToUser, target)))
    case BroadcastAction(room, text) =>
      var targets := Without(Without(m.Members(room), {}), broken);
      assert forall x :: x in targets ==> x in m.Members(room) && x !in broken by {
        forall x | x in targets ensures x in m.Members(room) && x !in broken {
          WithoutNothing(m.Members(room));
          WithoutMembers(m.Members(room), broken, x);
        }
      }
      SendsOf(targets, text)
    case DropAction => []
  }

  /** `handle_redis_message` run against the registry. */
  method HandleRedisMessage(m: ConnectionManager, channel: string, data: Wire, broken: set<Socket>)
    returns (fx: seq<Effect>)
    ensures fx == ListenerEffects(m, channel, data, broken)
  {
    match Dispatch(channel, data)
    case KickAction(room, target) =>
      var close := m.KickUser(room, target);
      fx := ClosesOf(close);
    case BroadcastAction(room, text) =>
      var attempted, delivered := m.BroadcastToRoom(room, text, None, broken);
      fx := SendsOf(delivered, text);
    case DropAction =>
      fx := [];
  }

  /** A kick envelope is never forwarded to any socket; at most one socket is closed. */
  lemma KickIsNotBroadcast(m: ConnectionManager, roomId: int, message: Json, broken: set<Socket>)
    requires message.JObj? && GetOrNull(message.fields, "type") == JStr("system_kick")
    ensures forall e :: e in ListenerEffects(m, Channel(roomId), Encoded(message), broken) ==> e.CloseSocket?
    ensures |ListenerEffects(m, Channel(roomId), Encoded(message), broken)| <= 1
  {
    DispatchPublished(roomId, message);
  }

  /**
   * Echo: any other envelope published on a room's channel reaches every socket of
   * the room whose send succeeds, the publisher's own socket included.
   */
  lemma PublishedReachesRoom(m: ConnectionManager, roomId: int, message: Json, broken: set<Socket>, ws: Socket)
    requires message.JObj? && GetOrNull(message.fields, "type") != JStr("system_kick")
    requires ws in m.Members(roomId) && ws !in broken
    ensures SendText(ws, Encoded(message)) in ListenerEffects(m, Channel(roomId), Encoded(message), broken)
  {
    DispatchPublished(roomId, message);
    var members := m.Members(roomId);
    WithoutNothing(members);
    WithoutMembers(members, broken, ws);
    var targets := Without(members, broken);
    var k :| 0 <= k < |targets| && targets[k] == ws;
    var fx := SendsOf(targets, Encoded(message));
    assert fx[k] == SendText(ws, Encoded(message));
  }

  /** Messages on channels other than room channels have no effect. */
  lemma OtherChannelsIgnored(m: ConnectionManager, channel: string, data: Wire, broken: set<Socket>)
    requires !(|channel| >= |RoomPrefix| && channel[..|RoomPrefix|] == RoomPrefix)
    ensures ListenerEffects(m, channel, data, broken) == []
  {
  }

  /** The endpoint's locals for one connection in its frame loop. */
  datatype Session = Session(room: int, user: int)

  /** The effects of joining after `validate_join` allowed it. */
  function AdmitEffects(ws: Socket, roomId: int, userId: int, wasSubscribed: bool, existing: seq<int>): seq<Effect> {
    (if wasSubscribed then [] else [Bus(SubscribeCmd(Channel(roomId)))])
    + [ Call(UserJoinedRpc(userId, roomId)),
        SendText(ws, Encoded(ExistingUsersMsg(existing))),
        Bus(PublishTo(roomId, UserJoinedMsg(userId))) ]
  }

  /** The effects of the disconnect path. */
  function TeardownEffects(roomId: int, userId: int, roomEmptied: bool): seq<Effect> {
    (if roomEmptied then [Bus(UnsubscribeCmd(Channel(roomId)))] else [])
    + [ Call(UserLeftRpc(userId, roomId)),
        Bus(PublishTo(roomId, UserLeftMsg(userId))) ]
  }

  /**
   * A room is subscribed exactly when it has a list in the registry, and each live
   * handler's socket is registered under the handler's room and user.
   */
  ghost predicate Linked(sessions: map<Socket, Session>, subscribed: set<int>, table: map<int, seq<Socket>>,
                         rooms: map<Socket, int>, users: map<Socket, int>)
  {
    && subscribed == table.Keys
    && forall ws :: ws in sessions ==>
         ws in rooms && rooms[ws] == sessions[ws].room && ws in users && users[ws] == sessions[ws].user
  }

  /** Registering a new handler's socket under its room keeps the links. */
  lemma LinkedAttach(sessions: map<Socket, Session>, subscribed: set<int>, table: map<int, seq<Socket>>,
                     rooms: map<Socket, int>, users: map<Socket, int>, ws: Socket, r: int, u: int, list: seq<Socket>)
    requires Linked(sessions, subscribed, table, rooms, users)
    ensures Linked(sessions[ws := Session(r, u)], subscribed + {r}, table[r := list], rooms[ws := r], users[ws := u])
  {
  }

  /** Unregistering a handler's socket keeps the links when the subscriptions follow the room table. */
  lemma LinkedDetach(sessions: map<Socket, Session>, subscribed: set<int>, table: map<int, seq<Socket>>,
                     rooms: map<Socket, int>, users: map<Socket, int>, ws: Socket,
                     subscribed': set<int>, table': map<int, seq<Socket>>)
    requires Linked(sessions, subscribed, table, rooms, users)
    requires subscribed' == table'.Keys
    ensures Linked(sessions - {ws}, subscribed', table', rooms - {ws}, users - {ws})
  {
  }

  /**
   * One relay process: the registry, the bus bridge, the connection handlers that are
   * in their frame loop, and the trace of everything the process has done.
   */
  class Gateway {
    const manager: ConnectionManager
    const bus: RedisManager
    var sessions: map<Socket, Session>
    var effects: seq<Effect>

    /**
     * The registry and the bridge are consistent, a room is subscribed exactly when it
     * has a list in the registry, and each live handler's socket is registered under
     * the handler's room and user.
     */
    ghost predicate Valid()
      reads this, manager, bus
    {
      && manager.Valid() && bus.Valid()
      && Linked(sessions, bus.subscribedRooms, manager.activeConnections, manager.socketToRoom, manager.socketToUser)
    }

    /** Process start (`lifespan`): install the callback, then start the listener. */
    constructor ()
      ensures Valid() && fresh(manager) && fresh(bus)
      ensures sessions == map[] && manager.activeConnections == map[]
      ensures bus.hasCallback && bus.isListening
      ensures effects == [Bus(SubscribeCmd(ControlChannel))]
    {
      manager := new ConnectionManager();
      bus := new RedisManager();
      sessions := map[];
      new;
      bus.SetCallback();
      var issued := bus.Connect();
      effects := [Bus(SubscribeCmd(ControlChannel))];
    }

    /**
     * `websocket_endpoint` up to its frame loop. A refused join closes the socket with
     * 1008 and the reason and touches neither the registry nor the bridge. An admitted
     * join registers the socket, subscribes the room, calls UserJoined, sends the
     * room's users (the joiner included) and publishes `user_joined`.
     */
    method Join(ws: Socket, roomId: int, userId: int, verdict: JoinVerdict) returns (admitted: bool, existing: seq<int>)
      requires Valid() && manager.Unseen(ws)
      modifies this, manager, bus
      ensures Valid()
      ensures admitted == verdict.allowed
      ensures !admitted ==>
        && effects == old(effects) + [Accept(ws), Call(ValidateJoinRpc(userId, roomId)),
                                      CloseSocket(CloseCommand(ws, DenyCode, verdict.reason))]
        && sessions == old(sessions)
        && manager.activeConnections == old(manager.activeConnections)
        && manager.socketToRoom == old(manager.socketToRoom) && manager.socketToUser == old(manager.socketToUser)
        && bus.subscribedRooms == old(bus.subscribedRooms)
      ensures admitted ==>
        && effects == old(effects) + [Accept(ws), Call(ValidateJoinRpc(userId, roomId))]
                      + AdmitEffects(ws, roomId, userId, roomId in old(bus.subscribedRooms), existing)
        && sessions == old(sessions)[ws := Session(roomId, userId)]
        && manager.activeConnections == old(manager.activeConnections)[roomId := old(manager.Members(roomId)) + [ws]]
        && manager.socketToRoom == old(manager.socketToRoom)[ws := roomId]
        && manager.socketToUser == old(manager.socketToUser)[ws := userId]
        && bus.subscribedRooms == old(bus.subscribedRooms) + {roomId}
        && NoDup(existing) && (forall u :: u in existing <==> u in manager.UserSet(roomId))
        && (userId != 0 ==> userId in existing)
    {
      var asked := [Accept(ws), Call(ValidateJoinRpc(userId, roomId))];
      existing := [];
      if !verdict.allowed {
        effects := effects + asked + [CloseSocket(CloseCommand(ws, DenyCode, verdict.reason))];
        return false, existing;
      }
      effects := effects + asked;
      existing := Admit(ws, roomId, userId);
      admitted := true;
    }

    /** A `validate_join` whose RPC fails refuses the join: the socket is closed with 1008 and "Internal Error". */
    method JoinAfterRpcFailure(ws: Socket, roomId: int, userId: int)
      requires Valid() && manager.Unseen(ws)
      modifies this, manager, bus
      ensures Valid()
      ensures effects == old(effects) + [Accept(ws), Call(ValidateJoinRpc(userId, roomId)),
                                         CloseSocket(CloseCommand(ws, DenyCode, "Internal Error"))]
      ensures sessions == old(sessions) && bus.subscribedRooms == old(bus.subscribedRooms)
      ensures manager.activeConnections == old(manager.activeConnections)
      ensures manager.socketToRoom == old(manager.socketToRoom) && manager.socketToUser == old(manager.socketToUser)
    {
      var admitted, existing := Join(ws, roomId, userId, RpcFailureVerdict);
    }

    /** The admitted half of `Join`: from `manager.connect` to the `user_joined` publish. */
    method Admit(ws: Socket, roomId: int, userId: int) returns (existing: seq<int>)
      requires Valid() && manager.Unseen(ws)
      modifies this, manager, bus
      ensures Valid()
      ensures effects == old(effects) + AdmitEffects(ws, roomId, userId, roomId in old(bus.subscribedRooms), existing)
      ensures sessions == old(sessions)[ws := Session(roomId, userId)]
      ensures manager.activeConnections == old(manager.activeConnections)[roomId := old(manager.Members(roomId)) + [ws]]
      ensures manager.socketToRoom == old(manager.socketToRoom)[ws := roomId]
      ensures manager.socketToUser == old(manager.socketToUser)[ws := userId]
      ensures bus.subscribedRooms == old(bus.subscribedRooms) + {roomId}
      ensures NoDup(existing) && (forall u :: u in existing <==> u in manager.UserSet(roomId))
      ensures userId != 0 ==> userId in existing
    {
      var wasSubscribed := roomId in bus.subscribedRooms;
      LinkedAttach(sessions, bus.subscribedRooms, manager.activeConnections, manager.socketToRoom, manager.socketToUser,
                   ws, roomId, userId, manager.Members(roomId) + [ws]);
      manager.Connect(ws, roomId, userId);
      var issued := bus.Subscribe(roomId);
      assert (if issued.Some? then [Bus(issued.value)] else [])
        == (if wasSubscribed then [] else [Bus(SubscribeCmd(Channel(roomId)))]);
      existing := manager.ActiveUsers(roomId);
      effects := effects + AdmitEffects(ws, roomId, userId, wasSubscribed, existing);
      sessions := sessions[ws := Session(roomId, userId)];
    }

    /**
     * One pass of the frame loop. A frame that raises ends the handler without the
     * disconnect path: the socket stays registered and UserLeft is never called.
     */
    method Receive(ws: Socket, raw: Wire) returns (crashed: bool)
      requires Valid() && ws in sessions
      modifies this
      ensures Valid()
      ensures crashed == FrameEffects(old(sessions)[ws].room, old(sessions)[ws].user, raw).None?
      ensures crashed ==>
        && sessions == old(sessions) - {ws} && effects == old(effects)
        && ws in manager.socketToRoom
      ensures !crashed ==>
        && sessions == old(sessions)
        && effects == old(effects) + FrameEffects(old(sessions)[ws].room, old(sessions)[ws].user, raw).value
    {
      var s := sessions[ws];
      var fx := FrameEffects(s.room, s.user, raw);
      if fx.None? {
        sessions := sessions - {ws};
        return true;
      }
      crashed := false;
      effects := effects + fx.value;
    }

    /**
     * The disconnect path: unregister, unsubscribe the room if the registry now has
     * no socket for it, call UserLeft, publish `user_left`.
     */
    method Leave(ws: Socket)
      requires Valid() && ws in sessions
      modifies this, manager, bus
      ensures Valid()
      ensures sessions == old(sessions) - {ws}
      ensures manager.socketToRoom == old(manager.socketToRoom) - {ws}
      ensures manager.socketToUser == old(manager.socketToUser) - {ws}
      ensures manager.activeConnections ==
        if old(sessions)[ws].room != 0 then Detached(old(manager.activeConnections), old(sessions)[ws].room, ws)
        else old(manager.activeConnections)
      ensures old(sessions)[ws].room != 0 ==>
        forall r :: r in manager.activeConnections ==> ws !in manager.activeConnections[r]
      ensures manager.RoomCount(old(sessions)[ws].room) == 0 <==>
        old(sessions)[ws].room != 0 && old(manager.Members(sessions[ws].room)) == [ws]
      ensures bus.subscribedRooms ==
        if manager.RoomCount(old(sessions)[ws].room) == 0 then old(bus.subscribedRooms) - {old(sessions)[ws].room}
        else old(bus.subscribedRooms)
      ensures effects == old(effects) + TeardownEffects(old(sessions)[ws].room, old(sessions)[ws].user,
                                                        manager.RoomCount(old(sessions)[ws].room) == 0)
    {
      var s := sessions[ws];
      var r := s.room;
      var members := manager.Members(r);
      assert ws in members;
      var gone, goneUser := manager.Disconnect(ws);
      var emptied := manager.RoomCount(r) == 0;
      assert emptied <==> r != 0 && members == [ws] by {
        if r != 0 {
          var rest := RemoveFirst(members, ws);
          assert |rest| == |members| - 1;
          assert emptied <==> rest == [];
          if rest == [] {
            assert members == [members[0]];
          }
        }
      }
      assert manager.activeConnections.Keys ==
        if emptied then old(manager.activeConnections.Keys) - {r} else old(manager.activeConnections.Keys);
      if emptied {
        var issued := bus.Unsubscribe(r);
        assert issued == Some(UnsubscribeCmd(Channel(r)));
      }
      LinkedDetach(sessions, old(bus.subscribedRooms), old(manager.activeConnections), old(manager.socketToRoom),
                   old(manager.socketToUser), ws, bus.subscribedRooms, manager.activeConnections);
      effects := effects + TeardownEffects(r, s.user, emptied);
      sessions := sessions - {ws};
    }

    /** The listener hands one bus message to the callback. */
    method OnBusMessage(channel: string, data: Wire, broken: set<Socket>)
      requires Valid()
      modifies this
      ensures Valid() && sessions == old(sessions)
      ensures effects == old(effects) + ListenerEffects(manager, channel, data, broken)
    {
      var fx := HandleRedisMessage(manager, channel, data, broken);
      effects := effects + fx;
    }
  }
}
