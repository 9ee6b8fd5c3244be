/**
 * Properties that span the layers: what the Directory publishes, the relay
 * enforces and the browser does about it.
 */
module CrossLayer {
  import opened Wrappers
  import opened Json
  import Decimal
  import opened Membership
  import opened EventBus
  import opened Relay
  import opened Directory
  import ManagementService
  import RoomsApi
  import SignalClient

  /** A registered user equals a kick target exactly when it is that user. */
  lemma SameUserExactly(u: Option<int>, target: int)
    ensures SameUser(u, JInt(target)) <==> u == Some(target)
  {
  }

  /**
   * The kick chain: the notice published for a new ban is dispatched as a kick of
   * that user in that room, closes only sockets of that user in that room with
   * code 4003, closes one whenever the user is connected there, and the browser
   * neither reconnects nor stays on the room.
   */
  lemma {:induction false} KickChain(m: ConnectionManager, roomId: int, target: int, broken: set<Socket>)
    ensures var cmd := RoomsApi.KickNotice(roomId, target);
      Dispatch(cmd.channel, cmd.data) == KickAction(roomId, JInt(target))
    ensures var cmd := RoomsApi.KickNotice(roomId, target);
      forall e :: e in ListenerEffects(m, cmd.channel, cmd.data, broken) ==>
        && e.CloseSocket? && e.close.code == KickCode && e.close.reason == KickReason
        && e.close.socket in m.Members(roomId) && Get(m.socketToUser, e.close.socket) == Some(target)
    ensures var cmd := RoomsApi.KickNotice(roomId, target);
      (exists k :: 0 <= k < |m.Members(roomId)| && Get(m.socketToUser, m.Members(roomId)[k]) == Some(target)) ==>
        |ListenerEffects(m, cmd.channel, cmd.data, broken)| == 1
    ensures !SignalClient.ShouldReconnect(KickCode)
    ensures SignalClient.OnClose(KickCode, KickReason) == Some("Disconnected: " + KickReason)
  {
    var cmd := RoomsApi.KickNotice(roomId, target);
    var message := JObj(map["type" := JStr("system_kick"), "user_id" := JInt(target)]);
    assert cmd.data == Encoded(message);
    DispatchPublished(roomId, message);
    var members := m.Members(roomId);
    FirstMatchSpec(members, m.socketToUser, JInt(target));
    var found := FirstMatch(members, m.socketToUser, JInt(target));
    if found.Some? {
      var k :| 0 <= k < |members| && members[k] == found.value && SameUser(Get(m.socketToUser, members[k]), JInt(target));
      SameUserExactly(Get(m.socketToUser, members[k]), target);
    }
    forall k | 0 <= k < |members|
      ensures SameUser(Get(m.socketToUser, members[k]), JInt(target)) <==> Get(m.socketToUser, members[k]) == Some(target)
    {
      SameUserExactly(Get(m.socketToUser, members[k]), target);
    }
  }

  /** Neither a kick (4003) nor a refused join (1008) is retried; every other close is. */
  lemma RefusalsAreFinal(code: int)
    ensures SignalClient.ShouldReconnect(code) <==> code != KickCode && code != DenyCode
    ensures SignalClient.OnClose(code, "").Some? <==> code == KickCode || code == DenyCode
  {
  }

  /**
   * The echo: a member's own chat frame is published on its room, comes back to its
   * own socket when that send succeeds, and the browser appends it although it is
   * the user's own message.
   */
  lemma {:induction false} OwnChatEchoed(m: ConnectionManager, roomId: int, userId: int, frame: map<string, Json>,
                                         ws: Socket, broken: set<Socket>, view: SignalClient.View, myId: string)
    requires GetOrNull(frame, "type") == JStr("chat")
    requires ws in m.Members(roomId) && ws !in broken
    ensures FrameEffects(roomId, userId, Encoded(JObj(frame))).Some?
    ensures Translate(userId, frame).Some? && Translate(userId, frame).value.JObj?
    ensures var payload := Translate(userId, frame).value;
      && Bus(PublishTo(roomId, payload)) in FrameEffects(roomId, userId, Encoded(JObj(frame))).value
      && SendText(ws, Encoded(payload)) in ListenerEffects(m, Channel(roomId), Encoded(payload), broken)
      && SignalClient.Reduce(view, payload.fields, myId) == Some(view.(messages := view.messages + [payload.fields]))
  {
    var payload := Translate(userId, frame).value;
    assert GetOrNull(payload.fields, "type") == JStr("chat");
    PublishedReachesRoom(m, roomId, payload, broken, ws);
    assert SignalClient.TypeIs(payload.fields, "chat");
    SignalClient.ChatAppended(view, payload.fields, myId);
  }

  /** The ids of an `existing_users` envelope as JSON numbers. */
  function IdItems(ids: seq<int>): (items: seq<Json>)
    ensures |items| == |ids| && forall k :: 0 <= k < |ids| ==> items[k] == JInt(ids[k])
  {
    seq(|ids|, i requires 0 <= i < |ids| => JInt(ids[i]))
  }

  /** `ids.map(String)` on JSON numbers is their decimal text. */
  lemma IdNames(ids: seq<int>)
    ensures forall u :: u in SignalClient.Strings(IdItems(ids)) <==> exists k :: 0 <= k < |ids| && u == Decimal.IntToString(ids[k])
  {
    var names := SignalClient.Strings(IdItems(ids));
    forall u
      ensures u in names <==> exists k :: 0 <= k < |ids| && u == Decimal.IntToString(ids[k])
    {
      if u in names {
        var k :| 0 <= k < |names| && names[k] == u;
        assert names[k] == SignalClient.JsonString(JInt(ids[k]));
      }
      if exists k :: 0 <= k < |ids| && u == Decimal.IntToString(ids[k]) {
        var k :| 0 <= k < |ids| && u == Decimal.IntToString(ids[k]);
        assert names[k] == u;
      }
    }
  }

  /** The roster the relay sends a joiner becomes the browser's user list, with its own id added. */
  lemma RosterReachesBrowser(ids: seq<int>, view: SignalClient.View, myId: string)
    ensures var msg := ExistingUsersMsg(ids).fields;
      && SignalClient.Reduce(view, msg, myId).Some?
      && (forall u :: u in SignalClient.Reduce(view, msg, myId).value.users <==>
            u == myId || exists k :: 0 <= k < |ids| && u == Decimal.IntToString(ids[k]))
  {
    var msg := ExistingUsersMsg(ids).fields;
    assert ExistingUsersMsg(ids) == JObj(map["type" := JStr("existing_users"), "ids" := JArr(IdItems(ids))]);
    assert SignalClient.Prop(msg, "ids") == SignalClient.Val(JArr(IdItems(ids)));
    assert SignalClient.TypeIs(msg, "existing_users");
    SignalClient.ExistingUsersRoster(view, msg, myId, IdItems(ids));
    IdNames(ids);
  }

  /** Another user's arrival announced by the relay adds that user, as decimal text, to the browser's roster. */
  lemma JoinAnnouncementReachesBrowser(userId: int, view: SignalClient.View, myId: string)
    requires Decimal.IntToString(userId) != myId
    ensures SignalClient.Classify(UserJoinedMsg(userId).fields, myId) == SignalClient.JoinedSignal(Decimal.IntToString(userId))
    ensures SignalClient.Classify(UserLeftMsg(userId).fields, myId) == SignalClient.LeftSignal(Decimal.IntToString(userId))
  {
    AnnouncementSender(UserJoinedMsg(userId).fields, "user_joined", userId, myId);
    AnnouncementSender(UserLeftMsg(userId).fields, "user_left", userId, myId);
  }

  /** An envelope `{type: kind, user_id: userId}` reaches the browser's branches with the decimal sender id. */
  lemma AnnouncementSender(msg: map<string, Json>, kind: string, userId: int, myId: string)
    requires msg == map["type" := JStr(kind), "user_id" := JInt(userId)]
    requires kind != "existing_users" && kind != "chat" && Decimal.IntToString(userId) != myId
    ensures SignalClient.TypeIs(msg, kind) && !SignalClient.TypeIs(msg, "existing_users") && !SignalClient.TypeIs(msg, "chat")
    ensures SignalClient.JsString(SignalClient.Prop(msg, "user_id")) == Decimal.IntToString(userId)
  {
    assert SignalClient.Prop(msg, "user_id") == SignalClient.Val(JInt(userId));
    assert SignalClient.Prop(msg, "type") == SignalClient.Val(JStr(kind));
  }

  /** After a successful ban over HTTP the Directory refuses that user's next join to the room. */
  method BanThenRejoin(db: Database, roomId: int, target: int, owner: int, publishSucceeds: bool)
    returns (banned: bool, allowed: bool, reason: string)
    requires db.Valid()
    modifies db
    ensures db.Valid()
    ensures banned ==> !allowed
    ensures banned <==> ManagementService.OwnedBy(old(db.rooms), roomId, owner) == Some(true) && target != owner && target in old(db.users)
  {
    var found := FindRoom(db.rooms, ById(roomId));
    assert found.Some? ==> ManagementService.OwnedBy(db.rooms, roomId, owner) == Some(found.value.createdBy == owner);
    var result, published := RoomsApi.BlockUserFromRoom(db, roomId, target, RoomsApi.DefaultBanReason, owner, publishSucceeds);
    banned := result.Ok?;
    if banned {
      RoomsApi.BlockLeavesBanned(old(db.users), old(db.bans), found.value, target, RoomsApi.DefaultBanReason, owner,
                                 publishSucceeds, result, published, db.bans);
    }
    allowed, reason := ManagementService.ValidateJoin(db, target, roomId);
  }
}
