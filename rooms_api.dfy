/**
 * The Directory Service's HTTP room endpoints (management_layer/rooms.py): room
 * creation with the duplicate-name check, lookup, the active listing, and the
 * moderation endpoint that bans a user and publishes the kick the relay enforces.
 * The caller is the already authenticated `current_user`, given by id.
 */
module RoomsApi {
  import opened Wrappers
  import opened Json
  import opened Directory
  import opened EventBus

  /** `HTTPException(status_code, detail)`. */
  datatype HttpError = HttpError(status: int, detail: string)

  /** The default of the endpoint's `reason` query parameter. */
  const DefaultBanReason: string := "Banned by admin"

  /** `POST /rooms/`: a fresh active, empty room owned by the caller, unless the name is taken. */
  method CreateRoom(db: Database, name: string, maxParticipants: int, currentUserId: int)
    returns (result: Result<Room, HttpError>)
    requires db.Valid()
    modifies db
    ensures db.Valid()
    ensures FindRoom(old(db.rooms), ByName(name)).Some? ==>
      && result == Err(HttpError(400, "Room already exists"))
      && db.rooms == old(db.rooms) && db.nextRoomId == old(db.nextRoomId)
    ensures FindRoom(old(db.rooms), ByName(name)).None? ==>
      && result == Ok(Room(old(db.nextRoomId), name, maxParticipants, 0, true, currentUserId))
      && db.rooms == old(db.rooms) + [result.value]
      && db.nextRoomId == old(db.nextRoomId) + 1
    ensures db.users == old(db.users) && db.bans == old(db.bans) && db.messages == old(db.messages)
  {
    var existing := FindRoom(db.rooms, ByName(name));
    if existing.Some? {
      return Err(HttpError(400, "Room already exists"));
    }
    var room := Room(db.nextRoomId, name, maxParticipants, 0, true, currentUserId);
    db.rooms := db.rooms + [room];
    db.nextRoomId := db.nextRoomId + 1;
    return Ok(room);
  }

  /** `GET /rooms/{room_id}`. */
  function GetRoom(db: Database, roomId: int): (r: Result<Room, HttpError>)
    reads db
    ensures r.Ok? ==> r.value in db.rooms && r.value.id == roomId
    ensures r.Err? <==> forall k :: 0 <= k < |db.rooms| ==> db.rooms[k].id != roomId
    ensures r.Err? ==> r.error == HttpError(404, "Room not found")
  {
    match FindRoom(db.rooms, ById(roomId))
    case None => Err(HttpError(404, "Room not found"))
    case Some(room) => Ok(room)
  }

  /** `GET /rooms/`: a room is listed exactly when it is active. */
  function ListRooms(db: Database): (r: seq<Room>)
    reads db
    ensures forall x :: x in r <==> x in db.rooms && x.isActive
  {
    var listed := ActiveRooms(db.rooms);
    assert forall x :: x in listed <==> x in db.rooms && x.isActive by {
      forall x {
        ActiveRoomsMembers(db.rooms, x);
      }
    }
    listed
  }

  /** The kick published for a new ban: `{"type": "system_kick", "user_id": target}` on the room's channel. */
  function KickNotice(roomId: int, target: int): (cmd: BusCommand)
    ensures cmd.PublishCmd? && cmd.channel == Channel(roomId)
    ensures Decode(cmd.data).Some? && Decode(cmd.data).value.JObj?
    ensures Decode(cmd.data).value.fields.Keys == {"type", "user_id"}
    ensures GetOrNull(Decode(cmd.data).value.fields, "type") == JStr("system_kick")
    ensures GetOrNull(Decode(cmd.data).value.fields, "user_id") == JInt(target)
  {
    PublishTo(roomId, JObj(map["type" := JStr("system_kick"), "user_id" := JInt(target)]))
  }

  /**
   * `POST /rooms/{room_id}/block`. The checks run in order: room, creator, self,
   * target user. An existing ban is reported and nothing is published. Otherwise
   * exactly one ban is committed and then the kick is published; `publishSucceeds`
   * is whether the bus accepted it, and a failure is swallowed.
   */
  method BlockUserFromRoom(db: Database, roomId: int, userToBlockId: int, reason: string, currentUserId: int,
                           publishSucceeds: bool)
    returns (result: Result<string, HttpError>, published: Option<BusCommand>)
    requires db.Valid()
    modifies db
    ensures db.Valid()
    ensures FindRoom(old(db.rooms), ById(roomId)).None? ==> result == Err(HttpError(404, "Room not found"))
    ensures FindRoom(old(db.rooms), ById(roomId)).Some? ==> BlockOutcome(old(db.users), old(db.bans), FindRoom(old(db.rooms), ById(roomId)).value,
      userToBlockId, reason, currentUserId, publishSucceeds, result, published, db.bans)
    ensures FindRoom(old(db.rooms), ById(roomId)).None? ==> db.bans == old(db.bans) && published == None
    ensures db.users == old(db.users) && db.rooms == old(db.rooms) && db.messages == old(db.messages)
    ensures db.nextRoomId == old(db.nextRoomId)
  {
    var found := FindRoom(db.rooms, ById(roomId));
    if found.None? {
      return Err(HttpError(404, "Room not found")), None;
    }
    var room := found.value;
    if room.createdBy != currentUserId {
      return Err(HttpError(403, "Only room creator can ban users")), None;
    }
    if userToBlockId == currentUserId {
      return Err(HttpError(400, "Cannot ban yourself")), None;
    }
    if userToBlockId !in db.users {
      return Err(HttpError(404, "User not found")), None;
    }
    var existing := FindBan(db.bans, room.id, userToBlockId);
    if existing.Some? {
      return Ok("User already banned"), None;
    }
    db.bans := db.bans + [RoomBan(room.id, userToBlockId, Some(reason))];
    assert db.bans[|db.bans| - 1].roomId == room.id;
    published := if publishSucceeds then Some(KickNotice(room.id, userToBlockId)) else None;
    result := Ok("User " + db.users[userToBlockId] + " banned from room " + room.name);
  }

  /** What the endpoint does once the room is found: the remaining checks, in order, and the ban. */
  ghost predicate BlockOutcome(users: map<int, string>, bans: seq<RoomBan>, room: Room, userToBlockId: int, reason: string,
                               currentUserId: int, publishSucceeds: bool,
                               result: Result<string, HttpError>, published: Option<BusCommand>, newBans: seq<RoomBan>)
  {
    if room.createdBy != currentUserId then
      result == Err(HttpError(403, "Only room creator can ban users")) && newBans == bans && published == None
    else if userToBlockId == currentUserId then
      result == Err(HttpError(400, "Cannot ban yourself")) && newBans == bans && published == None
    else if userToBlockId !in users then
      result == Err(HttpError(404, "User not found")) && newBans == bans && published == None
    else if FindBan(bans, room.id, userToBlockId).Some? then
      result == Ok("User already banned") && newBans == bans && published == None
    else
      && newBans == bans + [RoomBan(room.id, userToBlockId, Some(reason))]
      && published == (if publishSucceeds then Some(KickNotice(room.id, userToBlockId)) else None)
      && result == Ok("User " + users[userToBlockId] + " banned from room " + room.name)
  }

  /** A successful ban request leaves the user banned, adds at most one row, and publishes only the kick. */
  lemma BlockLeavesBanned(users: map<int, string>, bans: seq<RoomBan>, room: Room, userToBlockId: int, reason: string,
                        currentUserId: int, publishSucceeds: bool,
                        result: Result<string, HttpError>, published: Option<BusCommand>, newBans: seq<RoomBan>)
    requires BlockOutcome(users, bans, room, userToBlockId, reason, currentUserId, publishSucceeds, result, published, newBans)
    requires result.Ok?
    ensures exists k :: 0 <= k < |newBans| && newBans[k].roomId == room.id && newBans[k].userId == userToBlockId
    ensures published.Some? ==> published == Some(KickNotice(room.id, userToBlockId))
    ensures |newBans| <= |bans| + 1
  {
    if FindBan(bans, room.id, userToBlockId).Some? {
      var b := FindBan(bans, room.id, userToBlockId).value;
      var k :| 0 <= k < |bans| && bans[k] == b;
      assert newBans[k] == b;
    } else {
      assert newBans[|bans|].userId == userToBlockId;
    }
  }
}
