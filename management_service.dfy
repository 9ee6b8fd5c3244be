/**
 * The Directory Service's gRPC handlers (management_layer/grpc_server.py) that the
 * Signaling Gateway and the moderation flow depend on. Each is an early-return
 * decision over the tables of a `Directory.Database`.
 */
module ManagementService {
  import opened Wrappers
  import opened Directory

  /** `f"{ban.reason}"`: a null reason prints as `None`. */
  function ReasonText(reason: Option<string>): (t: string)
    ensures reason.Some? ==> t == reason.value
    ensures reason.None? ==> t == "None"
  {
    match reason
    case None => "None"
    case Some(text) => text
  }

  /** The room and user pair some ban row names. */
  ghost predicate Banned(bans: seq<RoomBan>, roomId: int, userId: int) {
    exists k :: 0 <= k < |bans| && bans[k].roomId == roomId && bans[k].userId == userId
  }

  ghost predicate RoomExists(rooms: seq<Room>, roomId: int) {
    exists k :: 0 <= k < |rooms| && rooms[k].id == roomId
  }

  /** Whether the (first) room with that id was created by `userId`; `None` for no such room. */
  function OwnedBy(rooms: seq<Room>, roomId: int, userId: int): (r: Option<bool>)
    ensures r.None? <==> !RoomExists(rooms, roomId)
    ensures r.Some? ==> exists k :: 0 <= k < |rooms| && rooms[k].id == roomId && r.value == (rooms[k].createdBy == userId)
  {
    match FindRoom(rooms, ById(roomId))
    case None => None
    case Some(room) => Some(room.createdBy == userId)
  }

  /** The join gate: a missing room is reported before any ban. */
  method ValidateJoin(db: Database, userId: int, roomId: int) returns (allowed: bool, reason: string)
    ensures allowed <==> RoomExists(db.rooms, roomId) && !Banned(db.bans, roomId, userId)
    ensures !RoomExists(db.rooms, roomId) ==> reason == "Room not found"
    ensures RoomExists(db.rooms, roomId) && Banned(db.bans, roomId, userId) ==>
      exists k :: 0 <= k < |db.bans| && db.bans[k].roomId == roomId && db.bans[k].userId == userId
        && reason == "Banned: " + ReasonText(db.bans[k].reason)
    ensures allowed ==> reason == "OK"
  {
    var room := FindRoom(db.rooms, ById(roomId));
    if room.None? {
      return false, "Room not found";
    }
    var ban := FindBan(db.bans, roomId, userId);
    if ban.Some? {
      var k :| 0 <= k < |db.bans| && db.bans[k] == ban.value;
      return false, "Banned: " + ReasonText(ban.value.reason);
    }
    return true, "OK";
  }

  /** The row update of both counters: only rows with that id change, each by `f`. */
  ghost predicate UpdatedRows(before: seq<Room>, after: seq<Room>, roomId: int, joined: bool) {
    && |after| == |before|
    && forall k :: 0 <= k < |before| ==>
         after[k] == (if before[k].id != roomId then before[k] else if joined then Joined(before[k]) else Left(before[k]))
  }

  /** Rewrites the (unique) row with that id, if any. */
  method UpdateRoom(db: Database, roomId: int, joined: bool)
    requires db.Valid()
    modifies db
    ensures db.Valid()
    ensures UpdatedRows(old(db.rooms), db.rooms, roomId, joined)
    ensures db.users == old(db.users) && db.bans == old(db.bans) && db.messages == old(db.messages)
    ensures db.nextRoomId == old(db.nextRoomId)
  {
    var k := RoomIndex(db.rooms, roomId);
    if k.Some? {
      var row := db.rooms[k.value];
      db.rooms := db.rooms[k.value := if joined then Joined(row) else Left(row)];
    }
  }

  /** A participant arrived: an existing room counts one more and is active again. */
  method UserJoined(db: Database, userId: int, roomId: int) returns (allowed: bool, reason: string)
    requires db.Valid()
    modifies db
    ensures db.Valid()
    ensures allowed && reason == "Joined"
    ensures UpdatedRows(old(db.rooms), db.rooms, roomId, true)
    ensures db.users == old(db.users) && db.bans == old(db.bans) && db.messages == old(db.messages)
    ensures db.nextRoomId == old(db.nextRoomId)
  {
    UpdateRoom(db, roomId, true);
    return true, "Joined";
  }

  /** A participant left: the counter drops, clamped at zero, where the room goes inactive. */
  method UserLeft(db: Database, userId: int, roomId: int) returns (allowed: bool, reason: string)
    requires db.Valid()
    modifies db
    ensures db.Valid()
    ensures allowed && reason == "Left"
    ensures UpdatedRows(old(db.rooms), db.rooms, roomId, false)
    ensures db.users == old(db.users) && db.bans == old(db.bans) && db.messages == old(db.messages)
    ensures db.nextRoomId == old(db.nextRoomId)
  {
    UpdateRoom(db, roomId, false);
    return true, "Left";
  }

  /** Persists one chat message unless the sender is banned from the room. */
  method StoreMessage(db: Database, userId: int, roomId: int, content: string) returns (success: bool)
    requires db.Valid()
    modifies db
    ensures db.Valid()
    ensures success <==> !Banned(old(db.bans), roomId, userId)
    ensures db.messages == old(db.messages) + (if success then [Message(roomId, userId, content)] else [])
    ensures db.users == old(db.users) && db.rooms == old(db.rooms) && db.bans == old(db.bans)
    ensures db.nextRoomId == old(db.nextRoomId)
  {
    var ban := FindBan(db.bans, roomId, userId);
    if ban.Some? {
      return false;
    }
    db.messages := db.messages + [Message(roomId, userId, content)];
    return true;
  }

  /**
   * The owner bans a user from a room. The checks run in order (room, owner,
   * self); an existing ban is already a success. No kick is published here.
   */
  method BlockUser(db: Database, requesterId: int, roomId: int, userToBlockId: int, reason: string)
    returns (success: bool, error: string)
    requires db.Valid()
    modifies db
    ensures db.Valid()
    ensures !RoomExists(old(db.rooms), roomId) ==> !success && error == "Room not found"
    ensures OwnedBy(old(db.rooms), roomId, requesterId) == Some(false) ==> !success && error == "Only room owner can block"
    ensures OwnedBy(old(db.rooms), roomId, requesterId) == Some(true) && userToBlockId == requesterId ==>
      !success && error == "Cannot block yourself"
    ensures success <==> OwnedBy(old(db.rooms), roomId, requesterId) == Some(true) && userToBlockId != requesterId
    ensures success ==> error == ""
    ensures db.bans == old(db.bans) + (if success && !Banned(old(db.bans), roomId, userToBlockId)
                                       then [RoomBan(roomId, userToBlockId, Some(reason))] else [])
    ensures success ==> Banned(db.bans, roomId, userToBlockId)
    ensures db.users == old(db.users) && db.rooms == old(db.rooms) && db.messages == old(db.messages)
    ensures db.nextRoomId == old(db.nextRoomId)
  {
    var room := FindRoom(db.rooms, ById(roomId));
    if room.None? {
      return false, "Room not found";
    }
    assert OwnedBy(db.rooms, roomId, requesterId) == Some(room.value.createdBy == requesterId);
    if room.value.createdBy != requesterId {
      return false, "Only room owner can block";
    }
    if userToBlockId == requesterId {
      return false, "Cannot block yourself";
    }
    var existing := FindBan(db.bans, roomId, userToBlockId);
    if existing.Some? {
      return true, "";
    }
    db.bans := db.bans + [RoomBan(roomId, userToBlockId, Some(reason))];
    assert db.bans[|db.bans| - 1].roomId == roomId;
    return true, "";
  }

  /** `RoomResponse`: what a listing shows of a room. */
  datatype RoomResponse = RoomResponse(id: int, name: string, maxParticipants: int, currentParticipants: int)

  function ResponseOf(room: Room): RoomResponse {
    RoomResponse(room.id, room.name, room.maxParticipants, room.currentParticipants)
  }

  /** Lists the active rooms, in the order of the `rooms` sequence. */
  method ListRooms(db: Database) returns (response: seq<RoomResponse>)
    ensures |response| == |ActiveRooms(db.rooms)|
    ensures forall i :: 0 <= i < |response| ==> response[i] == ResponseOf(ActiveRooms(db.rooms)[i])
  {
    var rows := ActiveRooms(db.rooms);
    response := [];
    for i := 0 to |rows|
      invariant |response| == i
      invariant forall j :: 0 <= j < i ==> response[j] == ResponseOf(rows[j])
    {
      response := response + [ResponseOf(rows[i])];
    }
  }

  /**
   * Once the last participant of a room leaves, the room is no longer listed
   * (the clean-up step of management_layer/test_scenario.py).
   */
  lemma {:induction false} LastLeaverUnlists(before: seq<Room>, after: seq<Room>, roomId: int)
    requires forall i, j :: 0 <= i < j < |before| ==> before[i].id != before[j].id
    requires forall k :: 0 <= k < |before| && before[k].id == roomId ==> before[k].currentParticipants <= 1
    requires UpdatedRows(before, after, roomId, false)
    ensures forall x :: x in ActiveRooms(after) ==> x.id != roomId
  {
    forall x | x in ActiveRooms(after)
      ensures x.id != roomId
    {
      ActiveRoomsMembers(after, x);
      var k :| 0 <= k < |after| && after[k] == x;
    }
  }

  /** A joined room is listed again, whatever its state was. */
  lemma {:induction false} JoinedRoomListed(before: seq<Room>, after: seq<Room>, roomId: int)
    requires RoomExists(before, roomId)
    requires UpdatedRows(before, after, roomId, true)
    ensures exists x :: x in ActiveRooms(after) && x.id == roomId
  {
    var k :| 0 <= k < |before| && before[k].id == roomId;
    ActiveRoomsMembers(after, after[k]);
    assert after[k] in ActiveRooms(after);
  }
}
