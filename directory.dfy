/**
 * The Directory Service's tables (management_layer/models.py) and the lookups the
 * handlers run on them. A table is a sequence of rows in the order the database
 * returns them (the queries have no ORDER BY), so a query's `.first()` is the
 * earliest matching row.
 */
module Directory {
  import opened Wrappers

  datatype Room = Room(
    id: int,
    name: string,
    maxParticipants: int,
    currentParticipants: int,
    isActive: bool,
    createdBy: int)

  /** `reason` is a nullable column. */
  datatype RoomBan = RoomBan(roomId: int, userId: int, reason: Option<string>)

  datatype Message = Message(roomId: int, userId: int, content: string)

  /** The column a room query filters on: `Room.id == id` or `Room.name == name`. */
  datatype RoomKey = ById(id: int) | ByName(name: string)

  predicate HasKey(room: Room, key: RoomKey) {
    match key
    case ById(id) => room.id == id
    case ByName(name) => room.name == name
  }

  /** `query(Room).filter(...).first()` on the key's column. */
  function FindRoom(rooms: seq<Room>, key: RoomKey): (r: Option<Room>)
    ensures r.Some? ==> r.value in rooms && HasKey(r.value, key)
    ensures r.None? ==> forall k :: 0 <= k < |rooms| ==> !HasKey(rooms[k], key)
  {
    if rooms == [] then None
    else if HasKey(rooms[0], key) then Some(rooms[0])
    else FindRoom(rooms[1..], key)
  }

  /** The position of the room with that id, where an update writes. */
  function RoomIndex(rooms: seq<Room>, id: int): (k: Option<nat>)
    ensures k.Some? ==> k.value < |rooms| && rooms[k.value].id == id
    ensures k.None? ==> forall j :: 0 <= j < |rooms| ==> rooms[j].id != id
  {
    if rooms == [] then None
    else if rooms[0].id == id then Some(0)
    else var k := RoomIndex(rooms[1..], id); if k.Some? then Some(k.value + 1) else None
  }

  /** `query(RoomBan).filter(room_id == r, user_id == u).first()`. */
  function FindBan(bans: seq<RoomBan>, roomId: int, userId: int): (b: Option<RoomBan>)
    ensures b.Some? ==> b.value in bans && b.value.roomId == roomId && b.value.userId == userId
    ensures b.None? ==> forall k :: 0 <= k < |bans| ==> !(bans[k].roomId == roomId && bans[k].userId == userId)
  {
    if bans == [] then None
    else if bans[0].roomId == roomId && bans[0].userId == userId then Some(bans[0])
    else FindBan(bans[1..], roomId, userId)
  }

  /** `query(Room).filter(Room.is_active == True).all()`, in the sequence's order. */
  function ActiveRooms(rooms: seq<Room>): (r: seq<Room>)
    ensures |r| <= |rooms|
    ensures forall x :: x in r ==> x in rooms && x.isActive
  {
    if rooms == [] then []
    else ActiveRooms(rooms[..|rooms| - 1]) + (if rooms[|rooms| - 1].isActive then [rooms[|rooms| - 1]] else [])
  }

  /** A room is listed exactly when it is in the table and active. */
  lemma {:induction false} ActiveRoomsMembers(rooms: seq<Room>, x: Room)
    ensures x in ActiveRooms(rooms) <==> x in rooms && x.isActive
  {
    if rooms != [] {
      ActiveRoomsMembers(rooms[..|rooms| - 1], x);
      assert rooms == rooms[..|rooms| - 1] + [rooms[|rooms| - 1]];
    }
  }

  /** `UserJoined` on a room row. */
  function Joined(room: Room): (r: Room)
    ensures r.id == room.id && r.name == room.name && r.createdBy == room.createdBy
    ensures r.isActive && r.currentParticipants == room.currentParticipants + 1
  {
    room.(currentParticipants := room.currentParticipants + 1, isActive := true)
  }

  /** `UserLeft` on a room row: the counter is clamped at zero, which deactivates the room. */
  function Left(room: Room): (r: Room)
    ensures r.id == room.id && r.name == room.name && r.createdBy == room.createdBy
    ensures r.currentParticipants >= 0
    ensures r.isActive ==> r.currentParticipants > 0
    ensures room.currentParticipants <= 1 ==> !r.isActive && r.currentParticipants == 0
    ensures room.currentParticipants > 1 ==> r.isActive == room.isActive && r.currentParticipants == room.currentParticipants - 1
  {
    var c := room.currentParticipants - 1;
    if c <= 0 then room.(currentParticipants := 0, isActive := false) else room.(currentParticipants := c)
  }

  /** A leave after a join restores an occupied room; the last leaver leaves it inactive. */
  lemma LeftAfterJoined(room: Room)
    requires room.currentParticipants >= 0 && (room.currentParticipants > 0 ==> room.isActive)
    ensures room.currentParticipants > 0 ==> Left(Joined(room)) == room
    ensures room.currentParticipants == 0 ==> Left(Joined(room)) == room.(isActive := false)
  {
  }

  /** The row property both updates keep: the counter is never negative and an inactive room is empty. */
  ghost predicate WellCounted(room: Room) {
    room.currentParticipants >= 0 && (!room.isActive ==> room.currentParticipants == 0)
  }

  class Database {
    var users: map<int, string>   // users.id -> users.username
    var rooms: seq<Room>
    var bans: seq<RoomBan>
    var messages: seq<Message>
    /** The id the next inserted room receives. */
    var nextRoomId: int

    /**
     * Room ids and names are unique (primary key and unique column), ids already
     * handed out are below `nextRoomId`, counters are well kept, and the ban paths
     * never create two bans for the same room and user.
     */
    ghost predicate Valid()
      reads this
    {
      && (forall i, j :: 0 <= i < j < |rooms| ==> rooms[i].id != rooms[j].id && rooms[i].name != rooms[j].name)
      && (forall i :: 0 <= i < |rooms| ==> rooms[i].id < nextRoomId && WellCounted(rooms[i]))
      && (forall i, j :: 0 <= i < j < |bans| ==> !(bans[i].roomId == bans[j].roomId && bans[i].userId == bans[j].userId))
    }

    constructor (registered: map<int, string>)
      ensures Valid()
      ensures users == registered && rooms == [] && bans == [] && messages == [] && nextRoomId == 1
    {
      users, rooms, bans, messages, nextRoomId := registered, [], [], [], 1;
    }
  }
}
