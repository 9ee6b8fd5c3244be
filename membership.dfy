/**
 * The membership registry of one relay process (signaling_layer/connection_manager.py):
 * room -> list of sockets, socket -> room, socket -> user, and the primitives over them.
 */
module Membership {
  import opened Wrappers
  import opened Json

  /** An accepted WebSocket, compared by identity. */
  type Socket = nat

  /** The close status and reason a kicked socket receives. */
  const KickCode: int := 4003
  const KickReason: string := "You have been blocked from this room."

  datatype CloseCommand = CloseCommand(socket: Socket, code: int, reason: string)

  /** Python's `list.remove(x)`: the first occurrence of `x` is dropped. */
  function RemoveFirst(s: seq<Socket>, x: Socket): (r: seq<Socket>)
    ensures x in s ==> |r| == |s| - 1
    ensures x !in s ==> r == s
    ensures forall y :: y in r ==> y in s
    ensures forall y :: y in s && y != x ==> y in r
  {
    if s == [] then []
    else if s[0] == x then s[1..]
    else [s[0]] + RemoveFirst(s[1..], x)
  }

  /** Removing one occurrence from a duplicate-free list leaves no occurrence. */
  lemma {:induction false} RemoveFirstNoDup(s: seq<Socket>, x: Socket)
    requires NoDup(s)
    ensures NoDup(RemoveFirst(s, x)) && x !in RemoveFirst(s, x)
  {
    if s != [] && s[0] != x {
      assert NoDup(s[1..]) by {
        forall i, j | 0 <= i < j < |s[1..]| ensures s[1..][i] != s[1..][j] {
          assert s[1..][i] == s[i + 1] && s[1..][j] == s[j + 1];
        }
      }
      RemoveFirstNoDup(s[1..], x);
      var r := RemoveFirst(s[1..], x);
      assert s[0] !in r by {
        assert s[0] !in s[1..];
      }
      forall i, j | 0 <= i < j < |[s[0]] + r| ensures ([s[0]] + r)[i] != ([s[0]] + r)[j] {
        if i > 0 {
          assert ([s[0]] + r)[i] == r[i - 1];
        }
      }
    } else if s != [] {
      forall i, j | 0 <= i < j < |s[1..]| ensures s[1..][i] != s[1..][j] {
        assert s[1..][i] == s[i + 1] && s[1..][j] == s[j + 1];
      }
      forall k | 0 <= k < |s[1..]| ensures s[1..][k] != x {
        assert s[1..][k] == s[k + 1];
      }
    }
  }

  /** The elements of `s` that are not in `drop`, in the order of `s`. */
  function Without(s: seq<Socket>, drop: set<Socket>): (r: seq<Socket>)
    ensures |r| <= |s|
  {
    if s == [] then []
    else Without(s[..|s| - 1], drop) + (if s[|s| - 1] in drop then [] else [s[|s| - 1]])
  }

  /** The filter over a list extended by one socket. */
  lemma WithoutSnoc(s: seq<Socket>, x: Socket, drop: set<Socket>)
    ensures Without(s + [x], drop) == Without(s, drop) + (if x in drop then [] else [x])
  {
    assert (s + [x])[..|s|] == s;
  }

  /** One iteration of the broadcast loop, on values: the socket at `i` is attempted unless excluded, delivered unless broken. */
  lemma BroadcastStep(members: seq<Socket>, i: nat, exclude: Option<Socket>, broken: set<Socket>, attempted: seq<Socket>)
    requires i < |members| && attempted == Without(members[..i], ExcludeSet(exclude))
    ensures var c := members[i];
      var next := if Some(c) != exclude then attempted + [c] else attempted;
      && next == Without(members[..i + 1], ExcludeSet(exclude))
      && Without(next, broken) == Without(attempted, broken) + (if Some(c) != exclude && c !in broken then [c] else [])
  {
    var c := members[i];
    assert members[..i + 1] == members[..i] + [c];
    WithoutSnoc(members[..i], c, ExcludeSet(exclude));
    if Some(c) != exclude {
      assert c !in ExcludeSet(exclude);
      WithoutSnoc(attempted, c, broken);
    } else {
      assert c in ExcludeSet(exclude);
    }
  }

  /** The socket a broadcast skips: `exclude=None` skips nothing. */
  function ExcludeSet(exclude: Option<Socket>): set<Socket> {
    if exclude.Some? then {exclude.value} else {}
  }

  /** A socket survives the filter exactly when it is in the list and not dropped. */
  lemma {:induction false} WithoutMembers(s: seq<Socket>, drop: set<Socket>, x: Socket)
    ensures x in Without(s, drop) <==> x in s && x !in drop
  {
    if s != [] {
      WithoutMembers(s[..|s| - 1], drop, x);
      assert s == s[..|s| - 1] + [s[|s| - 1]];
    }
  }

  /** With nothing to drop, every socket of the list is kept, in list order. */
  lemma {:induction false} WithoutNothing(s: seq<Socket>)
    ensures Without(s, {}) == s
  {
    if s != [] {
      WithoutNothing(s[..|s| - 1]);
    }
  }

  /** Filtering distributes over concatenation: a dropped socket never holds back later ones. */
  lemma {:induction false} WithoutAppend(s: seq<Socket>, t: seq<Socket>, drop: set<Socket>)
    ensures Without(s + t, drop) == Without(s, drop) + Without(t, drop)
    decreases |t|
  {
    if t == [] {
      assert s + t == s;
    } else {
      var init, last := t[..|t| - 1], t[|t| - 1];
      var kept := if last in drop then [] else [last];
      calc {
        Without(s + t, drop);
        { assert s + t == (s + init) + [last]; }
        Without((s + init) + [last], drop);
        { WithoutSnoc(s + init, last, drop); }
        Without(s + init, drop) + kept;
        { WithoutAppend(s, init, drop); }
        (Without(s, drop) + Without(init, drop)) + kept;
        Without(s, drop) + (Without(init, drop) + kept);
        { assert t == init + [last]; WithoutSnoc(init, last, drop); }
        Without(s, drop) + Without(t, drop);
      }
    }
  }

  /** Dropping in two rounds is dropping the union once. */
  lemma {:induction false} WithoutWithout(s: seq<Socket>, a: set<Socket>, b: set<Socket>)
    ensures Without(Without(s, a), b) == Without(s, a + b)
  {
    if s != [] {
      WithoutWithout(s[..|s| - 1], a, b);
      var w := Without(s[..|s| - 1], a);
      var last := s[|s| - 1];
      if last !in a {
        var v := w + [last];
        assert Without(s, a) == v;
        assert v[..|v| - 1] == w && v[|v| - 1] == last;
        assert Without(v, b) == Without(w, b) + (if last in b then [] else [last]);
      } else {
        assert Without(s, a) == w;
      }
    }
  }

  /**
   * Python's `socket_to_user.get(ws) == user_id` where `user_id` comes from decoded
   * JSON: None equals only None (null or a missing key), and True and False
   * compare equal to 1 and 0.
   */
  function SameUser(registered: Option<int>, target: Json): (b: bool)
    ensures registered.None? ==> (b <==> target == JNull)
    ensures registered.Some? ==>
      (b <==> target == JInt(registered.value)
              || (registered.value == 1 && target == JBool(true))
              || (registered.value == 0 && target == JBool(false)))
  {
    match target
    case JNull => registered.None?
    case JInt(i) => registered == Some(i)
    case JBool(b) => registered == Some(if b then 1 else 0)
    case _ => false
  }

  /** The first socket of the list whose registered user equals the target. */
  function FirstMatch(s: seq<Socket>, users: map<Socket, int>, target: Json): (r: Option<Socket>)
    ensures r.Some? ==> r.value in s && SameUser(Get(users, r.value), target)
    ensures r.None? ==> forall k :: 0 <= k < |s| ==> !SameUser(Get(users, s[k]), target)
  {
    if s == [] then None
    else if SameUser(Get(users, s[0]), target) then Some(s[0])
    else FirstMatch(s[1..], users, target)
  }

  /** The close `kick_user` issues for the socket it found, if any. */
  function KickOf(found: Option<Socket>): (close: Option<CloseCommand>)
    ensures close.Some? <==> found.Some?
    ensures close.Some? ==> close.value == CloseCommand(found.value, KickCode, KickReason)
  {
    if found.Some? then Some(CloseCommand(found.value, KickCode, KickReason)) else None
  }

  /**
   * FirstMatch finds the earliest socket whose user is the target, and finds nothing
   * only when no socket of the list has that user.
   */
  lemma {:induction false} FirstMatchSpec(s: seq<Socket>, users: map<Socket, int>, target: Json)
    ensures FirstMatch(s, users, target).Some? ==>
      exists k :: 0 <= k < |s| && s[k] == FirstMatch(s, users, target).value
        && SameUser(Get(users, s[k]), target)
        && forall j :: 0 <= j < k ==> !SameUser(Get(users, s[j]), target)
    ensures FirstMatch(s, users, target).None? ==>
      forall k :: 0 <= k < |s| ==> !SameUser(Get(users, s[k]), target)
  {
    if s != [] && !SameUser(Get(users, s[0]), target) {
      FirstMatchSpec(s[1..], users, target);
      var tail := s[1..];
      if FirstMatch(tail, users, target).Some? {
        var k :| 0 <= k < |tail| && tail[k] == FirstMatch(tail, users, target).value
          && SameUser(Get(users, tail[k]), target)
          && forall j :: 0 <= j < k ==> !SameUser(Get(users, tail[j]), target);
        assert s[k + 1] == tail[k];
        forall j | 0 <= j < k + 1 ensures !SameUser(Get(users, s[j]), target) {
          if j > 0 { assert s[j] == tail[j - 1]; }
        }
      } else {
        forall k | 0 <= k < |s| ensures !SameUser(Get(users, s[k]), target) {
          if k > 0 { assert s[k] == tail[k - 1]; }
        }
      }
    } else if s != [] {
      assert s[0] == FirstMatch(s, users, target).value;
    }
  }

  /** The room table after socket `ws` leaves room `r`'s list; an emptied list loses its key. */
  function Detached(table: map<int, seq<Socket>>, r: int, ws: Socket): map<int, seq<Socket>> {
    var rest := RemoveFirst(if r in table then table[r] else [], ws);
    if rest == [] then table - {r} else table[r := rest]
  }

  /**
   * The registry's three tables agree. The one exception is room 0: `disconnect`
   * takes the room id as false there, so the socket stays in room 0's list after its
   * reverse entries are gone.
   */
  ghost predicate Coherent(table: map<int, seq<Socket>>, rooms: map<Socket, int>, users: map<Socket, int>) {
    && rooms.Keys == users.Keys
    && (forall r :: r in table ==> table[r] != [] && NoDup(table[r]))
    && (forall ws :: ws in rooms ==> rooms[ws] in table && ws in table[rooms[ws]])
    && (forall r, ws :: r in table && ws in table[r] ==> if ws in rooms then rooms[ws] == r else r == 0)
  }

  /** Dropping a socket of a nonzero room from all three tables keeps them coherent and leaves it in no list. */
  lemma DetachedCoherent(table: map<int, seq<Socket>>, rooms: map<Socket, int>, users: map<Socket, int>, ws: Socket)
    requires Coherent(table, rooms, users) && ws in rooms && rooms[ws] != 0
    ensures Coherent(Detached(table, rooms[ws], ws), rooms - {ws}, users - {ws})
    ensures forall r :: r in Detached(table, rooms[ws], ws) ==> ws !in Detached(table, rooms[ws], ws)[r]
  {
    var r := rooms[ws];
    RemoveFirstNoDup(table[r], ws);
    var after := Detached(table, r, ws);
    forall q, w | q in after && w in after[q]
      ensures w in table[q] && w != ws
    {
      if q == r {
        assert after[q] == RemoveFirst(table[r], ws);
      }
    }
  }

  /** Adding an unseen socket at the end of a room's list and to both reverse maps keeps the tables coherent. */
  lemma AttachedCoherent(table: map<int, seq<Socket>>, rooms: map<Socket, int>, users: map<Socket, int>,
                         ws: Socket, r: int, u: int)
    requires Coherent(table, rooms, users)
    requires ws !in rooms && forall q :: q in table ==> ws !in table[q]
    ensures Coherent(table[r := (if r in table then table[r] else []) + [ws]], rooms[ws := r], users[ws := u])
  {
    var list := (if r in table then table[r] else []) + [ws];
    assert NoDup(list) by {
      forall i, j | 0 <= i < j < |list| ensures list[i] != list[j] {
        if j == |list| - 1 {
          assert list[i] in table[r];
        }
      }
    }
  }

  /** Dropping a socket of room 0 from the reverse maps only keeps the tables coherent. */
  lemma ForgottenCoherent(table: map<int, seq<Socket>>, rooms: map<Socket, int>, users: map<Socket, int>, ws: Socket)
    requires Coherent(table, rooms, users) && (ws in rooms ==> rooms[ws] == 0)
    ensures Coherent(table, rooms - {ws}, users - {ws})
  {
  }

  class ConnectionManager {
    var activeConnections: map<int, seq<Socket>>
    var socketToRoom: map<Socket, int>
    var socketToUser: map<Socket, int>

    /** The three tables agree (see `Coherent`). */
    ghost predicate Valid()
      reads this
    {
      Coherent(activeConnections, socketToRoom, socketToUser)
    }

    /** `active_connections[room_id]` read through the defaultdict: empty when absent. */
    function Members(roomId: int): seq<Socket>
      reads this
    {
      if roomId in activeConnections then activeConnections[roomId] else []
    }

    /** A socket the registry has never held: a newly accepted WebSocket. */
    ghost predicate Unseen(ws: Socket)
      reads this
    {
      ws !in socketToRoom && forall r :: r in activeConnections ==> ws !in activeConnections[r]
    }

    /** The distinct nonzero users registered for sockets in the room's list. */
    ghost function UserSet(roomId: int): set<int>
      reads this
    {
      set ws | ws in Members(roomId) && ws in socketToUser && socketToUser[ws] != 0 :: socketToUser[ws]
    }

    constructor ()
      ensures Valid()
      ensures activeConnections == map[] && socketToRoom == map[] && socketToUser == map[]
    {
      activeConnections, socketToRoom, socketToUser := map[], map[], map[];
    }

    /** `connect`: the socket joins the end of the room's list and both reverse maps. */
    method Connect(ws: Socket, roomId: int, userId: int)
      requires Valid() && Unseen(ws)
      modifies this
      ensures Valid()
      ensures activeConnections == old(activeConnections)[roomId := old(Members(roomId)) + [ws]]
      ensures socketToRoom == old(socketToRoom)[ws := roomId]
      ensures socketToUser == old(socketToUser)[ws := userId]
      ensures userId != 0 ==> userId in UserSet(roomId)
    {
      AttachedCoherent(activeConnections, socketToRoom, socketToUser, ws, roomId, userId);
      activeConnections := activeConnections[roomId := Members(roomId) + [ws]];
      socketToRoom := socketToRoom[ws := roomId];
      socketToUser := socketToUser[ws := userId];
      assert ws in Members(roomId) && socketToUser[ws] == userId;
    }

    /**
     * `disconnect`: returns what the reverse maps held for the socket and removes it.
     * A socket that is already gone yields (None, None) and changes nothing.
     */
    method Disconnect(ws: Socket) returns (roomId: Option<int>, userId: Option<int>)
      requires Valid()
      modifies this
      ensures Valid()
      ensures roomId == Get(old(socketToRoom), ws) && userId == Get(old(socketToUser), ws)
      ensures socketToRoom == old(socketToRoom) - {ws} && socketToUser == old(socketToUser) - {ws}
      ensures activeConnections ==
        if roomId.Some? && roomId.value != 0 then Detached(old(activeConnections), roomId.value, ws)
        else old(activeConnections)
      ensures roomId.Some? && roomId.value != 0 ==>
        forall r :: r in activeConnections ==> ws !in activeConnections[r]
      ensures roomId == Some(0) ==> ws in Members(0)
    {
      roomId := Get(socketToRoom, ws);
      userId := Get(socketToUser, ws);
      if roomId.Some? && roomId.value != 0 {
        var r := roomId.value;
        DetachedCoherent(activeConnections, socketToRoom, socketToUser, ws);
        // indexing the defaultdict would create an empty entry for a missing key; the
        // registered room always has one
        if ws in activeConnections[r] {
          var rest := RemoveFirst(activeConnections[r], ws);
          if rest == [] {
            activeConnections := activeConnections - {r};
          } else {
            activeConnections := activeConnections[r := rest];
          }
        }
      } else {
        ForgottenCoherent(activeConnections, socketToRoom, socketToUser, ws);
      }
      if ws in socketToRoom {
        socketToRoom := socketToRoom - {ws};
      }
      if ws in socketToUser {
        socketToUser := socketToUser - {ws};
      }
    }

    /** `get_room_count`: the length of the room's list; zero exactly when the room has no entry. */
    function RoomCount(roomId: int): (n: nat)
      reads this
      requires Valid()
      ensures n == 0 <==> roomId !in activeConnections
      ensures n == |Members(roomId)|
    {
      |Members(roomId)|
    }

    /** `get_active_users`: each distinct nonzero user id of the room's sockets, once. */
    method ActiveUsers(roomId: int) returns (users: seq<int>)
      ensures NoDup(users)
      ensures forall u :: u in users <==> u in UserSet(roomId)
    {
      var members := Members(roomId);
      users := [];
      var i := 0;
      while i < |members|
        invariant 0 <= i <= |members|
        invariant NoDup(users)
        invariant forall u :: u in users <==>
          u in (set ws | ws in members[..i] && ws in socketToUser && socketToUser[ws] != 0 :: socketToUser[ws])
      {
        var ws := members[i];
        assert members[..i + 1] == members[..i] + [ws];
        var uid := Get(socketToUser, ws);
        if uid.Some? && uid.value != 0 && uid.value !in users {
          users := users + [uid.value];
        }
        i := i + 1;
      }
      assert members[..i] == members;
    }

    /**
     * `broadcast_to_room`: a send is attempted to every socket of the room's list except
     * `exclude`, in list order; a send that raises (a socket in `broken`) is skipped and
     * the rest continue.
     */
    method BroadcastToRoom(roomId: int, message: Wire, exclude: Option<Socket>, broken: set<Socket>)
      returns (attempted: seq<Socket>, delivered: seq<Socket>)
      ensures attempted == Without(Members(roomId), ExcludeSet(exclude))
      ensures delivered == Without(attempted, broken)
    {
      var members := Members(roomId);
      attempted, delivered := [], [];
      var i := 0;
      while i < |members|
        invariant 0 <= i <= |members|
        invariant attempted == Without(members[..i], ExcludeSet(exclude))
        invariant delivered == Without(attempted, broken)
      {
        var connection := members[i];
        BroadcastStep(members, i, exclude, broken, attempted);
        if Some(connection) != exclude {
          if connection !in broken {
            delivered := delivered + [connection];
          }
          attempted := attempted + [connection];
        }
        i := i + 1;
      }
      assert members[..i] == members;
    }

    /**
     * `kick_user`: the first socket of the room's list whose registered user equals the
     * target is closed with the kick status. The tables are not touched here; the kicked
     * socket's own handler runs the disconnect path.
     */
    method KickUser(roomId: int, target: Json) returns (close: Option<CloseCommand>)
      ensures close == KickOf(FirstMatch(Members(roomId), socketToUser, target))
    {
      var members := Members(roomId);
      close := None;
      var i := 0;
      while i < |members|
        invariant 0 <= i <= |members|
        invariant FirstMatch(members, socketToUser, target) == FirstMatch(members[i..], socketToUser, target)
      {
        assert members[i..][1..] == members[i + 1..];
        if SameUser(Get(socketToUser, members[i]), target) {
          close := Some(CloseCommand(members[i], KickCode, KickReason));
          return;
        }
        i := i + 1;
      }
    }
  }
}
