// src/stationchat/ChatRoom.cpp and ChatRoomService.cpp as objects: the rooms, the service that keeps
// them, and the tables they are written to. Every method is tied to the rules of RoomRules or to
// the registry of RoomRegistry; what holds over whole runs is proved there.
module ChatRooms {
  import opened StringUtils
  import opened RoomRules
  import R = RoomRegistry
  import Runs = RoomRegistryRuns

  /** std::find_if by id. */
  method Contains(ids: seq<nat>, id: nat) returns (found: bool)
    ensures found <==> id in ids
  {
    for i := 0 to |ids|
      invariant id !in ids[..i]
    {
      if ids[i] == id {
        return true;
      }
    }
    return false;
  }

  /** std::remove_if by id, and the erase that follows it. */
  method Remove(ids: seq<nat>, id: nat) returns (kept: seq<nat>)
    ensures kept == Without(ids, id)
  {
    kept := [];
    for i := 0 to |ids|
      invariant kept == Without(ids[..i], id)
    {
      assert ids[..i + 1][..i] == ids[..i];
      if ids[i] != id {
        kept := kept + [ids[i]];
      }
    }
    assert ids[..|ids|] == ids;
  }

  /** Lines below are those of ChatRoom.cpp. */
  class ChatRoom {
    // Null for a room built by LoadRoomsFromStorage, which never sets it. The role operations below need it
    // only when they get as far as writing to the tables.
    const roomService: ChatRoomService?
    const roomId: nat
    const creatorId: nat
    const creatorName: Wide
    const creatorAddress: Wide
    const roomName: Wide
    const roomTopic: Wide
    const roomPassword: Wide
    const roomPrefix: Wide
    const roomAddress: Wide
    const roomAttributes: nat
    const maxRoomSize: nat
    const roomMessageId: nat
    const createTime: nat
    const nodeLevel: nat

    var dbId: int
    var avatars: seq<Member>
    var administrators: seq<nat>
    var moderators: seq<nat>
    var banned: seq<nat>
    var invited: seq<nat>

    /** What the registry knows of the room. */
    function Stored(): R.Record
      reads this`dbId
    {
      R.Record(roomId, dbId, creatorId, creatorName, creatorAddress, roomName, roomTopic, roomPassword, roomPrefix,
               roomAddress, roomAttributes, maxRoomSize, roomMessageId, createTime, nodeLevel)
    }

    /** What the rules know of the room and of the role tables; a loaded room reaches no tables. */
    ghost function View(): State
      reads this, roomService
    {
      State(Room(roomId, creatorId, roomPassword, roomAttributes, avatars, administrators, moderators, banned, invited),
            if roomService == null then Roles({}, {}, {}, {}, {}) else roomService.roles)
    }

    /** A room without a service, with nobody in it and no roles, not even its creator's. */
    ghost predicate IsBare()
      reads this
    {
      roomService == null && avatars == [] && administrators == [] && moderators == [] && banned == [] && invited == []
    }

    /** Lines 10-27: a new room, with its creator as administrator and moderator. */
    constructor (roomService: ChatRoomService, roomId: nat, q: R.Request)
      ensures this.roomService == roomService && Stored() == R.NewRecord(q, roomId, -1)
      ensures View().room == NewRoom(q, roomId)
    {
      this.roomService, this.roomId, dbId := roomService, roomId, -1;
      creatorId, creatorName, creatorAddress := q.creatorId, q.creatorName, q.creatorAddress;
      roomName, roomTopic, roomPassword, roomPrefix := q.name, q.topic, q.password, [];
      roomAddress := q.address + [R.PLUS] + q.name;
      roomAttributes, maxRoomSize := q.attributes, q.maxSize;
      roomMessageId, createTime, nodeLevel := 1, 0, 0;
      avatars, banned, invited := [], [], [];
      administrators, moderators := [q.creatorId], [q.creatorId];
    }

    /** ChatRoomService.cpp, lines 41-72: the default constructor and the assignments from a row. */
    constructor FromRow(row: R.RoomRow, roomId: nat)
      ensures IsBare() && Stored() == R.RecordFor(row, roomId)
    {
      roomService, this.roomId, dbId := null, roomId, row.id;
      creatorId := row.creatorId;
      creatorName, creatorAddress := ToWideString(row.creatorName), ToWideString(row.creatorAddress);
      roomName, roomTopic := ToWideString(row.name), ToWideString(row.topic);
      roomPassword, roomPrefix := ToWideString(row.password), ToWideString(row.prefix);
      roomAddress := ToWideString(row.address);
      roomAttributes, maxRoomSize := row.attributes, row.maxSize;
      roomMessageId, createTime, nodeLevel := row.messageId, row.createdAt, row.nodeLevel;
      avatars, administrators, moderators, banned, invited := [], [], [], [], [];
    }

    predicate IsPersistent() {
      roomAttributes / 4 % 2 == 1
    }

    /** The service whose tables the room writes to, if it has one. */
    ghost function Services(): set<ChatRoomService> {
      if roomService == null then {} else {roomService}
    }

    /** Lines 71-75. */
    method IsInRoom(avatarId: nat) returns (found: bool)
      ensures found <==> View().room.HasMember(avatarId)
    {
      for i := 0 to |avatars|
        invariant forall j :: 0 <= j < i ==> avatars[j].id != avatarId
      {
        if avatars[i].id == avatarId {
          return true;
        }
      }
      return false;
    }

    /** Lines 49-67. */
    method Enter(avatar: Member, password: Wide) returns (code: Code)
      modifies this`avatars
      ensures (View(), code) == EnterRoom(old(View()), avatar, password)
    {
      if |roomPassword| > 0 && roomPassword != password {
        return PrivateRoom;
      }
      var isBanned := Contains(banned, avatar.id);
      if isBanned {
        return BannedAvatar;
      }
      var isInRoom := IsInRoom(avatar.id);
      if isInRoom {
        return AlreadyInRoom;
      }
      var isInvited := Contains(invited, avatar.id);
      if roomAttributes % 2 == 1 && avatar.id != creatorId && !isInvited {
        return PrivateRoom;
      }
      avatars := avatars + [avatar];
      return Success;
    }

    /** Lines 77-84. */
    method Leave(avatarId: nat)
      modifies this`avatars
      ensures View() == LeaveRoom(old(View()), avatarId)
    {
      var kept: seq<Member> := [];
      for i := 0 to |avatars|
        invariant avatars == old(avatars)
        invariant kept == WithoutMember(avatars[..i], avatarId)
      {
        assert avatars[..i + 1][..i] == avatars[..i];
        if avatars[i].id != avatarId {
          kept := kept + [avatars[i]];
        }
      }
      assert avatars[..|avatars|] == avatars;
      avatars := kept;
    }

    /** Lines 176-186. */
    method Kick(srcId: nat, avatarId: nat) returns (code: Code)
      modifies this`avatars
      ensures (View(), code) == KickAvatar(old(View()), srcId, avatarId)
    {
      var isModerator := Contains(moderators, srcId);
      if !isModerator {
        return NoPrivileges;
      }
      var isInRoom := IsInRoom(avatarId);
      if !isInRoom {
        return NotInRoom;
      }
      Leave(avatarId);
      return Success;
    }

    /** Lines 188-200. */
    method AddAdministrator(srcId: nat, avatarId: nat) returns (code: Code)
      requires srcId == creatorId && avatarId !in administrators && IsPersistent() ==> roomService != null
      modifies this`administrators, Services()`roles
      ensures (View(), code) == AddAdministratorTo(old(View()), srcId, avatarId)
    {
      if srcId != creatorId {
        return NoPrivileges;
      }
      var isAdministrator := Contains(administrators, avatarId);
      if !isAdministrator {
        administrators := administrators + [avatarId];
        if IsPersistent() {
          roomService.PersistAdministrator(avatarId, roomId);
        }
      }
      return Success;
    }

    /** Lines 202-216. */
    method AddModerator(srcId: nat, avatarId: nat) returns (code: Code)
      requires srcId == creatorId && avatarId !in moderators && IsPersistent() ==> roomService != null
      modifies this`moderators, Services()`roles
      ensures (View(), code) == AddModeratorTo(old(View()), srcId, avatarId)
    {
      if srcId != creatorId {
        return NoPrivileges;
      }
      var isModerator := Contains(moderators, avatarId);
      if isModerator {
        return DuplicateModerator;
      }
      moderators := moderators + [avatarId];
      if IsPersistent() {
        roomService.PersistModerator(avatarId, roomId);
      }
      return Success;
    }

    /** Lines 218-232. */
    method AddBanned(srcId: nat, avatarId: nat) returns (code: Code)
      requires srcId in moderators && avatarId !in banned && IsPersistent() ==> roomService != null
      modifies this`banned, Services()`roles
      ensures (View(), code) == AddBannedTo(old(View()), srcId, avatarId)
    {
      var isModerator := Contains(moderators, srcId);
      if !isModerator {
        return NoPrivileges;
      }
      var isBanned := Contains(banned, avatarId);
      if isBanned {
        return DuplicateBan;
      }
      banned := banned + [avatarId];
      if IsPersistent() {
        roomService.PersistBanned(avatarId, roomId);
      }
      return Success;
    }

    /** Lines 234-244. */
    method AddInvite(srcId: nat, avatarId: nat) returns (code: Code)
      modifies this`invited
      ensures (View(), code) == AddInviteTo(old(View()), srcId, avatarId)
    {
      var isModerator := Contains(moderators, srcId);
      if !isModerator {
        return NoPrivileges;
      }
      var isInvited := Contains(invited, avatarId);
      if isInvited {
        return DuplicateInvite;
      }
      invited := invited + [avatarId];
      return Success;
    }

    /** Lines 246-261. */
    method RemoveAdministrator(srcId: nat, avatarId: nat) returns (code: Code)
      requires srcId == creatorId && administrators != [] && IsPersistent() ==> roomService != null
      modifies this`administrators, Services()`roles
      ensures (View(), code) == RemoveAdministratorFrom(old(View()), srcId, avatarId)
    {
      if srcId != creatorId {
        return NoPrivileges;
      }
      if administrators == [] {
        return Success;
      }
      administrators := Remove(administrators, avatarId);
      if IsPersistent() {
        roomService.DeleteAdministrator(avatarId, roomId);
      }
      return Success;
    }

    /** Lines 263-279. */
    method RemoveModerator(srcId: nat, avatarId: nat) returns (code: Code)
      requires srcId == creatorId && avatarId in moderators && IsPersistent() ==> roomService != null
      modifies this`moderators, Services()`roles
      ensures (View(), code) == RemoveModeratorFrom(old(View()), srcId, avatarId)
    {
      if srcId != creatorId {
        return NoPrivileges;
      }
      var isModerator := Contains(moderators, avatarId);
      if moderators == [] || !isModerator {
        return NotModerator;
      }
      moderators := Remove(moderators, avatarId);
      if IsPersistent() {
        roomService.DeleteModerator(avatarId, roomId);
      }
      return Success;
    }

    /** Lines 281-297. */
    method RemoveBanned(srcId: nat, avatarId: nat) returns (code: Code)
      requires srcId in moderators && avatarId in banned && IsPersistent() ==> roomService != null
      modifies this`banned, Services()`roles
      ensures (View(), code) == RemoveBannedFrom(old(View()), srcId, avatarId)
    {
      var isModerator := Contains(moderators, srcId);
      if !isModerator {
        return NoPrivileges;
      }
      var isBanned := Contains(banned, avatarId);
      if banned == [] || !isBanned {
        return NotBanned;
      }
      banned := Remove(banned, avatarId);
      if IsPersistent() {
        roomService.DeleteBanned(avatarId, roomId);
      }
      return Success;
    }

    /** Lines 299-311. */
    method RemoveInvite(srcId: nat, avatarId: nat) returns (code: Code)
      modifies this`invited
      ensures (View(), code) == RemoveInviteFrom(old(View()), srcId, avatarId)
    {
      var isModerator := Contains(moderators, srcId);
      if !isModerator {
        return NoPrivileges;
      }
      var isInvited := Contains(invited, avatarId);
      if invited == [] || !isInvited {
        return NotInvited;
      }
      invited := Remove(invited, avatarId);
      return Success;
    }

    /** Some member with the first address comes before all members with the second. */
    static ghost predicate SeenBefore(avatars: seq<Member>, a: Wide, b: Wide) {
      exists k :: 0 <= k < |avatars| && avatars[k].address == a && forall m :: 0 <= m <= k ==> avatars[m].address != b
    }

    static lemma NotSeenYet(avatars: seq<Member>, i: nat, addresses: seq<Wide>, address: Wide)
      requires i < |avatars|
      requires forall a :: a in addresses ==> exists m :: m in avatars[..i] && m.address == a
      requires !exists m :: m in avatars[..i] && m.address == address
      ensures forall j :: 0 <= j < |addresses| ==> SeenBefore(avatars, addresses[j], address)
    {
      forall j | 0 <= j < |addresses| ensures SeenBefore(avatars, addresses[j], address) {
        assert addresses[j] in addresses;
        var m :| m in avatars[..i] && m.address == addresses[j];
        var k :| 0 <= k < i && avatars[k] == m;
        forall q | 0 <= q <= k ensures avatars[q].address != address {
          assert avatars[q] in avatars[..i];
        }
      }
    }

    /** Lines 98-114: every address with an avatar in the room, once, in order of first appearance. */
    method GetConnectedAddresses() returns (addresses: seq<Wide>)
      ensures forall i, j :: 0 <= i < j < |addresses| ==> addresses[i] != addresses[j]
      ensures forall a :: a in addresses <==> exists m :: m in avatars && m.address == a
      ensures forall i, j :: 0 <= i < j < |addresses| ==> SeenBefore(avatars, addresses[i], addresses[j])
    {
      addresses := [];
      for i := 0 to |avatars|
        invariant forall j, k :: 0 <= j < k < |addresses| ==> addresses[j] != addresses[k]
        invariant forall a :: a in addresses <==> exists m :: m in avatars[..i] && m.address == a
        invariant forall j, k :: 0 <= j < k < |addresses| ==> SeenBefore(avatars, addresses[j], addresses[k])
      {
        var address := avatars[i].address;
        assert avatars[..i + 1] == avatars[..i] + [avatars[i]];
        if addresses == [] || address !in addresses {
          assert address !in addresses;
          NotSeenYet(avatars, i, addresses, address);
          addresses := addresses + [address];
        }
      }
      assert avatars[..|avatars|] == avatars;
    }

    /** Lines 116-132: the same without the creator's own address. */
    method GetRemoteAddresses() returns (addresses: seq<Wide>)
      ensures forall i, j :: 0 <= i < j < |addresses| ==> addresses[i] != addresses[j]
      ensures forall a :: a in addresses <==> a != creatorAddress && exists m :: m in avatars && m.address == a
      ensures forall i, j :: 0 <= i < j < |addresses| ==> SeenBefore(avatars, addresses[i], addresses[j])
    {
      addresses := [];
      for i := 0 to |avatars|
        invariant forall j, k :: 0 <= j < k < |addresses| ==> addresses[j] != addresses[k]
        invariant forall a :: a in addresses <==> a != creatorAddress && exists m :: m in avatars[..i] && m.address == a
        invariant forall j, k :: 0 <= j < k < |addresses| ==> SeenBefore(avatars, addresses[j], addresses[k])
      {
        var address := avatars[i].address;
        assert avatars[..i + 1] == avatars[..i] + [avatars[i]];
        if creatorAddress != address && (addresses == [] || address !in addresses) {
          assert address !in addresses;
          NotSeenYet(avatars, i, addresses, address);
          addresses := addresses + [address];
        }
      }
      assert avatars[..|avatars|] == avatars;
    }
  }

  /** What the registry knows of these rooms. */
  ghost function Records(rooms: seq<ChatRoom>): (r: seq<R.Record>)
    reads rooms`dbId
    ensures |r| == |rooms| && forall i :: 0 <= i < |rooms| ==> r[i] == rooms[i].Stored()
  {
    if rooms == [] then [] else Records(rooms[..|rooms| - 1]) + [rooms[|rooms| - 1].Stored()]
  }

  lemma NoRecords()
    ensures Records([]) == []
  {
  }

  lemma RecordsOfOneMore(rooms: seq<ChatRoom>, room: ChatRoom)
    ensures Records(rooms + [room]) == Records(rooms) + [room.Stored()]
  {
    assert (rooms + [room])[..|rooms|] == rooms;
  }

  /** Lines below are those of ChatRoomService.cpp. */
  class ChatRoomService {
    var rooms: seq<ChatRoom>
    var nextRoomId: nat

    // The database.
    var rows: seq<R.RoomRow>
    var lastId: nat
    var roles: Roles

    ghost function View(): R.Registry
      reads this, rooms`dbId
    {
      R.Registry(Records(rooms), nextRoomId, rows, lastId)
    }

    /** A service that has loaded nothing yet, over a database that may hold anything. */
    constructor (rows: seq<R.RoomRow>, lastId: nat, roles: Roles)
      ensures View() == R.Registry([], 0, rows, lastId) && this.roles == roles
    {
      this.rooms, this.nextRoomId, this.rows, this.lastId, this.roles := [], 0, rows, lastId, roles;
    }

    /** Lines 199-203. */
    method RoomExists(address: Wide) returns (found: bool)
      ensures found <==> R.RoomExists(View().rooms, address)
    {
      for i := 0 to |rooms|
        invariant forall j :: 0 <= j < i ==> rooms[j].roomAddress != address
      {
        if rooms[i].roomAddress == address {
          assert View().rooms[i].address == address;
          return true;
        }
      }
      return false;
    }

    /** Lines 205-216: the room with this address; as long as addresses are unique, the only one. */
    method GetRoom(address: Wide) returns (room: ChatRoom?)
      ensures room == null <==> !R.RoomExists(View().rooms, address)
      ensures room != null ==> room in rooms && room.roomAddress == address
      ensures room != null && Runs.Unique(View()) ==>
                forall i :: 0 <= i < |rooms| && rooms[i].roomAddress == address ==> rooms[i] == room
    {
      room := null;
      for i := 0 to |rooms|
        invariant forall j :: 0 <= j < i ==> rooms[j].roomAddress != address
      {
        if rooms[i].roomAddress == address {
          assert View().rooms[i].address == address;
          return rooms[i];
        }
      }
    }

    /** Lines 82-104. The address may be taken; the INSERT may fail. */
    method CreateRoom(q: R.Request, dbOk: bool) returns (room: ChatRoom?)
      modifies this
      ensures (View(), room != null) == R.Create(old(View()), q, dbOk)
      ensures room == null ==> rooms == old(rooms) && roles == old(roles)
      ensures room != null ==> fresh(room) && rooms == old(rooms) + [room] && room.roomService == this
      ensures room != null ==> room.View().room == NewRoom(q, old(nextRoomId))
      ensures room != null ==> roles == if room.dbId >= 0 then RowAdded(old(roles), room.dbId) else old(roles)
    {
      hide Records, FromWideString, R.KeyTaken, R.RoomExists, RowAdded;
      var taken := RoomExists(q.address + [R.PLUS] + q.name);
      if taken {
        return null;
      }
      var newRoom := new ChatRoom(this, nextRoomId, q);
      nextRoomId := (nextRoomId + 1) % R.WRAP;
      if newRoom.IsPersistent() {
        PersistNewRoom(newRoom, dbOk);
      }
      AddRoom(newRoom);
      room := newRoom;
    }

    method AddRoom(room: ChatRoom)
      modifies this`rooms
      ensures rooms == old(rooms) + [room]
      ensures Records(rooms) == old(Records(rooms)) + [room.Stored()]
    {
      RecordsOfOneMore(rooms, room);
      rooms := rooms + [room];
    }

    /** Lines 116-181: the INSERT fails on a database error or a taken (name, address). */
    method PersistNewRoom(room: ChatRoom, dbOk: bool)
      requires room.dbId == -1
      modifies this`rows, this`lastId, this`roles, room`dbId
      ensures var row := R.RowFor(old(room.Stored()), old(lastId) + 1);
              if dbOk && !R.KeyTaken(old(rows), row) then
                rows == old(rows) + [row] && lastId == old(lastId) + 1 && room.dbId == lastId
                && roles == RowAdded(old(roles), lastId)
              else rows == old(rows) && lastId == old(lastId) && room.dbId == -1 && roles == old(roles)
    {
      var row := R.RowFor(room.Stored(), lastId + 1);
      if dbOk && !R.KeyTaken(rows, row) {
        lastId := lastId + 1;
        rows := rows + [row];
        roles := RowAdded(roles, lastId);
        room.dbId := lastId;
      }
    }

    /** Lines 106-114 and 230-239. */
    method DestroyRoom(room: ChatRoom)
      requires room in rooms
      modifies this
      ensures View() == R.Destroy(old(View()), old(room.Stored()))
      ensures roles == if room.IsPersistent() && room.dbId >= 0 then RowGone(old(roles), room.dbId) else old(roles)
      ensures forall r :: r in rooms ==> r in old(rooms)
    {
      hide Records, R.WithoutRoom, R.WithoutRow, RowGone;
      if room.IsPersistent() {
        DeleteRoom(room);
      }
      rooms := RemoveRoom(room.roomId);
    }

    method DeleteRoom(room: ChatRoom)
      modifies this`rows, this`roles
      ensures rows == R.WithoutRow(old(rows), room.dbId)
      ensures roles == if room.dbId >= 0 then RowGone(old(roles), room.dbId) else old(roles)
    {
      rows := R.WithoutRow(rows, room.dbId);
      if room.dbId >= 0 {
        roles := RowGone(roles, room.dbId);
      }
    }

    method RemoveRoom(roomId: nat) returns (kept: seq<ChatRoom>)
      ensures Records(kept) == R.WithoutRoom(Records(rooms), roomId)
      ensures forall r :: r in kept ==> r in rooms
    {
      hide Records;
      kept := [];
      NoRecords();
      for i := 0 to |rooms|
        invariant forall r :: r in kept ==> r in rooms
        invariant Records(kept) == R.WithoutRoom(Records(rooms[..i]), roomId)
      {
        var front := rooms[..i];
        assert rooms[..i + 1] == front + [rooms[i]];
        RecordsOfOneMore(front, rooms[i]);
        assert (Records(front) + [rooms[i].Stored()])[..i] == Records(front);
        if rooms[i].roomId != roomId {
          RecordsOfOneMore(kept, rooms[i]);
          kept := kept + [rooms[i]];
        }
      }
      assert rooms[..|rooms|] == rooms;
    }

    /** Lines 24-80. */
    method LoadRoomsFromStorage(base: Wide)
      modifies this
      ensures View() == R.Load(old(View()), base)
      ensures roles == old(roles)
      ensures forall r :: r in rooms ==> fresh(r) && r.IsBare()
    {
      hide Records, R.StartsWith, FromWideString, R.RecordFor, R.RoomExists, ChatRoom.IsBare;
      rooms := [];
      NoRecords();
      var narrow := FromWideString(base);
      for i := 0 to |rows|
        invariant rows == old(rows) && lastId == old(lastId) && roles == old(roles)
        invariant (Records(rooms), nextRoomId) == R.LoadRows(rows[..i], narrow, old(nextRoomId))
        invariant forall r :: r in rooms ==> fresh(r) && r.IsBare()
      {
        assert rows[..i + 1][..i] == rows[..i];
        if R.StartsWith(rows[i].address, narrow) {
          ghost var room := LoadRoom(rows[i]);
        }
      }
      assert rows[..|rows|] == rows;
    }

    /** Lines 41-76: one matching row. */
    method LoadRoom(row: R.RoomRow) returns (ghost loaded: ChatRoom)
      modifies this`rooms, this`nextRoomId
      ensures var room := R.RecordFor(row, old(nextRoomId));
              Records(rooms) == if R.RoomExists(old(Records(rooms)), room.address) then old(Records(rooms))
                  else old(Records(rooms)) + [room]
      ensures nextRoomId == (old(nextRoomId) + 1) % R.WRAP
      ensures fresh(loaded) && loaded.IsBare() && (rooms == old(rooms) || rooms == old(rooms) + [loaded])
    {
      hide Records, R.RecordFor, R.RoomExists;
      var room := new ChatRoom.FromRow(row, nextRoomId);
      loaded := room;
      nextRoomId := (nextRoomId + 1) % R.WRAP;
      var taken := RoomExists(room.roomAddress);
      if !taken {
        AddRoom(room);
      }
    }

    // Role tables, lines 255-281, 297-323 and 339-365.

    method PersistAdministrator(avatarId: nat, roomId: nat)
      modifies this`roles
      ensures roles == old(roles).(administrators := Insert(old(roles).administrators, old(roles), avatarId, roomId))
    {
      roles := roles.(administrators := Insert(roles.administrators, roles, avatarId, roomId));
    }

    method DeleteAdministrator(avatarId: nat, roomId: nat)
      modifies this`roles
      ensures roles == old(roles).(administrators := Delete(old(roles).administrators, avatarId, roomId))
    {
      roles := roles.(administrators := Delete(roles.administrators, avatarId, roomId));
    }

    method PersistModerator(avatarId: nat, roomId: nat)
      modifies this`roles
      ensures roles == old(roles).(moderators := Insert(old(roles).moderators, old(roles), avatarId, roomId))
    {
      roles := roles.(moderators := Insert(roles.moderators, roles, avatarId, roomId));
    }

    method DeleteModerator(avatarId: nat, roomId: nat)
      modifies this`roles
      ensures roles == old(roles).(moderators := Delete(old(roles).moderators, avatarId, roomId))
    {
      roles := roles.(moderators := Delete(roles.moderators, avatarId, roomId));
    }

    method PersistBanned(avatarId: nat, roomId: nat)
      modifies this`roles
      ensures roles == old(roles).(banned := Insert(old(roles).banned, old(roles), avatarId, roomId))
    {
      roles := roles.(banned := Insert(roles.banned, roles, avatarId, roomId));
    }

    method DeleteBanned(avatarId: nat, roomId: nat)
      modifies this`roles
      ensures roles == old(roles).(banned := Delete(old(roles).banned, avatarId, roomId))
    {
      roles := roles.(banned := Delete(roles.banned, avatarId, roomId));
    }
  }
}
