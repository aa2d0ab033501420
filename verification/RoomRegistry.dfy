// src/stationchat/ChatRoomService.cpp on values: the live rooms, the numbers they are given, and
// the room table they are stored in.
module RoomRegistry {
  import opened StringUtils

  /** The fields of a room that CreateRoom or LoadRoomsFromStorage fills in. `dbId` is -1 for a room
      without a stored row. */
  datatype Record = Record(
    roomId: nat, dbId: int, creatorId: nat, creatorName: Wide, creatorAddress: Wide,
    name: Wide, topic: Wide, password: Wide, prefix: Wide, address: Wide,
    attributes: nat, maxSize: nat, messageId: nat, createTime: nat, nodeLevel: nat)
  {
    predicate IsPersistent() {
      attributes / 4 % 2 == 1
    }

    predicate IsStored() {
      IsPersistent() && dbId != -1
    }
  }

  datatype RoomRow = RoomRow(
    id: nat, creatorId: nat, creatorName: Narrow, creatorAddress: Narrow,
    name: Narrow, topic: Narrow, password: Narrow, prefix: Narrow, address: Narrow,
    attributes: nat, maxSize: nat, messageId: nat, createdAt: nat, nodeLevel: nat)

  datatype Registry = Registry(rooms: seq<Record>, nextRoomId: nat, rows: seq<RoomRow>, lastId: nat)

  const WRAP := 0x1_0000_0000

  function RowFor(r: Record, id: nat): RoomRow {
    RoomRow(id, r.creatorId, FromWideString(r.creatorName), FromWideString(r.creatorAddress),
            FromWideString(r.name), FromWideString(r.topic), FromWideString(r.password), FromWideString(r.prefix),
                FromWideString(r.address),
            r.attributes, r.maxSize, r.messageId, r.createTime, r.nodeLevel)
  }

  function RecordFor(row: RoomRow, roomId: nat): Record {
    Record(roomId, row.id, row.creatorId, ToWideString(row.creatorName), ToWideString(row.creatorAddress),
           ToWideString(row.name), ToWideString(row.topic), ToWideString(row.password), ToWideString(row.prefix),
               ToWideString(row.address),
           row.attributes, row.maxSize, row.messageId, row.createdAt, row.nodeLevel)
  }

  /** What a caller of CreateRoom supplies. */
  datatype Request = Request(creatorId: nat, creatorName: Wide, creatorAddress: Wide,
                             name: Wide, topic: Wide, password: Wide, attributes: nat, maxSize: nat, address: Wide)
  {
    function FullAddress(): Wide {
      address + [PLUS] + name
    }
  }

  const PLUS: CodeUnit := 0x2B

  function NewRecord(q: Request, roomId: nat, dbId: int): Record {
    Record(roomId, dbId, q.creatorId, q.creatorName, q.creatorAddress, q.name, q.topic, q.password, [], q.FullAddress(),
           q.attributes, q.maxSize, 1, 0, 0)
  }

  predicate RoomExists(rooms: seq<Record>, address: Wide) {
    exists i :: 0 <= i < |rooms| && rooms[i].address == address
  }

  /** The unique key of the room table is (name, address). */
  predicate KeyTaken(rows: seq<RoomRow>, row: RoomRow) {
    exists i :: 0 <= i < |rows| && rows[i].name == row.name && rows[i].address == row.address
  }

  /** CreateRoom: false when the address is taken and the exception is thrown. A failed INSERT is
      not reported; the room then lives in memory only. */
  function Create(g: Registry, q: Request, dbOk: bool): (Registry, bool) {
    if RoomExists(g.rooms, q.FullAddress()) then (g, false)
    else
      var next := (g.nextRoomId + 1) % WRAP;
      var unsaved := NewRecord(q, g.nextRoomId, -1);
      var row := RowFor(unsaved, g.lastId + 1);
      if unsaved.IsPersistent() && dbOk && !KeyTaken(g.rows, row)
      then (Registry(g.rooms + [unsaved.(dbId := g.lastId + 1)], next, g.rows + [row], g.lastId + 1), true)
      else (g.(rooms := g.rooms + [unsaved], nextRoomId := next), true)
  }

  function WithoutRoom(rooms: seq<Record>, roomId: nat): (kept: seq<Record>)
    ensures forall r :: r in kept <==> r in rooms && r.roomId != roomId
  {
    if rooms == [] then []
    else
      var last := rooms[|rooms| - 1];
      assert rooms == rooms[..|rooms| - 1] + [last];
      if last.roomId == roomId then WithoutRoom(rooms[..|rooms| - 1], roomId)
          else WithoutRoom(rooms[..|rooms| - 1], roomId) + [last]
  }

  function WithoutRow(rows: seq<RoomRow>, id: int): (kept: seq<RoomRow>)
    ensures forall r :: r in kept <==> r in rows && r.id != id
  {
    if rows == [] then []
    else
      var last := rows[|rows| - 1];
      assert rows == rows[..|rows| - 1] + [last];
      if last.id == id then WithoutRow(rows[..|rows| - 1], id) else WithoutRow(rows[..|rows| - 1], id) + [last]
  }

  /** DestroyRoom. */
  function Destroy(g: Registry, room: Record): Registry {
    g.(rows := if room.IsPersistent() then WithoutRow(g.rows, room.dbId) else g.rows,
       rooms := WithoutRoom(g.rooms, room.roomId))
  }

  predicate StartsWith(text: Narrow, base: Narrow) {
    |base| <= |text| && text[..|base|] == base
  }

  /** The rooms and next number after loading the matching rows among these, in order. */
  function LoadRows(rows: seq<RoomRow>, base: Narrow, nextRoomId: nat): (seq<Record>, nat) {
    if rows == [] then ([], nextRoomId)
    else
      var (rooms, next) := LoadRows(rows[..|rows| - 1], base, nextRoomId);
      var row := rows[|rows| - 1];
      if !StartsWith(row.address, base) then (rooms, next)
      else
        var room := RecordFor(row, next);
        (if RoomExists(rooms, room.address) then rooms else rooms + [room], (next + 1) % WRAP)
  }

  /** LoadRoomsFromStorage. */
  function Load(g: Registry, base: Wide): Registry {
    var (rooms, next) := LoadRows(g.rows, FromWideString(base), g.nextRoomId);
    g.(rooms := rooms, nextRoomId := next)
  }

  datatype Action =
    | CreateRoom(request: Request, dbOk: bool)
    | DestroyRoom(index: nat)
    | LoadRooms(base: Wide)

  /** Destroying means destroying a live room; there is no other to name. */
  function Step(g: Registry, a: Action): Registry {
    match a
    case CreateRoom(q, dbOk) => Create(g, q, dbOk).0
    case DestroyRoom(i) => if i < |g.rooms| then Destroy(g, g.rooms[i]) else g
    case LoadRooms(base) => Load(g, base)
  }

  function After(g: Registry, actions: seq<Action>): Registry {
    if actions == [] then g else Step(After(g, actions[..|actions| - 1]), actions[|actions| - 1])
  }

  const EMPTY := Registry([], 0, [], 0)
}
