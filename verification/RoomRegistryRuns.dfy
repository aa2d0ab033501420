// What holds over whole runs of creating, destroying and loading rooms.
module RoomRegistryRuns {
  import opened StringUtils
  import opened RoomRegistry

  // ----- addresses and numbers -----

  ghost predicate AddressesDiffer(rooms: seq<Record>) {
    forall i, j :: 0 <= i < j < |rooms| ==> rooms[i].address != rooms[j].address
  }

  ghost predicate NumbersDiffer(rooms: seq<Record>) {
    forall i, j :: 0 <= i < j < |rooms| ==> rooms[i].roomId != rooms[j].roomId
  }

  /** Addresses and numbers are unique, and every number in use lies below the next one. */
  ghost predicate Unique(g: Registry) {
    && AddressesDiffer(g.rooms)
    && NumbersDiffer(g.rooms)
    && forall i :: 0 <= i < |g.rooms| ==> g.rooms[i].roomId < g.nextRoomId
  }

  ghost function Matching(rows: seq<RoomRow>, base: Narrow): nat {
    if rows == [] then 0
    else Matching(rows[..|rows| - 1], base) + if StartsWith(rows[|rows| - 1].address, base) then 1 else 0
  }

  /** How many numbers an action uses up. */
  ghost function Taken(g: Registry, a: Action): nat {
    match a
    case CreateRoom(_, _) => 1
    case DestroyRoom(_) => 0
    case LoadRooms(base) => Matching(g.rows, FromWideString(base))
  }

  /** The 32-bit room number does not wrap during the run. */
  ghost predicate NoWrap(g: Registry, actions: seq<Action>) {
    forall k :: 0 <= k < |actions| ==> FitsAt(g, actions, k)
  }

  ghost predicate FitsAt(g: Registry, actions: seq<Action>, k: nat)
    requires k < |actions|
  {
    After(g, actions[..k]).nextRoomId + Taken(After(g, actions[..k]), actions[k]) < WRAP
  }

  lemma {:induction false} WithoutRoomKeepsUnique(rooms: seq<Record>, id: nat)
    requires AddressesDiffer(rooms) && NumbersDiffer(rooms)
    ensures AddressesDiffer(WithoutRoom(rooms, id)) && NumbersDiffer(WithoutRoom(rooms, id))
  {
    if rooms != [] {
      var front, last := rooms[..|rooms| - 1], rooms[|rooms| - 1];
      WithoutRoomKeepsUnique(front, id);
      var kept := WithoutRoom(front, id);
      forall i | 0 <= i < |kept| ensures kept[i].address != last.address && kept[i].roomId != last.roomId {
        assert kept[i] in front;
      }
      assert AddressesDiffer(kept + [last]) && NumbersDiffer(kept + [last]);
    }
  }

  lemma {:induction false} LoadedIsUnique(rows: seq<RoomRow>, base: Narrow, next: nat)
    requires next + Matching(rows, base) < WRAP
    ensures var (rooms, after) := LoadRows(rows, base, next);
            after == next + Matching(rows, base)
            && AddressesDiffer(rooms) && NumbersDiffer(rooms)
            && forall i :: 0 <= i < |rooms| ==> next <= rooms[i].roomId < after
  {
    if rows != [] {
      LoadedIsUnique(rows[..|rows| - 1], base, next);
    }
  }

  lemma CreateKeepsUnique(g: Registry, q: Request, dbOk: bool)
    requires Unique(g) && g.nextRoomId + 1 < WRAP
    ensures Unique(Create(g, q, dbOk).0)
  {
    var rooms := Create(g, q, dbOk).0.rooms;
    if rooms != g.rooms {
      assert rooms == g.rooms + [rooms[|g.rooms|]];
      forall i | 0 <= i < |g.rooms| ensures rooms[i].address != q.FullAddress() {
        assert rooms[i] == g.rooms[i];
      }
    }
  }

  lemma DestroyKeepsUnique(g: Registry, room: Record)
    requires Unique(g)
    ensures Unique(Destroy(g, room))
  {
    var kept := WithoutRoom(g.rooms, room.roomId);
    WithoutRoomKeepsUnique(g.rooms, room.roomId);
    forall k | 0 <= k < |kept| ensures kept[k].roomId < g.nextRoomId {
      assert kept[k] in g.rooms;
    }
  }

  lemma StepKeepsUnique(g: Registry, a: Action)
    requires Unique(g) && g.nextRoomId + Taken(g, a) < WRAP
    ensures Unique(Step(g, a))
  {
    hide Unique, Create, Destroy;
    match a
    case CreateRoom(q, dbOk) => CreateKeepsUnique(g, q, dbOk);
    case DestroyRoom(i) =>
      if i < |g.rooms| {
        DestroyKeepsUnique(g, g.rooms[i]);
      }
    case LoadRooms(base) =>
      LoadKeepsUnique(g, base);
  }

  lemma LoadKeepsUnique(g: Registry, base: Wide)
    requires g.nextRoomId + Matching(g.rows, FromWideString(base)) < WRAP
    ensures Unique(Load(g, base))
  {
    LoadedIsUnique(g.rows, FromWideString(base), g.nextRoomId);
  }

  /** Over any run in which the room number does not wrap, addresses and numbers stay unique. */
  lemma {:induction false} RoomsStayUnique(g: Registry, actions: seq<Action>)
    requires Unique(g) && NoWrap(g, actions)
    ensures Unique(After(g, actions))
  {
    if actions != [] {
      var n := |actions| - 1;
      var front := actions[..n];
      forall k | 0 <= k < n ensures FitsAt(g, front, k) {
        assert front[..k] == actions[..k];
        assert FitsAt(g, actions, k);
      }
      RoomsStayUnique(g, front);
      assert FitsAt(g, actions, n);
      StepKeepsUnique(After(g, front), actions[n]);
    }
  }

  // ----- the room table -----

  /** The rows of the stored rooms, in the order the rooms were created. */
  ghost function SavedRows(rooms: seq<Record>): seq<RoomRow> {
    if rooms == [] then []
    else
      var front, last := rooms[..|rooms| - 1], rooms[|rooms| - 1];
      if last.IsStored() && last.dbId >= 0 then SavedRows(front) + [RowFor(last, last.dbId)] else SavedRows(front)
  }

  ghost predicate RowsDiffer(rooms: seq<Record>) {
    forall i, j :: 0 <= i < j < |rooms| && rooms[i].IsStored() && rooms[j].IsStored() ==> rooms[i].dbId != rooms[j].dbId
  }

  /** The table holds exactly the stored rooms, each under a row id of its own. */
  ghost predicate Saved(g: Registry) {
    && (forall r :: r in g.rooms ==> -1 <= r.dbId <= g.lastId && r.dbId != 0 && (r.dbId != -1 ==> r.IsPersistent()))
    && RowsDiffer(g.rooms)
    && g.rows == SavedRows(g.rooms)
  }

  /** Removing a room from memory and its row from the table comes to the same. */
  lemma {:induction false} RemovedTogether(rooms: seq<Record>, roomId: nat, dbId: int)
    requires forall r :: r in rooms ==> r.dbId >= -1
    requires forall r :: r in rooms && r.IsStored() ==> (r.roomId == roomId <==> r.dbId == dbId)
    ensures SavedRows(WithoutRoom(rooms, roomId)) == WithoutRow(SavedRows(rooms), dbId)
  {
    if rooms != [] {
      var front, last := rooms[..|rooms| - 1], rooms[|rooms| - 1];
      assert last in rooms;
      assert forall r :: r in front ==> r in rooms;
      RemovedTogether(front, roomId, dbId);
      var kept, rows := WithoutRoom(front, roomId), SavedRows(front);
      assert (kept + [last])[..|kept|] == kept;
      if last.IsStored() {
        assert (rows + [RowFor(last, last.dbId)])[..|rows|] == rows;
      }
    }
  }

  lemma {:induction false} NoRowIsMinusOne(rows: seq<RoomRow>)
    ensures WithoutRow(rows, -1) == rows
  {
    if rows != [] {
      NoRowIsMinusOne(rows[..|rows| - 1]);
    }
  }

  lemma DestroyKeepsSaved(g: Registry, i: nat)
    requires Saved(g) && i < |g.rooms|
    requires NumbersDiffer(g.rooms)
    ensures Saved(Destroy(g, g.rooms[i]))
  {
    var room := g.rooms[i];
    var dbId := if room.IsPersistent() then room.dbId else -1;
    forall r | r in g.rooms && r.IsStored() ensures r.roomId == room.roomId <==> r.dbId == dbId {
      var j :| 0 <= j < |g.rooms| && g.rooms[j] == r;
    }
    RemovedTogether(g.rooms, room.roomId, dbId);
    NoRowIsMinusOne(g.rows);
    WithoutRoomKeepsRowsDiffer(g.rooms, room.roomId);
  }

  lemma {:induction false} WithoutRoomKeepsRowsDiffer(rooms: seq<Record>, roomId: nat)
    requires RowsDiffer(rooms)
    ensures RowsDiffer(WithoutRoom(rooms, roomId))
  {
    if rooms != [] {
      var front, last := rooms[..|rooms| - 1], rooms[|rooms| - 1];
      WithoutRoomKeepsRowsDiffer(front, roomId);
      var kept := WithoutRoom(front, roomId);
      forall i | 0 <= i < |kept| && kept[i].IsStored() && last.IsStored() ensures kept[i].dbId != last.dbId {
        assert kept[i] in front;
      }
      assert RowsDiffer(kept + [last]);
    }
  }

  lemma CreateKeepsSaved(g: Registry, q: Request, dbOk: bool)
    requires Saved(g)
    ensures Saved(Create(g, q, dbOk).0)
  {
    var after := Create(g, q, dbOk).0;
    if after.rooms != g.rooms {
      var room := after.rooms[|g.rooms|];
      assert after.rooms[..|g.rooms|] == g.rooms;
      forall i | 0 <= i < |g.rooms| ensures g.rooms[i].dbId <= g.lastId {
        assert g.rooms[i] in g.rooms;
      }
      if room.IsStored() {
        assert RowFor(room, room.dbId) == RowFor(NewRecord(q, g.nextRoomId, -1), g.lastId + 1);
      }
    }
  }

  /** After any run of creations and destructions, whether or not each INSERT succeeded, the table
      holds exactly the live rooms that have a row, in order. */
  lemma {:induction false} TableFollowsRooms(g: Registry, actions: seq<Action>)
    requires Unique(g) && Saved(g) && NoWrap(g, actions)
    requires forall a :: a in actions ==> !a.LoadRooms?
    ensures Unique(After(g, actions)) && Saved(After(g, actions))
  {
    hide Saved, Unique, Step;
    RoomsStayUnique(g, actions);
    if actions != [] {
      var n := |actions| - 1;
      var front := actions[..n];
      forall k | 0 <= k < n ensures FitsAt(g, front, k) {
        assert front[..k] == actions[..k];
        assert FitsAt(g, actions, k);
      }
      assert actions[n] in actions;
      assert forall a :: a in front ==> a in actions;
      TableFollowsRooms(g, front);
      StepKeepsSaved(After(g, front), actions[n]);
    }
  }

  lemma StepKeepsSaved(g: Registry, a: Action)
    requires Unique(g) && Saved(g) && !a.LoadRooms?
    ensures Saved(Step(g, a))
  {
    hide Saved, Create, Destroy;
    match a
    case CreateRoom(q, dbOk) => CreateKeepsSaved(g, q, dbOk);
    case DestroyRoom(i) =>
      if i < |g.rooms| {
        DestroyKeepsSaved(g, i);
      }
  }

  // ----- loading -----

  /** Every text of the room survives a trip through the database. */
  ghost predicate SafeRecord(r: Record) {
    && NarrowSafe(r.creatorName) && NarrowSafe(r.creatorAddress) && NarrowSafe(r.name) && NarrowSafe(r.topic)
    && NarrowSafe(r.password) && NarrowSafe(r.prefix) && NarrowSafe(r.address)
  }

  ghost predicate Under(r: Record, base: Wide) {
    |base| <= |r.address| && r.address[..|base|] == base
  }

  /** The stored rooms under a base address, in order. */
  ghost function StoredUnder(rooms: seq<Record>, base: Wide): seq<Record> {
    if rooms == [] then []
    else
      var front, last := rooms[..|rooms| - 1], rooms[|rooms| - 1];
      if last.IsStored() && Under(last, base) then StoredUnder(front, base) + [last] else StoredUnder(front, base)
  }

  /** The same rooms under numbers counted up from `next`. */
  ghost function Renumbered(rooms: seq<Record>, next: nat): (r: seq<Record>)
    ensures |r| == |rooms| && forall i :: 0 <= i < |r| ==> r[i] == rooms[i].(roomId := next + i)
  {
    seq(|rooms|, i requires 0 <= i < |rooms| => rooms[i].(roomId := next + i))
  }

  lemma RecordRoundTrip(r: Record, roomId: nat)
    requires SafeRecord(r) && r.dbId >= 0
    ensures RecordFor(RowFor(r, r.dbId), roomId) == r.(roomId := roomId)
  {
    WidenOfNarrow(r.creatorName);
    WidenOfNarrow(r.creatorAddress);
    WidenOfNarrow(r.name);
    WidenOfNarrow(r.topic);
    WidenOfNarrow(r.password);
    WidenOfNarrow(r.prefix);
    WidenOfNarrow(r.address);
  }

  /** A stored address starts with the stored base exactly when the address itself starts with the base. */
  lemma StartsWithIsUnder(r: Record, base: Wide)
    requires NarrowSafe(r.address) && NarrowSafe(base)
    ensures StartsWith(FromWideString(r.address), FromWideString(base)) <==> Under(r, base)
  {
    var text, start := FromWideString(r.address), FromWideString(base);
    if |base| <= |r.address| {
      forall i | 0 <= i < |base| ensures text[i] == start[i] <==> r.address[i] == base[i] {
      }
      if text[..|base|] == start {
        forall i | 0 <= i < |base| ensures r.address[i] == base[i] {
          assert text[..|base|][i] == start[i];
        }
      }
      if r.address[..|base|] == base {
        forall i | 0 <= i < |base| ensures text[i] == start[i] {
          assert r.address[..|base|][i] == base[i];
        }
      }
    }
  }

  lemma {:induction false} StoredUnderHolds(rooms: seq<Record>, base: Wide)
    ensures forall i :: 0 <= i < |StoredUnder(rooms, base)| ==> StoredUnder(rooms, base)[i] in rooms
  {
    if rooms != [] {
      StoredUnderHolds(rooms[..|rooms| - 1], base);
      assert rooms[|rooms| - 1] in rooms;
    }
  }

  /** Loading one more row: a room under the base is appended with the next number. */
  lemma LoadingOneMore(rows: seq<RoomRow>, last: Record, found: seq<Record>, base: Wide, next: nat)
    requires LoadRows(rows, FromWideString(base), next) == (Renumbered(found, next), next + |found|)
    requires SafeRecord(last) && NarrowSafe(base) && last.dbId >= 0 && next + |found| + 1 < WRAP
    requires forall i :: 0 <= i < |found| ==> found[i].address != last.address
    ensures LoadRows(rows + [RowFor(last, last.dbId)], FromWideString(base), next)
         == if Under(last, base) then (Renumbered(found + [last], next), next + |found| + 1)
            else (Renumbered(found, next), next + |found|)
  {
    var row, n := RowFor(last, last.dbId), next + |found|;
    assert StartsWith(row.address, FromWideString(base)) <==> Under(last, base) by {
      StartsWithIsUnder(last, base);
    }
    assert RecordFor(row, n) == last.(roomId := n) by {
      RecordRoundTrip(last, n);
    }
    hide StartsWith, Under, RecordFor, RowFor, FromWideString, SafeRecord, NarrowSafe;
    assert (rows + [row])[..|rows|] == rows;
    assert !RoomExists(Renumbered(found, next), last.address);
    assert Renumbered(found + [last], next) == Renumbered(found, next) + [last.(roomId := n)];
  }

  /** One room more in memory: a row more in the table if it is stored, a room more to find if it is
      also under the base. */
  lemma SavedOneMore(front: seq<Record>, last: Record, base: Wide)
    ensures SavedRows(front + [last])
         == if last.IsStored() && last.dbId >= 0 then SavedRows(front) + [RowFor(last, last.dbId)] else SavedRows(front)
    ensures StoredUnder(front + [last], base)
         == if last.IsStored() && Under(last, base) then StoredUnder(front, base) + [last] else StoredUnder(front, base)
  {
    assert (front + [last])[..|front|] == front;
  }

  lemma LoadingNothing(base: Wide, next: nat)
    ensures LoadsBack([], base, next)
  {
  }

  /** What loading the rows of these rooms comes to. */
  ghost predicate LoadsBack(rooms: seq<Record>, base: Wide, next: nat) {
    LoadRows(SavedRows(rooms), FromWideString(base), next)
      == (Renumbered(StoredUnder(rooms, base), next), next + |StoredUnder(rooms, base)|)
  }

  lemma LoadsOneMore(front: seq<Record>, last: Record, base: Wide, next: nat)
    requires LoadsBack(front, base, next) && last.dbId >= -1 && SafeRecord(last) && NarrowSafe(base)
    requires next + |StoredUnder(front, base)| + 1 < WRAP
    requires forall i :: 0 <= i < |StoredUnder(front, base)| ==> StoredUnder(front, base)[i].address != last.address
    ensures LoadsBack(front + [last], base, next)
  {
    hide SafeRecord, NarrowSafe, Under, FromWideString, Record.IsPersistent, LoadRows, Renumbered, RowFor, SavedRows,
      StoredUnder;
    SavedOneMore(front, last, base);
    if last.IsStored() {
      LoadingOneMore(SavedRows(front), last, StoredUnder(front, base), base, next);
    }
  }

  lemma {:induction false} StoredUnderIsShorter(rooms: seq<Record>, base: Wide)
    ensures |StoredUnder(rooms, base)| <= |rooms|
  {
    if rooms != [] {
      StoredUnderIsShorter(rooms[..|rooms| - 1], base);
    }
  }

  /** Loading the rows of stored rooms with narrow-safe text gives those under the base, renumbered. */
  lemma {:induction false} LoadingSavedRows(rooms: seq<Record>, base: Wide, next: nat)
    requires forall i :: 0 <= i < |rooms| ==> rooms[i].dbId >= -1 && SafeRecord(rooms[i])
    requires NarrowSafe(base) && next + |rooms| < WRAP
    requires AddressesDiffer(rooms)
    ensures LoadsBack(rooms, base, next)
  {
    hide LoadsBack, SafeRecord, NarrowSafe;
    if rooms == [] {
      LoadingNothing(base, next);
    } else {
      var front, last := rooms[..|rooms| - 1], rooms[|rooms| - 1];
      LoadingSavedRows(front, base, next);
      StoredUnderHolds(front, base);
      StoredUnderIsShorter(front, base);
      var found := StoredUnder(front, base);
      forall i | 0 <= i < |found| ensures found[i].address != last.address {
        assert found[i] in front;
      }
      LoadsOneMore(front, last, base, next);
      assert rooms == front + [last];
    }
  }

  ghost predicate SafeRequest(q: Request) {
    && NarrowSafe(q.creatorName) && NarrowSafe(q.creatorAddress) && NarrowSafe(q.name) && NarrowSafe(q.topic)
    && NarrowSafe(q.password) && NarrowSafe(q.address)
  }

  lemma {:induction false} RecordsStaySafe(g: Registry, actions: seq<Action>)
    requires forall r :: r in g.rooms ==> SafeRecord(r)
    requires forall a :: a in actions ==> !a.LoadRooms? && (a.CreateRoom? ==> SafeRequest(a.request))
    ensures forall r :: r in After(g, actions).rooms ==> SafeRecord(r)
  {
    if actions != [] {
      var n := |actions| - 1;
      assert actions[n] in actions;
      assert forall a :: a in actions[..n] ==> a in actions;
      RecordsStaySafe(g, actions[..n]);
    }
  }

  /** The persistence round trip over whole runs from an empty database: after any creations and
      destructions a service that has loaded anything or nothing, and counts from any number, brings
      back the live stored rooms of its base address, and only those. */
  lemma RoomsSurviveRestart(actions: seq<Action>, base: Wide, others: seq<Record>, next: nat)
    requires NoWrap(EMPTY, actions) && NarrowSafe(base)
    requires forall a :: a in actions ==> !a.LoadRooms? && (a.CreateRoom? ==> SafeRequest(a.request))
    requires next + |After(EMPTY, actions).rooms| < WRAP
    ensures var g := After(EMPTY, actions);
            var restarted := Load(Registry(others, next, g.rows, g.lastId), base);
            && restarted.rooms == Renumbered(StoredUnder(g.rooms, base), next)
            && restarted.rows == g.rows && Unique(restarted)
  {
    var g := After(EMPTY, actions);
    TableFollowsRooms(EMPTY, actions);
    RecordsStaySafe(EMPTY, actions);
    LoadingSavedRows(g.rooms, base, next);
    StoredUnderIsOrdered(g.rooms, base);
  }

  lemma {:induction false} StoredUnderIsOrdered(rooms: seq<Record>, base: Wide)
    requires AddressesDiffer(rooms)
    ensures AddressesDiffer(StoredUnder(rooms, base))
  {
    if rooms != [] {
      var front, last := rooms[..|rooms| - 1], rooms[|rooms| - 1];
      StoredUnderIsOrdered(front, base);
      StoredUnderHolds(front, base);
      var found := StoredUnder(front, base);
      forall i | 0 <= i < |found| ensures found[i].address != last.address {
        assert found[i] in front;
      }
    }
  }
}
