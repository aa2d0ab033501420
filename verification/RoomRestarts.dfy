// Runs in which rooms are loaded and the server restarted: as long as one base address is loaded, the
// rows under it and the live stored rooms under it never part.
module RoomRestarts {
  import opened StringUtils
  import opened RoomRegistry
  import opened RoomRegistryRuns

  /** The rows whose address starts with the base, in order. */
  function RowsUnder(rows: seq<RoomRow>, base: Narrow): seq<RoomRow> {
    if rows == [] then []
    else
      var front, last := RowsUnder(rows[..|rows| - 1], base), rows[|rows| - 1];
      if StartsWith(last.address, base) then front + [last] else front
  }

  /** The rows under the base are those of the live stored rooms under it; rows elsewhere may have lost
      their rooms. */
  ghost predicate Kept(g: Registry, base: Wide) {
    && (forall i :: 0 <= i < |g.rooms| ==> RoomOk(g.rooms[i], g.lastId))
    && RowsDiffer(g.rooms)
    && RowsUnder(g.rows, FromWideString(base)) == SavedRows(StoredUnder(g.rooms, base))
  }

  ghost predicate RoomOk(r: Record, lastId: nat) {
    -1 <= r.dbId <= lastId && r.dbId != 0 && (r.dbId != -1 ==> r.IsPersistent()) && SafeRecord(r)
  }

  datatype Event = Do(action: Action) | Restart

  /** A restarted service knows no room and counts from zero; then it loads its base address. */
  function Happen(g: Registry, e: Event, base: Wide): Registry {
    match e
    case Do(a) => Step(g, a)
    case Restart => Load(Registry([], 0, g.rows, g.lastId), base)
  }

  function AfterAll(g: Registry, events: seq<Event>, base: Wide): Registry {
    if events == [] then g else Happen(AfterAll(g, events[..|events| - 1], base), events[|events| - 1], base)
  }

  /** Rooms are created with narrow-safe text, and no other base address is loaded. */
  ghost predicate Ordinary(e: Event, base: Wide) {
    match e
    case Do(CreateRoom(q, _)) => SafeRequest(q)
    case Do(DestroyRoom(_)) => true
    case Do(LoadRooms(b)) => b == base
    case Restart => true
  }

  /** The room number does not wrap in this event. */
  ghost predicate Fits(g: Registry, e: Event, base: Wide) {
    match e
    case Do(a) => g.nextRoomId + Taken(g, a) < WRAP
    case Restart => Matching(g.rows, FromWideString(base)) < WRAP
  }

  // ----- creating -----

  lemma RowsUnderOneMore(rows: seq<RoomRow>, row: RoomRow, base: Narrow)
    ensures RowsUnder(rows + [row], base)
         == if StartsWith(row.address, base) then RowsUnder(rows, base) + [row] else RowsUnder(rows, base)
  {
    assert (rows + [row])[..|rows|] == rows;
  }

  lemma StoredTogether(g: Registry, room: Record, base: Wide)
    requires RowsUnder(g.rows, FromWideString(base)) == SavedRows(StoredUnder(g.rooms, base))
    requires NarrowSafe(base) && SafeRecord(room) && room.IsStored() && room.dbId >= 0
    ensures RowsUnder(g.rows + [RowFor(room, room.dbId)], FromWideString(base))
         == SavedRows(StoredUnder(g.rooms + [room], base))
  {
    SavedOneMore(g.rooms, room, base);
    SavedOneMore(StoredUnder(g.rooms, base), room, base);
    StartsWithIsUnder(room, base);
    RowsUnderOneMore(g.rows, RowFor(room, room.dbId), FromWideString(base));
    hide StoredUnder, SavedRows, RowsUnder, StartsWith, Under, FromWideString, SafeRecord, NarrowSafe, Record.IsStored;
  }

  lemma StoringKeeps(g: Registry, room: Record, base: Wide)
    requires Kept(g, base) && NarrowSafe(base)
    requires RoomOk(room, g.lastId + 1) && room.IsStored() && room.dbId == g.lastId + 1
    ensures var rows := g.rows + [RowFor(room, room.dbId)];
            Kept(g.(rooms := g.rooms + [room], rows := rows, lastId := g.lastId + 1), base)
  {
    StoredTogether(g, room, base);
    hide StoredUnder, SavedRows, RowsUnder, FromWideString, SafeRecord, RowFor, NarrowSafe;
    forall i | 0 <= i < |g.rooms| ensures RoomOk(g.rooms[i], g.lastId + 1) && g.rooms[i].dbId != room.dbId {
      assert RoomOk(g.rooms[i], g.lastId);
    }
  }

  lemma HoldingKeeps(g: Registry, room: Record, base: Wide)
    requires Kept(g, base) && RoomOk(room, g.lastId) && !room.IsStored()
    ensures Kept(g.(rooms := g.rooms + [room]), base)
  {
    SavedOneMore(g.rooms, room, base);
    hide StoredUnder, SavedRows, RowsUnder, Under, FromWideString, RoomOk;
  }

  lemma CreateKeeps(g: Registry, q: Request, dbOk: bool, base: Wide)
    requires Kept(g, base) && NarrowSafe(base) && SafeRequest(q)
    ensures Kept(Create(g, q, dbOk).0, base)
  {
    var after := Create(g, q, dbOk).0;
    NumberIsFree(g, base, (g.nextRoomId + 1) % WRAP);
    var counted := g.(nextRoomId := (g.nextRoomId + 1) % WRAP);
    if after != g {
      var unsaved := NewRecord(q, g.nextRoomId, -1);
      var saved := unsaved.(dbId := g.lastId + 1);
      hide Kept, FromWideString, KeyTaken;
      if after.rows == g.rows {
        HoldingKeeps(counted, unsaved, base);
      } else {
        assert RowFor(saved, saved.dbId) == RowFor(unsaved, g.lastId + 1);
        StoringKeeps(counted, saved, base);
      }
    }
  }

  lemma NumberIsFree(g: Registry, base: Wide, next: nat)
    requires Kept(g, base)
    ensures Kept(g.(nextRoomId := next), base)
  {
  }

  // ----- destroying -----

  lemma {:induction false} StoredUnderWithout(rooms: seq<Record>, base: Wide, roomId: nat)
    ensures StoredUnder(WithoutRoom(rooms, roomId), base) == WithoutRoom(StoredUnder(rooms, base), roomId)
  {
    hide Under, Record.IsPersistent;
    if rooms != [] {
      var front, last := rooms[..|rooms| - 1], rooms[|rooms| - 1];
      StoredUnderWithout(front, base, roomId);
      var kept, found := WithoutRoom(front, roomId), StoredUnder(front, base);
      assert (kept + [last])[..|kept|] == kept && (found + [last])[..|found|] == found;
    }
  }

  lemma {:induction false} RowsUnderWithout(rows: seq<RoomRow>, base: Narrow, id: int)
    ensures RowsUnder(WithoutRow(rows, id), base) == WithoutRow(RowsUnder(rows, base), id)
  {
    hide WithoutRow, RowsUnder;
    if rows == [] {
      NoRowsUnder(base, id);
    } else {
      var front, last := rows[..|rows| - 1], rows[|rows| - 1];
      assert rows == front + [last];
      RowsUnderWithout(front, base, id);
      RowsUnderWithoutNext(front, last, base, id);
    }
  }

  lemma RowsUnderWithoutNext(front: seq<RoomRow>, last: RoomRow, base: Narrow, id: int)
    requires RowsUnder(WithoutRow(front, id), base) == WithoutRow(RowsUnder(front, base), id)
    ensures RowsUnder(WithoutRow(front + [last], id), base) == WithoutRow(RowsUnder(front + [last], base), id)
  {
    hide StartsWith, WithoutRow, RowsUnder;
    RowsUnderOneMore(front, last, base);
    RowsUnderOneMore(WithoutRow(front, id), last, base);
    WithoutRowOneMore(front, last, id);
    WithoutRowOneMore(RowsUnder(front, base), last, id);
  }

  lemma NoRowsUnder(base: Narrow, id: int)
    ensures RowsUnder(WithoutRow([], id), base) == [] == WithoutRow(RowsUnder([], base), id)
  {
  }

  lemma WithoutRowOneMore(rows: seq<RoomRow>, row: RoomRow, id: int)
    ensures WithoutRow(rows + [row], id) == if row.id == id then WithoutRow(rows, id) else WithoutRow(rows, id) + [row]
  {
    assert (rows + [row])[..|rows|] == rows;
  }

  lemma SameRoomSameRow(g: Registry, room: Record, r: Record)
    requires NumbersDiffer(g.rooms) && RowsDiffer(g.rooms) && room in g.rooms && r in g.rooms && r.IsStored()
    ensures r.roomId == room.roomId <==> r.dbId == if room.IsPersistent() then room.dbId else -1
  {
    var i :| 0 <= i < |g.rooms| && g.rooms[i] == room;
    var j :| 0 <= j < |g.rooms| && g.rooms[j] == r;
  }

  lemma DestroyKeeps(g: Registry, room: Record, base: Wide)
    requires Kept(g, base) && NumbersDiffer(g.rooms) && room in g.rooms
    ensures Kept(Destroy(g, room), base)
  {
    var found, narrow := StoredUnder(g.rooms, base), FromWideString(base);
    var dbId := if room.IsPersistent() then room.dbId else -1;
    StoredUnderHolds(g.rooms, base);
    forall r | r in found ensures r.dbId >= -1 && (r.IsStored() ==> (r.roomId == room.roomId <==> r.dbId == dbId)) {
      var i :| 0 <= i < |g.rooms| && g.rooms[i] == r;
      assert RoomOk(g.rooms[i], g.lastId);
      if r.IsStored() {
        SameRoomSameRow(g, room, r);
      }
    }
    RemovedTogether(found, room.roomId, dbId);
    StoredUnderWithout(g.rooms, base, room.roomId);
    RowsUnderWithout(g.rows, narrow, dbId);
    NoRowIsMinusOne(g.rows);
    WithoutRoomKeepsRowsDiffer(g.rooms, room.roomId);
    hide StoredUnder, SavedRows, RowsUnder, RowsDiffer, FromWideString;
    var kept := WithoutRoom(g.rooms, room.roomId);
    forall i | 0 <= i < |kept| ensures RoomOk(kept[i], g.lastId) {
      assert kept[i] in g.rooms;
      var j :| 0 <= j < |g.rooms| && g.rooms[j] == kept[i];
      assert RoomOk(g.rooms[j], g.lastId);
    }
  }

  // ----- loading -----

  lemma {:induction false} LoadsRowsUnder(rows: seq<RoomRow>, base: Narrow, next: nat)
    ensures LoadRows(rows, base, next) == LoadRows(RowsUnder(rows, base), base, next)
  {
    hide StartsWith, RecordFor, RoomExists;
    if rows != [] {
      LoadsRowsUnder(rows[..|rows| - 1], base, next);
      var found, last := RowsUnder(rows[..|rows| - 1], base), rows[|rows| - 1];
      assert (found + [last])[..|found|] == found;
    }
  }

  lemma {:induction false} RowsUnderCounted(rows: seq<RoomRow>, base: Narrow)
    ensures |RowsUnder(rows, base)| == Matching(rows, base)
  {
    if rows != [] {
      RowsUnderCounted(rows[..|rows| - 1], base);
    }
  }

  /** Rooms that are all stored, under the base. */
  ghost predicate AllFound(found: seq<Record>, base: Wide) {
    forall i :: 0 <= i < |found| ==> found[i].IsStored() && found[i].dbId >= 0 && Under(found[i], base)
  }

  lemma {:induction false} StoredUnderIsFound(rooms: seq<Record>, base: Wide)
    requires forall i :: 0 <= i < |rooms| ==> rooms[i].dbId >= -1
    ensures AllFound(StoredUnder(rooms, base), base)
  {
    hide Under, Record.IsPersistent;
    if rooms != [] {
      StoredUnderIsFound(rooms[..|rooms| - 1], base);
    }
  }

  lemma {:induction false} StoredUnderKeepsRowsDiffer(rooms: seq<Record>, base: Wide)
    requires RowsDiffer(rooms)
    ensures RowsDiffer(StoredUnder(rooms, base))
  {
    if rooms != [] {
      var front, last := rooms[..|rooms| - 1], rooms[|rooms| - 1];
      StoredUnderKeepsRowsDiffer(front, base);
      StoredUnderHolds(front, base);
      var found := StoredUnder(front, base);
      forall i | 0 <= i < |found| && found[i].IsStored() && last.IsStored() ensures found[i].dbId != last.dbId {
        assert found[i] in front;
      }
      assert RowsDiffer(found + [last]) || !last.IsStored();
    }
  }

  lemma RenumberedOneMore(found: seq<Record>, last: Record, next: nat)
    ensures Renumbered(found + [last], next) == Renumbered(found, next) + [last.(roomId := next + |found|)]
  {
  }

  lemma NothingFound(base: Wide, next: nat)
    ensures SavedRows([]) == [] && StoredUnder([], base) == [] && Renumbered([], next) == []
  {
  }

  lemma SameUnderAnyNumber(r: Record, roomId: nat, base: Wide)
    ensures var again := r.(roomId := roomId);
            && again.IsStored() == r.IsStored() && Under(again, base) == Under(r, base)
            && SafeRecord(again) == SafeRecord(r)
            && (r.dbId >= 0 ==> RowFor(again, again.dbId) == RowFor(r, r.dbId))
  {
  }

  /** Renumbering changes neither what is stored nor what is under the base. */
  lemma {:induction false} RenumberedIsFound(found: seq<Record>, base: Wide, next: nat)
    requires AllFound(found, base)
    ensures SavedRows(Renumbered(found, next)) == SavedRows(found) && |SavedRows(found)| == |found|
    ensures StoredUnder(Renumbered(found, next), base) == Renumbered(found, next)
    ensures StoredUnder(found, base) == found
  {
    hide Under, Record.IsPersistent, Record.IsStored, Renumbered, SavedRows, StoredUnder, RowFor;
    if found == [] {
      NothingFound(base, next);
    } else {
      var n := |found| - 1;
      var front, last := found[..n], found[n];
      RenumberedIsFound(front, base, next);
      assert found == front + [last];
      RenumberedOneMore(front, last, next);
      SavedOneMore(front, last, base);
      SavedOneMore(Renumbered(front, next), last.(roomId := next + n), base);
      SameUnderAnyNumber(last, next + n, base);
    }
  }

  /** Loading brings back the live stored rooms under the base. */
  lemma LoadsFound(g: Registry, base: Wide, next: nat)
    requires Kept(g, base) && AddressesDiffer(g.rooms) && NarrowSafe(base)
    requires next + Matching(g.rows, FromWideString(base)) < WRAP
    ensures AllFound(StoredUnder(g.rooms, base), base)
    ensures LoadRows(g.rows, FromWideString(base), next).0 == Renumbered(StoredUnder(g.rooms, base), next)
  {
    var found, narrow := StoredUnder(g.rooms, base), FromWideString(base);
    forall i | 0 <= i < |g.rooms| ensures g.rooms[i].dbId >= -1 {
      assert RoomOk(g.rooms[i], g.lastId);
    }
    StoredUnderIsFound(g.rooms, base);
    StoredUnderHolds(g.rooms, base);
    StoredUnderIsOrdered(g.rooms, base);
    RenumberedIsFound(found, base, next);
    RowsUnderCounted(g.rows, narrow);
    LoadsRowsUnder(g.rows, narrow, next);
    hide StoredUnder, SavedRows, RowsUnder, LoadRows, Matching, FromWideString, AddressesDiffer, Renumbered, NarrowSafe;
    forall i | 0 <= i < |found| ensures found[i].dbId >= -1 && SafeRecord(found[i]) {
      var j :| 0 <= j < |g.rooms| && g.rooms[j] == found[i];
      assert RoomOk(g.rooms[j], g.lastId);
    }
    LoadingSavedRows(found, base, next);
  }

  lemma LoadKeeps(g: Registry, base: Wide, others: seq<Record>, next: nat)
    requires Kept(g, base) && AddressesDiffer(g.rooms) && NarrowSafe(base)
    requires next + Matching(g.rows, FromWideString(base)) < WRAP
    ensures Kept(Load(Registry(others, next, g.rows, g.lastId), base), base)
  {
    var found := StoredUnder(g.rooms, base);
    LoadsFound(g, base, next);
    RenumberedIsFound(found, base, next);
    RenumberedIsOk(g, base, next);
  }

  lemma RenumberedIsOk(g: Registry, base: Wide, next: nat)
    requires Kept(g, base)
    ensures var again := Renumbered(StoredUnder(g.rooms, base), next);
            RowsDiffer(again) && forall i :: 0 <= i < |again| ==> RoomOk(again[i], g.lastId)
  {
    var found := StoredUnder(g.rooms, base);
    StoredUnderKeepsRowsDiffer(g.rooms, base);
    StoredUnderHolds(g.rooms, base);
    hide StoredUnder, SavedRows, RowsUnder, FromWideString, SafeRecord;
    var again := Renumbered(found, next);
    forall i | 0 <= i < |again| ensures RoomOk(again[i], g.lastId) {
      var j :| 0 <= j < |g.rooms| && g.rooms[j] == found[i];
      assert RoomOk(g.rooms[j], g.lastId);
      SameUnderAnyNumber(found[i], next + i, base);
    }
  }

  // ----- whole runs -----

  lemma EventKeeps(g: Registry, e: Event, base: Wide)
    requires Unique(g) && Kept(g, base) && NarrowSafe(base) && Ordinary(e, base) && Fits(g, e, base)
    ensures Unique(Happen(g, e, base)) && Kept(Happen(g, e, base), base)
  {
    hide Kept, Create, Destroy, Load, NarrowSafe, SafeRequest, AddressesDiffer, NumbersDiffer;
    match e
    case Do(a) =>
      StepKeepsUnique(g, a);
      match a {
        case CreateRoom(q, dbOk) => CreateKeeps(g, q, dbOk, base);
        case DestroyRoom(i) =>
          if i < |g.rooms| {
            DestroyKeeps(g, g.rooms[i], base);
          }
        case LoadRooms(_) => LoadKeeps(g, base, g.rooms, g.nextRoomId);
      }
    case Restart =>
      LoadKeepsUnique(Registry([], 0, g.rows, g.lastId), base);
      LoadKeeps(g, base, [], 0);
  }

  ghost predicate NeverWraps(g: Registry, events: seq<Event>, base: Wide) {
    forall k :: 0 <= k < |events| ==> FitsThen(g, events, base, k)
  }

  ghost predicate FitsThen(g: Registry, events: seq<Event>, base: Wide, k: nat)
    requires k < |events|
  {
    Fits(AfterAll(g, events[..k], base), events[k], base)
  }

  /** Over any run of creations, destructions, loads of the base address and restarts, the rows under
      the base are exactly those of the live stored rooms under it, in order. */
  lemma {:induction false} RowsUnderBaseFollowRooms(g: Registry, events: seq<Event>, base: Wide)
    requires Unique(g) && Kept(g, base) && NarrowSafe(base) && NeverWraps(g, events, base)
    requires forall k :: 0 <= k < |events| ==> Ordinary(events[k], base)
    ensures Unique(AfterAll(g, events, base)) && Kept(AfterAll(g, events, base), base)
  {
    hide Unique, Kept, NarrowSafe, Happen, Fits, Ordinary;
    if events != [] {
      var n := |events| - 1;
      var front := events[..n];
      forall k | 0 <= k < n ensures FitsThen(g, front, base, k) && Ordinary(front[k], base) {
        assert front[..k] == events[..k] && front[k] == events[k];
        assert FitsThen(g, events, base, k) && Ordinary(events[k], base);
      }
      RowsUnderBaseFollowRooms(g, front, base);
      assert FitsThen(g, events, base, n);
      EventKeeps(AfterAll(g, front, base), events[n], base);
    }
  }

  lemma EmptyIsKept(base: Wide)
    ensures Unique(EMPTY) && Kept(EMPTY, base)
  {
  }

  /** The persistence round trip, restarts included: after any such run from an empty database a load
      brings back exactly the live stored rooms under the base, in order, every field as it was, under
      fresh unique numbers. */
  lemma RoomsSurviveRestarts(events: seq<Event>, base: Wide, others: seq<Record>, next: nat)
    requires NarrowSafe(base) && NeverWraps(EMPTY, events, base)
    requires forall k :: 0 <= k < |events| ==> Ordinary(events[k], base)
    requires next + Matching(AfterAll(EMPTY, events, base).rows, FromWideString(base)) < WRAP
    ensures var g := AfterAll(EMPTY, events, base);
            var restarted := Load(Registry(others, next, g.rows, g.lastId), base);
            && restarted.rooms == Renumbered(StoredUnder(g.rooms, base), next)
            && restarted.rows == g.rows && Unique(restarted)
  {
    hide NarrowSafe, NeverWraps, Ordinary, Kept, AfterAll, Matching, FromWideString;
    var g := AfterAll(EMPTY, events, base);
    EmptyIsKept(base);
    RowsUnderBaseFollowRooms(EMPTY, events, base);
    LoadsFound(g, base, next);
    LoadKeepsUnique(Registry(others, next, g.rows, g.lastId), base);
  }
}
