// Runs of any creations, destructions, loads of any base address, and restarts: what ties a live stored
// room to its row, and how a row leaves the table.
module RoomRows {
  import opened StringUtils
  import opened RoomRegistry
  import opened RoomRegistryRuns

  datatype Event = Do(action: Action) | Restart

  /** A restarted service knows no room and counts from zero; what it loads, and when, is up to later events. */
  function Happen(g: Registry, e: Event): Registry {
    match e
    case Do(a) => Step(g, a)
    case Restart => Registry([], 0, g.rows, g.lastId)
  }

  function AfterAll(g: Registry, events: seq<Event>): Registry {
    if events == [] then g else Happen(AfterAll(g, events[..|events| - 1]), events[|events| - 1])
  }

  /** Row ids are distinct, and only persistent rooms are stored. */
  ghost predicate RowsOk(rows: seq<RoomRow>, lastId: nat) {
    && (forall i, j :: 0 <= i < j < |rows| ==> rows[i].id != rows[j].id)
    && (forall i :: 0 <= i < |rows| ==> 1 <= rows[i].id <= lastId && rows[i].attributes / 4 % 2 == 1)
  }

  /** The room has no row, or the table holds its row with every field as it is. */
  ghost predicate HasItsRow(r: Record, rows: seq<RoomRow>) {
    r.dbId == -1 || (r.dbId >= 1 && r.IsPersistent() && RowFor(r, r.dbId) in rows)
  }

  /** Each column holds the field of its name, text narrowed. */
  lemma ColumnsHoldFields(r: Record, rows: seq<RoomRow>)
    requires HasItsRow(r, rows) && r.dbId != -1
    ensures exists row :: row in rows && row.id == r.dbId && ShowsRoom(row, r)
  {
    var row := RowFor(r, r.dbId);
    assert ShowsRoom(row, r);
  }

  ghost predicate ShowsRoom(row: RoomRow, r: Record) {
    && row.creatorId == r.creatorId && row.creatorName == FromWideString(r.creatorName)
    && row.creatorAddress == FromWideString(r.creatorAddress) && row.name == FromWideString(r.name)
    && row.topic == FromWideString(r.topic) && row.password == FromWideString(r.password)
    && row.prefix == FromWideString(r.prefix) && row.address == FromWideString(r.address)
    && row.attributes == r.attributes && row.maxSize == r.maxSize && row.messageId == r.messageId
    && row.createdAt == r.createTime && row.nodeLevel == r.nodeLevel
  }

  /** Every live stored room has its row, and no two share one. */
  ghost predicate Backed(g: Registry) {
    && RowsOk(g.rows, g.lastId)
    && RowsDiffer(g.rooms)
    && forall i :: 0 <= i < |g.rooms| ==> HasItsRow(g.rooms[i], g.rows)
  }

  // ----- creating -----

  lemma RowIdInRange(r: Record, rows: seq<RoomRow>, lastId: nat)
    requires RowsOk(rows, lastId) && HasItsRow(r, rows)
    ensures r.dbId <= lastId
  {
    if r.dbId != -1 {
      var i :| 0 <= i < |rows| && rows[i] == RowFor(r, r.dbId);
    }
  }

  lemma CreateKeepsBacked(g: Registry, q: Request, dbOk: bool)
    requires Backed(g)
    ensures Backed(Create(g, q, dbOk).0)
  {
    var after := Create(g, q, dbOk).0;
    forall i | 0 <= i < |g.rooms| ensures g.rooms[i].dbId <= g.lastId {
      RowIdInRange(g.rooms[i], g.rows, g.lastId);
    }
    if after.rooms != g.rooms {
      hide FromWideString, KeyTaken, RoomExists;
      var room := after.rooms[|g.rooms|];
      assert room.dbId != -1 ==> after.rows == g.rows + [RowFor(room, room.dbId)];
      forall i | 0 <= i < |g.rooms| ensures HasItsRow(g.rooms[i], after.rows) {
      }
      assert room.dbId != -1 ==> after.rows[|g.rows|] == RowFor(room, room.dbId);
    }
  }

  // ----- destroying -----

  lemma {:induction false} WithoutRowKeepsOk(rows: seq<RoomRow>, lastId: nat, id: int)
    requires RowsOk(rows, lastId)
    ensures RowsOk(WithoutRow(rows, id), lastId)
  {
    if rows != [] {
      var front, last := rows[..|rows| - 1], rows[|rows| - 1];
      WithoutRowKeepsOk(front, lastId, id);
      var kept := WithoutRow(front, id);
      forall i | 0 <= i < |kept| ensures kept[i].id != last.id {
        assert kept[i] in front;
      }
      OneMoreRowIsOk(kept, lastId, last);
    }
  }

  lemma OneMoreRowIsOk(rows: seq<RoomRow>, lastId: nat, row: RoomRow)
    requires RowsOk(rows, lastId) && 1 <= row.id <= lastId && row.attributes / 4 % 2 == 1
    requires forall i :: 0 <= i < |rows| ==> rows[i].id != row.id
    ensures RowsOk(rows + [row], lastId)
  {
  }

  lemma OthersKeepTheirRows(g: Registry, room: Record, r: Record)
    requires Backed(g) && NumbersDiffer(g.rooms) && room in g.rooms && r in g.rooms && r.roomId != room.roomId
    ensures HasItsRow(r, Destroy(g, room).rows)
  {
    hide FromWideString;
    var i :| 0 <= i < |g.rooms| && g.rooms[i] == room;
    var j :| 0 <= j < |g.rooms| && g.rooms[j] == r;
    assert HasItsRow(g.rooms[i], g.rows) && HasItsRow(g.rooms[j], g.rows);
  }

  lemma DestroyKeepsBacked(g: Registry, room: Record)
    requires Backed(g) && NumbersDiffer(g.rooms) && room in g.rooms
    ensures Backed(Destroy(g, room))
  {
    var kept := WithoutRoom(g.rooms, room.roomId);
    WithoutRowKeepsOk(g.rows, g.lastId, room.dbId);
    WithoutRoomKeepsRowsDiffer(g.rooms, room.roomId);
    forall i | 0 <= i < |kept| ensures HasItsRow(kept[i], Destroy(g, room).rows) {
      assert kept[i] in g.rooms && kept[i].roomId != room.roomId;
      OthersKeepTheirRows(g, room, kept[i]);
    }
  }

  // ----- loading -----

  lemma RowRoundTrip(row: RoomRow, roomId: nat)
    ensures RowFor(RecordFor(row, roomId), row.id) == row
  {
    NarrowOfWiden(row.creatorName);
    NarrowOfWiden(row.creatorAddress);
    NarrowOfWiden(row.name);
    NarrowOfWiden(row.topic);
    NarrowOfWiden(row.password);
    NarrowOfWiden(row.prefix);
    NarrowOfWiden(row.address);
  }

  /** Loaded rooms stand for different rows of the table. */
  lemma {:induction false} LoadedAreBacked(rows: seq<RoomRow>, lastId: nat, base: Narrow, next: nat)
    requires RowsOk(rows, lastId)
    ensures var rooms := LoadRows(rows, base, next).0;
            RowsDiffer(rooms) && forall i :: 0 <= i < |rooms| ==> HasItsRow(rooms[i], rows) && rooms[i].dbId != -1
  {
    hide StartsWith, RecordFor, RowFor, RoomExists;
    if rows != [] {
      var front, last := rows[..|rows| - 1], rows[|rows| - 1];
      LoadedAreBacked(front, lastId, base, next);
      var (rooms, n) := LoadRows(front, base, next);
      assert rows == front + [last];
      forall i | 0 <= i < |rooms| ensures HasItsRow(rooms[i], rows) && rooms[i].dbId != last.id {
        assert HasItsRow(rooms[i], front);
        RowOfLoaded(rooms[i], front);
      }
      LoadedHasItsRow(last, n, rows);
    }
  }

  lemma RowOfLoaded(r: Record, rows: seq<RoomRow>)
    requires HasItsRow(r, rows) && r.dbId != -1
    ensures exists i :: 0 <= i < |rows| && rows[i].id == r.dbId
  {
    var i :| 0 <= i < |rows| && rows[i] == RowFor(r, r.dbId);
  }

  lemma LoadedHasItsRow(row: RoomRow, roomId: nat, rows: seq<RoomRow>)
    requires row in rows && row.id >= 1 && row.attributes / 4 % 2 == 1
    ensures HasItsRow(RecordFor(row, roomId), rows) && RecordFor(row, roomId).dbId == row.id
  {
    RowRoundTrip(row, roomId);
  }

  /** A load leaves no row under its base without a live room of that address. */
  lemma {:induction false} LoadFindsEveryAddress(rows: seq<RoomRow>, base: Narrow, next: nat, row: RoomRow)
    requires row in rows && StartsWith(row.address, base)
    ensures RoomExists(LoadRows(rows, base, next).0, ToWideString(row.address))
  {
    hide StartsWith, FromWideString, ToWideString;
    var front, last := rows[..|rows| - 1], rows[|rows| - 1];
    assert rows == front + [last];
    var (rooms, n) := LoadRows(front, base, next);
    var loaded := LoadRows(rows, base, next).0;
    if row == last {
      if !RoomExists(rooms, ToWideString(last.address)) {
        assert loaded[|rooms|].address == ToWideString(last.address);
      }
    } else {
      LoadFindsEveryAddress(front, base, next, row);
      var i :| 0 <= i < |rooms| && rooms[i].address == ToWideString(row.address);
      assert loaded[i] == rooms[i];
    }
  }

  // ----- whole runs -----

  ghost predicate Fits(g: Registry, e: Event) {
    e.Do? ==> g.nextRoomId + Taken(g, e.action) < WRAP
  }

  lemma EventKeepsBacked(g: Registry, e: Event)
    requires Unique(g) && Backed(g) && Fits(g, e)
    ensures Unique(Happen(g, e)) && Backed(Happen(g, e))
  {
    hide Create, Destroy, NumbersDiffer, AddressesDiffer;
    match e
    case Do(a) =>
      StepKeepsUnique(g, a);
      match a {
        case CreateRoom(q, dbOk) => CreateKeepsBacked(g, q, dbOk);
        case DestroyRoom(i) =>
          if i < |g.rooms| {
            DestroyKeepsBacked(g, g.rooms[i]);
          }
        case LoadRooms(base) => LoadedAreBacked(g.rows, g.lastId, FromWideString(base), g.nextRoomId);
      }
    case Restart => RestartIsUnique(g);
  }

  lemma RestartIsUnique(g: Registry)
    ensures Unique(Happen(g, Restart))
  {
  }

  ghost predicate FitsThen(g: Registry, events: seq<Event>, k: nat)
    requires k < |events|
  {
    Fits(AfterAll(g, events[..k]), events[k])
  }

  ghost predicate NeverWraps(g: Registry, events: seq<Event>) {
    forall k :: 0 <= k < |events| ==> FitsThen(g, events, k)
  }

  lemma FrontNeverWraps(g: Registry, events: seq<Event>)
    requires events != [] && NeverWraps(g, events)
    ensures NeverWraps(g, events[..|events| - 1])
    ensures Fits(AfterAll(g, events[..|events| - 1]), events[|events| - 1])
  {
    var front := events[..|events| - 1];
    forall k | 0 <= k < |front| ensures FitsThen(g, front, k) {
      assert front[..k] == events[..k];
      assert FitsThen(g, events, k);
    }
    assert FitsThen(g, events, |events| - 1);
  }

  /** Over any such run every live stored room has its row, with every field as in memory. */
  lemma {:induction false} RoomsKeepTheirRows(g: Registry, events: seq<Event>)
    requires Unique(g) && Backed(g) && NeverWraps(g, events)
    ensures Unique(AfterAll(g, events)) && Backed(AfterAll(g, events))
  {
    hide Unique, Backed, Happen, Fits, NeverWraps;
    if events != [] {
      var front := events[..|events| - 1];
      FrontNeverWraps(g, events);
      RoomsKeepTheirRows(g, front);
      EventKeepsBacked(AfterAll(g, front), events[|events| - 1]);
    }
  }

  /** The event destroys the live room this row stands for. */
  ghost predicate DestroysRoomOf(g: Registry, e: Event, row: RoomRow) {
    && e.Do? && e.action.DestroyRoom? && e.action.index < |g.rooms|
    && g.rooms[e.action.index].dbId == row.id && RowFor(g.rooms[e.action.index], row.id) == row
  }

  lemma CreateRemovesNoRow(g: Registry, q: Request, dbOk: bool, row: RoomRow)
    requires row in g.rows
    ensures row in Create(g, q, dbOk).0.rows
  {
    hide RowFor, KeyTaken, RoomExists;
  }

  lemma DestroyRemovesOneRow(g: Registry, room: Record, row: RoomRow)
    requires Backed(g) && room in g.rooms && row in g.rows && row !in Destroy(g, room).rows
    ensures room.dbId == row.id && RowFor(room, row.id) == row
  {
    hide FromWideString, RowsDiffer;
    assert room.dbId == row.id;
    assert HasItsRow(room, g.rows);
    var i :| 0 <= i < |g.rows| && g.rows[i] == row;
    var j :| 0 <= j < |g.rows| && g.rows[j] == RowFor(room, room.dbId);
  }

  lemma RowLeavesWithItsRoom(g: Registry, e: Event, row: RoomRow)
    requires Backed(g) && row in g.rows && row !in Happen(g, e).rows
    ensures DestroysRoomOf(g, e, row)
  {
    hide Backed, Create, Destroy, LoadRows, RowFor;
    if e.Do? {
      if e.action.CreateRoom? {
        CreateRemovesNoRow(g, e.action.request, e.action.dbOk, row);
      } else if e.action.DestroyRoom? {
        DestroyRemovesOneRow(g, g.rooms[e.action.index], row);
      }
    }
  }

  ghost predicate DestroyedAt(g: Registry, events: seq<Event>, k: nat, row: RoomRow)
    requires k < |events|
  {
    DestroysRoomOf(AfterAll(g, events[..k]), events[k], row)
  }

  /** And a row leaves the table only by the destruction of its room: a stored room that is not destroyed
      outlives every restart. */
  lemma {:induction false} RowsLeaveOnlyWithTheirRooms(g: Registry, events: seq<Event>, row: RoomRow)
    requires Unique(g) && Backed(g) && NeverWraps(g, events)
    requires row in g.rows && row !in AfterAll(g, events).rows
    ensures exists k: nat :: k < |events| && DestroyedAt(g, events, k, row)
  {
    hide Unique, Backed, Happen, Fits, NeverWraps, DestroysRoomOf;
    var n := |events| - 1;
    var front := events[..n];
    FrontNeverWraps(g, events);
    if row in AfterAll(g, front).rows {
      RoomsKeepTheirRows(g, front);
      RowLeavesWithItsRoom(AfterAll(g, front), events[n], row);
      assert DestroyedAt(g, events, n, row);
    } else {
      RowsLeaveOnlyWithTheirRooms(g, front, row);
      var k: nat :| k < |front| && DestroyedAt(g, front, k, row);
      assert front[..k] == events[..k];
      assert DestroyedAt(g, events, k, row);
    }
  }
}
