// The room registry against its requests alone: which requested rooms are live, under which numbers, and what
// a restarted service finds of them. Nothing here speaks of rows or row ids.
module RoomRequests {
  import opened StringUtils
  import opened RoomRegistry
  import opened RoomRegistryRuns
  import opened RoomRestarts

  /** A requested room that is live, and its number. */
  datatype Live = Live(request: Request, number: nat)
  {
    /** The room's full address: the address asked for, a plus sign, and the name. */
    function Address(): Wide {
      AddressOf(request)
    }

    predicate IsPersistent() {
      request.attributes / 4 % 2 == 1
    }

    ghost predicate IsUnder(base: Wide) {
      |base| <= |Address()| && Address()[..|base|] == base
    }
  }

  function AddressOf(q: Request): Wide {
    q.address + [0x2B] + q.name
  }

  /** The persistent ones among the rooms whose address starts with the base, in order. */
  ghost function Lasting(live: seq<Live>, base: Wide): seq<Live> {
    if live == [] then []
    else
      var front, last := Lasting(live[..|live| - 1], base), live[|live| - 1];
      if last.IsPersistent() && last.IsUnder(base) then front + [last] else front
  }

  ghost function Numbered(live: seq<Live>, next: nat): (r: seq<Live>)
    ensures |r| == |live| && forall i :: 0 <= i < |r| ==> r[i] == Live(live[i].request, next + i)
  {
    seq(|live|, i requires 0 <= i < |live| => Live(live[i].request, next + i))
  }

  ghost predicate IsTaken(live: seq<Live>, address: Wide) {
    exists i :: 0 <= i < |live| && live[i].Address() == address
  }

  datatype Ledger = Ledger(live: seq<Live>, next: nat)

  /** A request whose address is free makes a room; destroying forgets it; a load or restart keeps the lasting
      rooms under the base and gives them new numbers. */
  ghost function Note(b: Ledger, e: Event, base: Wide): Ledger {
    match e
    case Do(CreateRoom(q, _)) =>
      if IsTaken(b.live, AddressOf(q)) then b else Ledger(b.live + [Live(q, b.next)], b.next + 1)
    case Do(DestroyRoom(i)) =>
      if i < |b.live| then b.(live := b.live[..i] + b.live[i + 1..]) else b
    case Do(LoadRooms(_)) =>
      Ledger(Numbered(Lasting(b.live, base), b.next), b.next + |Lasting(b.live, base)|)
    case Restart =>
      Ledger(Numbered(Lasting(b.live, base), 0), |Lasting(b.live, base)|)
  }

  ghost function Noted(events: seq<Event>, base: Wide): Ledger {
    if events == [] then Ledger([], 0) else Note(Noted(events[..|events| - 1], base), events[|events| - 1], base)
  }

  /** The room in memory has its number and every field as its request supplied it. */
  ghost predicate Carries(r: Record, l: Live) {
    var q := l.request;
    && r.roomId == l.number && r.address == l.Address() && r.name == q.name && r.topic == q.topic
    && r.password == q.password && r.prefix == [] && r.creatorId == q.creatorId && r.creatorName == q.creatorName
    && r.creatorAddress == q.creatorAddress && r.attributes == q.attributes && r.maxSize == q.maxSize
    && r.messageId == 1 && r.createTime == 0 && r.nodeLevel == 0
  }

  ghost predicate CarryAll(rooms: seq<Record>, live: seq<Live>) {
    |rooms| == |live| && forall i :: 0 <= i < |rooms| ==> Carries(rooms[i], live[i])
  }

  /** Persistent rooms under the base are stored. */
  ghost predicate AllStored(rooms: seq<Record>, live: seq<Live>, base: Wide)
    requires |rooms| == |live|
  {
    forall i :: 0 <= i < |live| ==> live[i].IsPersistent() && live[i].IsUnder(base) ==> rooms[i].IsStored()
  }

  ghost predicate Follows(g: Registry, b: Ledger, base: Wide) {
    CarryAll(g.rooms, b.live) && AllStored(g.rooms, b.live, base) && g.nextRoomId == b.next
  }

  // ----- creating -----

  lemma TakenIsLive(rooms: seq<Record>, live: seq<Live>, address: Wide)
    requires CarryAll(rooms, live)
    ensures RoomExists(rooms, address) <==> IsTaken(live, address)
  {
    if i :| 0 <= i < |rooms| && rooms[i].address == address {
      assert Carries(rooms[i], live[i]) && live[i].Address() == address;
    }
    if i :| 0 <= i < |live| && live[i].Address() == address {
      assert Carries(rooms[i], live[i]) && rooms[i].address == address;
    }
  }

  lemma {:induction false} RowAmongSaved(rooms: seq<Record>, row: RoomRow) returns (r: Record)
    requires row in SavedRows(rooms)
    ensures r in rooms && row == RowFor(r, row.id)
  {
    hide RowFor, Record.IsStored;
    var front, last := rooms[..|rooms| - 1], rooms[|rooms| - 1];
    if row in SavedRows(front) {
      r := RowAmongSaved(front, row);
    } else {
      r := last;
      RowHasItsId(last, last.dbId);
    }
  }

  lemma RowHasItsId(r: Record, id: nat)
    ensures RowFor(r, id).id == id && RowFor(r, id).address == FromWideString(r.address)
  {
  }

  lemma {:induction false} RowIsUnder(rows: seq<RoomRow>, row: RoomRow, base: Narrow)
    requires row in rows && StartsWith(row.address, base)
    ensures row in RowsUnder(rows, base)
  {
    var front, last := rows[..|rows| - 1], rows[|rows| - 1];
    assert rows == front + [last];
    if row != last {
      RowIsUnder(front, row, base);
    }
  }

  /** With narrow-safe text no row under the base has the address of a new room. */
  lemma AddressIsFree(g: Registry, room: Record, base: Wide)
    requires Kept(g, base) && NarrowSafe(base) && NarrowSafe(room.address) && Under(room, base)
    requires !RoomExists(g.rooms, room.address)
    ensures forall row :: row in g.rows ==> row.address != FromWideString(room.address)
  {
    forall row | row in g.rows ensures row.address != FromWideString(room.address) {
      if row.address == FromWideString(room.address) {
        StartsWithIsUnder(room, base);
        hide FromWideString, StartsWith, NarrowSafe, Under;
        RowIsUnder(g.rows, row, FromWideString(base));
        var r := RowAmongSaved(StoredUnder(g.rooms, base), row);
        RowHasItsId(r, row.id);
        StoredUnderHolds(g.rooms, base);
        var i :| 0 <= i < |g.rooms| && g.rooms[i] == r;
        assert RoomOk(g.rooms[i], g.lastId);
        WidenOfNarrow(r.address);
        WidenOfNarrow(room.address);
        assert false;
      }
    }
  }

  lemma OneMoreCarries(rooms: seq<Record>, live: seq<Live>, r: Record, l: Live, base: Wide)
    requires CarryAll(rooms, live) && AllStored(rooms, live, base) && Carries(r, l)
    requires l.IsPersistent() && l.IsUnder(base) ==> r.IsStored()
    ensures CarryAll(rooms + [r], live + [l]) && AllStored(rooms + [r], live + [l], base)
  {
    hide Carries, Live.IsPersistent, Live.IsUnder, Record.IsStored;
  }

  lemma CreateFollows(g: Registry, b: Ledger, q: Request, base: Wide)
    requires Follows(g, b, base) && Kept(g, base) && NarrowSafe(base) && SafeRequest(q) && g.nextRoomId + 1 < WRAP
    ensures Follows(Create(g, q, true).0, Note(b, Do(CreateRoom(q, true)), base), base)
    ensures Create(g, q, true).1 <==> !IsTaken(b.live, AddressOf(q))
  {
    TakenIsLive(g.rooms, b.live, AddressOf(q));
    assert q.FullAddress() == AddressOf(q);
    if !IsTaken(b.live, AddressOf(q)) {
      var room, l := NewRecord(q, g.nextRoomId, -1), Live(q, b.next);
      var stored := room.(dbId := g.lastId + 1);
      if l.IsPersistent() && l.IsUnder(base) {
        assert NarrowSafe(room.address);
        AddressIsFree(g, room, base);
        KeyIsFree(g.rows, room, g.lastId + 1);
      }
      hide NarrowSafe, Kept, FromWideString, KeyTaken, RoomExists, Live.IsUnder, CarryAll, AllStored;
      var made := Create(g, q, true).0.rooms[|g.rooms|];
      assert made == room || made == stored;
      OneMoreCarries(g.rooms, b.live, made, l, base);
    }
  }

  lemma KeyIsFree(rows: seq<RoomRow>, room: Record, id: nat)
    requires forall row :: row in rows ==> row.address != FromWideString(room.address)
    ensures !KeyTaken(rows, RowFor(room, id))
  {
  }

  // ----- destroying -----

  lemma WithoutRoomOneMore(front: seq<Record>, last: Record, roomId: nat)
    ensures WithoutRoom(front + [last], roomId)
         == if last.roomId == roomId then WithoutRoom(front, roomId) else WithoutRoom(front, roomId) + [last]
  {
    assert (front + [last])[..|front|] == front;
  }

  lemma WithoutRoomOfNone(roomId: nat)
    ensures WithoutRoom([], roomId) == []
  {
  }

  lemma {:induction false} NobodyHasNumber(rooms: seq<Record>, roomId: nat)
    requires forall i :: 0 <= i < |rooms| ==> rooms[i].roomId != roomId
    ensures WithoutRoom(rooms, roomId) == rooms
  {
    hide WithoutRoom;
    if rooms == [] {
      WithoutRoomOfNone(roomId);
    } else {
      var front, last := rooms[..|rooms| - 1], rooms[|rooms| - 1];
      assert rooms == front + [last];
      NobodyHasNumber(front, roomId);
      WithoutRoomOneMore(front, last, roomId);
    }
  }

  lemma CutBeforeLast(front: seq<Record>, last: Record, i: nat)
    requires i <= |front|
    ensures var rooms := front + [last];
            rooms[..i] + rooms[i + 1..] == if i == |front| then front else front[..i] + front[i + 1..] + [last]
  {
  }

  lemma {:induction false} WithoutRoomOf(rooms: seq<Record>, i: nat)
    requires NumbersDiffer(rooms) && i < |rooms|
    ensures WithoutRoom(rooms, rooms[i].roomId) == rooms[..i] + rooms[i + 1..]
  {
    hide WithoutRoom;
    var n := |rooms| - 1;
    var front, last := rooms[..n], rooms[n];
    assert rooms == front + [last];
    WithoutRoomOneMore(front, last, rooms[i].roomId);
    CutBeforeLast(front, last, i);
    if i == n {
      NobodyHasNumber(front, last.roomId);
    } else {
      WithoutRoomOf(front, i);
    }
  }

  lemma OneFewerCarries(rooms: seq<Record>, live: seq<Live>, i: nat, base: Wide)
    requires CarryAll(rooms, live) && AllStored(rooms, live, base) && i < |rooms|
    ensures var (left, kept) := (rooms[..i] + rooms[i + 1..], live[..i] + live[i + 1..]);
            CarryAll(left, kept) && AllStored(left, kept, base)
  {
    hide Carries, Live.IsPersistent, Live.IsUnder, Record.IsStored;
    var left, kept := rooms[..i] + rooms[i + 1..], live[..i] + live[i + 1..];
    forall j | 0 <= j < |left|
      ensures Carries(left[j], kept[j])
      ensures kept[j].IsPersistent() && kept[j].IsUnder(base) ==> left[j].IsStored()
    {
      var k := if j < i then j else j + 1;
      assert left[j] == rooms[k] && kept[j] == live[k];
    }
  }

  lemma DestroyFollows(g: Registry, b: Ledger, i: nat, base: Wide)
    requires Follows(g, b, base) && NumbersDiffer(g.rooms) && i < |g.rooms|
    ensures Follows(Destroy(g, g.rooms[i]), Note(b, Do(DestroyRoom(i)), base), base)
  {
    hide CarryAll, AllStored, WithoutRow, WithoutRoom, NumbersDiffer;
    WithoutRoomOf(g.rooms, i);
    SameLength(g.rooms, b.live);
    OneFewerCarries(g.rooms, b.live, i, base);
  }

  // ----- loading -----

  lemma LastingOneMore(front: seq<Live>, last: Live, base: Wide)
    ensures Lasting(front + [last], base)
         == if last.IsPersistent() && last.IsUnder(base) then Lasting(front, base) + [last] else Lasting(front, base)
  {
    assert (front + [last])[..|front|] == front;
  }

  lemma NothingLasts(base: Wide)
    ensures StoredUnder([], base) == [] && Lasting([], base) == []
  {
  }

  lemma CarriesFacts(r: Record, l: Live, base: Wide)
    requires Carries(r, l)
    ensures (Under(r, base) <==> l.IsUnder(base)) && (r.IsPersistent() <==> l.IsPersistent())
  {
  }

  /** The stored rooms under the base are the lasting ones. */
  lemma {:induction false} StoredIsLasting(rooms: seq<Record>, live: seq<Live>, base: Wide)
    requires CarryAll(rooms, live) && AllStored(rooms, live, base)
    ensures CarryAll(StoredUnder(rooms, base), Lasting(live, base))
    ensures forall i :: 0 <= i < |StoredUnder(rooms, base)| ==> StoredUnder(rooms, base)[i].IsStored()
  {
    hide StoredUnder, Lasting, Carries, Live.IsUnder, Live.IsPersistent, Under, Record.IsPersistent;
    if rooms == [] {
      NothingLasts(base);
    } else {
      var n := |rooms| - 1;
      var front, r, some, l := rooms[..n], rooms[n], live[..n], live[n];
      StoredIsLasting(front, some, base);
      assert rooms == front + [r] && live == some + [l];
      CarriesFacts(r, l, base);
      SavedOneMore(front, r, base);
      LastingOneMore(some, l, base);
    }
  }

  lemma RenumberedCarries(rooms: seq<Record>, live: seq<Live>, next: nat, base: Wide)
    requires CarryAll(rooms, live) && forall i :: 0 <= i < |rooms| ==> rooms[i].IsStored()
    ensures CarryAll(Renumbered(rooms, next), Numbered(live, next))
    ensures AllStored(Renumbered(rooms, next), Numbered(live, next), base)
  {
    forall i | 0 <= i < |rooms| ensures Carries(Renumbered(rooms, next)[i], Numbered(live, next)[i]) {
      assert Carries(rooms[i], live[i]);
    }
  }

  lemma LoadFollows(g: Registry, b: Ledger, base: Wide, others: seq<Record>, next: nat)
    requires Follows(g, b, base) && Kept(g, base) && Unique(g) && NarrowSafe(base)
    requires next + Matching(g.rows, FromWideString(base)) < WRAP
    ensures var lasting := Lasting(b.live, base);
            Follows(Load(Registry(others, next, g.rows, g.lastId), base),
                    Ledger(Numbered(lasting, next), next + |lasting|), base)
  {
    hide NarrowSafe, Kept, FromWideString, AddressesDiffer, NumbersDiffer, StoredUnder, Lasting, CarryAll, AllStored;
    LoadsFound(g, base, next);
    LoadedIsUnique(g.rows, FromWideString(base), next);
    StoredIsLasting(g.rooms, b.live, base);
    RenumberedCarries(StoredUnder(g.rooms, base), Lasting(b.live, base), next, base);
    LoadTakes(g, base, next);
    assert |StoredUnder(g.rooms, base)| == |Lasting(b.live, base)| by {
      SameLength(StoredUnder(g.rooms, base), Lasting(b.live, base));
    }
  }

  lemma SameLength(rooms: seq<Record>, live: seq<Live>)
    requires CarryAll(rooms, live)
    ensures |rooms| == |live|
  {
  }

  /** A load uses up one number for each room it finds. */
  lemma LoadTakes(g: Registry, base: Wide, next: nat)
    requires Kept(g, base)
    ensures Matching(g.rows, FromWideString(base)) == |StoredUnder(g.rooms, base)|
  {
    RowsUnderCounted(g.rows, FromWideString(base));
    hide StoredUnder, FromWideString;
    forall i | 0 <= i < |g.rooms| ensures g.rooms[i].dbId >= -1 {
      assert RoomOk(g.rooms[i], g.lastId);
    }
    StoredUnderIsFound(g.rooms, base);
    RenumberedIsFound(StoredUnder(g.rooms, base), base, next);
  }

  // ----- whole runs -----

  /** Every INSERT succeeds. */
  ghost predicate Succeeding(e: Event) {
    e.Do? && e.action.CreateRoom? ==> e.action.dbOk
  }

  lemma EventFollows(g: Registry, b: Ledger, e: Event, base: Wide)
    requires Follows(g, b, base) && Kept(g, base) && Unique(g) && NarrowSafe(base)
    requires Ordinary(e, base) && Succeeding(e) && Fits(g, e, base)
    ensures Follows(Happen(g, e, base), Note(b, e, base), base)
  {
    hide Kept, NarrowSafe, SafeRequest, Create, Destroy, Load, Carries, AllStored, FromWideString;
    match e
    case Do(CreateRoom(q, _)) => CreateFollows(g, b, q, base);
    case Do(DestroyRoom(i)) =>
      if i < |g.rooms| {
        DestroyFollows(g, b, i, base);
      }
    case Do(LoadRooms(_)) => LoadFollows(g, b, base, g.rooms, g.nextRoomId);
    case Restart => LoadFollows(g, b, base, [], 0);
  }

  ghost predicate Fair(events: seq<Event>, base: Wide) {
    && NarrowSafe(base) && NeverWraps(EMPTY, events, base)
    && forall k :: 0 <= k < |events| ==> Ordinary(events[k], base) && Succeeding(events[k])
  }

  lemma FrontIsFair(events: seq<Event>, base: Wide)
    requires events != [] && Fair(events, base)
    ensures var n := |events| - 1;
            && Fair(events[..n], base) && Fits(AfterAll(EMPTY, events[..n], base), events[n], base)
            && Ordinary(events[n], base) && Succeeding(events[n])
  {
    hide Ordinary, Fits, NarrowSafe, Succeeding;
    var n := |events| - 1;
    var front := events[..n];
    forall k | 0 <= k < n ensures FitsThen(EMPTY, front, base, k) {
      assert front[..k] == events[..k];
      assert FitsThen(EMPTY, events, base, k);
    }
    assert FitsThen(EMPTY, events, base, n);
  }

  lemma KeptThroughout(events: seq<Event>, base: Wide)
    requires Fair(events, base)
    ensures var g := AfterAll(EMPTY, events, base);
            Unique(g) && Kept(g, base)
  {
    hide NeverWraps, Ordinary, NarrowSafe, Succeeding, Kept, Unique;
    EmptyIsKept(base);
    RowsUnderBaseFollowRooms(EMPTY, events, base);
  }

  /** Over any run from an empty database with narrow-safe text and successful INSERTs, the live rooms are
      those of the requests that found their address free and were not destroyed since, restarts keeping the
      persistent ones under the base; each has the fields of its request, and each persistent one under the
      base is stored. */
  lemma {:induction false} RoomsFollowRequests(events: seq<Event>, base: Wide)
    requires Fair(events, base)
    ensures Follows(AfterAll(EMPTY, events, base), Noted(events, base), base)
  {
    hide Follows, Fair, Note, Happen, Fits, Ordinary, Succeeding, Kept, Unique;
    if events == [] {
      NothingFollows(base);
    } else {
      var front := events[..|events| - 1];
      FrontIsFair(events, base);
      RoomsFollowRequests(front, base);
      KeptThroughout(front, base);
      BaseIsSafe(events, base);
      EventFollows(AfterAll(EMPTY, front, base), Noted(front, base), events[|events| - 1], base);
    }
  }

  lemma NothingFollows(base: Wide)
    ensures Follows(AfterAll(EMPTY, [], base), Noted([], base), base)
  {
  }

  lemma BaseIsSafe(events: seq<Event>, base: Wide)
    requires Fair(events, base)
    ensures NarrowSafe(base)
  {
  }

  /** The round trip, requests to loaded rooms: a service that has loaded anything or nothing, and counts from
      any number, loads exactly the lasting rooms under the base, in order, each with the fields of its request. */
  lemma LastingRoomsAreLoaded(events: seq<Event>, base: Wide, others: seq<Record>, next: nat)
    requires Fair(events, base) && next + |Lasting(Noted(events, base).live, base)| < WRAP
    ensures var g := AfterAll(EMPTY, events, base);
            CarryAll(Load(Registry(others, next, g.rows, g.lastId), base).rooms,
                     Numbered(Lasting(Noted(events, base).live, base), next))
  {
    hide Fair, Kept, Unique, Load, CarryAll, AfterAll, Noted, AllStored, NarrowSafe, StoredUnder, Lasting;
    var g, b := AfterAll(EMPTY, events, base), Noted(events, base);
    RoomsFollowRequests(events, base);
    KeptThroughout(events, base);
    BaseIsSafe(events, base);
    LoadTakes(g, base, next);
    StoredIsLasting(g.rooms, b.live, base);
    SameLength(StoredUnder(g.rooms, base), Lasting(b.live, base));
    LoadFollows(g, b, base, others, next);
  }

  /** After any such run a further creation is refused exactly if a live room has the address asked for. */
  lemma CreationRefusedExactly(events: seq<Event>, base: Wide, q: Request, dbOk: bool)
    requires Fair(events, base)
    ensures !Create(AfterAll(EMPTY, events, base), q, dbOk).1 <==> IsTaken(Noted(events, base).live, AddressOf(q))
  {
    hide Fair, AfterAll, Noted, Carries;
    RoomsFollowRequests(events, base);
    TakenIsLive(AfterAll(EMPTY, events, base).rooms, Noted(events, base).live, AddressOf(q));
  }
}
