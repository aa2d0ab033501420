// The registry of rooms and the role tables in one run: creations and destructions alone decide which
// rooms have their roles stored.
module RoomsAndRows {
  import opened StringUtils
  import Rules = RoomRules
  import Runs = RoomRuns
  import opened RoomRegistry
  import opened RoomRegistryRuns
  import T = RoomsTogether

  datatype World = World(registry: Registry, service: T.Service)

  datatype Deed =
    | Make(request: Request, dbOk: bool)
    | Unmake(index: nat)
    | Ask(number: nat, op: Rules.Op)
    | AvatarMade(id: nat)
    | AvatarUnmade(id: nat)

  /** What the registry makes of a deed. */
  function Registered(g: Registry, d: Deed): Registry {
    match d
    case Make(q, dbOk) => Create(g, q, dbOk).0
    case Unmake(i) => if i < |g.rooms| then Destroy(g, g.rooms[i]) else g
    case Ask(_, _) => g
    case AvatarMade(_) => g
    case AvatarUnmade(_) => g
  }

  /** What happens to the rooms and role tables. */
  function Events(g: Registry, d: Deed): seq<T.Event> {
    match d
    case Make(q, dbOk) =>
      var (after, made) := Create(g, q, dbOk);
      if !made then [] else Stored(g, after) + [T.Open(Rules.NewRoom(q, g.nextRoomId))]
    case Unmake(i) =>
      if i < |g.rooms| then
        var room := g.rooms[i];
        (if room.IsPersistent() && room.dbId >= 0 then [T.RowRemoved(room.dbId)] else []) + [T.Close(room.roomId)]
      else []
    case Ask(n, op) => [T.Act(n, op)]
    case AvatarMade(id) => [T.AvatarCreated(id)]
    case AvatarUnmade(id) => [T.AvatarDestroyed(id)]
  }

  function Stored(before: Registry, after: Registry): seq<T.Event> {
    if after.lastId == before.lastId then [] else [T.RowStored(after.lastId)]
  }

  function Done(w: World, d: Deed): World {
    World(Registered(w.registry, d), T.AfterAll(w.service, Events(w.registry, d)))
  }

  function AfterDeeds(w: World, deeds: seq<Deed>): World {
    if deeds == [] then w else Done(AfterDeeds(w, deeds[..|deeds| - 1]), deeds[|deeds| - 1])
  }

  // ----- the two agree on what is stored -----

  ghost function RowIds(rows: seq<RoomRow>): set<nat> {
    set row | row in rows :: row.id
  }

  lemma RowIdsWithout(rows: seq<RoomRow>, id: nat)
    ensures RowIds(WithoutRow(rows, id)) == RowIds(rows) - {id}
  {
    hide WithoutRow;
    forall row | row in rows && row.id != id ensures row.id in RowIds(WithoutRow(rows, id)) {
      assert row in WithoutRow(rows, id);
    }
  }

  lemma RowIdsOneMore(rows: seq<RoomRow>, row: RoomRow)
    ensures RowIds(rows + [row]) == RowIds(rows) + {row.id}
  {
    assert (rows + [row])[|rows|] == row;
  }

  /** The live rooms by number, and the stored rooms by row id, are the same to both. */
  ghost predicate Tied(w: World) {
    && w.service.roles.rooms == RowIds(w.registry.rows)
    && T.Numbered(w.service)
    && forall n :: n in w.service.rooms <==> IsLive(w.registry, n)
  }

  ghost predicate IsLive(g: Registry, n: nat) {
    exists i :: 0 <= i < |g.rooms| && g.rooms[i].roomId == n
  }

  lemma NoEvents(v: T.Service)
    ensures T.AfterAll(v, []) == v
  {
  }

  lemma OneEvent(v: T.Service, e: T.Event)
    ensures T.AfterAll(v, [e]) == T.Happen(v, e)
  {
    assert [e][..0] == [];
    assert T.AfterAll(v, []) == v;
  }

  lemma TwoEvents(v: T.Service, first: T.Event, second: T.Event)
    ensures T.AfterAll(v, [first] + [second]) == T.Happen(T.Happen(v, first), second)
  {
    OneEvent(v, first);
    assert ([first] + [second])[..1] == [first];
  }

  lemma Creating(g: Registry, q: Request, dbOk: bool)
    requires Create(g, q, dbOk).1
    ensures var after := Create(g, q, dbOk).0;
            && |after.rooms| > 0 && after.rooms == g.rooms + [after.rooms[|after.rooms| - 1]]
            && after.rooms[|after.rooms| - 1].roomId == g.nextRoomId
    ensures var after := Create(g, q, dbOk).0;
            if after.lastId == g.lastId then after.rows == g.rows
            else
              && |after.rows| > 0 && after.rows == g.rows + [after.rows[|after.rows| - 1]]
              && after.rows[|after.rows| - 1].id == after.lastId
  {
  }

  /** Storing a row and then opening a room, or only the latter. */
  lemma OpeningEvents(v: T.Service, stored: bool, rowId: nat, room: Rules.Room)
    requires T.Numbered(v)
    ensures var after := T.AfterAll(v, (if stored then [T.RowStored(rowId)] else []) + [T.Open(room)]);
            && T.Numbered(after) && after.rooms.Keys == v.rooms.Keys + {room.roomId}
            && after.roles.rooms == v.roles.rooms + if stored then {rowId} else {}
  {
    var opening := T.Open(room);
    OneEvent(v, opening);
    TwoEvents(v, T.RowStored(rowId), opening);
    assert [] + [opening] == [opening];
  }

  lemma MakeKeepsTied(w: World, q: Request, dbOk: bool)
    requires Tied(w)
    ensures Tied(Done(w, Make(q, dbOk)))
  {
    hide Create, IsLive, RowIds, T.AfterAll, T.Numbered;
    var g := w.registry;
    var (after, made) := Create(g, q, dbOk);
    if made {
      Creating(g, q, dbOk);
      LiveOneMore(g, after, after.rooms[|after.rooms| - 1]);
      OpeningEvents(w.service, after.lastId != g.lastId, after.lastId, Rules.NewRoom(q, g.nextRoomId));
      if after.lastId != g.lastId {
        RowIdsOneMore(g.rows, after.rows[|after.rows| - 1]);
      }
    } else {
      RefusedChangesNothing(g, q, dbOk);
      NoEvents(w.service);
    }
  }

  lemma LiveOneMore(g: Registry, after: Registry, room: Record)
    requires after.rooms == g.rooms + [room]
    ensures forall n :: IsLive(after, n) <==> IsLive(g, n) || n == room.roomId
  {
    forall n ensures IsLive(after, n) <==> IsLive(g, n) || n == room.roomId {
      if i :| 0 <= i < |g.rooms| && g.rooms[i].roomId == n {
        assert after.rooms[i].roomId == n;
      }
      assert after.rooms[|g.rooms|] == room;
    }
  }

  lemma LiveWithout(g: Registry, after: Registry, roomId: nat)
    requires after.rooms == WithoutRoom(g.rooms, roomId)
    ensures forall n :: IsLive(after, n) <==> IsLive(g, n) && n != roomId
  {
    forall n ensures IsLive(after, n) <==> IsLive(g, n) && n != roomId {
      if i :| 0 <= i < |g.rooms| && g.rooms[i].roomId == n && n != roomId {
        assert g.rooms[i] in after.rooms;
        var j :| 0 <= j < |after.rooms| && after.rooms[j] == g.rooms[i];
      }
      if j :| 0 <= j < |after.rooms| && after.rooms[j].roomId == n {
        assert after.rooms[j] in g.rooms;
        var i :| 0 <= i < |g.rooms| && g.rooms[i] == after.rooms[j];
      }
    }
  }

  lemma UnmakeKeepsTied(w: World, i: nat)
    requires Tied(w) && i < |w.registry.rooms| && w.registry.rooms[i].dbId >= -1
    ensures Tied(Done(w, Unmake(i)))
  {
    hide WithoutRoom, WithoutRow, IsLive, RowIds, Record.IsPersistent, Rules.RowGone;
    var g := w.registry;
    var room := g.rooms[i];
    var closed := T.Close(room.roomId);
    LiveWithout(g, Destroy(g, room), room.roomId);
    OneEvent(w.service, closed);
    assert [] + [closed] == [closed];
    if room.dbId >= 0 {
      TwoEvents(w.service, T.RowRemoved(room.dbId), closed);
      RowIdsWithout(g.rows, room.dbId);
      RowGoneFromKeys(w.service.roles, room.dbId);
    } else {
      NoRowIsMinusOne(g.rows);
    }
  }

  lemma RowGoneFromKeys(roles: Rules.Roles, id: nat)
    ensures Rules.RowGone(roles, id).rooms == roles.rooms - {id}
  {
  }

  lemma AskKeepsTied(w: World, n: nat, op: Rules.Op)
    requires Tied(w)
    ensures Tied(Done(w, Ask(n, op)))
  {
    OneEvent(w.service, T.Act(n, op));
    if n in w.service.rooms && T.IsRequest(op) {
      Runs.Fixed(T.View(w.service, n), [op]);
      T.OneStep(T.View(w.service, n), op);
      RequestLeavesKeys(T.View(w.service, n), op);
    }
  }

  lemma RequestLeavesKeys(s: Rules.State, op: Rules.Op)
    requires T.IsRequest(op)
    ensures Rules.Step(s, op).0.roles.rooms == s.roles.rooms
  {
  }

  /** Whatever is done, the role tables' key holds exactly the ids in the room table. */
  lemma DeedKeepsTied(w: World, d: Deed)
    requires Tied(w) && Unique(w.registry) && Saved(w.registry)
    ensures Tied(Done(w, d))
  {
    match d
    case Make(q, dbOk) => MakeKeepsTied(w, q, dbOk);
    case Unmake(i) =>
      if i < |w.registry.rooms| {
        assert w.registry.rooms[i] in w.registry.rooms;
        UnmakeKeepsTied(w, i);
      }
    case Ask(n, op) => AskKeepsTied(w, n, op);
    case AvatarMade(id) => OneEvent(w.service, T.AvatarCreated(id));
    case AvatarUnmade(id) => OneEvent(w.service, T.AvatarDestroyed(id));
  }

  // ----- whole runs -----

  /** The room number does not wrap. */
  ghost predicate Fits(g: Registry, d: Deed) {
    d.Make? && Create(g, d.request, d.dbOk).1 ==> g.nextRoomId + 1 < WRAP
  }

  lemma DeedKeepsRegistry(g: Registry, d: Deed)
    requires Unique(g) && Saved(g) && Fits(g, d)
    ensures Unique(Registered(g, d)) && Saved(Registered(g, d))
  {
    hide Unique, Saved, Create, Destroy;
    match d
    case Make(q, dbOk) =>
      CreateKeepsSaved(g, q, dbOk);
      if Create(g, q, dbOk).1 {
        CreateKeepsUnique(g, q, dbOk);
      } else {
        RefusedChangesNothing(g, q, dbOk);
      }
    case Unmake(i) =>
      if i < |g.rooms| {
        DestroyKeepsUnique(g, g.rooms[i]);
        UniqueNumbers(g);
        DestroyKeepsSaved(g, i);
      }
    case Ask(_, _) =>
    case AvatarMade(_) =>
    case AvatarUnmade(_) =>
  }

  lemma RefusedChangesNothing(g: Registry, q: Request, dbOk: bool)
    ensures !Create(g, q, dbOk).1 ==> Create(g, q, dbOk).0 == g
  {
  }

  lemma UniqueNumbers(g: Registry)
    requires Unique(g)
    ensures NumbersDiffer(g.rooms)
  {
  }

  ghost predicate Lawful(w: World) {
    Tied(w) && Unique(w.registry) && Saved(w.registry)
  }

  ghost predicate FitsThen(w: World, deeds: seq<Deed>, k: nat)
    requires k < |deeds|
  {
    Fits(AfterDeeds(w, deeds[..k]).registry, deeds[k])
  }

  ghost predicate NeverWraps(w: World, deeds: seq<Deed>) {
    forall k :: 0 <= k < |deeds| ==> FitsThen(w, deeds, k)
  }

  lemma FrontNeverWraps(w: World, deeds: seq<Deed>)
    requires deeds != [] && NeverWraps(w, deeds)
    ensures NeverWraps(w, deeds[..|deeds| - 1])
    ensures Fits(AfterDeeds(w, deeds[..|deeds| - 1]).registry, deeds[|deeds| - 1])
  {
    var front := deeds[..|deeds| - 1];
    forall k | 0 <= k < |front| ensures FitsThen(w, front, k) {
      assert front[..k] == deeds[..k];
      assert FitsThen(w, deeds, k);
    }
    assert FitsThen(w, deeds, |deeds| - 1);
  }

  lemma {:induction false} StaysLawful(w: World, deeds: seq<Deed>)
    requires Lawful(w) && NeverWraps(w, deeds)
    ensures Lawful(AfterDeeds(w, deeds))
  {
    hide Tied, Unique, Saved, T.AfterAll, Registered, Events, Fits, NeverWraps;
    if deeds != [] {
      var n := |deeds| - 1;
      FrontNeverWraps(w, deeds);
      StaysLawful(w, deeds[..n]);
      var before := AfterDeeds(w, deeds[..n]);
      DeedKeepsTied(before, deeds[n]);
      DeedKeepsRegistry(before.registry, deeds[n]);
    }
  }

  lemma {:induction false} SavedIds(rooms: seq<Record>)
    ensures RowIds(SavedRows(rooms)) == set r | r in rooms && r.IsStored() && r.dbId >= 0 :: r.dbId
  {
    if rooms != [] {
      hide RowFor, Record.IsStored, RowIds;
      var front, last := rooms[..|rooms| - 1], rooms[|rooms| - 1];
      SavedIds(front);
      if last.dbId >= 0 {
        RowIdsOneMore(SavedRows(front), RowFor(last, last.dbId));
        RowForId(last, last.dbId);
      }
      assert rooms == front + [last];
    }
  }

  lemma RowForId(r: Record, id: nat)
    ensures RowFor(r, id).id == id
  {
  }

  /** Over any run the role rows of room `n` can be stored exactly while some live room has `n` as its row
      id: a key the room itself does not choose. */
  lemma KeyedByStoredRoom(w: World, deeds: seq<Deed>, n: nat)
    requires Lawful(w) && NeverWraps(w, deeds) && n in AfterDeeds(w, deeds).service.rooms
    ensures var after := AfterDeeds(w, deeds);
            Runs.RoomIsKeyed(T.View(after.service, n)) <==> exists r :: r in after.registry.rooms && r.dbId == n
  {
    hide AfterDeeds, NeverWraps, Unique, SavedRows, RowIds, RowsDiffer, Record.IsPersistent;
    var after := AfterDeeds(w, deeds);
    StaysLawful(w, deeds);
    assert after.service.rooms[n].roomId == n;
    SavedIds(after.registry.rooms);
  }

  // ----- a database that was empty -----

  /** Row ids run one ahead of room numbers. */
  ghost predicate OneAhead(g: Registry) {
    && g.lastId == g.nextRoomId
    && forall i :: 0 <= i < |g.rooms| ==> g.rooms[i].dbId == g.rooms[i].roomId + 1
  }

  /** A creation either finds its address taken or stores its room. */
  ghost predicate StoresAll(g: Registry, d: Deed) {
    d.Make? ==>
      var (after, made) := Create(g, d.request, d.dbOk);
      !made || after.lastId != g.lastId
  }

  lemma DeedKeepsOneAhead(g: Registry, d: Deed)
    requires OneAhead(g) && StoresAll(g, d) && Fits(g, d)
    ensures OneAhead(Registered(g, d))
  {
    match d
    case Make(q, dbOk) =>
    case Unmake(i) =>
      if i < |g.rooms| {
        var kept := WithoutRoom(g.rooms, g.rooms[i].roomId);
        forall j | 0 <= j < |kept| ensures kept[j].dbId == kept[j].roomId + 1 {
          assert kept[j] in g.rooms;
        }
      }
    case Ask(_, _) =>
    case AvatarMade(_) =>
    case AvatarUnmade(_) =>
  }

  ghost predicate StoresThen(w: World, deeds: seq<Deed>, k: nat)
    requires k < |deeds|
  {
    StoresAll(AfterDeeds(w, deeds[..k]).registry, deeds[k])
  }

  lemma {:induction false} StaysOneAhead(w: World, deeds: seq<Deed>)
    requires OneAhead(w.registry) && NeverWraps(w, deeds)
    requires forall k :: 0 <= k < |deeds| ==> StoresThen(w, deeds, k)
    ensures OneAhead(AfterDeeds(w, deeds).registry)
  {
    hide OneAhead, T.AfterAll, Registered, Events, Fits, NeverWraps, StoresAll;
    if deeds != [] {
      var n := |deeds| - 1;
      var front := deeds[..n];
      forall k | 0 <= k < n ensures StoresThen(w, front, k) {
        assert front[..k] == deeds[..k];
        assert StoresThen(w, deeds, k);
      }
      FrontNeverWraps(w, deeds);
      StaysOneAhead(w, front);
      assert StoresThen(w, deeds, n);
      DeedKeepsOneAhead(AfterDeeds(w, front).registry, deeds[n]);
    }
  }

  /** A service started over an empty database, with these avatars stored. */
  function Start(avatars: set<nat>): World {
    World(EMPTY, T.Service(map[], Rules.Roles({}, avatars, {}, {}, {})))
  }

  lemma StartIsLawful(avatars: set<nat>)
    ensures Lawful(Start(avatars)) && OneAhead(Start(avatars).registry)
  {
  }

  lemma RoomBefore(w: World, n: nat)
    requires Tied(w) && OneAhead(w.registry)
    ensures (exists r :: r in w.registry.rooms && r.dbId == n) <==> n >= 1 && n - 1 in w.service.rooms
  {
    var g := w.registry;
    if r :| r in g.rooms && r.dbId == n {
      var i :| 0 <= i < |g.rooms| && g.rooms[i] == r;
      assert IsLive(g, n - 1);
    }
    if n >= 1 && IsLive(g, n - 1) {
      var i :| 0 <= i < |g.rooms| && g.rooms[i].roomId == n - 1;
      assert g.rooms[i] in g.rooms && g.rooms[i].dbId == n;
    }
  }

  /** From an empty database in which every new room is stored, the role rows of room `n` are keyed by the
      row of room `n - 1`: they can be stored exactly while that room lives, and room 0 never has any. */
  lemma KeyedByRoomBefore(avatars: set<nat>, deeds: seq<Deed>, n: nat)
    requires NeverWraps(Start(avatars), deeds)
    requires forall k :: 0 <= k < |deeds| ==> StoresThen(Start(avatars), deeds, k)
    requires n in AfterDeeds(Start(avatars), deeds).service.rooms
    ensures var v := AfterDeeds(Start(avatars), deeds).service;
            Runs.RoomIsKeyed(T.View(v, n)) <==> n >= 1 && n - 1 in v.rooms
  {
    hide AfterDeeds, Start, StoresThen, NeverWraps, Unique, OneAhead, Saved, Runs.RoomIsKeyed;
    StartIsLawful(avatars);
    StaysLawful(Start(avatars), deeds);
    StaysOneAhead(Start(avatars), deeds);
    KeyedByStoredRoom(Start(avatars), deeds, n);
    RoomBefore(AfterDeeds(Start(avatars), deeds), n);
  }
}
