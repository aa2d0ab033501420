// Many rooms over one set of role tables: what one room sees of a run of them all is a run of its own.
module RoomsTogether {
  import opened RoomRules
  import opened RoomRuns

  /** The live rooms under their numbers, and the role tables they share. */
  datatype Service = Service(rooms: map<nat, Room>, roles: Roles)

  datatype Event =
    | Act(number: nat, op: Op)
    | Open(room: Room)
    | Close(number: nat)
    | RowStored(rowId: nat)
    | RowRemoved(rowId: nat)
    | AvatarCreated(id: nat)
    | AvatarDestroyed(id: nat)

  ghost predicate Numbered(v: Service) {
    forall n :: n in v.rooms ==> v.rooms[n].roomId == n
  }

  function View(v: Service, n: nat): State
    requires n in v.rooms
  {
    State(v.rooms[n], v.roles)
  }

  /** An operation members ask for, as opposed to one that stands for changes of other tables. */
  predicate IsRequest(op: Op) {
    !op.RowInserted? && !op.RowDeleted? && !op.AvatarStored? && !op.AvatarDeleted?
  }

  function Happen(v: Service, e: Event): Service {
    match e
    case Act(n, op) =>
      if n !in v.rooms || !IsRequest(op) then v
      else
        var t := Step(View(v, n), op).0;
        Service(v.rooms[n := t.room], t.roles)
    case Open(room) => if room.roomId in v.rooms then v else v.(rooms := v.rooms[room.roomId := room])
    case Close(n) => v.(rooms := v.rooms - {n})
    case RowStored(id) => v.(roles := RowAdded(v.roles, id))
    case RowRemoved(id) => v.(roles := RowGone(v.roles, id))
    case AvatarCreated(id) => v.(roles := AvatarAdded(v.roles, id))
    case AvatarDestroyed(id) => v.(roles := AvatarGone(v.roles, id))
  }

  function AfterAll(v: Service, events: seq<Event>): Service {
    if events == [] then v else Happen(AfterAll(v, events[..|events| - 1]), events[|events| - 1])
  }

  /** The operations of room `n` in a run, with the comings and goings of stored rooms and avatars. */
  function Seen(events: seq<Event>, n: nat): seq<Op> {
    if events == [] then []
    else Seen(events[..|events| - 1], n) + SeenIn(events[|events| - 1], n)
  }

  function SeenIn(e: Event, n: nat): seq<Op> {
    match e
    case Act(m, op) => if m == n && IsRequest(op) then [op] else []
    case Open(_) => []
    case Close(_) => []
    case RowStored(id) => [RowInserted(id)]
    case RowRemoved(id) => [RowDeleted(id)]
    case AvatarCreated(id) => [AvatarStored(id)]
    case AvatarDestroyed(id) => [AvatarDeleted(id)]
  }

  /** Two tables give the same avatars a row for this room. */
  ghost predicate SameRows(a: set<(nat, nat)>, b: set<(nat, nat)>, roomId: nat) {
    forall id :: HasRow(a, id, roomId) <==> HasRow(b, id, roomId)
  }

  /** The same room, over tables that agree on its rows and on the keys. */
  ghost predicate Alike(s: State, t: State) {
    && s.room == t.room && s.roles.rooms == t.roles.rooms && s.roles.avatars == t.roles.avatars
    && SameRows(s.roles.administrators, t.roles.administrators, s.room.roomId)
    && SameRows(s.roles.moderators, t.roles.moderators, s.room.roomId)
    && SameRows(s.roles.banned, t.roles.banned, s.room.roomId)
  }

  lemma StepsAlike(s: State, t: State, op: Op)
    requires Alike(s, t)
    ensures Alike(Step(s, op).0, Step(t, op).0)
  {
    var u, v, n := Step(s, op).0.roles, Step(t, op).0.roles, s.room.roomId;
    Fixed(s, [op]);
    forall id ensures HasRow(u.administrators, id, n) <==> HasRow(v.administrators, id, n) {
      assert HasRow(s.roles.administrators, id, n) <==> HasRow(t.roles.administrators, id, n);
    }
    forall id ensures HasRow(u.moderators, id, n) <==> HasRow(v.moderators, id, n) {
      assert HasRow(s.roles.moderators, id, n) <==> HasRow(t.roles.moderators, id, n);
    }
    forall id ensures HasRow(u.banned, id, n) <==> HasRow(v.banned, id, n) {
      assert HasRow(s.roles.banned, id, n) <==> HasRow(t.roles.banned, id, n);
    }
  }

  /** What another room does leaves this one as it was. */
  lemma OthersActAlike(s: State, other: Room, op: Op)
    requires other.roomId != s.room.roomId && IsRequest(op)
    ensures Alike(s, s.(roles := Step(State(other, s.roles), op).0.roles))
    ensures Step(State(other, s.roles), op).0.room.roomId == other.roomId
  {
    forall id {
      OtherRoomsRowsUntouched(State(other, s.roles), op, id, s.room.roomId);
    }
  }

  lemma HappensAlike(v: Service, s: State, e: Event, n: nat)
    requires Numbered(v) && n in v.rooms && e != Close(n) && Alike(View(v, n), s)
    ensures Numbered(Happen(v, e)) && n in Happen(v, e).rooms
    ensures Alike(View(Happen(v, e), n), After(s, SeenIn(e, n)))
  {
    var here := View(v, n);
    OneOperation(s, e, n);
    match e
    case Act(m, op) =>
      if m in v.rooms && IsRequest(op) {
        if m == n {
          StepsAlike(here, s, op);
          Fixed(here, [op]);
          OneStep(here, op);
        } else {
          OthersActAlike(here, v.rooms[m], op);
        }
      }
    case Open(_) =>
    case Close(_) =>
    case RowStored(id) => StepsAlike(here, s, RowInserted(id));
    case RowRemoved(id) => StepsAlike(here, s, RowDeleted(id));
    case AvatarCreated(id) => StepsAlike(here, s, AvatarStored(id));
    case AvatarDestroyed(id) => StepsAlike(here, s, AvatarDeleted(id));
  }

  lemma OneStep(s: State, op: Op)
    ensures After(s, [op]) == Step(s, op).0
  {
    assert [op][..0] == [];
  }

  lemma OneOperation(s: State, e: Event, n: nat)
    ensures After(s, SeenIn(e, n)) == if SeenIn(e, n) == [] then s else Step(s, SeenIn(e, n)[0]).0
  {
    if SeenIn(e, n) != [] {
      OneStep(s, SeenIn(e, n)[0]);
    }
  }

  lemma {:induction false} RunsCompose(s: State, first: seq<Op>, second: seq<Op>)
    ensures After(After(s, first), second) == After(s, first + second)
  {
    if second == [] {
      assert first + second == first;
    } else {
      var front := second[..|second| - 1];
      RunsCompose(s, first, front);
      assert (first + second)[..|first + second| - 1] == first + front;
    }
  }

  /** Whatever the other rooms do, a room that is not closed ends as its own run leaves it. */
  lemma {:induction false} EachRoomRunsAlone(v: Service, events: seq<Event>, n: nat)
    requires Numbered(v) && n in v.rooms && Close(n) !in events
    ensures Numbered(AfterAll(v, events)) && n in AfterAll(v, events).rooms
    ensures Alike(View(AfterAll(v, events), n), After(View(v, n), Seen(events, n)))
  {
    if events != [] {
      hide Happen, SeenIn, Alike, View, After, Numbered;
      var front, last := events[..|events| - 1], events[|events| - 1];
      assert last in events;
      EachRoomRunsAlone(v, front, n);
      HappensAlike(AfterAll(v, front), After(View(v, n), Seen(front, n)), last, n);
      RunsCompose(View(v, n), Seen(front, n), SeenIn(last, n));
    } else {
      hide Happen;
    }
  }

  /** So in a service of many rooms a room's role rows are written exactly as in a run of its own. */
  lemma StoredExactlyTogether(v: Service, events: seq<Event>, n: nat, role: Role, x: nat)
    requires Numbered(v) && n in v.rooms && Close(n) !in events
    requires Created(View(v, n)) && v.rooms[n].IsPersistent() && role != Invited
    ensures n in AfterAll(v, events).rooms
    ensures IsStored(View(AfterAll(v, events), n), role, x)
       <==> exists k: nat :: WrittenAt(View(v, n), Seen(events, n), k, role, x)
  {
    hide AfterAll, Seen, WrittenAt, Created;
    EachRoomRunsAlone(v, events, n);
    StoredExactly(View(v, n), Seen(events, n), role, x);
    AlikeStores(View(AfterAll(v, events), n), After(View(v, n), Seen(events, n)), role, x);
  }

  lemma AlikeStores(s: State, t: State, role: Role, x: nat)
    requires Alike(s, t)
    ensures IsStored(s, role, x) <==> IsStored(t, role, x)
  {
  }
}
