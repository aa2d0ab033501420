// src/stationchat/ChatRoom.cpp on values: who is in a room, who holds which role in it, and what
// each operation does to them and to the role tables of the database.
module RoomRules {
  import opened StringUtils
  import RoomRegistry

  /** The result codes a room operation can end in; all but Success are thrown. */
  datatype Code =
    | Success
    | PrivateRoom | BannedAvatar | AlreadyInRoom | NotInRoom
    | NoPrivileges
    | DuplicateModerator | DuplicateBan | DuplicateInvite
    | NotModerator | NotBanned | NotInvited

  datatype Member = Member(id: nat, address: Wide)

  /** A room as its rules see it; lists hold avatar ids in the order they were added. */
  datatype Room = Room(
    roomId: nat, creatorId: nat, password: Wide, attributes: nat,
    avatars: seq<Member>,
    administrators: seq<nat>, moderators: seq<nat>, banned: seq<nat>, invited: seq<nat>)
  {
    predicate IsPrivate() {
      attributes % 2 == 1
    }

    predicate IsPersistent() {
      attributes / 4 % 2 == 1
    }

    predicate HasMember(id: nat) {
      exists i :: 0 <= i < |avatars| && avatars[i].id == id
    }
  }

  /** A room as CreateRoom makes it. */
  function NewRoom(q: RoomRegistry.Request, roomId: nat): Room {
    Room(roomId, q.creatorId, q.password, q.attributes, [], [q.creatorId], [q.creatorId], [], [])
  }

  /** The role tables hold (avatar id, room id) pairs. Both are foreign keys: the room id names one of the
      stored `rooms`, the avatar id one of the stored `avatars`. */
  datatype Roles = Roles(rooms: set<nat>, avatars: set<nat>,
                         administrators: set<(nat, nat)>, moderators: set<(nat, nat)>, banned: set<(nat, nat)>)

  datatype State = State(room: Room, roles: Roles)

  /** The operations of a room, and the coming and going of stored rooms and avatars, which its role rows
      hang on. */
  datatype Op =
    | Enter(avatar: Member, password: Wide)
    | Leave(avatarId: nat)
    | Kick(src: nat, avatarId: nat)
    | AddAdministrator(src: nat, avatarId: nat)
    | AddModerator(src: nat, avatarId: nat)
    | AddBanned(src: nat, avatarId: nat)
    | AddInvite(src: nat, avatarId: nat)
    | RemoveAdministrator(src: nat, avatarId: nat)
    | RemoveModerator(src: nat, avatarId: nat)
    | RemoveBanned(src: nat, avatarId: nat)
    | RemoveInvite(src: nat, avatarId: nat)
    | RowInserted(rowId: nat)
    | RowDeleted(rowId: nat)
    | AvatarStored(id: nat)
    | AvatarDeleted(id: nat)

  /** std::remove_if by id. */
  function Without(ids: seq<nat>, id: nat): (kept: seq<nat>)
    ensures forall x :: x in kept <==> x in ids && x != id
  {
    if ids == [] then []
    else
      var last := ids[|ids| - 1];
      assert ids == ids[..|ids| - 1] + [last];
      if last == id then Without(ids[..|ids| - 1], id) else Without(ids[..|ids| - 1], id) + [last]
  }

  function WithoutMember(avatars: seq<Member>, id: nat): (kept: seq<Member>)
    ensures forall m :: m in kept <==> m in avatars && m.id != id
  {
    if avatars == [] then []
    else
      var last := avatars[|avatars| - 1];
      assert avatars == avatars[..|avatars| - 1] + [last];
      if last.id == id then WithoutMember(avatars[..|avatars| - 1], id)
          else WithoutMember(avatars[..|avatars| - 1], id) + [last]
  }

  /** remove_if treats every part of a list by itself: what is kept stays in order and as often as it was. */
  lemma {:induction false} WithoutOfBoth(first: seq<nat>, second: seq<nat>, id: nat)
    ensures Without(first + second, id) == Without(first, id) + Without(second, id)
  {
    if second == [] {
      assert first + second == first;
    } else {
      WithoutOfBoth(first, second[..|second| - 1], id);
      assert (first + second)[..|first + second| - 1] == first + second[..|second| - 1];
    }
  }

  lemma WithoutOfOne(x: nat, m: Member, id: nat)
    ensures Without([x], id) == if x == id then [] else [x]
    ensures WithoutMember([m], id) == if m.id == id then [] else [m]
  {
    assert [x][..0] == [] && [m][..0] == [];
  }

  lemma {:induction false} WithoutMemberOfBoth(first: seq<Member>, second: seq<Member>, id: nat)
    ensures WithoutMember(first + second, id) == WithoutMember(first, id) + WithoutMember(second, id)
  {
    if second == [] {
      assert first + second == first;
    } else {
      WithoutMemberOfBoth(first, second[..|second| - 1], id);
      assert (first + second)[..|first + second| - 1] == first + second[..|second| - 1];
    }
  }

  predicate PasswordAccepted(room: Room, password: Wide) {
    room.password == [] || room.password == password
  }

  function EnterRoom(s: State, avatar: Member, password: Wide): (State, Code) {
    if !PasswordAccepted(s.room, password) then (s, PrivateRoom)
    else if avatar.id in s.room.banned then (s, BannedAvatar)
    else if s.room.HasMember(avatar.id) then (s, AlreadyInRoom)
    else if s.room.IsPrivate() && avatar.id != s.room.creatorId && avatar.id !in s.room.invited then (s, PrivateRoom)
    else (s.(room := s.room.(avatars := s.room.avatars + [avatar])), Success)
  }

  function LeaveRoom(s: State, id: nat): State {
    s.(room := s.room.(avatars := WithoutMember(s.room.avatars, id)))
  }

  function KickAvatar(s: State, src: nat, id: nat): (State, Code) {
    if src !in s.room.moderators then (s, NoPrivileges)
    else if !s.room.HasMember(id) then (s, NotInRoom)
    else (LeaveRoom(s, id), Success)
  }

  /** INSERT IGNORE: a row that names no stored room or no stored avatar is dropped silently. */
  function Insert(rows: set<(nat, nat)>, roles: Roles, id: nat, roomId: nat): set<(nat, nat)> {
    if roomId in roles.rooms && id in roles.avatars then rows + {(id, roomId)} else rows
  }

  function Delete(rows: set<(nat, nat)>, id: nat, roomId: nat): set<(nat, nat)> {
    rows - {(id, roomId)}
  }

  function AddAdministratorTo(s: State, src: nat, id: nat): (State, Code) {
    if src != s.room.creatorId then (s, NoPrivileges)
    else if id in s.room.administrators then (s, Success)
    else
      var room := s.room.(administrators := s.room.administrators + [id]);
      if !room.IsPersistent() then (s.(room := room), Success)
      else (State(room, s.roles.(administrators := Insert(s.roles.administrators, s.roles, id, room.roomId))),
          Success)
  }

  function AddModeratorTo(s: State, src: nat, id: nat): (State, Code) {
    if src != s.room.creatorId then (s, NoPrivileges)
    else if id in s.room.moderators then (s, DuplicateModerator)
    else
      var room := s.room.(moderators := s.room.moderators + [id]);
      if !room.IsPersistent() then (s.(room := room), Success)
      else (State(room, s.roles.(moderators := Insert(s.roles.moderators, s.roles, id, room.roomId))), Success)
  }

  function AddBannedTo(s: State, src: nat, id: nat): (State, Code) {
    if src !in s.room.moderators then (s, NoPrivileges)
    else if id in s.room.banned then (s, DuplicateBan)
    else
      var room := s.room.(banned := s.room.banned + [id]);
      if !room.IsPersistent() then (s.(room := room), Success)
      else (State(room, s.roles.(banned := Insert(s.roles.banned, s.roles, id, room.roomId))), Success)
  }

  function AddInviteTo(s: State, src: nat, id: nat): (State, Code) {
    if src !in s.room.moderators then (s, NoPrivileges)
    else if id in s.room.invited then (s, DuplicateInvite)
    else (s.(room := s.room.(invited := s.room.invited + [id])), Success)
  }

  function RemoveAdministratorFrom(s: State, src: nat, id: nat): (State, Code) {
    if src != s.room.creatorId then (s, NoPrivileges)
    else if s.room.administrators == [] then (s, Success)
    else
      var room := s.room.(administrators := Without(s.room.administrators, id));
      if !room.IsPersistent() then (s.(room := room), Success)
      else (State(room, s.roles.(administrators := Delete(s.roles.administrators, id, room.roomId))), Success)
  }

  function RemoveModeratorFrom(s: State, src: nat, id: nat): (State, Code) {
    if src != s.room.creatorId then (s, NoPrivileges)
    else if id !in s.room.moderators then (s, NotModerator)
    else
      var room := s.room.(moderators := Without(s.room.moderators, id));
      if !room.IsPersistent() then (s.(room := room), Success)
      else (State(room, s.roles.(moderators := Delete(s.roles.moderators, id, room.roomId))), Success)
  }

  function RemoveBannedFrom(s: State, src: nat, id: nat): (State, Code) {
    if src !in s.room.moderators then (s, NoPrivileges)
    else if id !in s.room.banned then (s, NotBanned)
    else
      var room := s.room.(banned := Without(s.room.banned, id));
      if !room.IsPersistent() then (s.(room := room), Success)
      else (State(room, s.roles.(banned := Delete(s.roles.banned, id, room.roomId))), Success)
  }

  function RemoveInviteFrom(s: State, src: nat, id: nat): (State, Code) {
    if src !in s.room.moderators then (s, NoPrivileges)
    else if id !in s.room.invited then (s, NotInvited)
    else (s.(room := s.room.(invited := Without(s.room.invited, id))), Success)
  }

  /** The rows of one room, once that room's own row is gone: ON DELETE CASCADE. */
  function Cascade(rows: set<(nat, nat)>, rowId: nat): set<(nat, nat)> {
    set r | r in rows && r.1 != rowId
  }

  function RowAdded(roles: Roles, rowId: nat): Roles {
    roles.(rooms := roles.rooms + {rowId})
  }

  function RowGone(roles: Roles, rowId: nat): Roles {
    roles.(rooms := roles.rooms - {rowId}, administrators := Cascade(roles.administrators, rowId),
           moderators := Cascade(roles.moderators, rowId), banned := Cascade(roles.banned, rowId))
  }

  /** The rows left once an avatar's own row is gone: ON DELETE CASCADE on the other key. */
  function CascadeAvatar(rows: set<(nat, nat)>, id: nat): set<(nat, nat)> {
    set r | r in rows && r.0 != id
  }

  function AvatarAdded(roles: Roles, id: nat): Roles {
    roles.(avatars := roles.avatars + {id})
  }

  function AvatarGone(roles: Roles, id: nat): Roles {
    roles.(avatars := roles.avatars - {id}, administrators := CascadeAvatar(roles.administrators, id),
           moderators := CascadeAvatar(roles.moderators, id), banned := CascadeAvatar(roles.banned, id))
  }

  function Step(s: State, op: Op): (State, Code) {
    match op
    case Enter(avatar, password) => EnterRoom(s, avatar, password)
    case Leave(id) => (LeaveRoom(s, id), Success)
    case Kick(src, id) => KickAvatar(s, src, id)
    case AddAdministrator(src, id) => AddAdministratorTo(s, src, id)
    case AddModerator(src, id) => AddModeratorTo(s, src, id)
    case AddBanned(src, id) => AddBannedTo(s, src, id)
    case AddInvite(src, id) => AddInviteTo(s, src, id)
    case RemoveAdministrator(src, id) => RemoveAdministratorFrom(s, src, id)
    case RemoveModerator(src, id) => RemoveModeratorFrom(s, src, id)
    case RemoveBanned(src, id) => RemoveBannedFrom(s, src, id)
    case RemoveInvite(src, id) => RemoveInviteFrom(s, src, id)
    case RowInserted(id) => (s.(roles := RowAdded(s.roles, id)), Success)
    case RowDeleted(id) => (s.(roles := RowGone(s.roles, id)), Success)
    case AvatarStored(id) => (s.(roles := AvatarAdded(s.roles, id)), Success)
    case AvatarDeleted(id) => (s.(roles := AvatarGone(s.roles, id)), Success)
  }

  /** The state after a run. */
  function After(s: State, ops: seq<Op>): State {
    if ops == [] then s else Step(After(s, ops[..|ops| - 1]), ops[|ops| - 1]).0
  }

  /** A room fresh from CreateRoom, whose id no role row mentions. */
  ghost predicate Created(s: State) {
    && s.room.avatars == [] && s.room.banned == [] && s.room.invited == []
    && s.room.administrators == [s.room.creatorId] && s.room.moderators == [s.room.creatorId]
    && forall id :: !HasRow(s.roles.administrators, id, s.room.roomId)
        && !HasRow(s.roles.moderators, id, s.room.roomId) && !HasRow(s.roles.banned, id, s.room.roomId)
  }

  predicate HasRow(rows: set<(nat, nat)>, id: nat, roomId: nat) {
    (id, roomId) in rows
  }
}
