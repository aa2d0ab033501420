// What every operation of a room answers and leaves behind, said of the room before it, and who holds a
// role after a whole run.
module RoomRights {
  import opened RoomRules
  import opened RoomRuns
  import RoomRegistry

  // ----- answers -----

  /** Operations on administrators and moderators are the creator's, the others with a source are the
      moderators'. */
  predicate IsEntitled(room: Room, op: Op) {
    match op
    case AddAdministrator(src, _) => src == room.creatorId
    case RemoveAdministrator(src, _) => src == room.creatorId
    case AddModerator(src, _) => src == room.creatorId
    case RemoveModerator(src, _) => src == room.creatorId
    case Kick(src, _) => src in room.moderators
    case AddBanned(src, _) => src in room.moderators
    case RemoveBanned(src, _) => src in room.moderators
    case AddInvite(src, _) => src in room.moderators
    case RemoveInvite(src, _) => src in room.moderators
    case _ => true
  }

  /** Whether the avatar an operation names already is what the operation would make of it. */
  predicate IsPointless(room: Room, op: Op) {
    match op
    case Kick(_, id) => !room.HasMember(id)
    case AddModerator(_, id) => id in room.moderators
    case RemoveModerator(_, id) => id !in room.moderators
    case AddBanned(_, id) => id in room.banned
    case RemoveBanned(_, id) => id !in room.banned
    case AddInvite(_, id) => id in room.invited
    case RemoveInvite(_, id) => id !in room.invited
    case _ => false
  }

  function ComplaintOf(op: Op): Code {
    match op
    case Kick(_, _) => NotInRoom
    case AddModerator(_, _) => DuplicateModerator
    case RemoveModerator(_, _) => NotModerator
    case AddBanned(_, _) => DuplicateBan
    case RemoveBanned(_, _) => NotBanned
    case AddInvite(_, _) => DuplicateInvite
    case RemoveInvite(_, _) => NotInvited
    case _ => Success
  }

  /** Apart from entering, an operation answers NoPrivileges exactly if its source is not entitled to it,
      its own complaint exactly if the source is but it would change nothing, and otherwise succeeds.
      Administrators are added and removed without complaint. */
  lemma AnswersExactly(s: State, op: Op)
    requires !op.Enter?
    ensures Step(s, op).1 == NoPrivileges <==> !IsEntitled(s.room, op)
    ensures Step(s, op).1 == Success <==> IsEntitled(s.room, op) && !IsPointless(s.room, op)
    ensures IsEntitled(s.room, op) && IsPointless(s.room, op) ==> Step(s, op).1 == ComplaintOf(op)
  {
  }

  /** The guards of entering in the order of their answers. */
  lemma EntryAnswers(s: State, op: Op)
    requires op.Enter?
    ensures var (r, x, code) := (s.room, op.avatar.id, Step(s, op).1);
            var knows := r.password == [] || r.password == op.password;
            var expected := r.attributes % 2 == 1 ==> x == r.creatorId || x in r.invited;
            && (code == BannedAvatar <==> knows && x in r.banned)
            && (code == AlreadyInRoom <==> knows && x !in r.banned && r.HasMember(x))
            && (code == PrivateRoom <==> !knows || (x !in r.banned && !r.HasMember(x) && !expected))
            && (code == Success <==> knows && x !in r.banned && !r.HasMember(x) && expected)
  {
  }

  // ----- effects -----

  /** The operation takes the role from `x`. */
  predicate Takes(op: Op, role: Role, x: nat) {
    match role
    case Administrator => op.RemoveAdministrator? && op.avatarId == x
    case Moderator => op.RemoveModerator? && op.avatarId == x
    case Banned => op.RemoveBanned? && op.avatarId == x
    case Invited => op.RemoveInvite? && op.avatarId == x
  }

  /** The operation gives or takes the role. */
  predicate Concerns(op: Op, role: Role) {
    match role
    case Administrator => op.AddAdministrator? || op.RemoveAdministrator?
    case Moderator => op.AddModerator? || op.RemoveModerator?
    case Banned => op.AddBanned? || op.RemoveBanned?
    case Invited => op.AddInvite? || op.RemoveInvite?
  }

  /** A successful operation appends the avatar it gives a role to, unless it has the role, and removes the one
      it takes the role from; every other list stays as it is. */
  lemma RolesAfter(s: State, op: Op, role: Role, x: nat)
    ensures var (before, after, code) := (Holders(s.room, role), Holders(Step(s, op).0.room, role), Step(s, op).1);
            && (Grants(op, role, x) && code == Success ==> after == if x in before then before else before + [x])
            && (Takes(op, role, x) && code == Success ==> after == Without(before, x))
            && (code != Success || !Concerns(op, role) ==> after == before)
  {
  }

  /** A successful entry appends the avatar as it came, a successful leave or kick removes it, and no other
      operation changes who is in the room. */
  lemma MembersAfter(s: State, op: Op)
    ensures Step(s, op).0.room.avatars ==
      if op.Enter? && Step(s, op).1 == Success then s.room.avatars + [op.avatar]
      else if (op.Leave? || op.Kick?) && Step(s, op).1 == Success then WithoutMember(s.room.avatars, op.avatarId)
      else s.room.avatars
  {
  }

  /** Who holds a role after an operation: whoever did and did not just lose it, and whoever was just given it. */
  lemma HoldsAfter(s: State, op: Op, role: Role, x: nat)
    ensures x in Holders(Step(s, op).0.room, role) <==>
      || (x in Holders(s.room, role) && !(Takes(op, role, x) && Step(s, op).1 == Success))
      || (Grants(op, role, x) && Step(s, op).1 == Success)
  {
  }

  /** Role rows follow the lists in a room whose persistent bit, the third, is set, as far as both keys are stored; a
      room without it writes none. */
  lemma RowsAfter(s: State, op: Op, role: Role, x: nat)
    requires !op.RowInserted? && !op.RowDeleted? && !op.AvatarStored? && !op.AvatarDeleted? && role != Invited
    requires IsStored(s, role, x) ==> x in Holders(s.room, role)
    ensures var (t, code) := Step(s, op);
            IsStored(t, role, x) <==>
              if s.room.attributes / 4 % 2 == 0 then IsStored(s, role, x)
              else
                || (IsStored(s, role, x) && !(Takes(op, role, x) && code == Success))
                || (Grants(op, role, x) && code == Success && x !in Holders(s.room, role)
                    && s.room.roomId in s.roles.rooms && x in s.roles.avatars)
  {
  }

  /** Stored rooms and avatars come and go by themselves alone. */
  lemma KeysAfter(s: State, op: Op, id: nat)
    ensures var (before, after) := (s.roles, Step(s, op).0.roles);
            && (id in after.rooms <==> op == RowInserted(id) || (id in before.rooms && op != RowDeleted(id)))
            && (id in after.avatars <==> op == AvatarStored(id) || (id in before.avatars && op != AvatarDeleted(id)))
  {
  }

  /** A new room is empty and its creator, its only administrator and moderator, may do everything in it. */
  lemma CreatorMayAll(q: RoomRegistry.Request, roomId: nat, roles: Roles, op: Op)
    requires forall id :: (id, roomId) !in roles.administrators + roles.moderators + roles.banned
    ensures var room := NewRoom(q, roomId);
            && Created(State(room, roles)) && room.roomId == roomId && room.creatorId == q.creatorId
            && room.password == q.password && room.attributes == q.attributes
    ensures NeedsSource(op) && op.src == q.creatorId ==> IsEntitled(NewRoom(q, roomId), op)
  {
  }

  predicate NeedsSource(op: Op) {
    op.Kick? || op.AddAdministrator? || op.RemoveAdministrator? || op.AddModerator? || op.RemoveModerator?
    || op.AddBanned? || op.RemoveBanned? || op.AddInvite? || op.RemoveInvite?
  }

  // ----- whole runs -----

  ghost predicate Gave(s: State, ops: seq<Op>, k: nat, role: Role, x: nat)
    requires k < |ops|
  {
    Grants(ops[k], role, x) && Succeeds(s, ops, k)
  }

  ghost predicate Took(s: State, ops: seq<Op>, k: nat, role: Role, x: nat)
    requires k < |ops|
  {
    Takes(ops[k], role, x) && Succeeds(s, ops, k)
  }

  /** `x` had the role at the start of the run if `k` is 0, or was given it by the operation before step `k`;
      and no operation from `k` on took it. */
  ghost predicate HeldFrom(s: State, ops: seq<Op>, k: nat, role: Role, x: nat) {
    && k <= |ops|
    && (if k == 0 then x in Holders(s.room, role) else Gave(s, ops, k - 1, role, x))
    && forall j :: k <= j < |ops| ==> !Took(s, ops, j, role, x)
  }

  lemma SamePrefix(s: State, ops: seq<Op>, k: nat, role: Role, x: nat)
    requires k < |ops| - 1
    ensures var front := ops[..|ops| - 1];
            && (Gave(s, front, k, role, x) <==> Gave(s, ops, k, role, x))
            && (Took(s, front, k, role, x) <==> Took(s, ops, k, role, x))
  {
    assert ops[..|ops| - 1][..k] == ops[..k];
  }

  lemma HeldFromOneMore(s: State, ops: seq<Op>, k: nat, role: Role, x: nat)
    requires ops != [] && k < |ops|
    ensures HeldFrom(s, ops, k, role, x)
       <==> HeldFrom(s, ops[..|ops| - 1], k, role, x) && !Took(s, ops, |ops| - 1, role, x)
  {
    hide Gave, Took, Holders;
    var front := ops[..|ops| - 1];
    forall j: nat | j < |front|
      ensures Gave(s, front, j, role, x) <==> Gave(s, ops, j, role, x)
      ensures Took(s, front, j, role, x) <==> Took(s, ops, j, role, x)
    {
      SamePrefix(s, ops, j, role, x);
    }
    if HeldFrom(s, front, k, role, x) && !Took(s, ops, |ops| - 1, role, x) {
      forall j | k <= j < |ops| ensures !Took(s, ops, j, role, x) {
        assert j < |front| ==> !Took(s, front, j, role, x);
      }
    }
    if HeldFrom(s, ops, k, role, x) {
      forall j | k <= j < |front| ensures !Took(s, front, j, role, x) {
        assert !Took(s, ops, j, role, x);
      }
    }
  }

  /** Over any run an avatar holds a role at the end exactly if it was given the role by a successful operation,
      or had it to begin with, and no successful operation after that took it. */
  lemma {:induction false} HeldExactly(s: State, ops: seq<Op>, role: Role, x: nat)
    ensures x in Holders(After(s, ops).room, role) <==> exists k: nat :: HeldFrom(s, ops, k, role, x)
  {
    hide Step, Holders, Grants, Takes;
    if ops == [] {
      assert HeldFrom(s, ops, 0, role, x) <==> x in Holders(s.room, role);
    } else {
      var n := |ops| - 1;
      var front := ops[..n];
      HeldExactly(s, front, role, x);
      HoldsAfter(After(s, front), ops[n], role, x);
      if k: nat :| HeldFrom(s, front, k, role, x) && !Took(s, ops, n, role, x) {
        HeldFromOneMore(s, ops, k, role, x);
      }
      if k: nat :| HeldFrom(s, ops, k, role, x) {
        if k < |ops| {
          HeldFromOneMore(s, ops, k, role, x);
        }
      }
      assert Gave(s, ops, n, role, x) ==> HeldFrom(s, ops, n + 1, role, x);
    }
  }

  predicate NeedsModerator(op: Op) {
    op.Kick? || op.AddBanned? || op.RemoveBanned? || op.AddInvite? || op.RemoveInvite?
  }

  /** A moderator who was removed can neither kick, ban nor invite, nor lift bans and invitations, until
      appointed again. */
  lemma RemovedModeratorIsRefused(s: State, ops: seq<Op>, k: nat, j: nat, x: nat)
    requires k < j < |ops| && Took(s, ops, k, Moderator, x)
    requires forall i :: k < i < j ==> !Gave(s, ops, i, Moderator, x)
    requires NeedsModerator(ops[j]) && ops[j].src == x
    ensures Step(After(s, ops[..j]), ops[j]) == (After(s, ops[..j]), NoPrivileges)
  {
    hide Step, Grants, Takes, After, Holders;
    var before := ops[..j];
    assert before[..k] == ops[..k];
    NotBoth(ops[k], Moderator, x);
    HeldExactly(s, before, Moderator, x);
    forall i: nat ensures !HeldFrom(s, before, i, Moderator, x) {
      if i <= k {
        assert Took(s, before, k, Moderator, x);
      } else if i <= j {
        assert before[..i - 1] == ops[..i - 1];
        assert i > k + 1 ==> !Gave(s, ops, i - 1, Moderator, x);
      }
    }
    ModeratorsHold(After(s, before).room);
    AnswersExactly(After(s, before), ops[j]);
    ThrowingChangesNothing(After(s, before), ops[j]);
  }

  lemma ModeratorsHold(room: Room)
    ensures Holders(room, Moderator) == room.moderators
  {
  }

  lemma NotBoth(op: Op, role: Role, x: nat)
    ensures !(Grants(op, role, x) && Takes(op, role, x))
  {
  }
}
