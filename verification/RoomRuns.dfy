// What holds over whole runs of a room made by CreateRoom.
module RoomRuns {
  import opened RoomRules

  // ----- runs -----

  ghost predicate Succeeds(s: State, ops: seq<Op>, k: nat)
    requires k < |ops|
  {
    Step(After(s, ops[..k]), ops[k]).1 == Success
  }

  /** An operation that ends in an exception leaves the room and its role rows as they were. */
  lemma ThrowingChangesNothing(s: State, op: Op)
    ensures Step(s, op).1 != Success ==> Step(s, op).0 == s
  {
  }

  /** Identity, creator, password and attributes of a room never change. */
  lemma {:induction false} Fixed(s: State, ops: seq<Op>)
    ensures var r := After(s, ops).room;
            r.roomId == s.room.roomId && r.creatorId == s.room.creatorId && r.password == s.room.password
                && r.attributes == s.room.attributes
  {
    if ops != [] {
      Fixed(s, ops[..|ops| - 1]);
    }
  }

  // ----- duplicate-free lists -----

  ghost predicate Distinct(ids: seq<nat>) {
    forall i, j :: 0 <= i < j < |ids| ==> ids[i] != ids[j]
  }

  ghost predicate DistinctMembers(avatars: seq<Member>) {
    forall i, j :: 0 <= i < j < |avatars| ==> avatars[i].id != avatars[j].id
  }

  ghost predicate NoDuplicates(r: Room) {
    DistinctMembers(r.avatars) && Distinct(r.administrators) && Distinct(r.moderators) && Distinct(r.banned)
        && Distinct(r.invited)
  }

  lemma {:induction false} WithoutKeepsDistinct(ids: seq<nat>, id: nat)
    requires Distinct(ids)
    ensures Distinct(Without(ids, id))
  {
    if ids != [] {
      var front, last := ids[..|ids| - 1], ids[|ids| - 1];
      WithoutKeepsDistinct(front, id);
      var kept := Without(front, id);
      forall i | 0 <= i < |kept| ensures kept[i] != last {
        assert kept[i] in front;
      }
    }
  }

  lemma {:induction false} WithoutMemberKeepsDistinct(avatars: seq<Member>, id: nat)
    requires DistinctMembers(avatars)
    ensures DistinctMembers(WithoutMember(avatars, id))
  {
    if avatars != [] {
      var front, last := avatars[..|avatars| - 1], avatars[|avatars| - 1];
      WithoutMemberKeepsDistinct(front, id);
      var kept := WithoutMember(front, id);
      forall i | 0 <= i < |kept| ensures kept[i].id != last.id {
        assert kept[i] in front;
      }
    }
  }

  lemma StepKeepsDistinct(s: State, op: Op)
    requires NoDuplicates(s.room)
    ensures NoDuplicates(Step(s, op).0.room)
  {
    match op
    case Leave(id) => WithoutMemberKeepsDistinct(s.room.avatars, id);
    case Kick(_, id) => WithoutMemberKeepsDistinct(s.room.avatars, id);
    case RemoveAdministrator(_, id) => WithoutKeepsDistinct(s.room.administrators, id);
    case RemoveModerator(_, id) => WithoutKeepsDistinct(s.room.moderators, id);
    case RemoveBanned(_, id) => WithoutKeepsDistinct(s.room.banned, id);
    case RemoveInvite(_, id) => WithoutKeepsDistinct(s.room.invited, id);
    case _ =>
  }

  /** No run puts an avatar twice on any of the five lists. */
  lemma {:induction false} ListsStayDistinct(s: State, ops: seq<Op>)
    requires NoDuplicates(s.room)
    ensures NoDuplicates(After(s, ops).room)
  {
    if ops != [] {
      ListsStayDistinct(s, ops[..|ops| - 1]);
      StepKeepsDistinct(After(s, ops[..|ops| - 1]), ops[|ops| - 1]);
    }
  }

  // ----- bans -----

  lemma HasMemberAfter(s: State, op: Op, x: nat)
    ensures Step(s, op).0.room.HasMember(x) <==>
      || (s.room.HasMember(x) && !(Leaves(op, x) && Step(s, op).1 == Success))
      || (op.Enter? && op.avatar.id == x && Step(s, op).1 == Success)
  {
    var before, after := s.room.avatars, Step(s, op).0.room.avatars;
    if i :| 0 <= i < |before| && before[i].id == x {
      assert before[i] in before;
      if !(Leaves(op, x) && Step(s, op).1 == Success) {
        assert before[i] in after;
        var j :| 0 <= j < |after| && after[j] == before[i];
      }
    }
    if j :| 0 <= j < |after| && after[j].id == x {
      assert after[j] in after;
      if after[j] in before {
        var i :| 0 <= i < |before| && before[i] == after[j];
      }
    }
    if op.Enter? && op.avatar.id == x && Step(s, op).1 == Success {
      assert after[|before|].id == x;
    }
  }

  /** The operation takes `x` out of the room if it succeeds. */
  predicate Leaves(op: Op, x: nat) {
    (op.Leave? || op.Kick?) && op.avatarId == x
  }

  /** Once an avatar is banned and outside, no run without a successful RemoveBanned of it lets it in. */
  lemma {:induction false} BannedStaysOut(s: State, ops: seq<Op>, x: nat)
    requires x in s.room.banned && !s.room.HasMember(x)
    requires forall k :: 0 <= k < |ops| && ops[k].RemoveBanned? && ops[k].avatarId == x ==> !Succeeds(s, ops, k)
    ensures x in After(s, ops).room.banned && !After(s, ops).room.HasMember(x)
  {
    if ops != [] {
      var n := |ops| - 1;
      var front := ops[..n];
      forall k | 0 <= k < n && front[k].RemoveBanned? && front[k].avatarId == x ensures !Succeeds(s, front, k) {
        assert front[..k] == ops[..k];
        assert !Succeeds(s, ops, k);
      }
      BannedStaysOut(s, front, x);
      HasMemberAfter(After(s, front), ops[n], x);
      if ops[n].RemoveBanned? && ops[n].avatarId == x {
        assert !Succeeds(s, ops, n);
      }
    }
  }

  // ----- how members got in -----

  /** Operation `k` let `x` in by the rules of the moment, and `x` has been in the room ever since. */
  ghost predicate AdmittedAt(s: State, ops: seq<Op>, k: nat, x: nat) {
    && k < |ops| && ops[k].Enter? && ops[k].avatar.id == x && Succeeds(s, ops, k)
    && var room := After(s, ops[..k]).room;
    && x !in room.banned && PasswordAccepted(room, ops[k].password)
    && (room.IsPrivate() ==> x == room.creatorId || x in room.invited)
    && forall j :: k < j <= |ops| ==> After(s, ops[..j]).room.HasMember(x)
  }

  /** Entering succeeds exactly for an avatar not banned and not yet inside that knows the password and,
      if the room is private, is its creator or invited. */
  lemma EntryExactly(s: State, op: Op)
    requires op.Enter?
    ensures Step(s, op).1 == Success <==>
      && PasswordAccepted(s.room, op.password)
      && op.avatar.id !in s.room.banned && !s.room.HasMember(op.avatar.id)
      && (s.room.IsPrivate() ==> op.avatar.id == s.room.creatorId || op.avatar.id in s.room.invited)
  {
  }

  /** Everyone in the room was unbanned, knew the password and, if the room is private, was its
      creator or invited, at the moment of their latest entry. */
  lemma {:induction false} EveryMemberWasAdmitted(s: State, ops: seq<Op>, x: nat)
    requires s.room.avatars == [] && After(s, ops).room.HasMember(x)
    ensures exists k: nat :: AdmittedAt(s, ops, k, x)
  {
    hide Step, PasswordAccepted;
    var n := |ops| - 1;
    var front := ops[..n];
    assert ops[..|ops|] == ops;
    HasMemberAfter(After(s, front), ops[n], x);
    if ops[n].Enter? && ops[n].avatar.id == x && Succeeds(s, ops, n) {
      EntryExactly(After(s, front), ops[n]);
      assert AdmittedAt(s, ops, n, x);
    } else {
      EveryMemberWasAdmitted(s, front, x);
      var k: nat :| AdmittedAt(s, front, k, x);
      assert front[..k] == ops[..k];
      forall j | k < j <= |ops| ensures After(s, ops[..j]).room.HasMember(x) {
        if j <= n {
          assert front[..j] == ops[..j];
          assert After(s, front[..j]).room.HasMember(x);
        }
      }
      assert AdmittedAt(s, ops, k, x);
    }
  }

  // ----- chain of authority -----

  datatype Role = Administrator | Moderator | Banned | Invited

  function Holders(room: Room, role: Role): seq<nat> {
    match role
    case Administrator => room.administrators
    case Moderator => room.moderators
    case Banned => room.banned
    case Invited => room.invited
  }

  /** The operation gives `x` the role. */
  predicate Grants(op: Op, role: Role, x: nat) {
    match role
    case Administrator => op.AddAdministrator? && op.avatarId == x
    case Moderator => op.AddModerator? && op.avatarId == x
    case Banned => op.AddBanned? && op.avatarId == x
    case Invited => op.AddInvite? && op.avatarId == x
  }

  /** Only the creator appoints; moderators ban and invite. */
  predicate MayGrant(room: Room, role: Role, src: nat) {
    if role == Administrator || role == Moderator then src == room.creatorId else src in room.moderators
  }

  lemma NewHolderWasGranted(s: State, op: Op, role: Role, x: nat)
    requires x in Holders(Step(s, op).0.room, role) && x !in Holders(s.room, role)
    ensures Grants(op, role, x) && Step(s, op).1 == Success && MayGrant(s.room, role, op.src)
  {
  }

  /** Operation `k` gave `x` the role afresh, by someone entitled at that step, and `x` has held it ever
      since. */
  ghost predicate GrantedAt(s: State, ops: seq<Op>, k: nat, role: Role, x: nat) {
    && k < |ops| && Grants(ops[k], role, x) && Succeeds(s, ops, k)
    && MayGrant(After(s, ops[..k]).room, role, ops[k].src)
    && x !in Holders(After(s, ops[..k]).room, role)
    && forall j :: k < j <= |ops| ==> x in Holders(After(s, ops[..j]).room, role)
  }

  lemma GrantedStays(s: State, ops: seq<Op>, k: nat, role: Role, x: nat)
    requires ops != [] && GrantedAt(s, ops[..|ops| - 1], k, role, x)
    requires x in Holders(After(s, ops).room, role)
    ensures GrantedAt(s, ops, k, role, x)
  {
    hide After, Step, Holders, MayGrant, Grants;
    var n := |ops| - 1;
    var front := ops[..n];
    assert front[..k] == ops[..k] && ops[..|ops|] == ops;
    forall j | k < j <= |ops| ensures x in Holders(After(s, ops[..j]).room, role) {
      if j <= n {
        assert front[..j] == ops[..j];
        assert x in Holders(After(s, front[..j]).room, role);
      }
    }
  }

  /** Every role held at the end and not at the start was given by someone entitled to give it. */
  lemma {:induction false} EveryRoleWasGranted(s: State, ops: seq<Op>, role: Role, x: nat)
    requires x in Holders(After(s, ops).room, role) && x !in Holders(s.room, role)
    ensures exists k: nat :: GrantedAt(s, ops, k, role, x)
  {
    hide Step, Holders, MayGrant, Grants;
    var n := |ops| - 1;
    var front := ops[..n];
    assert ops[..|ops|] == ops;
    if x !in Holders(After(s, front).room, role) {
      NewHolderWasGranted(After(s, front), ops[n], role, x);
      assert GrantedAt(s, ops, n, role, x);
    } else {
      EveryRoleWasGranted(s, front, role, x);
      var k: nat :| GrantedAt(s, front, k, role, x);
      GrantedStays(s, ops, k, role, x);
      assert GrantedAt(s, ops, k, role, x);
    }
  }

  /** In a room made by CreateRoom authority leads back to the creator: whoever bans, invites or kicks
      at step `k` is the creator or was appointed moderator by the creator at an earlier step. */
  lemma AuthorityComesFromCreator(s: State, ops: seq<Op>, k: nat)
    requires Created(s) && k < |ops| && Succeeds(s, ops, k)
    requires ops[k].AddBanned? || ops[k].AddInvite? || ops[k].Kick? || ops[k].RemoveBanned? || ops[k].RemoveInvite?
    ensures
      || ops[k].src == s.room.creatorId
      || exists m: nat :: m < k && GrantedAt(s, ops[..k], m, Moderator, ops[k].src) && ops[m].src == s.room.creatorId
  {
    var before := ops[..k];
    assert ops[k].src in After(s, before).room.moderators;
    if ops[k].src != s.room.creatorId {
      EveryRoleWasGranted(s, before, Moderator, ops[k].src);
      var m: nat :| GrantedAt(s, before, m, Moderator, ops[k].src);
      Fixed(s, before[..m]);
    }
  }

  // ----- role tables -----

  /** The rows of this room name only avatars that hold the role in memory. */
  ghost predicate RowsAreCurrent(s: State) {
    && (forall id :: HasRow(s.roles.administrators, id, s.room.roomId) ==> id in s.room.administrators)
    && (forall id :: HasRow(s.roles.moderators, id, s.room.roomId) ==> id in s.room.moderators)
    && (forall id :: HasRow(s.roles.banned, id, s.room.roomId) ==> id in s.room.banned)
  }

  /** And they name all of them, except perhaps the creator, whose first roles are never written. */
  ghost predicate RowsAreComplete(s: State) {
    && (forall id :: id in s.room.administrators && id != s.room.creatorId ==>
          HasRow(s.roles.administrators, id, s.room.roomId))
    && (forall id :: id in s.room.moderators && id != s.room.creatorId ==>
          HasRow(s.roles.moderators, id, s.room.roomId))
    && (forall id :: id in s.room.banned ==> HasRow(s.roles.banned, id, s.room.roomId))
  }

  lemma StepKeepsRowsCurrent(s: State, op: Op)
    requires s.room.IsPersistent() && RowsAreCurrent(s)
    ensures RowsAreCurrent(Step(s, op).0)
  {
  }

  /** A persistent room's role rows never name anyone who does not hold the role. */
  lemma {:induction false} RowsStayCurrent(s: State, ops: seq<Op>)
    requires Created(s) && s.room.IsPersistent()
    ensures RowsAreCurrent(After(s, ops))
  {
    if ops != [] {
      var front := ops[..|ops| - 1];
      RowsStayCurrent(s, front);
      Fixed(s, front);
      StepKeepsRowsCurrent(After(s, front), ops[|ops| - 1]);
    }
  }

  /** Without a stored room that has the number as its id every INSERT IGNORE is dropped, and the tables
      hold nothing for the room. */
  lemma {:induction false} UnkeyedRoomHasNoRows(s: State, ops: seq<Op>)
    requires Created(s) && s.room.roomId !in s.roles.rooms
    requires forall k :: 0 <= k < |ops| ==> ops[k] != RowInserted(s.room.roomId)
    ensures s.room.roomId !in After(s, ops).roles.rooms
    ensures NoRows(After(s, ops))
  {
    if ops != [] {
      var front := ops[..|ops| - 1];
      assert forall k :: 0 <= k < |front| ==> front[k] == ops[k];
      UnkeyedRoomHasNoRows(s, front);
      Fixed(s, front);
      StepWritesNoRow(After(s, front), ops[|ops| - 1]);
    }
  }

  ghost predicate NoRows(s: State) {
    forall id ::
      && !HasRow(s.roles.administrators, id, s.room.roomId)
      && !HasRow(s.roles.moderators, id, s.room.roomId)
      && !HasRow(s.roles.banned, id, s.room.roomId)
  }

  lemma StepWritesNoRow(s: State, op: Op)
    requires NoRows(s) && s.room.roomId !in s.roles.rooms && op != RowInserted(s.room.roomId)
    ensures NoRows(Step(s, op).0) && s.room.roomId !in Step(s, op).0.roles.rooms
  {
    var r, t := s.roles, Step(s, op).0.roles;
    var roomId := s.room.roomId;
    forall id ensures !HasRow(t.administrators, id, roomId) && !HasRow(t.moderators, id, roomId)
        && !HasRow(t.banned, id, roomId) {
      assert !HasRow(r.administrators, id, roomId) && !HasRow(r.moderators, id, roomId)
          && !HasRow(r.banned, id, roomId);
    }
  }

  /** The table a role is stored in; invitations are not stored. */
  function Table(roles: Roles, role: Role): set<(nat, nat)> {
    match role
    case Administrator => roles.administrators
    case Moderator => roles.moderators
    case Banned => roles.banned
    case Invited => {}
  }

  /** The room has a row that gives `x` the role. */
  predicate IsStored(s: State, role: Role, x: nat) {
    HasRow(Table(s.roles, role), x, s.room.roomId)
  }

  /** A stored room has the id that keys this room's rows. */
  predicate RoomIsKeyed(s: State) {
    s.room.roomId in s.roles.rooms
  }

  /** Both rows that a role row of `x` hangs on are stored. */
  predicate IsKeyed(s: State, x: nat) {
    RoomIsKeyed(s) && x in s.roles.avatars
  }

  /** One step: a row stays while the role is held and both its keys are stored; it appears when the role
      is newly granted while they are. */
  lemma StoredNext(s: State, op: Op, role: Role, x: nat)
    requires s.room.IsPersistent() && RowsAreCurrent(s) && role != Invited
    requires IsStored(s, role, x) ==> IsKeyed(s, x)
    ensures var t := Step(s, op).0;
            IsStored(t, role, x) <==>
              || (IsStored(s, role, x) && x in Holders(t.room, role) && IsKeyed(t, x))
              || (Grants(op, role, x) && Step(s, op).1 == Success && x !in Holders(s.room, role) && IsKeyed(s, x))
    ensures IsStored(Step(s, op).0, role, x) ==> IsKeyed(Step(s, op).0, x)
  {
    match role
    case Administrator => assert HasRow(s.roles.administrators, x, s.room.roomId) ==> x in s.room.administrators;
    case Moderator => assert HasRow(s.roles.moderators, x, s.room.roomId) ==> x in s.room.moderators;
    case Banned => assert HasRow(s.roles.banned, x, s.room.roomId) ==> x in s.room.banned;
  }

  /** From step `k` on a stored room has had the number as its id, and the avatar has been stored. */
  ghost predicate KeyedSince(s: State, ops: seq<Op>, k: nat, x: nat) {
    forall j :: k <= j <= |ops| ==> IsKeyed(After(s, ops[..j]), x)
  }

  /** Operation `k` gave `x` the role afresh, and ever since `x` has held it and both rows it hangs on
      have been stored. */
  ghost predicate WrittenAt(s: State, ops: seq<Op>, k: nat, role: Role, x: nat) {
    GrantedAt(s, ops, k, role, x) && KeyedSince(s, ops, k, x)
  }

  lemma KeyedStays(s: State, ops: seq<Op>, k: nat, x: nat)
    requires ops != [] && KeyedSince(s, ops[..|ops| - 1], k, x) && IsKeyed(After(s, ops), x)
    ensures KeyedSince(s, ops, k, x)
  {
    hide After, IsKeyed;
    var front := ops[..|ops| - 1];
    assert ops[..|ops|] == ops;
    forall j | k <= j <= |ops| ensures IsKeyed(After(s, ops[..j]), x) {
      if j < |ops| {
        assert front[..j] == ops[..j];
        assert IsKeyed(After(s, front[..j]), x);
      }
    }
  }

  lemma WrittenStays(s: State, ops: seq<Op>, k: nat, role: Role, x: nat)
    requires ops != [] && WrittenAt(s, ops[..|ops| - 1], k, role, x)
    requires x in Holders(After(s, ops).room, role) && IsKeyed(After(s, ops), x)
    ensures WrittenAt(s, ops, k, role, x)
  {
    hide After, Holders, GrantedAt, KeyedSince;
    GrantedNotBeyond(s, ops[..|ops| - 1], k, role, x);
    assert ops[..|ops| - 1][..k] == ops[..k];
    GrantedStays(s, ops, k, role, x);
    KeyedStays(s, ops, k, x);
  }

  lemma GrantedNotBeyond(s: State, ops: seq<Op>, k: nat, role: Role, x: nat)
    requires GrantedAt(s, ops, k, role, x)
    ensures k < |ops|
  {
  }

  lemma WrittenBefore(s: State, ops: seq<Op>, k: nat, role: Role, x: nat)
    requires WrittenAt(s, ops, k, role, x) && k + 1 < |ops|
    ensures WrittenAt(s, ops[..|ops| - 1], k, role, x)
  {
    hide After, Step, Holders, MayGrant, Grants, IsKeyed;
    var n := |ops| - 1;
    var front := ops[..n];
    assert front[..k] == ops[..k];
    forall j | k <= j <= n ensures IsKeyed(After(s, front[..j]), x) {
      assert front[..j] == ops[..j];
      assert IsKeyed(After(s, ops[..j]), x);
    }
    forall j | k < j <= n ensures x in Holders(After(s, front[..j]).room, role) {
      assert front[..j] == ops[..j];
      assert x in Holders(After(s, ops[..j]).room, role);
    }
  }

  /** Over all runs: a persistent room has a row for a role exactly when the role was granted afresh at
      some step, and from that step on has been held while a room with its number as id, and the avatar,
      were stored. */
  lemma {:induction false} StoredExactly(s: State, ops: seq<Op>, role: Role, x: nat)
    requires Created(s) && s.room.IsPersistent() && role != Invited
    ensures IsStored(After(s, ops), role, x) <==> exists k: nat :: WrittenAt(s, ops, k, role, x)
    ensures IsStored(After(s, ops), role, x) ==> IsKeyed(After(s, ops), x) && x in Holders(After(s, ops).room, role)
  {
    if ops == [] {
      NeverCreatedWithRows(s, role, x);
    } else {
      hide Step, Holders, Grants, MayGrant, IsKeyed, IsStored, RowsAreCurrent;
      var n := |ops| - 1;
      var front := ops[..n];
      var before := After(s, front);
      assert ops[..|ops|] == ops;
      StoredExactly(s, front, role, x);
      RowsStayCurrent(s, front);
      Fixed(s, front);
      StoredNext(before, ops[n], role, x);
      RowsStayCurrent(s, ops);
      HeldIfStored(After(s, ops), role, x);
      if IsStored(After(s, ops), role, x) {
        if IsStored(before, role, x) {
          var k: nat :| WrittenAt(s, front, k, role, x);
          WrittenStays(s, ops, k, role, x);
        } else {
          NewHolderIsStored(s, ops, role, x);
        }
      }
      if k: nat :| WrittenAt(s, ops, k, role, x) {
        assert IsKeyed(After(s, ops[..|ops|]), x) && x in Holders(After(s, ops[..|ops|]).room, role);
        if k < n {
          WrittenBefore(s, ops, k, role, x);
        } else {
          assert IsKeyed(After(s, ops[..n]), x);
        }
      }
    }
  }

  lemma NeverCreatedWithRows(s: State, role: Role, x: nat)
    requires Created(s)
    ensures !IsStored(s, role, x)
  {
  }

  lemma HeldIfStored(s: State, role: Role, x: nat)
    requires RowsAreCurrent(s)
    ensures IsStored(s, role, x) ==> x in Holders(s.room, role)
  {
  }

  lemma NewHolderIsStored(s: State, ops: seq<Op>, role: Role, x: nat)
    requires ops != []
    requires var n := |ops| - 1; var before := After(s, ops[..n]);
             Grants(ops[n], role, x) && Succeeds(s, ops, n) && x !in Holders(before.room, role) && IsKeyed(before, x)
    requires x in Holders(After(s, ops).room, role) && IsKeyed(After(s, ops), x)
    ensures WrittenAt(s, ops, |ops| - 1, role, x)
  {
    hide Step, Holders, Grants, MayGrant, IsKeyed;
    var n := |ops| - 1;
    assert ops[..|ops|] == ops;
    NewHolderWasGranted(After(s, ops[..n]), ops[n], role, x);
  }

  /** A role that must be stored for the tables to agree: all but the creator's and the invitations. */
  predicate Owed(room: Room, role: Role, x: nat) {
    role != Invited && x in Holders(room, role) && (role == Banned || x != room.creatorId)
  }

  lemma CompleteIsOwed(s: State)
    ensures RowsAreComplete(s) <==> forall role, x :: Owed(s.room, role, x) ==> IsStored(s, role, x)
  {
    if forall role, x :: Owed(s.room, role, x) ==> IsStored(s, role, x) {
      forall id | id in s.room.administrators && id != s.room.creatorId
        ensures HasRow(s.roles.administrators, id, s.room.roomId)
      {
        assert Owed(s.room, Administrator, id) && IsStored(s, Administrator, id);
      }
      forall id | id in s.room.moderators && id != s.room.creatorId
        ensures HasRow(s.roles.moderators, id, s.room.roomId)
      {
        assert Owed(s.room, Moderator, id) && IsStored(s, Moderator, id);
      }
      forall id | id in s.room.banned ensures HasRow(s.roles.banned, id, s.room.roomId) {
        assert Owed(s.room, Banned, id) && IsStored(s, Banned, id);
      }
    }
  }

  /** Role rows are keyed by the number a room has in memory, not by the id of its stored row. Over all
      runs they therefore agree with memory exactly when, for every role there is to write, a stored
      room has had that number as its id, and the avatar has been stored, ever since the role was granted. */
  lemma TablesAgreeExactlyIfKeyed(s: State, ops: seq<Op>)
    requires Created(s) && s.room.IsPersistent()
    ensures RowsAreCurrent(After(s, ops))
    ensures RowsAreComplete(After(s, ops)) <==>
      forall role, x :: Owed(After(s, ops).room, role, x) ==> exists k: nat :: WrittenAt(s, ops, k, role, x)
  {
    hide WrittenAt, RowsAreComplete, RowsAreCurrent, Owed, IsStored;
    RowsStayCurrent(s, ops);
    CompleteIsOwed(After(s, ops));
    forall role, x | Owed(After(s, ops).room, role, x)
      ensures IsStored(After(s, ops), role, x) <==> exists k: nat :: WrittenAt(s, ops, k, role, x)
    {
      OwedIsNotInvited(After(s, ops).room, role, x);
      StoredExactly(s, ops, role, x);
    }
  }

  lemma OwedIsNotInvited(room: Room, role: Role, x: nat)
    requires Owed(room, role, x)
    ensures role != Invited
  {
  }

  lemma {:induction false} KeyIsFixed(s: State, ops: seq<Op>)
    requires forall k :: 0 <= k < |ops| ==> ops[k] != RowDeleted(s.room.roomId) && ops[k] != RowInserted(s.room.roomId)
    ensures RoomIsKeyed(After(s, ops)) <==> RoomIsKeyed(s)
  {
    if ops != [] {
      var front := ops[..|ops| - 1];
      assert forall k :: 0 <= k < |front| ==> front[k] == ops[k];
      KeyIsFixed(s, front);
      Fixed(s, front);
    }
  }

  lemma {:induction false} RoomStaysKeyed(s: State, ops: seq<Op>)
    requires RoomIsKeyed(s) && forall k :: 0 <= k < |ops| ==> ops[k] != RowDeleted(s.room.roomId)
    ensures RoomIsKeyed(After(s, ops))
  {
    if ops != [] {
      var front := ops[..|ops| - 1];
      assert forall k :: 0 <= k < |front| ==> front[k] == ops[k];
      RoomStaysKeyed(s, front);
      Fixed(s, front);
    }
  }

  lemma {:induction false} AvatarStaysStored(s: State, ops: seq<Op>, k: nat, x: nat)
    requires k <= |ops| && x in After(s, ops[..k]).roles.avatars
    requires forall j :: k <= j < |ops| ==> ops[j] != AvatarDeleted(x)
    ensures x in After(s, ops).roles.avatars
  {
    if k == |ops| {
      assert ops[..k] == ops;
    } else {
      var front := ops[..|ops| - 1];
      assert front[..k] == ops[..k];
      AvatarStaysStored(s, front, k, x);
    }
  }

  /** The operation gives some avatar a role that is stored. */
  predicate Gives(op: Op) {
    op.AddAdministrator? || op.AddModerator? || op.AddBanned?
  }

  /** Roles are given to stored avatars, and these are not deleted afterwards. */
  ghost predicate AvatarsStay(s: State, ops: seq<Op>) {
    forall k :: 0 <= k < |ops| && Gives(ops[k]) ==> AvatarStays(s, ops, k, ops[k].avatarId)
  }

  ghost predicate AvatarStays(s: State, ops: seq<Op>, k: nat, x: nat)
    requires k < |ops|
  {
    x in After(s, ops[..k]).roles.avatars && forall j :: k <= j < |ops| ==> ops[j] != AvatarDeleted(x)
  }

  lemma GrantIsWritten(s: State, ops: seq<Op>, k: nat, role: Role, x: nat)
    requires GrantedAt(s, ops, k, role, x) && AvatarStays(s, ops, k, x)
    requires RoomIsKeyed(s) && forall j :: 0 <= j < |ops| ==> ops[j] != RowDeleted(s.room.roomId)
    ensures WrittenAt(s, ops, k, role, x)
  {
    hide GrantedAt;
    forall j | k <= j <= |ops| ensures IsKeyed(After(s, ops[..j]), x) {
      var start := ops[..j];
      assert forall i :: 0 <= i < |start| ==> start[i] == ops[i];
      RoomStaysKeyed(s, start);
      assert start[..k] == ops[..k];
      AvatarStaysStored(s, start, k, x);
    }
  }

  lemma OwedWasGranted(s: State, ops: seq<Op>, role: Role, x: nat) returns (k: nat)
    requires Created(s) && Owed(After(s, ops).room, role, x)
    ensures GrantedAt(s, ops, k, role, x) && k < |ops| && Gives(ops[k]) && ops[k].avatarId == x
  {
    Fixed(s, ops);
    EveryRoleWasGranted(s, ops, role, x);
    k :| GrantedAt(s, ops, k, role, x);
  }

  /** As long as a stored room has the number as its id, and avatars with roles stay stored, role tables
      and memory agree. */
  lemma RowsStayComplete(s: State, ops: seq<Op>)
    requires Created(s) && s.room.IsPersistent() && RoomIsKeyed(s) && AvatarsStay(s, ops)
    requires forall k :: 0 <= k < |ops| ==> ops[k] != RowDeleted(s.room.roomId)
    ensures RowsAreComplete(After(s, ops)) && RowsAreCurrent(After(s, ops)) && RoomIsKeyed(After(s, ops))
  {
    hide RowsAreComplete, RowsAreCurrent, Created, Step, Owed, WrittenAt, GrantedAt, AvatarStays;
    TablesAgreeExactlyIfKeyed(s, ops);
    RoomStaysKeyed(s, ops);
    forall role, x | Owed(After(s, ops).room, role, x) ensures exists k: nat :: WrittenAt(s, ops, k, role, x) {
      var k := OwedWasGranted(s, ops, role, x);
      GrantIsWritten(s, ops, k, role, x);
    }
  }

  /** Nobody but the creator holds any role that is written to the tables. */
  ghost predicate CreatorOnly(r: Room) {
    forall role, x :: !Owed(r, role, x)
  }

  /** While no stored room with that id comes or goes, and avatars with roles stay stored, this means: when
      such a room is stored, or when there is nothing to write. */
  lemma TablesAgreeWhileKeyIsFixed(s: State, ops: seq<Op>)
    requires Created(s) && s.room.IsPersistent() && AvatarsStay(s, ops)
    requires forall k :: 0 <= k < |ops| ==> ops[k] != RowDeleted(s.room.roomId) && ops[k] != RowInserted(s.room.roomId)
    ensures RowsAreComplete(After(s, ops)) <==> RoomIsKeyed(s) || CreatorOnly(After(s, ops).room)
  {
    hide RowsAreComplete, RowsAreCurrent, Created, Step, Owed, AvatarsStay;
    TablesAgreeExactlyIfKeyed(s, ops);
    KeyIsFixed(s, ops);
    forall role, x, k: nat | WrittenAt(s, ops, k, role, x) ensures RoomIsKeyed(After(s, ops)) {
      assert ops[..|ops|] == ops;
      assert IsKeyed(After(s, ops[..|ops|]), x);
    }
    if RoomIsKeyed(s) {
      RowsStayComplete(s, ops);
    }
  }

  /** A persistent room as its creator has just made it, over a database with these rooms and avatars. */
  function Fresh(roomId: nat, creator: nat, rooms: set<nat>, avatars: set<nat>): State {
    State(Room(roomId, creator, [], 4, [], [creator], [creator], [], []), Roles(rooms, avatars, {}, {}, {}))
  }

  lemma TwoSteps(s: State, first: Op, second: Op)
    ensures After(s, [first, second]) == Step(Step(s, first).0, second).0
    ensures After(s, [first]) == Step(s, first).0
  {
    assert [first, second][..1] == [first] && [first][..0] == [];
    assert After(s, [first]) == Step(After(s, []), first).0;
  }

  /** A ban is lost once the stored room that keys it is destroyed, although the banned room lives on. */
  lemma CascadeLosesBans(creator: nat, x: nat, n: nat)
    ensures var s := Fresh(n, creator, {n}, {creator, x});
            var after := After(s, [AddBanned(creator, x), RowDeleted(n)]);
            Created(s) && IsKeyed(s, x) && x in after.room.banned && !RowsAreComplete(after)
  {
    var s := Fresh(n, creator, {n}, {creator, x});
    TwoSteps(s, AddBanned(creator, x), RowDeleted(n));
    var after := After(s, [AddBanned(creator, x), RowDeleted(n)]);
    assert x in after.room.banned && !HasRow(after.roles.banned, x, n);
  }

  /** So is the ban of an avatar that is destroyed: the room still bans its id. */
  lemma DestroyedAvatarLosesItsBan(creator: nat, x: nat, n: nat)
    ensures var s := Fresh(n, creator, {n}, {creator, x});
            var after := After(s, [AddBanned(creator, x), AvatarDeleted(x)]);
            Created(s) && IsKeyed(s, x) && x in after.room.banned && !RowsAreComplete(after)
  {
    var s := Fresh(n, creator, {n}, {creator, x});
    TwoSteps(s, AddBanned(creator, x), AvatarDeleted(x));
    var after := After(s, [AddBanned(creator, x), AvatarDeleted(x)]);
    assert x in after.room.banned && !HasRow(after.roles.banned, x, n);
  }

  /** The first room of a fresh database has number 0 while its row gets id 1: its bans are not stored. */
  lemma FirstRoomLosesItsBans(creator: nat, x: nat)
    ensures var s := Fresh(0, creator, {1}, {creator, x});
            var after := After(s, [AddBanned(creator, x)]);
            && Created(s) && Step(s, AddBanned(creator, x)).1 == Success
            && x in after.room.banned && !RowsAreComplete(after)
  {
    var s := Fresh(0, creator, {1}, {creator, x});
    TwoSteps(s, AddBanned(creator, x), AddBanned(creator, x));
    var after := After(s, [AddBanned(creator, x)]);
    assert x in after.room.banned && !HasRow(after.roles.banned, x, 0);
  }

  /** A room never touches the rows of another. */
  lemma OtherRoomsRowsUntouched(s: State, op: Op, id: nat, other: nat)
    requires other != s.room.roomId && op != RowDeleted(other) && op != AvatarDeleted(id)
    ensures var r, t := s.roles, Step(s, op).0.roles;
            && (HasRow(t.administrators, id, other) <==> HasRow(r.administrators, id, other))
            && (HasRow(t.moderators, id, other) <==> HasRow(r.moderators, id, other))
            && (HasRow(t.banned, id, other) <==> HasRow(r.banned, id, other))
  {
  }
}
