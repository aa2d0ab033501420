// src/stationchat/ChatAvatar.cpp and src/stationchat/ChatAvatarService.cpp: avatars, their
// friend and ignore lists, and the cache that loads them on demand and writes through to the
// tables. An avatar's id, name and address never change once it exists, so they are constants.
module AvatarService {
  import opened StringUtils
  import opened AvatarTables
  import opened AvatarGraph
  import opened AvatarRequests

  /** A FriendContact, or with an empty comment an IgnoreContact. */
  datatype Contact = Contact(avatar: ChatAvatar?, comment: Wide)

  class ChatAvatar {
    const avatarService: ChatAvatarService
    const avatarId: nat
    const userId: nat
    const name: Wide
    const address: Wide
    var attributes: nat
    var loginLocation: Wide
    var isOnline: bool
    var friendList: seq<Contact>
    var ignoreList: seq<Contact>

    constructor (service: ChatAvatarService, id: nat, userId: nat, name: Wide, address: Wide, attributes: nat,
                 loginLocation: Wide)
      ensures avatarService == service && avatarId == id && this.userId == userId
      ensures this.name == name && this.address == address
      ensures this.attributes == attributes && this.loginLocation == loginLocation
      ensures !isOnline && friendList == [] && ignoreList == []
    {
      this.avatarService, this.avatarId, this.userId := service, id, userId;
      this.name, this.address, this.attributes, this.loginLocation := name, address, attributes, loginLocation;
      this.isOnline, this.friendList, this.ignoreList := false, [], [];
    }

    /** A cached avatar of a consistent service. */
    ghost predicate Live()
      reads this, avatarService, avatarService.avatarCache
    {
      avatarService.Valid() && this in avatarService.avatarCache
    }

    /** Nobody is on both lists. */
    ghost predicate Exclusive()
      reads this
    {
      forall id :: !(Names(friendList, id) && Names(ignoreList, id))
    }

    /** ChatAvatar.cpp lines 51-60. */
    method IsFriend(avatar: ChatAvatar) returns (found: bool)
      requires forall c :: c in friendList ==> c.avatar != null
      ensures found <==> Names(friendList, avatar.avatarId)
    {
      for i := 0 to |friendList|
        invariant forall j :: 0 <= j < i ==> !PointsAt(friendList[j], avatar.avatarId)
      {
        if friendList[i].avatar.avatarId == avatar.avatarId {
          assert PointsAt(friendList[i], avatar.avatarId);
          return true;
        }
      }
      return false;
    }

    /** ChatAvatar.cpp lines 82-91. */
    method IsIgnored(avatar: ChatAvatar) returns (found: bool)
      requires forall c :: c in ignoreList ==> c.avatar != null
      ensures found <==> Names(ignoreList, avatar.avatarId)
    {
      for i := 0 to |ignoreList|
        invariant forall j :: 0 <= j < i ==> !PointsAt(ignoreList[j], avatar.avatarId)
      {
        if ignoreList[i].avatar.avatarId == avatar.avatarId {
          assert PointsAt(ignoreList[i], avatar.avatarId);
          return true;
        }
      }
      return false;
    }

    /** ChatAvatar.cpp lines 30-39. */
    method RemoveFriend(avatar: ChatAvatar)
      requires Live() && avatar in avatarService.avatarCache
      modifies this`friendList, avatarService`db
      ensures Live()
      ensures friendList == Without(old(friendList), avatar.avatarId)
      ensures avatarService.db == old(avatarService.db).(friends :=
          DeleteLink(old(avatarService.db.friends), avatarId, avatar.avatarId))
    {
      avatarService.ListsHaveNoNulls(this);
      var kept := RemoveIf(friendList, avatar.avatarId);
      WithoutOfUnnamed(friendList, avatar.avatarId);
      if |kept| != |friendList| {
        EraseFriend(avatar, kept);
      } else {
        avatarService.UnlistedFriendHasNoRow(this, avatar);
      }
    }

    /** friendList_.erase and the DELETE that follows it. */
    method EraseFriend(avatar: ChatAvatar, kept: seq<Contact>)
      requires Live() && avatar in avatarService.avatarCache && kept == Without(friendList, avatar.avatarId)
      modifies this`friendList, avatarService`db
      ensures Live() && friendList == kept
      ensures avatarService.db == old(avatarService.db).(friends :=
          DeleteLink(old(avatarService.db.friends), avatarId, avatar.avatarId))
    {
      ghost var before := avatarService.db;
      avatarService.FriendListShrinks(this, avatar);
      SetFriendList(kept, before);
      avatarService.RemoveFriend(avatarId, avatar.avatarId, this, before);
      avatarService.RefriendedIsValid(this, before);
    }

    /** friendList_.push_back and the INSERT that follows it. */
    method PushFriend(avatar: ChatAvatar, comment: Wide)
      requires Live() && avatar in avatarService.avatarCache && !Names(friendList, avatar.avatarId)
      modifies this`friendList, avatarService`db
      ensures Live() && friendList == old(friendList) + [Contact(avatar, comment)]
      ensures avatarService.db == old(avatarService.db).(friends := old(avatarService.db.friends)
          + [LinkRow(avatarId, avatar.avatarId, FromWideString(comment))])
    {
      ghost var before := avatarService.db;
      avatarService.FriendListGrows(this, avatar, comment);
      SetFriendList(friendList + [Contact(avatar, comment)], before);
      avatarService.PersistFriend(avatarId, avatar.avatarId, comment, this, before);
      avatarService.RefriendedIsValid(this, before);
    }

    method SetFriendList(list: seq<Contact>, ghost before: Tables)
      requires avatarService.RefriendingFrom(this, before)
      modifies this`friendList
      ensures avatarService.RefriendingFrom(this, before) && friendList == list
    {
      friendList := list;
    }

    /** ChatAvatar.cpp lines 71-80. */
    method RemoveIgnore(avatar: ChatAvatar)
      requires Live() && avatar in avatarService.avatarCache
      modifies this`ignoreList, avatarService`db
      ensures Live()
      ensures ignoreList == Without(old(ignoreList), avatar.avatarId)
      ensures avatarService.db == old(avatarService.db).(ignores :=
          DeleteLink(old(avatarService.db.ignores), avatarId, avatar.avatarId))
    {
      avatarService.ListsHaveNoNulls(this);
      var kept := RemoveIf(ignoreList, avatar.avatarId);
      WithoutOfUnnamed(ignoreList, avatar.avatarId);
      if |kept| != |ignoreList| {
        EraseIgnore(avatar, kept);
      } else {
        avatarService.UnlistedIgnoreHasNoRow(this, avatar);
      }
    }

    /** ignoreList_.erase and the DELETE that follows it. */
    method EraseIgnore(avatar: ChatAvatar, kept: seq<Contact>)
      requires Live() && avatar in avatarService.avatarCache && kept == Without(ignoreList, avatar.avatarId)
      modifies this`ignoreList, avatarService`db
      ensures Live() && ignoreList == kept
      ensures avatarService.db == old(avatarService.db).(ignores :=
          DeleteLink(old(avatarService.db.ignores), avatarId, avatar.avatarId))
    {
      ghost var before := avatarService.db;
      avatarService.IgnoreListShrinks(this, avatar);
      SetIgnoreList(kept, before);
      avatarService.RemoveIgnore(avatarId, avatar.avatarId, this, before);
      avatarService.ReignoredIsValid(this, before);
    }

    /** ignoreList_.push_back and the INSERT that follows it. */
    method PushIgnore(avatar: ChatAvatar)
      requires Live() && avatar in avatarService.avatarCache && !Names(ignoreList, avatar.avatarId)
      modifies this`ignoreList, avatarService`db
      ensures Live() && ignoreList == old(ignoreList) + [Contact(avatar, [])]
      ensures avatarService.db == old(avatarService.db).(ignores := old(avatarService.db.ignores)
          + [LinkRow(avatarId, avatar.avatarId, [])])
    {
      ghost var before := avatarService.db;
      avatarService.IgnoreListGrows(this, avatar);
      SetIgnoreList(ignoreList + [Contact(avatar, [])], before);
      avatarService.PersistIgnore(avatarId, avatar.avatarId, this, before);
      avatarService.ReignoredIsValid(this, before);
    }

    method SetIgnoreList(list: seq<Contact>, ghost before: Tables)
      requires avatarService.ReignoringFrom(this, before)
      modifies this`ignoreList
      ensures avatarService.ReignoringFrom(this, before) && ignoreList == list
    {
      ignoreList := list;
    }

    /** Line 23. */
    method DropIgnore(avatar: ChatAvatar)
      requires Live() && avatar in avatarService.avatarCache
      modifies this`ignoreList, avatarService`db
      ensures Live()
      ensures ignoreList == Without(old(ignoreList), avatar.avatarId)
      ensures avatarService.db == old(avatarService.db).(ignores :=
          DeleteLink(old(avatarService.db.ignores), avatarId, avatar.avatarId))
    {
      avatarService.ListsHaveNoNulls(this);
      WithoutOfUnnamed(ignoreList, avatar.avatarId);
      var listed := IsIgnored(avatar);
      if listed {
        RemoveIgnore(avatar);
      } else {
        avatarService.UnlistedIgnoreHasNoRow(this, avatar);
      }
    }

    /** ChatAvatar.cpp lines 21-28. */
    method AddFriend(avatar: ChatAvatar, comment: Wide)
      requires Live() && avatar in avatarService.avatarCache
      modifies this`friendList, this`ignoreList, avatarService`db
      ensures Live()
      ensures old(Names(friendList, avatar.avatarId)) ==>
                friendList == old(friendList) && ignoreList == old(ignoreList)
                    && avatarService.db == old(avatarService.db)
      ensures !old(Names(friendList, avatar.avatarId)) ==>
                && friendList == old(friendList) + [Contact(avatar, comment)]
                && ignoreList == Without(old(ignoreList), avatar.avatarId)
                && avatarService.db == old(avatarService.db).(
                     friends := old(avatarService.db.friends)
                         + [LinkRow(avatarId, avatar.avatarId, FromWideString(comment))],
                     ignores := DeleteLink(old(avatarService.db.ignores), avatarId, avatar.avatarId))
      ensures Names(friendList, avatar.avatarId)
      ensures old(Exclusive()) ==> Exclusive()
    {
      avatarService.ListsHaveNoNulls(this);
      var listed := IsFriend(avatar);
      if !listed {
        NamesAppended(friendList, Contact(avatar, comment));
        NamesWithout(ignoreList, avatar.avatarId);
        MoveToFriends(avatar, comment);
      }
    }

    /** Lines 23-27, once line 22 has let the avatar through. */
    method MoveToFriends(avatar: ChatAvatar, comment: Wide)
      requires Live() && avatar in avatarService.avatarCache && !Names(friendList, avatar.avatarId)
      modifies this`friendList, this`ignoreList, avatarService`db
      ensures Live()
      ensures friendList == old(friendList) + [Contact(avatar, comment)]
      ensures ignoreList == Without(old(ignoreList), avatar.avatarId)
      ensures avatarService.db == old(avatarService.db).(
                friends := old(avatarService.db.friends)
                    + [LinkRow(avatarId, avatar.avatarId, FromWideString(comment))],
                ignores := DeleteLink(old(avatarService.db.ignores), avatarId, avatar.avatarId))
    {
      DropIgnore(avatar);
      PushFriend(avatar, comment);
    }

    /** Line 64. */
    method DropFriend(avatar: ChatAvatar)
      requires Live() && avatar in avatarService.avatarCache
      modifies this`friendList, avatarService`db
      ensures Live()
      ensures friendList == Without(old(friendList), avatar.avatarId)
      ensures avatarService.db == old(avatarService.db).(friends :=
          DeleteLink(old(avatarService.db.friends), avatarId, avatar.avatarId))
    {
      avatarService.ListsHaveNoNulls(this);
      WithoutOfUnnamed(friendList, avatar.avatarId);
      var listed := IsFriend(avatar);
      if listed {
        RemoveFriend(avatar);
      } else {
        avatarService.UnlistedFriendHasNoRow(this, avatar);
      }
    }

    /** ChatAvatar.cpp lines 62-69. */
    method AddIgnore(avatar: ChatAvatar)
      requires Live() && avatar in avatarService.avatarCache
      modifies this`friendList, this`ignoreList, avatarService`db
      ensures Live()
      ensures old(Names(ignoreList, avatar.avatarId)) ==>
                ignoreList == old(ignoreList) && friendList == old(friendList)
                    && avatarService.db == old(avatarService.db)
      ensures !old(Names(ignoreList, avatar.avatarId)) ==>
                && ignoreList == old(ignoreList) + [Contact(avatar, [])]
                && friendList == Without(old(friendList), avatar.avatarId)
                && avatarService.db == old(avatarService.db).(
                     ignores := old(avatarService.db.ignores) + [LinkRow(avatarId, avatar.avatarId, [])],
                     friends := DeleteLink(old(avatarService.db.friends), avatarId, avatar.avatarId))
      ensures Names(ignoreList, avatar.avatarId)
      ensures old(Exclusive()) ==> Exclusive()
    {
      avatarService.ListsHaveNoNulls(this);
      var listed := IsIgnored(avatar);
      if !listed {
        NamesAppended(ignoreList, Contact(avatar, []));
        NamesWithout(friendList, avatar.avatarId);
        MoveToIgnores(avatar);
      }
    }

    /** Lines 64-68, once line 63 has let the avatar through. */
    method MoveToIgnores(avatar: ChatAvatar)
      requires Live() && avatar in avatarService.avatarCache && !Names(ignoreList, avatar.avatarId)
      modifies this`friendList, this`ignoreList, avatarService`db
      ensures Live()
      ensures ignoreList == old(ignoreList) + [Contact(avatar, [])]
      ensures friendList == Without(old(friendList), avatar.avatarId)
      ensures avatarService.db == old(avatarService.db).(
                ignores := old(avatarService.db.ignores) + [LinkRow(avatarId, avatar.avatarId, [])],
                friends := DeleteLink(old(avatarService.db.friends), avatarId, avatar.avatarId))
    {
      DropFriend(avatar);
      PushIgnore(avatar);
    }

    /** The std::find_if of line 42. */
    method FindFriend(avatar: ChatAvatar) returns (i: nat)
      requires forall c :: c in friendList ==> c.avatar != null
      ensures i <= |friendList| && (i < |friendList| ==> PointsAt(friendList[i], avatar.avatarId))
      ensures forall j :: 0 <= j < i ==> !PointsAt(friendList[j], avatar.avatarId)
    {
      i := 0;
      while i < |friendList| && friendList[i].avatar.avatarId != avatar.avatarId
        invariant 0 <= i <= |friendList|
        invariant forall j :: 0 <= j < i ==> !PointsAt(friendList[j], avatar.avatarId)
      {
        i := i + 1;
      }
    }

    /** ChatAvatar.cpp lines 41-49. */
    method UpdateFriendComment(avatar: ChatAvatar, comment: Wide)
      requires Live() && avatar in avatarService.avatarCache
      modifies this`friendList, avatarService`db
      ensures Live()
      ensures friendList == Recommented(old(friendList), avatar.avatarId, comment)
      ensures avatarService.db == old(avatarService.db).(
                friends := SetComment(old(avatarService.db.friends), avatarId, avatar.avatarId,
                    FromWideString(comment)))
    {
      avatarService.ListsHaveNoNulls(this);
      var i := FindFriend(avatar);
      avatarService.OnlyEntryRecommented(this, avatar, i, comment);
      if i < |friendList| {
        ReviseComment(avatar, i, comment);
      }
    }

    /** The assignment through the iterator and the UPDATE that follows it. */
    method ReviseComment(avatar: ChatAvatar, i: nat, comment: Wide)
      requires Live() && avatar in avatarService.avatarCache
      requires i < |friendList|
          && friendList[i := friendList[i].(comment := comment)] == Recommented(friendList, avatar.avatarId, comment)
      modifies this`friendList, avatarService`db
      ensures Live() && friendList == Recommented(old(friendList), avatar.avatarId, comment)
      ensures avatarService.db == old(avatarService.db).(
                friends := SetComment(old(avatarService.db.friends), avatarId, avatar.avatarId,
                    FromWideString(comment)))
    {
      ghost var before := avatarService.db;
      avatarService.FriendListRecommented(this, avatar, comment);
      SetFriendList(friendList[i := friendList[i].(comment := comment)], before);
      avatarService.UpdateFriendComment(avatarId, avatar.avatarId, comment, this, before);
      avatarService.RefriendedIsValid(this, before);
    }
  }

  /** std::remove_if on a contact list, by the id of the avatar pointed at. */
  method RemoveIf(list: seq<Contact>, id: nat) returns (kept: seq<Contact>)
    requires forall c :: c in list ==> c.avatar != null
    ensures kept == Without(list, id)
  {
    kept := [];
    for i := 0 to |list|
      invariant kept == Without(list[..i], id)
    {
      assert list[..i + 1][..i] == list[..i];
      if list[i].avatar.avatarId != id {
        kept := kept + [list[i]];
      }
    }
    assert list[..|list|] == list;
  }

  /** Some entry of the list points at the avatar with this id. */
  ghost predicate Names(list: seq<Contact>, id: nat) {
    exists i :: 0 <= i < |list| && PointsAt(list[i], id)
  }

  predicate PointsAt(c: Contact, id: nat) {
    c.avatar != null && c.avatar.avatarId == id
  }

  /** The entries that do not point at `id`, in order: what std::remove_if followed by erase leaves. */
  function Without(list: seq<Contact>, id: nat): seq<Contact> {
    if list == [] then []
    else
      var kept := Without(list[..|list| - 1], id);
      if PointsAt(list[|list| - 1], id) then kept else kept + [list[|list| - 1]]
  }

  lemma {:induction false} WithoutOfUnnamed(list: seq<Contact>, id: nat)
    ensures !Names(Without(list, id), id)
    ensures |Without(list, id)| <= |list|
    ensures |Without(list, id)| == |list| <==> !Names(list, id)
    ensures !Names(list, id) ==> Without(list, id) == list
    ensures forall i :: 0 <= i < |Without(list, id)| ==>
              Without(list, id)[i] in list && !PointsAt(Without(list, id)[i], id)
    ensures forall i :: 0 <= i < |list| && !PointsAt(list[i], id) ==> list[i] in Without(list, id)
  {
    if list != [] {
      var front, last := list[..|list| - 1], list[|list| - 1];
      assert list == front + [last];
      WithoutOfUnnamed(front, id);
      assert Names(list, id) <==> Names(front, id) || PointsAt(last, id) by {
        if i :| 0 <= i < |list| && PointsAt(list[i], id) {
          assert i < |front| ==> PointsAt(front[i], id);
        }
        if i :| 0 <= i < |front| && PointsAt(front[i], id) {
          assert PointsAt(list[i], id);
        }
      }
    }
  }

  lemma NamesAppended(list: seq<Contact>, c: Contact)
    requires c.avatar != null
    ensures forall id :: Names(list + [c], id) <==> Names(list, id) || id == c.avatar.avatarId
  {
    forall id ensures Names(list + [c], id) <==> Names(list, id) || id == c.avatar.avatarId {
      if i :| 0 <= i < |list| && PointsAt(list[i], id) {
        assert PointsAt((list + [c])[i], id);
      }
      if i :| 0 <= i < |list| + 1 && PointsAt((list + [c])[i], id) {
        assert i < |list| ==> PointsAt(list[i], id);
      }
      assert (list + [c])[|list|] == c;
      assert PointsAt(c, c.avatar.avatarId);
    }
  }

  lemma NamesWithout(list: seq<Contact>, id: nat)
    ensures forall other :: Names(Without(list, id), other) <==> Names(list, other) && other != id
  {
    WithoutOfUnnamed(list, id);
    var kept := Without(list, id);
    forall other ensures Names(kept, other) <==> Names(list, other) && other != id {
      if i :| 0 <= i < |list| && PointsAt(list[i], other) && other != id {
        assert list[i] in kept;
        var j :| 0 <= j < |kept| && kept[j] == list[i];
        assert PointsAt(kept[j], other);
      }
      if j :| 0 <= j < |kept| && PointsAt(kept[j], other) {
        var i :| 0 <= i < |list| && list[i] == kept[j];
        assert PointsAt(list[i], other);
      }
    }
  }

  /** The list with the comment of every entry for `id` replaced. */
  function Recommented(list: seq<Contact>, id: nat, comment: Wide): (updated: seq<Contact>)
    ensures |updated| == |list|
    ensures forall i :: 0 <= i < |list| ==>
              updated[i] == if PointsAt(list[i], id) then list[i].(comment := comment) else list[i]
  {
    seq(|list|, i requires 0 <= i < |list| => if PointsAt(list[i], id) then list[i].(comment := comment) else list[i])
  }

  ghost function Ids(cache: seq<ChatAvatar>): set<nat> {
    if cache == [] then {} else Ids(cache[..|cache| - 1]) + {cache[|cache| - 1].avatarId}
  }

  lemma {:induction false} IdsHold(cache: seq<ChatAvatar>, id: nat)
    ensures id in Ids(cache) <==> exists i :: 0 <= i < |cache| && cache[i].avatarId == id
  {
    if cache != [] {
      IdsHold(cache[..|cache| - 1], id);
    }
  }

  lemma IdOfCached(cache: seq<ChatAvatar>, a: ChatAvatar)
    requires a in cache
    ensures a.avatarId in Ids(cache)
  {
    IdsHold(cache, a.avatarId);
  }

  lemma {:induction false} IdsGrow(before: seq<ChatAvatar>, after: seq<ChatAvatar>)
    requires before <= after
    ensures Ids(before) <= Ids(after)
  {
    if |before| < |after| {
      IdsGrow(before, after[..|after| - 1]);
    } else {
      assert before == after;
    }
  }

  lemma {:induction false} IdsCount(cache: seq<ChatAvatar>)
    ensures |Ids(cache)| <= |cache|
  {
    if cache != [] {
      IdsCount(cache[..|cache| - 1]);
    }
  }

  /** When there are as many ids as avatars, an id belongs to one avatar. */
  lemma {:induction false} OneAvatarPerId(cache: seq<ChatAvatar>, a: ChatAvatar, b: ChatAvatar)
    requires |Ids(cache)| == |cache| && a in cache && b in cache
    ensures a.avatarId == b.avatarId ==> a == b
  {
    var front, last := cache[..|cache| - 1], cache[|cache| - 1];
    IdsCount(front);
    assert last.avatarId !in Ids(front);
    if a in front {
      IdOfCached(front, a);
    }
    if b in front {
      IdOfCached(front, b);
    }
    if a in front && b in front {
      OneAvatarPerId(front, a, b);
    }
  }

  /** `p` is what GetAvatar(id) yields: the cached avatar with that id, or null for an id not stored. */
  ghost predicate Denotes(cache: seq<ChatAvatar>, stored: set<nat>, p: ChatAvatar?, id: nat) {
    if id in stored then p != null && p in cache && p.avatarId == id else p == null
  }

  /** The list in memory shows the table rows, in order; comments agree as stored text. */
  ghost predicate Mirrors(cache: seq<ChatAvatar>, stored: set<nat>, list: seq<Contact>, rows: seq<LinkRow>) {
    && |list| == |rows|
    && forall i :: 0 <= i < |list| ==>
         && Denotes(cache, stored, list[i].avatar, rows[i].target)
         && FromWideString(list[i].comment) == rows[i].comment
  }

  ghost predicate ShowsRows(cache: seq<ChatAvatar>, db: Tables, a: ChatAvatar)
    reads a`friendList, a`ignoreList
  {
    && Mirrors(cache, db.Ids(), a.friendList, RowsOf(db.friends, a.avatarId))
    && Mirrors(cache, db.Ids(), a.ignoreList, RowsOf(db.ignores, a.avatarId))
  }

  lemma MirrorsNext(before: seq<ChatAvatar>, after: seq<ChatAvatar>, stored: set<nat>, list: seq<Contact>,
      rows: seq<LinkRow>, i: nat, c: Contact)
    requires before <= after && i < |rows| && Mirrors(before, stored, list, rows[..i])
    requires Denotes(after, stored, c.avatar, rows[i].target) && FromWideString(c.comment) == rows[i].comment
    ensures Mirrors(after, stored, list + [c], rows[..i + 1])
  {
    assert forall a :: a in before ==> a in after;
  }

  lemma MirrorsAsCacheGrows(before: seq<ChatAvatar>, after: seq<ChatAvatar>, stored: set<nat>, list: seq<Contact>,
      rows: seq<LinkRow>)
    requires before <= after && Mirrors(before, stored, list, rows)
    ensures Mirrors(after, stored, list, rows)
  {
    assert forall a :: a in before ==> a in after;
  }

  /** Removing the entries of one avatar from list and rows keeps them in step. */
  lemma {:induction false} MirrorsWithout(cache: seq<ChatAvatar>, stored: set<nat>, list: seq<Contact>,
      rows: seq<LinkRow>, id: nat)
    requires Mirrors(cache, stored, list, rows) && id in stored
    ensures Mirrors(cache, stored, Without(list, id), WithoutTarget(rows, id))
  {
    if list != [] {
      var n := |list| - 1;
      assert list == list[..n] + [list[n]] && rows == rows[..n] + [rows[n]];
      MirrorsWithout(cache, stored, list[..n], rows[..n], id);
      assert Denotes(cache, stored, list[n].avatar, rows[n].target);
      assert PointsAt(list[n], id) <==> rows[n].target == id;
    }
  }

  lemma MirrorsNames(cache: seq<ChatAvatar>, stored: set<nat>, list: seq<Contact>, rows: seq<LinkRow>, id: nat)
    requires Mirrors(cache, stored, list, rows) && id in stored
    ensures Names(list, id) <==> exists r :: r in rows && r.target == id
  {
    forall i | 0 <= i < |list| ensures PointsAt(list[i], id) <==> rows[i].target == id {
      assert Denotes(cache, stored, list[i].avatar, rows[i].target);
    }
    if r :| r in rows && r.target == id {
      var i :| 0 <= i < |rows| && rows[i] == r;
      assert PointsAt(list[i], id);
    }
    if i :| 0 <= i < |list| && PointsAt(list[i], id) {
      assert rows[i] in rows;
    }
  }

  /** A new avatar, which no row can name yet, leaves every list in step. */
  lemma MirrorsWithNewAvatar(cache: seq<ChatAvatar>, added: ChatAvatar, stored: set<nat>, list: seq<Contact>,
      rows: seq<LinkRow>)
    requires Mirrors(cache, stored, list, rows)
    requires forall r :: r in rows ==> r.target in stored
    ensures Mirrors(cache + [added], stored + {added.avatarId}, list, rows)
  {
    forall i | 0 <= i < |list| ensures Denotes(cache + [added], stored + {added.avatarId}, list[i].avatar,
        rows[i].target) {
      assert rows[i] in rows;
      assert Denotes(cache, stored, list[i].avatar, rows[i].target);
    }
  }

  lemma ShowsRowsIfUnlisted(cache: seq<ChatAvatar>, db: Tables, a: ChatAvatar, id: nat)
    requires ShowsRows(cache, db, a) && db.Keyed() && id in db.Ids() && a.avatarId != id
    ensures ShowsRows(Dropped(cache, id), Deleted(db, id), a) <==> !ListsId(a, id)
  {
    DeletedIsKeyed(db, id);
    RowsOfCascade(db.friends, id, a.avatarId);
    RowsOfCascade(db.ignores, id, a.avatarId);
    MirrorsIfUnnamed(cache, db.Ids(), a.friendList, RowsOf(db.friends, a.avatarId), id);
    MirrorsIfUnnamed(cache, db.Ids(), a.ignoreList, RowsOf(db.ignores, a.avatarId), id);
  }

  /** Once `id` is deleted a list still shows its rows exactly if it never named `id`. */
  lemma MirrorsIfUnnamed(cache: seq<ChatAvatar>, stored: set<nat>, list: seq<Contact>, rows: seq<LinkRow>, id: nat)
    requires Mirrors(cache, stored, list, rows) && id in stored
    ensures Mirrors(Dropped(cache, id), stored - {id}, list, WithoutTarget(rows, id)) <==> !Names(list, id)
  {
    var left, kept := Dropped(cache, id), WithoutTarget(rows, id);
    DroppedHolds(cache, id);
    MirrorsNames(cache, stored, list, rows, id);
    if !Names(list, id) {
      WithoutTargetOfAbsent(rows, id);
      forall i | 0 <= i < |list| ensures Denotes(left, stored - {id}, list[i].avatar, rows[i].target) {
        assert rows[i] in rows;
        assert Denotes(cache, stored, list[i].avatar, rows[i].target);
      }
    }
  }

  lemma MirrorsRecommented(cache: seq<ChatAvatar>, stored: set<nat>, list: seq<Contact>, rows: seq<LinkRow>, owner: nat,
      id: nat, comment: Wide)
    requires Mirrors(cache, stored, list, rows) && id in stored && forall r :: r in rows ==> r.owner == owner
    ensures Mirrors(cache, stored, Recommented(list, id, comment), SetComment(rows, owner, id, FromWideString(comment)))
  {
    forall i | 0 <= i < |rows| ensures rows[i].owner == owner && (PointsAt(list[i], id) <==> rows[i].target == id) {
      assert rows[i] in rows;
      assert Denotes(cache, stored, list[i].avatar, rows[i].target);
    }
  }

  lemma MirroredTargetIsCached(cache: seq<ChatAvatar>, stored: set<nat>, list: seq<Contact>, rows: seq<LinkRow>,
      r: LinkRow)
    requires Mirrors(cache, stored, list, rows) && r in rows && r.target in stored
    ensures r.target in Ids(cache)
  {
    var i :| 0 <= i < |rows| && rows[i] == r;
    assert Denotes(cache, stored, list[i].avatar, rows[i].target);
    IdOfCached(cache, list[i].avatar);
  }

  /** Every id in `now` but not in `before` is reached around `before` from some avatar that `id` lists. */
  ghost predicate ReachedVia(db: Tables, id: nat, before: set<nat>, now: set<nat>) {
    forall n :: n in now && n !in before ==> ReachedViaSome(db, id, before, n)
  }

  ghost predicate ReachedViaSome(db: Tables, id: nat, before: set<nat>, n: nat) {
    exists m :: Lists(db, id, m) && Reaches(db, m, n, before)
  }

  lemma ReachedViaAnother(db: Tables, id: nat, m: nat, before: set<nat>, mid: set<nat>, now: set<nat>)
    requires before <= mid && Lists(db, id, m) && ReachedVia(db, id, before, mid)
    requires forall n :: n in now ==> n in mid || Reaches(db, m, n, mid)
    ensures ReachedVia(db, id, before, now)
  {
    forall n | n in now && n !in before ensures ReachedViaSome(db, id, before, n) {
      if n !in mid {
        ReachesMore(db, m, n, before, mid);
      }
    }
  }

  ghost predicate ListsId(a: ChatAvatar, id: nat)
    reads a`friendList, a`ignoreList
  {
    Names(a.friendList, id) || Names(a.ignoreList, id)
  }

  /** The avatars left after std::remove_if by id. */
  function Dropped(list: seq<ChatAvatar>, id: nat): seq<ChatAvatar> {
    if list == [] then []
    else
      var kept := Dropped(list[..|list| - 1], id);
      if list[|list| - 1].avatarId == id then kept else kept + [list[|list| - 1]]
  }

  lemma {:induction false} DroppedHolds(list: seq<ChatAvatar>, id: nat)
    ensures forall i :: 0 <= i < |Dropped(list, id)| ==>
              Dropped(list, id)[i] in list && Dropped(list, id)[i].avatarId != id
    ensures forall i :: 0 <= i < |list| && list[i].avatarId != id ==> list[i] in Dropped(list, id)
    ensures (forall i :: 0 <= i < |list| ==> list[i].avatarId != id) ==> Dropped(list, id) == list
  {
    if list != [] {
      var front, last := list[..|list| - 1], list[|list| - 1];
      assert list == front + [last];
      DroppedHolds(front, id);
    }
  }

  lemma {:induction false} DroppedKeepsDistinct(list: seq<ChatAvatar>, id: nat)
    requires forall i, j :: 0 <= i < j < |list| ==> list[i] != list[j]
    ensures forall i, j :: 0 <= i < j < |Dropped(list, id)| ==> Dropped(list, id)[i] != Dropped(list, id)[j]
  {
    if list != [] {
      var front, last := list[..|list| - 1], list[|list| - 1];
      DroppedKeepsDistinct(front, id);
      DroppedHolds(front, id);
      var kept := Dropped(front, id);
      forall i | 0 <= i < |kept| ensures kept[i] != last {
        assert kept[i] in front;
      }
    }
  }

  lemma {:induction false} DroppedIds(list: seq<ChatAvatar>, id: nat)
    requires |Ids(list)| == |list|
    ensures Ids(Dropped(list, id)) == Ids(list) - {id}
    ensures |Ids(Dropped(list, id))| == |Dropped(list, id)|
  {
    if list != [] {
      var front, last := list[..|list| - 1], list[|list| - 1];
      IdsCount(front);
      DroppedIds(front, id);
      var kept := Dropped(front, id);
      assert (kept + [last])[..|kept|] == kept;
    }
  }

  lemma DroppedOnlineIds(list: seq<ChatAvatar>, id: nat)
    ensures Ids(Dropped(list, id)) == Ids(list) - {id}
  {
    DroppedHolds(list, id);
    var kept := Dropped(list, id);
    forall n ensures n in Ids(kept) <==> n in Ids(list) && n != id {
      IdsHold(list, n);
      IdsHold(kept, n);
      if i :| 0 <= i < |list| && list[i].avatarId == n && n != id {
        assert list[i] in kept;
      }
    }
  }

  lemma AppendedOnlineIds(list: seq<ChatAvatar>, a: ChatAvatar)
    ensures Ids(list + [a]) == Ids(list) + {a.avatarId}
  {
    assert (list + [a])[..|list|] == list;
  }

  method DropFrom(list: seq<ChatAvatar>, id: nat) returns (kept: seq<ChatAvatar>)
    ensures kept == Dropped(list, id)
  {
    kept := [];
    for i := 0 to |list|
      invariant kept == Dropped(list[..i], id)
    {
      assert list[..i + 1][..i] == list[..i];
      if list[i].avatarId != id {
        kept := kept + [list[i]];
      }
    }
    assert list[..|list|] == list;
  }

  /** The online list holds exactly the cached avatars flagged online, each once. */
  ghost predicate OnlineMatches(cache: seq<ChatAvatar>, online: seq<ChatAvatar>)
    reads cache
  {
    && (forall a :: a in cache ==> (a.isOnline <==> a in online))
    && (forall a :: a in online ==> a in cache)
    && (forall i, j :: 0 <= i < j < |online| ==> online[i] != online[j])
  }

  ghost predicate SafeText(a: ChatAvatar) {
    NarrowSafe(a.name) && NarrowSafe(a.address)
  }

  predicate SameStoredText(a: ChatAvatar, name: Wide, address: Wide) {
    FromWideString(a.name) == FromWideString(name) && FromWideString(a.address) == FromWideString(address)
  }

  /** The row an avatar stands for. */
  predicate RowOf(r: AvatarRow, a: ChatAvatar) {
    r.id == a.avatarId && r.userId == a.userId && StoredAs(r, a.name, a.address)
  }

  /** Every field of the avatar is that of the row, text sign-extended; nobody has logged it in yet. */
  predicate LoadedFrom(r: AvatarRow, a: ChatAvatar)
    reads a`attributes, a`loginLocation
  {
    && a.avatarId == r.id && a.userId == r.userId && a.attributes == r.attributes && a.loginLocation == []
    && a.name == ToWideString(r.name) && a.address == ToWideString(r.address)
  }

  ghost predicate LoadedFromSome(rows: seq<AvatarRow>, a: ChatAvatar)
    reads a`attributes, a`loginLocation
  {
    exists r :: r in rows && LoadedFrom(r, a)
  }

  ghost predicate SafeComments(list: seq<Contact>) {
    forall i :: 0 <= i < |list| ==> NarrowSafe(list[i].comment)
  }

  /** Lines below are those of ChatAvatarService.cpp. */
  class ChatAvatarService {
    var avatarCache: seq<ChatAvatar>
    var onlineAvatars: seq<ChatAvatar>
    var db: Tables

    /** Every cached avatar belongs to this service and stands for a stored row. */
    ghost predicate Backed(a: ChatAvatar)
      reads this`db
    {
      && a.avatarService == this
      && exists r :: r in db.avatars && RowOf(r, a)
    }

    /** Both lists of `a` are exactly its rows. An avatar still being loaded is not complete. */
    ghost predicate Complete(a: ChatAvatar)
      reads this, a
    {
      ShowsRows(avatarCache, db, a)
    }

    lemma BackedIsStored(a: ChatAvatar)
      requires Backed(a)
      ensures a.avatarId in db.Ids()
    {
      StoredIdsHold(db.avatars, a.avatarId);
    }

    ghost predicate AllBacked()
      reads this
    {
      forall a :: a in avatarCache ==> Backed(a)
    }

    /** Lines 191-203. */
    method GetCachedAvatarById(id: nat) returns (avatar: ChatAvatar?)
      ensures avatar == null <==> id !in Ids(avatarCache)
      ensures avatar != null ==> avatar in avatarCache && avatar.avatarId == id
    {
      IdsHold(avatarCache, id);
      for i := 0 to |avatarCache|
        invariant forall j :: 0 <= j < i ==> avatarCache[j].avatarId != id
      {
        if avatarCache[i].avatarId == id {
          return avatarCache[i];
        }
      }
      return null;
    }

    /** Lines 263-291: the row with this id, as an avatar with empty lists. */
    method LoadStoredAvatarById(id: nat) returns (avatar: ChatAvatar?)
      ensures avatar == null <==> id !in db.Ids()
      ensures avatar != null ==> fresh(avatar) && Backed(avatar) && avatar.avatarId == id
      ensures avatar != null ==> avatar.friendList == [] && avatar.ignoreList == [] && NewlyLoaded(avatar, {})
    {
      StoredIdsHold(db.avatars, id);
      for i := 0 to |db.avatars|
        invariant forall j :: 0 <= j < i ==> db.avatars[j].id != id
      {
        var r := db.avatars[i];
        if r.id == id {
          NarrowOfWiden(r.name);
          NarrowOfWiden(r.address);
          avatar := new ChatAvatar(this, r.id, r.userId, ToWideString(r.name), ToWideString(r.address), r.attributes,
              []);
          assert RowOf(r, avatar) && LoadedFrom(r, avatar);
          return;
        }
      }
      return null;
    }

    /** What holds at every call inside a load: cached avatars are complete or on the call stack. */
    ghost predicate Loading(stack: set<ChatAvatar>)
      reads this, avatarCache
    {
      && AllBacked()
      && (forall r :: r in db.ignores ==> r.comment == [])
      && forall a :: a in avatarCache ==> a in stack || Complete(a)
    }

    /** The cache has only grown since it was `before`, each new avatar adding an id of its own.
        None of the new ones is on the stack or online. */
    ghost predicate GrownFrom(before: seq<ChatAvatar>, stack: set<ChatAvatar>)
      reads this, avatarCache
    {
      && before <= avatarCache
      && |avatarCache| - |before| == |Ids(avatarCache)| - |Ids(before)|
      && forall i :: |before| <= i < |avatarCache| ==> NewlyLoaded(avatarCache[i], stack)
    }

    /** The avatar was made from its row, with comments that survive narrowing. */
    ghost predicate NewlyLoaded(a: ChatAvatar, stack: set<ChatAvatar>)
      reads this`db, a
    {
      a !in stack && !a.isOnline && SafeText(a) && LoadedFromSome(db.avatars, a) && SafeComments(a.friendList)
    }

    /** Lines 30-45. */
    method GetAvatarById(id: nat, ghost stack: set<ChatAvatar>) returns (avatar: ChatAvatar?)
      requires Loading(stack)
      modifies this`avatarCache
      ensures Loading(stack)
      ensures Denotes(avatarCache, db.Ids(), avatar, id)
      ensures GrownFrom(old(avatarCache), stack)
      ensures forall n :: n in Ids(avatarCache) <==>
                n in Ids(old(avatarCache)) || Reaches(db, id, n, Ids(old(avatarCache)))
      ensures forall a :: a in avatarCache ==> a in old(avatarCache) || fresh(a)
      decreases db.Ids() - Ids(avatarCache), 1
    {
      NothingReachedFrom(db, id, Ids(avatarCache));
      avatar := GetCachedAvatarById(id);
      if avatar == null {
        avatar := LoadStoredAvatarById(id);
        if avatar != null {
          LoadAvatar(avatar, stack);
        }
      } else {
        IdOfCached(avatarCache, avatar);
        BackedIsStored(avatar);
      }
    }

    /** Lines 36-40: cache the avatar just made from its row, then fill its lists. */
    method LoadAvatar(avatar: ChatAvatar, ghost stack: set<ChatAvatar>)
      requires Loading(stack) && Backed(avatar) && NewlyLoaded(avatar, stack)
      requires avatar.friendList == [] && avatar.ignoreList == []
      requires avatar !in avatarCache && avatar.avatarId in db.Ids() && avatar.avatarId !in Ids(avatarCache)
      modifies this`avatarCache, avatar`friendList, avatar`ignoreList
      ensures Loading(stack) && GrownFrom(old(avatarCache), stack) && avatar in avatarCache
      ensures forall n :: n in Ids(avatarCache) <==>
                n in Ids(old(avatarCache)) || Reaches(db, avatar.avatarId, n, Ids(old(avatarCache)))
      ensures forall a :: a in avatarCache ==> a in old(avatarCache) || a == avatar || fresh(a)
      decreases db.Ids() - Ids(avatarCache), 0
    {
      hide Loading, GrownFrom, Backed, ReachedVia, Reaches;
      ghost var before := avatarCache;
      PushAvatar(avatar, stack);
      LoadLists(avatar, stack);
      LoadedExactly(avatar, before, stack);
    }

    /** A finished load has added the avatar asked for and what is reached from it around the old cache. */
    lemma LoadedExactly(avatar: ChatAvatar, before: seq<ChatAvatar>, stack: set<ChatAvatar>)
      requires Loading(stack) && avatar.avatarId in db.Ids() && avatar.avatarId !in Ids(before)
          && NewlyLoaded(avatar, stack)
      requires Ids(before + [avatar]) == Ids(before) + {avatar.avatarId}
      requires GrownFrom(before + [avatar], stack + {avatar})
      requires ReachedVia(db, avatar.avatarId, Ids(before + [avatar]), Ids(avatarCache))
      ensures GrownFrom(before, stack) && avatar in avatarCache
      ensures forall n :: n in Ids(avatarCache) <==> n in Ids(before) || Reaches(db, avatar.avatarId, n, Ids(before))
    {
      GrownByPush(before, avatar, stack);
      LoadedIsReached(avatar.avatarId, before);
      ReachedIsLoaded(avatar.avatarId, before, stack);
    }

    /** What holds while the lists of `avatar` are filled, the cache having been `before` when that began. */
    ghost predicate Filling(avatar: ChatAvatar, stack: set<ChatAvatar>, before: seq<ChatAvatar>)
      reads this, avatarCache
    {
      && avatar in stack
      && Loading(stack)
      && GrownFrom(before, stack)
      && ReachedVia(db, avatar.avatarId, Ids(before), Ids(avatarCache))
    }

    /** Lines 22-23 and 39-40: fill both lists of the avatar on top of the stack, which is then complete. */
    method LoadLists(avatar: ChatAvatar, ghost stack: set<ChatAvatar>)
      requires Loading(stack + {avatar}) && avatar in avatarCache
      requires avatar.friendList == [] && avatar.ignoreList == []
      modifies this`avatarCache, avatar`friendList, avatar`ignoreList
      ensures Loading(stack) && SafeComments(avatar.friendList)
      ensures GrownFrom(old(avatarCache), stack + {avatar})
      ensures ReachedVia(db, avatar.avatarId, Ids(old(avatarCache)), Ids(avatarCache))
      ensures forall a :: a in avatarCache ==> a in old(avatarCache) || fresh(a)
      decreases db.Ids() - Ids(avatarCache), 4
    {
      ghost var before := avatarCache;
      LoadFriendList(avatar, stack + {avatar}, before);
      ghost var mid := avatarCache;
      IdsGrow(before, mid);
      LoadIgnoreList(avatar, stack + {avatar}, before);
      MirrorsAsCacheGrows(mid, avatarCache, db.Ids(), avatar.friendList, RowsOf(db.friends, avatar.avatarId));
    }

    /** avatarCache_.emplace_back: the avatar just made joins the cache with its lists still empty. */
    method PushAvatar(avatar: ChatAvatar, ghost stack: set<ChatAvatar>)
      requires Loading(stack) && Backed(avatar) && !avatar.isOnline
      requires avatar !in stack && avatar !in avatarCache
      modifies this`avatarCache
      ensures avatarCache == old(avatarCache) + [avatar]
      ensures Ids(avatarCache) == Ids(old(avatarCache)) + {avatar.avatarId}
      ensures Loading(stack + {avatar})
    {
      ghost var before := avatarCache;
      avatarCache := avatarCache + [avatar];
      assert avatarCache[..|before|] == before;
      forall a | a in before && a !in stack ensures Complete(a) {
        assert old(Complete(a));
        MirrorsAsCacheGrows(before, avatarCache, db.Ids(), a.friendList, RowsOf(db.friends, a.avatarId));
        MirrorsAsCacheGrows(before, avatarCache, db.Ids(), a.ignoreList, RowsOf(db.ignores, a.avatarId));
      }
    }

    lemma GrownByPush(before: seq<ChatAvatar>, avatar: ChatAvatar, stack: set<ChatAvatar>)
      requires avatar.avatarId !in Ids(before) && NewlyLoaded(avatar, stack)
      requires GrownFrom(before + [avatar], stack + {avatar})
      ensures GrownFrom(before, stack) && avatar in avatarCache && avatar.avatarId in Ids(avatarCache)
    {
      var pushed := before + [avatar];
      assert pushed[..|before|] == before;
      assert Ids(pushed) == Ids(before) + {avatar.avatarId};
      assert avatarCache[|before|] == pushed[|before|] == avatar;
      IdOfCached(avatarCache, avatar);
    }

    /** Whatever a load adds is reached from the avatar asked for, around what was cached before. */
    lemma LoadedIsReached(id: nat, before: seq<ChatAvatar>)
      requires id in db.Ids() && id !in Ids(before)
      requires ReachedVia(db, id, Ids(before) + {id}, Ids(avatarCache))
      ensures forall n :: n in Ids(avatarCache) ==> n in Ids(before) || Reaches(db, id, n, Ids(before))
    {
      forall n | n in Ids(avatarCache) && n !in Ids(before) ensures Reaches(db, id, n, Ids(before)) {
        if n == id {
          ReachesItself(db, id, Ids(before));
        } else {
          assert ReachedViaSome(db, id, Ids(before) + {id}, n);
          var m :| Lists(db, id, m) && Reaches(db, m, n, Ids(before) + {id});
          ReachesThrough(db, id, m, n, Ids(before), Ids(before) + {id});
        }
      }
    }

    /** Everything reached around what was cached before is in the cache once the new avatars are complete. */
    lemma ReachedIsLoaded(id: nat, before: seq<ChatAvatar>, stack: set<ChatAvatar>)
      requires Loading(stack) && GrownFrom(before, stack) && id in Ids(avatarCache)
      ensures forall n :: n in Ids(before) || Reaches(db, id, n, Ids(before)) ==> n in Ids(avatarCache)
    {
      IdsGrow(before, avatarCache);
      forall m, n | m in Ids(avatarCache) && m !in Ids(before) && Lists(db, m, n) && n in db.Ids()
        ensures n in Ids(avatarCache)
      {
        IdsHold(avatarCache, m);
        IdsHold(before, m);
        var i :| 0 <= i < |avatarCache| && avatarCache[i].avatarId == m;
        CompleteIsClosed(avatarCache[i], n);
      }
      forall n | Reaches(db, id, n, Ids(before)) ensures n in Ids(avatarCache) {
        ReachedIsInClosedSet(db, id, n, Ids(before), Ids(avatarCache));
      }
    }

    lemma CompleteIsClosed(a: ChatAvatar, n: nat)
      requires Complete(a) && Lists(db, a.avatarId, n) && n in db.Ids()
      ensures n in Ids(avatarCache)
    {
      if r :| r in RowsOf(db.friends, a.avatarId) && r.target == n {
        MirroredTargetIsCached(avatarCache, db.Ids(), a.friendList, RowsOf(db.friends, a.avatarId), r);
      } else {
        var r :| r in RowsOf(db.ignores, a.avatarId) && r.target == n;
        MirroredTargetIsCached(avatarCache, db.Ids(), a.ignoreList, RowsOf(db.ignores, a.avatarId), r);
      }
    }

    /** One GetAvatar call of a loading loop: `target` is named by a row of `avatar`. */
    method GetListedAvatar(avatar: ChatAvatar, target: nat, ghost stack: set<ChatAvatar>, ghost before: seq<ChatAvatar>)
      returns (listed: ChatAvatar?)
      requires Filling(avatar, stack, before) && Lists(db, avatar.avatarId, target)
      modifies this`avatarCache
      ensures Filling(avatar, stack, before) && old(avatarCache) <= avatarCache
      ensures Denotes(avatarCache, db.Ids(), listed, target)
      ensures forall a :: a in avatarCache ==> a in old(avatarCache) || fresh(a)
      decreases db.Ids() - Ids(avatarCache), 2
    {
      hide NewlyLoaded, Backed, ShowsRows, Reaches, Loading;
      IdsGrow(before, avatarCache);
      listed := GetAvatarById(target, stack);
      ReachedViaAnother(db, avatar.avatarId, target, Ids(before), Ids(old(avatarCache)), Ids(avatarCache));
    }

    /** friendList_.emplace_back: only the lists of avatars on the stack grow during a load. */
    method AppendFriend(avatar: ChatAvatar, contact: Contact, ghost stack: set<ChatAvatar>,
        ghost before: seq<ChatAvatar>)
      requires Filling(avatar, stack, before)
      modifies avatar`friendList
      ensures Filling(avatar, stack, before)
      ensures avatar.friendList == old(avatar.friendList) + [contact]
    {
      avatar.friendList := avatar.friendList + [contact];
    }

    /** ignoreList_.emplace_back. */
    method AppendIgnore(avatar: ChatAvatar, contact: Contact, ghost stack: set<ChatAvatar>,
        ghost before: seq<ChatAvatar>)
      requires Filling(avatar, stack, before)
      modifies avatar`ignoreList
      ensures Filling(avatar, stack, before)
      ensures avatar.ignoreList == old(avatar.ignoreList) + [contact]
    {
      avatar.ignoreList := avatar.ignoreList + [contact];
    }

    /** Lines 360-380. */
    method LoadFriendList(avatar: ChatAvatar, ghost stack: set<ChatAvatar>, ghost before: seq<ChatAvatar>)
      requires Filling(avatar, stack, before) && avatar.friendList == []
      modifies this`avatarCache, avatar`friendList
      ensures Filling(avatar, stack, before) && old(avatarCache) <= avatarCache && SafeComments(avatar.friendList)
      ensures Mirrors(avatarCache, db.Ids(), avatar.friendList, RowsOf(db.friends, avatar.avatarId))
      ensures forall a :: a in avatarCache ==> a in old(avatarCache) || fresh(a)
      decreases db.Ids() - Ids(avatarCache), 3
    {
      var rows := RowsOf(db.friends, avatar.avatarId);
      for i := 0 to |rows|
        invariant Filling(avatar, stack, before) && old(avatarCache) <= avatarCache
        invariant forall a :: a in avatarCache ==> a in old(avatarCache) || fresh(a)
        invariant Mirrors(avatarCache, db.Ids(), avatar.friendList, rows[..i]) && SafeComments(avatar.friendList)
      {
        ghost var mid := avatarCache;
        IdsGrow(old(avatarCache), mid);
        assert rows[i] in rows;
        var friendAvatar := GetListedAvatar(avatar, rows[i].target, stack, before);
        NarrowOfWiden(rows[i].comment);
        var contact := Contact(friendAvatar, ToWideString(rows[i].comment));
        MirrorsNext(mid, avatarCache, db.Ids(), avatar.friendList, rows, i, contact);
        AppendFriend(avatar, contact, stack, before);
      }
    }

    /** Lines 382-401. */
    method LoadIgnoreList(avatar: ChatAvatar, ghost stack: set<ChatAvatar>, ghost before: seq<ChatAvatar>)
      requires Filling(avatar, stack, before) && avatar.ignoreList == []
      modifies this`avatarCache, avatar`ignoreList
      ensures Filling(avatar, stack, before) && old(avatarCache) <= avatarCache
      ensures Mirrors(avatarCache, db.Ids(), avatar.ignoreList, RowsOf(db.ignores, avatar.avatarId))
      ensures forall a :: a in avatarCache ==> a in old(avatarCache) || fresh(a)
      decreases db.Ids() - Ids(avatarCache), 3
    {
      var rows := RowsOf(db.ignores, avatar.avatarId);
      for i := 0 to |rows|
        invariant Filling(avatar, stack, before) && old(avatarCache) <= avatarCache
        invariant forall a :: a in avatarCache ==> a in old(avatarCache) || fresh(a)
        invariant Mirrors(avatarCache, db.Ids(), avatar.ignoreList, rows[..i])
      {
        ghost var mid := avatarCache;
        IdsGrow(old(avatarCache), mid);
        assert rows[i] in rows;
        var ignoreAvatar := GetListedAvatar(avatar, rows[i].target, stack, before);
        var contact := Contact(ignoreAvatar, []);
        MirrorsNext(mid, avatarCache, db.Ids(), avatar.ignoreList, rows, i, contact);
        AppendIgnore(avatar, contact, stack, before);
      }
    }

    // ----- the consistent service -----

    ghost predicate Valid()
      reads this, avatarCache
    {
      && Loading({})
      && db.Keyed()
      && |Ids(avatarCache)| == |avatarCache|
      && OnlineAgrees()
    }

    ghost predicate OnlineAgrees()
      reads this, avatarCache
    {
      OnlineMatches(avatarCache, onlineAvatars)
    }

    /** Foreign keys leave no null in the list of a complete avatar. */
    lemma ListsHaveNoNulls(a: ChatAvatar)
      requires db.Keyed() && Complete(a)
      ensures forall c :: c in a.friendList ==> c.avatar != null && c.avatar in avatarCache
      ensures forall c :: c in a.ignoreList ==> c.avatar != null && c.avatar in avatarCache
    {
      forall c | c in a.friendList ensures c.avatar != null && c.avatar in avatarCache {
        var i :| 0 <= i < |a.friendList| && a.friendList[i] == c;
        assert RowsOf(db.friends, a.avatarId)[i] in RowsOf(db.friends, a.avatarId);
      }
      forall c | c in a.ignoreList ensures c.avatar != null && c.avatar in avatarCache {
        var i :| 0 <= i < |a.ignoreList| && a.ignoreList[i] == c;
        assert RowsOf(db.ignores, a.avatarId)[i] in RowsOf(db.ignores, a.avatarId);
      }
    }

    /** What is left of Valid() while the friend list of `a` and its rows are rewritten together. */
    ghost predicate RefriendingFrom(a: ChatAvatar, before: Tables)
      reads this, avatarCache
    {
      && AllBacked() && |Ids(avatarCache)| == |avatarCache| && OnlineAgrees() && a in avatarCache
      && (forall b :: b in avatarCache && b != a ==> ShowsRows(avatarCache, before, b))
      && Mirrors(avatarCache, before.Ids(), a.ignoreList, RowsOf(before.ignores, a.avatarId))
    }

    lemma RefriendedIsValid(a: ChatAvatar, before: Tables)
      requires RefriendingFrom(a, before)
      requires db == before.(friends := db.friends) && db.Keyed()
      requires forall o :: o != a.avatarId ==> RowsOf(db.friends, o) == RowsOf(before.friends, o)
      requires Mirrors(avatarCache, before.Ids(), a.friendList, RowsOf(db.friends, a.avatarId))
      ensures Valid()
    {
      forall b | b in avatarCache ensures Complete(b) {
        OneAvatarPerId(avatarCache, a, b);
      }
      assert forall r :: r in db.ignores ==> r.comment == [];
    }

    /** The same while the ignore list of `a` and its rows are rewritten. */
    ghost predicate ReignoringFrom(a: ChatAvatar, before: Tables)
      reads this, avatarCache
    {
      && AllBacked() && |Ids(avatarCache)| == |avatarCache| && OnlineAgrees() && a in avatarCache
      && (forall b :: b in avatarCache && b != a ==> ShowsRows(avatarCache, before, b))
      && Mirrors(avatarCache, before.Ids(), a.friendList, RowsOf(before.friends, a.avatarId))
    }

    lemma ReignoredIsValid(a: ChatAvatar, before: Tables)
      requires ReignoringFrom(a, before)
      requires db == before.(ignores := db.ignores) && db.Keyed()
      requires forall o :: o != a.avatarId ==> RowsOf(db.ignores, o) == RowsOf(before.ignores, o)
      requires Mirrors(avatarCache, before.Ids(), a.ignoreList, RowsOf(db.ignores, a.avatarId))
      ensures Valid()
    {
      forall b | b in avatarCache ensures Complete(b) {
        OneAvatarPerId(avatarCache, a, b);
      }
      assert forall r :: r in db.ignores ==> r.comment == [];
    }

    lemma FriendListShrinks(a: ChatAvatar, target: ChatAvatar)
      requires Valid() && a in avatarCache && target in avatarCache
      ensures RefriendingFrom(a, db)
      ensures var rows := DeleteLink(db.friends, a.avatarId, target.avatarId);
              && db.(friends := rows).Keyed()
              && (forall o :: o != a.avatarId ==> RowsOf(rows, o) == RowsOf(db.friends, o))
              && Mirrors(avatarCache, db.Ids(), Without(a.friendList, target.avatarId), RowsOf(rows, a.avatarId))
    {
      BackedIsStored(target);
      MirrorsWithout(avatarCache, db.Ids(), a.friendList, RowsOf(db.friends, a.avatarId), target.avatarId);
      DeletingKeepsKeys(db.friends, db.Ids(), a.avatarId, target.avatarId);
      DeletingChangesOneOwner(db.friends, a.avatarId, target.avatarId);
    }

    lemma FriendListGrows(a: ChatAvatar, target: ChatAvatar, comment: Wide)
      requires Valid() && a in avatarCache && target in avatarCache && !Names(a.friendList, target.avatarId)
      ensures RefriendingFrom(a, db)
      ensures var rows := db.friends + [LinkRow(a.avatarId, target.avatarId, FromWideString(comment))];
              && db.(friends := rows).Keyed()
              && (forall o :: o != a.avatarId ==> RowsOf(rows, o) == RowsOf(db.friends, o))
              && Mirrors(avatarCache, db.Ids(), a.friendList + [Contact(target, comment)], RowsOf(rows, a.avatarId))
    {
      BackedIsStored(a);
      BackedIsStored(target);
      MirrorsNames(avatarCache, db.Ids(), a.friendList, RowsOf(db.friends, a.avatarId), target.avatarId);
      InsertingKeepsKeys(db.friends, db.Ids(), LinkRow(a.avatarId, target.avatarId, FromWideString(comment)));
      InsertingChangesOneOwner(db.friends, LinkRow(a.avatarId, target.avatarId, FromWideString(comment)));
    }

    lemma UnlistedFriendHasNoRow(a: ChatAvatar, target: ChatAvatar)
      requires Valid() && a in avatarCache && target in avatarCache && !Names(a.friendList, target.avatarId)
      ensures DeleteLink(db.friends, a.avatarId, target.avatarId) == db.friends
    {
      BackedIsStored(target);
      MirrorsNames(avatarCache, db.Ids(), a.friendList, RowsOf(db.friends, a.avatarId), target.avatarId);
      DeletingAbsentLink(db.friends, a.avatarId, target.avatarId);
    }

    /** Lines 122-136. */
    method RemoveFriend(srcAvatarId: nat, destAvatarId: nat, ghost a: ChatAvatar, ghost before: Tables)
      requires RefriendingFrom(a, before)
      modifies this`db
      ensures RefriendingFrom(a, before)
      ensures db == old(db).(friends := DeleteLink(old(db.friends), srcAvatarId, destAvatarId))
    {
      db := db.(friends := DeleteLink(db.friends, srcAvatarId, destAvatarId));
    }

    /** Lines 87-105. */
    method PersistFriend(srcAvatarId: nat, destAvatarId: nat, comment: Wide, ghost a: ChatAvatar, ghost before: Tables)
      requires RefriendingFrom(a, before)
      modifies this`db
      ensures RefriendingFrom(a, before)
      ensures db == old(db).(friends := old(db.friends) + [LinkRow(srcAvatarId, destAvatarId, FromWideString(comment))])
    {
      db := db.(friends := db.friends + [LinkRow(srcAvatarId, destAvatarId, FromWideString(comment))]);
    }

    /** Entries are unique per avatar, so revising the first one found revises them all. */
    lemma OnlyEntryRecommented(a: ChatAvatar, target: ChatAvatar, i: nat, comment: Wide)
      requires Valid() && a in avatarCache && target in avatarCache && i <= |a.friendList|
      requires forall j :: 0 <= j < i ==> !PointsAt(a.friendList[j], target.avatarId)
      requires i < |a.friendList| ==> PointsAt(a.friendList[i], target.avatarId)
      ensures i < |a.friendList| ==>
                a.friendList[i := a.friendList[i].(comment := comment)]
                    == Recommented(a.friendList, target.avatarId, comment)
      ensures i == |a.friendList| ==>
                && a.friendList == Recommented(a.friendList, target.avatarId, comment)
                && db.friends == SetComment(db.friends, a.avatarId, target.avatarId, FromWideString(comment))
    {
      BackedIsStored(target);
      var rows := RowsOf(db.friends, a.avatarId);
      RowsOfAreDistinct(db.friends, db.Ids(), a.avatarId);
      forall j | 0 <= j < |rows| ensures PointsAt(a.friendList[j], target.avatarId)
          <==> rows[j].target == target.avatarId {
        assert Denotes(avatarCache, db.Ids(), a.friendList[j].avatar, rows[j].target);
      }
      if i == |a.friendList| {
        forall r | r in db.friends ensures r.owner != a.avatarId || r.target != target.avatarId {
          if r.owner == a.avatarId {
            assert r in rows;
          }
        }
      }
    }

    lemma FriendListRecommented(a: ChatAvatar, target: ChatAvatar, comment: Wide)
      requires Valid() && a in avatarCache && target in avatarCache
      ensures RefriendingFrom(a, db)
      ensures var rows := SetComment(db.friends, a.avatarId, target.avatarId, FromWideString(comment));
              && db.(friends := rows).Keyed()
              && (forall o :: o != a.avatarId ==> RowsOf(rows, o) == RowsOf(db.friends, o))
              && Mirrors(avatarCache, db.Ids(), Recommented(a.friendList, target.avatarId, comment),
                  RowsOf(rows, a.avatarId))
    {
      BackedIsStored(target);
      UpdatingChangesOneOwner(db.friends, a.avatarId, target.avatarId, FromWideString(comment));
      MirrorsRecommented(avatarCache, db.Ids(), a.friendList, RowsOf(db.friends, a.avatarId), a.avatarId,
          target.avatarId, comment);
    }

    /** Lines 154-172. */
    method UpdateFriendComment(srcAvatarId: nat, destAvatarId: nat, comment: Wide, ghost a: ChatAvatar,
        ghost before: Tables)
      requires RefriendingFrom(a, before)
      modifies this`db
      ensures RefriendingFrom(a, before)
      ensures db == old(db).(friends := SetComment(old(db.friends), srcAvatarId, destAvatarId, FromWideString(comment)))
    {
      db := db.(friends := SetComment(db.friends, srcAvatarId, destAvatarId, FromWideString(comment)));
    }

    lemma IgnoreListShrinks(a: ChatAvatar, target: ChatAvatar)
      requires Valid() && a in avatarCache && target in avatarCache
      ensures ReignoringFrom(a, db)
      ensures var rows := DeleteLink(db.ignores, a.avatarId, target.avatarId);
              && db.(ignores := rows).Keyed()
              && (forall o :: o != a.avatarId ==> RowsOf(rows, o) == RowsOf(db.ignores, o))
              && Mirrors(avatarCache, db.Ids(), Without(a.ignoreList, target.avatarId), RowsOf(rows, a.avatarId))
    {
      BackedIsStored(target);
      MirrorsWithout(avatarCache, db.Ids(), a.ignoreList, RowsOf(db.ignores, a.avatarId), target.avatarId);
      DeletingKeepsKeys(db.ignores, db.Ids(), a.avatarId, target.avatarId);
      DeletingChangesOneOwner(db.ignores, a.avatarId, target.avatarId);
    }

    lemma IgnoreListGrows(a: ChatAvatar, target: ChatAvatar)
      requires Valid() && a in avatarCache && target in avatarCache && !Names(a.ignoreList, target.avatarId)
      ensures ReignoringFrom(a, db)
      ensures var rows := db.ignores + [LinkRow(a.avatarId, target.avatarId, [])];
              && db.(ignores := rows).Keyed()
              && (forall o :: o != a.avatarId ==> RowsOf(rows, o) == RowsOf(db.ignores, o))
              && Mirrors(avatarCache, db.Ids(), a.ignoreList + [Contact(target, [])], RowsOf(rows, a.avatarId))
    {
      BackedIsStored(a);
      BackedIsStored(target);
      MirrorsNames(avatarCache, db.Ids(), a.ignoreList, RowsOf(db.ignores, a.avatarId), target.avatarId);
      InsertingKeepsKeys(db.ignores, db.Ids(), LinkRow(a.avatarId, target.avatarId, []));
      InsertingChangesOneOwner(db.ignores, LinkRow(a.avatarId, target.avatarId, []));
    }

    lemma UnlistedIgnoreHasNoRow(a: ChatAvatar, target: ChatAvatar)
      requires Valid() && a in avatarCache && target in avatarCache && !Names(a.ignoreList, target.avatarId)
      ensures DeleteLink(db.ignores, a.avatarId, target.avatarId) == db.ignores
    {
      BackedIsStored(target);
      MirrorsNames(avatarCache, db.Ids(), a.ignoreList, RowsOf(db.ignores, a.avatarId), target.avatarId);
      DeletingAbsentLink(db.ignores, a.avatarId, target.avatarId);
    }

    /** Lines 138-152. */
    method RemoveIgnore(srcAvatarId: nat, destAvatarId: nat, ghost a: ChatAvatar, ghost before: Tables)
      requires ReignoringFrom(a, before)
      modifies this`db
      ensures ReignoringFrom(a, before)
      ensures db == old(db).(ignores := DeleteLink(old(db.ignores), srcAvatarId, destAvatarId))
    {
      db := db.(ignores := DeleteLink(db.ignores, srcAvatarId, destAvatarId));
    }

    /** Lines 107-120. */
    method PersistIgnore(srcAvatarId: nat, destAvatarId: nat, ghost a: ChatAvatar, ghost before: Tables)
      requires ReignoringFrom(a, before)
      modifies this`db
      ensures ReignoringFrom(a, before)
      ensures db == old(db).(ignores := old(db.ignores) + [LinkRow(srcAvatarId, destAvatarId, [])])
    {
      db := db.(ignores := db.ignores + [LinkRow(srcAvatarId, destAvatarId, [])]);
    }

    constructor (tables: Tables)
      requires tables.Keyed()
      ensures Valid() && avatarCache == [] && db == tables
    {
      avatarCache, onlineAvatars, db := [], [], tables;
      new;
      assert forall r :: r in db.ignores ==> r.comment == [];
    }

    /** The avatar has every field of its row, and its friend comments are those of its rows, sign-extended. */
    ghost predicate AsStored(a: ChatAvatar)
      reads this, a
    {
      var rows := RowsOf(db.friends, a.avatarId);
      && LoadedFromSome(db.avatars, a) && |a.friendList| == |rows|
      && forall i :: 0 <= i < |rows| ==> a.friendList[i].comment == ToWideString(rows[i].comment)
    }

    lemma LoadedIsAsStored(before: seq<ChatAvatar>)
      requires Loading({}) && GrownFrom(before, {})
      ensures forall i :: |before| <= i < |avatarCache| ==> AsStored(avatarCache[i])
    {
      forall i | |before| <= i < |avatarCache| ensures AsStored(avatarCache[i]) {
        var a := avatarCache[i];
        assert a in avatarCache && NewlyLoaded(a, {}) && Complete(a);
        forall j | 0 <= j < |a.friendList|
          ensures a.friendList[j].comment == ToWideString(RowsOf(db.friends, a.avatarId)[j].comment)
        {
          WidenOfNarrow(a.friendList[j].comment);
        }
      }
    }

    // ----- lookups -----

    lemma ValidCacheIsClosed(id: nat, before: seq<ChatAvatar>)
      requires Loading({}) && before <= avatarCache
      requires forall m, n :: m in Ids(before) && Lists(db, m, n) && n in db.Ids() ==> n in Ids(before)
      requires forall n :: n in Ids(avatarCache) <==> n in Ids(before) || Reaches(db, id, n, Ids(before))
      ensures forall n :: n in Ids(avatarCache) <==> n in Ids(before) || Reaches(db, id, n, {})
    {
      forall n ensures n in Ids(avatarCache) <==> n in Ids(before) || Reaches(db, id, n, {}) {
        if Reaches(db, id, n, Ids(before)) {
          ReachesMore(db, id, n, {}, Ids(before));
        }
        if Reaches(db, id, n, {}) {
          ReachAroundClosedSet(db, id, n, Ids(before));
        }
      }
    }

    lemma ListedByCachedIsCached()
      requires Loading({})
      ensures forall m, n :: m in Ids(avatarCache) && Lists(db, m, n) && n in db.Ids() ==> n in Ids(avatarCache)
    {
      forall m, n | m in Ids(avatarCache) && Lists(db, m, n) && n in db.Ids() ensures n in Ids(avatarCache) {
        IdsHold(avatarCache, m);
        var i :| 0 <= i < |avatarCache| && avatarCache[i].avatarId == m;
        CompleteIsClosed(avatarCache[i], n);
      }
    }

    /** GetAvatar(id) as callers outside the loaders see it: the cache gains exactly what is reachable. */
    method GetAvatar(id: nat) returns (avatar: ChatAvatar?)
      requires Valid()
      modifies this`avatarCache
      ensures Valid() && GrownFrom(old(avatarCache), {})
      ensures Denotes(avatarCache, db.Ids(), avatar, id)
      ensures forall n :: n in Ids(avatarCache) <==> n in Ids(old(avatarCache)) || Reaches(db, id, n, {})
      ensures forall i :: |old(avatarCache)| <= i < |avatarCache| ==> AsStored(avatarCache[i])
      ensures forall a :: a in avatarCache ==> a in old(avatarCache) || fresh(a)
    {
      ghost var before := avatarCache;
      ListedByCachedIsCached();
      avatar := GetAvatarById(id, {});
      LoadedIsAsStored(before);
      ValidCacheIsClosed(id, before);
      OnlineAgreesOnceGrown(before);
    }

    ghost predicate CachedAs(name: Wide, address: Wide)
      reads this
    {
      exists i :: 0 <= i < |avatarCache| && avatarCache[i].name == name && avatarCache[i].address == address
    }

    /** The text asked for is not that of any cached avatar, yet narrows to the row of one of them. */
    ghost predicate Aliased(name: Wide, address: Wide)
      reads this
    {
      && !CachedAs(name, address)
      && exists r :: r in db.avatars && StoredAs(r, name, address) && r.id in Ids(avatarCache)
    }

    /** Lines 174-189. */
    method GetCachedAvatarByName(name: Wide, address: Wide) returns (avatar: ChatAvatar?)
      ensures avatar == null <==> !CachedAs(name, address)
      ensures avatar != null ==> avatar in avatarCache && avatar.name == name && avatar.address == address
    {
      for i := 0 to |avatarCache|
        invariant forall j :: 0 <= j < i ==> avatarCache[j].name != name || avatarCache[j].address != address
      {
        if avatarCache[i].name == name && avatarCache[i].address == address {
          return avatarCache[i];
        }
      }
      return null;
    }

    /** Lines 226-261. */
    method LoadStoredAvatarByName(name: Wide, address: Wide) returns (avatar: ChatAvatar?)
      ensures avatar == null ==> forall r :: r in db.avatars ==> !StoredAs(r, name, address)
      ensures avatar != null ==> fresh(avatar) && Backed(avatar) && NewlyLoaded(avatar, {})
      ensures avatar != null ==> avatar.friendList == [] && avatar.ignoreList == []
      ensures avatar != null ==> exists r :: r in db.avatars && StoredAs(r, name, address) && RowOf(r, avatar)
    {
      for i := 0 to |db.avatars|
        invariant forall j :: 0 <= j < i ==> !StoredAs(db.avatars[j], name, address)
      {
        var r := db.avatars[i];
        if r.name == FromWideString(name) && r.address == FromWideString(address) {
          NarrowOfWiden(r.name);
          NarrowOfWiden(r.address);
          avatar := new ChatAvatar(this, r.id, r.userId, ToWideString(r.name), ToWideString(r.address), r.attributes,
              []);
          assert RowOf(r, avatar) && LoadedFrom(r, avatar);
          return;
        }
      }
      return null;
    }

    /** Lines 13-28. */
    method GetAvatarByName(name: Wide, address: Wide) returns (avatar: ChatAvatar?)
      requires Valid()
      modifies this`avatarCache
      ensures avatar == null
         <==> !old(CachedAs(name, address)) && forall r :: r in db.avatars ==> !StoredAs(r, name, address)
      ensures avatar == null ==> avatarCache == old(avatarCache)
      ensures avatar != null ==> avatar in avatarCache && SameStoredText(avatar, name, address)
      ensures old(CachedAs(name, address)) ==>
                avatarCache == old(avatarCache) && avatar != null && avatar.name == name && avatar.address == address
      ensures old(avatarCache) <= avatarCache
      ensures Valid() <==> !old(Aliased(name, address))
      ensures old(Aliased(name, address)) ==> |Ids(avatarCache)| < |avatarCache|
      ensures Valid() ==> GrownFrom(old(avatarCache), {})
      ensures Valid() && avatar != null ==>
                forall n :: n in Ids(avatarCache) <==> n in Ids(old(avatarCache)) || Reaches(db, avatar.avatarId, n, {})
      ensures avatar != null && !old(CachedAs(name, address)) ==> LoadedFromSome(db.avatars, avatar)
      ensures Valid() ==> forall i :: |old(avatarCache)| <= i < |avatarCache| ==> AsStored(avatarCache[i])
      ensures forall a :: a in avatarCache ==> a in old(avatarCache) || fresh(a)
    {
      hide AsStored, LoadedFromSome, SafeComments, Reaches;
      avatar := GetCachedAvatarByName(name, address);
      if avatar == null {
        avatar := LoadStoredAvatarByName(name, address);
        if avatar != null {
          AliasedIfIdCached(avatar, name, address);
          AdoptAvatar(avatar);
        }
      } else {
        IdOfCached(avatarCache, avatar);
        CachedReachesCached(avatar.avatarId);
      }
    }

    /** Lines 19-23: cache the avatar just made from its row, then fill its lists. */
    method AdoptAvatar(avatar: ChatAvatar)
      requires Valid() && Backed(avatar) && NewlyLoaded(avatar, {}) && avatar !in avatarCache
      requires avatar.friendList == [] && avatar.ignoreList == []
      modifies this`avatarCache, avatar`friendList, avatar`ignoreList
      ensures old(avatarCache) <= avatarCache && avatar in avatarCache
      ensures Valid() <==> avatar.avatarId !in Ids(old(avatarCache))
      ensures avatar.avatarId in Ids(old(avatarCache)) ==> |Ids(avatarCache)| < |avatarCache|
      ensures Valid() ==> GrownFrom(old(avatarCache), {})
      ensures Valid() ==>
                forall n :: n in Ids(avatarCache) <==> n in Ids(old(avatarCache)) || Reaches(db, avatar.avatarId, n, {})
      ensures Valid() ==> forall i :: |old(avatarCache)| <= i < |avatarCache| ==> AsStored(avatarCache[i])
      ensures forall a :: a in avatarCache ==> a in old(avatarCache) || a == avatar || fresh(a)
    {
      hide AsStored, LoadedFromSome, SafeComments, Reaches;
      ghost var before := avatarCache;
      ListedByCachedIsCached();
      BackedIsStored(avatar);
      PushAvatar(avatar, {});
      LoadLists(avatar, {});
      AdoptedOnce(avatar, before);
      if avatar.avatarId !in Ids(before) {
        LoadedIsAsStored(before);
      }
    }

    lemma AliasedIfIdCached(avatar: ChatAvatar, name: Wide, address: Wide)
      requires db.Keyed() && !CachedAs(name, address)
      requires exists r :: r in db.avatars && StoredAs(r, name, address) && RowOf(r, avatar)
      ensures Aliased(name, address) <==> avatar.avatarId in Ids(avatarCache)
      ensures SameStoredText(avatar, name, address) && avatar.avatarId in db.Ids()
    {
      var r :| r in db.avatars && StoredAs(r, name, address) && RowOf(r, avatar);
      StoredIdsHold(db.avatars, avatar.avatarId);
      forall q | q in db.avatars && StoredAs(q, name, address) ensures q == r {
        OneRowPerKey(db, q, r);
      }
    }

    lemma CachedReachesCached(id: nat)
      requires Loading({}) && id in Ids(avatarCache)
      ensures forall n :: Reaches(db, id, n, {}) ==> n in Ids(avatarCache)
    {
      ListedByCachedIsCached();
      forall n | Reaches(db, id, n, {}) ensures n in Ids(avatarCache) {
        ReachedIsInClosedSet(db, id, n, {}, Ids(avatarCache));
      }
    }

    lemma OnlineAgreesOnceGrown(before: seq<ChatAvatar>)
      requires OnlineMatches(before, onlineAvatars) && GrownFrom(before, {})
      ensures OnlineAgrees()
    {
      forall a | a in avatarCache ensures a.isOnline <==> a in onlineAvatars {
        if a !in before {
          var i :| 0 <= i < |avatarCache| && avatarCache[i] == a;
          assert NewlyLoaded(avatarCache[i], {});
        }
      }
    }

    /** Adopting an avatar keeps the cache consistent unless its id was cached already: then there are
        two objects for one id, and lookups by id never find the second. */
    lemma AdoptedOnce(avatar: ChatAvatar, before: seq<ChatAvatar>)
      requires Loading({}) && db.Keyed() && |Ids(before)| == |before| && OnlineMatches(before, onlineAvatars)
      requires avatar.avatarId in db.Ids() && NewlyLoaded(avatar, {})
      requires GrownFrom(before + [avatar], {avatar})
      requires ReachedVia(db, avatar.avatarId, Ids(before + [avatar]), Ids(avatarCache))
      requires Ids(before + [avatar]) == Ids(before) + {avatar.avatarId}
      requires forall m, n :: m in Ids(before) && Lists(db, m, n) && n in db.Ids() ==> n in Ids(before)
      ensures before <= avatarCache && avatar in avatarCache
      ensures Valid() <==> avatar.avatarId !in Ids(before)
      ensures avatar.avatarId in Ids(before) ==> |Ids(avatarCache)| < |avatarCache|
      ensures Valid() ==> GrownFrom(before, {})
      ensures Valid() ==> forall n :: n in Ids(avatarCache) <==> n in Ids(before) || Reaches(db, avatar.avatarId, n, {})
    {
      if avatar.avatarId !in Ids(before) {
        LoadedExactly(avatar, before, {});
        ValidCacheIsClosed(avatar.avatarId, before);
        OnlineAgreesOnceGrown(before);
      } else {
        assert avatarCache[|before|] == (before + [avatar])[|before|];
        assert |Ids(avatarCache)| < |avatarCache|;
      }
    }

    // ----- names and ids agree -----

    /** Every cached avatar carries text that the database keeps. */
    ghost predicate SafeTexts()
      reads this
    {
      forall i :: 0 <= i < |avatarCache| ==> SafeText(avatarCache[i])
    }

    /** With narrow-safe text everywhere, a name that is stored and cached is found under that name. */
    lemma SafeTextIsNeverAliased(name: Wide, address: Wide)
      requires Valid() && SafeTexts() && NarrowSafe(name) && NarrowSafe(address)
      ensures !Aliased(name, address)
    {
      if r :| r in db.avatars && StoredAs(r, name, address) && r.id in Ids(avatarCache) {
        IdsHold(avatarCache, r.id);
        var i :| 0 <= i < |avatarCache| && avatarCache[i].avatarId == r.id;
        var a := avatarCache[i];
        assert a in avatarCache;
        var q :| q in db.avatars && RowOf(q, a);
        OneRowPerKey(db, q, r);
        WidenOfNarrow(name);
        WidenOfNarrow(address);
        WidenOfNarrow(a.name);
        WidenOfNarrow(a.address);
        assert CachedAs(name, address);
      }
    }

    /** In a consistent cache an id and a (name, address) each pick out one avatar. */
    lemma LookupsAgree(a: ChatAvatar, b: ChatAvatar)
      requires Valid() && a in avatarCache && b in avatarCache
      ensures a.avatarId == b.avatarId ==> a == b
      ensures a.name == b.name && a.address == b.address ==> a == b
    {
      OneAvatarPerId(avatarCache, a, b);
      var q :| q in db.avatars && RowOf(q, a);
      var r :| r in db.avatars && RowOf(r, b);
      OneRowPerKey(db, q, r);
    }

    // ----- creation, login, destruction -----

    /** Lines 47-58 and 293-317. A stored (name, address) makes the INSERT throw: null, nothing changed. */
    method CreateAvatar(name: Wide, address: Wide, userId: nat, loginAttributes: nat, loginLocation: Wide)
        returns (avatar: ChatAvatar?)
      requires Valid()
      modifies this`avatarCache, this`db
      ensures Valid()
      ensures avatar == null <==> exists r :: r in old(db.avatars) && StoredAs(r, name, address)
      ensures avatar != null ==> fresh(avatar) && avatar.avatarId == old(db.lastId) + 1
      ensures avatar == null ==> avatarCache == old(avatarCache) && db == old(db)
      ensures avatar != null ==>
                && avatarCache == old(avatarCache) + [avatar]
                && avatar.name == name && avatar.address == address && avatar.userId == userId
                && avatar.attributes == loginAttributes && avatar.loginLocation == loginLocation
                && avatar.friendList == [] && avatar.ignoreList == [] && !avatar.isOnline
                && db == old(db).(
                     avatars := old(db.avatars) + [AvatarRow(avatar.avatarId, userId, FromWideString(name),
                         FromWideString(address), loginAttributes)],
                     lastId := avatar.avatarId)
                && avatar.avatarId !in old(db.Ids())
    {
      var taken := IsStored(name, address);
      if taken {
        return null;
      }
      var id := db.lastId + 1;
      avatar := new ChatAvatar(this, id, userId, name, address, loginAttributes, loginLocation);
      InsertAvatar(avatar);
    }

    method IsStored(name: Wide, address: Wide) returns (taken: bool)
      ensures taken <==> exists r :: r in db.avatars && StoredAs(r, name, address)
    {
      for i := 0 to |db.avatars|
        invariant forall j :: 0 <= j < i ==> !StoredAs(db.avatars[j], name, address)
      {
        if StoredAs(db.avatars[i], name, address) {
          return true;
        }
      }
      return false;
    }

    /** The INSERT, and the push into the cache that follows it. */
    method InsertAvatar(avatar: ChatAvatar)
      requires Valid() && Insertable(avatar)
      requires avatar.friendList == [] && avatar.ignoreList == [] && !avatar.isOnline
      modifies this`avatarCache, this`db
      ensures Valid() && avatarCache == old(avatarCache) + [avatar] && avatar.avatarId !in old(db.Ids())
      ensures db == old(db).(avatars := old(db.avatars) + [NewRow(avatar)], lastId := avatar.avatarId)
    {
      hide ShowsRows, RowOf, Ids, NewRow;
      ghost var cache, before := avatarCache, db;
      NewAvatarFits(avatar);
      db := db.(avatars := db.avatars + [NewRow(avatar)], lastId := avatar.avatarId);
      avatarCache := avatarCache + [avatar];
      InsertedIsValid(avatar, cache, before);
    }

    lemma InsertedIsValid(avatar: ChatAvatar, cache: seq<ChatAvatar>, before: Tables)
      requires db == before.(avatars := before.avatars + [NewRow(avatar)], lastId := avatar.avatarId) && db.Keyed()
      requires avatarCache == cache + [avatar] && |Ids(avatarCache)| == |avatarCache| && avatar !in cache
      requires avatar.avatarService == this && avatar.friendList == [] && avatar.ignoreList == [] && !avatar.isOnline
      requires RowsOf(before.friends, avatar.avatarId) == [] && RowsOf(before.ignores, avatar.avatarId) == []
      requires forall a :: a in cache ==> a.avatarService == this && exists r :: r in before.avatars && RowOf(r, a)
      requires forall a :: a in cache ==> ShowsRows(avatarCache, db, a)
      requires OnlineMatches(cache, onlineAvatars)
      ensures Valid()
    {
      assert RowOf(NewRow(avatar), avatar) && NewRow(avatar) in db.avatars;
      hide RowOf, Ids, NewRow;
      assert forall r :: r in before.avatars ==> r in db.avatars;
      assert ShowsRows(avatarCache, db, avatar);
      hide ShowsRows;
      assert forall r :: r in db.ignores ==> r.comment == [];
    }

    function NewRow(avatar: ChatAvatar): AvatarRow
      reads avatar
    {
      AvatarRow(avatar.avatarId, avatar.userId, FromWideString(avatar.name), FromWideString(avatar.address),
          avatar.attributes)
    }

    ghost predicate Insertable(avatar: ChatAvatar)
      reads this
    {
      && avatar.avatarService == this && avatar.avatarId == db.lastId + 1 && avatar !in avatarCache
      && forall r :: r in db.avatars ==> !StoredAs(r, avatar.name, avatar.address)
    }

    lemma NewAvatarFits(avatar: ChatAvatar)
      requires Valid() && Insertable(avatar)
      ensures var after := db.(avatars := db.avatars + [NewRow(avatar)], lastId := avatar.avatarId);
              && after.Keyed() && avatar.avatarId !in db.Ids()
              && RowsOf(db.friends, avatar.avatarId) == [] && RowsOf(db.ignores, avatar.avatarId) == []
              && forall a :: a in avatarCache ==> ShowsRows(avatarCache + [avatar], after, a)
      ensures |Ids(avatarCache + [avatar])| == |avatarCache| + 1
    {
      InsertingAvatarKeepsKeys(db, NewRow(avatar));
      forall a | a in avatarCache
        ensures ShowsRows(avatarCache + [avatar], db.(avatars := db.avatars + [NewRow(avatar)], lastId :=
            avatar.avatarId), a)
      {
        MirrorsWithNewAvatar(avatarCache, avatar, db.Ids(), a.friendList, RowsOf(db.friends, a.avatarId));
        MirrorsWithNewAvatar(avatarCache, avatar, db.Ids(), a.ignoreList, RowsOf(db.ignores, a.avatarId));
      }
      IdsHold(avatarCache, avatar.avatarId);
      forall i | 0 <= i < |avatarCache| ensures avatarCache[i].avatarId != avatar.avatarId {
        BackedIsStored(avatarCache[i]);
      }
      assert (avatarCache + [avatar])[..|avatarCache|] == avatarCache;
    }

    /** Lines 403-411. */
    method IsOnline(avatar: ChatAvatar) returns (online: bool)
      ensures online <==> exists i :: 0 <= i < |onlineAvatars| && onlineAvatars[i].avatarId == avatar.avatarId
    {
      for i := 0 to |onlineAvatars|
        invariant forall j :: 0 <= j < i ==> onlineAvatars[j].avatarId != avatar.avatarId
      {
        if onlineAvatars[i].avatarId == avatar.avatarId {
          return true;
        }
      }
      return false;
    }

    /** Lines 66-72. */
    method LoginAvatar(avatar: ChatAvatar)
      requires Valid() && avatar in avatarCache
      modifies this`onlineAvatars, avatar`isOnline
      ensures Valid() && avatar.isOnline
      ensures onlineAvatars == if old(avatar.isOnline) then old(onlineAvatars) else old(onlineAvatars) + [avatar]
    {
      hide ShowsRows, RowOf;
      ghost var online := onlineAvatars;
      forall i | 0 <= i < |online| ensures online[i].avatarId == avatar.avatarId <==> online[i] == avatar {
        OneAvatarPerId(avatarCache, online[i], avatar);
      }
      avatar.isOnline := true;
      var listed := IsOnline(avatar);
      if !listed {
        onlineAvatars := onlineAvatars + [avatar];
      }
    }

    /** Lines 74-83. */
    method LogoutAvatar(avatar: ChatAvatar)
      requires OnlineAgrees() && |Ids(avatarCache)| == |avatarCache| && avatar in avatarCache
      modifies this`onlineAvatars, avatar`isOnline
      ensures OnlineAgrees() && !avatar.isOnline
      ensures onlineAvatars == Dropped(old(onlineAvatars), avatar.avatarId)
      ensures old(Valid()) ==> Valid()
    {
      hide ShowsRows, RowOf, Dropped;
      forall a | a in avatarCache ensures a.avatarId == avatar.avatarId <==> a == avatar {
        OneAvatarPerId(avatarCache, a, avatar);
      }
      DroppedHolds(onlineAvatars, avatar.avatarId);
      DroppedKeepsDistinct(onlineAvatars, avatar.avatarId);
      if !avatar.isOnline {
        return;
      }
      avatar.isOnline := false;
      onlineAvatars := DropFrom(onlineAvatars, avatar.avatarId);
    }

    /** Lines 205-212. */
    method RemoveCachedAvatar(avatarId: nat)
      modifies this`avatarCache
      ensures avatarCache == Dropped(old(avatarCache), avatarId)
    {
      avatarCache := DropFrom(avatarCache, avatarId);
    }

    /** Lines 60-64, the DELETE cascading over both link tables. The database may refuse it, which throws
        before anything has changed. Nobody else's list in memory is touched, so the cache stays
        consistent exactly when no cached avatar lists the one destroyed. */
    method DestroyAvatar(avatar: ChatAvatar, allowed: bool) returns (destroyed: bool)
      requires Valid() && avatar in avatarCache
      modifies this`avatarCache, this`onlineAvatars, this`db, avatar`isOnline
      ensures destroyed == allowed
      ensures !allowed ==> Valid() && db == old(db) && avatarCache == old(avatarCache)
      ensures !allowed ==> onlineAvatars == old(onlineAvatars) && avatar.isOnline == old(avatar.isOnline)
      ensures allowed ==> db == Deleted(old(db), avatar.avatarId) && db.Keyed() && avatar.avatarId !in db.Ids()
      ensures allowed ==> avatarCache == Dropped(old(avatarCache), avatar.avatarId) && avatar !in avatarCache
      ensures allowed ==> onlineAvatars == Dropped(old(onlineAvatars), avatar.avatarId) && !avatar.isOnline
      ensures allowed ==> (Valid() <==> forall a :: a in avatarCache ==> !ListsId(a, avatar.avatarId))
    {
      if allowed {
        DeleteAndForget(avatar);
      }
      return allowed;
    }

    method DeleteAndForget(avatar: ChatAvatar)
      requires Valid() && avatar in avatarCache
      modifies this`avatarCache, this`onlineAvatars, this`db, avatar`isOnline
      ensures db == Deleted(old(db), avatar.avatarId) && db.Keyed() && avatar.avatarId !in db.Ids()
      ensures avatarCache == Dropped(old(avatarCache), avatar.avatarId) && avatar !in avatarCache
      ensures onlineAvatars == Dropped(old(onlineAvatars), avatar.avatarId) && !avatar.isOnline
      ensures Valid() <==> forall a :: a in avatarCache ==> !ListsId(a, avatar.avatarId)
    {
      ghost var cache, before := avatarCache, db;
      BackedIsStored(avatar);
      DeletedIsKeyed(db, avatar.avatarId);
      DroppedHolds(cache, avatar.avatarId);
      db := Deleted(db, avatar.avatarId);
      ForgetAvatar(avatar);
      ConsistentIfUnlisted(avatar.avatarId, cache, before);
    }

    /** Lines 62-63. */
    method ForgetAvatar(avatar: ChatAvatar)
      requires OnlineAgrees() && |Ids(avatarCache)| == |avatarCache| && avatar in avatarCache
      modifies this`avatarCache, this`onlineAvatars, avatar`isOnline
      ensures avatarCache == Dropped(old(avatarCache), avatar.avatarId) && avatar !in avatarCache
      ensures onlineAvatars == Dropped(old(onlineAvatars), avatar.avatarId) && !avatar.isOnline
      ensures OnlineAgrees() && |Ids(avatarCache)| == |avatarCache|
    {
      ghost var cache := avatarCache;
      forall a | a in cache ensures a.avatarId == avatar.avatarId <==> a == avatar {
        OneAvatarPerId(cache, a, avatar);
      }
      DroppedHolds(cache, avatar.avatarId);
      DroppedIds(cache, avatar.avatarId);
      LogoutAvatar(avatar);
      RemoveCachedAvatar(avatar.avatarId);
    }

    lemma ConsistentIfUnlisted(id: nat, cache: seq<ChatAvatar>, before: Tables)
      requires before.Keyed() && id in before.Ids() && db == Deleted(before, id) && db.Keyed()
      requires avatarCache == Dropped(cache, id) && |Ids(avatarCache)| == |avatarCache| && OnlineAgrees()
      requires forall a :: a in cache ==> a.avatarService == this && exists r :: r in before.avatars && RowOf(r, a)
      requires forall a :: a in avatarCache ==> a.avatarId != id && a in cache && ShowsRows(cache, before, a)
      ensures Valid() <==> forall a :: a in avatarCache ==> !ListsId(a, id)
    {
      forall a | a in avatarCache ensures Complete(a) <==> !ListsId(a, id) {
        ShowsRowsIfUnlisted(cache, before, a, id);
      }
      forall a | a in avatarCache ensures Backed(a) {
        var r :| r in before.avatars && RowOf(r, a);
        assert r in db.avatars;
      }
      assert forall r :: r in db.ignores ==> r.comment == [];
    }

    // ----- requests -----

    /** The tables and who is online, as runs of requests see them. */
    ghost function Recorded(): Books
      reads this
    {
      Books(db, Ids(onlineAvatars))
    }

    /** Carry out one request the way the message handlers do: resolve the avatars, then act. False where the
        handler throws. */
    method Handle(request: Request) returns (done: bool)
      requires Valid() && (request.Find? ==> SafeTexts() && SafeRequest(request))
      modifies this, avatarCache
      ensures Valid() && Recorded() == CarriedOut(old(Recorded()), request, done)
      ensures Answers(old(Recorded()), request, done)
      ensures old(SafeTexts()) && SafeRequest(request) ==> SafeTexts()
      ensures !request.Destroy? ==> old(avatarCache) <= avatarCache
      ensures forall a :: a in old(avatarCache) ==> a in avatarCache || request.Destroys(a.avatarId)
      ensures forall a :: a in avatarCache ==> a in old(avatarCache) || fresh(a)
    {
      match request
      case Find(name, address) => done := HandleFind(name, address);
      case Create(name, address, userId, attributes, location) =>
        done := HandleCreate(name, address, userId, attributes, location);
      case Act(owner, target, action) => done := HandleAct(owner, target, action);
      case LogIn(id) => done := HandleLogIn(id);
      case LogOut(id) => done := HandleLogOut(id);
      case Destroy(id, allowed) => done := HandleDestroy(id, allowed);
    }

    /** Destroys the avatar unless another cached avatar lists it. */
    method HandleDestroy(id: nat, allowed: bool) returns (done: bool)
      requires Valid()
      modifies this, avatarCache
      ensures Valid() && (old(SafeTexts()) ==> SafeTexts())
      ensures Recorded() == CarriedOut(old(Recorded()), Destroy(id, allowed), done)
      ensures Answers(old(Recorded()), Destroy(id, allowed), done)
      ensures forall a :: a in old(avatarCache) ==> a in avatarCache || a.avatarId == id
      ensures forall a :: a in avatarCache ==> a in old(avatarCache) || fresh(a)
    {
      hide AsStored, Loading, OnlineMatches, SafeText, GrownFrom, Linked, Deleted, Reaches;
      var avatar := GetStored(id);
      if avatar == null {
        return false;
      }
      var listed := IsListed(avatar);
      if listed {
        return false;
      }
      done := DestroyUnlisted(avatar, allowed);
    }

    /** GetAvatar, by what it leaves alone. */
    method GetStored(id: nat) returns (avatar: ChatAvatar?)
      requires Valid()
      modifies this`avatarCache
      ensures Valid() && old(avatarCache) <= avatarCache
      ensures old(SafeTexts()) ==> SafeTexts()
      ensures forall c :: c in avatarCache ==> c in old(avatarCache) || fresh(c)
      ensures avatar == null <==> id !in db.Ids()
      ensures avatar != null ==> avatar in avatarCache && avatar.avatarService == this && avatar.avatarId == id
    {
      avatar := GetAvatar(id);
      SafeTextsIfGrown(old(avatarCache));
      assert avatar != null ==> Backed(avatar);
    }

    /** Some other cached avatar lists this one, and so has a row for it. */
    method IsListed(avatar: ChatAvatar) returns (listed: bool)
      requires Valid() && avatar in avatarCache
      ensures listed <==> exists i :: 0 <= i < |avatarCache| && avatarCache[i].avatarId != avatar.avatarId
                                      && ListsId(avatarCache[i], avatar.avatarId)
      ensures listed ==> NamedByAnother(db, avatar.avatarId)
    {
      for i := 0 to |avatarCache|
        invariant forall j :: 0 <= j < i && avatarCache[j].avatarId != avatar.avatarId ==>
                                !ListsId(avatarCache[j], avatar.avatarId)
      {
        ListsHaveNoNulls(avatarCache[i]);
        var isFriend := avatarCache[i].IsFriend(avatar);
        var isIgnored := avatarCache[i].IsIgnored(avatar);
        if avatarCache[i].avatarId != avatar.avatarId && (isFriend || isIgnored) {
          ListedHasRow(avatarCache[i], avatar);
          return true;
        }
      }
      return false;
    }

    lemma ListedHasRow(a: ChatAvatar, target: ChatAvatar)
      requires Valid() && a in avatarCache && target in avatarCache
      ensures Names(a.friendList, target.avatarId) <==> Linked(db.friends, a.avatarId, target.avatarId)
      ensures Names(a.ignoreList, target.avatarId) <==> Linked(db.ignores, a.avatarId, target.avatarId)
      ensures ListsId(a, target.avatarId) && a.avatarId != target.avatarId ==> NamedByAnother(db, target.avatarId)
    {
      BackedIsStored(target);
      MirrorsNames(avatarCache, db.Ids(), a.friendList, RowsOf(db.friends, a.avatarId), target.avatarId);
      MirrorsNames(avatarCache, db.Ids(), a.ignoreList, RowsOf(db.ignores, a.avatarId), target.avatarId);
    }

    method DestroyUnlisted(avatar: ChatAvatar, allowed: bool) returns (done: bool)
      requires Valid() && avatar in avatarCache
      requires forall i :: 0 <= i < |avatarCache| && avatarCache[i].avatarId != avatar.avatarId ==>
                 !ListsId(avatarCache[i], avatar.avatarId)
      modifies this`avatarCache, this`onlineAvatars, this`db, avatar`isOnline
      ensures Valid() && (old(SafeTexts()) ==> SafeTexts()) && done == allowed
      ensures Recorded() == CarriedOut(old(Recorded()), Destroy(avatar.avatarId, allowed), done)
      ensures forall a :: a in old(avatarCache) ==> a in avatarCache || a.avatarId == avatar.avatarId
      ensures forall a :: a in avatarCache ==> a in old(avatarCache)
    {
      hide Valid, SafeText, Deleted, Ids, ListsId;
      ghost var before := avatarCache;
      DroppedHolds(before, avatar.avatarId);
      DroppedOnlineIds(onlineAvatars, avatar.avatarId);
      done := DestroyAvatar(avatar, allowed);
      SafeTextsIfFewer(before);
      if allowed {
        forall a | a in avatarCache ensures !ListsId(a, avatar.avatarId) {
          var i :| 0 <= i < |before| && before[i] == a;
        }
      }
    }

    lemma SafeTextsIfFewer(before: seq<ChatAvatar>)
      requires forall i :: 0 <= i < |avatarCache| ==> avatarCache[i] in before
      ensures (forall i :: 0 <= i < |before| ==> SafeText(before[i])) ==> SafeTexts()
    {
    }

    method HandleFind(name: Wide, address: Wide) returns (done: bool)
      requires Valid() && SafeTexts() && NarrowSafe(name) && NarrowSafe(address)
      modifies this`avatarCache
      ensures Valid() && SafeTexts() && old(avatarCache) <= avatarCache
      ensures Answers(Recorded(), Find(name, address), done)
      ensures forall a :: a in avatarCache ==> a in old(avatarCache) || fresh(a)
    {
      ghost var before := avatarCache;
      SafeTextIsNeverAliased(name, address);
      CachedHasRow(name, address);
      var avatar := GetAvatarByName(name, address);
      SafeTextsOnceGrown(before);
      done := avatar != null;
    }

    lemma CachedHasRow(name: Wide, address: Wide)
      requires Valid()
      ensures CachedAs(name, address) ==> exists r :: r in db.avatars && StoredAs(r, name, address)
    {
      if i :| 0 <= i < |avatarCache| && avatarCache[i].name == name && avatarCache[i].address == address {
        assert avatarCache[i] in avatarCache && Backed(avatarCache[i]);
      }
    }

    method HandleCreate(name: Wide, address: Wide, userId: nat, attributes: nat, location: Wide) returns (done: bool)
      requires Valid()
      modifies this`avatarCache, this`db
      ensures Valid() && old(avatarCache) <= avatarCache
      ensures Recorded() == CarriedOut(old(Recorded()), Create(name, address, userId, attributes, location), done)
      ensures Answers(old(Recorded()), Create(name, address, userId, attributes, location), done)
      ensures old(SafeTexts()) && NarrowSafe(name) && NarrowSafe(address) ==> SafeTexts()
      ensures forall a :: a in avatarCache ==> a in old(avatarCache) || fresh(a)
    {
      hide Valid, SafeText, StoredAs;
      ghost var before := avatarCache;
      var avatar := CreateAvatar(name, address, userId, attributes, location);
      if avatar != null {
        CachedWithOneMore(before, avatar);
      }
      done := avatar != null;
    }

    lemma CachedWithOneMore(before: seq<ChatAvatar>, a: ChatAvatar)
      requires avatarCache == before + [a]
      ensures NarrowSafe(a.name) && NarrowSafe(a.address) && (forall i :: 0 <= i < |before| ==> SafeText(before[i]))
        ==> SafeTexts()
      ensures forall c :: c in avatarCache ==> c in before || c == a
    {
    }

    method HandleAct(owner: nat, target: nat, action: Action) returns (done: bool)
      requires Valid()
      modifies this, avatarCache
      ensures Valid() && old(avatarCache) <= avatarCache
      ensures Recorded() == CarriedOut(old(Recorded()), Act(owner, target, action), done)
      ensures Answers(old(Recorded()), Act(owner, target, action), done)
      ensures old(SafeTexts()) ==> SafeTexts()
      ensures forall a :: a in avatarCache ==> a in old(avatarCache) || fresh(a)
    {
      hide ActedOn, Loading, OnlineMatches;
      var a := GetStored(owner);
      var b := GetStored(target);
      if a != null && b != null {
        Perform(a, b, action);
      }
      done := a != null && b != null;
    }

    method HandleLogIn(id: nat) returns (done: bool)
      requires Valid()
      modifies this, avatarCache
      ensures Valid() && old(avatarCache) <= avatarCache
      ensures Recorded() == CarriedOut(old(Recorded()), LogIn(id), done) && Answers(old(Recorded()), LogIn(id), done)
      ensures old(SafeTexts()) ==> SafeTexts()
      ensures forall a :: a in avatarCache ==> a in old(avatarCache) || fresh(a)
    {
      var avatar := GetStored(id);
      if avatar != null {
        AppendedOnlineIds(onlineAvatars, avatar);
        OnlineIfFlagged(avatar);
        LoginAvatar(avatar);
      }
      done := avatar != null;
    }

    method HandleLogOut(id: nat) returns (done: bool)
      requires Valid()
      modifies this, avatarCache
      ensures Valid() && old(avatarCache) <= avatarCache
      ensures Recorded() == CarriedOut(old(Recorded()), LogOut(id), done) && Answers(old(Recorded()), LogOut(id), done)
      ensures old(SafeTexts()) ==> SafeTexts()
      ensures forall a :: a in avatarCache ==> a in old(avatarCache) || fresh(a)
    {
      var avatar := GetStored(id);
      if avatar != null {
        DroppedOnlineIds(onlineAvatars, avatar.avatarId);
        LogoutAvatar(avatar);
      }
      done := avatar != null;
    }

    lemma OnlineIfFlagged(a: ChatAvatar)
      requires Valid() && a in avatarCache
      ensures a.isOnline ==> a.avatarId in Ids(onlineAvatars)
    {
      if a.isOnline {
        IdOfCached(onlineAvatars, a);
      }
    }

    lemma SafeTextsIfGrown(before: seq<ChatAvatar>)
      requires GrownFrom(before, {})
      ensures (forall i :: 0 <= i < |before| ==> SafeText(before[i])) ==> SafeTexts()
    {
      if forall i :: 0 <= i < |before| ==> SafeText(before[i]) {
        SafeTextsOnceGrown(before);
      }
    }

    lemma SafeTextsOnceGrown(before: seq<ChatAvatar>)
      requires GrownFrom(before, {})
      requires forall i :: 0 <= i < |before| ==> SafeText(before[i])
      ensures SafeTexts()
    {
      forall i | |before| <= i < |avatarCache| ensures SafeText(avatarCache[i]) {
        assert NewlyLoaded(avatarCache[i], {});
      }
    }

    /** The tables and the lists of `a` after each action; a new or revised comment is kept in memory as it came. */
    method Perform(a: ChatAvatar, b: ChatAvatar, action: Action)
      requires Valid() && a in avatarCache && b in avatarCache && a.avatarService == this
      modifies this`db, a`friendList, a`ignoreList
      ensures Valid() && (old(SafeTexts()) ==> SafeTexts())
      ensures db == ActedOn(old(db), a.avatarId, b.avatarId, action)
      ensures a.friendList ==
        match action
        case AddFriend(comment) =>
          if old(Names(a.friendList, b.avatarId)) then old(a.friendList) else old(a.friendList) + [Contact(b, comment)]
        case RemoveFriend => Without(old(a.friendList), b.avatarId)
        case UpdateFriendComment(comment) => Recommented(old(a.friendList), b.avatarId, comment)
        case AddIgnore =>
          if old(Names(a.ignoreList, b.avatarId)) then old(a.friendList) else Without(old(a.friendList), b.avatarId)
        case RemoveIgnore => old(a.friendList)
      ensures a.ignoreList ==
        match action
        case AddFriend(_) =>
          if old(Names(a.friendList, b.avatarId)) then old(a.ignoreList) else Without(old(a.ignoreList), b.avatarId)
        case RemoveFriend => old(a.ignoreList)
        case UpdateFriendComment(_) => old(a.ignoreList)
        case AddIgnore =>
          if old(Names(a.ignoreList, b.avatarId)) then old(a.ignoreList) else old(a.ignoreList) + [Contact(b, [])]
        case RemoveIgnore => Without(old(a.ignoreList), b.avatarId)
    {
      hide Valid, Names, Linked, Without, Recommented, DeleteLink, SetComment, SafeText;
      ListedHasRow(a, b);
      match action
      case AddFriend(comment) => a.AddFriend(b, comment);
      case RemoveFriend => a.RemoveFriend(b);
      case UpdateFriendComment(comment) => a.UpdateFriendComment(b, comment);
      case AddIgnore => a.AddIgnore(b);
      case RemoveIgnore => a.RemoveIgnore(b);
    }

    // ----- whole runs -----

    /** Any run of lookups, creations, list operations, logins, logouts and destructions of avatars that no other
        cached avatar lists leaves the service consistent, with the tables and the online list the requests come to
        and each request answered rightly. Only destroyed avatars leave the cache. Texts must survive narrowing only
        if there are lookups by name. */
    method Run(requests: seq<Request>) returns (done: seq<bool>)
      requires Valid()
      requires (forall r :: r in requests ==> !r.Find?) || (SafeTexts() && forall r :: r in requests ==> SafeRequest(r))
      modifies this, avatarCache
      ensures Valid() && |done| == |requests|
      ensures Recorded() == AfterRequests(old(Recorded()), requests, done, |requests|)
      ensures AnsweredRightly(old(Recorded()), requests, done)
      ensures old(SafeTexts()) && (forall r :: r in requests ==> SafeRequest(r)) ==> SafeTexts()
      ensures (forall r :: r in requests ==> !r.Destroy?) ==> old(avatarCache) <= avatarCache
      ensures forall a :: a in old(avatarCache) ==> a in avatarCache || DestroyedIn(requests, a.avatarId)
    {
      hide Valid, CarriedOut, Answers, SafeText, SafeRequest;
      done := [];
      for i := 0 to |requests|
        invariant Valid() && |done| == i
        invariant Recorded() == AfterRequests(old(Recorded()), requests[..i], done, i)
        invariant AnsweredRightly(old(Recorded()), requests[..i], done)
        invariant old(SafeTexts()) && (forall r :: r in requests ==> SafeRequest(r)) ==> SafeTexts()
        invariant (forall r :: r in requests ==> !r.Destroy?) ==> old(avatarCache) <= avatarCache
        invariant forall a :: a in old(avatarCache) ==> a in avatarCache || DestroyedIn(requests, a.avatarId)
        invariant forall j :: 0 <= j < |avatarCache| ==> avatarCache[j] in old(avatarCache) || fresh(avatarCache[j])
      {
        assert requests[i] in requests;
        ghost var mid := avatarCache;
        var answer := Handle(requests[i]);
        OneRequestMore(old(Recorded()), requests[..i], done, requests[i], answer);
        assert requests[..i + 1] == requests[..i] + [requests[i]];
        done := done + [answer];
        forall j | 0 <= j < |avatarCache| ensures avatarCache[j] in old(avatarCache) || fresh(avatarCache[j]) {
          assert avatarCache[j] in avatarCache;
          if avatarCache[j] in mid {
            var k :| 0 <= k < |mid| && mid[k] == avatarCache[j];
          }
        }
      }
      assert requests[..|requests|] == requests;
    }

    /** A fresh service over the tables of a consistent one reloads the very lists it holds. */
    method ColdReload(w: ChatAvatar) returns (cold: ChatAvatarService, c: ChatAvatar)
      requires Valid() && w in avatarCache
      ensures fresh(cold) && cold.Valid() && cold.db == db && c in cold.avatarCache
      ensures SameLists(w, c) && forall i :: 0 <= i < |cold.avatarCache| ==> cold.AsStored(cold.avatarCache[i])
    {
      hide AsStored, SameLists;
      BackedIsStored(w);
      cold, c := LoadAfresh(db, w.avatarId);
      WarmAndColdAgree(this, cold, w, c);
    }
  }

  /** A new service over these tables, with one avatar loaded. */
  method LoadAfresh(tables: Tables, id: nat) returns (cold: ChatAvatarService, c: ChatAvatar)
    requires tables.Keyed() && id in tables.Ids()
    ensures fresh(cold) && cold.Valid() && cold.db == tables && c in cold.avatarCache && c.avatarId == id
    ensures forall i :: 0 <= i < |cold.avatarCache| ==> cold.AsStored(cold.avatarCache[i])
  {
    hide ChatAvatarService.Valid, ChatAvatarService.AsStored, Reaches;
    cold := new ChatAvatarService(tables);
    var loaded := cold.GetAvatar(id);
    c := loaded;
  }

  /** Two list entries name the same avatar, with the same comment as stored text. */
  ghost predicate SameContact(p: Contact, q: Contact) {
    && (p.avatar == null <==> q.avatar == null)
    && (p.avatar != null ==> p.avatar.avatarId == q.avatar.avatarId)
    && FromWideString(p.comment) == FromWideString(q.comment)
  }

  ghost predicate SameContacts(s: seq<Contact>, t: seq<Contact>) {
    |s| == |t| && forall i :: 0 <= i < |s| ==> SameContact(s[i], t[i])
  }

  ghost predicate SameLists(w: ChatAvatar, c: ChatAvatar)
    reads w, c
  {
    && w.avatarId == c.avatarId && w.userId == c.userId && SameStoredText(w, c.name, c.address)
    && SameContacts(w.friendList, c.friendList) && SameContacts(w.ignoreList, c.ignoreList)
  }

  lemma MirrorsOfSameRows(warm: seq<ChatAvatar>, cold: seq<ChatAvatar>, stored: set<nat>, s: seq<Contact>,
      t: seq<Contact>, rows: seq<LinkRow>)
    requires Mirrors(warm, stored, s, rows) && Mirrors(cold, stored, t, rows)
    ensures SameContacts(s, t)
  {
    forall i | 0 <= i < |s| ensures SameContact(s[i], t[i]) {
      assert Denotes(warm, stored, s[i].avatar, rows[i].target) && Denotes(cold, stored, t[i].avatar, rows[i].target);
    }
  }

  /** Two consistent services over the same tables agree on every avatar both have cached. */
  lemma WarmAndColdAgree(warm: ChatAvatarService, cold: ChatAvatarService, w: ChatAvatar, c: ChatAvatar)
    requires warm.Valid() && cold.Valid() && warm.db == cold.db
    requires w in warm.avatarCache && c in cold.avatarCache && w.avatarId == c.avatarId
    ensures SameLists(w, c)
  {
    var stored := warm.db.Ids();
    MirrorsOfSameRows(warm.avatarCache, cold.avatarCache, stored, w.friendList, c.friendList,
        RowsOf(warm.db.friends, w.avatarId));
    MirrorsOfSameRows(warm.avatarCache, cold.avatarCache, stored, w.ignoreList, c.ignoreList,
        RowsOf(warm.db.ignores, w.avatarId));
    assert warm.Backed(w) && cold.Backed(c);
    var q :| q in warm.db.avatars && RowOf(q, w);
    var r :| r in warm.db.avatars && RowOf(r, c);
    OneRowPerKey(warm.db, q, r);
  }
}
