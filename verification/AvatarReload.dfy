// What a fresh service loads when the database returns rows in another order, and runs that leave the
// avatar cache inconsistent.
module AvatarReload {
  import opened StringUtils
  import opened AvatarTables
  import opened AvatarRequests
  import opened AvatarService

  // ----- rows in any order -----

  /** The same rows, in any order. */
  ghost predicate SameRows(a: Tables, b: Tables) {
    && (forall r :: r in a.avatars <==> r in b.avatars)
    && (forall r :: r in a.friends <==> r in b.friends)
    && (forall r :: r in a.ignores <==> r in b.ignores)
  }

  lemma SameRowsSameIds(a: Tables, b: Tables)
    requires SameRows(a, b)
    ensures a.Ids() == b.Ids()
  {
    forall id ensures id in a.Ids() <==> id in b.Ids() {
      StoredIdsHold(a.avatars, id);
      StoredIdsHold(b.avatars, id);
      if i :| 0 <= i < |a.avatars| && a.avatars[i].id == id {
        assert a.avatars[i] in b.avatars;
      }
      if i :| 0 <= i < |b.avatars| && b.avatars[i].id == id {
        assert b.avatars[i] in a.avatars;
      }
    }
  }

  /** Every entry of one list is matched by one of the other. */
  ghost predicate Matched(s: seq<Contact>, t: seq<Contact>) {
    forall i :: 0 <= i < |s| ==> HasContact(t, s[i])
  }

  ghost predicate HasContact(t: seq<Contact>, p: Contact) {
    exists j :: 0 <= j < |t| && SameContact(p, t[j])
  }

  ghost predicate SameListsInAnyOrder(w: ChatAvatar, c: ChatAvatar)
    reads w, c
  {
    && w.avatarId == c.avatarId && w.userId == c.userId && SameStoredText(w, c.name, c.address)
    && Matched(w.friendList, c.friendList) && Matched(c.friendList, w.friendList)
    && Matched(w.ignoreList, c.ignoreList) && Matched(c.ignoreList, w.ignoreList)
  }

  lemma MirrorsMatch(warm: seq<ChatAvatar>, cold: seq<ChatAvatar>, stored: set<nat>, s: seq<Contact>, t: seq<Contact>,
                     rows: seq<LinkRow>, others: seq<LinkRow>)
    requires Mirrors(warm, stored, s, rows) && Mirrors(cold, stored, t, others)
    requires forall r :: r in rows ==> r in others
    ensures Matched(s, t)
  {
    forall i | 0 <= i < |s| ensures HasContact(t, s[i]) {
      assert rows[i] in others;
      var j :| 0 <= j < |others| && others[j] == rows[i];
      assert Denotes(warm, stored, s[i].avatar, rows[i].target) && Denotes(cold, stored, t[j].avatar, rows[i].target);
      assert SameContact(s[i], t[j]);
    }
  }

  /** Two consistent services over the same rows, in any order, hold the same contacts. */
  lemma AgreeInAnyOrder(warm: ChatAvatarService, cold: ChatAvatarService, w: ChatAvatar, c: ChatAvatar)
    requires warm.Valid() && cold.Valid() && SameRows(warm.db, cold.db)
    requires w in warm.avatarCache && c in cold.avatarCache && w.avatarId == c.avatarId
    ensures SameListsInAnyOrder(w, c)
  {
    var stored, id := warm.db.Ids(), w.avatarId;
    var friends, ignores := RowsOf(warm.db.friends, id), RowsOf(warm.db.ignores, id);
    var coldFriends, coldIgnores := RowsOf(cold.db.friends, id), RowsOf(cold.db.ignores, id);
    SameRowsSameIds(warm.db, cold.db);
    MirrorsMatch(warm.avatarCache, cold.avatarCache, stored, w.friendList, c.friendList, friends, coldFriends);
    MirrorsMatch(cold.avatarCache, warm.avatarCache, stored, c.friendList, w.friendList, coldFriends, friends);
    MirrorsMatch(warm.avatarCache, cold.avatarCache, stored, w.ignoreList, c.ignoreList, ignores, coldIgnores);
    MirrorsMatch(cold.avatarCache, warm.avatarCache, stored, c.ignoreList, w.ignoreList, coldIgnores, ignores);
    assert warm.Backed(w) && cold.Backed(c);
    var q :| q in warm.db.avatars && RowOf(q, w);
    var r :| r in cold.db.avatars && RowOf(r, c);
    OneRowPerKey(warm.db, q, r);
  }

  lemma CachedIsStored(s: ChatAvatarService, w: ChatAvatar)
    requires s.Valid() && w in s.avatarCache
    ensures w.avatarId in s.db.Ids()
  {
    s.BackedIsStored(w);
  }

  /** In whatever order the database returns its rows, a fresh service loads the same contacts. */
  method ColdReloadInAnyOrder(s: ChatAvatarService, w: ChatAvatar, tables: Tables)
    returns (cold: ChatAvatarService, c: ChatAvatar)
    requires s.Valid() && w in s.avatarCache && tables.Keyed() && SameRows(s.db, tables)
    ensures fresh(cold) && cold.Valid() && cold.db == tables && c in cold.avatarCache
    ensures SameListsInAnyOrder(w, c)
    ensures forall i :: 0 <= i < |cold.avatarCache| ==> cold.AsStored(cold.avatarCache[i])
  {
    hide ChatAvatarService.Valid, ChatAvatarService.AsStored, SameListsInAnyOrder;
    CachedIsStored(s, w);
    SameRowsSameIds(s.db, tables);
    cold, c := LoadAfresh(tables, w.avatarId);
    AgreeInAnyOrder(s, cold, w, c);
  }

  /** After any run that does not destroy `w`, a fresh service over the tables the requests come to loads the lists
      the running service holds. Only lookups by name ask for texts that survive narrowing. */
  method ReloadAfterRun(s: ChatAvatarService, requests: seq<Request>, w: ChatAvatar)
    returns (done: seq<bool>, cold: ChatAvatarService, c: ChatAvatar)
    requires s.Valid() && w in s.avatarCache && !DestroyedIn(requests, w.avatarId)
    requires
      || (forall r :: r in requests ==> !r.Find?)
      || (s.SafeTexts() && forall r :: r in requests ==> SafeRequest(r))
    modifies s, s.avatarCache
    ensures s.Valid() && w in s.avatarCache && |done| == |requests|
    ensures AnsweredRightly(old(s.Recorded()), requests, done)
    ensures fresh(cold) && cold.Valid() && c in cold.avatarCache
    ensures cold.db == s.db == AfterRequests(old(s.Recorded()), requests, done, |requests|).db
    ensures SameLists(w, c) && forall i :: 0 <= i < |cold.avatarCache| ==> cold.AsStored(cold.avatarCache[i])
  {
    hide ChatAvatarService.Valid, SameLists, ChatAvatarService.AsStored, AnsweredRightly, AfterRequests;
    done := s.Run(requests);
    cold, c := s.ColdReload(w);
  }

  // ----- what can go wrong -----

  /** A service over an empty database in which one avatar has just been created. */
  method ServiceOfOne(name: Wide) returns (s: ChatAvatarService, a: ChatAvatar)
    ensures fresh(s) && fresh(a) && s.Valid() && s.avatarCache == [a] && a.avatarService == s
    ensures a.name == name && a.address == [] && a.friendList == [] && a.ignoreList == []
    ensures s.db.avatars == [AvatarRow(a.avatarId, 1, FromWideString(name), FromWideString([]), 0)]
  {
    s := EmptyService();
    hide ChatAvatarService.Valid;
    var created := s.CreateAvatar(name, [], 1, 0, []);
    a := created;
    CachedBelongs(s, a);
  }

  method EmptyService() returns (s: ChatAvatarService)
    ensures fresh(s) && s.Valid() && s.avatarCache == [] && s.db == Tables([], [], [], 0)
  {
    s := new ChatAvatarService(Tables([], [], [], 0));
  }

  lemma CachedBelongs(s: ChatAvatarService, a: ChatAvatar)
    requires s.Valid() && a in s.avatarCache
    ensures a.avatarService == s
  {
    assert s.Backed(a);
  }

  /** Of any two texts that narrow alike, asking for one while the other is cached puts a second object
      for the same id into the cache. */
  method AliasBreaksCache(cached: Wide, asked: Wide) returns (s: ChatAvatarService)
    requires cached != asked && FromWideString(cached) == FromWideString(asked)
    ensures fresh(s) && !s.Valid() && |Ids(s.avatarCache)| < |s.avatarCache|
  {
    var first;
    s, first := ServiceOfOne(cached);
    hide ChatAvatarService.Valid, FromWideString;
    IdOfCached(s.avatarCache, first);
    assert StoredAs(s.db.avatars[0], asked, []) && s.db.avatars[0] in s.db.avatars;
    assert s.Aliased(asked, []);
    var second := s.GetAvatarByName(asked, []);
  }

  /** Either of U+0041 and U+0141 breaks the cache when the other is cached, though the first of them
      survives narrowing. */
  method EvenSafeTextBreaksCache() returns (s: ChatAvatarService, t: ChatAvatarService)
    ensures NarrowSafe([0x41]) && !NarrowSafe([0x141])
    ensures fresh(s) && !s.Valid() && fresh(t) && !t.Valid()
  {
    assert FromWideString([0x41]) == FromWideString([0x141]);
    assert [0x141][0] == 0x141 && [0x41][0] == 0x41;
    s := AliasBreaksCache([0x141], [0x41]);
    t := AliasBreaksCache([0x41], [0x141]);
  }

  method ServiceOfFriends() returns (s: ChatAvatarService, a: ChatAvatar, b: ChatAvatar)
    ensures fresh(s) && fresh(a) && fresh(b) && s.Valid() && a in s.avatarCache && b in s.avatarCache
    ensures a.avatarId != b.avatarId && ListsId(a, b.avatarId)
  {
    s, a := ServiceOfOne([0x41]);
    hide ChatAvatarService.Valid, Mirrors, FromWideString;
    NamesDiffer();
    var created := s.CreateAvatar([0x42], [], 1, 0, []);
    b := created;
    StoredIdsHold([AvatarRow(a.avatarId, 1, FromWideString([0x41]), FromWideString([]), 0)], a.avatarId);
    MakeFriends(s, a, b);
  }

  lemma NamesDiffer()
    ensures FromWideString([0x41]) != FromWideString([0x42])
  {
    assert FromWideString([0x41])[0] == 0x41 && FromWideString([0x42])[0] == 0x42;
  }

  method MakeFriends(s: ChatAvatarService, a: ChatAvatar, b: ChatAvatar)
    requires s.Valid() && a in s.avatarCache && b in s.avatarCache && a.avatarService == s
    requires a.friendList == [] && a.ignoreList == []
    modifies a`friendList, a`ignoreList, s`db
    ensures s.Valid() && ListsId(a, b.avatarId)
  {
    a.AddFriend(b, []);
  }

  /** Destroying a friend leaves an entry for it in memory that the tables no longer hold. */
  method DestroyingFriendBreaksCache() returns (s: ChatAvatarService)
    ensures fresh(s) && !s.Valid()
  {
    var a, b;
    s, a, b := ServiceOfFriends();
    hide ChatAvatarService.Valid, ListsId, Mirrors;
    ghost var before := s.avatarCache;
    DroppedHolds(before, b.avatarId);
    ghost var i: int :| 0 <= i < |before| && before[i] == a;
    var _ := s.DestroyAvatar(b, true);
    assert a in s.avatarCache;
  }
}
