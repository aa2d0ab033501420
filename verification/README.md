# Verification of the chat server

A Dafny model of the parts of the SWG chat server in which state, recursion and arithmetic interact, with
proofs of what they promise. Each module names its source file in its first lines; "Lines N-M" in a
doc comment are lines of that file. Code that changes objects in place is written as classes and methods
with loops, and every such method is tied by its `ensures` to a function or predicate on values; what
holds over whole runs is proved about those.

- **Avatars** (`StringUtils`, `AvatarTables`, `AvatarGraph`, `AvatarRequests`, `AvatarService`, `AvatarReload`): the
  cache that loads avatars on demand by depth-first search over a possibly cyclic friend/ignore graph stored in
  tables, seeing half-built nodes, the list operations that write through to the tables, and what a whole run of
  requests comes to, said of the requests alone. The database is three sequences of rows with the keys, foreign keys
  and cascades of `extras/migrations/mariadb/V001__baseline.sql`.
- **Rooms** (`RoomRules`, `RoomRights`, `RoomRuns`, `RoomsTogether`, `RoomRegistry`, `RoomRegistryRuns`, `RoomRestarts`,
  `RoomRequests`, `RoomRows`, `RoomsAndRows`, `ChatRooms`): membership, roles, bans and invitations of a room; the
  registry of rooms with its unique addresses and numbers; the room table and the role tables. `RoomRules` and
  `RoomRegistry` say what each operation does to values, `ChatRooms` shows that the classes do just that, and the other
  modules prove what follows for every run: of one room, of many rooms over the same tables, of the registry against
  its requests alone, of the registry together with the role tables, and across restarts.
- **Wire format** (`Serialization`, `WireRecords`, `WireLayout`): integers, texts, avatar, contact and room records.
- **Hex dump** (`HexDump`): the dump of a network message, on a stream with formatting state.
- **Test runner** (`SectionTree`, `SectionTracker`, `Generators`, `ResultBar`): how Catch reruns a test once
  per leaf section, its generator odometer, and its result bar.
- **Logger** (`LogConfiguration`, `LogConfigurationMaps`, `LogValues`, `WildCards`, `HitCounters`): the compressed
  per-level settings of Easylogging++, its wildcard matcher and its wrapping hit counters.

Where the code does not keep a promise in general, the exact condition under which it does is proved as an
if-and-only-if, and a member shows an input on which it does not:

- Looking an avatar up by name keeps the cache consistent unless the text asked for is an *alias*: it is not
  the text of a cached avatar but narrows to the row of one (`GetAvatarByName`). Of any two texts that narrow
  alike each is an alias while the other is cached (`AliasBreaksCache`; `EvenSafeTextBreaksCache` takes U+0041
  and U+0141 both ways). Text whose units are all below 0x80 or from 0xFF80 up is never an alias while every
  cached avatar carries such text (`SafeTextIsNeverAliased`). Texts compare byte by byte here; the shipped schema
  collates with `utf8mb4_unicode_ci`, under which there are more aliases, such as other letter case.
- Destroying an avatar keeps the cache consistent unless another cached avatar lists it (`DestroyAvatar`,
  `DestroyingFriendBreaksCache`).
- Role rows have two foreign keys: one to the avatar, and one to a stored room, for which the code passes the
  room's number in memory. Over all runs a row is there exactly when the role was granted afresh at some step
  and since then has been held while some stored room had that number as its id and the avatar was stored
  (`StoredExactly`); the tables agree with memory exactly when that is so for every role but the creator's
  (`TablesAgreeExactlyIfKeyed`). The stored room is another one as a rule: from an empty database it is the one
  created just before (`KeyedByRoomBefore`), so the first room never has any rows (`FirstRoomLosesItsBans`). Bans are
  also lost when the keying room is destroyed (`CascadeLosesBans`), or the banned avatar, whose id the room
  still bans (`DestroyedAvatarLosesItsBan`).
- A room's wire form decodes to the room unless a list has 2^32 avatars or more (`RoomRoundTrip`,
  `FullListIsLost`); `std::string` comes back cut to its length modulo 2^16 (`PutString`).
- `peekAt` is said to preserve the read position. The stream stays good with its position kept exactly when it
  was good and holds the value; the position alone also stays when the stream had failed before, when the
  offset is out of range, or when it was at the end already (`PeekU16At`, `PeekLosesPosition`).
- The hex dump ends exactly when the number of full lines is not 32767 modulo 2^16, since its sixteen-bit line
  counter never passes 32767 (`DumpEndsExactly`; the shortest message that does not end has 524272 bytes,
  `FirstEndlessDump`). It covers the whole message exactly below 524288 bytes (`ShowsAllExactly`).
- A compressed settings map answers with the registry's own values exactly when the type's first entry is
  Global, or there is no Global, or both have the same value (`AgreesExactly`, `DebugBeforeGlobalDisagrees`);
  that is also exactly when no value in it is overwritten while it is built (`OverwritesExactly`). For
  `MillisecondsWidth` and `PerformanceTracking` the documentation (lines 2674-2676) says that settings for
  levels other than Global are ignored; the code lets settings for Info take effect (`OnlyInfoCounts`,
  `InfoOverridesGlobal`).
- `validateEveryN` hits on every n-th call exactly for n up to 100000 (`EveryNthExactly`, `BeyondLimitMisses`).

Concretely chosen: plain `char` is signed, as on x86, so widening a stored byte from 0x80 up extends its sign.
`std::find_if` and `std::remove_if` with `erase` are written as loops or recursive functions. A thrown
`ChatResultException` is a result code, a null result stands for the thrown exceptions of `CreateAvatar`
and `CreateRoom`, and a result of a database call that may fail is a parameter. In a section tree the name of a
section is the key the tracker uses, its name and line.

## Model

| member | source | states |
|---|---|---|
| StringUtils.NarrowOfWiden | src/stationapi/StringUtils.cpp:4-10 | A stored byte string survives being widened and narrowed again. |
| StringUtils.WidenOfNarrow | src/stationapi/StringUtils.cpp:4-10 | A text survives narrowing and widening if and only if each unit is ASCII or a sign-extended byte. |
| AvatarTables.RowsOfDeleteLink | src/stationchat/ChatAvatarService.cpp:122-152 | A DELETE of one link takes exactly that link out of its owner's rows, in order, and leaves other owners' rows alone. |
| AvatarTables.RowsOfSetComment | src/stationchat/ChatAvatarService.cpp:154-172 | An UPDATE of a comment changes it in that owner's row for that target and nowhere else. |
| AvatarTables.RowsOfCascade | extras/migrations/mariadb/V001__baseline.sql:106-131 | Deleting an avatar removes its own link rows and every other owner's rows that name it, no others. |
| AvatarTables.DeletedIsKeyed | src/stationchat/ChatAvatarService.cpp:346-358 | Deleting an avatar row with its cascades keeps all keys and foreign keys and removes exactly its id. |
| AvatarTables.InsertingAvatarKeepsKeys | src/stationchat/ChatAvatarService.cpp:293-317 | Inserting an avatar with an unused name and address keeps all keys; its id is new and no link names it. |
| AvatarGraph.ReachedIsInClosedSet | src/stationchat/ChatAvatarService.cpp:30-45 | A set closed under listing that contains the start contains every avatar reached from it. |
| AvatarGraph.ReachAroundClosedSet | src/stationchat/ChatAvatarService.cpp:30-45 | Whatever is reachable lies in a closed set or is reached by a walk that avoids it entirely. |
| AvatarService.ChatAvatar.IsFriend | src/stationchat/ChatAvatar.cpp:51-60 | True if and only if some entry of the friend list points at an avatar with that id. |
| AvatarService.ChatAvatar.IsIgnored | src/stationchat/ChatAvatar.cpp:82-91 | True if and only if some entry of the ignore list points at an avatar with that id. |
| AvatarService.ChatAvatar.AddFriend | src/stationchat/ChatAvatar.cpp:21-28 | For a new friend: exact new lists and tables, the ignore entry and row gone; for an old one nothing changes; nobody ends up on both lists; cache and tables stay in step. |
| AvatarService.ChatAvatar.RemoveFriend | src/stationchat/ChatAvatar.cpp:30-39 | The list loses exactly the entries for that avatar, the table exactly that row; both stay in step. |
| AvatarService.ChatAvatar.UpdateFriendComment | src/stationchat/ChatAvatar.cpp:41-49 | The comment of the entry and, narrowed, of the row is replaced; all else stays. |
| AvatarService.ChatAvatar.AddIgnore | src/stationchat/ChatAvatar.cpp:62-69 | As AddFriend, with the lists exchanged. |
| AvatarService.ChatAvatar.RemoveIgnore | src/stationchat/ChatAvatar.cpp:71-80 | As RemoveFriend, for the ignore list and table. |
| AvatarService.RemoveIf | src/stationchat/ChatAvatar.cpp:31-32 | The in-order loop keeps exactly what Without keeps. |
| AvatarService.WithoutOfUnnamed | src/stationchat/ChatAvatar.cpp:30-39 | What remove_if leaves: no entry for the id, every other entry, and the same list if and only if the id was not named. |
| AvatarService.ChatAvatarService.constructor | src/stationchat/ChatAvatarService.cpp:8-9 | A fresh service over keyed tables is consistent with an empty cache. |
| AvatarService.ChatAvatarService.GetCachedAvatarById | src/stationchat/ChatAvatarService.cpp:191-203 | Null if and only if no cached avatar has the id. |
| AvatarService.ChatAvatarService.GetCachedAvatarByName | src/stationchat/ChatAvatarService.cpp:174-189 | Null if and only if no cached avatar carries exactly that name and address. |
| AvatarService.ChatAvatarService.LoadStoredAvatarById | src/stationchat/ChatAvatarService.cpp:263-291 | A fresh avatar with every field of the row with that id (user id, attributes, text sign-extended), lists empty; null if and only if there is none. |
| AvatarService.ChatAvatarService.LoadStoredAvatarByName | src/stationchat/ChatAvatarService.cpp:226-261 | A fresh avatar with every field of the row its text narrows to; null only if there is none. |
| AvatarService.ChatAvatarService.GetAvatarById | src/stationchat/ChatAvatarService.cpp:30-45 | Called at any depth, with any avatars half-built on the call stack, it terminates on cyclic graphs, adds exactly what is reached around the old cache, one object per id, and leaves every cached avatar complete or on the stack. |
| AvatarService.ChatAvatarService.LoadAvatar | src/stationchat/ChatAvatarService.cpp:36-40 | Caching an avatar before filling its lists adds exactly what is reached from it around the old cache. |
| AvatarService.ChatAvatarService.LoadLists | src/stationchat/ChatAvatarService.cpp:39-40 | Filling both lists takes the avatar off the stack complete, its lists being its rows in order. |
| AvatarService.ChatAvatarService.LoadFriendList | src/stationchat/ChatAvatarService.cpp:360-380 | The friend list becomes the friend rows in order, each entry pointing at the one cached object for its id, its comment one that survives narrowing, so the sign-extended row comment. |
| AvatarService.ChatAvatarService.LoadIgnoreList | src/stationchat/ChatAvatarService.cpp:382-401 | The ignore list becomes the ignore rows in order, each entry pointing at the one cached object for its id. |
| AvatarService.ChatAvatarService.LoadedIsReached | src/stationchat/ChatAvatarService.cpp:30-45 | Whatever a load adds is reached from the avatar asked for around what was cached before. |
| AvatarService.ChatAvatarService.ReachedIsLoaded | src/stationchat/ChatAvatarService.cpp:30-45 | Everything reached around what was cached before is in the cache once the new avatars are complete. |
| AvatarService.ChatAvatarService.ListsHaveNoNulls | src/stationchat/ChatAvatarService.cpp:372-400 | With foreign keys no list of a complete avatar holds a null; every entry is cached. |
| AvatarService.ChatAvatarService.GetAvatar | src/stationchat/ChatAvatarService.cpp:30-45 | From outside: the cache becomes the old one plus exactly what is reachable from the id, each avatar added having every field of its row and its comments; the result is the cached avatar with that id, or null if it is not stored. |
| AvatarService.ChatAvatarService.LoadedIsAsStored | src/stationchat/ChatAvatarService.cpp:226-380 | Every avatar a load adds has the user id, attributes and text of the row with its id, and its friend comments are the row comments, sign-extended. |
| AvatarService.ChatAvatarService.GetAvatarByName | src/stationchat/ChatAvatarService.cpp:13-28 | The avatar whose stored text is the one asked for; the cache gains what is reachable, each avatar with every field of its row; it stays consistent if and only if the text is not an alias. |
| AvatarService.ChatAvatarService.AdoptedOnce | src/stationchat/ChatAvatarService.cpp:16-24 | Adopting a loaded avatar keeps one object per id if and only if its id was not cached. |
| AvatarService.ChatAvatarService.SafeTextIsNeverAliased | src/stationchat/ChatAvatarService.cpp:13-28 | Text that survives narrowing is never an alias when every cached avatar carries such text. |
| AvatarService.ChatAvatarService.LookupsAgree | src/stationchat/ChatAvatarService.cpp:174-203 | In a consistent cache an id and a name with address each pick out one object. |
| AvatarService.ChatAvatarService.CreateAvatar | src/stationchat/ChatAvatarService.cpp:47-58 | Fails, changing nothing, if and only if the narrowed name and address are stored; otherwise exactly one row with a new id and one cached avatar are added. |
| AvatarService.ChatAvatarService.IsOnline | src/stationchat/ChatAvatarService.cpp:403-411 | True if and only if the online list holds an avatar with that id. |
| AvatarService.ChatAvatarService.LoginAvatar | src/stationchat/ChatAvatarService.cpp:66-72 | The avatar is flagged online and listed once, at the end if it was not listed. |
| AvatarService.ChatAvatarService.LogoutAvatar | src/stationchat/ChatAvatarService.cpp:74-83 | The avatar is not flagged and not listed; the order of the others stays. |
| AvatarService.ChatAvatarService.DestroyAvatar | src/stationchat/ChatAvatarService.cpp:60-64 | If the database refuses the DELETE nothing changes; otherwise exact new tables, cache and online list, and the cache is still consistent if and only if no other cached avatar lists the victim. |
| AvatarService.ChatAvatarService.Perform | src/stationchat/ChatAvatar.cpp:21-80 | The tables, both lists of the owner and the comments in memory after each of the five list operations. |
| AvatarService.ChatAvatarService.Handle | src/stationchat/protocol/Protocol.cpp:124-636 | One request: the tables and who is online afterwards, whether it is carried out, and a consistent service. |
| AvatarRequests.LinkedExactly | src/stationchat/ChatAvatar.cpp:21-80 | After a whole run a pair has a friend row if and only if it had one or AddFriend was carried out, and since then none of RemoveFriend, AddIgnore and the destruction of either; an ignore row likewise. A pair that had both to begin with keeps both until one is taken away. |
| AvatarRequests.FriendRowExactly | src/stationchat/ChatAvatar.cpp:21-80 | A friend row with a given comment is stored if and only if it was, or the AddFriend that made the pair friends or an UpdateFriendComment while they were gave it that comment, and nothing has parted them or changed it since. |
| AvatarRequests.OnlineExactly | src/stationchat/ChatAvatarService.cpp:60-83 | An avatar is online after a run if and only if it was, or logged in, and has neither logged out nor been destroyed since. |
| AvatarRequests.AvatarRowExactly | src/stationchat/ChatAvatarService.cpp:293-358 | An avatar row is stored after a run if and only if it was, or a creation made it, ids counting on from the last one, and it has not been destroyed since. |
| AvatarService.MirrorsIfUnnamed | src/stationchat/ChatAvatarService.cpp:60-64 | After a cascade a list still shows its rows if and only if it never named the deleted avatar. |
| AvatarService.ChatAvatarService.Run | src/stationchat/protocol/Protocol.cpp:124-636 | Any run of lookups by name, creations, list operations, logins, logouts and destructions of avatars no other lists keeps cache, tables and online list consistent, answers each request rightly, and leaves exactly the tables and online list the requests come to; only destroyed avatars leave the cache. Texts must survive narrowing only if there are lookups by name. |
| AvatarService.WarmAndColdAgree | src/stationchat/ChatAvatarService.cpp:360-401 | Two consistent services over the same tables hold the same lists for an avatar both have cached, in the same order if rows are returned in the same order, comments equal as stored text. |
| AvatarService.ChatAvatarService.ColdReload | src/stationchat/ChatAvatarService.cpp:360-401 | A fresh service over the tables of a consistent one loads the same friend and ignore lists, rows being returned in the same order, and every avatar it loads has the fields and comments of its rows. |
| AvatarReload.AgreeInAnyOrder | src/stationchat/ChatAvatarService.cpp:360-401 | In whatever order rows are returned, two consistent services over the same rows hold the same contacts for an avatar both have cached. |
| AvatarReload.ColdReloadInAnyOrder | src/stationchat/ChatAvatarService.cpp:360-401 | A fresh service over the same rows in any order loads the same friends and ignored avatars, each avatar with the fields and comments of its rows. |
| AvatarReload.ReloadAfterRun | src/stationchat/ChatAvatarService.cpp:360-401 | After any such run that does not destroy an avatar, a fresh service over the tables the requests come to loads the lists the running service holds for it. |
| AvatarReload.AliasBreaksCache | src/stationchat/ChatAvatarService.cpp:13-28 | Asking for any text while another that narrows alike is cached leaves two objects for one id. |
| AvatarReload.EvenSafeTextBreaksCache | src/stationchat/ChatAvatarService.cpp:13-28 | U+0041 breaks the cache when U+0141 is cached, and the other way round, though the first survives narrowing. |
| AvatarReload.DestroyingFriendBreaksCache | src/stationchat/ChatAvatarService.cpp:60-64 | Destroying a friend of a cached avatar leaves the cache inconsistent with the tables. |
| RoomRules.WithoutOfOne | src/stationchat/ChatRoom.cpp:254-256 | remove_if drops an element with the id and keeps any other. |
| RoomRules.WithoutOfBoth | src/stationchat/ChatRoom.cpp:254-256 | remove_if treats each part of a list by itself, so what is kept keeps its order and multiplicity. |
| RoomRules.WithoutMemberOfBoth | src/stationchat/ChatRoom.cpp:78-83 | The same for members leaving. |
| RoomRuns.ThrowingChangesNothing | src/stationchat/ChatRoom.cpp:49-311 | An operation that throws leaves the room and all role rows as they were. |
| RoomRuns.Fixed | src/stationchat/ChatRoom.cpp:10-27 | Number, creator, password and attributes of a room never change. |
| RoomRuns.ListsStayDistinct | src/stationchat/ChatRoom.cpp:49-311 | No run puts an avatar twice on any of the five lists. |
| RoomRuns.HasMemberAfter | src/stationchat/ChatRoom.cpp:49-84 | Who is in the room after an operation: whoever was and did not leave, and whoever just entered. |
| RoomRights.AnswersExactly | src/stationchat/ChatRoom.cpp:176-311 | An operation answers NoPrivileges if and only if its source is neither creator nor moderator as it needs; its own complaint if the source is but it would change nothing; it succeeds if and only if neither is so. |
| RoomRights.EntryAnswers | src/stationchat/ChatRoom.cpp:49-67 | Each answer of EnterRoom, if and only if on password, ban, presence, privacy and invitation. |
| RoomRights.RolesAfter | src/stationchat/ChatRoom.cpp:188-311 | A successful operation appends the avatar it gives a role to, removes the one it takes it from, and leaves the other lists as they are. |
| RoomRights.MembersAfter | src/stationchat/ChatRoom.cpp:49-84 | Who is in the room after any operation, in order: one appended on entry, one removed on leave or kick. |
| RoomRights.HoldsAfter | src/stationchat/ChatRoom.cpp:188-311 | Who holds a role after an operation: whoever did and did not just lose it, and whoever was just given it. |
| RoomRights.RowsAfter | src/stationchat/ChatRoomService.cpp:255-365 | The role row after an operation: it goes with a successful removal, comes with a successful grant if both keys are stored, and never changes in a room without the persistent bit. |
| RoomRights.CreatorMayAll | src/stationchat/ChatRoom.cpp:10-27 | A new room has the creator as its only administrator and moderator, who is entitled to every operation. |
| RoomRights.HeldExactly | src/stationchat/ChatRoom.cpp:188-311 | After a whole run an avatar holds a role if and only if it had it, or a successful operation gave it, and no successful operation took it since. |
| RoomRights.RemovedModeratorIsRefused | src/stationchat/ChatRoom.cpp:176-311 | A removed moderator can neither kick, ban nor invite, nor lift bans and invitations, until appointed again: each attempt answers NoPrivileges and changes nothing. |
| RoomRuns.BannedStaysOut | src/stationchat/ChatRoom.cpp:49-56 | An avatar banned and outside is never let in by a run without a successful RemoveBanned of it. |
| RoomRuns.EntryExactly | src/stationchat/ChatRoom.cpp:49-67 | Entering succeeds if and only if the avatar is not banned, not inside, knows the password and, in a private room, is the creator or invited. |
| RoomRuns.EveryMemberWasAdmitted | src/stationchat/ChatRoom.cpp:49-67 | Every member was, at the latest entry, not banned, knew the password and, in a private room, was the creator or invited. |
| RoomRuns.EveryRoleWasGranted | src/stationchat/ChatRoom.cpp:188-244 | Every role gained was granted by a successful operation of someone entitled at that step, and held since. |
| RoomRuns.AuthorityComesFromCreator | src/stationchat/ChatRoom.cpp:176-311 | Whoever bans, invites, kicks or lifts these is the creator or was appointed moderator earlier by the creator. |
| RoomRuns.RowsStayCurrent | src/stationchat/ChatRoomService.cpp:255-365 | Role rows of a persistent room never name anyone who does not hold the role. |
| RoomRuns.RowsStayComplete | src/stationchat/ChatRoomService.cpp:255-365 | While a stored room has the id equal to the room's number and avatars are given roles only while they are stored and stay so, ban rows equal the bans and role rows equal the roles except perhaps the creator's. |
| RoomRuns.UnkeyedRoomHasNoRows | src/stationchat/ChatRoomService.cpp:10-14 | Without such a stored room every INSERT IGNORE is dropped: the tables hold nothing for the room. |
| RoomRuns.StoredExactly | src/stationchat/ChatRoomService.cpp:255-365 | Over all runs of a persistent room, a role row is stored if and only if the role was granted afresh at some step and since then has been held while a stored room had the room's number as its id and the avatar was stored; destructions of rooms and avatars in between included. |
| RoomRuns.TablesAgreeExactlyIfKeyed | src/stationchat/ChatRoom.cpp:188-297 | Over all runs, role tables and memory agree if and only if that is so for every role but the creator's. |
| RoomRuns.TablesAgreeWhileKeyIsFixed | src/stationchat/ChatRoom.cpp:188-297 | While no stored room with that id and no avatar holding a role comes or goes: if and only if there is one, or nobody but the creator holds a stored role. |
| RoomRuns.DestroyedAvatarLosesItsBan | extras/migrations/mariadb/V001__baseline.sql:65-67 | A ban is lost when the banned avatar is destroyed, although the room still bans its id. |
| RoomRuns.CascadeLosesBans | extras/migrations/mariadb/V001__baseline.sql:68-70 | A ban is lost when the stored room that keys it is destroyed, although the banned room lives on. |
| RoomRuns.FirstRoomLosesItsBans | src/stationchat/ChatRoomService.cpp:82-104 | In the first room of a fresh database a ban succeeds in memory and is not stored. |
| RoomRuns.OtherRoomsRowsUntouched | src/stationchat/ChatRoom.cpp:176-311 | An operation on one room leaves the role rows of every other number alone; only the destruction of their stored room or avatar removes them. |
| RoomsTogether.EachRoomRunsAlone | src/stationchat/ChatRoom.cpp:49-311 | In any run of many rooms over the same tables, a room that is not closed ends as its own operations and the comings and goings of stored rooms and avatars leave it. |
| RoomsTogether.StoredExactlyTogether | src/stationchat/ChatRoomService.cpp:255-365 | So in such a run its role rows are stored exactly as in a run of its own. |
| RoomRegistryRuns.RoomsStayUnique | src/stationchat/ChatRoomService.cpp:24-114 | Over any run of creating, destroying and loading in which the 32-bit number does not wrap, addresses and numbers are unique and below the next number. |
| RoomRegistryRuns.LoadedIsUnique | src/stationchat/ChatRoomService.cpp:40-77 | Loading counts one number for each matching row and gives unique addresses and numbers. |
| RoomRegistryRuns.RemovedTogether | src/stationchat/ChatRoomService.cpp:106-114 | Removing a room from memory and its row from the table comes to the same. |
| RoomRegistryRuns.TableFollowsRooms | src/stationchat/ChatRoomService.cpp:82-181 | After any run of creations and destructions between two loads, whether or not each INSERT succeeded, the whole room table holds exactly the rows of the live rooms that have one, in order. |
| RoomRegistryRuns.RecordRoundTrip | src/stationchat/ChatRoomService.cpp:41-72 | A room with narrow-safe text comes back from its row with every field as it was. |
| RoomRegistryRuns.StartsWithIsUnder | src/stationchat/ChatRoomService.cpp:30-38 | A stored address starts with the stored base if and only if the address itself starts with the base. |
| RoomRegistryRuns.LoadingSavedRows | src/stationchat/ChatRoomService.cpp:24-80 | Loading the rows of stored rooms gives those under the base, in order, renumbered. |
| RoomRegistryRuns.RoomsSurviveRestart | src/stationchat/ChatRoomService.cpp:24-181 | After any run of creations and destructions from an empty database, a load of any base address by any service rebuilds exactly the live stored rooms under it. |
| RoomRestarts.RowsUnderBaseFollowRooms | src/stationchat/ChatRoomService.cpp:24-181 | Over any run of creations, destructions, loads of one narrow-safe base address and restarts, the rows under the base are exactly those of the live stored rooms under it, in order. |
| RoomRestarts.LoadsFound | src/stationchat/ChatRoomService.cpp:24-80 | A load then brings back exactly those rooms, renumbered. |
| RoomRestarts.RoomsSurviveRestarts | src/stationchat/ChatRoomService.cpp:24-181 | After any such run from an empty database, a load by any service over its tables rebuilds exactly the live stored rooms under the base, in order, all fields as stored, under fresh unique numbers. |
| RoomRequests.RoomsFollowRequests | src/stationchat/ChatRoomService.cpp:24-181 | Over any run of creations, destructions, loads of one base address and restarts with narrow-safe text and successful INSERTs, the live rooms are those of the requests that found their address free and were not destroyed since, each with the fields of its request; every persistent one under the base is stored. |
| RoomRequests.LastingRoomsAreLoaded | src/stationchat/ChatRoomService.cpp:24-181 | After such a run a load by any service brings back exactly the live persistent rooms under the base, in order, each field as its request supplied it. |
| RoomRequests.CreationRefusedExactly | src/stationchat/ChatRoomService.cpp:88-90 | After such a run a creation is refused if and only if a live room has the address asked for, plus sign and name. |
| RoomRows.RoomsKeepTheirRows | src/stationchat/ChatRoomService.cpp:24-181 | Over any run of creations, destructions, restarts and loads of any base addresses in any order, every live stored room has its row, with every field as in memory, and no two share one. |
| RoomRows.ColumnsHoldFields | src/stationchat/ChatRoomService.cpp:116-181 | The row of a stored room holds each field under the column of its name, text narrowed. |
| RoomRows.RowsLeaveOnlyWithTheirRooms | src/stationchat/ChatRoomService.cpp:106-114 | In such a run a row leaves the table only when the live room it stands for is destroyed. |
| RoomRows.LoadFindsEveryAddress | src/stationchat/ChatRoomService.cpp:24-80 | After a load every row under the base has a live room of its address. |
| RoomsAndRows.StaysLawful | src/stationchat/ChatRoomService.cpp:82-181 | Over any run of creations, destructions, room operations and comings and goings of avatars, the room id key of the role tables holds exactly the ids in the room table, which holds exactly the live stored rooms. |
| RoomsAndRows.KeyedByStoredRoom | src/stationchat/ChatRoomService.cpp:255-365 | So role rows of room n can be stored if and only if some live room has n as its row id. |
| RoomsAndRows.KeyedByRoomBefore | src/stationchat/ChatRoomService.cpp:82-181 | From an empty database in which every new room is stored, that is room n - 1 and no other. |
| ChatRooms.ChatRoom.constructor | src/stationchat/ChatRoom.cpp:10-27 | A new room: address made of address, plus sign and name; its creator alone is administrator and moderator. |
| ChatRooms.ChatRoom.FromRow | src/stationchat/ChatRoomService.cpp:41-72 | A loaded room: fields from its row, no service, nobody in it and no roles. |
| ChatRooms.ChatRoom.IsInRoom | src/stationchat/ChatRoom.cpp:71-75 | True if and only if a member has the id. |
| ChatRooms.ChatRoom.Enter | src/stationchat/ChatRoom.cpp:49-67 | Does what the entry rule says, with its code, in this order: password, ban, presence, privacy. |
| ChatRooms.ChatRoom.Leave | src/stationchat/ChatRoom.cpp:77-84 | The member leaves; all else stays. |
| ChatRooms.ChatRoom.Kick | src/stationchat/ChatRoom.cpp:176-186 | Does what the kick rule says. |
| ChatRooms.ChatRoom.AddAdministrator | src/stationchat/ChatRoom.cpp:188-200 | Does what the rule says to list and rows; a second appointment is silent. |
| ChatRooms.ChatRoom.AddModerator | src/stationchat/ChatRoom.cpp:202-216 | Does what the rule says to list and rows; a second appointment throws. |
| ChatRooms.ChatRoom.AddBanned | src/stationchat/ChatRoom.cpp:218-232 | Does what the rule says to list and rows; the banned avatar is not evicted. |
| ChatRooms.ChatRoom.AddInvite | src/stationchat/ChatRoom.cpp:234-244 | Does what the rule says; nothing is stored. |
| ChatRooms.ChatRoom.RemoveAdministrator | src/stationchat/ChatRoom.cpp:246-261 | Does what the rule says to list and rows; removing a non-administrator is silent. |
| ChatRooms.ChatRoom.RemoveModerator | src/stationchat/ChatRoom.cpp:263-279 | Does what the rule says to list and rows; removing a non-moderator throws. |
| ChatRooms.ChatRoom.RemoveBanned | src/stationchat/ChatRoom.cpp:281-297 | Does what the rule says to list and rows. |
| ChatRooms.ChatRoom.RemoveInvite | src/stationchat/ChatRoom.cpp:299-311 | Does what the rule says. |
| ChatRooms.ChatRoom.GetConnectedAddresses | src/stationchat/ChatRoom.cpp:98-114 | Every address with a member in the room, exactly once, in order of first appearance. |
| ChatRooms.ChatRoom.GetRemoteAddresses | src/stationchat/ChatRoom.cpp:116-132 | Every such address other than the creator's, exactly once, in order of first appearance. |
| ChatRooms.ChatRoomService.RoomExists | src/stationchat/ChatRoomService.cpp:199-203 | True if and only if a live room has the address. |
| ChatRooms.ChatRoomService.GetRoom | src/stationchat/ChatRoomService.cpp:205-216 | A live room with the address, null if and only if there is none; with unique addresses, the only one. |
| ChatRooms.ChatRoomService.CreateRoom | src/stationchat/ChatRoomService.cpp:82-104 | Does what the registry says, the new room being last; the role tables' foreign key gains the new row. |
| ChatRooms.ChatRoomService.PersistNewRoom | src/stationchat/ChatRoomService.cpp:116-181 | A row with the next id, unless the database fails or name and address are taken; then the room stays without a row. |
| ChatRooms.ChatRoomService.DestroyRoom | src/stationchat/ChatRoomService.cpp:106-114 | Does what the registry says; role rows under the id of the deleted row go with it. |
| ChatRooms.ChatRoomService.LoadRoomsFromStorage | src/stationchat/ChatRoomService.cpp:24-80 | Does what the registry says; every room is new, without service and roles. |
| Serialization.PutU16 | src/stationapi/Serialization.hpp:15-19 | Two bytes, low first, read back as the value and leave what follows. |
| Serialization.PutU32 | src/stationapi/Serialization.hpp:15-19 | Four bytes, low first, read back as the value and leave what follows. |
| Serialization.PutBool | src/stationapi/Serialization.hpp:37-48 | One byte reads back as the value. |
| Serialization.PutString | src/stationapi/Serialization.hpp:52-68 | Reads back as its first (length mod 2^16) bytes and leaves exactly what follows, for every string. |
| Serialization.PutWide | src/stationapi/Serialization.hpp:72-95 | Reads back as its first (length mod 2^32) units and leaves exactly what follows, for every text. |
| Serialization.WideAgain | src/stationapi/Serialization.hpp:72-95 | Bytes that read as a text are the bytes writing that text makes. |
| Serialization.OutStream.WriteString | src/stationapi/Serialization.hpp:62-68 | Appends the wire form, whatever is written after it. |
| Serialization.OutStream.WriteWide | src/stationapi/Serialization.hpp:85-95 | The loop over code units appends the wire form. |
| Serialization.InStream.ReadString | src/stationapi/Serialization.hpp:52-60 | Gives the decoded string and moves past it, or the stream fails if and only if bytes are missing. |
| Serialization.InStream.ReadWide | src/stationapi/Serialization.hpp:72-83 | The loop over code units gives the decoded text and moves past it, or the stream fails if and only if bytes are missing. |
| Serialization.InStream.ReadU16At | src/stationapi/Serialization.hpp:106-110 | Value and exact position in every case; fails if and only if the stream had failed or the value is not there. |
| Serialization.InStream.PeekU16At | src/stationapi/Serialization.hpp:112-119 | Fails if and only if the stream had failed or does not hold the value; the exact condition under which the position is kept. |
| Serialization.PeekLosesPosition | src/stationapi/Serialization.hpp:112-119 | Peeking at the last byte of a two-byte stream leaves it failed at its end. |
| WireRecords.PutAvatar | src/stationchat/ChatAvatar.hpp:104-116 | The record decodes to its ten fields and what follows. |
| WireRecords.PutFriend | src/stationchat/ChatAvatar.hpp:119-125 | The record decodes to name, address, comment and online flag and what follows. |
| WireRecords.PutIgnored | src/stationchat/ChatAvatar.hpp:127-131 | The record decodes to name and address and what follows. |
| WireRecords.PutList | src/stationchat/ChatRoom.hpp:136-139 | A counted list of fewer than 2^32 avatars decodes to that list and what follows. |
| WireRecords.PutFields | src/stationchat/ChatRoom.hpp:122-134 | The thirteen scalar and text fields decode to themselves and what follows. |
| WireRecords.RoomRoundTrip | src/stationchat/ChatRoom.hpp:120-170 | A room followed by any bytes decodes to its fields and seven lists and leaves those bytes, if and only if each list is shorter than 2^32. |
| WireRecords.FullListIsLost | src/stationchat/ChatRoom.hpp:136-139 | A room with 2^32 members does not decode to itself. |
| WireRecords.RoomsDecodeUniquely | src/stationchat/ChatRoom.hpp:120-170 | Two rooms that fit never share a wire form, whatever follows them. |
| WireRecords.OnlyRoomsDecode | src/stationchat/ChatRoom.hpp:120-170 | Bytes the decoder accepts are exactly the wire form of what it returns. |
| WireLayout.RoomOnWire | src/stationchat/ChatRoom.hpp:120-170 | Byte by byte, without the decoder: thirteen fields, then the seven lists in this order, each behind a four-byte count. |
| WireLayout.AvatarOnWire | src/stationchat/ChatAvatar.hpp:104-116 | Byte by byte: the ten fields in this order, numbers lowest byte first, texts behind a four-byte count. |
| WireLayout.FriendOnWire | src/stationchat/ChatAvatar.hpp:119-125 | Byte by byte: name, address, comment, and sixteen bits that are 1 for online. |
| WireLayout.StringOnWire | src/stationapi/Serialization.hpp:43-68 | A byte string is its length modulo 2^16 in two bytes, lowest first, and that many bytes; a truth value is one byte. |
| WireRecords.WriteAvatar | src/stationchat/ChatAvatar.hpp:104-116 | The ten writes append the wire form. |
| WireRecords.WriteList | src/stationchat/ChatRoom.hpp:136-139 | Count and loop append the wire form of the list. |
| WireRecords.WriteRoom | src/stationchat/ChatRoom.hpp:120-170 | The thirteen writes and seven loops append the wire form of the room. |
| HexDump.Dump | src/stationapi/StreamUtils.cpp:9-59 | Appends the dump of the bytes shown, reading only below the length, and restores flags, fill and width. |
| HexDump.PrintColumns | src/stationapi/StreamUtils.cpp:34-48 | The inner loop prints the columns of a line and fills the sixteen characters, blanks past the end. |
| HexDump.DumpRoundTrip | src/stationapi/StreamUtils.cpp:25-51 | Reading the hex columns of a dump gives back every byte, once and in order. |
| HexDump.LineShows | src/stationapi/StreamUtils.cpp:25-51 | A line begins with 16 times its number in hexadecimal and ends with its characters: a byte shows as itself if and only if it lies from 0x20 to 0x7E, else as a dot, and places past the end are blank. |
| HexDump.LineCount | src/stationapi/StreamUtils.cpp:16-30 | A dump of n bytes has n / 16 + 1 lines. |
| HexDump.ShowsAllExactly | src/stationapi/StreamUtils.cpp:16-18 | The sixteen-bit counts cover the whole message if and only if it is shorter than 524288 bytes. |
| HexDump.CounterPassesExactly | src/stationapi/StreamUtils.cpp:30 | The sixteen-bit line counter passes the last line if and only if it is below 32767. |
| HexDump.DumpEndsExactly | src/stationapi/StreamUtils.cpp:17-30 | The loop over lines ends if and only if length / 16 is not 32767 modulo 2^16. |
| HexDump.FirstEndlessDump | src/stationapi/StreamUtils.cpp:17-30 | It does not end at 524272 bytes and ends for every shorter message. |
| SectionTree.LeafNumber | externals/catch/catch.hpp:5853-5870 | Every entry of the leaf list is a leaf and stands at the number of leaves before it, so none occurs twice. |
| SectionTree.LeafAtItsPlace | externals/catch/catch.hpp:5853-5870 | Every leaf is in the leaf list, at the number of leaves before it. |
| SectionTree.SameLeafSamePath | externals/catch/catch.hpp:5853-5870 | Two nodes that contain the same leaf lie on one path. |
| SectionTracker.Tracker.FindChild | externals/catch/catch.hpp:5765-5770 | The first child of that name, or null if there is none. |
| SectionTracker.Tracker.OpenChild | externals/catch/catch.hpp:5776-5782 | The tracker is executing children; only it and trackers above it may change, to that state, and no others once one of it and its parent already was. |
| SectionTracker.Tracker.Open | externals/catch/catch.hpp:5787-5792 | The tracker executes and is current; its parent is executing children. |
| SectionTracker.Tracker.Close | externals/catch/catch.hpp:5794-5823 | Completes if it executed or its last child is complete; the parent is current and the cycle complete. |
| SectionTracker.TrackerContext.Acquire | externals/catch/catch.hpp:5853-5870 | Finds or appends the child of that name and opens it unless it or the cycle is complete; nothing else changes. |
| SectionTracker.RunContext.SectionStarted | externals/catch/catch.hpp:6136-6154 | The section starts if and only if its tracker is open, which holds if and only if the leaf due in this cycle lies in it. |
| SectionTracker.RunContext.SectionEnded | externals/catch/catch.hpp:6167-6178 | The section's tracker is closed and popped; the states are those required once one more leaf has run. |
| SectionTracker.RunContext.RunBody | externals/catch/catch.hpp:6246-6293 | Started at any node, exactly the leaf due in this cycle runs. |
| SectionTracker.RunContext.RunCycle | externals/catch/catch.hpp:6088-6092 | Cycle d runs exactly leaf d; the test case completes exactly when no leaf is left. |
| SectionTracker.RunContext.RunTest | externals/catch/catch.hpp:6074-6095 | The loop ends after max(1, number of leaf sections) cycles and enters every leaf exactly once, in order. |
| Generators.NextAddsOne | externals/catch/catch.hpp:7365-7409 | moveNext adds one to the mixed-radix number of the indices and says there is no more if and only if it wraps to zero. |
| Generators.NumberIsUnique | externals/catch/catch.hpp:7401-7409 | Different index combinations have different numbers. |
| Generators.GeneratorInfo.MoveNext | externals/catch/catch.hpp:7365-7371 | One index up, or back to zero with no more. |
| Generators.GeneratorsForTest.MoveNext | externals/catch/catch.hpp:7401-7409 | The loop over generators carries as the odometer does. |
| Generators.GeneratorsForTest.RunAll | externals/catch/catch.hpp:6086-6095 | From zeros, the do-while loop runs as often as the product of the sizes, numbers in order, and ends with zeros. |
| Generators.EveryCombinationOnce | externals/catch/catch.hpp:7401-7409 | Such runs hold every index combination exactly once. |
| ResultBar.FindMax | externals/catch/catch.hpp:10022-10029 | The category chosen has the most columns, the last of them on a tie. |
| ResultBar.RatioBounds | externals/catch/catch.hpp:10018-10021 | A ratio has at most 80 columns, and none if and only if nothing is counted, even if the product wraps. |
| ResultBar.RatiosNearWidth | externals/catch/catch.hpp:10033-10035 | Unless the product overflows, the three ratios come to 78 to 81 columns. |
| ResultBar.Columns | externals/catch/catch.hpp:10033-10039 | The loops end with exactly 79 columns, no category emptied or filled wrongly, only the largest adjusted, no underflow, and after at most two steps unless the product overflows. |
| ResultBar.PrintTotalsDivider | externals/catch/catch.hpp:10031-10051 | 79 columns: failed, failed as expected and passed in this order, each in its colour, with no columns if and only if it counts nothing and otherwise less than three away from its exact share unless the product overflows; the all-passed colour if and only if everything passed. |
| LogConfiguration.PutAt | externals/easyloggingpp/easylogging++.h:2955-2962 | Changing the first match, or appending, is what the search loop followed by the update does. |
| LogConfiguration.Configurations.UnsafeSet | externals/easyloggingpp/easylogging++.h:2955-2966 | One entry changed or appended; for Global every level after it. |
| LogConfiguration.Configurations.UnsafeSetGlobally | externals/easyloggingpp/easylogging++.h:2983-2992 | The doubling loop sets the seven levels from Trace to Info. |
| LogConfiguration.Configurations.Set | externals/easyloggingpp/easylogging++.h:2684-2690 | As unsafeSet; for Global the levels are set again. |
| LogConfiguration.Configurations.SetGlobally | externals/easyloggingpp/easylogging++.h:2970-2979 | Sets Global first if asked, then each level. |
| LogConfiguration.Configurations.SetToDefault | externals/easyloggingpp/easylogging++.h:2728-2754 | Comes to a fixed run of set calls. |
| LogConfigurationMaps.LookupAfterSets | externals/easyloggingpp/easylogging++.h:2684-2690 | After any run of set the registry answers with the last setting that reaches the level, directly or through Global. |
| LogConfigurationMaps.SetsKeepUnique | externals/easyloggingpp/easylogging++.h:2955-2962 | No run registers a level and type twice. |
| LogConfigurationMaps.FirstLevelAfterSets | externals/easyloggingpp/easylogging++.h:2955-2966 | The first registered level of a type is that of the first setting of the type. |
| LogConfigurationMaps.DefaultsBeginGlobal | externals/easyloggingpp/easylogging++.h:2728-2754 | setToDefault sets Global first for each of the nine types, and only known levels. |
| LogConfigurationMaps.BuiltIsCompressed | externals/easyloggingpp/easylogging++.h:3135-3157 | While the map is built, Global holds Global's own or the first value, present levels hold their own, and absent ones equal the first or Global's. |
| LogConfigurationMaps.AgreesExactly | externals/easyloggingpp/easylogging++.h:3100-3205 | Lookup with fallback gives every registered level its own parsed value if and only if the first entry is Global, or Global is not registered, or both values are equal. |
| LogConfigurationMaps.OverwritesExactly | externals/easyloggingpp/easylogging++.h:3153-3156 | A value is never overwritten by assignment if and only if the map agrees with the registry, so never when Global comes first. |
| LogConfigurationMaps.DebugBeforeGlobalDisagrees | externals/easyloggingpp/easylogging++.h:3135-3157 | Debug set before and after Global: lookups of Debug give Global's value. |
| LogConfigurationMaps.LastSettingDecides | externals/easyloggingpp/easylogging++.h:2728-3205 | From setToDefault on, after any settings, lookup in the compressed map of a per-level type gives for every level the parsed value of the last setting that reaches it. |
| LogConfigurationMaps.LastEntryDecides | externals/easyloggingpp/easylogging++.h:3189-3195 | For the two types kept under Global, the entry registered last decides. |
| LogConfigurationMaps.OnlyInfoCounts | externals/easyloggingpp/easylogging++.h:3189-3195 | For these two, after setToDefault and any settings of known levels, the last setting that reaches Info decides. |
| LogConfigurationMaps.InfoOverridesGlobal | externals/easyloggingpp/easylogging++.h:2674-2690 | After setToDefault, setting the milliseconds width for Info alone changes it; for Debug alone it does not. |
| LogConfigurationMaps.SettingDecides | externals/easyloggingpp/easylogging++.h:3135-3157 | After setting a value the level answers with it, unless it keeps another value of its own while Global holds the one set; setting a level other than Global changes no other answer. |
| LogConfigurationMaps.TypedConfigurations.constructor | externals/easyloggingpp/easylogging++.h:3159-3205 | The loop over the registry builds all eight maps at once, each from the entries of its type, milliseconds widths clamped. |
| LogConfigurationMaps.TypedConfigurations.EnabledAsSet | externals/easyloggingpp/easylogging++.h:3028-3205 | With maps built after setToDefault and any settings, a level is enabled if and only if the last setting that reaches it reads as true; LogValues.BoolExactly says which texts do. |
| LogConfigurationMaps.TypedConfigurations.Enabled | externals/easyloggingpp/easylogging++.h:3028-3116 | The answer of the map with its fallback to Global. |
| LogValues.BoolExactly | externals/easyloggingpp/easylogging++.h:3161-3164 | Blanks around a core do not matter, and a text is true if and only if its core is TRUE, true or 1. |
| LogValues.EveryTextIsPadded | externals/easyloggingpp/easylogging++.h:1331-1347 | Every text is a core padded with blanks. |
| LogValues.ULongExactly | externals/easyloggingpp/easylogging++.h:3220-3233 | A text stands for the positional value of its core if that is a decimal, and for 0 otherwise. |
| LogValues.WidthExactly | externals/easyloggingpp/easylogging++.h:921-943 | A milliseconds width of one to six is kept, any other number counts as three. |
| LogValues.DefaultsAre | externals/easyloggingpp/easylogging++.h:2728-2754 | setToDefault leaves every level with the default value of each of the nine types. |
| LogValues.DefaultLogger | externals/easyloggingpp/easylogging++.h:2728-3205 | After setToDefault alone every level is enabled, goes to file and to standard output, in its default format; the milliseconds width is 3, performance tracking on, file size and flush threshold 0. |
| LogValues.EnabledByDefault | externals/easyloggingpp/easylogging++.h:3028-3205 | A logger built from the default settings answers true for every level. |
| LogValues.FlagExactly | externals/easyloggingpp/easylogging++.h:3028-3205 | After any further settings a level is enabled, goes to file or to standard output if and only if the core of the last setting that reaches it is one of the three words. |
| LogValues.NumbersAndFormatExactly | externals/easyloggingpp/easylogging++.h:3044-3066 | File size, flush threshold and format of a level are those of the last setting of each that reaches it. |
| LogValues.InfoDecides | externals/easyloggingpp/easylogging++.h:3189-3195 | Milliseconds width and performance tracking are those of the last setting that reaches Info. |
| WildCards.Star | externals/easyloggingpp/easylogging++.h:1316-1321 | In the language of a pattern, a star takes nothing or one more character. |
| WildCards.OneCharacter | externals/easyloggingpp/easylogging++.h:1310-1325 | Any other pattern character takes exactly one character. |
| WildCards.WildCardMatch | externals/easyloggingpp/easylogging++.h:1307-1329 | Terminates and returns true if and only if the text can be cut into one piece per pattern character, each fitting it. |
| HitCounters.HitsKeepCount | externals/easyloggingpp/easylogging++.h:3381-3386 | For n from 1 to 100000 the counter never exceeds 100000 and equals the number of calls modulo n, across resets. |
| HitCounters.HitsBeyondLimit | externals/easyloggingpp/easylogging++.h:3381-3386 | For larger n the counter sticks at 100001. |
| HitCounters.EveryNthExactly | externals/easyloggingpp/easylogging++.h:3431-3440 | The k-th call returns true exactly when n divides k, for all k, if and only if n is at most 100000. |
| HitCounters.BeyondLimitMisses | externals/easyloggingpp/easylogging++.h:3431-3440 | With n = 100001 call 100002 is written; with n = 100002 no call ever is. |
| HitCounters.LocationsAreIndependent | externals/easyloggingpp/easylogging++.h:3404-3419 | Calls at other locations never disturb the count of a location. |
| HitCounters.RegisteredHitCounters.ValidateEveryN | externals/easyloggingpp/easylogging++.h:3431-3440 | One counter per location; for one n up to 100000 a call is written if and only if n divides the number of calls at its location, whatever is called elsewhere, and for n = 0 never. |

## Left out

- UDP transport, nodes and clients, request dispatch, TLS, configuration files: plumbing around the state modelled here.
- SQL text, statement binding, transactions and collation: statements are functions on sequences of rows in insertion order, and text compares byte by byte. `LIKE` reads as "starts with", so wildcards in a base address are not modelled.
- Integer columns: ids, attributes and times are natural numbers; casts between 64-bit columns and 32-bit fields are not modelled, except the wrap of the room number. Room row ids are assumed to fit `int32_t`.
- Database failures other than a failed INSERT of a room, or of an avatar whose name and address are taken.
- Object lifetime: cached avatars and rooms are stable objects. Rooms hold ids and addresses of avatars instead of pointers, and `DestroyRoom` compares numbers with the room still alive.
- AvatarService.ChatAvatarService.DestroyAvatar: whether the database allows the DELETE (the schema refuses it for the creator of a stored room) is a parameter; its cascade over role rows is RoomRules.AvatarGone, the operation AvatarDeleted of a room's run, and that over persistent messages is not part of this model.
- AvatarService.ChatAvatarService.Run: in a run with lookups by name all names and addresses must survive narrowing, since an alias may put two objects for one id into the cache; an avatar another cached avatar lists is not destroyed.
- AvatarService.ChatAvatarService.CreateAvatar: a failed INSERT for reasons other than the unique key is not modelled. A refused INSERT leaves `lastId` as it was, whereas InnoDB may use up the auto-increment value; that new ids were never used before is all the results need.
- ChatRooms.ChatRoomService.PersistNewRoom: the same holds for the ids of room rows; RoomsAndRows.KeyedByRoomBefore has no refused INSERT.
- ChatRooms.ChatRoom.AddAdministrator: this and the other role operations ask for a service exactly where they would write to the tables; a room built by LoadRoomsFromStorage has none, and there the original would follow an unset pointer.
- RoomRequests.RoomsFollowRequests: loads of one base address; rooms outside it may be refused their row by one that an earlier load forgot.
- RoomRegistryRuns.TableFollowsRooms: without loads, because a load forgets the live rooms outside its base address while their rows stay; RoomRestarts.RowsUnderBaseFollowRooms is the statement with loads of one base address, RoomRows.RoomsKeepTheirRows that with loads of any.
- RoomRegistryRuns.RoomsSurviveRestart: without loads, so that it holds for every base address; RoomRestarts.RoomsSurviveRestarts allows loads of one base address and restarts, each followed at once by its load; RoomRows.RowsLeaveOnlyWithTheirRooms has restarts apart from loads, and any base addresses.
- RoomsAndRows.StaysLawful: runs within one process: loads and restarts are not part of them.
- AvatarService.WarmAndColdAgree: the order of the lists is that in which the database returns rows, which SQL does not promise; AvatarReload.AgreeInAnyOrder does not rely on it.
- `GetNextMessageId`: the message counter of a room is a constant.
- `RemoveAsFriendOrIgnoreFromAll`, which nothing calls, and `SetAttributes`, `PersistAvatar`: one assignment or statement each, so the attributes of an avatar stay as created or loaded.
- AvatarService.ChatAvatarService.Handle: requests name the target of a list operation by id where the handlers look it up by name; the lookup is a request of its own. Whether a destruction is carried out while another avatar has a row for the victim is left open, since it depends on what is cached.
- `GetRoomSummaries`, `GetJoinedRooms`, `GetAvatarIds`: filters over lists.
- Room capacity and moderated speech, which the code does not enforce; persistent messages.
- Avatar ids, names and addresses are constants of an avatar; friend and ignore contacts share one datatype.
- Serialization of signed integers, enumerations and other widths; reading past the end leaves the original's variables unspecified, here the value is arbitrary and the stream failed.
- HexDump.Dump: the messages on which the original does not terminate (HexDump.DumpEndsExactly); negative lengths.
- SectionTracker.RunContext.RunTest: test bodies are finite trees of sections with distinct keys among siblings whose assertions pass; failing sections, generators inside sections, aborting and reporters are not part of this model.
- SectionTracker.Tracker.Close: called for the current tracker only, so the loop that closes trackers left open below it does not run.
- Generators.GeneratorsForTest.MoveNext: generators have at least one value; registering them by file and line is left out.
- ResultBar.Columns: counts whose total does not wrap at 2^64.
- LogConfigurationMaps.TypedConfigurations.constructor: opening and rolling log files, which may turn ToFile off, and `atol` overflow; log formats are compared by level and text. After an overwriting assignment, which LogConfigurationMaps.OverwritesExactly confines to Global registered late, the original keeps a stale `m_format` (easylogging++.h, lines 2257-2263) that the model does not have.
- HitCounters.EveryNthExactly: a location always passes the same n; validateAfterN and validateNTimes.
- The rest of the two bundled headers.
