// The record layouts of src/stationchat/ChatAvatar.hpp and ChatRoom.hpp. `Put…` is the wire form,
// written by the loops of the Write methods; `Get…` is the decoder the read functions make.
module WireRecords {
  import opened StringUtils
  import opened Serialization

  datatype Avatar = Avatar(
    id: U32, userId: U32, name: Wide, address: Wide, attributes: U32, loginLocation: Wide,
    server: Wide, gateway: Wide, serverId: U32, gatewayId: U32)

  datatype Friend = Friend(name: Wide, address: Wide, comment: Wide, online: bool)

  datatype Ignored = Ignored(name: Wide, address: Wide)

  datatype RoomFields = RoomFields(
    creatorName: Wide, creatorAddress: Wide, creatorId: U32, name: Wide, topic: Wide, prefix: Wide, address: Wide,
    password: Wide, attributes: U32, maxSize: U32, roomId: U32, createTime: U32, nodeLevel: U32)

  datatype RoomLists = RoomLists(
    avatars: seq<Avatar>, administrators: seq<Avatar>, moderators: seq<Avatar>, tempModerators: seq<Avatar>,
    banned: seq<Avatar>, invited: seq<Avatar>, voice: seq<Avatar>)

  datatype Room = Room(fields: RoomFields, lists: RoomLists)

  // ----- what the wire keeps: texts clipped to 32-bit lengths -----

  function ClipAvatar(a: Avatar): Avatar {
    a.(name := Clip(a.name), address := Clip(a.address), loginLocation := Clip(a.loginLocation),
       server := Clip(a.server), gateway := Clip(a.gateway))
  }

  function ClipAvatars(list: seq<Avatar>): (c: seq<Avatar>)
    ensures |c| == |list|
  {
    seq(|list|, i requires 0 <= i < |list| => ClipAvatar(list[i]))
  }

  function ClipFields(f: RoomFields): RoomFields {
    f.(creatorName := Clip(f.creatorName), creatorAddress := Clip(f.creatorAddress), name := Clip(f.name),
       topic := Clip(f.topic), prefix := Clip(f.prefix), address := Clip(f.address), password := Clip(f.password))
  }

  function ClipLists(l: RoomLists): RoomLists {
    RoomLists(ClipAvatars(l.avatars), ClipAvatars(l.administrators), ClipAvatars(l.moderators),
        ClipAvatars(l.tempModerators),
              ClipAvatars(l.banned), ClipAvatars(l.invited), ClipAvatars(l.voice))
  }

  function ClipRoom(r: Room): Room {
    Room(ClipFields(r.fields), ClipLists(r.lists))
  }

  // ----- the decoder -----

  function GetAvatar(b: Bytes): Parse<Avatar> {
    var (id, b1) :- GetU32(b);
    var (userId, b2) :- GetU32(b1);
    var (name, b3) :- GetWide(b2);
    var (address, b4) :- GetWide(b3);
    var (attributes, b5) :- GetU32(b4);
    var (loginLocation, b6) :- GetWide(b5);
    var (server, b7) :- GetWide(b6);
    var (gateway, b8) :- GetWide(b7);
    var (serverId, b9) :- GetU32(b8);
    var (gatewayId, b10) :- GetU32(b9);
    Got(Avatar(id, userId, name, address, attributes, loginLocation, server, gateway, serverId, gatewayId), b10)
  }

  function GetAvatars(count: nat, b: Bytes): (p: Parse<seq<Avatar>>)
    ensures p.Got? ==> |p.value| == count
  {
    if count == 0 then Got([], b)
    else
      var (first, b1) :- GetAvatar(b);
      var (others, b2) :- GetAvatars(count - 1, b1);
      Got([first] + others, b2)
  }

  function GetList(b: Bytes): (p: Parse<seq<Avatar>>)
    ensures p.Got? ==> |p.value| < 0x1_0000_0000
  {
    var (count, b1) :- GetU32(b);
    GetAvatars(count, b1)
  }

  function GetFriend(b: Bytes): Parse<Friend> {
    var (name, b1) :- GetWide(b);
    var (address, b2) :- GetWide(b1);
    var (comment, b3) :- GetWide(b2);
    var (online, b4) :- GetU16(b3);
    Got(Friend(name, address, comment, online != 0), b4)
  }

  function GetIgnored(b: Bytes): Parse<Ignored> {
    var (name, b1) :- GetWide(b);
    var (address, b2) :- GetWide(b1);
    Got(Ignored(name, address), b2)
  }

  function GetFields(b: Bytes): Parse<RoomFields> {
    var (creatorName, b1) :- GetWide(b);
    var (creatorAddress, b2) :- GetWide(b1);
    var (creatorId, b3) :- GetU32(b2);
    var (name, b4) :- GetWide(b3);
    var (topic, b5) :- GetWide(b4);
    var (prefix, b6) :- GetWide(b5);
    var (address, b7) :- GetWide(b6);
    var (password, b8) :- GetWide(b7);
    var (attributes, b9) :- GetU32(b8);
    var (maxSize, b10) :- GetU32(b9);
    var (roomId, b11) :- GetU32(b10);
    var (createTime, b12) :- GetU32(b11);
    var (nodeLevel, b13) :- GetU32(b12);
    Got(RoomFields(creatorName, creatorAddress, creatorId, name, topic, prefix, address, password,
                   attributes, maxSize, roomId, createTime, nodeLevel), b13)
  }

  function GetLists(b: Bytes): Parse<RoomLists> {
    var (avatars, b1) :- GetList(b);
    var (administrators, b2) :- GetList(b1);
    var (moderators, b3) :- GetList(b2);
    var (tempModerators, b4) :- GetList(b3);
    var (banned, b5) :- GetList(b4);
    var (invited, b6) :- GetList(b5);
    var (voice, b7) :- GetList(b6);
    Got(RoomLists(avatars, administrators, moderators, tempModerators, banned, invited, voice), b7)
  }

  function GetRoom(b: Bytes): Parse<Room> {
    var (fields, b1) :- GetFields(b);
    var (lists, b2) :- GetLists(b1);
    Got(Room(fields, lists), b2)
  }

  // ----- the wire form -----

  function PutAvatar(a: Avatar, tail: Bytes): (b: Bytes)
    ensures GetAvatar(b) == Got(ClipAvatar(a), tail)
  {
    PutU32(a.id, PutU32(a.userId, PutWide(a.name, PutWide(a.address, PutU32(a.attributes, PutWide(a.loginLocation,
      PutWide(a.server, PutWide(a.gateway, PutU32(a.serverId, PutU32(a.gatewayId, tail))))))))))
  }

  function PutAvatars(list: seq<Avatar>, tail: Bytes): (b: Bytes)
    ensures GetAvatars(|list|, b) == Got(ClipAvatars(list), tail)
  {
    if list == [] then tail
    else
      assert ClipAvatars(list) == [ClipAvatar(list[0])] + ClipAvatars(list[1..]);
      PutAvatar(list[0], PutAvatars(list[1..], tail))
  }

  lemma CountedList(list: seq<Avatar>, tail: Bytes)
    ensures |list| < 0x1_0000_0000
        ==> GetList(PutU32(|list| % 0x1_0000_0000, PutAvatars(list, tail))) == Got(ClipAvatars(list), tail)
  {
    hide GetU32, PutU32, GetAvatars, PutAvatars, ClipAvatars;
  }

  function PutList(list: seq<Avatar>, tail: Bytes): (b: Bytes)
    ensures |list| < 0x1_0000_0000 ==> GetList(b) == Got(ClipAvatars(list), tail)
  {
    CountedList(list, tail);
    PutU32(|list| % 0x1_0000_0000, PutAvatars(list, tail))
  }

  function PutFriend(f: Friend, tail: Bytes): (b: Bytes)
    ensures GetFriend(b) == Got(Friend(Clip(f.name), Clip(f.address), Clip(f.comment), f.online), tail)
  {
    PutWide(f.name, PutWide(f.address, PutWide(f.comment, PutU16(if f.online then 1 else 0, tail))))
  }

  function PutIgnored(i: Ignored, tail: Bytes): (b: Bytes)
    ensures GetIgnored(b) == Got(Ignored(Clip(i.name), Clip(i.address)), tail)
  {
    PutWide(i.name, PutWide(i.address, tail))
  }

  function PutFields(f: RoomFields, tail: Bytes): (b: Bytes)
    ensures GetFields(b) == Got(ClipFields(f), tail)
  {
    PutWide(f.creatorName, PutWide(f.creatorAddress, PutU32(f.creatorId,
        PutWide(f.name, PutWide(f.topic, PutWide(f.prefix,
      PutWide(f.address, PutWide(f.password, PutU32(f.attributes,
          PutU32(f.maxSize, PutU32(f.roomId, PutU32(f.createTime,
        PutU32(f.nodeLevel, tail)))))))))))))
  }

  predicate Countable(l: RoomLists) {
    && |l.avatars| < 0x1_0000_0000 && |l.administrators| < 0x1_0000_0000 && |l.moderators| < 0x1_0000_0000
    && |l.tempModerators| < 0x1_0000_0000 && |l.banned| < 0x1_0000_0000 && |l.invited| < 0x1_0000_0000
    && |l.voice| < 0x1_0000_0000
  }

  function PutLists(l: RoomLists, tail: Bytes): (b: Bytes)
    ensures Countable(l) ==> GetLists(b) == Got(ClipLists(l), tail)
  {
    PutList(l.avatars, PutList(l.administrators, PutList(l.moderators, PutList(l.tempModerators,
      PutList(l.banned, PutList(l.invited, PutList(l.voice, tail)))))))
  }

  function PutRoom(r: Room, tail: Bytes): Bytes {
    PutFields(r.fields, PutLists(r.lists, tail))
  }

  // ----- unique decodability -----

  /** Every list a decoder returns has a length that fits its count. */
  lemma DecodedIsCountable(b: Bytes)
    ensures GetLists(b).Got? ==> Countable(GetLists(b).value)
  {
    hide GetList;
  }

  /** A room followed by anything decodes to its fields and lists, texts clipped at 2^32 units, and
      leaves exactly what followed; and this fails as soon as one list is too long for its count. */
  lemma RoomRoundTrip(r: Room, tail: Bytes)
    ensures GetRoom(PutRoom(r, tail)) == Got(ClipRoom(r), tail) <==> Countable(r.lists)
  {
    hide PutFields, GetFields, PutLists, GetLists;
    DecodedIsCountable(PutLists(r.lists, tail));
  }

  /** A room with 2^32 members is lost: its count is written as zero. */
  lemma FullListIsLost(r: Room, a: Avatar, tail: Bytes)
    ensures var full := r.(lists := r.lists.(avatars := seq(0x1_0000_0000, _ => a)));
            GetRoom(PutRoom(full, tail)) != Got(ClipRoom(full), tail)
  {
    hide PutRoom, GetRoom, ClipRoom;
    RoomRoundTrip(r.(lists := r.lists.(avatars := seq(0x1_0000_0000, _ => a))), tail);
  }

  /** No text of the room is too long for its length field. */
  ghost predicate Fits(r: Room) {
    Countable(r.lists) && ClipRoom(r) == r
  }

  /** Two rooms never share a wire form, whatever follows them. */
  lemma RoomsDecodeUniquely(r: Room, s: Room, tail: Bytes, other: Bytes)
    requires Fits(r) && Fits(s)
    requires PutRoom(r, tail) == PutRoom(s, other)
    ensures r == s && tail == other
  {
    hide PutRoom, GetRoom, ClipRoom;
    RoomRoundTrip(r, tail);
    RoomRoundTrip(s, other);
  }

  // ----- decoding is encoding backwards -----

  /** Each decoder accepts only bytes its encoder makes. */
  lemma AllAgain()
    ensures forall b {:trigger GetU32(b)} :: GetU32(b).Got? ==> PutU32(GetU32(b).value, GetU32(b).rest) == b
    ensures forall b {:trigger GetWide(b)} :: GetWide(b).Got? ==> PutWide(GetWide(b).value, GetWide(b).rest) == b
  {
    forall b {
      U32Again(b);
    }
    forall b {
      WideAgain(b);
    }
  }

  lemma AvatarAgain(b: Bytes)
    ensures GetAvatar(b).Got? ==> PutAvatar(GetAvatar(b).value, GetAvatar(b).rest) == b
  {
    hide GetU32, GetWide, PutU32, PutWide;
    AllAgain();
  }

  lemma {:induction false} AvatarsAgain(count: nat, b: Bytes)
    ensures GetAvatars(count, b).Got? ==> PutAvatars(GetAvatars(count, b).value, GetAvatars(count, b).rest) == b
  {
    hide GetAvatar, PutAvatar;
    if count > 0 && GetAvatars(count, b).Got? {
      AvatarAgain(b);
      AvatarsAgain(count - 1, GetAvatar(b).rest);
      assert GetAvatars(count, b).value[1..] == GetAvatars(count - 1, GetAvatar(b).rest).value;
    }
  }

  lemma ListAgain(b: Bytes)
    ensures GetList(b).Got? ==> PutList(GetList(b).value, GetList(b).rest) == b
  {
    hide GetU32, PutU32, GetAvatars, PutAvatars;
    U32Again(b);
    if GetU32(b).Got? {
      AvatarsAgain(GetU32(b).value, GetU32(b).rest);
    }
  }

  lemma FieldsAgain(b: Bytes)
    ensures GetFields(b).Got? ==> PutFields(GetFields(b).value, GetFields(b).rest) == b
  {
    hide GetU32, GetWide, PutU32, PutWide;
    AllAgain();
  }

  lemma ListsAgain(b: Bytes)
    ensures GetLists(b).Got? ==> PutLists(GetLists(b).value, GetLists(b).rest) == b
  {
    hide GetList, PutList;
    forall c {
      ListAgain(c);
    }
  }

  /** Bytes that decode to a room are the wire form of that room: the decoder accepts nothing else. */
  lemma OnlyRoomsDecode(b: Bytes)
    ensures GetRoom(b).Got? ==> PutRoom(GetRoom(b).value, GetRoom(b).rest) == b
  {
    hide GetFields, PutFields, GetLists, PutLists;
    FieldsAgain(b);
    if GetFields(b).Got? {
      ListsAgain(GetFields(b).rest);
    }
  }

  // ----- the writers -----

  /** ChatAvatar.hpp, lines 104-116. */
  method WriteAvatar(out: OutStream, a: Avatar)
    modifies out
    ensures forall tail :: out.data + tail == old(out.data) + PutAvatar(a, tail)
  {
    hide PutU32, PutWide;
    out.WriteU32(a.id);
    out.WriteU32(a.userId);
    out.WriteWide(a.name);
    out.WriteWide(a.address);
    out.WriteU32(a.attributes);
    out.WriteWide(a.loginLocation);
    out.WriteWide(a.server);
    out.WriteWide(a.gateway);
    out.WriteU32(a.serverId);
    out.WriteU32(a.gatewayId);
  }

  /** ChatAvatar.hpp, lines 119-125. */
  method WriteFriend(out: OutStream, f: Friend)
    modifies out
    ensures forall tail :: out.data + tail == old(out.data) + PutFriend(f, tail)
  {
    hide PutU16, PutWide;
    out.WriteWide(f.name);
    out.WriteWide(f.address);
    out.WriteWide(f.comment);
    out.WriteU16(if f.online then 1 else 0);
  }

  /** ChatAvatar.hpp, lines 127-131. */
  method WriteIgnored(out: OutStream, i: Ignored)
    modifies out
    ensures forall tail :: out.data + tail == old(out.data) + PutIgnored(i, tail)
  {
    hide PutWide;
    out.WriteWide(i.name);
    out.WriteWide(i.address);
  }

  /** One counted list, as in ChatRoom.hpp, lines 136-139. */
  method WriteList(out: OutStream, list: seq<Avatar>)
    modifies out
    ensures forall tail :: out.data + tail == old(out.data) + PutList(list, tail)
  {
    hide PutU32, PutAvatars;
    out.WriteU32(|list| % 0x1_0000_0000);
    WriteAvatars(out, list);
  }

  method WriteAvatars(out: OutStream, list: seq<Avatar>)
    modifies out
    ensures forall tail :: out.data + tail == old(out.data) + PutAvatars(list, tail)
  {
    hide PutAvatar;
    for i := 0 to |list|
      invariant forall tail :: out.data + PutAvatars(list[i..], tail) == old(out.data) + PutAvatars(list, tail)
    {
      WriteAvatar(out, list[i]);
      assert list[i..][1..] == list[i + 1..];
    }
  }

  method WriteFields(out: OutStream, f: RoomFields)
    modifies out
    ensures forall tail :: out.data + tail == old(out.data) + PutFields(f, tail)
  {
    hide PutU32, PutWide;
    out.WriteWide(f.creatorName);
    out.WriteWide(f.creatorAddress);
    out.WriteU32(f.creatorId);
    out.WriteWide(f.name);
    out.WriteWide(f.topic);
    out.WriteWide(f.prefix);
    out.WriteWide(f.address);
    out.WriteWide(f.password);
    out.WriteU32(f.attributes);
    out.WriteU32(f.maxSize);
    out.WriteU32(f.roomId);
    out.WriteU32(f.createTime);
    out.WriteU32(f.nodeLevel);
  }

  /** ChatRoom.hpp, lines 120-170. */
  method WriteRoom(out: OutStream, r: Room)
    modifies out
    ensures forall tail :: out.data + tail == old(out.data) + PutRoom(r, tail)
  {
    hide PutFields, PutList;
    WriteFields(out, r.fields);
    WriteList(out, r.lists.avatars);
    WriteList(out, r.lists.administrators);
    WriteList(out, r.lists.moderators);
    WriteList(out, r.lists.tempModerators);
    WriteList(out, r.lists.banned);
    WriteList(out, r.lists.invited);
    WriteList(out, r.lists.voice);
  }
}
