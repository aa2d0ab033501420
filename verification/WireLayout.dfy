// The records on the wire byte by byte: which field comes where, said without the decoder.
module WireLayout {
  import opened StringUtils
  import opened Serialization
  import opened WireRecords

  /** So many bytes of a number, the lowest first. */
  function Little(v: nat, width: nat): Bytes {
    if width == 0 then [] else [v % 0x100] + Little(v / 0x100, width - 1)
  }

  function Units(s: Wide): Bytes {
    if s == [] then [] else Little(s[0], 2) + Units(s[1..])
  }

  /** A record written field by field: a number in so many bytes, or a text, and the rest of the record. */
  datatype Layout = End | Number(value: nat, width: nat, rest: Layout) | Text(text: Wide, rest: Layout)

  /** The bytes of a record, and what follows them. A text is the number of its units modulo 2^32 in four bytes, and
      that many units of two bytes. */
  function Wire(l: Layout, tail: Bytes): Bytes {
    match l
    case End => tail
    case Number(v, width, rest) => Little(v, width) + Wire(rest, tail)
    case Text(s, rest) => TextBytes(s) + Wire(rest, tail)
  }

  function TextBytes(s: Wide): Bytes {
    Little(|s| % 0x1_0000_0000, 4) + Units(s[..|s| % 0x1_0000_0000])
  }

  function AvatarThen(a: Avatar, rest: Layout): Layout {
    Number(a.id, 4, Number(a.userId, 4, Text(a.name, Text(a.address, Number(a.attributes, 4, Text(a.loginLocation,
      Text(a.server, Text(a.gateway, Number(a.serverId, 4, Number(a.gatewayId, 4, rest))))))))))
  }

  function EachThen(list: seq<Avatar>, rest: Layout): Layout {
    if list == [] then rest else AvatarThen(list[0], EachThen(list[1..], rest))
  }

  function ListThen(list: seq<Avatar>, rest: Layout): Layout {
    Number(|list| % 0x1_0000_0000, 4, EachThen(list, rest))
  }

  function FieldsThen(f: RoomFields, rest: Layout): Layout {
    Text(f.creatorName, Text(f.creatorAddress, Number(f.creatorId, 4,
      Text(f.name, Text(f.topic, Text(f.prefix, Text(f.address, Text(f.password,
        Number(f.attributes, 4, Number(f.maxSize, 4, Number(f.roomId, 4, Number(f.createTime, 4,
          Number(f.nodeLevel, 4, rest)))))))))))))
  }

  function RoomLayout(r: Room): Layout {
    var l := r.lists;
    FieldsThen(r.fields,
      ListThen(l.avatars, ListThen(l.administrators, ListThen(l.moderators, ListThen(l.tempModerators,
        ListThen(l.banned, ListThen(l.invited, ListThen(l.voice, End))))))))
  }

  // ----- the pieces -----

  lemma LittleOfTwo(v: U16)
    ensures Little(v, 2) == U16Bytes(v)
  {
    assert Little(v / 0x100, 1) == [v / 0x100] + Little(v / 0x100 / 0x100, 0);
  }

  lemma LittleOfFour(v: U32)
    ensures Little(v, 4) == U32Bytes(v)
  {
    var w := v / 0x1_0000;
    LittleOfTwo(v % 0x1_0000);
    LittleOfTwo(w);
    assert v / 0x100 / 0x100 == w;
    assert Little(v, 4) == [v % 0x100] + Little(v / 0x100, 3);
    assert Little(v / 0x100, 3) == [v / 0x100 % 0x100] + Little(w, 2);
    assert v % 0x1_0000 / 0x100 == v / 0x100 % 0x100 && v % 0x1_0000 % 0x100 == v % 0x100;
  }

  lemma {:induction false} UnitsOfBoth(s: Wide, t: Wide)
    ensures Units(s + t) == Units(s) + Units(t)
  {
    if s == [] {
      assert s + t == t;
    } else {
      assert (s + t)[1..] == s[1..] + t;
      UnitsOfBoth(s[1..], t);
    }
  }

  lemma {:induction false} UnitsAreBytes(s: Wide)
    ensures Units(s) == BytesOf(s)
  {
    if s != [] {
      var front, last := s[..|s| - 1], s[|s| - 1];
      UnitsAreBytes(front);
      UnitsOfBoth(front, [last]);
      LittleOfTwo(last);
      assert s == front + [last] && [last][1..] == [] && Units([last]) == Little(last, 2) + Units([]);
    }
  }

  lemma BeforeNumber(v: U32, after: Layout, tail: Bytes) returns (l: Layout)
    ensures l == Number(v, 4, after) && Wire(l, tail) == PutU32(v, Wire(after, tail))
  {
    hide Little;
    LittleOfFour(v);
    l := Number(v, 4, after);
  }

  lemma PutWideBytes(s: Wide, tail: Bytes)
    ensures PutWide(s, tail) == U32Bytes(|s| % 0x1_0000_0000) + (BytesOf(Clip(s)) + tail)
  {
    hide U32Bytes, BytesOf;
  }

  lemma BeforeText(s: Wide, after: Layout, tail: Bytes) returns (l: Layout)
    ensures l == Text(s, after) && Wire(l, tail) == PutWide(s, Wire(after, tail))
  {
    hide Little, Units, PutWide, U32Bytes, BytesOf;
    LittleOfFour(|s| % 0x1_0000_0000);
    UnitsAreBytes(Clip(s));
    PutWideBytes(s, Wire(after, tail));
    l := Text(s, after);
  }

  // ----- the records -----

  /** An avatar on the wire: its ten fields in this order. */
  lemma AvatarOnWire(a: Avatar, rest: Layout, tail: Bytes)
    ensures PutAvatar(a, Wire(rest, tail)) == Wire(AvatarThen(a, rest), tail)
  {
    hide Wire, PutU32, PutWide, GetU32, GetWide, GetAvatar;
    var l := BeforeNumber(a.gatewayId, rest, tail);
    l := BeforeNumber(a.serverId, l, tail);
    l := BeforeText(a.gateway, l, tail);
    l := BeforeText(a.server, l, tail);
    l := BeforeText(a.loginLocation, l, tail);
    l := BeforeNumber(a.attributes, l, tail);
    l := BeforeText(a.address, l, tail);
    l := BeforeText(a.name, l, tail);
    l := BeforeNumber(a.userId, l, tail);
    l := BeforeNumber(a.id, l, tail);
  }

  lemma {:induction false} EachOnWire(list: seq<Avatar>, rest: Layout, tail: Bytes)
    ensures PutAvatars(list, Wire(rest, tail)) == Wire(EachThen(list, rest), tail)
  {
    if list != [] {
      hide Wire, PutAvatar, AvatarThen;
      EachOnWire(list[1..], rest, tail);
      AvatarOnWire(list[0], EachThen(list[1..], rest), tail);
    }
  }

  lemma ListOnWire(list: seq<Avatar>, rest: Layout, tail: Bytes)
    ensures PutList(list, Wire(rest, tail)) == Wire(ListThen(list, rest), tail)
  {
    hide Wire, PutU32, PutAvatars, EachThen;
    EachOnWire(list, rest, tail);
    var _ := BeforeNumber(|list| % 0x1_0000_0000, EachThen(list, rest), tail);
  }

  lemma FieldsOnWire(f: RoomFields, rest: Layout, tail: Bytes)
    ensures PutFields(f, Wire(rest, tail)) == Wire(FieldsThen(f, rest), tail)
  {
    hide Wire, PutU32, PutWide, GetU32, GetWide, GetFields;
    var l := BeforeNumber(f.nodeLevel, rest, tail);
    l := BeforeNumber(f.createTime, l, tail);
    l := BeforeNumber(f.roomId, l, tail);
    l := BeforeNumber(f.maxSize, l, tail);
    l := BeforeNumber(f.attributes, l, tail);
    l := BeforeText(f.password, l, tail);
    l := BeforeText(f.address, l, tail);
    l := BeforeText(f.prefix, l, tail);
    l := BeforeText(f.topic, l, tail);
    l := BeforeText(f.name, l, tail);
    l := BeforeNumber(f.creatorId, l, tail);
    l := BeforeText(f.creatorAddress, l, tail);
    l := BeforeText(f.creatorName, l, tail);
  }

  lemma ListsOnWire(l: RoomLists, tail: Bytes) returns (rest: Layout)
    ensures rest == ListThen(l.avatars, ListThen(l.administrators, ListThen(l.moderators, ListThen(l.tempModerators,
        ListThen(l.banned, ListThen(l.invited, ListThen(l.voice, End)))))))
    ensures PutLists(l, tail) == Wire(rest, tail)
  {
    assert Wire(End, tail) == tail;
    hide Wire, PutList, ListThen;
    rest := OneList(l.voice, End, tail);
    rest := OneList(l.invited, rest, tail);
    rest := OneList(l.banned, rest, tail);
    rest := OneList(l.tempModerators, rest, tail);
    rest := OneList(l.moderators, rest, tail);
    rest := OneList(l.administrators, rest, tail);
    rest := OneList(l.avatars, rest, tail);
  }

  lemma OneList(list: seq<Avatar>, after: Layout, tail: Bytes) returns (rest: Layout)
    ensures rest == ListThen(list, after) && PutList(list, Wire(after, tail)) == Wire(rest, tail)
  {
    rest := ListThen(list, after);
    ListOnWire(list, after, tail);
  }

  /** A room on the wire: thirteen fields, then the members, administrators, moderators, temporary moderators, banned,
      invited and voiced avatars, each list behind its count. */
  lemma RoomOnWire(r: Room, tail: Bytes)
    ensures PutRoom(r, tail) == Wire(RoomLayout(r), tail)
  {
    hide Wire, PutFields, PutLists, FieldsThen, ListThen;
    var rest := ListsOnWire(r.lists, tail);
    FieldsOnWire(r.fields, rest, tail);
  }

  /** Friend records: three texts, and sixteen bits that are 1 for online. */
  lemma FriendOnWire(f: Friend, tail: Bytes)
    ensures PutFriend(f, tail)
         == Wire(Text(f.name, Text(f.address, Text(f.comment, Number(if f.online then 1 else 0, 2, End)))), tail)
  {
    var flag := Number(if f.online then 1 else 0, 2, End);
    LittleOfTwo(if f.online then 1 else 0);
    assert Wire(flag, tail) == PutU16(if f.online then 1 else 0, tail);
    hide Wire, PutU16, PutWide, GetU16, GetWide, GetFriend;
    var l := BeforeText(f.comment, flag, tail);
    l := BeforeText(f.address, l, tail);
    l := BeforeText(f.name, l, tail);
  }

  lemma IgnoredOnWire(i: Ignored, tail: Bytes)
    ensures PutIgnored(i, tail) == Wire(Text(i.name, Text(i.address, End)), tail)
  {
    assert Wire(End, tail) == tail;
    hide Wire, PutWide, GetWide, GetIgnored;
    var l := BeforeText(i.address, End, tail);
    l := BeforeText(i.name, l, tail);
  }

  /** Any byte but zero reads as true. */
  lemma FlagsRead(v: Byte, tail: Bytes)
    ensures GetBool([v] + tail) == Got(v >= 1, tail)
  {
    assert ([v] + tail)[1..] == tail;
  }

  /** A byte string: its length modulo 2^16 in two bytes, and that many bytes. A truth value is one byte. */
  lemma StringOnWire(s: Narrow, v: bool, tail: Bytes)
    ensures PutString(s, tail) == Little(|s| % 0x1_0000, 2) + (s[..|s| % 0x1_0000] + tail)
    ensures PutBool(v, tail) == [if v then 1 else 0] + tail
  {
    hide Little;
    LittleOfTwo(|s| % 0x1_0000);
  }
}
