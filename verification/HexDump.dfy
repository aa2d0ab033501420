// src/stationapi/StreamUtils.cpp, lines 9-59: the hex dump of a network message.
module HexDump {
  import opened StringUtils

  // ----- what a formatted stream prints -----

  datatype Flags = Flags(hex: bool, uppercase: bool, left: bool)

  function Digit(d: nat, uppercase: bool): char
    requires d < 16
  {
    if d < 10 then '0' + d as char else (if uppercase then 'A' else 'a') + (d - 10) as char
  }

  function Digits(n: nat, base: nat, uppercase: bool): (s: string)
    requires 2 <= base <= 16
    ensures s != ""
  {
    (if n < base then "" else Digits(n / base, base, uppercase)) + [Digit(n % base, uppercase)]
  }

  function Fill(n: nat, c: char): (s: string)
    ensures |s| == n && forall i :: 0 <= i < n ==> s[i] == c
  {
    seq(n, _ => c)
  }

  function Pad(s: string, width: nat, fill: char, left: bool): (p: string)
    ensures |p| == if |s| < width then width else |s|
  {
    if |s| >= width then s else if left then s + Fill(width - |s|, fill) else Fill(width - |s|, fill) + s
  }

  class OStream {
    var text: string
    var flags: Flags
    var fill: char
    var width: nat

    method PrintText(s: string)
      modifies this
      ensures text == old(text) + Pad(s, old(width), old(fill), old(flags).left)
      ensures width == 0 && flags == old(flags) && fill == old(fill)
    {
      text, width := text + Pad(s, width, fill, flags.left), 0;
    }

    method PrintNumber(n: nat)
      modifies this
      ensures text == old(text) + Pad(Digits(n, if old(flags).hex then 16 else 10, old(flags).uppercase), old(width),
          old(fill), old(flags).left)
      ensures width == 0 && flags == old(flags) && fill == old(fill)
    {
      PrintText(Digits(n, if flags.hex then 16 else 10, flags.uppercase));
    }
  }

  // ----- the layout of a dump -----

  /** A value kept in sixteen bits. */
  function Int16(v: int): int {
    var m := v % 0x1_0000;
    if m < 0x8000 then m else m - 0x1_0000
  }

  function HexByte(c: Byte): (s: string)
    ensures |s| == 2
  {
    [Digit(c / 16, false), Digit(c % 16, false)]
  }

  function Address(n: nat): string {
    Pad(Digits(n, 16, false), 4, '0', false)
  }

  function Printable(c: Byte): char {
    if c < 0x20 || c > 0x7E then '.' else c as char
  }

  /** The column of byte `n`, blank past the end. */
  function Cell(b: seq<Byte>, n: nat): string {
    if n < |b| then HexByte(b[n]) + " " else "   "
  }

  /** The first `n` columns of a line that shows `b`; columns past its end are blank. */
  function Columns(b: seq<Byte>, n: nat): (s: string)
    ensures |s| == 3 * n
  {
    if n == 0 then "" else Columns(b, n - 1) + Cell(b, n - 1)
  }

  function Characters(b: seq<Byte>, n: nat): (s: string)
    ensures |s| == n
  {
    if n == 0 then "" else Characters(b, n - 1) + [if n - 1 < |b| then Printable(b[n - 1]) else ' ']
  }

  function Line(i: nat, b: seq<Byte>): string {
    Address(16 * i) + ":   " + Columns(b, 16) + "  " + Characters(b, 16) + "\n"
  }

  /** The bytes of line `i`. */
  function Chunk(d: seq<Byte>, i: nat): seq<Byte>
    requires i <= |d| / 16
  {
    if i < |d| / 16 then d[16 * i..16 * i + 16] else d[16 * i..]
  }

  /** Lines `i` to the last; the last holds the bytes left over, and may be blank. */
  function DumpFrom(d: seq<Byte>, i: nat): string
    decreases |d| / 16 + 1 - i
  {
    if i > |d| / 16 then "" else Line(i, Chunk(d, i)) + DumpFrom(d, i + 1)
  }

  // ----- reading a dump back -----

  function HexValue(c: char): (v: nat)
    ensures v < 16
  {
    if '0' <= c <= '9' then (c - '0') as nat else if 'a' <= c <= 'f' then (c - 'a') as nat + 10 else 0
  }

  function ReadColumns(s: string): seq<Byte> {
    if |s| < 3 || s[0] == ' ' then [] else [16 * HexValue(s[0]) + HexValue(s[1])] + ReadColumns(s[3..])
  }

  /** Skips the address of each line and reads its sixteen columns. */
  function ReadDump(s: string): seq<Byte> {
    if s == "" then []
    else if s[0] != ':' then ReadDump(s[1..])
    else if |s| < 71 then []
    else ReadColumns(s[4..52]) + ReadDump(s[71..])
  }

  lemma DigitValue(d: nat)
    requires d < 16
    ensures HexValue(Digit(d, false)) == d && Digit(d, false) != ' ' && Digit(d, false) != ':'
  {
  }

  lemma HexByteValue(c: Byte)
    ensures 16 * HexValue(HexByte(c)[0]) + HexValue(HexByte(c)[1]) == c && HexByte(c)[0] != ' '
  {
    DigitValue(c / 16);
    DigitValue(c % 16);
  }

  lemma CellReadsBack(b: seq<Byte>, n: nat, tail: string)
    ensures ReadColumns(Cell(b, n) + tail) == if n < |b| then [b[n]] + ReadColumns(tail) else []
  {
    if n < |b| {
      HexByteValue(b[n]);
      assert (Cell(b, n) + tail)[3..] == tail;
    }
  }

  lemma LastColumnApart(b: seq<Byte>, n: nat, tail: string)
    ensures Columns(b, n + 1) + tail == Columns(b, n) + (Cell(b, n) + tail)
  {
  }

  lemma OneMoreByte(b: seq<Byte>, n: nat, rest: seq<Byte>)
    requires n < |b|
    ensures b[..n] + ([b[n]] + rest) == b[..n + 1] + rest
  {
  }

  /** The columns of a line read back as its bytes, whatever follows the first blank column. */
  lemma {:induction false} ColumnsReadBack(b: seq<Byte>, n: nat, tail: string)
    ensures ReadColumns(Columns(b, n) + tail) == if n <= |b| then b[..n] + ReadColumns(tail) else b
  {
    hide ReadColumns, Cell;
    if n == 0 {
      assert Columns(b, 0) + tail == tail;
      assert b[..0] + ReadColumns(tail) == ReadColumns(tail);
    } else {
      hide Columns;
      LastColumnApart(b, n - 1, tail);
      ColumnsReadBack(b, n - 1, Cell(b, n - 1) + tail);
      CellReadsBack(b, n - 1, tail);
      if n <= |b| {
        OneMoreByte(b, n - 1, ReadColumns(tail));
      } else if n == |b| + 1 {
        assert b[..n - 1] + [] == b;
      }
    }
  }

  ghost predicate NoColon(s: string) {
    forall i :: 0 <= i < |s| ==> s[i] != ':'
  }

  lemma {:induction false} DigitsHaveNoColon(n: nat)
    ensures NoColon(Digits(n, 16, false))
  {
    if n >= 16 {
      DigitsHaveNoColon(n / 16);
    }
    DigitValue(n % 16);
  }

  lemma {:induction false} AddressIsSkipped(address: string, s: string)
    requires NoColon(address)
    ensures ReadDump(address + s) == ReadDump(s)
  {
    if address == "" {
      assert "" + s == s;
    } else {
      assert (address + s)[1..] == address[1..] + s;
      AddressIsSkipped(address[1..], s);
    }
  }

  lemma ReadingOneLine(columns: string, characters: string, rest: string)
    requires |columns| == 48 && |characters| == 16
    ensures ReadDump(":   " + columns + "  " + characters + "\n" + rest) == ReadColumns(columns) + ReadDump(rest)
  {
    hide ReadColumns;
    var line := ":   " + columns + "  " + characters + "\n";
    assert (line + rest)[4..52] == columns && (line + rest)[71..] == rest;
  }

  lemma LineReadsBack(i: nat, b: seq<Byte>, rest: string)
    requires |b| <= 16
    ensures ReadDump(Line(i, b) + rest) == b + ReadDump(rest)
  {
    hide ReadDump, ReadColumns, Columns, Characters, Address;
    var columns, characters := Columns(b, 16), Characters(b, 16);
    var line := ":   " + columns + "  " + characters + "\n";
    AddressHasNoColon(i);
    AddressIsSkipped(Address(16 * i), line + rest);
    assert Line(i, b) + rest == Address(16 * i) + (line + rest);
    ReadingOneLine(columns, characters, rest);
    ColumnsAlone(b);
  }

  lemma AddressHasNoColon(i: nat)
    ensures NoColon(Address(16 * i))
  {
    DigitsHaveNoColon(16 * i);
  }

  lemma ColumnsAlone(b: seq<Byte>)
    requires |b| <= 16
    ensures ReadColumns(Columns(b, 16)) == b
  {
    hide Columns;
    ColumnsReadBack(b, 16, "");
    assert Columns(b, 16) + "" == Columns(b, 16);
    assert b[..|b|] + [] == b;
  }

  lemma ChunkThenRest(d: seq<Byte>, i: nat)
    requires i <= |d| / 16
    ensures |Chunk(d, i)| <= 16
    ensures d[16 * i..] == Chunk(d, i) + if i < |d| / 16 then d[16 * (i + 1)..] else []
  {
  }

  /** Every line of a dump reads back as its bytes, in order. */
  lemma {:induction false} DumpReadsBack(d: seq<Byte>, i: nat)
    requires i <= |d| / 16
    ensures ReadDump(DumpFrom(d, i)) == d[16 * i..]
    decreases |d| / 16 - i
  {
    hide Line, Chunk;
    ChunkThenRest(d, i);
    LineReadsBack(i, Chunk(d, i), DumpFrom(d, i + 1));
    if i < |d| / 16 {
      hide ReadDump;
      DumpReadsBack(d, i + 1);
    }
  }

  /** Reading the hex columns of a dump gives back every byte once, in order. */
  lemma DumpRoundTrip(d: seq<Byte>)
    ensures ReadDump(DumpFrom(d, 0)) == d
  {
    DumpReadsBack(d, 0);
  }

  // ----- reading addresses and characters -----

  /** The number that hexadecimal digits spell. */
  function HexNumber(s: string): nat {
    if s == "" then 0 else 16 * HexNumber(s[..|s| - 1]) + HexValue(s[|s| - 1])
  }

  lemma {:induction false} DigitsReadBack(n: nat)
    ensures HexNumber(Digits(n, 16, false)) == n
  {
    DigitValue(n % 16);
    var digits := Digits(n, 16, false);
    if n < 16 {
      assert digits[..|digits| - 1] == "";
    } else {
      DigitsReadBack(n / 16);
      assert digits[..|digits| - 1] == Digits(n / 16, 16, false);
    }
  }

  lemma {:induction false} LeadingZeros(zeros: string, s: string)
    requires forall i :: 0 <= i < |zeros| ==> zeros[i] == '0'
    ensures HexNumber(zeros + s) == HexNumber(s)
  {
    var t := zeros + s;
    if s != "" {
      LeadingZeros(zeros, s[..|s| - 1]);
      assert t[..|t| - 1] == zeros + s[..|s| - 1];
    } else if zeros != "" {
      LeadingZeros(zeros[..|zeros| - 1], s);
      assert t[..|t| - 1] == zeros[..|zeros| - 1] + s;
      assert HexValue('0') == 0;
    } else {
      assert t == s;
    }
  }

  lemma AddressReadsBack(n: nat)
    ensures HexNumber(Address(n)) == n && |Address(n)| >= 4
  {
    var digits := Digits(n, 16, false);
    DigitsReadBack(n);
    var zeros := Address(n)[..|Address(n)| - |digits|];
    assert Address(n) == zeros + digits;
    LeadingZeros(zeros, digits);
  }

  /** A byte from 0x20 to 0x7E shows as itself, any other as a dot; a place past the end is blank. */
  lemma {:induction false} CharactersShow(b: seq<Byte>, n: nat)
    ensures forall j :: 0 <= j < n ==>
      Characters(b, n)[j]
        == if j >= |b| then ' ' else if 0x20 <= b[j] <= 0x7E then b[j] as char else '.'
  {
    if n > 0 {
      CharactersShow(b, n - 1);
    }
  }

  /** Line `i` begins with 16 times its number in hexadecimal and ends with the characters of its bytes. */
  lemma LineShows(i: nat, b: seq<Byte>)
    ensures var line := Line(i, b);
            && |line| >= 75 && HexNumber(line[..|line| - 71]) == 16 * i && line[|line| - 1] == '\n'
            && forall j :: 0 <= j < 16 ==>
              line[|line| - 17 + j]
                == if j >= |b| then ' ' else if 0x20 <= b[j] <= 0x7E then b[j] as char else '.'
  {
    hide Address, Columns, Characters, HexNumber;
    var line, address, shown := Line(i, b), Address(16 * i), Characters(b, 16);
    AddressReadsBack(16 * i);
    CharactersShow(b, 16);
    assert line[..|line| - 71] == address;
    forall j | 0 <= j < 16 ensures line[|line| - 17 + j] == shown[j] {
    }
  }

  function NewLines(s: string): nat {
    if s == "" then 0 else NewLines(s[1..]) + if s[0] == '\n' then 1 else 0
  }

  lemma {:induction false} NewLinesAdd(s: string, t: string)
    ensures NewLines(s + t) == NewLines(s) + NewLines(t)
  {
    if s == "" {
      assert s + t == t;
    } else {
      assert (s + t)[1..] == s[1..] + t;
      NewLinesAdd(s[1..], t);
    }
  }

  lemma {:induction false} NoNewLines(s: string)
    requires forall i :: 0 <= i < |s| ==> s[i] != '\n'
    ensures NewLines(s) == 0
  {
    if s != "" {
      NoNewLines(s[1..]);
    }
  }

  lemma {:induction false} DigitsArePlain(n: nat)
    ensures forall i :: 0 <= i < |Digits(n, 16, false)| ==> Digits(n, 16, false)[i] != '\n'
  {
    if n >= 16 {
      DigitsArePlain(n / 16);
    }
  }

  lemma {:induction false} ColumnsArePlain(b: seq<Byte>, n: nat)
    ensures forall i :: 0 <= i < |Columns(b, n)| ==> Columns(b, n)[i] != '\n'
    ensures forall i :: 0 <= i < |Characters(b, n)| ==> Characters(b, n)[i] != '\n'
  {
    if n > 0 {
      ColumnsArePlain(b, n - 1);
    }
  }

  lemma OneNewLine(i: nat, b: seq<Byte>)
    ensures NewLines(Line(i, b)) == 1
  {
    hide NewLines, Columns, Characters;
    var line := Address(16 * i) + ":   " + Columns(b, 16) + "  " + Characters(b, 16);
    AddressIsPlain(i);
    ColumnsArePlain(b, 16);
    NoNewLines(line);
    NewLinesAdd(line, "\n");
    NewLineItself();
  }

  lemma AddressIsPlain(i: nat)
    ensures forall k :: 0 <= k < |Address(16 * i)| ==> Address(16 * i)[k] != '\n'
  {
    DigitsArePlain(16 * i);
  }

  lemma NewLineItself()
    ensures NewLines("\n") == 1
  {
  }

  /** A dump has one line for every sixteen bytes, and one for what is left over. */
  lemma {:induction false} LineCount(d: seq<Byte>, i: nat)
    requires i <= |d| / 16 + 1
    ensures NewLines(DumpFrom(d, i)) == |d| / 16 + 1 - i
    decreases |d| / 16 + 1 - i
  {
    if i <= |d| / 16 {
      hide Line, NewLines, Chunk;
      OneNewLine(i, Chunk(d, i));
      NewLinesAdd(Line(i, Chunk(d, i)), DumpFrom(d, i + 1));
      LineCount(d, i + 1);
    }
  }

  // ----- the dump -----

  /** The line counter has sixteen bits: how many bytes of a message of this length are shown. */
  function Shown(length: nat): int {
    16 * Int16(length / 16) + length % 16
  }

  /** All of them exactly while the number of lines fits. */
  lemma ShowsAllExactly(length: nat)
    requires length < 0x8000_0000
    ensures Shown(length) == length <==> length < 0x8_0000
    ensures Shown(length) <= length
  {
  }

  /** The line counter after so many increments. */
  function Counter(increments: nat): int {
    if increments == 0 then 0 else Int16(Counter(increments - 1) + 1)
  }

  /** The counter never exceeds the largest sixteen-bit value, and reaches every value up to it. */
  lemma {:induction false} CounterRange(n: nat)
    ensures Counter(n) <= 0x7FFF
    ensures n <= 0x7FFF ==> Counter(n) == n
  {
    if n > 0 {
      CounterRange(n - 1);
    }
  }

  /** The counter passes the last line at some point. */
  ghost predicate Passes(lines: int) {
    exists n :: Counter(n) > lines
  }

  /** The loop over lines ends, its counter passing the last line, exactly below 32767 full lines. */
  lemma CounterPassesExactly(lines: int)
    requires lines <= 0x7FFF
    ensures Passes(lines) <==> lines < 0x7FFF
  {
    if lines < 0x7FFF {
      var n := if lines < 0 then 0 else lines + 1;
      CounterRange(n);
      assert Counter(n) > lines;
    }
    if n :| Counter(n) > lines {
      CounterRange(n);
    }
  }

  /** In terms of the message: it is dumped in finite time unless its line count is 32767 modulo 2^16. */
  lemma DumpEndsExactly(length: nat)
    ensures Passes(Int16(length / 16)) <==> length / 16 % 0x1_0000 != 0x7FFF
  {
    CounterPassesExactly(Int16(length / 16));
  }

  /** The shortest message on which the loop does not end. */
  lemma FirstEndlessDump(length: nat)
    ensures !Passes(Int16(524272 / 16))
    ensures length < 524272 ==> Passes(Int16(length / 16))
  {
    DumpEndsExactly(524272);
    DumpEndsExactly(length);
  }

  /** Lines 9-59. By DumpEndsExactly the messages left out are those on which the loop does not end. */
  method Dump(os: OStream, data: seq<Byte>)
    requires |data| < 0x8000_0000 && Int16(|data| / 16) != 0x7FFF
    modifies os
    ensures os.flags == old(os.flags) && os.fill == old(os.fill) && os.width == old(os.width)
    ensures Shown(|data|) <= |data|
    ensures os.text == old(os.text) + if data == [] || Int16(|data| / 16) < 0 then ""
        else DumpFrom(data[..Shown(|data|)], 0)
  {
    hide DumpFrom;
    var length := |data|;
    ShowsAllExactly(length);
    if length == 0 {
      return;
    }
    var lines, extra := Int16(length / 16), Int16(length % 16);
    var flags, fill, width := os.flags, os.fill, os.width;
    os.flags, os.fill, os.width := Flags(true, false, false), '0', 2;
    if lines >= 0 {
      DumpLines(os, data, lines, extra);
    }
    os.flags, os.fill, os.width := flags, fill, width;
  }

  /** Lines 28-51; with a negative number of lines the loop is not entered. */
  method DumpLines(os: OStream, data: seq<Byte>, lines: nat, extra: nat)
    requires lines < 0x7FFF && extra < 16 && 16 * lines + extra <= |data|
    requires os.flags == Flags(true, false, false) && os.fill == '0'
    modifies os
    ensures os.text == old(os.text) + DumpFrom(data[..16 * lines + extra], 0)
  {
    hide Line, DumpFrom, Chunk;
    ghost var shown := data[..16 * lines + extra];
    assert |shown| / 16 == lines;
    var ascii := new char[17](_ => 0 as char);
    var i := 0;
    while i <= lines
      invariant 0 <= i <= lines + 1
      invariant os.flags == Flags(true, false, false) && os.fill == '0'
      invariant ascii.Length == 17 && fresh(ascii) && ascii[16] == 0 as char
      invariant old(os.text) + DumpFrom(shown, 0) == os.text + DumpFrom(shown, i)
      decreases lines - i
    {
      OneMoreLine(shown, i);
      DumpLine(os, data, shown, ascii, i, lines, extra);
      i := Int16(i + 1);
    }
    NoMoreLines(shown);
  }

  /** Lines 30-51: one line. */
  method DumpLine(os: OStream, data: seq<Byte>, ghost shown: seq<Byte>, ascii: array<char>, i: nat, lines: nat,
      extra: nat)
    requires i <= lines < 0x7FFF && extra < 16 && 16 * lines + extra <= |data| && shown == data[..16 * lines + extra]
    requires os.flags == Flags(true, false, false) && os.fill == '0'
    requires ascii.Length == 17 && ascii[16] == 0 as char
    modifies os, ascii
    ensures os.flags == Flags(true, false, false) && os.fill == '0' && ascii[16] == 0 as char
    ensures os.text == old(os.text) + Line(i, Chunk(shown, i))
  {
    hide Digits, Columns, Characters, Pad;
    NoPadding();
    os.width := 4;
    os.PrintNumber(i * 16);
    os.PrintText(":   ");
    PrintColumns(os, data, Chunk(shown, i), ascii, i, lines, extra);
    os.PrintText("  ");
    os.PrintText(ascii[..16]);
    os.PrintText("\n");
  }

  /** Lines 34-48. */
  method PrintColumns(os: OStream, data: seq<Byte>, ghost b: seq<Byte>, ascii: array<char>, i: nat, lines: nat,
      extra: nat)
    requires i <= lines && extra < 16 && 16 * lines + extra <= |data|
    requires b == Chunk(data[..16 * lines + extra], i)
    requires os.flags == Flags(true, false, false) && os.fill == '0' && os.width == 0
    requires ascii.Length == 17 && ascii[16] == 0 as char
    modifies os, ascii
    ensures os.flags == old(os.flags) && os.fill == '0' && os.width == 0 && ascii[16] == 0 as char
    ensures os.text == old(os.text) + Columns(b, 16) && ascii[..16] == Characters(b, 16)
  {
    hide Digits, Columns, Characters, Pad;
    NoColumns(b);
    var j := 0;
    while j < 16
      invariant 0 <= j <= 16
      invariant os.flags == old(os.flags) && os.fill == '0' && os.width == 0
      invariant os.text == old(os.text) + Columns(b, j)
      invariant ascii[..j] == Characters(b, j) && ascii[16] == 0 as char
    {
      OneMoreColumn(b, j);
      if i == lines && j >= extra {
        PrintBlank(os);
        ascii[j] := ' ';
      } else {
        var c := data[i * 16 + j];
        PrintByte(os, c);
        ascii[j] := Printable(c);
      }
      assert ascii[..j + 1] == ascii[..j] + [ascii[j]];
      j := Int16(j + 1);
    }
  }

  method PrintBlank(os: OStream)
    requires os.width == 0
    modifies os
    ensures os.text == old(os.text) + "   "
    ensures os.flags == old(os.flags) && os.fill == old(os.fill) && os.width == 0
  {
    NoPadding();
    os.PrintText("   ");
  }

  lemma OneMoreLine(d: seq<Byte>, i: nat)
    requires i <= |d| / 16
    ensures forall s {:trigger s + DumpFrom(d, i)} ::
              s + DumpFrom(d, i) == s + Line(i, Chunk(d, i)) + DumpFrom(d, i + 1)
  {
    hide Line, Chunk;
  }

  lemma NoMoreLines(d: seq<Byte>)
    ensures DumpFrom(d, |d| / 16 + 1) == ""
  {
  }

  method PrintByte(os: OStream, c: Byte)
    requires os.flags == Flags(true, false, false) && os.fill == '0'
    modifies os
    ensures os.text == old(os.text) + (HexByte(c) + " ")
    ensures os.flags == old(os.flags) && os.fill == '0' && os.width == 0
  {
    NoPadding();
    os.width := 2;
    os.PrintNumber(c);
    os.PrintText(" ");
  }

  lemma NoPadding()
    ensures forall s, fill, left :: Pad(s, 0, fill, left) == s
  {
  }

  lemma NoColumns(b: seq<Byte>)
    ensures Columns(b, 0) == "" && Characters(b, 0) == ""
  {
  }

  lemma OneMoreColumn(b: seq<Byte>, j: nat)
    ensures Columns(b, j + 1) == Columns(b, j) + Cell(b, j)
    ensures Characters(b, j + 1) == Characters(b, j) + [if j < |b| then Printable(b[j]) else ' ']
  {
  }
}
