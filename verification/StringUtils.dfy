// src/stationapi/StringUtils.cpp: the conversions between the game's UTF-16 text and the
// byte strings kept in the database.
module StringUtils {

  type CodeUnit = c: int | 0 <= c < 0x1_0000
  type Byte = b: int | 0 <= b < 0x100

  type Wide = seq<CodeUnit>
  type Narrow = seq<Byte>

  /** `char16_t` to `char` keeps the low eight bits. */
  function NarrowUnit(c: CodeUnit): Byte {
    c % 0x100
  }

  /** `char` to `char16_t`: plain `char` is signed here, so bytes from 0x80 up are sign-extended. */
  function WidenByte(b: Byte): CodeUnit {
    if b < 0x80 then b else 0xFF00 + b
  }

  function FromWideString(s: Wide): (t: Narrow)
    ensures |t| == |s|
    ensures forall i :: 0 <= i < |s| ==> t[i] == NarrowUnit(s[i])
  {
    seq(|s|, i requires 0 <= i < |s| => NarrowUnit(s[i]))
  }

  function ToWideString(t: Narrow): (s: Wide)
    ensures |s| == |t|
    ensures forall i :: 0 <= i < |t| ==> s[i] == WidenByte(t[i])
  {
    seq(|t|, i requires 0 <= i < |t| => WidenByte(t[i]))
  }

  /** The text a caller can check before storing it: every unit is ASCII or a sign-extended byte. */
  predicate NarrowSafe(s: Wide) {
    forall i :: 0 <= i < |s| ==> s[i] < 0x80 || 0xFF80 <= s[i]
  }

  /** A stored byte string comes back unchanged from being widened and narrowed again. */
  lemma NarrowOfWiden(t: Narrow)
    ensures FromWideString(ToWideString(t)) == t
    ensures NarrowSafe(ToWideString(t))
  {
    forall i | 0 <= i < |t| ensures NarrowUnit(WidenByte(t[i])) == t[i] {
    }
    assert FromWideString(ToWideString(t)) == t;
  }

  /** A trip through the database keeps a text exactly when it is narrow-safe. */
  lemma WidenOfNarrow(s: Wide)
    ensures ToWideString(FromWideString(s)) == s <==> NarrowSafe(s)
  {
    var r := ToWideString(FromWideString(s));
    forall i | 0 <= i < |s| ensures r[i] == s[i] <==> s[i] < 0x80 || 0xFF80 <= s[i] {
    }
    if NarrowSafe(s) {
      assert r == s;
    }
  }
}
