// externals/easyloggingpp/easylogging++.h, lines 1307-1329: matching a text against a pattern of '*'
// and '?'. Texts are C strings without their terminator; `str` and `pattern` are offsets into them.
module WildCards {

  function Concat(pieces: seq<string>): string {
    if pieces == [] then "" else pieces[0] + Concat(pieces[1..])
  }

  /** '*' stands for any piece, '?' for any one character, every other character for itself. */
  predicate Fits(piece: string, c: char) {
    if c == '*' then true else if c == '?' then |piece| == 1 else piece == [c]
  }

  ghost predicate Cuts(text: string, pattern: string, pieces: seq<string>) {
    |pieces| == |pattern| && Concat(pieces) == text && forall i :: 0 <= i < |pieces| ==> Fits(pieces[i], pattern[i])
  }

  /** The language of a pattern: the texts that can be cut into one fitting piece per pattern character. */
  ghost predicate InLanguage(text: string, pattern: string) {
    exists pieces :: Cuts(text, pattern, pieces)
  }

  lemma OnlyEmptyFitsEmpty(text: string)
    ensures InLanguage(text, "") <==> text == ""
  {
    assert Cuts("", "", []);
    if pieces :| Cuts(text, "", pieces) {
      assert pieces == [];
    }
  }

  /** A text is in the language iff some prefix fits the first character and the rest fits the rest. */
  lemma CutFirst(text: string, pattern: string, k: nat)
    requires pattern != "" && k <= |text| && Fits(text[..k], pattern[0]) && InLanguage(text[k..], pattern[1..])
    ensures InLanguage(text, pattern)
  {
    var rest :| Cuts(text[k..], pattern[1..], rest);
    var pieces := [text[..k]] + rest;
    assert pieces[1..] == rest && text[..k] + text[k..] == text;
    forall i | 0 <= i < |pieces| ensures Fits(pieces[i], pattern[i]) {
      if i > 0 {
        assert Fits(rest[i - 1], pattern[1..][i - 1]);
      }
    }
    assert Cuts(text, pattern, pieces);
  }

  lemma FirstCut(text: string, pattern: string) returns (k: nat)
    requires pattern != "" && InLanguage(text, pattern)
    ensures k <= |text| && Fits(text[..k], pattern[0]) && InLanguage(text[k..], pattern[1..])
  {
    var pieces :| Cuts(text, pattern, pieces);
    k := |pieces[0]|;
    assert text[..k] == pieces[0] && text[k..] == Concat(pieces[1..]);
    assert Cuts(text[k..], pattern[1..], pieces[1..]);
  }

  /** A star takes nothing, or one more character. */
  lemma Star(text: string, pattern: string)
    requires pattern != "" && pattern[0] == '*'
    ensures InLanguage(text, pattern)
       <==> InLanguage(text, pattern[1..]) || (text != "" && InLanguage(text[1..], pattern))
  {
    if InLanguage(text, pattern) {
      var k := FirstCut(text, pattern);
      if k > 0 {
        assert text[1..][k - 1..] == text[k..];
        CutFirst(text[1..], pattern, k - 1);
      } else {
        assert text[0..] == text;
      }
    }
    if InLanguage(text, pattern[1..]) {
      assert text[0..] == text;
      CutFirst(text, pattern, 0);
    }
    if text != "" && InLanguage(text[1..], pattern) {
      var k := FirstCut(text[1..], pattern);
      assert text[1..][k..] == text[k + 1..];
      CutFirst(text, pattern, k + 1);
    }
  }

  /** Any other pattern character takes exactly one character. */
  lemma OneCharacter(text: string, pattern: string)
    requires pattern != "" && pattern[0] != '*'
    ensures InLanguage(text, pattern)
       <==> text != "" && (pattern[0] == '?' || text[0] == pattern[0]) && InLanguage(text[1..], pattern[1..])
  {
    if InLanguage(text, pattern) {
      var k := FirstCut(text, pattern);
      assert k == 1 && text[..1][0] == text[0];
    }
    if text != "" && (pattern[0] == '?' || text[0] == pattern[0]) && InLanguage(text[1..], pattern[1..]) {
      assert text[..1] == [text[0]];
      CutFirst(text, pattern, 1);
    }
  }

  /** The matcher says yes exactly to the texts in the language of the pattern. */
  method WildCardMatch(text: string, str: nat, pattern: string, at: nat) returns (matched: bool)
    requires str <= |text| && at <= |pattern|
    ensures matched <==> InLanguage(text[str..], pattern[at..])
    decreases |pattern| - at + |text| - str
  {
    hide InLanguage;
    var s, p := str, at;
    while p < |pattern|
      invariant str <= s <= |text| && at <= p <= |pattern|
      invariant InLanguage(text[str..], pattern[at..]) <==> InLanguage(text[s..], pattern[p..])
    {
      assert pattern[p..][1..] == pattern[p + 1..];
      assert s < |text| ==> text[s..][1..] == text[s + 1..];
      if pattern[p] == '?' {
        OneCharacter(text[s..], pattern[p..]);
        if s == |text| {
          return false;
        }
        s, p := s + 1, p + 1;
      } else if pattern[p] == '*' {
        Star(text[s..], pattern[p..]);
        var without := WildCardMatch(text, s, pattern, p + 1);
        if without {
          return true;
        }
        if s < |text| {
          var with := WildCardMatch(text, s + 1, pattern, p);
          if with {
            return true;
          }
        }
        return false;
      } else {
        OneCharacter(text[s..], pattern[p..]);
        if s == |text| || text[s] != pattern[p] {
          return false;
        }
        s, p := s + 1, p + 1;
      }
    }
    OnlyEmptyFitsEmpty(text[s..]);
    assert pattern[p..] == "";
    return s == |text|;
  }
}
