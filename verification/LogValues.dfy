// externals/easyloggingpp/easylogging++.h, lines 1331-1347, 2728-2754 and 3159-3233: which texts are true, which
// number a text stands for, and what a logger answers after setToDefault and any further settings.
module LogValues {
  import opened LogConfiguration
  import opened LogConfigurationMaps

  // ----- trimming -----

  /** std::isspace in the C locale. */
  const BLANKS: set<char> := {' ', '\t', '\n', 11 as char, 12 as char, '\r'}

  ghost predicate AllBlank(s: string) {
    forall i :: 0 <= i < |s| ==> s[i] in BLANKS
  }

  /** A text that neither starts nor ends with a blank. */
  ghost predicate IsCore(s: string) {
    s == "" || (s[0] !in BLANKS && s[|s| - 1] !in BLANKS)
  }

  lemma SpaceIsBlank(c: char)
    ensures IsSpace(c) <==> c in BLANKS
  {
  }

  lemma {:induction false} TrimRightOf(s: string, blanks: string)
    requires AllBlank(blanks) && (s == "" || s[|s| - 1] !in BLANKS)
    ensures TrimRight(s + blanks) == s
  {
    if blanks == "" {
      assert s + blanks == s;
      if s != "" {
        SpaceIsBlank(s[|s| - 1]);
      }
    } else {
      var n := |blanks| - 1;
      SpaceIsBlank(blanks[n]);
      TrimRightOf(s, blanks[..n]);
      assert (s + blanks)[..|s + blanks| - 1] == s + blanks[..n];
    }
  }

  lemma {:induction false} TrimLeftOf(blanks: string, s: string)
    requires AllBlank(blanks) && (s == "" || s[0] !in BLANKS)
    ensures TrimLeft(blanks + s) == s
  {
    if blanks == "" {
      assert blanks + s == s;
      if s != "" {
        SpaceIsBlank(s[0]);
      }
    } else {
      SpaceIsBlank(blanks[0]);
      TrimLeftOf(blanks[1..], s);
      assert (blanks + s)[1..] == blanks[1..] + s;
    }
  }

  lemma {:induction false} TrimRightOfBlanks(blanks: string)
    requires AllBlank(blanks)
    ensures TrimRight(blanks) == ""
  {
    TrimRightOf("", blanks);
    assert "" + blanks == blanks;
  }

  /** Trimming leaves the core of a padded text. */
  lemma TrimOf(before: string, core: string, after: string)
    requires AllBlank(before) && IsCore(core) && AllBlank(after)
    ensures TrimLeft(TrimRight(before + core + after)) == core
  {
    if core == "" {
      assert before + core + after == before + after;
      TrimRightOfBlanks(before + after);
    } else {
      assert (before + core)[|before + core| - 1] == core[|core| - 1];
      TrimRightOf(before + core, after);
      TrimLeftOf(before, core);
    }
  }

  /** Every text is a core padded with blanks on both sides. */
  lemma {:induction false} EveryTextIsPadded(s: string) returns (before: string, core: string, after: string)
    ensures s == before + core + after && AllBlank(before) && IsCore(core) && AllBlank(after)
  {
    if s == "" {
      before, core, after := "", "", "";
    } else if s[0] in BLANKS {
      before, core, after := EveryTextIsPadded(s[1..]);
      before := [s[0]] + before;
    } else if s[|s| - 1] in BLANKS {
      before, core, after := EveryTextIsPadded(s[..|s| - 1]);
      after := after + [s[|s| - 1]];
    } else {
      before, core, after := "", s, "";
    }
  }

  // ----- truth values and numbers -----

  /** A text is true exactly if its core is one of three words. */
  lemma BoolExactly(before: string, core: string, after: string)
    requires AllBlank(before) && IsCore(core) && AllBlank(after)
    ensures ParseBool(before + core + after) <==> core in {"TRUE", "true", "1"}
  {
    TrimOf(before, core, after);
  }

  predicate AllDigits(s: string) {
    forall i :: 0 <= i < |s| ==> '0' <= s[i] <= '9'
  }

  function PowerOfTen(k: nat): nat {
    if k == 0 then 1 else 10 * PowerOfTen(k - 1)
  }

  /** The positional value of a decimal: each digit times the power of ten of the number of digits after it. */
  function Positional(s: string): int {
    if s == "" then 0 else (s[0] as int - '0' as int) * PowerOfTen(|s| - 1) + Positional(s[1..])
  }

  lemma {:induction false} PositionalOneMore(s: string, c: char)
    ensures Positional(s + [c]) == 10 * Positional(s) + (c as int - '0' as int)
  {
    if s == "" {
      assert s + [c] == [c] && [c][1..] == "";
    } else {
      assert (s + [c])[1..] == s[1..] + [c] && (s + [c])[0] == s[0];
      PositionalOneMore(s[1..], c);
      ShiftedDigit(s[0] as int - '0' as int, |s| - 1);
    }
  }

  lemma ShiftedDigit(d: int, k: nat)
    ensures d * PowerOfTen(k + 1) == 10 * (d * PowerOfTen(k))
  {
  }

  lemma {:induction false} DecimalIsPositional(s: string)
    requires AllDigits(s)
    ensures Decimal(s) == Positional(s)
  {
    if s != "" {
      var front, last := s[..|s| - 1], s[|s| - 1];
      DecimalIsPositional(front);
      PositionalOneMore(front, last);
      assert s == front + [last];
    }
  }

  /** A text stands for the number its core spells in decimal digits, and for 0 if it spells none. */
  lemma ULongExactly(before: string, core: string, after: string)
    requires AllBlank(before) && IsCore(core) && AllBlank(after)
    ensures ParseULong(before + core + after)
         == if core != "" && AllDigits(core) then Positional(core) else 0
  {
    TrimOf(before, core, after);
    if core != "" && AllDigits(core) {
      DecimalIsPositional(core);
    }
  }

  // ----- what setToDefault sets -----

  /** The default of each type for a level. */
  function DefaultOf(level: Level, kind: Type): string {
    if kind == FILENAME then "logs/myeasylog.log"
    else if kind == MILLISECONDS_WIDTH then "3"
    else if kind == MAX_LOG_FILE_SIZE || kind == LOG_FLUSH_THRESHOLD then "0"
    else if kind == FORMAT then
      if level == DEBUG then "%datetime %level [%logger] [%user@%host] [%func] [%loc] %msg"
      else if level == VERBOSE then "%datetime %level-%vlevel [%logger] %msg"
      else if level == TRACE then "%datetime %level [%logger] [%func] [%loc] %msg"
      else "%datetime %level [%logger] %msg"
    else "true"
  }

  lemma {:induction false} LastSetOfBoth(a: seq<Configuration>, b: seq<Configuration>, level: Level, kind: Type)
    ensures LastSet(a + b, level, kind) == if LastSet(b, level, kind).Some? then LastSet(b, level, kind)
        else LastSet(a, level, kind)
  {
    if b == [] {
      assert a + b == a;
    } else {
      LastSetOfBoth(a, b[..|b| - 1], level, kind);
      assert (a + b)[..|a + b| - 1] == a + b[..|b| - 1];
    }
  }

  lemma LastSetOfOne(c: Configuration, level: Level, kind: Type)
    ensures LastSet([c], level, kind) == if Reaches(c, level, kind) then Some(c.value) else None
  {
    assert [c][..0] == [];
  }

  lemma {:induction false} LastSetOfEach(levels: seq<Level>, kind: Type, value: string, level: Level, other: Type)
    ensures LastSet(EachLevel(levels, kind, value), level, other) in {None, Some(value)}
    ensures kind != other ==> LastSet(EachLevel(levels, kind, value), level, other) == None
  {
    if levels != [] {
      var front, last := levels[..|levels| - 1], levels[|levels| - 1];
      LastSetOfEach(front, kind, value, level, other);
      LastSetOfBoth(EachLevel(front, kind, value), [Configuration(last, kind, value)], level, other);
      LastSetOfOne(Configuration(last, kind, value), level, other);
    }
  }

  lemma LastSetOfGlobally(done: seq<Configuration>, kind: Type, value: string, level: Level, other: Type)
    returns (now: seq<Configuration>)
    requires IsLevel(level)
    ensures now == done + Globally(kind, value)
    ensures LastSet(now, level, other) == if kind == other then Some(value) else LastSet(done, level, other)
  {
    hide LastSet, EachLevel;
    var c := Configuration(GLOBAL, kind, value);
    LastSetOfOne(c, level, other);
    LastSetOfEach(LEVELS, kind, value, level, other);
    LastSetOfBoth([c], EachLevel(LEVELS, kind, value), level, other);
    LastSetOfBoth(done, Globally(kind, value), level, other);
    now := done + Globally(kind, value);
  }

  lemma LastSetOfFormat(done: seq<Configuration>, at: Level, value: string, level: Level, kind: Type)
    returns (now: seq<Configuration>)
    requires at != GLOBAL
    ensures now == done + [Configuration(at, FORMAT, value)]
    ensures LastSet(now, level, kind)
         == if level == at && kind == FORMAT then Some(value) else LastSet(done, level, kind)
  {
    hide LastSet;
    var c := Configuration(at, FORMAT, value);
    LastSetOfOne(c, level, kind);
    LastSetOfBoth(done, [c], level, kind);
    now := done + [c];
  }

  /** setToDefault leaves every level with the default of each type. */
  lemma DefaultsAre(level: Level, kind: Type)
    requires kind in KINDS && IsLevel(level)
    ensures LastSet(Defaults(), level, kind) == Some(DefaultOf(level, kind))
  {
    hide Globally, LastSet, LEVELS, IsLevel;
    var done: seq<Configuration> := [];
    done := LastSetOfGlobally(done, ENABLED, "true", level, kind);
    assert [] + Globally(ENABLED, "true") == Globally(ENABLED, "true");
    done := LastSetOfGlobally(done, FILENAME, DEFAULT_LOG_FILE, level, kind);
    done := LastSetOfGlobally(done, TO_FILE, "true", level, kind);
    done := LastSetOfGlobally(done, TO_STANDARD_OUTPUT, "true", level, kind);
    done := LastSetOfGlobally(done, MILLISECONDS_WIDTH, "3", level, kind);
    done := LastSetOfGlobally(done, PERFORMANCE_TRACKING, "true", level, kind);
    done := LastSetOfGlobally(done, MAX_LOG_FILE_SIZE, "0", level, kind);
    done := LastSetOfGlobally(done, LOG_FLUSH_THRESHOLD, "0", level, kind);
    done := LastSetOfGlobally(done, FORMAT, "%datetime %level [%logger] %msg", level, kind);
    done := LastSetOfFormat(done, DEBUG, "%datetime %level [%logger] [%user@%host] [%func] [%loc] %msg", level, kind);
    done := LastSetOfFormat(done, ERROR, "%datetime %level [%logger] %msg", level, kind);
    done := LastSetOfFormat(done, FATAL, "%datetime %level [%logger] %msg", level, kind);
    done := LastSetOfFormat(done, VERBOSE, "%datetime %level-%vlevel [%logger] %msg", level, kind);
    done := LastSetOfFormat(done, TRACE, "%datetime %level [%logger] [%func] [%loc] %msg", level, kind);
  }

  // ----- what a logger answers -----

  lemma DefaultTexts()
    ensures ParseBool("true") && ParseULong("0") == 0 && MillisecondsWidth(ParseULong("3")) == 3
  {
    hide ParseBool, ParseULong, Positional;
    BoolExactly("", "true", "");
    assert "" + "true" + "" == "true";
    DigitText('0');
    DigitText('3');
  }

  lemma DigitText(c: char)
    requires '0' <= c <= '9'
    ensures ParseULong([c]) == c as int - '0' as int
  {
    hide ParseULong;
    ULongExactly("", [c], "");
    assert "" + [c] + "" == [c] && [c][1..] == "";
    assert PowerOfTen(0) == 1;
  }

  lemma DefaultDecides<V(!new)>(level: Level, kind: Type, parse: (Level, string) -> V)
    requires kind in KINDS && IsLevel(level)
    ensures ValueOf(Built(AfterSets([], Defaults()), kind, parse), level) == Some(parse(level, DefaultOf(level, kind)))
  {
    hide AfterSets, Defaults, LastSet, Built, ValueOf, LEVELS, KINDS, DefaultOf;
    assert Defaults() + [] == Defaults();
    DefaultsAre(level, kind);
    LastSettingDecides([], kind, level, parse);
  }

  lemma DefaultDecidesAtGlobal<V(!new)>(kind: Type, parse: string -> V)
    requires kind in KINDS
    ensures BuiltAtGlobal(AfterSets([], Defaults()), kind, parse) == map[GLOBAL := parse(DefaultOf(INFO, kind))]
  {
    assert IsLevel(INFO);
    hide AfterSets, Defaults, LastSet, BuiltAtGlobal, LEVELS, KINDS, DefaultOf;
    assert Defaults() + [] == Defaults();
    DefaultsAre(INFO, kind);
    OnlyInfoCounts([], kind, parse);
  }

  lemma DefaultFlags(level: Level)
    requires IsLevel(level)
    ensures var list := AfterSets([], Defaults());
            && ValueOf(Built(list, ENABLED, (l, s) => ParseBool(s)), level) == Some(true)
            && ValueOf(Built(list, TO_FILE, (l, s) => ParseBool(s)), level) == Some(true)
            && ValueOf(Built(list, TO_STANDARD_OUTPUT, (l, s) => ParseBool(s)), level) == Some(true)
  {
    hide AfterSets, Defaults, Built, ParseBool, ValueOf, LEVELS;
    DefaultTexts();
    DefaultDecides(level, ENABLED, (l, s) => ParseBool(s));
    DefaultDecides(level, TO_FILE, (l, s) => ParseBool(s));
    DefaultDecides(level, TO_STANDARD_OUTPUT, (l, s) => ParseBool(s));
  }

  lemma DefaultNumbers(level: Level)
    requires IsLevel(level)
    ensures var list := AfterSets([], Defaults());
            && ValueOf(Built(list, MAX_LOG_FILE_SIZE, (l, s) => ParseULong(s)), level) == Some(0)
            && ValueOf(Built(list, LOG_FLUSH_THRESHOLD, (l, s) => ParseULong(s)), level) == Some(0)
  {
    hide AfterSets, Defaults, Built, ParseULong, ValueOf, LEVELS;
    DefaultTexts();
    DefaultDecides(level, MAX_LOG_FILE_SIZE, (l, s) => ParseULong(s));
    DefaultDecides(level, LOG_FLUSH_THRESHOLD, (l, s) => ParseULong(s));
  }

  lemma DefaultsAtGlobal()
    ensures var list := AfterSets([], Defaults());
            && BuiltAtGlobal(list, MILLISECONDS_WIDTH, s => MillisecondsWidth(ParseULong(s))) == map[GLOBAL := 3]
            && BuiltAtGlobal(list, PERFORMANCE_TRACKING, s => ParseBool(s)) == map[GLOBAL := true]
  {
    hide AfterSets, Defaults, BuiltAtGlobal, ParseBool, ParseULong, MillisecondsWidth;
    DefaultTexts();
    DefaultDecidesAtGlobal(MILLISECONDS_WIDTH, s => MillisecondsWidth(ParseULong(s)));
    DefaultDecidesAtGlobal(PERFORMANCE_TRACKING, s => ParseBool(s));
  }

  /** After setToDefault alone every level is enabled, goes to file and to standard output, in its default format
      with three digits of milliseconds; files are neither rolled nor flushed early. */
  lemma DefaultLogger(t: TypedConfigurations, level: Level)
    requires IsLevel(level) && t.IsBuiltFrom(AfterSets([], Defaults()))
    ensures ValueOf(t.enabledMap, level) == ValueOf(t.toFileMap, level) == Some(true)
    ensures ValueOf(t.toStandardOutputMap, level) == Some(true)
    ensures ValueOf(t.logFormatMap, level) == Some(LogFormat(level, DefaultOf(level, FORMAT)))
    ensures ValueOf(t.maxLogFileSizeMap, level) == ValueOf(t.logFlushThresholdMap, level) == Some(0)
    ensures t.millisecondsWidthMap == map[GLOBAL := 3] && t.performanceTrackingMap == map[GLOBAL := true]
  {
    hide AfterSets, Defaults, Built, BuiltAtGlobal, ParseBool, ParseULong, MillisecondsWidth, ValueOf, IsLevel,
      DefaultOf;
    DefaultFlags(level);
    DefaultNumbers(level);
    DefaultsAtGlobal();
    DefaultDecides(level, FORMAT, (l, s) => LogFormat(l, s));
  }

  function FlagMap(t: TypedConfigurations, kind: Type): map<Level, bool>
    requires kind in {ENABLED, TO_FILE, TO_STANDARD_OUTPUT}
    reads t
  {
    if kind == ENABLED then t.enabledMap else if kind == TO_FILE then t.toFileMap else t.toStandardOutputMap
  }

  /** After any further settings a level is enabled, goes to file or to standard output exactly if the core of
      the last setting that reaches it is one of the three words. */
  lemma FlagExactly(t: TypedConfigurations, settings: seq<Configuration>, kind: Type, level: Level, before: string,
      core: string, after: string)
    requires IsLevel(level) && t.IsBuiltFrom(AfterSets([], Defaults() + settings))
    requires kind in {ENABLED, TO_FILE, TO_STANDARD_OUTPUT}
    requires AllBlank(before) && IsCore(core) && AllBlank(after)
    requires LastSet(Defaults() + settings, level, kind) == Some(before + core + after)
    ensures ValueOf(FlagMap(t, kind), level) == Some(core in {"TRUE", "true", "1"})
  {
    hide AfterSets, Defaults, LastSet, Built, BuiltAtGlobal, ParseBool, ValueOf, LEVELS;
    LastSettingDecides(settings, kind, level, (l, s) => ParseBool(s));
    BoolExactly(before, core, after);
  }

  /** And its file size, flush threshold and format are those of the last setting of each that reaches it. */
  lemma NumbersAndFormatExactly(t: TypedConfigurations, settings: seq<Configuration>, level: Level)
    requires IsLevel(level) && t.IsBuiltFrom(AfterSets([], Defaults() + settings))
    ensures var all := Defaults() + settings;
            && LastSet(all, level, MAX_LOG_FILE_SIZE).Some? && LastSet(all, level, LOG_FLUSH_THRESHOLD).Some?
            && LastSet(all, level, FORMAT).Some?
            && ValueOf(t.maxLogFileSizeMap, level) == Some(ParseULong(LastSet(all, level, MAX_LOG_FILE_SIZE).value))
            && ValueOf(t.logFlushThresholdMap, level)
                == Some(ParseULong(LastSet(all, level, LOG_FLUSH_THRESHOLD).value))
            && ValueOf(t.logFormatMap, level) == Some(LogFormat(level, LastSet(all, level, FORMAT).value))
  {
    hide AfterSets, Defaults, LastSet, Built, BuiltAtGlobal, ParseULong, ValueOf, LEVELS;
    LastSettingDecides(settings, MAX_LOG_FILE_SIZE, level, (l, s) => ParseULong(s));
    LastSettingDecides(settings, LOG_FLUSH_THRESHOLD, level, (l, s) => ParseULong(s));
    LastSettingDecides(settings, FORMAT, level, (l, s) => LogFormat(l, s));
  }

  /** Milliseconds width and performance tracking are those of the last setting that reaches Info. */
  lemma InfoDecides(t: TypedConfigurations, settings: seq<Configuration>)
    requires t.IsBuiltFrom(AfterSets([], Defaults() + settings))
    requires KnownLevels(settings, MILLISECONDS_WIDTH) && KnownLevels(settings, PERFORMANCE_TRACKING)
    ensures var all := Defaults() + settings;
            && LastSet(all, INFO, MILLISECONDS_WIDTH).Some? && LastSet(all, INFO, PERFORMANCE_TRACKING).Some?
            && t.millisecondsWidthMap
                == map[GLOBAL := MillisecondsWidth(ParseULong(LastSet(all, INFO, MILLISECONDS_WIDTH).value))]
            && t.performanceTrackingMap == map[GLOBAL := ParseBool(LastSet(all, INFO, PERFORMANCE_TRACKING).value)]
  {
    hide AfterSets, Defaults, LastSet, Built, BuiltAtGlobal, ParseULong, ParseBool, MillisecondsWidth, KnownLevels;
    OnlyInfoCounts(settings, MILLISECONDS_WIDTH, s => MillisecondsWidth(ParseULong(s)));
    OnlyInfoCounts(settings, PERFORMANCE_TRACKING, s => ParseBool(s));
  }

  /** A width of one to six digits is kept, any other number counts as three. */
  lemma WidthExactly(before: string, core: string, after: string)
    requires AllBlank(before) && AllBlank(after) && core != "" && AllDigits(core)
    ensures Positional(core) >= 0
    ensures var n := Positional(core) % 0x1_0000_0000;
            MillisecondsWidth(ParseULong(before + core + after)) == if 1 <= n <= 6 then n else 3
  {
    DigitsAreCore(core);
    DecimalIsPositional(core);
    ULongExactly(before, core, after);
  }

  lemma DigitsAreCore(core: string)
    requires core != "" && AllDigits(core)
    ensures IsCore(core)
  {
    assert '0' <= core[0] <= '9' && '0' <= core[|core| - 1] <= '9';
  }

  /** A new logger with the default settings: its maps answer true for every level. */
  method EnabledByDefault(level: Level) returns (on: bool)
    requires IsLevel(level)
    ensures on
  {
    var configurations := new Configurations();
    configurations.SetToDefault();
    var typed := new TypedConfigurations(configurations);
    hide AfterSets, Defaults, TypedConfigurations.IsBuiltFrom, LEVELS;
    DefaultLogger(typed, level);
    on := typed.Enabled(level);
  }
}
