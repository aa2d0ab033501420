// externals/easyloggingpp/easylogging++.h, lines 3100-3205: the maps built from the registry, and
// when looking a level up in them gives back the registry's own setting.
module LogConfigurationMaps {
  import opened LogConfiguration

  // ----- what a run of settings leaves in the registry -----

  lemma {:induction false} LookupAfterPut(list: Registry, c: Configuration, level: Level, kind: Type)
    ensures Lookup(Put(list, c), level, kind) == if c.Is(level, kind) then Some(c.value) else Lookup(list, level, kind)
  {
    if list != [] {
      LookupAfterPut(list[1..], c, level, kind);
    }
  }

  lemma {:induction false} LookupAfterPutEach(list: Registry, levels: seq<Level>, c: Configuration, level: Level,
      kind: Type)
    ensures Lookup(PutEach(list, levels, c.kind, c.value), level, kind)
         == if kind == c.kind && level in levels then Some(c.value) else Lookup(list, level, kind)
  {
    if levels != [] {
      var front, last := levels[..|levels| - 1], levels[|levels| - 1];
      assert levels == front + [last];
      LookupAfterPutEach(list, front, c, level, kind);
      LookupAfterPut(PutEach(list, front, c.kind, c.value), c.(level := last), level, kind);
    }
  }

  /** A setting reaches its own level, and from Global every level. */
  predicate Reaches(c: Configuration, level: Level, kind: Type) {
    c.kind == kind && (c.level == level || (c.level == GLOBAL && level in LEVELS))
  }

  lemma LookupAfterSet(list: Registry, c: Configuration, level: Level, kind: Type)
    ensures Lookup(AfterSet(list, c), level, kind) == if Reaches(c, level, kind) then Some(c.value)
        else Lookup(list, level, kind)
  {
    hide Lookup, Put, PutEach;
    LookupAfterPut(list, c, level, kind);
    LookupAfterPutEach(Put(list, c), LEVELS, c, level, kind);
    LookupAfterPutEach(AfterUnsafeSet(list, c), LEVELS, c, level, kind);
  }

  /** The value of the last setting that reaches this level. */
  function LastSet(settings: seq<Configuration>, level: Level, kind: Type): Option<string> {
    if settings == [] then None
    else if Reaches(settings[|settings| - 1], level, kind) then Some(settings[|settings| - 1].value)
    else LastSet(settings[..|settings| - 1], level, kind)
  }

  /** The registry answers with the last setting that reaches the level. */
  lemma {:induction false} LookupAfterSets(settings: seq<Configuration>, level: Level, kind: Type)
    ensures Lookup(AfterSets([], settings), level, kind) == LastSet(settings, level, kind)
  {
    hide AfterSet, Reaches;
    if settings != [] {
      var front := settings[..|settings| - 1];
      LookupAfterSets(front, level, kind);
      LookupAfterSet(AfterSets([], front), settings[|settings| - 1], level, kind);
    }
  }

  // ----- one entry per level and type, in the order they were first set -----

  ghost predicate Unique(list: Registry) {
    forall i, j :: 0 <= i < j < |list| ==> !list[j].Is(list[i].level, list[i].kind)
  }

  /** The level of the first entry of this type. */
  function FirstLevel(list: Registry, kind: Type): Option<Level> {
    if list == [] then None else if list[0].kind == kind then Some(list[0].level) else FirstLevel(list[1..], kind)
  }

  /** The last entry of this type. */
  function LastEntry(list: Registry, kind: Type): Option<Configuration> {
    if list == [] then None
    else OrElse(LastEntry(list[1..], kind), if list[0].kind == kind then Some(list[0]) else None)
  }

  lemma {:induction false} PutKeepsUnique(list: Registry, c: Configuration)
    requires Unique(list)
    ensures Unique(Put(list, c))
    ensures forall x :: x in Put(list, c) ==> x.Is(c.level, c.kind) || x in list
  {
    if list != [] && !list[0].Is(c.level, c.kind) {
      var others := list[1..];
      PutKeepsUnique(others, c);
      forall j | 0 <= j < |Put(others, c)| ensures !Put(others, c)[j].Is(list[0].level, list[0].kind) {
        assert Put(others, c)[j] in Put(others, c);
      }
    }
  }

  lemma {:induction false} PutEachKeepsUnique(list: Registry, levels: seq<Level>, kind: Type, value: string)
    requires Unique(list)
    ensures Unique(PutEach(list, levels, kind, value))
  {
    hide Unique;
    if levels != [] {
      var front, last := levels[..|levels| - 1], levels[|levels| - 1];
      PutEachKeepsUnique(list, front, kind, value);
      PutKeepsUnique(PutEach(list, front, kind, value), Configuration(last, kind, value));
    }
  }

  lemma SetKeepsUnique(list: Registry, c: Configuration)
    requires Unique(list)
    ensures Unique(AfterSet(list, c))
  {
    hide Unique, Put, PutEach;
    PutKeepsUnique(list, c);
    PutEachKeepsUnique(Put(list, c), LEVELS, c.kind, c.value);
    PutEachKeepsUnique(AfterUnsafeSet(list, c), LEVELS, c.kind, c.value);
  }

  /** No run of settings registers a level and type twice. */
  lemma {:induction false} SetsKeepUnique(settings: seq<Configuration>)
    ensures Unique(AfterSets([], settings))
  {
    hide AfterSet;
    if settings != [] {
      SetsKeepUnique(settings[..|settings| - 1]);
      SetKeepsUnique(AfterSets([], settings[..|settings| - 1]), settings[|settings| - 1]);
    }
  }

  function OrElse<T>(a: Option<T>, b: Option<T>): Option<T> {
    if a.Some? then a else b
  }

  lemma {:induction false} FirstLevelAfterPut(list: Registry, c: Configuration, kind: Type)
    ensures FirstLevel(Put(list, c), kind) == OrElse(FirstLevel(list, kind), FirstLevel([c], kind))
  {
    if list != [] {
      FirstLevelAfterPut(list[1..], c, kind);
    }
  }

  lemma {:induction false} FirstLevelAfterPutEach(list: Registry, levels: seq<Level>, put: Type, value: string,
      kind: Type)
    requires FirstLevel(list, kind).Some? || put != kind
    ensures FirstLevel(PutEach(list, levels, put, value), kind) == FirstLevel(list, kind)
  {
    if levels != [] {
      var front, last := levels[..|levels| - 1], levels[|levels| - 1];
      FirstLevelAfterPutEach(list, front, put, value, kind);
      FirstLevelAfterPut(PutEach(list, front, put, value), Configuration(last, put, value), kind);
    }
  }

  lemma FirstLevelAfterSet(list: Registry, c: Configuration, kind: Type)
    ensures FirstLevel(AfterSet(list, c), kind) == OrElse(FirstLevel(list, kind), FirstLevel([c], kind))
  {
    hide Put, PutEach;
    FirstLevelAfterPut(list, c, kind);
    FirstLevelAfterPutEach(Put(list, c), LEVELS, c.kind, c.value, kind);
    FirstLevelAfterPutEach(AfterUnsafeSet(list, c), LEVELS, c.kind, c.value, kind);
  }

  lemma {:induction false} FirstLevelOfBoth(a: Registry, b: Registry, kind: Type)
    ensures FirstLevel(a + b, kind) == OrElse(FirstLevel(a, kind), FirstLevel(b, kind))
  {
    if a == [] {
      assert a + b == b;
    } else {
      FirstLevelOfBoth(a[1..], b, kind);
      assert (a + b)[1..] == a[1..] + b;
    }
  }

  /** The first registered level of a type is the level of the first setting of that type. */
  lemma {:induction false} FirstLevelAfterSets(settings: seq<Configuration>, kind: Type)
    ensures FirstLevel(AfterSets([], settings), kind) == FirstLevel(settings, kind)
  {
    if settings != [] {
      hide AfterSet, FirstLevel;
      var front, last := settings[..|settings| - 1], settings[|settings| - 1];
      FirstLevelAfterSets(front, kind);
      FirstLevelAfterSet(AfterSets([], front), last, kind);
      FirstLevelOfBoth(front, [last], kind);
      assert settings == front + [last];
    }
  }

  // ----- the compressed maps -----

  /** Lines 3135-3157, with includeGlobalLevel left at its default. */
  function WithValue<V(==)>(confMap: map<Level, V>, level: Level, value: V): map<Level, V> {
    if confMap == map[] then map[GLOBAL := value]
    else if GLOBAL in confMap && confMap[GLOBAL] == value then confMap
    else confMap[level := value]
  }

  /** The map built from the entries of one type. */
  function Built<V(==)>(list: Registry, kind: Type, parse: (Level, string) -> V): map<Level, V> {
    if list == [] then map[]
    else
      var front, last := list[..|list| - 1], list[|list| - 1];
      if last.kind != kind then Built(front, kind, parse)
      else WithValue(Built(front, kind, parse), last.level, parse(last.level, last.value))
  }

  /** unsafeGetConfigByVal: the level's own value, else Global's. */
  function ValueOf<V>(confMap: map<Level, V>, level: Level): Option<V> {
    if level in confMap then Some(confMap[level])
    else if GLOBAL in confMap then Some(confMap[GLOBAL])
    else None
  }

  /** What a caller sees of setting a value: into an empty map it answers for every level. Otherwise
      the level answers with it, unless it has a value of its own and Global the one set; setting a
      level other than Global changes no other answer, and setting Global none of a level with a
      value of its own. */
  ghost predicate Answers<V>(before: map<Level, V>, level: Level, value: V, after: map<Level, V>) {
    if before == map[] then after.Keys == {GLOBAL} && after[GLOBAL] == value
    else
      && (ValueOf(after, level) == Some(value)
          <==> !(level in before && before[level] != value && GLOBAL in before && before[GLOBAL] == value))
      && (forall l :: l in before && l != level ==> ValueOf(after, l) == ValueOf(before, l))
      && before.Keys <= after.Keys <= before.Keys + {level}
  }

  lemma SettingDecides<V>(before: map<Level, V>, level: Level, value: V)
    ensures Answers(before, level, value, WithValue(before, level, value))
    ensures before != map[] && level != GLOBAL ==>
              forall l :: l != level ==> ValueOf(WithValue(before, level, value), l) == ValueOf(before, l)
  {
  }

  lemma {:induction false} LookupOfBoth(a: Registry, b: Registry, level: Level, kind: Type)
    ensures Lookup(a + b, level, kind) == OrElse(Lookup(a, level, kind), Lookup(b, level, kind))
  {
    if a == [] {
      assert a + b == b;
    } else {
      LookupOfBoth(a[1..], b, level, kind);
      assert (a + b)[1..] == a[1..] + b;
    }
  }

  lemma {:induction false} NotThere(list: Registry, level: Level, kind: Type)
    requires forall i :: 0 <= i < |list| ==> !list[i].Is(level, kind)
    ensures Lookup(list, level, kind) == None
  {
    if list != [] {
      NotThere(list[1..], level, kind);
    }
  }

  /** The parsed setting of this level and type. */
  ghost function Parsed<V>(list: Registry, level: Level, kind: Type, parse: (Level, string) -> V): Option<V> {
    var found := Lookup(list, level, kind);
    if found.None? then None else Some(parse(level, found.value))
  }

  /** The map while it is built: Global holds Global's own value, or the first one as long as there is
      no Global; what is missing equals the first value or Global's. */
  ghost predicate Compressed<V(!new)>(list: Registry, kind: Type, parse: (Level, string) -> V, confMap: map<Level, V>) {
    var first := FirstLevel(list, kind);
    if first.None? then confMap == map[] && forall l :: Lookup(list, l, kind) == None
    else
      && Parsed(list, first.value, kind, parse).Some?
      && GLOBAL in confMap
      && Some(confMap[GLOBAL]) == OrElse(Parsed(list, GLOBAL, kind, parse), Parsed(list, first.value, kind, parse))
      && (forall l :: l in confMap && l != GLOBAL ==>
            l != first.value && Parsed(list, l, kind, parse) == Some(confMap[l]))
      && forall l :: Parsed(list, l, kind, parse).Some? && l !in confMap ==>
           Parsed(list, l, kind, parse) == Parsed(list, first.value, kind, parse)
               || Parsed(list, l, kind, parse) == Some(confMap[GLOBAL])
  }

  lemma CompressOne<V(!new)>(front: Registry, last: Configuration, kind: Type, parse: (Level, string) -> V,
      confMap: map<Level, V>)
    requires Compressed(front, kind, parse, confMap)
    requires Lookup(front, last.level, last.kind) == None
    ensures Compressed(front + [last], kind, parse, if last.kind == kind
        then WithValue(confMap, last.level, parse(last.level, last.value)) else confMap)
  {
    var list, value := front + [last], parse(last.level, last.value);
    FirstLevelOfBoth(front, [last], kind);
    forall l
      ensures Parsed(list, l, kind, parse) == if last.Is(l, kind) then Some(value) else Parsed(front, l, kind, parse)
      ensures Lookup(list, l, kind) == if last.Is(l, kind) then Some(last.value) else Lookup(front, l, kind)
    {
      LookupOfBoth(front, [last], l, kind);
    }
    assert FirstLevel([last], kind) == if last.kind == kind then Some(last.level) else None;
    hide Lookup, FirstLevel;
    if FirstLevel(front, kind).Some? && last.kind == kind && last.level == GLOBAL {
      assert Parsed(front, GLOBAL, kind, parse).None?;
      assert Some(confMap[GLOBAL]) == Parsed(front, FirstLevel(front, kind).value, kind, parse);
    }
  }

  lemma {:induction false} BuiltIsCompressed<V(!new)>(list: Registry, kind: Type, parse: (Level, string) -> V)
    requires Unique(list)
    ensures Compressed(list, kind, parse, Built(list, kind, parse))
  {
    if list != [] {
      hide Compressed;
      var front, last := list[..|list| - 1], list[|list| - 1];
      BuiltIsCompressed(front, kind, parse);
      NotThere(front, last.level, last.kind);
      CompressOne(front, last, kind, parse, Built(front, kind, parse));
      assert list == front + [last];
    }
  }

  /** Looking a registered level up in the map gives its registered value. */
  ghost predicate Agrees<V(!new)>(list: Registry, kind: Type, parse: (Level, string) -> V) {
    forall l :: Parsed(list, l, kind, parse).Some?
        ==> ValueOf(Built(list, kind, parse), l) == Parsed(list, l, kind, parse)
  }

  /** The map agrees with the registry for every registered level exactly when the type's first entry
      is Global, or Global is not registered, or Global's value is the first entry's. */
  lemma AgreesExactly<V(!new)>(list: Registry, kind: Type, parse: (Level, string) -> V)
    requires Unique(list)
    ensures var first := FirstLevel(list, kind);
            Agrees(list, kind, parse) <==>
              first.None? || first == Some(GLOBAL) || Parsed(list, GLOBAL, kind, parse).None?
              || Parsed(list, GLOBAL, kind, parse) == Parsed(list, first.value, kind, parse)
  {
    BuiltIsCompressed(list, kind, parse);
    var first := FirstLevel(list, kind);
    var confMap := Built(list, kind, parse);
    if first.Some? && first != Some(GLOBAL) && Parsed(list, GLOBAL, kind, parse).Some?
      && Parsed(list, GLOBAL, kind, parse) != Parsed(list, first.value, kind, parse) {
      assert ValueOf(confMap, first.value) == Some(confMap[GLOBAL]);
    }
  }

  /** Setting the value goes through the assignment of line 3155. */
  predicate Overwrites<V(==)>(confMap: map<Level, V>, level: Level, value: V) {
    confMap != map[] && !(GLOBAL in confMap && confMap[GLOBAL] == value) && level in confMap
  }

  ghost predicate OverwritesAt<V(!new)>(list: Registry, kind: Type, parse: (Level, string) -> V, k: nat)
    requires k < |list|
  {
    && list[k].kind == kind
    && Overwrites(Built(list[..k], kind, parse), list[k].level, parse(list[k].level, list[k].value))
  }

  lemma {:induction false} EntryIsFound(list: Registry, k: nat)
    requires Unique(list) && k < |list|
    ensures Lookup(list, list[k].level, list[k].kind) == Some(list[k].value)
    ensures Lookup(list[..k], list[k].level, list[k].kind) == None
  {
    NotThere(list[..k], list[k].level, list[k].kind);
    assert list == list[..k] + list[k..];
    LookupOfBoth(list[..k], list[k..], list[k].level, list[k].kind);
  }

  lemma {:induction false} EntryOf(list: Registry, level: Level, kind: Type) returns (k: nat)
    requires Lookup(list, level, kind).Some?
    ensures k < |list| && list[k].Is(level, kind)
  {
    if list[0].Is(level, kind) {
      k := 0;
    } else {
      k := EntryOf(list[1..], level, kind);
      k := k + 1;
    }
  }

  /** Where an entry comes, an overwriting assignment happens exactly if it is Global's, another level
      came first, and the values differ. */
  lemma OverwritesOnlyGlobal<V(!new)>(list: Registry, kind: Type, parse: (Level, string) -> V, k: nat)
    requires Unique(list) && k < |list| && list[k].kind == kind
    ensures OverwritesAt(list, kind, parse, k) <==>
      var first := FirstLevel(list[..k], kind);
      list[k].level == GLOBAL && first.Some?
        && Parsed(list[..k], first.value, kind, parse) != Some(parse(GLOBAL, list[k].value))
  {
    var front := list[..k];
    assert Unique(front);
    BuiltIsCompressed(front, kind, parse);
    EntryIsFound(list, k);
    assert Parsed(front, list[k].level, kind, parse) == None;
  }

  /** The map is built without overwriting a value exactly when the type's first entry is Global, or
      Global is not registered, or Global's value is the first entry's: exactly when it agrees. */
  lemma OverwritesExactly<V(!new)>(list: Registry, kind: Type, parse: (Level, string) -> V)
    requires Unique(list)
    ensures (forall k :: 0 <= k < |list| ==> !OverwritesAt(list, kind, parse, k)) <==> Agrees(list, kind, parse)
  {
    hide Overwrites, OverwritesAt, Agrees, Lookup, Unique;
    AgreesExactly(list, kind, parse);
    var first := FirstLevel(list, kind);
    forall k | 0 <= k < |list| && OverwritesAt(list, kind, parse, k) ensures !Agrees(list, kind, parse) {
      OverwritingDisagrees(list, kind, parse, k);
    }
    if !Agrees(list, kind, parse) {
      var k := EntryOf(list, GLOBAL, kind);
      LateGlobalOverwrites(list, kind, parse, k);
    }
  }

  lemma OverwritingDisagrees<V(!new)>(list: Registry, kind: Type, parse: (Level, string) -> V, k: nat)
    requires Unique(list) && k < |list| && OverwritesAt(list, kind, parse, k)
    ensures !Agrees(list, kind, parse)
  {
    hide Agrees, Unique, Overwrites;
    AgreesExactly(list, kind, parse);
    OverwritesOnlyGlobal(list, kind, parse, k);
    EntryIsFound(list, k);
    FirstStays(list, k, kind);
    FirstIsRegistered(list[..k], kind);
  }

  lemma LateGlobalOverwrites<V(!new)>(list: Registry, kind: Type, parse: (Level, string) -> V, k: nat)
    requires Unique(list) && k < |list| && list[k].Is(GLOBAL, kind) && !Agrees(list, kind, parse)
    ensures OverwritesAt(list, kind, parse, k)
  {
    hide Agrees, Unique, Overwrites, OverwritesAt;
    AgreesExactly(list, kind, parse);
    OverwritesOnlyGlobal(list, kind, parse, k);
    EntryIsFound(list, k);
    FirstStays(list, k, kind);
    if FirstLevel(list[..k], kind) == None {
      assert list == list[..k] + list[k..];
      FirstLevelOfBoth(list[..k], list[k..], kind);
    } else {
      FirstIsRegistered(list[..k], kind);
    }
  }

  /** A type that has a first entry below `k` keeps it, with its value. */
  lemma FirstStays(list: Registry, k: nat, kind: Type)
    requires k <= |list|
    ensures FirstLevel(list[..k], kind).Some? ==> FirstLevel(list, kind) == FirstLevel(list[..k], kind)
    ensures forall l :: Lookup(list[..k], l, kind).Some? ==> Lookup(list, l, kind) == Lookup(list[..k], l, kind)
  {
    assert list == list[..k] + list[k..];
    FirstLevelOfBoth(list[..k], list[k..], kind);
    forall l {
      LookupOfBoth(list[..k], list[k..], l, kind);
    }
  }

  lemma {:induction false} FirstIsRegistered(list: Registry, kind: Type)
    ensures FirstLevel(list, kind).Some? ==> Lookup(list, FirstLevel(list, kind).value, kind).Some?
  {
    if list != [] && list[0].kind != kind {
      FirstIsRegistered(list[1..], kind);
    }
  }

  /** Debug set before Global: its later setting is lost, and lookups of Debug give Global's value. */
  lemma DebugBeforeGlobalDisagrees()
    ensures var settings := [Configuration(DEBUG, ENABLED, "true"), Configuration(GLOBAL, ENABLED, "true"),
                             Configuration(DEBUG, ENABLED, "false")];
            !Agrees(AfterSets([], settings), ENABLED, (l, s) => s == "true")
  {
    hide AfterSet, Agrees, Built;
    var debug, global, again := Configuration(DEBUG, ENABLED, "true"), Configuration(GLOBAL, ENABLED, "true"),
      Configuration(DEBUG, ENABLED, "false");
    var settings := [debug, global, again];
    var parse := (l: Level, s: string) => s == "true";
    var list := AfterSets([], settings);
    SetsKeepUnique(settings);
    FirstLevelAfterSets(settings, ENABLED);
    LookupAfterSets(settings, DEBUG, ENABLED);
    LookupAfterSets(settings, GLOBAL, ENABLED);
    assert settings[..2] == [debug, global];
    AgreesExactly(list, ENABLED, parse);
    assert Parsed(list, DEBUG, ENABLED, parse) == Some(false);
    assert Parsed(list, GLOBAL, ENABLED, parse) == Some(true);
  }

  // ----- after setToDefault and any settings -----

  const KINDS: set<Type> := {
    ENABLED, TO_FILE, TO_STANDARD_OUTPUT, FORMAT, FILENAME, MILLISECONDS_WIDTH, PERFORMANCE_TRACKING, MAX_LOG_FILE_SIZE,
        LOG_FLUSH_THRESHOLD}

  predicate IsLevel(level: Level) {
    level == GLOBAL || level in LEVELS
  }

  /** The settings of this type name only levels of the library. */
  ghost predicate KnownLevels(settings: seq<Configuration>, kind: Type) {
    forall s :: s in settings && s.kind == kind ==> IsLevel(s.level)
  }

  lemma {:induction false} EachLevelIs(levels: seq<Level>, kind: Type, value: string)
    ensures forall s :: s in EachLevel(levels, kind, value) ==> s.kind == kind && s.level in levels
  {
    if levels != [] {
      EachLevelIs(levels[..|levels| - 1], kind, value);
      assert levels == levels[..|levels| - 1] + [levels[|levels| - 1]];
    }
  }

  lemma {:induction false} NoneOfKind(list: Registry, kind: Type)
    requires forall i :: 0 <= i < |list| ==> list[i].kind != kind
    ensures FirstLevel(list, kind) == None
  {
    if list != [] {
      NoneOfKind(list[1..], kind);
    }
  }

  lemma GloballyIs(kind: Type, value: string, other: Type)
    ensures FirstLevel(Globally(kind, value), other) == if kind == other then Some(GLOBAL) else None
    ensures KnownLevels(Globally(kind, value), other)
  {
    EachLevelIs(LEVELS, kind, value);
    if kind != other {
      forall i | 0 <= i < |Globally(kind, value)| ensures Globally(kind, value)[i].kind != other {
        assert Globally(kind, value)[i] in Globally(kind, value);
      }
      NoneOfKind(Globally(kind, value), other);
    }
  }

  lemma ThenGlobally(done: seq<Configuration>, kind: Type, value: string, other: Type) returns (now: seq<Configuration>)
    requires KnownLevels(done, other)
    ensures now == done + Globally(kind, value) && KnownLevels(now, other)
    ensures FirstLevel(now, other) == OrElse(FirstLevel(done, other), if kind == other then Some(GLOBAL) else None)
  {
    GloballyIs(kind, value, other);
    FirstLevelOfBoth(done, Globally(kind, value), other);
    now := done + Globally(kind, value);
  }

  lemma ThenFormat(done: seq<Configuration>, level: Level, value: string, other: Type) returns (now: seq<Configuration>)
    requires KnownLevels(done, other) && IsLevel(level) && FirstLevel(done, other).Some?
    ensures now == done + [Configuration(level, FORMAT, value)] && KnownLevels(now, other)
    ensures FirstLevel(now, other) == FirstLevel(done, other)
  {
    FirstLevelOfBoth(done, [Configuration(level, FORMAT, value)], other);
    now := done + [Configuration(level, FORMAT, value)];
  }

  /** setToDefault sets Global first, for each type there is. */
  lemma DefaultsBeginGlobal(kind: Type)
    requires kind in KINDS
    ensures FirstLevel(Defaults(), kind) == Some(GLOBAL) && KnownLevels(Defaults(), kind)
  {
    hide Globally, FirstLevel, KnownLevels;
    GloballyIs(ENABLED, "true", kind);
    var done := Globally(ENABLED, "true");
    done := ThenGlobally(done, FILENAME, DEFAULT_LOG_FILE, kind);
    done := ThenGlobally(done, TO_FILE, "true", kind);
    done := ThenGlobally(done, TO_STANDARD_OUTPUT, "true", kind);
    done := ThenGlobally(done, MILLISECONDS_WIDTH, "3", kind);
    done := ThenGlobally(done, PERFORMANCE_TRACKING, "true", kind);
    done := ThenGlobally(done, MAX_LOG_FILE_SIZE, "0", kind);
    done := ThenGlobally(done, LOG_FLUSH_THRESHOLD, "0", kind);
    done := ThenGlobally(done, FORMAT, "%datetime %level [%logger] %msg", kind);
    done := ThenFormat(done, DEBUG, "%datetime %level [%logger] [%user@%host] [%func] [%loc] %msg", kind);
    done := ThenFormat(done, ERROR, "%datetime %level [%logger] %msg", kind);
    done := ThenFormat(done, FATAL, "%datetime %level [%logger] %msg", kind);
    done := ThenFormat(done, VERBOSE, "%datetime %level-%vlevel [%logger] %msg", kind);
    done := ThenFormat(done, TRACE, "%datetime %level [%logger] [%func] [%loc] %msg", kind);
  }

  /** Once Global is set, every level has a last setting. */
  lemma {:induction false} GlobalReachesAll(settings: seq<Configuration>, level: Level, kind: Type)
    requires IsLevel(level) && FirstLevel(settings, kind) == Some(GLOBAL)
    ensures LastSet(settings, level, kind).Some?
  {
    var front, last := settings[..|settings| - 1], settings[|settings| - 1];
    assert settings == front + [last];
    FirstLevelOfBoth(front, [last], kind);
    if FirstLevel(front, kind) == Some(GLOBAL) {
      GlobalReachesAll(front, level, kind);
    }
  }

  /** From setToDefault on, whatever is set afterwards, the compressed map of a per-level type answers
      for every level with the parsed value of the last setting that reaches that level. */
  lemma LastSettingDecides<V(!new)>(settings: seq<Configuration>, kind: Type, level: Level, parse: (Level, string) -> V)
    requires kind in KINDS && IsLevel(level)
    ensures var all := Defaults() + settings;
            LastSet(all, level, kind).Some?
            && ValueOf(Built(AfterSets([], all), kind, parse), level)
                == Some(parse(level, LastSet(all, level, kind).value))
  {
    hide FirstLevel, Lookup, LastSet, AfterSets, Defaults, KINDS;
    var all := Defaults() + settings;
    var list := AfterSets([], all);
    DefaultsBeginGlobal(kind);
    FirstLevelOfBoth(Defaults(), settings, kind);
    FirstLevelAfterSets(all, kind);
    SetsKeepUnique(all);
    GlobalReachesAll(all, level, kind);
    LookupAfterSets(all, level, kind);
    AgreesExactly(list, kind, parse);
    assert Parsed(list, level, kind, parse).Some?;
  }

  // ----- the two types that are kept for Global alone -----

  /** Lines 3189-3195: every entry of the type is stored under Global, whatever its level. */
  function BuiltAtGlobal<V(==)>(list: Registry, kind: Type, parse: string -> V): map<Level, V> {
    if list == [] then map[]
    else
      var front, last := list[..|list| - 1], list[|list| - 1];
      if last.kind != kind then BuiltAtGlobal(front, kind, parse)
      else WithValue(BuiltAtGlobal(front, kind, parse), GLOBAL, parse(last.value))
  }

  lemma {:induction false} LastEntryOfBoth(a: Registry, b: Registry, kind: Type)
    ensures LastEntry(a + b, kind) == OrElse(LastEntry(b, kind), LastEntry(a, kind))
  {
    if a == [] {
      assert a + b == b;
    } else {
      LastEntryOfBoth(a[1..], b, kind);
      assert (a + b)[1..] == a[1..] + b;
    }
  }

  /** The entry registered last overwrites all others. */
  lemma {:induction false} LastEntryDecides<V>(list: Registry, kind: Type, parse: string -> V)
    ensures var last := LastEntry(list, kind);
            BuiltAtGlobal(list, kind, parse) == if last.None? then map[] else map[GLOBAL := parse(last.value.value)]
  {
    if list != [] {
      var front, last := list[..|list| - 1], list[|list| - 1];
      LastEntryDecides(front, kind, parse);
      LastEntryOfBoth(front, [last], kind);
      assert list == front + [last];
    }
  }

  function LevelOf(c: Option<Configuration>): Option<Level> {
    if c.Some? then Some(c.value.level) else None
  }

  lemma {:induction false} LastEntryAfterPut(list: Registry, c: Configuration, kind: Type)
    ensures LevelOf(LastEntry(Put(list, c), kind))
         == if c.kind == kind && Lookup(list, c.level, c.kind) == None then Some(c.level)
             else LevelOf(LastEntry(list, kind))
  {
    if list != [] {
      LastEntryAfterPut(list[1..], c, kind);
    }
  }

  lemma {:induction false} LastEntryAfterPutEach(list: Registry, levels: seq<Level>, put: Type, value: string,
      kind: Type)
    requires put != kind || forall l :: l in levels ==> Lookup(list, l, put).Some?
    ensures LevelOf(LastEntry(PutEach(list, levels, put, value), kind)) == LevelOf(LastEntry(list, kind))
  {
    hide Lookup, LastEntry, Put;
    if levels != [] {
      var front, last := levels[..|levels| - 1], levels[|levels| - 1];
      assert levels == front + [last];
      LastEntryAfterPutEach(list, front, put, value, kind);
      LookupAfterPutEach(list, front, Configuration(last, put, value), last, put);
      LastEntryAfterPut(PutEach(list, front, put, value), Configuration(last, put, value), kind);
    }
  }

  lemma {:induction false} LastEntryOfNewLevels(list: Registry, levels: seq<Level>, kind: Type, value: string)
    requires levels != [] && forall i, j :: 0 <= i < j < |levels| ==> levels[i] != levels[j]
    requires forall l :: l in levels ==> Lookup(list, l, kind) == None
    ensures LevelOf(LastEntry(PutEach(list, levels, kind, value), kind)) == Some(levels[|levels| - 1])
  {
    hide Lookup, LastEntry, Put;
    var front, last := levels[..|levels| - 1], levels[|levels| - 1];
    LookupAfterPutEach(list, front, Configuration(last, kind, value), last, kind);
    LastEntryAfterPut(PutEach(list, front, kind, value), Configuration(last, kind, value), kind);
  }

  /** The first Global setting of a type registers Info last. */
  lemma FirstGlobalEndsInInfo(list: Registry, c: Configuration)
    requires c.level == GLOBAL && forall l :: Lookup(list, l, c.kind) == None
    ensures LevelOf(LastEntry(AfterSet(list, c), c.kind)) == Some(INFO)
  {
    hide Lookup, LastEntry, Put, PutEach;
    var first := Put(list, c);
    forall l | l in LEVELS ensures Lookup(first, l, c.kind) == None {
      LookupAfterPut(list, c, l, c.kind);
    }
    LastEntryOfNewLevels(first, LEVELS, c.kind, c.value);
    forall l | l in LEVELS ensures Lookup(AfterUnsafeSet(list, c), l, c.kind).Some? {
      LookupAfterPutEach(first, LEVELS, c, l, c.kind);
    }
    LastEntryAfterPutEach(AfterUnsafeSet(list, c), LEVELS, c.kind, c.value, c.kind);
  }

  /** Later settings add no entry. */
  lemma LastEntryAfterSet(list: Registry, c: Configuration, kind: Type)
    requires c.kind != kind || (IsLevel(c.level) && forall l :: IsLevel(l) ==> Lookup(list, l, kind).Some?)
    ensures LevelOf(LastEntry(AfterSet(list, c), kind)) == LevelOf(LastEntry(list, kind))
  {
    hide Lookup, LastEntry, Put, PutEach;
    LastEntryAfterPut(list, c, kind);
    forall l | l in LEVELS
      ensures c.kind == kind ==>
                Lookup(Put(list, c), l, c.kind).Some? && Lookup(AfterUnsafeSet(list, c), l, c.kind).Some?
    {
      LookupAfterPut(list, c, l, c.kind);
      LookupAfterPutEach(Put(list, c), LEVELS, c, l, c.kind);
    }
    LastEntryAfterPutEach(Put(list, c), LEVELS, c.kind, c.value, kind);
    LastEntryAfterPutEach(AfterUnsafeSet(list, c), LEVELS, c.kind, c.value, kind);
  }

  lemma {:induction false} NeverSet(settings: seq<Configuration>, level: Level, kind: Type)
    requires FirstLevel(settings, kind) == None
    ensures LastSet(settings, level, kind) == None
  {
    if settings != [] {
      var front, last := settings[..|settings| - 1], settings[|settings| - 1];
      assert settings == front + [last];
      FirstLevelOfBoth(front, [last], kind);
      NeverSet(front, level, kind);
    }
  }

  /** Settings that begin with Global and name known levels leave Info registered last. */
  lemma {:induction false} InfoStaysLast(settings: seq<Configuration>, kind: Type)
    requires FirstLevel(settings, kind) == Some(GLOBAL) && KnownLevels(settings, kind)
    ensures LevelOf(LastEntry(AfterSets([], settings), kind)) == Some(INFO)
  {
    hide AfterSet, Lookup, LastEntry, LastSet;
    var front, last := settings[..|settings| - 1], settings[|settings| - 1];
    assert settings == front + [last];
    assert last in settings;
    FirstLevelOfBoth(front, [last], kind);
    if FirstLevel(front, kind) == Some(GLOBAL) {
      InfoStaysLast(front, kind);
      forall l | IsLevel(l) ensures Lookup(AfterSets([], front), l, kind).Some? {
        GlobalReachesAll(front, l, kind);
        LookupAfterSets(front, l, kind);
      }
      LastEntryAfterSet(AfterSets([], front), last, kind);
    } else {
      forall l ensures Lookup(AfterSets([], front), l, kind) == None {
        NeverSet(front, l, kind);
        LookupAfterSets(front, l, kind);
      }
      FirstGlobalEndsInInfo(AfterSets([], front), last);
    }
  }

  lemma {:induction false} LastEntryIsRegistered(list: Registry, kind: Type)
    requires Unique(list) && LastEntry(list, kind).Some?
    ensures var last := LastEntry(list, kind).value;
            last in list && last.kind == kind && Lookup(list, last.level, kind) == Some(last.value)
  {
    if LastEntry(list[1..], kind).Some? {
      LastEntryIsRegistered(list[1..], kind);
      var last := LastEntry(list[1..], kind).value;
      var j :| 0 <= j < |list[1..]| && list[1..][j] == last;
      assert !list[j + 1].Is(list[0].level, list[0].kind);
    }
  }

  /** After setToDefault, MillisecondsWidth and PerformanceTracking are what the last setting that
      reaches Info says: settings for Global or Info count, those for the other levels do nothing. */
  lemma OnlyInfoCounts<V>(settings: seq<Configuration>, kind: Type, parse: string -> V)
    requires kind in KINDS && KnownLevels(settings, kind)
    ensures var all := Defaults() + settings;
            LastSet(all, INFO, kind).Some?
            && BuiltAtGlobal(AfterSets([], all), kind, parse) == map[GLOBAL := parse(LastSet(all, INFO, kind).value)]
  {
    hide FirstLevel, Lookup, LastSet, AfterSets, Defaults, KINDS, LastEntry;
    var all := Defaults() + settings;
    var list := AfterSets([], all);
    DefaultsBeginGlobal(kind);
    FirstLevelOfBoth(Defaults(), settings, kind);
    InfoStaysLast(all, kind);
    GlobalReachesAll(all, INFO, kind);
    LookupAfterSets(all, INFO, kind);
    SetsKeepUnique(all);
    LastEntryIsRegistered(list, kind);
    LastEntryDecides(list, kind, parse);
  }

  /** Against the documentation, setting Info alone changes the value kept for Global; setting Debug
      alone does not. */
  lemma InfoOverridesGlobal<V>(value: string, parse: string -> V)
    ensures var info := AfterSets([], Defaults() + [Configuration(INFO, MILLISECONDS_WIDTH, value)]);
            BuiltAtGlobal(info, MILLISECONDS_WIDTH, parse) == map[GLOBAL := parse(value)]
    ensures var debug := AfterSets([], Defaults() + [Configuration(DEBUG, MILLISECONDS_WIDTH, value)]);
            BuiltAtGlobal(debug, MILLISECONDS_WIDTH, parse)
              == BuiltAtGlobal(AfterSets([], Defaults()), MILLISECONDS_WIDTH, parse)
  {
    hide BuiltAtGlobal, AfterSets, Defaults;
    var info, debug := Configuration(INFO, MILLISECONDS_WIDTH, value), Configuration(DEBUG, MILLISECONDS_WIDTH, value);
    OnlyInfoCounts([info], MILLISECONDS_WIDTH, parse);
    OnlyInfoCounts([debug], MILLISECONDS_WIDTH, parse);
    OnlyInfoCounts([], MILLISECONDS_WIDTH, parse);
    assert Defaults() + [] == Defaults();
    assert (Defaults() + [info])[..|Defaults()|] == Defaults();
    assert (Defaults() + [debug])[..|Defaults()|] == Defaults();
  }

  // ----- the typed maps -----

  predicate IsSpace(c: char) {
    c == ' ' || '\t' <= c <= '\r'
  }

  function TrimRight(s: string): string {
    if s != [] && IsSpace(s[|s| - 1]) then TrimRight(s[..|s| - 1]) else s
  }

  function TrimLeft(s: string): string {
    if s != [] && IsSpace(s[0]) then TrimLeft(s[1..]) else s
  }

  /** Lines 3161-3164. */
  function ParseBool(s: string): bool {
    var t := TrimLeft(TrimRight(s));
    t == "TRUE" || t == "true" || t == "1"
  }

  function Decimal(s: string): nat
    requires forall i :: 0 <= i < |s| ==> '0' <= s[i] <= '9'
  {
    if s == [] then 0 else 10 * Decimal(s[..|s| - 1]) + (s[|s| - 1] as int - '0' as int)
  }

  /** Lines 3220-3233. */
  function ParseULong(s: string): nat {
    var t := TrimLeft(TrimRight(s));
    if t != [] && forall i :: 0 <= i < |t| ==> '0' <= t[i] <= '9' then Decimal(t) else 0
  }

  /** Lines 921-943, after the cast to int: widths outside 1 to 6 become 3. */
  function MillisecondsWidth(value: nat): nat {
    var width := value % 0x1_0000_0000;
    if 1 <= width <= 6 then width else 3
  }

  /** The constructor computes the other fields of a LogFormat from these two. The assignment operator
      does not copy one of them, m_format; by OverwritesExactly it is called only when Global is
      registered after another level of the type. */
  datatype LogFormat = LogFormat(level: Level, userFormat: string)

  class TypedConfigurations {
    var enabledMap: map<Level, bool>
    var toFileMap: map<Level, bool>
    var toStandardOutputMap: map<Level, bool>
    var logFormatMap: map<Level, LogFormat>
    var millisecondsWidthMap: map<Level, nat>
    var performanceTrackingMap: map<Level, bool>
    var maxLogFileSizeMap: map<Level, nat>
    var logFlushThresholdMap: map<Level, nat>

    /** Lines 3135-3157; what it means for lookups is in SettingDecides. */
    static method SetValue<V(==)>(level: Level, value: V, confMap: map<Level, V>) returns (newMap: map<Level, V>)
      ensures newMap == WithValue(confMap, level, value)
      ensures Answers(confMap, level, value, newMap)
    {
      SettingDecides(confMap, level, value);
      if confMap == map[] {
        return confMap[GLOBAL := value];
      }
      if GLOBAL in confMap && confMap[GLOBAL] == value {
        return confMap;
      }
      return confMap[level := value];
    }

    /** Lines 3100-3116. */
    static method UnsafeGetConfigByVal<V>(level: Level, confMap: map<Level, V>) returns (value: Option<V>)
      ensures value == ValueOf(confMap, level)
    {
      if level !in confMap {
        if GLOBAL in confMap {
          return Some(confMap[GLOBAL]);
        }
        return None;
      }
      return Some(confMap[level]);
    }

    ghost predicate IsBuiltFrom(list: Registry)
      reads this
    {
      && enabledMap == Built(list, ENABLED, (l, s) => ParseBool(s))
      && toFileMap == Built(list, TO_FILE, (l, s) => ParseBool(s))
      && toStandardOutputMap == Built(list, TO_STANDARD_OUTPUT, (l, s) => ParseBool(s))
      && logFormatMap == Built(list, FORMAT, (l, s) => LogFormat(l, s))
      && millisecondsWidthMap == BuiltAtGlobal(list, MILLISECONDS_WIDTH, s => MillisecondsWidth(ParseULong(s)))
      && performanceTrackingMap == BuiltAtGlobal(list, PERFORMANCE_TRACKING, s => ParseBool(s))
      && maxLogFileSizeMap == Built(list, MAX_LOG_FILE_SIZE, (l, s) => ParseULong(s))
      && logFlushThresholdMap == Built(list, LOG_FLUSH_THRESHOLD, (l, s) => ParseULong(s))
    }

    /** Lines 3159-3205; the files are not opened. */
    constructor (configurations: Configurations)
      ensures IsBuiltFrom(configurations.list)
    {
      enabledMap, toFileMap, toStandardOutputMap, logFormatMap := map[], map[], map[], map[];
      millisecondsWidthMap, performanceTrackingMap := map[], map[];
      maxLogFileSizeMap, logFlushThresholdMap := map[], map[];
      new;
      var list := configurations.list;
      NothingBuilt();
      hide IsBuiltFrom;
      for i := 0 to |list|
        invariant IsBuiltFrom(list[..i])
      {
        assert list[..i + 1][..i] == list[..i];
        BuildOne(list[..i + 1]);
      }
      assert list[..|list|] == list;
    }

    /** Lines 3028-3030; a map without an entry for the level or for Global answers false. */
    method Enabled(level: Level) returns (on: bool)
      ensures on <==> ValueOf(enabledMap, level) == Some(true)
    {
      var value := UnsafeGetConfigByVal(level, enabledMap);
      return value.Some? && value.value;
    }

    /** Maps built after setToDefault and any further settings enable a level exactly if the last setting
        that reaches it says so. */
    lemma EnabledAsSet(level: Level, settings: seq<Configuration>)
      requires IsLevel(level) && IsBuiltFrom(AfterSets([], Defaults() + settings))
      ensures var last := LastSet(Defaults() + settings, level, ENABLED);
              last.Some? && ValueOf(enabledMap, level) == Some(ParseBool(last.value))
    {
      hide AfterSets, Defaults, LastSet, Built, ParseBool, ValueOf;
      LastSettingDecides(settings, ENABLED, level, (l, s) => ParseBool(s));
    }

    lemma NothingBuilt()
      requires enabledMap == toFileMap == toStandardOutputMap == performanceTrackingMap == map[]
      requires logFormatMap == map[]
      requires millisecondsWidthMap == maxLogFileSizeMap == logFlushThresholdMap == map[]
      ensures IsBuiltFrom([])
    {
    }

    /** One turn of the loop, for the last entry of those passed so far. */
    method BuildOne(passed: Registry)
      requires passed != [] && IsBuiltFrom(passed[..|passed| - 1])
      modifies this
      ensures IsBuiltFrom(passed)
    {
      hide Answers, WithValue, ParseBool, ParseULong, MillisecondsWidth;
      var conf := passed[|passed| - 1];
      if conf.kind == ENABLED {
        enabledMap := SetValue(conf.level, ParseBool(conf.value), enabledMap);
      } else if conf.kind == TO_FILE {
        toFileMap := SetValue(conf.level, ParseBool(conf.value), toFileMap);
      } else if conf.kind == TO_STANDARD_OUTPUT {
        toStandardOutputMap := SetValue(conf.level, ParseBool(conf.value), toStandardOutputMap);
      } else if conf.kind == FORMAT {
        logFormatMap := SetValue(conf.level, LogFormat(conf.level, conf.value), logFormatMap);
      } else if conf.kind == MILLISECONDS_WIDTH {
        millisecondsWidthMap := SetValue(GLOBAL, MillisecondsWidth(ParseULong(conf.value)), millisecondsWidthMap);
      } else if conf.kind == PERFORMANCE_TRACKING {
        performanceTrackingMap := SetValue(GLOBAL, ParseBool(conf.value), performanceTrackingMap);
      } else if conf.kind == MAX_LOG_FILE_SIZE {
        maxLogFileSizeMap := SetValue(conf.level, ParseULong(conf.value), maxLogFileSizeMap);
      } else if conf.kind == LOG_FLUSH_THRESHOLD {
        logFlushThresholdMap := SetValue(conf.level, ParseULong(conf.value), logFlushThresholdMap);
      }
    }
  }
}
