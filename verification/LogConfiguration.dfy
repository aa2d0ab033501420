// externals/easyloggingpp/easylogging++.h: the registry of log settings per level and type, and the
// per-type maps it is compressed into, which fall back on the Global level.
module LogConfiguration {
  type Level = nat
  type Type = nat

  // Lines 535-554.
  const GLOBAL: Level := 1
  const TRACE: Level := 2
  const DEBUG: Level := 4
  const FATAL: Level := 8
  const ERROR: Level := 16
  const WARNING: Level := 32
  const VERBOSE: Level := 64
  const INFO: Level := 128

  // Lines 622-650.
  const ENABLED: Type := 1
  const TO_FILE: Type := 2
  const TO_STANDARD_OUTPUT: Type := 4
  const FORMAT: Type := 8
  const FILENAME: Type := 16
  const MILLISECONDS_WIDTH: Type := 32
  const PERFORMANCE_TRACKING: Type := 64
  const MAX_LOG_FILE_SIZE: Type := 128
  const LOG_FLUSH_THRESHOLD: Type := 256

  const DEFAULT_LOG_FILE := "logs/myeasylog.log"

  /** The levels below Global, in the order forEachLevel visits them. */
  const LEVELS: seq<Level> := [TRACE, DEBUG, FATAL, ERROR, WARNING, VERBOSE, INFO]

  datatype Configuration = Configuration(level: Level, kind: Type, value: string)
  {
    predicate Is(level: Level, kind: Type) {
      this.level == level && this.kind == kind
    }
  }

  type Registry = seq<Configuration>

  datatype Option<T> = None | Some(value: T)

  // ----- the registry -----

  /** The first setting for this level and type. */
  function Lookup(list: Registry, level: Level, kind: Type): Option<string> {
    if list == [] then None
    else if list[0].Is(level, kind) then Some(list[0].value)
    else Lookup(list[1..], level, kind)
  }

  /** Changes the first setting for this level and type, or adds one at the end. */
  function Put(list: Registry, c: Configuration): Registry {
    if list == [] then [c]
    else if list[0].Is(c.level, c.kind) then [c] + list[1..]
    else [list[0]] + Put(list[1..], c)
  }

  function PutEach(list: Registry, levels: seq<Level>, kind: Type, value: string): Registry {
    if levels == [] then list
    else Put(PutEach(list, levels[..|levels| - 1], kind, value), Configuration(levels[|levels| - 1], kind, value))
  }

  /** What unsafeSet leaves: setting Global sets every other level after it. */
  function AfterUnsafeSet(list: Registry, c: Configuration): Registry {
    if c.level == GLOBAL then PutEach(Put(list, c), LEVELS, c.kind, c.value) else Put(list, c)
  }

  /** What set leaves: for Global, the other levels are set a second time. */
  function AfterSet(list: Registry, c: Configuration): Registry {
    if c.level == GLOBAL then PutEach(AfterUnsafeSet(list, c), LEVELS, c.kind, c.value) else AfterUnsafeSet(list, c)
  }

  function AfterSets(list: Registry, settings: seq<Configuration>): Registry {
    if settings == [] then list else AfterSet(AfterSets(list, settings[..|settings| - 1]), settings[|settings| - 1])
  }

  /** The calls of set that setGlobally makes when it includes Global. */
  function Globally(kind: Type, value: string): seq<Configuration> {
    [Configuration(GLOBAL, kind, value)] + EachLevel(LEVELS, kind, value)
  }

  function EachLevel(levels: seq<Level>, kind: Type, value: string): seq<Configuration> {
    if levels == [] then []
    else EachLevel(levels[..|levels| - 1], kind, value) + [Configuration(levels[|levels| - 1], kind, value)]
  }

  /** The calls of set that setToDefault makes. */
  function Defaults(): seq<Configuration> {
    Globally(ENABLED, "true") + Globally(FILENAME, DEFAULT_LOG_FILE) + Globally(TO_FILE, "true")
    + Globally(TO_STANDARD_OUTPUT, "true") + Globally(MILLISECONDS_WIDTH, "3") + Globally(PERFORMANCE_TRACKING, "true")
    + Globally(MAX_LOG_FILE_SIZE, "0") + Globally(LOG_FLUSH_THRESHOLD, "0")
        + Globally(FORMAT, "%datetime %level [%logger] %msg")
    + [Configuration(DEBUG, FORMAT, "%datetime %level [%logger] [%user@%host] [%func] [%loc] %msg")]
    + [Configuration(ERROR, FORMAT, "%datetime %level [%logger] %msg")]
    + [Configuration(FATAL, FORMAT, "%datetime %level [%logger] %msg")]
    + [Configuration(VERBOSE, FORMAT, "%datetime %level-%vlevel [%logger] %msg")]
    + [Configuration(TRACE, FORMAT, "%datetime %level [%logger] [%func] [%loc] %msg")]
  }

  class Configurations {
    var list: Registry

    constructor ()
      ensures list == []
    {
      list := [];
    }

    /** Lines 2166-2173: std::find_if over the registry. */
    method Find(level: Level, kind: Type) returns (index: nat)
      ensures index <= |list|
      ensures index < |list| ==> list[index].Is(level, kind)
      ensures forall j :: 0 <= j < index ==> !list[j].Is(level, kind)
    {
      index := 0;
      while index < |list| && !list[index].Is(level, kind)
        invariant index <= |list|
        invariant forall j :: 0 <= j < index ==> !list[j].Is(level, kind)
      {
        index := index + 1;
      }
    }

    /** Lines 2954-2966. */
    method UnsafeSet(level: Level, kind: Type, value: string)
      modifies this
      ensures list == AfterUnsafeSet(old(list), Configuration(level, kind, value))
      decreases if level == GLOBAL then 2 else 0
    {
      var i := Find(level, kind);
      PutAt(list, i, Configuration(level, kind, value));
      if i == |list| {
        list := list + [Configuration(level, kind, value)];
      } else {
        list := list[i := list[i].(value := value)];
      }
      if level == GLOBAL {
        UnsafeSetGlobally(kind, value, false);
      }
    }

    /** Lines 2981-2992, with the loop of lines 610-618. */
    method UnsafeSetGlobally(kind: Type, value: string, includeGlobalLevel: bool)
      modifies this
      ensures var start := if includeGlobalLevel then AfterUnsafeSet(old(list), Configuration(GLOBAL, kind, value))
          else old(list);
              list == PutEach(start, LEVELS, kind, value)
      decreases if includeGlobalLevel then 3 else 1
    {
      if includeGlobalLevel {
        UnsafeSet(GLOBAL, kind, value);
      }
      ghost var start := list;
      var level := TRACE;
      ghost var k := 0;
      while level <= INFO
        invariant 0 <= k <= 7 && level == if k < 7 then LEVELS[k] else 256
        invariant list == PutEach(start, LEVELS[..k], kind, value)
        decreases 7 - k
      {
        assert LEVELS[..k + 1][..k] == LEVELS[..k];
        UnsafeSet(level, kind, value);
        level, k := 2 * level, k + 1;
      }
      assert LEVELS[..7] == LEVELS;
    }

    /** Lines 2684-2690. */
    method Set(level: Level, kind: Type, value: string)
      modifies this
      ensures list == AfterSet(old(list), Configuration(level, kind, value))
    {
      UnsafeSet(level, kind, value);
      if level == GLOBAL {
        UnsafeSetGlobally(kind, value, false);
      }
    }

    /** Lines 2968-2979. */
    method SetGlobally(kind: Type, value: string, includeGlobalLevel: bool)
      modifies this
      ensures list == AfterSets(old(list), if includeGlobalLevel then Globally(kind, value)
          else EachLevel(LEVELS, kind, value))
    {
      hide AfterSet, AfterSets, EachLevel;
      if includeGlobalLevel {
        OneSet(list, Configuration(GLOBAL, kind, value));
        Set(GLOBAL, kind, value);
        SetsCompose(old(list), [Configuration(GLOBAL, kind, value)], EachLevel(LEVELS, kind, value));
      }
      SetEachLevel(kind, value);
    }

    method SetEachLevel(kind: Type, value: string)
      modifies this
      ensures list == AfterSets(old(list), EachLevel(LEVELS, kind, value))
    {
      hide AfterSet;
      var level := TRACE;
      ghost var k := 0;
      while level <= INFO
        invariant 0 <= k <= 7 && level == if k < 7 then LEVELS[k] else 256
        invariant list == AfterSets(old(list), EachLevel(LEVELS[..k], kind, value))
        decreases 7 - k
      {
        assert LEVELS[..k + 1][..k] == LEVELS[..k];
        ghost var done, c := EachLevel(LEVELS[..k], kind, value), Configuration(level, kind, value);
        assert (done + [c])[..|done|] == done;
        Set(level, kind, value);
        level, k := 2 * level, k + 1;
      }
      assert LEVELS[..7] == LEVELS;
    }

    /** Lines 2728-2754. */
    method SetToDefault()
      modifies this
      ensures list == AfterSets(old(list), Defaults())
    {
      hide AfterSet, AfterSets, Globally;
      SetGlobally(ENABLED, "true", true);
      ghost var done := Globally(ENABLED, "true");
      done := Default(FILENAME, DEFAULT_LOG_FILE, old(list), done);
      done := Default(TO_FILE, "true", old(list), done);
      done := Default(TO_STANDARD_OUTPUT, "true", old(list), done);
      done := Default(MILLISECONDS_WIDTH, "3", old(list), done);
      done := Default(PERFORMANCE_TRACKING, "true", old(list), done);
      done := Default(MAX_LOG_FILE_SIZE, "0", old(list), done);
      done := Default(LOG_FLUSH_THRESHOLD, "0", old(list), done);
      done := Default(FORMAT, "%datetime %level [%logger] %msg", old(list), done);
      done := DefaultFormat(DEBUG, "%datetime %level [%logger] [%user@%host] [%func] [%loc] %msg", old(list), done);
      done := DefaultFormat(ERROR, "%datetime %level [%logger] %msg", old(list), done);
      done := DefaultFormat(FATAL, "%datetime %level [%logger] %msg", old(list), done);
      done := DefaultFormat(VERBOSE, "%datetime %level-%vlevel [%logger] %msg", old(list), done);
      done := DefaultFormat(TRACE, "%datetime %level [%logger] [%func] [%loc] %msg", old(list), done);
    }

    /** One setGlobally of setToDefault, after those in `done`. */
    method Default(kind: Type, value: string, ghost start: Registry, ghost done: seq<Configuration>)
      returns (ghost now: seq<Configuration>)
      requires list == AfterSets(start, done)
      modifies this
      ensures now == done + Globally(kind, value) && list == AfterSets(start, now)
    {
      hide AfterSets;
      SetGlobally(kind, value, true);
      SetsCompose(start, done, Globally(kind, value));
      now := done + Globally(kind, value);
    }

    /** One set of setToDefault, after those in `done`. */
    method DefaultFormat(level: Level, value: string, ghost start: Registry, ghost done: seq<Configuration>)
      returns (ghost now: seq<Configuration>)
      requires list == AfterSets(start, done)
      modifies this
      ensures now == done + [Configuration(level, FORMAT, value)] && list == AfterSets(start, now)
    {
      hide AfterSets;
      OneSet(list, Configuration(level, FORMAT, value));
      Set(level, FORMAT, value);
      SetsCompose(start, done, [Configuration(level, FORMAT, value)]);
      now := done + [Configuration(level, FORMAT, value)];
    }
  }

  lemma {:induction false} PutAt(list: Registry, i: nat, c: Configuration)
    requires i <= |list| && (i < |list| ==> list[i].Is(c.level, c.kind))
    requires forall j :: 0 <= j < i ==> !list[j].Is(c.level, c.kind)
    ensures Put(list, c) == if i == |list| then list + [c] else list[i := c]
  {
    if list != [] && i > 0 {
      PutAt(list[1..], i - 1, c);
    }
  }

  lemma OneSet(list: Registry, c: Configuration)
    ensures AfterSets(list, [c]) == AfterSet(list, c)
  {
    hide AfterSet;
    assert [c][..0] == [];
  }

  lemma {:induction false} SetsCompose(list: Registry, first: seq<Configuration>, second: seq<Configuration>)
    ensures AfterSets(AfterSets(list, first), second) == AfterSets(list, first + second)
  {
    hide AfterSet;
    if second == [] {
      assert first + second == first;
    } else {
      var front := second[..|second| - 1];
      SetsCompose(list, first, front);
      assert (first + second)[..|first + second| - 1] == first + front;
    }
  }
}
