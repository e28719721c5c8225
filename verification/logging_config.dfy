/** The logging-configuration actor: the configuration records with their defaults,
    and `_update_logging`, which moves the logger levels from the current
    configuration to a new one. Loggers are named by strings; as in Python's
    `logging.getLogger`, the names "" and "root" both denote the root logger. */
module LoggingConfig {
  import opened Wrappers

  /** The level names accepted in a configuration (those of
      `logging.getLevelNamesMapping()`). */
  datatype LogLevel =
    | NotSetLevel
    | DebugLevel
    | InfoLevel
    | WarnLevel
    | WarningLevel
    | ErrorLevel
    | FatalLevel
    | CriticalLevel

  /** A level name as written in a configuration. */
  function Name(l: LogLevel): string
  {
    match l
    case NotSetLevel => "NOTSET"
    case DebugLevel => "DEBUG"
    case InfoLevel => "INFO"
    case WarnLevel => "WARN"
    case WarningLevel => "WARNING"
    case ErrorLevel => "ERROR"
    case FatalLevel => "FATAL"
    case CriticalLevel => "CRITICAL"
  }

  /** The `LogLevel` field's validation: a name is accepted exactly when it is one of
      the level names. */
  function ParseLevel(s: string): (r: Option<LogLevel>)
    ensures r.Some? ==> Name(r.value) == s
    ensures r.None? <==> forall l: LogLevel :: Name(l) != s
  {
    if s == "NOTSET" then Some(NotSetLevel)
    else if s == "DEBUG" then Some(DebugLevel)
    else if s == "INFO" then Some(InfoLevel)
    else if s == "WARN" then Some(WarnLevel)
    else if s == "WARNING" then Some(WarningLevel)
    else if s == "ERROR" then Some(ErrorLevel)
    else if s == "FATAL" then Some(FatalLevel)
    else if s == "CRITICAL" then Some(CriticalLevel)
    else None
  }

  /** Every level name parses back to its level. */
  lemma ParseName(l: LogLevel)
    ensures ParseLevel(Name(l)) == Some(l)
  {
  }

  /** The numeric level `setLevel` gives a logger for a level name. WARN and FATAL
      are aliases of WARNING and CRITICAL. */
  function Value(l: LogLevel): (v: nat)
    ensures v == 0 <==> l == NotSetLevel
    ensures v % 10 == 0 && v <= 50
  {
    match l
    case NotSetLevel => 0
    case DebugLevel => 10
    case InfoLevel => 20
    case WarnLevel => 30
    case WarningLevel => 30
    case ErrorLevel => 40
    case FatalLevel => 50
    case CriticalLevel => 50
  }

  const NotSet: nat := 0

  /** `LoggerConfig`: a level, NOTSET by default. */
  datatype LoggerConfig = LoggerConfig(level: LogLevel)

  /** `LoggingConfig`: the root logger's configuration and one per named logger. */
  datatype Config = Config(rootLogger: LoggerConfig, loggers: map<string, LoggerConfig>)

  const DefaultLogger: LoggerConfig := LoggerConfig(NotSetLevel)

  /** `LoggingConfig()`: root NOTSET and no named loggers. */
  const Default: Config := Config(DefaultLogger, map[])

  /** The configuration `_run` applies for a received one: `None` means the default. */
  function ConfigOrDefault(c: Option<Config>): (r: Config)
    ensures c.Some? ==> r == c.value
    ensures c.None? ==> r.loggers == map[] && Value(r.rootLogger.level) == NotSet
  {
    if c.Some? then c.value else Default
  }

  const RootName: string := "root"

  /** The names that `logging.getLogger` resolves to the root logger. */
  predicate IsRoot(name: string)
  {
    name == "" || name == RootName
  }

  /** The logger a name resolves to. */
  function Canonical(name: string): (r: string)
    ensures IsRoot(name) <==> r == RootName
    ensures !IsRoot(name) ==> r == name
  {
    if name == "" then RootName else name
  }

  /** The loggers' levels, keyed by the resolved name. A logger never configured has
      level NOTSET. */
  type Levels = map<string, nat>

  function LevelOf(levels: Levels, name: string): nat
  {
    var k := Canonical(name);
    if k in levels then levels[k] else NotSet
  }

  /** `logging.getLogger(name).setLevel(level)`: only that logger's level changes. */
  function SetLevel(levels: Levels, name: string, level: nat): (r: Levels)
    ensures LevelOf(r, name) == level
    ensures forall n :: Canonical(n) != Canonical(name) ==> LevelOf(r, n) == LevelOf(levels, n)
  {
    levels[Canonical(name) := level]
  }

  /** The actor's state: the configuration it applied last and the loggers' levels. */
  datatype Actor = Actor(current: Config, levels: Levels)

  /** The loggers resolved from a set of names. */
  function Resolved(names: set<string>): set<string>
  {
    set n | n in names :: Canonical(n)
  }

  lemma ResolvedStep(done: set<string>, n: string)
    ensures Resolved(done + {n}) == Resolved(done) + {Canonical(n)}
  {
    assert Canonical(n) in Resolved(done + {n});
  }

  /** A logger that is not the root is resolved from a set of names only if its own
      name is in it. */
  lemma ResolvedOther(names: set<string>, n: string)
    requires !IsRoot(n)
    ensures Canonical(n) in Resolved(names) <==> n in names
  {
  }

  /** What applying `config` to actor `a` promises of the resulting actor `b`: the new
      configuration is current; every logger it names, other than the root, has
      exactly its configured level; every other logger the old configuration named is
      reset to NOTSET; the root logger has the new root level, unless the new
      configuration also names the root logger under "" or "root", in which case it
      has one of those levels; and every logger named by neither configuration keeps
      its level. */
  ghost predicate Applied(a: Actor, config: Config, b: Actor)
  {
    && b.current == config
    && (forall n :: n in config.loggers && !IsRoot(n) ==>
          LevelOf(b.levels, n) == Value(config.loggers[n].level))
    && (forall n :: n in a.current.loggers && n !in config.loggers && !IsRoot(n) ==>
          LevelOf(b.levels, n) == NotSet)
    && ((forall n :: n in config.loggers ==> !IsRoot(n)) ==>
          LevelOf(b.levels, RootName) == Value(config.rootLogger.level))
    && ((exists n :: n in config.loggers && IsRoot(n)) ==>
          exists n :: n in config.loggers && IsRoot(n) && LevelOf(b.levels, RootName) == Value(config.loggers[n].level))
    && (forall n :: !IsRoot(n) && n !in a.current.loggers && n !in config.loggers ==>
          LevelOf(b.levels, n) == LevelOf(a.levels, n))
  }

  /** The first loop of `_update_logging`: each named logger is reset to NOTSET, in
      an unspecified order, and no other logger changes. */
  method UnsetLevels(levels: Levels, names: set<string>) returns (r: Levels)
    ensures forall n :: n in names ==> LevelOf(r, n) == NotSet
    ensures forall n :: Canonical(n) !in Resolved(names) ==> LevelOf(r, n) == LevelOf(levels, n)
  {
    r := levels;
    var todo := names;
    while todo != {}
      invariant todo <= names
      invariant forall n :: n in names - todo ==> LevelOf(r, n) == NotSet
      invariant forall n :: Canonical(n) !in Resolved(names - todo) ==> LevelOf(r, n) == LevelOf(levels, n)
      decreases todo
    {
      var n :| n in todo;
      r := SetLevel(r, n, NotSet);
      ResolvedStep(names - todo, n);
      assert names - (todo - {n}) == (names - todo) + {n};
      todo := todo - {n};
    }
    assert names - todo == names;
  }

  /** The last loop of `_update_logging`: each configured logger takes its level, in
      an unspecified order. A logger other than the root gets exactly its level; when
      the root is named (as "" or "root") it ends with the level of one of those names;
      no other logger changes. */
  method ApplyLevels(levels: Levels, loggers: map<string, LoggerConfig>) returns (r: Levels)
    ensures forall n :: n in loggers && !IsRoot(n) ==> LevelOf(r, n) == Value(loggers[n].level)
    ensures (exists n :: n in loggers && IsRoot(n)) ==>
      exists n :: n in loggers && IsRoot(n) && LevelOf(r, RootName) == Value(loggers[n].level)
    ensures forall n :: Canonical(n) !in Resolved(loggers.Keys) ==> LevelOf(r, n) == LevelOf(levels, n)
  {
    r := levels;
    var names := loggers.Keys;
    var todo := names;
    while todo != {}
      invariant todo <= names
      invariant forall n :: n in names - todo && !IsRoot(n) ==> LevelOf(r, n) == Value(loggers[n].level)
      invariant forall n :: Canonical(n) !in Resolved(names - todo) ==> LevelOf(r, n) == LevelOf(levels, n)
      invariant (exists n :: n in names - todo && IsRoot(n)) ==>
        exists n :: n in names - todo && IsRoot(n) && LevelOf(r, RootName) == Value(loggers[n].level)
      decreases todo
    {
      var n :| n in todo;
      r := SetLevel(r, n, Value(loggers[n].level));
      ResolvedStep(names - todo, n);
      assert names - (todo - {n}) == (names - todo) + {n};
      todo := todo - {n};
    }
    assert names - todo == names;
  }

  /** `_update_logging`. The loggers of the current configuration that the new one does
      not name are reset to NOTSET; then the root logger takes the new root level; then
      each logger the new configuration names takes its level. */
  method UpdateLogging(a: Actor, config: Config) returns (b: Actor)
    ensures Applied(a, config, b)
  {
    var toUnset := a.current.loggers.Keys - config.loggers.Keys;
    var unset := UnsetLevels(a.levels, toUnset);
    var rootSet := SetLevel(unset, RootName, Value(config.rootLogger.level));
    var levels := ApplyLevels(rootSet, config.loggers);
    b := Actor(config, levels);
    forall n | n in a.current.loggers && n !in config.loggers && !IsRoot(n)
      ensures LevelOf(b.levels, n) == NotSet
    {
      ResolvedOther(config.loggers.Keys, n);
    }
    if forall n :: n in config.loggers ==> !IsRoot(n) {
      assert RootName !in Resolved(config.loggers.Keys);
    }
    forall n | !IsRoot(n) && n !in a.current.loggers && n !in config.loggers
      ensures LevelOf(b.levels, n) == LevelOf(a.levels, n)
    {
      ResolvedOther(config.loggers.Keys, n);
      ResolvedOther(toUnset, n);
    }
  }

  /** The actor's constructor: it starts from the default configuration and applies it,
      so the root logger is set to NOTSET and no other logger changes. */
  method NewActor(levels: Levels) returns (b: Actor)
    ensures b.current == Default
    ensures LevelOf(b.levels, RootName) == NotSet
    ensures forall n :: !IsRoot(n) ==> LevelOf(b.levels, n) == LevelOf(levels, n)
  {
    b := UpdateLogging(Actor(Default, levels), Default);
  }

  /** One configuration update received by `_run`: the received configuration, or the
      default for `None`, is applied. Receiving `None` resets the root logger and every
      logger configured so far to NOTSET. */
  method Receive(a: Actor, c: Option<Config>) returns (b: Actor)
    ensures b.current == ConfigOrDefault(c)
    ensures Applied(a, ConfigOrDefault(c), b)
    ensures c.None? ==> LevelOf(b.levels, RootName) == NotSet
    ensures c.None? ==> forall n :: n in a.current.loggers ==> LevelOf(b.levels, n) == NotSet
    ensures c.None? ==> forall n :: !IsRoot(n) && n !in a.current.loggers ==>
      LevelOf(b.levels, n) == LevelOf(a.levels, n)
  {
    b := UpdateLogging(a, ConfigOrDefault(c));
  }

  /** Dropping a logger from the configuration resets it to NOTSET while the kept
      logger and the root logger take their new levels. */
  lemma DropLogger(a: Actor, b: Actor)
    requires a.current == Config(LoggerConfig(ErrorLevel), map[
      "frequenz.sdk.actor" := LoggerConfig(DebugLevel),
      "frequenz.sdk.timeseries" := LoggerConfig(ErrorLevel)])
    requires Applied(a, Config(LoggerConfig(WarningLevel), map["frequenz.sdk.actor" := LoggerConfig(InfoLevel)]), b)
    ensures LevelOf(b.levels, "frequenz.sdk.actor") == 20
    ensures LevelOf(b.levels, "frequenz.sdk.timeseries") == NotSet
    ensures LevelOf(b.levels, RootName) == 30
  {
    var config := Config(LoggerConfig(WarningLevel), map["frequenz.sdk.actor" := LoggerConfig(InfoLevel)]);
    assert !IsRoot("frequenz.sdk.actor") && !IsRoot("frequenz.sdk.timeseries");
    assert "frequenz.sdk.timeseries" in a.current.loggers && "frequenz.sdk.timeseries" !in config.loggers;
    assert forall n :: n in config.loggers ==> n == "frequenz.sdk.actor";
  }
}
