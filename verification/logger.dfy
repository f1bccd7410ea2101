/*
 * logger: a log file for long running servers, written by one goroutine
 * and marked by a heartbeat.  As in logroll, a Logger's settings are
 * changed by options that hand back their own undo; Open copies the
 * defaults, checks the name and the driver, and applies the options.
 *
 * Durations are Go's time.Duration, a count of nanoseconds.
 */
module Logger {
  import opened Common

  const SECOND := 1000000000

  datatype Driver = Dow

  /** A value or Go's error text. */
  datatype Result<T> = Ok(value: T) | Err(msg: string)

  /** The fields of a Logger that the options, the defaults and the driver's choice decide. */
  datatype Settings = Settings(name: string, directory: string, heartbeatPause: int, driver: Option<Driver>)

  /** logger_default: the current directory and a heartbeat every ten seconds. */
  const DEFAULT := Settings("", ".", 10 * SECOND, None)

  /** An option: set one field. */
  datatype LogOption = HeartbeatPause(pause: int) | Directory(directory: string)

  /** CheckHeartbeatPause: the pause it refuses, a negative one, or nothing. */
  function CheckHeartbeatPause(pause: int): (err: Option<int>)
    ensures err.None? <==> pause >= 0
    ensures err.Some? ==> err.value == pause
  {
    if pause < 0 then Some(pause) else None
  }

  /** An option applied: the new settings and the option that puts the old value back. */
  function Apply(s: Settings, opt: LogOption): (Settings, LogOption) {
    match opt
    case HeartbeatPause(p) => (s.(heartbeatPause := p), HeartbeatPause(s.heartbeatPause))
    case Directory(d) => (s.(directory := d), Directory(s.directory))
  }

  /** Options applied in order, first to last. */
  function ApplyAll(s: Settings, opts: seq<LogOption>): Settings
    decreases |opts|
  {
    if opts == [] then s else Apply(ApplyAll(s, opts[..|opts| - 1]), opts[|opts| - 1]).0
  }

  /** What Options hands back: the undo of the last option only, nil when there are none. */
  function LastUndo(s: Settings, opts: seq<LogOption>): Option<LogOption> {
    if opts == [] then None else Some(Apply(ApplyAll(s, opts[..|opts| - 1]), opts[|opts| - 1]).1)
  }

  /** The heartbeat pause after the options: the last HeartbeatPause option's, else the one before. */
  function LastPause(p: int, opts: seq<LogOption>): int
    decreases |opts|
  {
    if opts == [] then p
    else if opts[|opts| - 1].HeartbeatPause? then opts[|opts| - 1].pause
    else LastPause(p, opts[..|opts| - 1])
  }

  const EMPTY_NAME := "empty log name"
  const UNKNOWN_DRIVER := "unknown log driver: "

  /**
   * Open up to the driver's open: the error, or the settings the logger
   * opens with.  openErr is what the driver's open returns.
   */
  function Opened(name: string, driverName: string, opts: seq<LogOption>, openErr: Option<string>): Result<Settings> {
    if name == "" then Err(EMPTY_NAME)
    else if driverName != "Dow" then Err(UNKNOWN_DRIVER + driverName)
    else if openErr.Some? then Err(openErr.value)
    else Ok(ApplyAll(DEFAULT.(name := name, driver := Some(Dow)), opts))
  }

  class Logger {
    var name: string
    var directory: string
    var heartbeatPause: int
    var driver: Option<Driver>

    function Fields(): Settings
      reads this
    {
      Settings(name, directory, heartbeatPause, driver)
    }

    /** `log := &Logger{}; *log = logger_default`, then the name. */
    constructor (name: string)
      ensures Fields() == DEFAULT.(name := name)
    {
      this.name := name;
      directory := DEFAULT.directory;
      heartbeatPause := DEFAULT.heartbeatPause;
      driver := None;
    }

    /** opt(log): set the option's field and hand back the option restoring it. */
    method ApplyOption(opt: LogOption) returns (undo: LogOption)
      modifies this
      ensures (Fields(), undo) == Apply(old(Fields()), opt)
    {
      match opt {
        case HeartbeatPause(p) =>
          undo := HeartbeatPause(heartbeatPause);
          heartbeatPause := p;
        case Directory(d) =>
          undo := Directory(directory);
          directory := d;
      }
    }

    /** Options: apply each in turn; hand back the last one's undo and no error. */
    method Options(opts: seq<LogOption>) returns (undo: Option<LogOption>, err: Option<string>)
      modifies this
      ensures Fields() == ApplyAll(old(Fields()), opts)
      ensures undo == LastUndo(old(Fields()), opts) && err == None
    {
      undo := None;
      var i := 0;
      while i < |opts|
        invariant i <= |opts|
        invariant Fields() == ApplyAll(old(Fields()), opts[..i])
        invariant undo == LastUndo(old(Fields()), opts[..i])
      {
        var u := ApplyOption(opts[i]);
        undo := Some(u);
        assert opts[..i + 1][..i] == opts[..i];
        i := i + 1;
      }
      assert opts[..i] == opts;
      err := None;
    }
  }

  /** Open: the error, or a new logger with the defaults, the driver and the options. */
  method Open(name: string, driverName: string, opts: seq<LogOption>, openErr: Option<string>)
    returns (log: Logger?, err: Option<string>)
    ensures var r := Opened(name, driverName, opts, openErr);
      (r.Err? ==> log == null && err == Some(r.msg)) &&
      (r.Ok? ==> log != null && fresh(log) && log.Fields() == r.value && err == None)
  {
    if name == "" {
      return null, Some(EMPTY_NAME);
    }
    log := new Logger(name);
    if driverName != "Dow" {
      return null, Some(UNKNOWN_DRIVER + driverName);
    }
    log.driver := Some(Dow);
    var _, e := log.Options(opts);
    if e.Some? {
      return null, e;
    }
    if openErr.Some? {
      return null, openErr;
    }
    err := None;
  }

  /** Close: nothing to do for a nil logger or one without a driver; otherwise the driver's close. */
  method Close(log: Logger?, closeErr: Option<string>) returns (err: Option<string>)
    ensures err == if log == null || log.driver.None? then None else closeErr
  {
    if log == null || log.driver.None? {
      return None;
    }
    err := closeErr;
  }

  // What the options promise

  /** An option's undo puts back every field the option changed. */
  lemma UndoRestores(s: Settings, opt: LogOption)
    ensures var (t, undo) := Apply(s, opt); Apply(t, undo).0 == s
  {
  }

  /** Applying the undo Options hands back returns to the settings before the last option. */
  lemma OptionsUndoLast(s: Settings, opts: seq<LogOption>)
    requires opts != []
    ensures Apply(ApplyAll(s, opts), LastUndo(s, opts).value).0 == ApplyAll(s, opts[..|opts| - 1])
  {
    UndoRestores(ApplyAll(s, opts[..|opts| - 1]), opts[|opts| - 1]);
  }

  /** The last HeartbeatPause option wins over the default and over earlier ones. */
  lemma {:induction false} PauseLastWins(s: Settings, opts: seq<LogOption>)
    ensures ApplyAll(s, opts).heartbeatPause == LastPause(s.heartbeatPause, opts)
    decreases |opts|
  {
    if opts != [] {
      PauseLastWins(s, opts[..|opts| - 1]);
    }
  }

  /** Options leave the name and the driver as they were. */
  lemma {:induction false} OptionsKeep(s: Settings, opts: seq<LogOption>)
    ensures ApplyAll(s, opts).name == s.name && ApplyAll(s, opts).driver == s.driver
    decreases |opts|
  {
    if opts != [] {
      OptionsKeep(s, opts[..|opts| - 1]);
    }
  }

  /**
   * Open refuses an empty name whatever the driver, then any driver but
   * "Dow"; with no options the logger has the defaults.
   */
  lemma OpenChecks(name: string, driverName: string, opts: seq<LogOption>, openErr: Option<string>)
    ensures name == "" ==> Opened(name, driverName, opts, openErr) == Err(EMPTY_NAME)
    ensures Opened(name, driverName, opts, openErr).Ok? <==> name != "" && driverName == "Dow" && openErr.None?
    ensures Opened(name, driverName, [], None).Ok? ==>
      Opened(name, driverName, [], None).value == DEFAULT.(name := name, driver := Some(Dow))
  {
  }
}
