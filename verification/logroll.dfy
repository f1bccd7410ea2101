/*
 * logroll: a file roller for long running servers.  A Roller's settings
 * are changed by options, each of which hands back the option that
 * undoes it; OpenRoller copies the defaults, checks the base name and
 * the driver, and applies the options.  The Hz driver names the rolled
 * file after the time of the roll and the zone's offset.
 *
 * Durations are Go's time.Duration, a count of nanoseconds.
 */
module Logroll {
  import opened Common
  import Tzo

  const SECOND := 1000000000
  const MINUTE := 60 * SECOND

  datatype Driver = Dow | Hz

  /** A value or Go's error text. */
  datatype Result<T> = Ok(value: T) | Err(msg: string)

  /** The fields of a Roller that the options, the defaults and the drivers' choice decide. */
  datatype Settings = Settings(
    baseName: string,
    directory: string,
    pollRollTick: int,
    filePerm: int,
    fileSuffix: string,
    hzTick: int,
    driver: Option<Driver>)

  /** roller_default: the current directory, a 3s poll, mode 0640, suffix "log", a 10m roll. */
  const DEFAULT := Settings("", ".", 3 * SECOND, 0x1a0, "log", 10 * MINUTE, None)

  /** A roll_option: set one field. */
  datatype RollOption = HzTick(tick: int) | Directory(directory: string) | FileSuffix(suffix: string)

  /** ValidHzTick: the tick it refuses, a tick under a second, or nothing. */
  function ValidHzTick(tick: int): (err: Option<int>)
    ensures err.None? <==> tick >= SECOND
    ensures err.Some? ==> err.value == tick
  {
    if tick < SECOND then Some(tick) else None
  }

  /** An option applied: the new settings and the option that puts the old value back. */
  function Apply(s: Settings, opt: RollOption): (Settings, RollOption) {
    match opt
    case HzTick(t) => (s.(hzTick := t), HzTick(s.hzTick))
    case Directory(d) => (s.(directory := d), Directory(s.directory))
    case FileSuffix(x) => (s.(fileSuffix := x), FileSuffix(s.fileSuffix))
  }

  /** Options applied in order, first to last. */
  function ApplyAll(s: Settings, opts: seq<RollOption>): Settings
    decreases |opts|
  {
    if opts == [] then s else Apply(ApplyAll(s, opts[..|opts| - 1]), opts[|opts| - 1]).0
  }

  /** What Options hands back: the undo of the last option only, nil when there are none. */
  function LastUndo(s: Settings, opts: seq<RollOption>): Option<RollOption> {
    if opts == [] then None else Some(Apply(ApplyAll(s, opts[..|opts| - 1]), opts[|opts| - 1]).1)
  }

  /** The directory after the options: the last Directory option's, else the one before. */
  function LastDirectory(d: string, opts: seq<RollOption>): string
    decreases |opts|
  {
    if opts == [] then d
    else if opts[|opts| - 1].Directory? then opts[|opts| - 1].directory
    else LastDirectory(d, opts[..|opts| - 1])
  }

  /** The driver a name selects. */
  function DriverNamed(name: string): Option<Driver> {
    if name == "Dow" then Some(Dow) else if name == "Hz" then Some(Hz) else None
  }

  const EMPTY_BASE_NAME := "empty roll base name"
  const UNKNOWN_DRIVER := "unknown roll driver: "

  /**
   * OpenRoller up to the driver's open: the error, or the settings the
   * roller opens with.  openErr is what the driver's open returns.
   */
  function Opened(baseName: string, driverName: string, opts: seq<RollOption>, openErr: Option<string>): Result<Settings> {
    if baseName == "" then Err(EMPTY_BASE_NAME)
    else if DriverNamed(driverName).None? then Err(UNKNOWN_DRIVER + driverName)
    else if openErr.Some? then Err(openErr.value)
    else Ok(ApplyAll(DEFAULT.(baseName := baseName, driver := DriverNamed(driverName)), opts))
  }

  class Roller {
    var baseName: string
    var directory: string
    var pollRollTick: int
    var filePerm: int
    var fileSuffix: string
    var hzTick: int
    var driver: Option<Driver>

    function Fields(): Settings
      reads this
    {
      Settings(baseName, directory, pollRollTick, filePerm, fileSuffix, hzTick, driver)
    }

    /** `roll := &Roller{}; *roll = roller_default`, then the base name. */
    constructor (baseName: string)
      ensures Fields() == DEFAULT.(baseName := baseName)
    {
      this.baseName := baseName;
      directory := DEFAULT.directory;
      pollRollTick := DEFAULT.pollRollTick;
      filePerm := DEFAULT.filePerm;
      fileSuffix := DEFAULT.fileSuffix;
      hzTick := DEFAULT.hzTick;
      driver := None;
    }

    /** opt(roll): set the option's field and hand back the option restoring it. */
    method ApplyOption(opt: RollOption) returns (undo: RollOption)
      modifies this
      ensures (Fields(), undo) == Apply(old(Fields()), opt)
    {
      match opt {
        case HzTick(t) =>
          undo := HzTick(hzTick);
          hzTick := t;
        case Directory(d) =>
          undo := Directory(directory);
          directory := d;
        case FileSuffix(x) =>
          undo := FileSuffix(fileSuffix);
          fileSuffix := x;
      }
    }

    /** Options: apply each in turn; hand back the last one's undo and no error. */
    method Options(opts: seq<RollOption>) returns (undo: Option<RollOption>, err: Option<string>)
      modifies this
      ensures Fields() == ApplyAll(old(Fields()), opts)
      ensures undo == LastUndo(old(Fields()), opts) && err == None
    {
      undo := None;
      var i := 0;
      while i < |opts|
        invariant i <= |opts|
        invariant Fields() == ApplyAll(old(Fields()), opts[..i])
        invariant undo == LastUndo(old(Fields()), opts[..i])
      {
        var u := ApplyOption(opts[i]);
        undo := Some(u);
        assert opts[..i + 1][..i] == opts[..i];
        i := i + 1;
      }
      assert opts[..i] == opts;
      err := None;
    }
  }

  /** OpenRoller: the error, or a new roller with the defaults, the driver and the options. */
  method OpenRoller(baseName: string, driverName: string, opts: seq<RollOption>, openErr: Option<string>)
    returns (roll: Roller?, err: Option<string>)
    ensures var r := Opened(baseName, driverName, opts, openErr);
      (r.Err? ==> roll == null && err == Some(r.msg)) &&
      (r.Ok? ==> roll != null && fresh(roll) && roll.Fields() == r.value && err == None)
  {
    if baseName == "" {
      return null, Some(EMPTY_BASE_NAME);
    }
    roll := new Roller(baseName);
    var d := DriverNamed(driverName);
    if d.None? {
      return null, Some(UNKNOWN_DRIVER + driverName);
    }
    roll.driver := d;
    var _, e := roll.Options(opts);
    if e.Some? {
      return null, e;
    }
    if openErr.Some? {
      return null, openErr;
    }
    err := None;
  }

  /** Close: nothing to do for a nil roller or one without a driver; otherwise the driver's close. */
  method Close(roll: Roller?, closeErr: Option<string>) returns (err: Option<string>)
    ensures err == if roll == null || roll.driver.None? then None else closeErr
  {
    if roll == null || roll.driver.None? {
      return None;
    }
    err := closeErr;
  }

  // What the options promise

  /** An option's undo puts back every field the option changed. */
  lemma UndoRestores(s: Settings, opt: RollOption)
    ensures var (t, undo) := Apply(s, opt); Apply(t, undo).0 == s
  {
  }

  /** Applying the undo Options hands back returns to the settings before the last option. */
  lemma OptionsUndoLast(s: Settings, opts: seq<RollOption>)
    requires opts != []
    ensures Apply(ApplyAll(s, opts), LastUndo(s, opts).value).0 == ApplyAll(s, opts[..|opts| - 1])
  {
    UndoRestores(ApplyAll(s, opts[..|opts| - 1]), opts[|opts| - 1]);
  }

  /** Options given in two calls do what they do in one. */
  lemma {:induction false} ApplyAllAppend(s: Settings, a: seq<RollOption>, b: seq<RollOption>)
    ensures ApplyAll(s, a + b) == ApplyAll(ApplyAll(s, a), b)
    decreases |b|
  {
    if b == [] {
      assert a + b == a;
    } else {
      var ab := a + b;
      assert ab[..|ab| - 1] == a + b[..|b| - 1];
      assert ab[|ab| - 1] == b[|b| - 1];
      ApplyAllAppend(s, a, b[..|b| - 1]);
    }
  }

  /** The last Directory option wins; other options leave the directory alone. */
  lemma {:induction false} DirectoryLastWins(s: Settings, opts: seq<RollOption>)
    ensures ApplyAll(s, opts).directory == LastDirectory(s.directory, opts)
    decreases |opts|
  {
    if opts != [] {
      DirectoryLastWins(s, opts[..|opts| - 1]);
    }
  }

  /** Options leave the base name, the poll tick, the mode and the driver as they were. */
  lemma {:induction false} OptionsKeep(s: Settings, opts: seq<RollOption>)
    ensures var t := ApplyAll(s, opts);
      t.baseName == s.baseName && t.pollRollTick == s.pollRollTick &&
      t.filePerm == s.filePerm && t.driver == s.driver
    decreases |opts|
  {
    if opts != [] {
      OptionsKeep(s, opts[..|opts| - 1]);
    }
  }

  /**
   * OpenRoller refuses an empty base name whatever the driver, then any
   * driver but "Dow" or "Hz"; with no options the roller has the defaults.
   */
  lemma OpenChecks(baseName: string, driverName: string, opts: seq<RollOption>, openErr: Option<string>)
    ensures baseName == "" ==> Opened(baseName, driverName, opts, openErr) == Err(EMPTY_BASE_NAME)
    ensures Opened(baseName, driverName, opts, openErr).Ok? <==>
      baseName != "" && (driverName == "Dow" || driverName == "Hz") && openErr.None?
    ensures Opened(baseName, driverName, [], None).Ok? ==>
      Opened(baseName, driverName, [], None).value == DEFAULT.(baseName := baseName, driver := DriverNamed(driverName))
  {
  }

  // The Hz driver's file names

  /** The wall clock at a roll: the calendar fields and the zone's offset east of UTC in seconds. */
  datatype Clock = Clock(year: int, month: nat, day: nat, hour: nat, minute: nat, second: nat, zone: int)

  /** `%d%02d%02d_%02d%02d%02d`: the date and time of day. */
  function Stamp(t: Clock): string {
    SignedDecimal(t.year) + Tzo.Pad2(t.month) + Tzo.Pad2(t.day) + "_" +
    Tzo.Pad2(t.hour) + Tzo.Pad2(t.minute) + Tzo.Pad2(t.second)
  }

  /**
   * The path hz_roll opens: directory, separator, name, "-", stamp, zone
   * as tzo2file_name writes it, "." and the suffix.  The zone is that of
   * the moment of the roll, tzo, which need not be the zone of t.
   */
  function RollPath(directory: string, sep: char, name: string, t: Clock, tzo: int, suffix: string): string {
    Rolled(directory + [sep] + name + "-", Stamp(t), Tzo.FileName(tzo), suffix)
  }

  /** A rolled file's name from its pieces. */
  function Rolled(head: string, stamp: string, zone: string, suffix: string): string {
    head + stamp + zone + "." + suffix
  }

  /** hz_path: the same name with t's own zone, always ending ".log". */
  function HzPath(directory: string, sep: char, name: string, t: Clock): string {
    directory + [sep] + name + "-" + Stamp(t) + Tzo.FileName(t.zone) + ".log"
  }

  /**
   * A rolled name (RollPath is one) begins with its head (directory,
   * separator, base name and "-") and carries the zone field just
   * before "." and the suffix; ZoneReadsBack says what that field reads
   * back as.
   */
  lemma PathSlices(head: string, stamp: string, z: string, suffix: string)
    ensures var p := Rolled(head, stamp, z, suffix);
      var k := |p| - |suffix| - 1;
      |head| + |z| <= k && p[..|head|] == head && p[k] == '.' && p[k + 1..] == suffix && p[k - |z|..k] == z
  {
    var p := Rolled(head, stamp, z, suffix);
    var k := |p| - |suffix| - 1;
    assert p == (head + stamp + z) + ("." + suffix);
    assert p[..|head|] == head;
    assert p[k - |z|..k] == z;
  }

  /**
   * The zone field of a rolled path, for a whole-minute zone, reads back
   * as the zone, except that a zone less than an hour west reads back as
   * the same offset east.
   */
  lemma ZoneReadsBack(tzo: int)
    requires Tzo.GoRem(tzo, 60) == 0
    ensures var z := Tzo.FileName(tzo);
      |z| >= 5 && AllDigits(z[1..]) && Tzo.Offset(z) == (if -3600 < tzo < 0 then -tzo else tzo)
  {
    if -3600 < tzo < 0 {
      Tzo.FileNameLosesSign(tzo);
      WholeMinutes(tzo);
    } else {
      Tzo.FileNameRoundTrip(tzo);
    }
  }

  /** A whole number of minutes is its minutes times sixty. */
  lemma WholeMinutes(sec: int)
    requires Tzo.GoRem(sec, 60) == 0
    ensures Tzo.GoQuo(sec, 60) * 60 == sec
  {
  }

  /** hz_path is the path hz_roll would open in t's zone only when the suffix is "log". */
  lemma HzPathIsLogRoll(directory: string, sep: char, name: string, t: Clock, suffix: string)
    ensures HzPath(directory, sep, name, t) == RollPath(directory, sep, name, t, t.zone, "log")
    ensures suffix != "log" ==> HzPath(directory, sep, name, t) != RollPath(directory, sep, name, t, t.zone, suffix)
  {
    RolledLog(directory + [sep] + name + "-", Stamp(t), Tzo.FileName(t.zone), suffix);
  }

  /** ".log" written at once is the suffix "log" after the dot, and no other suffix. */
  lemma RolledLog(head: string, stamp: string, zone: string, suffix: string)
    ensures head + stamp + zone + ".log" == Rolled(head, stamp, zone, "log")
    ensures suffix != "log" ==> Rolled(head, stamp, zone, "log") != Rolled(head, stamp, zone, suffix)
  {
    var p := head + stamp + zone + ".";
    assert head + stamp + zone + ".log" == p + "log";
    if Rolled(head, stamp, zone, "log") == Rolled(head, stamp, zone, suffix) {
      Cancel(p, "log", suffix);
    }
  }

  /** Equal strings with equal heads have equal tails. */
  lemma Cancel(p: string, a: string, b: string)
    requires p + a == p + b
    ensures a == b
  {
    assert a == (p + a)[|p|..];
    assert b == (p + b)[|p|..];
  }

  /** The pieces of a stamp, sliced back out of it. */
  lemma StampText(yd: string, mo: string, d: string, h: string, mi: string, se: string)
    requires |yd| == 4 && |mo| == 2 && |d| == 2 && |h| == 2 && |mi| == 2 && |se| == 2
    ensures var s := yd + mo + d + "_" + h + mi + se;
      |s| == 15 && s[8] == '_' && s[..4] == yd && s[4..6] == mo && s[6..8] == d &&
      s[9..11] == h && s[11..13] == mi && s[13..] == se
  {
    var date, time := yd + mo + d, h + mi + se;
    var s := yd + mo + d + "_" + h + mi + se;
    assert s == date + "_" + time;
    assert s[..8] == date && s[9..] == time;
    assert date[..4] == yd && date[4..6] == mo && date[6..] == d;
    assert time[..2] == h && time[2..4] == mi && time[4..] == se;
  }

  /** A four-digit year is printed in four digits that read back. */
  lemma YearDigits(y: nat)
    requires 1000 <= y <= 9999
    ensures |Decimal(y)| == 4 && DigitsValue(Decimal(y)) == y
  {
    assert Pow10(3) == 1000 && Pow10(4) == 10000;
    NumDigitsAtMost(y, 4);
    NumDigitsAtLeast(y, 3);
    DecimalRoundTrip(y);
  }

  /** Four-digit years give a stamp of fixed width whose fields read back. */
  lemma StampFields(t: Clock)
    requires 1000 <= t.year <= 9999
    requires t.month < 100 && t.day < 100 && t.hour < 100 && t.minute < 100 && t.second < 100
    ensures var s := Stamp(t);
      |s| == 15 && s[8] == '_' &&
      AllDigits(s[..4]) && DigitsValue(s[..4]) == t.year &&
      AllDigits(s[4..6]) && DigitsValue(s[4..6]) == t.month &&
      AllDigits(s[6..8]) && DigitsValue(s[6..8]) == t.day &&
      AllDigits(s[9..11]) && DigitsValue(s[9..11]) == t.hour &&
      AllDigits(s[11..13]) && DigitsValue(s[11..13]) == t.minute &&
      AllDigits(s[13..]) && DigitsValue(s[13..]) == t.second
  {
    var yd := Decimal(t.year);
    YearDigits(t.year);
    assert SignedDecimal(t.year) == yd;
    Tzo.Pad2Value(t.month);
    Tzo.Pad2Value(t.day);
    Tzo.Pad2Value(t.hour);
    Tzo.Pad2Value(t.minute);
    Tzo.Pad2Value(t.second);
    StampText(yd, Tzo.Pad2(t.month), Tzo.Pad2(t.day), Tzo.Pad2(t.hour), Tzo.Pad2(t.minute), Tzo.Pad2(t.second));
  }
}
