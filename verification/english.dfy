/*
 * duration-english, duration-mtime-english and byte-size-english: a
 * count of seconds or of bytes as brief English ("1h5m", "3Kb").
 *
 * Each program is a run: it either writes its answer and exits 0, or
 * dies with an exit status and a message.  The die helpers' own output
 * format (program name, "ERROR:") is not part of this model.
 */
module English {
  import opened Common
  import opened CString

  datatype Run = Done(out: seq<char>) | Die(status: int, why: string)

  // C integer arithmetic

  /** C's `/`, which truncates toward zero. */
  function CDiv(a: int, b: int): (q: int)
    requires b > 0
    ensures a >= 0 ==> q == a / b
  {
    if a >= 0 then a / b else -((-a) / b)
  }

  /** ROUND(n, d) of the three programs. */
  function Round(n: int, d: int): int
    requires d > 0
  {
    if n < 0 then CDiv(n - d / 2, d) else CDiv(n + d / 2, d)
  }

  /** For n >= 0, ROUND is the multiple of d nearest to n, halves rounding up. */
  lemma RoundNearest(n: int, d: int)
    requires n >= 0 && d > 0
    ensures Round(n, d) >= 0
    ensures -(d / 2) <= n - Round(n, d) * d <= d / 2
    ensures n % d == d - d / 2 ==> Round(n, d) == n / d + 1
  {
    RoundWithin(n, d, Round(n, d));
    if n % d == d - d / 2 {
      HalfRoundsUp(n, d);
    }
  }

  /** The quotient q of n + d / 2 by d is within half of d of n. */
  lemma RoundWithin(n: int, d: int, q: int)
    requires n >= 0 && d > 0 && q == (n + d / 2) / d
    ensures q >= 0 && -(d / 2) <= n - q * d <= d / 2
  {
    var m := n + d / 2;
    assert m == q * d + m % d && 0 <= m % d < d;
  }

  /** A remainder of at least half of d carries n up to the next multiple. */
  lemma HalfRoundsUp(n: int, d: int)
    requires n >= 0 && d > 0 && n % d == d - d / 2
    ensures (n + d / 2) / d == n / d + 1
  {
    var k := n / d;
    assert n == k * d + n % d;
    assert (k + 1) * d == k * d + d;
    assert n + d / 2 == (k + 1) * d;
    QuotientOfMultiple(k + 1, d);
  }

  /** A multiple of d divided by d. */
  lemma QuotientOfMultiple(k: int, d: int)
    requires d > 0
    ensures (k * d) / d == k
  {
    var q, r := (k * d) / d, (k * d) % d;
    assert k * d == q * d + r && 0 <= r < d;
    assert (q - k) * d == -r;
    if q > k {
      MulAtLeast(q - k, d);
    } else if q < k {
      MulAtLeast(k - q, d);
    }
  }

  lemma RoundNonNegative(n: int, d: int)
    requires n >= 0 && d > 0
    ensures Round(n, d) >= 0
  {
  }

  lemma {:induction false} MulAtLeast(a: int, d: int)
    requires a >= 1 && d > 0
    ensures a * d >= d
  {
    if a > 1 {
      MulAtLeast(a - 1, d);
    }
  }

  const LONG_MAX: int := 0x7fff_ffff_ffff_ffff

  // duration-english and duration-mtime-english

  /** The branch a duration falls in, with the numbers it prints. */
  datatype Span =
    | Secs(s: int)
    | MinSec(m: int, s: int)
    | HrMin(h: int, m: int)
    | DayHr(d: int, h: int)

  function Breakdown(duration: int): Span {
    if duration < 60 then Secs(duration)
    else if duration < 3600 then
      var min := duration / 60;
      MinSec(min, duration - min * 60)
    else if duration < 86400 then
      var hr := duration / 3600;
      HrMin(hr, Round(duration - hr * 3600, 60))
    else
      var day := duration / 86400;
      DayHr(day, Round(duration - day * 86400, 3600))
  }

  /**
   * The sprintf of each branch.  A zero minor unit is not printed; the
   * hours and days forms end in a newline only when `nl` is set.
   */
  function Show(sp: Span, nl: bool): seq<char> {
    var end := if nl then "\n" else "";
    match sp
    case Secs(s) => SignedDecimal(s) + "s\n"
    case MinSec(m, s) =>
      if s > 0 then SignedDecimal(m) + "m" + SignedDecimal(s) + "s\n" else SignedDecimal(m) + "m\n"
    case HrMin(h, m) =>
      if m > 0 then SignedDecimal(h) + "h" + SignedDecimal(m) + "m" + end else SignedDecimal(h) + "h" + end
    case DayHr(d, h) =>
      if h > 0 then SignedDecimal(d) + "d" + SignedDecimal(h) + "h" + end else SignedDecimal(d) + "d" + end
  }

  /** The answer of duration-english. */
  function DurationEnglish(duration: int): seq<char> {
    Show(Breakdown(duration), true)
  }

  /** The answer of duration-mtime-english. */
  function DurationMtimeEnglish(duration: int): seq<char> {
    Show(Breakdown(duration), false)
  }

  /** Below an hour the two programs agree; from an hour on, mtime's lacks the newline. */
  lemma MtimeNewline(duration: int)
    ensures duration < 3600 ==> DurationMtimeEnglish(duration) == DurationEnglish(duration)
    ensures duration >= 3600 ==> DurationEnglish(duration) == DurationMtimeEnglish(duration) + "\n"
  {
  }

  /** Seconds and minutes-and-seconds are exact. */
  lemma BreakdownExact(duration: int)
    requires duration < 3600
    ensures Breakdown(duration).Secs? ==> Breakdown(duration).s == duration < 60
    ensures Breakdown(duration).MinSec? ==>
      var sp := Breakdown(duration);
      1 <= sp.m < 60 && 0 <= sp.s < 60 && sp.m * 60 + sp.s == duration
  {
  }

  /** Hours and minutes are within half a minute of the duration; the minutes may reach 60. */
  lemma BreakdownHours(duration: int)
    requires 3600 <= duration < 86400
    ensures Breakdown(duration).HrMin?
    ensures var sp := Breakdown(duration);
      1 <= sp.h <= 23 && 0 <= sp.m <= 60 && -30 <= duration - (sp.h * 3600 + sp.m * 60) <= 30
  {
    var hr := duration / 3600;
    RoundNearest(duration - hr * 3600, 60);
  }

  /** Days and hours are within half an hour of the duration; the hours may reach 24. */
  lemma BreakdownDays(duration: int)
    requires duration >= 86400
    ensures Breakdown(duration).DayHr?
    ensures var sp := Breakdown(duration);
      sp.d >= 1 && 0 <= sp.h <= 24 && -1800 <= duration - (sp.d * 86400 + sp.h * 3600) <= 1800
  {
    var day := duration / 86400;
    RoundNearest(duration - day * 86400, 3600);
  }

  /** Rounding the minutes up can print "60m". */
  lemma SixtyMinutes()
    ensures DurationEnglish(7170) == "1h60m\n"
  {
    assert Round(3570, 60) == 60;
    assert Decimal(60) == "60";
  }

  /** Rounding the hours up can print "24h". */
  lemma TwentyFourHours()
    ensures DurationEnglish(172799) == "1d24h\n"
  {
    assert Round(86399, 3600) == 24;
    assert Decimal(24) == "24";
  }

  /**
   * The argument check of duration-english: scanning left to right, a
   * non-digit is refused before the 21st character is; so the argument
   * is accepted exactly when it is 1 to 20 digits.
   */
  function SecondsError(d: string): (e: Option<string>)
    ensures e.None? <==> 1 <= |d| <= 20 && AllDigits(d)
  {
    if d == [] then Some("empty duration seconds")
    else if exists j :: 0 <= j < |d| && j <= 20 && !IsDigit(d[j]) then Some("duration seconds: non-digit")
    else if |d| > 20 then Some("duration seconds: > 20 digits")
    else None
  }

  /** The validation loop of duration-english's main. */
  method CheckSeconds(d: string) returns (err: Option<string>)
    requires IsCString(d)
    ensures err == SecondsError(d)
  {
    if |d| == 0 {
      return Some("empty duration seconds");
    }
    var p := 0;
    while p < |d|
      invariant 0 <= p <= |d| && p <= 20
      invariant forall j :: 0 <= j < p ==> IsDigit(d[j])
    {
      var c := d[p];
      p := p + 1;
      if !IsDigit(c) {
        return Some("duration seconds: non-digit");
      }
      if p > 20 {
        return Some("duration seconds: > 20 digits");
      }
    }
    return None;
  }

  /**
   * atoi of an accepted argument: strtol saturates at LONG_MAX, and the
   * conversion to int keeps the low 32 bits.
   */
  function Atoi(d: string): int
    requires AllDigits(d)
  {
    var v := DigitsValue(d);
    Int32(if v > LONG_MAX then LONG_MAX else v)
  }

  /** A value that fits an int is read as itself. */
  lemma AtoiSmall(d: string)
    requires AllDigits(d) && DigitsValue(d) < 0x8000_0000
    ensures Atoi(d) == DigitsValue(d)
  {
  }

  /** The value of the ten digits of 2^32 - 1. */
  lemma DigitsOfUintMax()
    ensures AllDigits("4294967295") && DigitsValue("4294967295") == 4294967295
  {
    assert "4294967295"[..9] == "429496729";
    assert "429496729"[..8] == "42949672";
    assert "42949672"[..7] == "4294967";
    assert "4294967"[..6] == "429496";
    assert "429496"[..5] == "42949";
    assert "42949"[..4] == "4294";
    assert "4294"[..3] == "429";
    assert "429"[..2] == "42";
    assert "42"[..1] == "4";
  }

  /** 2^32 - 1 seconds is read as -1 and printed as "-1s". */
  lemma AtoiWraps()
    ensures AllDigits("4294967295") && Atoi("4294967295") == -1
    ensures DurationEnglish(Atoi("4294967295")) == "-1s\n"
  {
    DigitsOfUintMax();
    assert Decimal(1) == "1";
  }

  /** main of duration-english; `args` is argv without the program name. */
  method DurationEnglishMain(args: seq<string>) returns (run: Run)
    requires forall k :: 0 <= k < |args| ==> IsCString(args[k])
    ensures |args| != 1 ==> run == Die(2, "wrong number of arguments")
    ensures |args| == 1 && SecondsError(args[0]).Some? ==> run == Die(2, SecondsError(args[0]).value)
    ensures |args| == 1 && SecondsError(args[0]).None? ==> run == Done(DurationEnglish(Atoi(args[0])))
  {
    if |args| != 1 {
      return Die(2, "wrong number of arguments");
    }
    var err := CheckSeconds(args[0]);
    if err.Some? {
      return Die(2, err.value);
    }
    var duration := Atoi(args[0]);
    return Done(DurationEnglish(duration));
  }

  /** What stat(2) reported about the path: the mtime, or errno and strerror(errno). */
  datatype Stat = Mtime(t: int) | Fails(errno: int, text: string)

  const ENOENT: int := 2
  const MTIME_PROG := "duration-mtime-english"

  /** The literal enoent() writes 29 bytes of: its last byte, a space, stays unwritten. */
  const ENOENT_LITERAL := ": ERROR: file does not exist: "

  /** strncat(buf, s, n): at most n bytes of s. */
  function Cut(s: string, n: int): (c: string)
    ensures |c| <= |s| && (n >= 0 ==> |c| <= n) && c == s[..|c|]
    ensures n >= |s| ==> c == s
  {
    if n <= 0 then [] else if n >= |s| then s else s[..n]
  }

  /**
   * die2(msg1, msg2): msg1, then ": " and msg2, each strncat cut so that
   * the text and its NUL fit the 1024-byte buffer.
   */
  function Die2(msg1: string, msg2: string): (buf: string)
    requires |msg1| < 1023
  {
    var b := msg1 + Cut(": ", 1024 - (|msg1| + 1));
    b + Cut(msg2, 1024 - (|b| + 1))
  }

  /** die2's text is never longer than 1023 bytes, and short messages are joined whole. */
  lemma Die2Joins(msg1: string, msg2: string)
    requires |msg1| < 1021
    ensures |Die2(msg1, msg2)| <= 1023
    ensures Die2(msg1, msg2)[..|msg1| + 2] == msg1 + ": "
    ensures |msg1| + 2 + |msg2| <= 1023 <==> Die2(msg1, msg2) == msg1 + ": " + msg2
  {
    var d := Die2(msg1, msg2);
    assert d == msg1 + ": " + Cut(msg2, 1021 - |msg1|);
    assert d[..|msg1| + 2] == msg1 + ": ";
  }

  /**
   * main of duration-mtime-english, with the clock reading `now` and
   * the outcome of stat as inputs.  The difference of the two times is
   * stored in an int.  A missing file is reported by enoent(), which
   * writes the program name, 29 bytes of its literal, the path and a
   * newline; `why` is what follows ": ERROR: ".
   */
  function DurationMtimeMain(args: seq<string>, now: int, st: Stat): (run: Run)
    ensures |args| != 1 ==> run == Die(2, "wrong number of arguments")
    ensures run.Die? && run.status == 1 <==> |args| == 1 && args[0] != [] && st.Fails? && st.errno == ENOENT
    ensures |args| == 1 && args[0] != [] && st.Fails? && st.errno != ENOENT ==>
      run == Die(2, Die2("stat() failed", st.text))
    ensures |args| == 1 && args[0] != [] && st.Mtime? ==>
      run == Done(DurationMtimeEnglish(Int32(now - st.t)))
  {
    if |args| != 1 then Die(2, "wrong number of arguments")
    else if args[0] == [] then Die(2, "empty file path")
    else match st
      case Fails(e, text) =>
        if e == ENOENT then Die(1, ENOENT_LITERAL[9..29] + args[0]) else Die(2, Die2("stat() failed", text))
      case Mtime(t) => Done(DurationMtimeEnglish(Int32(now - t)))
  }

  /**
   * A missing file: the line written is the name, ": ERROR: ", and then
   * "file does not exist:" directly followed by the path, with no space.
   */
  lemma MissingFileLine(path: string, now: int, text: string)
    requires path != []
    ensures |ENOENT_LITERAL| == 30
    ensures DurationMtimeMain([path], now, Fails(ENOENT, text)) == Die(1, "file does not exist:" + path)
    ensures MTIME_PROG + ENOENT_LITERAL[..29] + path + "\n" ==
      MTIME_PROG + ": ERROR: " + "file does not exist:" + path + "\n"
  {
    assert ENOENT_LITERAL[..29] == ": ERROR: " + "file does not exist:";
    assert ENOENT_LITERAL[9..29] == "file does not exist:";
  }

  /** A stat failure other than ENOENT carries strerror's text after "stat() failed: ". */
  lemma StatFailedText(path: string, now: int, errno: int, text: string)
    requires path != [] && errno != ENOENT && |text| <= 1006
    ensures DurationMtimeMain([path], now, Fails(errno, text)) == Die(2, "stat() failed: " + text)
  {
    Die2Joins("stat() failed", text);
  }

  /** A file modified in the future gives a negative count of seconds. */
  lemma FutureMtime()
    ensures DurationMtimeMain(["f"], 100, Mtime(130)) == Done("-30s\n")
  {
    assert Int32(100 - 130) == -30;
    assert Breakdown(-30) == Secs(-30);
    assert Decimal(30) == "30";
    assert SignedDecimal(-30) == "-30";
  }

  // byte-size-english

  const ENGLISH := "BKMGTPEZYRQ"
  const ULL := 0x1_0000_0000_0000_0000

  function Pow1024(k: nat): (p: nat)
    ensures p >= 1
  {
    if k == 0 then 1 else 1024 * Pow1024(k - 1)
  }

  /** The first unit from i on whose next power exceeds bs. */
  function UnitFrom(bs: nat, i: nat): (u: nat)
    requires i <= 5 && bs < Pow1024(6)
    ensures i <= u <= 5 && bs < Pow1024(u + 1)
    ensures forall j :: i < j <= u ==> Pow1024(j) <= bs
    decreases 5 - i
  {
    if bs < Pow1024(i + 1) then i else UnitFrom(bs, i + 1)
  }

  /** The smallest unit i with bs < 1024^(i+1): bs is at least 1024^i unless i is 0. */
  lemma UnitIsSmallest(bs: nat)
    requires bs < Pow1024(6)
    ensures var u := UnitFrom(bs, 0); bs < Pow1024(u + 1) && (u == 0 || Pow1024(u) <= bs)
  {
    var u := UnitFrom(bs, 0);
  }

  /**
   * The answer of byte-size-english: the count rounded half-up to the
   * unit, its letter, and 's' for bytes or 'b' otherwise; None for a
   * size of 2^60 or more.
   */
  function ByteSizeText(bs: nat): Option<seq<char>> {
    if bs >= Pow1024(6) then None
    else
      var i := UnitFrom(bs, 0);
      Some(Decimal(Round(bs, Pow1024(i))) + [ENGLISH[i], if i == 0 then 's' else 'b'])
  }

  /** The printed count is within half a unit of bs. */
  lemma ByteSizeNearest(bs: nat)
    requires bs < Pow1024(6)
    ensures var u := Pow1024(UnitFrom(bs, 0)); var v := Round(bs, u);
      -(u / 2) <= bs - v * u <= u / 2 && v <= 1024
  {
    var i := UnitFrom(bs, 0);
    var u := Pow1024(i);
    RoundNearest(bs, u);
    assert Pow1024(i + 1) == 1024 * u;
  }

  /** Only the units B to P are reached. */
  lemma ByteSizeUnits(bs: nat)
    requires ByteSizeText(bs).Some?
    ensures var t := ByteSizeText(bs).value; t[|t| - 2] in "BKMGTP"
  {
    var i := UnitFrom(bs, 0);
    assert ENGLISH[i] == "BKMGTP"[i];
  }

  /** Rounding can print 1024 of a unit. */
  lemma ByteSize1024Kb()
    ensures ByteSizeText(1048575) == Some("1024Kb")
  {
    assert Pow1024(1) == 1024 && Pow1024(2) == 1048576;
    assert Pow1024(6) == 0x1000_0000_0000_0000;
    assert UnitFrom(1048575, 0) == 1;
    assert Round(1048575, 1024) == 1024;
    assert ENGLISH[1] == 'K';
    assert ByteSizeText(1048575) == Some(Decimal(1024) + ['K', 'b']);
    assert Decimal(1024) == "1024";
    assert "1024" + ['K', 'b'] == "1024Kb";
  }

  /**
   * The unit loop of byte-size-english's main: r runs through 1024^(i+1)
   * in 64-bit unsigned arithmetic, so it wraps to 0 at i = 6 and every
   * later test falls through.
   */
  method ByteSizeLoop(bs: nat) returns (out: Option<seq<char>>)
    requires bs < ULL
    ensures out == ByteSizeText(bs)
  {
    var r := 1024;
    var i := 0;
    while i < 11
      invariant 0 <= i <= 11
      invariant r == if i <= 5 then Pow1024(i + 1) else 0
      invariant forall j :: 0 < j <= i && j <= 6 ==> Pow1024(j) <= bs
    {
      if bs < r {
        var d := r / 1024;
        assert d == Pow1024(i);
        assert UnitFrom(bs, 0) == i by {
          UnitMonotone(bs, i);
        }
        RoundNonNegative(bs, d);
        return Some(Decimal(Round(bs, d)) + [ENGLISH[i], if i == 0 then 's' else 'b']);
      }
      if i == 5 {
        assert r * 1024 == ULL * 64;
      }
      r := (r * 1024) % ULL;
      i := i + 1;
    }
    assert Pow1024(6) <= bs;
    return None;
  }

  /** If every power up to 1024^i is at most bs and 1024^(i+1) is not, the unit is i. */
  lemma UnitMonotone(bs: nat, i: nat)
    requires i <= 5 && bs < Pow1024(i + 1)
    requires forall j :: 0 < j <= i ==> Pow1024(j) <= bs
    ensures bs < Pow1024(6) && UnitFrom(bs, 0) == i
  {
    Pow1024Mono(i + 1, 6);
    var u := UnitFrom(bs, 0);
  }

  lemma {:induction false} Pow1024Mono(a: nat, b: nat)
    requires a <= b
    ensures Pow1024(a) <= Pow1024(b)
  {
    if a < b {
      Pow1024Mono(a, b - 1);
    }
  }

  /** main of byte-size-english; `args` is argv without the program name. */
  method ByteSizeMain(args: seq<string>) returns (run: Run)
    requires forall k :: 0 <= k < |args| ==> IsCString(args[k])
    ensures |args| != 1 ==> run.Die? && run.status == 1
    ensures |args| == 1 && args[0] == [] ==> run == Die(1, "empty byte size")
    ensures |args| == 1 && args[0] != [] && ParseUi63(args[0]).Rejected? ==>
      run == Die(1, "can not parse byte size: " + ParseUi63(args[0]).why)
    ensures |args| == 1 && args[0] != [] && ParseUi63(args[0]).Accepted? ==>
      match ByteSizeText(ParseUi63(args[0]).value)
      case Some(t) => run == Done(t)
      case None => run == Die(1, "byte size too big: " + args[0])
  {
    if |args| != 1 {
      return Die(1, "usage: byte-size-english <byte size>");
    }
    if args[0] == [] {
      return Die(1, "empty byte size");
    }
    var err, bs := A2ui63(args[0], true);
    if err.Some? {
      return Die(1, "can not parse byte size: " + err.value);
    }
    ParseUi63Bound(args[0]);
    Pow10Nineteen();
    var out := ByteSizeLoop(bs.value);
    if out.None? {
      return Die(1, "byte size too big: " + args[0]);
    }
    return Done(out.value);
  }
}
