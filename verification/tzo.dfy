/*
 * tzo2file_name: a time zone offset in seconds east of UTC as the
 * "[+-]HHMM" part of a rolled log file's name.  Go's integer `/` and `%`
 * truncate toward zero, and `%+03d` writes a sign always, then at least
 * two digits.
 */
module Tzo {
  import opened Common

  /** Go's `a / b` for b > 0: the quotient truncated toward zero. */
  function GoQuo(a: int, b: int): int
    requires b > 0
  {
    if a >= 0 then a / b else -((-a) / b)
  }

  /** Go's `a % b` for b > 0: what remains after GoQuo, with the sign of a. */
  function GoRem(a: int, b: int): int
    requires b > 0
  {
    if a >= 0 then a % b else -((-a) % b)
  }

  /** `%02d` of a non-negative number. */
  function Pad2(n: nat): (s: string)
    ensures |s| >= 2 && AllDigits(s)
    ensures n < 100 ==> |s| == 2
  {
    if n < 100 then
      NumDigitsAtMost(n, 2);
      PadLeft(Decimal(n), 2, '0')
    else PadLeft(Decimal(n), 2, '0')
  }

  /** `%+03d`: the sign, then the magnitude in at least two digits. */
  function Signed3(v: int): (s: string)
    ensures |s| >= 3 && s[0] == (if v >= 0 then '+' else '-') && AllDigits(s[1..])
  {
    (if v >= 0 then "+" else "-") + Pad2(if v >= 0 then v else -v)
  }

  /** tzo2file_name as written: hours by truncating division, then the absolute minutes of the remainder. */
  function FileName(sec: int): string {
    var min := GoQuo(GoRem(sec, 3600), 60);
    Signed3(GoQuo(sec, 3600)) + Pad2(if min < 0 then -min else min)
  }

  /** The size of an offset, whichever side of UTC it lies. */
  function Magnitude(sec: int): nat {
    if sec < 0 then -sec else sec
  }

  /** The offset with the sign taken from the seconds themselves, so that it survives an hour part of zero. */
  function FileNameSigned(sec: int): string {
    (if sec < 0 then "-" else "+") + Pad2(Magnitude(sec) / 3600) + Pad2(Magnitude(sec) % 3600 / 60)
  }

  /** The offset in seconds that a "[+-]HH..MM" name stands for. */
  function Offset(s: string): int
    requires |s| >= 5 && AllDigits(s[1..])
  {
    var hm := DigitsValue(s[1..|s| - 2]) * 3600 + DigitsValue(s[|s| - 2..]) * 60;
    if s[0] == '-' then -hm else hm
  }

  /** Leading zeros do not change the value of a run of digits. */
  lemma {:induction false} ZerosLead(k: nat, s: seq<char>)
    requires AllDigits(s)
    ensures AllDigits(seq(k, _ => '0') + s)
    ensures DigitsValue(seq(k, _ => '0') + s) == DigitsValue(s)
    decreases k + |s|
  {
    var z := seq(k, _ => '0');
    if s == [] {
      assert z + s == z;
      if k > 0 {
        assert z[..k - 1] == seq(k - 1, _ => '0');
        ZerosLead(k - 1, []);
        assert seq(k - 1, _ => '0') + [] == z[..k - 1];
      }
    } else {
      assert (z + s)[..|z + s| - 1] == z + s[..|s| - 1];
      ZerosLead(k, s[..|s| - 1]);
    }
  }

  /** `%02d` reads back as the number it printed. */
  lemma Pad2Value(n: nat)
    ensures DigitsValue(Pad2(n)) == n
  {
    var d := Decimal(n);
    DecimalRoundTrip(n);
    if |d| < 2 {
      ZerosLead(2 - |d|, d);
    }
  }

  /** A name read back: the hours and the minutes, signed. */
  lemma OffsetOf(sign: char, p: string, q: string)
    requires |p| >= 2 && |q| == 2 && AllDigits(p) && AllDigits(q)
    ensures var s := [sign] + p + q;
      |s| >= 5 && AllDigits(s[1..]) &&
      Offset(s) == var hm := DigitsValue(p) * 3600 + DigitsValue(q) * 60; if sign == '-' then -hm else hm
  {
    var s := [sign] + p + q;
    assert s[1..] == p + q;
    assert s[1..|s| - 2] == p;
    assert s[|s| - 2..] == q;
  }

  /** The signed name reads back as the offset cut toward zero to a whole minute. */
  lemma FileNameSignedOffset(sec: int)
    ensures var s := FileNameSigned(sec);
      |s| >= 5 && AllDigits(s[1..]) && Offset(s) == GoQuo(sec, 60) * 60
  {
    var sign := if sec < 0 then '-' else '+';
    assert FileNameSigned(sec) == [sign] + Pad2(Magnitude(sec) / 3600) + Pad2(Magnitude(sec) % 3600 / 60);
    OffsetOf(sign, Pad2(Magnitude(sec) / 3600), Pad2(Magnitude(sec) % 3600 / 60));
    Pad2Value(Magnitude(sec) / 3600);
    Pad2Value(Magnitude(sec) % 3600 / 60);
    SignedMinutes(sec);
  }

  /** The hours and minutes of the magnitude, signed, are the offset cut toward zero to a whole minute. */
  lemma SignedMinutes(sec: int)
    ensures var hm := Magnitude(sec) / 3600 * 3600 + Magnitude(sec) % 3600 / 60 * 60;
      (if sec < 0 then -hm else hm) == GoQuo(sec, 60) * 60
  {
    MinutesSplit(Magnitude(sec));
  }

  /** Whole minutes are whole hours and the minutes of the rest. */
  lemma MinutesSplit(a: nat)
    ensures a / 60 == a / 3600 * 60 + a % 3600 / 60
    ensures a / 60 * 60 == a / 3600 * 3600 + a % 3600 / 60 * 60
  {
    var h, r := a / 3600, a % 3600;
    assert a == 3600 * h + r;
    assert r == 60 * (r / 60) + r % 60;
    assert a == 60 * (60 * h + r / 60) + r % 60;
  }

  /** `%+03d` is the sign and the magnitude's `%02d`. */
  lemma Signed3Is(v: int)
    ensures Signed3(v) == [if v >= 0 then '+' else '-'] + Pad2(if v >= 0 then v else -v)
  {
  }

  /** As written and signed agree whenever the hour part carries the sign: zero and above, or an hour or more west. */
  lemma FileNameAgrees(sec: int)
    requires sec >= 0 || sec <= -3600
    ensures FileName(sec) == FileNameSigned(sec)
  {
    var a: int := Magnitude(sec);
    var v, r := GoQuo(sec, 3600), GoRem(sec, 3600);
    var min := GoQuo(r, 60);
    assert v == if sec < 0 then -(a / 3600) else a / 3600;
    assert r == if sec < 0 then -(a % 3600) else a % 3600;
    assert min == if sec < 0 then -(a % 3600 / 60) else a % 3600 / 60;
    assert (v >= 0) == (sec >= 0);
    Signed3Is(v);
    assert FileName(sec) == Signed3(v) + Pad2(a % 3600 / 60);
  }

  /** The sign, dropped, leaves the digits. */
  lemma SignDropped(sign: char, p: string, q: string)
    ensures ([sign] + p + q)[1..] == p + q
  {
  }

  /** As written, an offset less than an hour west loses its sign and reads back as east of UTC. */
  lemma FileNameLosesSign(sec: int)
    requires -3600 < sec < 0
    ensures FileName(sec)[0] == '+' && FileNameSigned(sec)[0] == '-'
    ensures FileName(sec)[1..] == FileNameSigned(sec)[1..]
    ensures var s := FileName(sec); |s| >= 5 && AllDigits(s[1..]) && Offset(s) == -GoQuo(sec, 60) * 60
  {
    var a: int := Magnitude(sec);
    assert GoQuo(sec, 3600) == 0;
    assert GoRem(sec, 3600) == sec;
    assert GoQuo(sec, 60) == -(a / 60);
    assert a / 3600 == 0 && a % 3600 == a;
    Signed3Is(0);
    var p, q := Pad2(0), Pad2(a / 60);
    assert FileName(sec) == ['+'] + p + q;
    assert FileNameSigned(sec) == ['-'] + p + q;
    SignDropped('+', p, q);
    SignDropped('-', p, q);
    OffsetOf('+', p, q);
    Pad2Value(0);
    Pad2Value(a / 60);
  }

  /** `%02d` of one digit puts a zero before it; of two digits, writes both. */
  lemma Pad2Digits(n: nat)
    requires n < 100
    ensures Pad2(n) == if n < 10 then ['0', DigitChar(n)] else [DigitChar(n / 10), DigitChar(n % 10)]
  {
    if n < 10 {
      assert Decimal(n) == [DigitChar(n)];
    } else {
      assert Decimal(n / 10) == [DigitChar(n / 10)];
    }
  }

  /** A whole-minute offset east, or an hour or more west, reads back as itself. */
  lemma FileNameRoundTrip(sec: int)
    requires GoRem(sec, 60) == 0 && (sec >= 0 || sec <= -3600)
    ensures var s := FileName(sec); |s| >= 5 && AllDigits(s[1..]) && Offset(s) == sec
  {
    FileNameAgrees(sec);
    FileNameSignedOffset(sec);
  }

  /** Half an hour west of UTC, in seconds. */
  const HALF_HOUR_WEST := -1800

  /** Half an hour west is written with a plus sign and reads back as half an hour east. */
  lemma FileNameHalfHourWest()
    ensures var s := FileName(HALF_HOUR_WEST);
      |s| >= 5 && AllDigits(s[1..]) && s[0] == '+' && Offset(s) == 1800
    ensures var s := FileNameSigned(HALF_HOUR_WEST);
      |s| >= 5 && AllDigits(s[1..]) && s[0] == '-' && Offset(s) == -1800
  {
    FileNameLosesSign(HALF_HOUR_WEST);
    FileNameSignedOffset(HALF_HOUR_WEST);
  }

  /** UTC, and any offset less than a minute east of it, is written "+0000". */
  lemma FileNameUtc(sec: int)
    requires 0 <= sec < 60
    ensures FileName(sec) == "+0000"
  {
    var v, m := GoQuo(sec, 3600), GoQuo(GoRem(sec, 3600), 60);
    assert v == 0 && m == 0;
    assert FileName(sec) == Signed3(v) + Pad2(m);
    Signed3Is(v);
    Pad2Digits(v);
    Pad2Digits(m);
  }
}
