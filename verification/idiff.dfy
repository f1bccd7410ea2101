/*
 * idiff: the header of a hunk of `diff` output in its normal format,
 * "<from1>[,<to1>]<cmd><from2>[,<to2>]", and the number of lines of the
 * hunk that follow it.
 *
 * The line is the C string fgets left in the buffer; a read at or past
 * its end sees NUL.
 */
module IDiff {
  import opened Common

  /** The char at index i of the C string s: NUL from its end on. */
  function At(s: seq<char>, i: nat): char {
    if i < |s| then s[i] else NUL
  }

  /** The number of digits from index i on. */
  function DigitRun(s: seq<char>, i: nat): (k: nat)
    ensures i <= |s| ==> i + k <= |s|
    decreases |s| - i
  {
    if i < |s| && IsDigit(s[i]) then 1 + DigitRun(s, i + 1) else 0
  }

  /** The run at i is made of digits. */
  lemma {:induction false} RunDigits(s: seq<char>, i: nat)
    requires i <= |s|
    ensures AllDigits(s[i..i + DigitRun(s, i)])
    decreases |s| - i
  {
    if i < |s| && IsDigit(s[i]) {
      RunDigits(s, i + 1);
      var k := DigitRun(s, i);
      assert s[i..i + k] == [s[i]] + s[i + 1..i + k];
    }
  }

  /** The value of the digits from index i on, 0 when there are none. */
  function Number(s: seq<char>, i: nat): nat {
    if i >= |s| then 0 else RunDigits(s, i); DigitsValue(s[i..i + DigitRun(s, i)])
  }

  /** One more digit: the value of s[i..j+1] is ten times that of s[i..j] plus the digit. */
  lemma DigitsStep(s: seq<char>, i: nat, j: nat)
    requires i <= j < |s| && AllDigits(s[i..j]) && IsDigit(s[j])
    ensures AllDigits(s[i..j + 1]) && DigitsValue(s[i..j + 1]) == 10 * DigitsValue(s[i..j]) + DigitValue(s[j])
  {
    assert s[i..j + 1] == s[i..j] + [s[j]];
  }

  /**
   * The a2i macro on a number that parse has zeroed: while the char at
   * i is a digit, the number becomes ten times itself plus the digit's
   * value and i moves past it.
   */
  method A2i(s: seq<char>, i: nat) returns (j: nat, q: nat)
    requires i <= |s|
    ensures j == i + DigitRun(s, i) && q == Number(s, i)
  {
    j, q := i, 0;
    while j < |s| && IsDigit(s[j])
      invariant i <= j <= |s| && DigitRun(s, i) == (j - i) + DigitRun(s, j)
      invariant AllDigits(s[i..j]) && q == DigitsValue(s[i..j])
      decreases |s| - j
    {
      DigitsStep(s, i, j);
      q := 10 * q + DigitValue(s[j]);
      j := j + 1;
    }
  }

  datatype Hunk = Hunk(from1: int, to1: int, cmd: char, from2: int, to2: int)

  /** A range at index i: the number, and, after a comma, the upper bound
      (the number itself when there is no comma); then the index past it. */
  function Range(s: seq<char>, i: nat): (nat, nat, nat) {
    var lo := Number(s, i);
    var k := i + DigitRun(s, i);
    if At(s, k) == ',' then (lo, Number(s, k + 1), k + 1 + DigitRun(s, k + 1))
    else (lo, lo, k)
  }

  /** What parse leaves in from1, to1, cmd, from2 and to2. */
  function HunkOf(s: seq<char>): Hunk {
    var (from1, to1, c) := Range(s, 0);
    var (from2, to2, _) := Range(s, c + 1);
    Hunk(from1, to1, At(s, c), from2, to2)
  }

  /**
   * parse(s, &from1, &to1, &cmd, &from2, &to2): all four numbers are
   * zeroed, then each range is read with a2i, and cmd is the char right
   * after the first range.
   */
  method Parse(s: seq<char>) returns (h: Hunk)
    requires IsCString(s)
    ensures h == HunkOf(s)
  {
    var from1, to1, i := ReadRange(s, 0);
    var cmd := At(s, i);
    var from2, to2, _ := ReadRange(s, i + 1);
    h := Hunk(from1, to1, cmd, from2, to2);
  }

  /** One range of parse: a2i, and a second a2i after a comma. */
  method ReadRange(s: seq<char>, i0: nat) returns (lo: nat, hi: nat, i: nat)
    ensures (lo, hi, i) == Range(s, i0)
  {
    if i0 > |s| {
      // past the terminating NUL every read is NUL: no digits, no comma
      return 0, 0, i0;
    }
    i, lo := A2i(s, i0);
    if At(s, i) == ',' {
      i, hi := A2i(s, i + 1);
    } else {
      hi := lo;
    }
  }

  // The header diff writes, read back

  /** A range as diff writes it: one number when both ends agree. */
  function ShowRange(lo: nat, hi: nat): seq<char> {
    if lo == hi then Decimal(lo) else Decimal(lo) + "," + Decimal(hi)
  }

  /** A hunk header line as diff writes it. */
  function Header(from1: nat, to1: nat, cmd: char, from2: nat, to2: nat): seq<char> {
    ShowRange(from1, to1) + [cmd] + ShowRange(from2, to2) + "\n"
  }

  /** Digits t at index i, followed by a non-digit, form the run at i. */
  lemma {:induction false} RunOf(s: seq<char>, i: nat, t: seq<char>)
    requires i + |t| <= |s| && s[i..i + |t|] == t && AllDigits(t)
    requires !IsDigit(At(s, i + |t|))
    ensures DigitRun(s, i) == |t|
    ensures Number(s, i) == if t == [] then 0 else DigitsValue(t)
    decreases |t|
  {
    if t != [] {
      assert s[i + 1..i + 1 + |t[1..]|] == t[1..];
      RunOf(s, i + 1, t[1..]);
    }
  }

  /** Digits t between pre and a non-digit form the run after pre. */
  lemma Framed(pre: seq<char>, t: seq<char>, rest: seq<char>)
    requires AllDigits(t) && rest != [] && !IsDigit(rest[0])
    ensures var s := pre + t + rest;
      DigitRun(s, |pre|) == |t| && At(s, |pre| + |t|) == rest[0] &&
      Number(s, |pre|) == if t == [] then 0 else DigitsValue(t)
  {
    var s := pre + t + rest;
    assert s[|pre|..|pre| + |t|] == t;
    RunOf(s, |pre|, t);
  }

  /** A range at index i of s that has a comma: its three parts from the two digit runs. */
  lemma CommaRange(s: seq<char>, pre: seq<char>, a: seq<char>, b: seq<char>)
    requires DigitRun(s, |pre|) == |a| && At(s, |pre| + |a|) == ','
    requires DigitRun(s, |pre| + |a| + 1) == |b|
    ensures var r := Range(s, |pre|);
      r.0 == Number(s, |pre|) && r.1 == Number(s, |pre| + |a| + 1) && r.2 == |pre| + |a| + 1 + |b|
  {
  }

  /** The first run of a comma pair, and the comma after it. */
  lemma FirstOfPair(pre: seq<char>, a: seq<char>, b: seq<char>, rest: seq<char>)
    requires AllDigits(a) && a != []
    ensures var s := pre + (a + [','] + b) + rest;
      DigitRun(s, |pre|) == |a| && Number(s, |pre|) == DigitsValue(a) && At(s, |pre| + |a|) == ','
  {
    var tail := [','] + b + rest;
    assert pre + (a + [','] + b) + rest == pre + a + tail;
    Framed(pre, a, tail);
  }

  /** The second run of a comma pair, ended by a non-digit. */
  lemma SecondOfPair(pre: seq<char>, a: seq<char>, b: seq<char>, rest: seq<char>)
    requires AllDigits(b) && b != [] && rest != [] && !IsDigit(rest[0])
    ensures var s := pre + (a + [','] + b) + rest;
      DigitRun(s, |pre| + |a| + 1) == |b| && Number(s, |pre| + |a| + 1) == DigitsValue(b)
  {
    var head := pre + a + [','];
    assert pre + (a + [','] + b) + rest == head + b + rest;
    Framed(head, b, rest);
  }

  /** Two runs of digits joined by a comma, then a char that is neither digit nor comma. */
  lemma PairFramed(pre: seq<char>, a: seq<char>, b: seq<char>, rest: seq<char>)
    requires AllDigits(a) && AllDigits(b) && a != [] && b != []
    requires rest != [] && !IsDigit(rest[0]) && rest[0] != ','
    ensures var r := Range(pre + (a + [','] + b) + rest, |pre|);
      r.0 == DigitsValue(a) && r.1 == DigitsValue(b) && r.2 == |pre| + |a| + 1 + |b|
  {
    FirstOfPair(pre, a, b, rest);
    SecondOfPair(pre, a, b, rest);
    CommaRange(pre + (a + [','] + b) + rest, pre, a, b);
  }

  /** A range followed by the rest of the line reads back as itself. */
  lemma RangeOf(pre: seq<char>, lo: nat, hi: nat, rest: seq<char>)
    requires rest != [] && !IsDigit(rest[0]) && rest[0] != ','
    ensures var r := Range(pre + ShowRange(lo, hi) + rest, |pre|);
      r.0 == lo && r.1 == hi && r.2 == |pre| + |ShowRange(lo, hi)|
  {
    var a := Decimal(lo);
    DecimalRoundTrip(lo);
    if lo == hi {
      Framed(pre, a, rest);
    } else {
      var b := Decimal(hi);
      DecimalRoundTrip(hi);
      assert ShowRange(lo, hi) == a + [','] + b;
      PairFramed(pre, a, b, rest);
    }
  }

  /** parse reads back every header diff writes, whatever the command letter. */
  lemma HeaderRoundTrip(from1: nat, to1: nat, cmd: char, from2: nat, to2: nat)
    requires !IsDigit(cmd) && cmd != ','
    ensures HunkOf(Header(from1, to1, cmd, from2, to2)) == Hunk(from1, to1, cmd, from2, to2)
  {
    var r1, r2 := ShowRange(from1, to1), ShowRange(from2, to2);
    var s := Header(from1, to1, cmd, from2, to2);
    assert s == [] + r1 + ([cmd] + r2 + "\n");
    RangeOf([], from1, to1, [cmd] + r2 + "\n");
    assert At(s, |r1|) == cmd;
    assert s == (r1 + [cmd]) + r2 + "\n";
    RangeOf(r1 + [cmd], from2, to2, "\n");
  }

  // The hunk's line count

  /** Lines from lo to hi inclusive. */
  function Count(lo: int, hi: int): int {
    hi - lo + 1
  }

  /**
   * How many lines diff's normal format prints after each kind of
   * header: the added lines, the deleted lines, or the old lines, a
   * "---" line and the new lines.  None for any other command letter.
   */
  function BodyLines(h: Hunk): Option<int> {
    if h.cmd == 'a' && h.from1 == h.to1 then Some(Count(h.from2, h.to2))
    else if h.cmd == 'd' && h.from2 == h.to2 then Some(Count(h.from1, h.to1))
    else if h.cmd == 'c' then Some(Count(h.from1, h.to1) + 1 + Count(h.from2, h.to2))
    else None
  }

  /**
   * The count at the head of idiff's loop: n lines follow the header;
   * an append moves from1, a delete from2, to the first line not yet
   * copied.
   */
  method HunkLines(h: Hunk) returns (n: int, from1: int, from2: int)
    ensures BodyLines(h).Some? ==> n == BodyLines(h).value
    ensures from1 == if h.cmd == 'a' then h.from1 + 1 else h.from1
    ensures from2 == if h.cmd == 'd' then h.from2 + 1 else h.from2
    ensures h.cmd !in "acd" ==> n == Count(h.from1, h.to1) + Count(h.from2, h.to2) - 1
  {
    from1, from2 := h.from1, h.from2;
    n := h.to1 - from1 + h.to2 - from2 + 1;
    if h.cmd == 'c' {
      n := n + 2;
    } else if h.cmd == 'a' {
      from1 := from1 + 1;
    } else if h.cmd == 'd' {
      from2 := from2 + 1;
    }
  }
}
