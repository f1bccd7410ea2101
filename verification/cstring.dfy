/*
 * clib/string.c (and its older copies clang/string.c, clang/strcat.c):
 * bounded string concatenation into a caller's buffer, unsigned and signed
 * decimal rendering, and the strict decimal parsers a2ui63 / a2size_t.
 *
 * A C `char *tgt` into a buffer is an array plus an index into it; the
 * buffer's contents are a `seq<char>` in the specification functions.
 */
module CString {
  import opened Common

  /** There is a NUL at or after index `at`, so the scan from `at` stops
      inside the buffer. */
  predicate Terminated(buf: seq<char>, at: nat) {
    at <= |buf| && NulFrom(buf, at) < |buf|
  }

  /** How many bytes of a `srcLen`-byte source the copy loop takes when the
      string already holds `len` bytes and the caller says the buffer holds
      `size`: as many as fit while one byte stays free for the NUL. */
  function CopyCount(len: nat, size: int, srcLen: nat): (k: nat)
    ensures k <= srcLen
    ensures len < size ==> len + k <= size - 1
    ensures k < srcLen ==> len + k >= size - 1
  {
    if size - len - 1 <= 0 then 0
    else if srcLen <= size - len - 1 then srcLen
    else size - len - 1
  }

  /** The buffer after jmscott_strcat(tgt + at, size, src): the source bytes
      that fit overwrite the NUL that ended the string at `at` and the bytes
      after it, a NUL follows them, and every other byte keeps its value.
      A null source (None) leaves the buffer as it was. */
  function CatAt(buf: seq<char>, at: nat, size: int, src: Option<string>): (r: seq<char>)
    requires Terminated(buf, at) && size <= |buf| - at
    requires src.Some? ==> IsCString(src.value)
    ensures |r| == |buf|
  {
    match src
    case None => buf
    case Some(s) =>
      var e := NulFrom(buf, at);
      var k := CopyCount(e - at, size, |s|);
      seq(|buf|, j requires 0 <= j < |buf| =>
        if j < e then buf[j]
        else if j < e + k then s[j - e]
        else if j == e + k then NUL
        else buf[j])
  }

  /** What CatAt does to the C string at `at`: it becomes the old string
      followed by the longest prefix of the source that keeps it within
      size-1 bytes (an old string already longer than that is kept whole);
      the bytes before `at` and after the new NUL are untouched. */
  lemma CatAtText(buf: seq<char>, at: nat, size: int, s: string)
    requires Terminated(buf, at) && size <= |buf| - at && IsCString(s)
    ensures var e := NulFrom(buf, at);
            var k := CopyCount(e - at, size, |s|);
            var r := CatAt(buf, at, size, Some(s));
            e + k < |r| && NulFrom(r, at) == e + k &&
            r[at..e + k] == buf[at..e] + s[..k] &&
            (e - at < size ==> e + k - at <= size - 1)
  {
    var e := NulFrom(buf, at);
    var k := CopyCount(e - at, size, |s|);
    var r := CatAt(buf, at, size, Some(s));
    assert r[at..e + k] == buf[at..e] + s[..k] by {
      forall j | at <= j < e + k ensures r[j] == (buf[at..e] + s[..k])[j - at] {
        if j >= e { assert r[j] == s[j - e]; }
      }
    }
    assert forall j :: at <= j < e + k ==> r[j] != NUL by {
      forall j | at <= j < e + k ensures r[j] != NUL {
        if j >= e { assert r[j] == s[j - e]; }
      }
    }
    NulFromAt(r, at, e + k);
  }

  /** CatAt writes nothing before `at` and nothing after the new NUL. */
  lemma CatAtFrame(buf: seq<char>, at: nat, size: int, s: string)
    requires Terminated(buf, at) && size <= |buf| - at && IsCString(s)
    ensures var e := NulFrom(buf, at);
            var k := CopyCount(e - at, size, |s|);
            var r := CatAt(buf, at, size, Some(s));
            e + k < |r| && r[..at] == buf[..at] && r[e + k + 1..] == buf[e + k + 1..]
  {
  }

  /** The scan stops at the first NUL: any index with a NUL and none before
      it (from `at`) is where NulFrom lands. */
  lemma NulFromAt(s: seq<char>, at: nat, n: nat)
    requires at <= n <= |s| && (n < |s| ==> s[n] == NUL)
    requires forall j :: at <= j < n ==> s[j] != NUL
    ensures NulFrom(s, at) == n
    decreases n - at
  {
    if at < n {
      NulFromAt(s, at + 1, n);
    }
  }

  /** jmscott_strcat (clib/string.c): append the C string `src` to the C
      string at tgt[at], for a buffer the caller says is `size` bytes from
      there; returns the index of the terminating NUL.  A null `src` (None)
      changes nothing and returns the index of the existing NUL. */
  method StrCat(tgt: array<char>, at: nat, size: int, src: Option<string>) returns (end: nat)
    requires Terminated(tgt[..], at) && size <= tgt.Length - at
    requires src.Some? ==> IsCString(src.value)
    modifies tgt
    ensures tgt[..] == CatAt(old(tgt[..]), at, size, src)
    ensures end == NulFrom(tgt[..], at) && end < tgt.Length
  {
    ghost var buf := tgt[..];
    var i, room := ScanNul(tgt, at, size);
    if src.None? {
      return i;
    }
    var k := CopyBounded(tgt, i, room, src.value);
    end := i + k;
    CatAtText(buf, at, size, src.value);
    CatAtPointwise(buf, at, size, src.value, tgt[..]);
  }

  /** The scan loop of jmscott_strcat: walk to the NUL that ends the string
      at tgt[at], taking one off the size for every byte passed. */
  method ScanNul(tgt: array<char>, at: nat, size: int) returns (i: nat, room: int)
    requires Terminated(tgt[..], at)
    ensures i == NulFrom(tgt[..], at) && room == size - (i - at)
  {
    ghost var e := NulFrom(tgt[..], at);
    i, room := at, size;
    while tgt[i] != NUL
      invariant at <= i <= e && room == size - (i - at)
      invariant NulFrom(tgt[..], i) == e
      decreases e - i
    {
      room := room - 1;
      i := i + 1;
    }
  }

  /** The copy loop of jmscott_strcat: with `room` left and the NUL at
      tgt[i], copy source bytes while one byte stays free, then write the
      NUL; returns how many bytes were copied. */
  method CopyBounded(tgt: array<char>, i: nat, room: int, s: string) returns (k: nat)
    requires i < tgt.Length && room <= tgt.Length - i && IsCString(s)
    modifies tgt
    ensures k == CopyCount(0, room, |s|) && i + k < tgt.Length
    ensures forall j :: 0 <= j < tgt.Length && !(i <= j <= i + k) ==> tgt[j] == old(tgt[j])
    ensures forall j :: i <= j < i + k ==> tgt[j] == s[j - i]
    ensures tgt[i + k] == NUL
  {
    var left := room;
    k := 0;
    while left - 1 > 0 && k < |s|
      invariant 0 <= k <= |s| && k <= CopyCount(0, room, |s|)
      invariant left == room - k
      invariant forall j :: 0 <= j < tgt.Length && !(i <= j < i + k) ==> tgt[j] == old(tgt[j])
      invariant forall j :: i <= j < i + k ==> tgt[j] == s[j - i]
    {
      tgt[i + k] := s[k];
      left := left - 1;
      k := k + 1;
    }
    tgt[i + k] := NUL;
  }

  /** The buffer CatAt produces, byte by byte. */
  lemma CatAtPointwise(buf: seq<char>, at: nat, size: int, s: string, r: seq<char>)
    requires Terminated(buf, at) && size <= |buf| - at && IsCString(s) && |r| == |buf|
    requires var e := NulFrom(buf, at); var k := CopyCount(e - at, size, |s|);
      e + k < |r| &&
      (forall j :: 0 <= j < |r| && !(e <= j <= e + k) ==> r[j] == buf[j]) &&
      (forall j :: e <= j < e + k ==> r[j] == s[j - e]) &&
      r[e + k] == NUL
    ensures r == CatAt(buf, at, size, Some(s))
  {
  }

  /** jmscott_strcat in clang/strcat.c and clang/string.c: the same two
      loops on the whole buffer, without the null-source guard and without
      a result. */
  method StrCatUnguarded(tgt: array<char>, size: int, src: string)
    requires Terminated(tgt[..], 0) && size <= tgt.Length && IsCString(src)
    modifies tgt
    ensures tgt[..] == CatAt(old(tgt[..]), 0, size, Some(src))
  {
    var _ := StrCat(tgt, 0, size, Some(src));
  }

  predicate AllCStrings(srcs: seq<Option<string>>) {
    forall i :: 0 <= i < |srcs| ==> srcs[i].Some? ==> IsCString(srcs[i].value)
  }

  /** The buffer after strcat of each source in turn into the same buffer
      with the same size. */
  function CatAll(buf: seq<char>, size: int, srcs: seq<Option<string>>): (r: seq<char>)
    requires Terminated(buf, 0) && size <= |buf| && AllCStrings(srcs)
    ensures |r| == |buf| && Terminated(r, 0)
    decreases |srcs|
  {
    if srcs == [] then buf
    else
      var next := CatAt(buf, 0, size, srcs[0]);
      assert Terminated(next, 0) by {
        if srcs[0].Some? { CatAtText(buf, 0, size, srcs[0].value); }
      }
      CatAll(next, size, srcs[1..])
  }

  /** jmscott_strcat2 .. jmscott_strcat7 (clib/string.c): strcat of the
      first source, then each further source appended at the returned NUL
      with the size that is left; returns the index of the final NUL. */
  method StrCatN(tgt: array<char>, size: int, srcs: seq<Option<string>>) returns (end: nat)
    requires 2 <= |srcs| <= 7
    requires Terminated(tgt[..], 0) && size <= tgt.Length && AllCStrings(srcs)
    modifies tgt
    ensures tgt[..] == CatAll(old(tgt[..]), size, srcs)
    ensures end == Strlen(tgt[..])
  {
    ghost var orig := tgt[..];
    end := 0;
    var i := 0;
    while i < |srcs|
      invariant 0 <= i <= |srcs|
      invariant CatAllFrom(orig, tgt[..], end, size, srcs, i)
    {
      ghost var before := tgt[..];
      StepFromEnd(before, end, size, srcs[i]);
      ghost var oldEnd := end;
      end := StrCat(tgt, end, size - end, srcs[i]);
      CatAllNext(orig, before, tgt[..], oldEnd, end, size, srcs, i);
      i := i + 1;
    }
    assert srcs[|srcs|..] == [];
  }

  /** The state of jmscott_strcatN after the first i sources: `cur` is the
      buffer, what is left to do ends in CatAll of `orig` with all sources,
      and `end` is the index the next strcat starts from. */
  predicate CatAllFrom(orig: seq<char>, cur: seq<char>, end: nat, size: int, srcs: seq<Option<string>>, i: nat)
  {
    i <= |srcs| && |cur| == |orig| && size <= |orig| && AllCStrings(srcs) &&
    Terminated(orig, 0) && Terminated(cur, 0) &&
    CatAll(orig, size, srcs) == CatAll(cur, size, srcs[i..]) &&
    (i == 0 ==> end == 0) && (i > 0 ==> end == NulFrom(cur, 0))
  }

  /** One more source appended keeps CatAllFrom. */
  lemma CatAllNext(orig: seq<char>, before: seq<char>, after: seq<char>, oldEnd: nat, end: nat,
                   size: int, srcs: seq<Option<string>>, i: nat)
    requires CatAllFrom(orig, before, oldEnd, size, srcs, i) && i < |srcs|
    requires Terminated(before, oldEnd) && size - oldEnd <= |before| - oldEnd
    requires CatAt(before, oldEnd, size - oldEnd, srcs[i]) == CatAt(before, 0, size, srcs[i])
    requires NulFrom(CatAt(before, 0, size, srcs[i]), oldEnd) == NulFrom(CatAt(before, 0, size, srcs[i]), 0)
    requires after == CatAt(before, oldEnd, size - oldEnd, srcs[i]) && end == NulFrom(after, oldEnd)
    ensures CatAllFrom(orig, after, end, size, srcs, i + 1)
  {
    if srcs[i].Some? {
      CatAtText(before, 0, size, srcs[i].value);
    }
    assert srcs[i..][1..] == srcs[i + 1..];
  }

  /** One step of jmscott_strcatN: strcat at the NUL ending the string (or
      at the start) with the size that is left is strcat on the whole
      buffer, and the scan from there ends where the whole string ends. */
  lemma StepFromEnd(buf: seq<char>, end: nat, size: int, src: Option<string>)
    requires Terminated(buf, 0) && size <= |buf| && (src.Some? ==> IsCString(src.value))
    requires end == 0 || end == NulFrom(buf, 0)
    ensures Terminated(buf, end) && size - end <= |buf| - end
    ensures CatAt(buf, end, size - end, src) == CatAt(buf, 0, size, src)
    ensures var r := CatAt(buf, 0, size, src); NulFrom(r, end) == NulFrom(r, 0)
  {
    var e := NulFrom(buf, 0);
    if end != 0 {
      NulFromAt(buf, end, end);
    }
    if src.Some? {
      var s := src.value;
      assert CopyCount(e - end, size - end, |s|) == CopyCount(e, size, |s|);
      var r := CatAt(buf, 0, size, src);
      assert CatAt(buf, end, size - end, src) == r;
      assert NulFrom(r, 0) == e + CopyCount(e, size, |s|) by {
        CatAtText(buf, 0, size, s);
      }
      assert NulFrom(r, end) == e + CopyCount(e, size, |s|) by {
        CatAtText(buf, end, size - end, s);
      }
    } else {
      NulFromAt(buf, end, e);
    }
  }

  /** The first n bytes of t, or all of t when it is shorter. */
  function Truncate(t: string, n: int): (r: string)
    ensures |r| <= |t| && r == t[..|r|]
  {
    if |t| <= n then t else if n <= 0 then [] else t[..n]
  }

  function Flatten(ss: seq<string>): string {
    if ss == [] then [] else ss[0] + Flatten(ss[1..])
  }

  function Somes(ss: seq<string>): (r: seq<Option<string>>)
    ensures |r| == |ss| && forall i :: 0 <= i < |ss| ==> r[i] == Some(ss[i])
  {
    if ss == [] then [] else [Some(ss[0])] + Somes(ss[1..])
  }

  /** strcat of a list of non-null sources leaves the concatenation of the
      old string and all the sources, cut to size-1 bytes. */
  lemma {:induction false} CatAllText(buf: seq<char>, size: int, srcs: seq<string>)
    requires Terminated(buf, 0) && Strlen(buf) < size <= |buf|
    requires forall i :: 0 <= i < |srcs| ==> IsCString(srcs[i])
    ensures UpToNul(CatAll(buf, size, Somes(srcs))) == Truncate(UpToNul(buf) + Flatten(srcs), size - 1)
    decreases |srcs|
  {
    if srcs == [] {
      assert UpToNul(buf) + Flatten(srcs) == UpToNul(buf);
    } else {
      var s, rest := srcs[0], Flatten(srcs[1..]);
      var text := UpToNul(buf);
      var k := CopyCount(|text|, size, |s|);
      var next := CatAt(buf, 0, size, Some(s));
      assert UpToNul(next) == text + s[..k] && Strlen(next) < size by {
        CatAtText(buf, 0, size, s);
      }
      assert CatAll(buf, size, Somes(srcs)) == CatAll(next, size, Somes(srcs[1..])) by {
        assert Somes(srcs)[1..] == Somes(srcs[1..]);
      }
      calc {
        UpToNul(CatAll(buf, size, Somes(srcs)));
        UpToNul(CatAll(next, size, Somes(srcs[1..])));
        { CatAllText(next, size, srcs[1..]); }
        Truncate(text + s[..k] + rest, size - 1);
        { TruncatedPrefix(text, s, rest, size); }
        Truncate(text + s + rest, size - 1);
        { assert text + s + rest == text + (s + rest); }
        Truncate(text + Flatten(srcs), size - 1);
      }
    }
  }

  /** Cutting a source short at size-1 bytes and then appending more text
      gives the same size-1 bytes as appending the whole source. */
  lemma TruncatedPrefix(text: string, s: string, rest: string, size: int)
    requires |text| < size
    ensures Truncate(text + s[..CopyCount(|text|, size, |s|)] + rest, size - 1) == Truncate(text + s + rest, size - 1)
  {
    var k := CopyCount(|text|, size, |s|);
    if k == |s| {
      assert s[..k] == s;
    } else {
      assert (text + s[..k] + rest)[..size - 1] == text + s[..k] == (text + s + rest)[..size - 1];
    }
  }

  // ----- decimal text: jmscott_ulltoa, jmscott_lltoa -----

  const ULLONG_LIMIT: nat := 0x1_0000_0000_0000_0000
  const LLONG_MIN: int := -0x8000_0000_0000_0000
  const LLONG_MAX: int := 0x7fff_ffff_ffff_ffff

  /** jmscott_ulltoa: write the decimal digits of `ull` at tgt[at..] without
      a terminating NUL and return the index just past the last digit.  A
      first loop counts the digits, a second writes them backwards. */
  method Ulltoa(ull: nat, tgt: array<char>, at: nat) returns (end: nat)
    requires ull < ULLONG_LIMIT && at + NumDigits(ull) <= tgt.Length
    modifies tgt
    ensures end == at + NumDigits(ull)
    ensures tgt[at..end] == Decimal(ull)
    ensures forall j :: 0 <= j < tgt.Length && !(at <= j < end) ==> tgt[j] == old(tgt[j])
  {
    // find the end of the formatted string
    var n := CountDigits(ull);
    var p: nat := at + n;
    end := p;
    // in reverse order, replace bytes with the digits
    ghost var d := Decimal(ull);
    var u := ull;
    assert d[..p - at] == d;
    DecimalStep(d, u);
    p := p - 1;
    tgt[p] := DigitChar(u % 10);
    u := u / 10;
    while u > 0
      invariant at <= p <= end
      invariant u > 0 ==> p - at == NumDigits(u) && d[..p - at] == Decimal(u)
      invariant u == 0 ==> p == at
      invariant forall j :: p <= j < end ==> tgt[j] == d[j - at]
      invariant forall j :: 0 <= j < tgt.Length && !(p <= j < end) ==> tgt[j] == old(tgt[j])
      decreases u
    {
      DecimalStep(d, u);
      p := p - 1;
      tgt[p] := DigitChar(u % 10);
      u := u / 10;
    }
    assert tgt[at..end] == d by {
      forall j | 0 <= j < end - at ensures tgt[at..end][j] == d[j] {
        assert tgt[at + j] == d[at + j - at];
      }
    }
  }

  /** The first loop of jmscott_ulltoa: divide by ten until nothing is
      left, counting one character per division (at least one). */
  method CountDigits(ull: nat) returns (n: nat)
    ensures n == NumDigits(ull)
  {
    n := 1;
    var power: nat := ull / 10;
    while power > 0
      invariant n + NumDigits(power) == NumDigits(ull) + (if power == 0 then 1 else 0)
      decreases power
    {
      n := n + 1;
      power := power / 10;
    }
  }

  /** One step of writing digits backwards: when the first NumDigits(u)
      characters of d spell u, the last of them is u's last digit, and the
      ones before it spell u / 10. */
  lemma DecimalStep(d: string, u: nat)
    requires NumDigits(u) <= |d| && d[..NumDigits(u)] == Decimal(u)
    ensures d[NumDigits(u) - 1] == DigitChar(u % 10)
    ensures u >= 10 ==> NumDigits(u / 10) == NumDigits(u) - 1 && d[..NumDigits(u / 10)] == Decimal(u / 10)
  {
    var k := NumDigits(u);
    assert d[k - 1] == d[..k][k - 1];
    if u >= 10 {
      assert d[..k - 1] == d[..k][..k - 1];
    }
  }

  /** jmscott_lltoa: a '-' then the digits of the magnitude for a negative
      value (for LLONG_MIN the negation wraps and the unsigned cast gives
      back 2^63, which is its magnitude), else the digits. */
  method Lltoa(ll: int, tgt: array<char>, at: nat) returns (end: nat)
    requires LLONG_MIN <= ll <= LLONG_MAX && at + |SignedDecimal(ll)| <= tgt.Length
    modifies tgt
    ensures end == at + |SignedDecimal(ll)|
    ensures tgt[at..end] == SignedDecimal(ll)
    ensures forall j :: 0 <= j < tgt.Length && !(at <= j < end) ==> tgt[j] == old(tgt[j])
  {
    if ll < 0 {
      assert SignedDecimal(ll) == ['-'] + Decimal(-ll);
      tgt[at] := '-';
      ghost var mid := tgt[..];
      end := Ulltoa(-ll, tgt, at + 1);
      assert tgt[at] == mid[at] == '-';
      assert tgt[at..end] == [tgt[at]] + tgt[at + 1..end];
    } else {
      end := Ulltoa(ll, tgt, at);
    }
  }

  /** The signed text reads back as the value: a leading '-' exactly for
      negative values, then the canonical digits of the magnitude. */
  lemma {:induction false} SignedDecimalRoundTrip(i: int)
    ensures var s := SignedDecimal(i);
            (s[0] == '-' <==> i < 0) &&
            (i < 0 ==> DigitsValue(s[1..]) == -i) &&
            (i >= 0 ==> DigitsValue(s) == i)
  {
    if i < 0 {
      DecimalRoundTrip(-i);
      assert SignedDecimal(i)[1..] == Decimal(-i);
    } else {
      DecimalRoundTrip(i);
    }
  }

  // ----- strict decimal parsing: jmscott_a2ui63, jmscott_a2size_t -----

  datatype Parsed = Rejected(why: string) | Accepted(value: nat)

  /** What jmscott_a2ui63 decides about a C string, stated over the whole
      string: an empty string has no chars; a non-digit among the first 19
      bytes is reported before length; a 20th byte makes it too long;
      otherwise the value of the (at most 19) digits. */
  function ParseUi63(a: string): (r: Parsed)
    ensures r.Accepted? ==> 1 <= |a| <= 19 && AllDigits(a) && r.value == DigitsValue(a)
  {
    if a == [] then Rejected("value has no chars")
    else if exists j :: 0 <= j < |a| && j < 19 && !IsDigit(a[j]) then Rejected("value has non digit")
    else if |a| >= 20 then Rejected("value is >= 20 chars")
    else Accepted(DigitsValue(a))
  }

  /** jmscott_a2ui63: the error text (None for the null pointer returned on
      success) and what is stored through `ull`, which happens only on
      success and only when the pointer is not null. */
  method A2ui63(a: string, hasTarget: bool) returns (err: Option<string>, stored: Option<nat>)
    requires IsCString(a)
    ensures err.Some? <==> ParseUi63(a).Rejected?
    ensures err.Some? ==> err.value == ParseUi63(a).why
    ensures stored == if hasTarget && err.None? then Some(ParseUi63(a).value) else None
  {
    stored := None;
    if |a| == 0 {
      return Some("value has no chars"), None;
    }
    var u := 0;
    var i := 0;
    while i < |a|
      invariant 0 <= i <= |a| && i <= 19
      invariant AllDigits(a[..i]) && u == DigitsValue(a[..i])
    {
      var c := a[i];
      if i + 1 >= 20 {
        assert !exists j :: 0 <= j < |a| && j < 19 && !IsDigit(a[j]) by {
          assert forall j :: 0 <= j < 19 ==> a[..i][j] == a[j];
        }
        return Some("value is >= 20 chars"), None;
      }
      if !IsDigit(c) {
        return Some("value has non digit"), None;
      }
      assert a[..i + 1][..i] == a[..i];
      u := u * 10 + DigitValue(c);
      i := i + 1;
    }
    assert a[..i] == a;
    assert !exists j :: 0 <= j < |a| && j < 19 && !IsDigit(a[j]);
    err := None;
    if hasTarget {
      stored := Some(u);
    }
  }

  /** Every canonical decimal of at most 19 digits is accepted with its value. */
  lemma ParseUi63Decimal(n: nat)
    requires n < Pow10(19)
    ensures ParseUi63(Decimal(n)) == Accepted(n)
  {
    NumDigitsAtMost(n, 19);
    DecimalRoundTrip(n);
  }

  /** An accepted string is the canonical decimal of its value once its
      leading zeros are dropped, and the value is below 10^19. */
  lemma ParseUi63Bound(a: string)
    requires ParseUi63(a).Accepted?
    ensures ParseUi63(a).value < Pow10(19)
    ensures a[0] != '0' || |a| == 1 ==> Decimal(ParseUi63(a).value) == a
  {
    DigitsValueBound(a);
    Pow10Mono(|a|, 19);
    if a[0] != '0' || |a| == 1 {
      DecimalOfDigits(a);
    }
  }

  /** The largest accepted value is above the largest 63-bit value: the
      parser's 19-digit limit is the only bound it applies. */
  lemma ParseUi63Exceeds63Bits()
    ensures ParseUi63("9999999999999999999") == Accepted(9999999999999999999)
    ensures 9999999999999999999 > LLONG_MAX
  {
    var a := "9999999999999999999";
    assert a == seq(19, _ => '9');
    DigitsAllNines(19);
    Pow10Nineteen();
  }

  /** The result of jmscott_a2size_t for a platform whose SIZE_MAX is
      `sizeMax`: the a2ui63 error, or the size_t range error. */
  function ParseSize(a: string, sizeMax: nat): (r: Parsed)
    ensures r.Accepted? <==> ParseUi63(a).Accepted? && ParseUi63(a).value <= sizeMax
    ensures r.Accepted? ==> r.value == ParseUi63(a).value
  {
    match ParseUi63(a)
    case Rejected(why) => Rejected(why)
    case Accepted(n) => if n > sizeMax then Rejected("value > maximum of size_t") else Accepted(n)
  }

  /** jmscott_a2size_t: a2ui63, then the size_t range check; the value is
      stored only on success through a non-null pointer. */
  method A2SizeT(a: string, sizeMax: nat, hasTarget: bool) returns (err: Option<string>, stored: Option<nat>)
    requires IsCString(a)
    ensures err.Some? <==> ParseSize(a, sizeMax).Rejected?
    ensures err.Some? ==> err.value == ParseSize(a, sizeMax).why
    ensures stored == if hasTarget && err.None? then Some(ParseSize(a, sizeMax).value) else None
  {
    var ull;
    err, ull := A2ui63(a, true);
    if err.Some? {
      return err, None;
    }
    if ull.value > sizeMax {
      return Some("value > maximum of size_t"), None;
    }
    stored := if hasTarget then ull else None;
  }

  /** With a 64-bit size_t the range error never happens. */
  lemma ParseSize64(a: string)
    ensures ParseSize(a, ULLONG_LIMIT - 1) == ParseUi63(a)
  {
    if ParseUi63(a).Accepted? {
      ParseUi63Bound(a);
      Pow10Nineteen();
    }
  }
}
