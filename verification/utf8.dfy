/*
 * is-utf8wf: the byte-at-a-time UTF-8 recogniser of is-utf8wf.c.  The
 * scanner's state and partial code point live outside the read loop, so
 * the bytes of successive reads form one stream.  The accepted language
 * is the syntax of section 4 of RFC 3629 except that lead bytes F5-F7,
 * and F4 followed by 90-BF, are accepted: the code never applies the
 * U+10FFFF cap of section 3.
 */
module Utf8 {
  import opened Common

  const EXIT_OK := 0
  const EXIT_EMPTY := 1
  const EXIT_BAD_U8 := 2
  const EXIT_FAULT := 3

  /** STATE_0BYTE1 .. STATE_4BYTE4: which byte of a sequence comes next. */
  datatype State = Byte1 | Two2 | Three2 | Three3 | Four2 | Four3 | Four4

  /** The scanner's two variables. */
  datatype Scan = Scan(state: State, codePoint: nat)

  const Init := Scan(Byte1, 0)

  /** (c & 0xC0) == 0x80: a continuation byte 10xxxxxx. */
  predicate Cont(c: Byte) { 0x80 <= c < 0xC0 }

  /** One turn of the switch in main: the next scanner, or None where the
      code exits with EXIT_BAD_U8.  The masks of the code select byte
      ranges (see MaskRanges), and each `|=` adds bits that are still
      zero in the code point, so it is an addition. */
  function Step(sc: Scan, c: Byte): Option<Scan> {
    match sc.state
    case Byte1 =>
      if c < 0x80 then Some(sc)
      else if 0xC0 <= c < 0xE0 then Some(Scan(Two2, (c - 0xC0) * 64))
      else if 0xE0 <= c < 0xF0 then Some(Scan(Three2, (c - 0xE0) * 4096))
      else if 0xF0 <= c < 0xF8 then Some(Scan(Four2, (c - 0xF0) * 262144))
      else None
    case Two2 =>
      if !Cont(c) then None
      else
        var cp := sc.codePoint + (c - 0x80);
        if cp < 128 then None else Some(Scan(Byte1, cp))
    case Three2 =>
      if !Cont(c) then None else Some(Scan(Three3, sc.codePoint + (c - 0x80) * 64))
    case Three3 =>
      if !Cont(c) then None
      else
        var cp := sc.codePoint + (c - 0x80);
        if cp < 2048 || (0xD800 <= cp && cp <= 0xDFFF) then None else Some(Scan(Byte1, cp))
    case Four2 =>
      if !Cont(c) then None else Some(Scan(Four3, sc.codePoint + (c - 0x80) * 4096))
    case Four3 =>
      if !Cont(c) then None else Some(Scan(Four4, sc.codePoint + (c - 0x80) * 64))
    case Four4 =>
      if !Cont(c) then None
      else
        var cp := sc.codePoint + (c - 0x80);
        if cp < 65536 then None else Some(Scan(Byte1, cp))
  }

  /** The scanner after the bytes s, or None once a byte was refused. */
  function RunFrom(sc: Scan, s: seq<Byte>): Option<Scan>
    decreases |s|
  {
    if s == [] then Some(sc)
    else
      match Step(sc, s[0])
      case None => None
      case Some(next) => RunFrom(next, s[1..])
  }

  /** The bytes of successive reads, in order. */
  function Concat(chunks: seq<seq<Byte>>): seq<Byte>
    decreases |chunks|
  {
    if chunks == [] then [] else chunks[0] + Concat(chunks[1..])
  }

  /** The exit status of is-utf8wf for `args` extra arguments and the
      byte stream `input`, whose last read failed when readFails. */
  function Status(args: nat, input: seq<Byte>, readFails: bool): int {
    if args != 0 then EXIT_FAULT
    else
      match RunFrom(Init, input)
      case None => EXIT_BAD_U8
      case Some(sc) =>
        if readFails then EXIT_FAULT
        else if input == [] then EXIT_EMPTY
        else if sc.state == Byte1 then EXIT_OK
        else EXIT_BAD_U8
  }

  /** main: the reads are the non-empty chunks, then an end of file or,
      when readFails, a failed read.  Every byte goes through the switch
      as soon as it is read. */
  method IsUtf8wf(args: nat, chunks: seq<seq<Byte>>, readFails: bool) returns (status: int)
    requires forall k :: 0 <= k < |chunks| ==> chunks[k] != []
    ensures status == Status(args, Concat(chunks), readFails)
  {
    if args != 0 {
      return EXIT_FAULT;
    }
    var sc := Init;
    var seen := false;
    var k := 0;
    while k < |chunks|
      invariant k <= |chunks| && (seen <==> k > 0)
      invariant RunFrom(Init, Concat(chunks[..k])) == Some(sc)
    {
      var buf := chunks[k];
      seen := true;
      ghost var done := Concat(chunks[..k]);
      var p := 0;
      assert done + buf[..p] == done;
      while p < |buf|
        invariant p <= |buf|
        invariant RunFrom(Init, done + buf[..p]) == Some(sc)
      {
        var c := buf[p];
        RunSnoc(Init, done + buf[..p], c);
        assert done + buf[..p + 1] == (done + buf[..p]) + [c];
        p := p + 1;
        var next := Step(sc, c);
        if next.None? {
          ChunksSplit(chunks, k, p);
          RunNoneStays(Init, done + buf[..p], buf[p..] + Concat(chunks[k + 1..]));
          return EXIT_BAD_U8;
        }
        sc := next.value;
      }
      assert buf[..p] == buf;
      ConcatSnoc(chunks, k);
      k := k + 1;
    }
    assert chunks[..k] == chunks;
    if readFails {
      return EXIT_FAULT;
    }
    if !seen {
      return EXIT_EMPTY;
    }
    ConcatNonEmpty(chunks);
    if sc.state == Byte1 {
      return EXIT_OK;
    }
    return EXIT_BAD_U8;
  }

  lemma {:induction false} RunSnoc(sc: Scan, s: seq<Byte>, c: Byte)
    ensures RunFrom(sc, s + [c]) ==
      match RunFrom(sc, s) case None => None case Some(x) => Step(x, c)
    decreases |s|
  {
    if s == [] {
      assert [c][1..] == [];
    } else {
      assert (s + [c])[0] == s[0] && (s + [c])[1..] == s[1..] + [c];
      match Step(sc, s[0])
      case None =>
      case Some(next) => RunSnoc(next, s[1..], c);
    }
  }

  /** A refused byte ends the scan whatever follows it. */
  lemma {:induction false} RunNoneStays(sc: Scan, s: seq<Byte>, t: seq<Byte>)
    requires RunFrom(sc, s) == None
    ensures RunFrom(sc, s + t) == None
    decreases |s|
  {
    assert s != [];
    assert (s + t)[0] == s[0] && (s + t)[1..] == s[1..] + t;
    match Step(sc, s[0])
    case None =>
    case Some(next) => RunNoneStays(next, s[1..], t);
  }

  lemma {:induction false} ConcatAppend(a: seq<seq<Byte>>, b: seq<seq<Byte>>)
    ensures Concat(a + b) == Concat(a) + Concat(b)
    decreases |a|
  {
    if a == [] {
      assert a + b == b;
    } else {
      assert (a + b)[0] == a[0] && (a + b)[1..] == a[1..] + b;
      ConcatAppend(a[1..], b);
    }
  }

  lemma ConcatSnoc(chunks: seq<seq<Byte>>, k: nat)
    requires k < |chunks|
    ensures Concat(chunks[..k + 1]) == Concat(chunks[..k]) + chunks[k]
  {
    assert chunks[..k + 1] == chunks[..k] + [chunks[k]];
    ConcatAppend(chunks[..k], [chunks[k]]);
    assert Concat([chunks[k]]) == chunks[k] + Concat([]);
  }

  lemma ChunksSplit(chunks: seq<seq<Byte>>, k: nat, p: nat)
    requires k < |chunks| && p <= |chunks[k]|
    ensures Concat(chunks) ==
      (Concat(chunks[..k]) + chunks[k][..p]) + (chunks[k][p..] + Concat(chunks[k + 1..]))
  {
    assert chunks == chunks[..k] + chunks[k..];
    ConcatAppend(chunks[..k], chunks[k..]);
    assert chunks[k..][0] == chunks[k] && chunks[k..][1..] == chunks[k + 1..];
    assert chunks[k] == chunks[k][..p] + chunks[k][p..];
  }

  lemma {:induction false} ConcatNonEmpty(chunks: seq<seq<Byte>>)
    requires chunks != [] && chunks[0] != []
    ensures Concat(chunks) != []
  {
  }

  // ----- the accepted language -----

  /** UTF8-tail of RFC 3629 section 4. */
  predicate Tail(c: Byte) { 0x80 <= c <= 0xBF }

  /** One character as the scanner accepts it: the UTF8-char rule of RFC
      3629 section 4, except that a four-byte lead may be F1-F7 followed
      by any tail, where the RFC has F1-F3, and F4 followed by 80-8F. */
  predicate Utf8Char(s: seq<Byte>) {
    (|s| == 1 && s[0] <= 0x7F) ||
    (|s| == 2 && 0xC2 <= s[0] <= 0xDF && Tail(s[1])) ||
    (|s| == 3 && Tail(s[2]) &&
      ((s[0] == 0xE0 && 0xA0 <= s[1] <= 0xBF) || (0xE1 <= s[0] <= 0xEC && Tail(s[1])) ||
       (s[0] == 0xED && 0x80 <= s[1] <= 0x9F) || (0xEE <= s[0] <= 0xEF && Tail(s[1])))) ||
    (|s| == 4 && Tail(s[2]) && Tail(s[3]) &&
      ((s[0] == 0xF0 && 0x90 <= s[1] <= 0xBF) || (0xF1 <= s[0] <= 0xF7 && Tail(s[1]))))
  }

  /** A sequence of accepted characters (UTF8-octets). */
  predicate Utf8Text(s: seq<Byte>)
    decreases |s|
  {
    s == [] ||
    (exists n :: 1 <= n <= 4 && n <= |s| && Utf8Char(s[..n]) && Utf8Text(s[n..]))
  }

  /** The scanner, started between characters, ends between characters
      exactly on the accepted texts; it never ends between characters
      on any other input. */
  lemma {:induction false} ScanAccepts(sc: Scan, s: seq<Byte>)
    requires sc.state == Byte1
    ensures (RunFrom(sc, s).Some? && RunFrom(sc, s).value.state == Byte1) <==> Utf8Text(s)
    decreases |s|
  {
    if s != [] {
      var n := CharLength(sc, s);
      if n == 0 {
        NoCharFits(s);
      } else {
        var next := RunFrom(sc, s[..n]).value;
        RunAppend(sc, s[..n], s[n..]);
        assert s[..n] + s[n..] == s;
        ScanAccepts(next, s[n..]);
        OneCharOnly(s, n);
      }
    }
  }

  /** How far the scanner gets through the first character of s: the
      length of that character when it is accepted, or 0 when the scanner
      refuses a byte of it or s ends inside it. */
  lemma CharLength(sc: Scan, s: seq<Byte>) returns (n: nat)
    requires sc.state == Byte1 && s != []
    ensures n <= 4 && n <= |s|
    ensures n > 0 ==>
      Utf8Char(s[..n]) && RunFrom(sc, s[..n]).Some? && RunFrom(sc, s[..n]).value.state == Byte1
    ensures n == 0 ==> forall k :: 1 <= k <= 4 && k <= |s| ==> !Utf8Char(s[..k])
    ensures n == 0 ==> !(RunFrom(sc, s).Some? && RunFrom(sc, s).value.state == Byte1)
  {
    assert s[..0] == [];
    Extend(sc, s, 0);
    var c0 := s[0];
    if c0 < 0x80 {
      n := 1;
    } else if c0 < 0xC0 || 0xF8 <= c0 {
      Refused(sc, s, 1);
      n := 0;
    } else if c0 < 0xE0 {
      n := Lead2(sc, s);
    } else if c0 < 0xF0 {
      n := Lead3(sc, s);
    } else {
      n := Lead4(sc, s);
    }
  }

  lemma Lead2(sc: Scan, s: seq<Byte>) returns (n: nat)
    requires sc.state == Byte1 && s != [] && 0xC0 <= s[0] < 0xE0
    requires RunFrom(sc, s[..1]) == Step(sc, s[0])
    ensures n <= 4 && n <= |s|
    ensures n > 0 ==>
      Utf8Char(s[..n]) && RunFrom(sc, s[..n]).Some? && RunFrom(sc, s[..n]).value.state == Byte1
    ensures n == 0 ==> forall k :: 1 <= k <= 4 && k <= |s| ==> !Utf8Char(s[..k])
    ensures n == 0 ==> !(RunFrom(sc, s).Some? && RunFrom(sc, s).value.state == Byte1)
  {
    n := 0;
    if |s| == 1 {
      assert s[..1] == s;
    } else {
      Extend(sc, s, 1);
      if Cont(s[1]) && 0xC2 <= s[0] {
        n := 2;
      } else {
        Refused(sc, s, 2);
      }
    }
  }

  lemma Lead3(sc: Scan, s: seq<Byte>) returns (n: nat)
    requires sc.state == Byte1 && s != [] && 0xE0 <= s[0] < 0xF0
    requires RunFrom(sc, s[..1]) == Step(sc, s[0])
    ensures n <= 4 && n <= |s|
    ensures n > 0 ==>
      Utf8Char(s[..n]) && RunFrom(sc, s[..n]).Some? && RunFrom(sc, s[..n]).value.state == Byte1
    ensures n == 0 ==> forall k :: 1 <= k <= 4 && k <= |s| ==> !Utf8Char(s[..k])
    ensures n == 0 ==> !(RunFrom(sc, s).Some? && RunFrom(sc, s).value.state == Byte1)
  {
    n := 0;
    if |s| == 1 {
      assert s[..1] == s;
    } else {
      Extend(sc, s, 1);
      if !Cont(s[1]) {
        Refused(sc, s, 2);
      } else if |s| == 2 {
        assert s[..2] == s;
      } else {
        Extend(sc, s, 2);
        if Cont(s[2]) && Utf8Char(s[..3]) {
          n := 3;
        } else {
          Refused(sc, s, 3);
        }
      }
    }
  }

  lemma Lead4(sc: Scan, s: seq<Byte>) returns (n: nat)
    requires sc.state == Byte1 && s != [] && 0xF0 <= s[0] < 0xF8
    requires RunFrom(sc, s[..1]) == Step(sc, s[0])
    ensures n <= 4 && n <= |s|
    ensures n > 0 ==>
      Utf8Char(s[..n]) && RunFrom(sc, s[..n]).Some? && RunFrom(sc, s[..n]).value.state == Byte1
    ensures n == 0 ==> forall k :: 1 <= k <= 4 && k <= |s| ==> !Utf8Char(s[..k])
    ensures n == 0 ==> !(RunFrom(sc, s).Some? && RunFrom(sc, s).value.state == Byte1)
  {
    n := 0;
    if |s| == 1 {
      assert s[..1] == s;
    } else {
      Extend(sc, s, 1);
      if !Cont(s[1]) {
        Refused(sc, s, 2);
      } else if |s| == 2 {
        assert s[..2] == s;
      } else {
        Extend(sc, s, 2);
        if !Cont(s[2]) {
          Refused(sc, s, 3);
        } else if |s| == 3 {
          assert s[..3] == s;
        } else {
          Extend(sc, s, 3);
          if Cont(s[3]) && Utf8Char(s[..4]) {
            n := 4;
          } else {
            Refused(sc, s, 4);
          }
        }
      }
    }
  }

  lemma Extend(sc: Scan, s: seq<Byte>, j: nat)
    requires j < |s|
    ensures RunFrom(sc, s[..j + 1]) ==
      match RunFrom(sc, s[..j]) case None => None case Some(x) => Step(x, s[j])
  {
    assert s[..j + 1] == s[..j] + [s[j]];
    RunSnoc(sc, s[..j], s[j]);
  }

  lemma Refused(sc: Scan, s: seq<Byte>, j: nat)
    requires j <= |s| && RunFrom(sc, s[..j]) == None
    ensures RunFrom(sc, s) == None
  {
    assert s[..j] + s[j..] == s;
    RunNoneStays(sc, s[..j], s[j..]);
  }

  lemma NoCharFits(s: seq<Byte>)
    requires s != [] && forall k :: 1 <= k <= 4 && k <= |s| ==> !Utf8Char(s[..k])
    ensures !Utf8Text(s)
  {
  }

  /** The lead byte fixes a character's length. */
  lemma OneCharOnly(s: seq<Byte>, n: nat)
    requires 1 <= n <= 4 && n <= |s| && Utf8Char(s[..n])
    ensures Utf8Text(s) <==> Utf8Text(s[n..])
  {
    forall k | 1 <= k <= 4 && k <= |s| && Utf8Char(s[..k]) ensures k == n {
    }
  }

  lemma {:induction false} RunAppend(sc: Scan, s: seq<Byte>, t: seq<Byte>)
    ensures RunFrom(sc, s + t) ==
      match RunFrom(sc, s) case None => None case Some(x) => RunFrom(x, t)
    decreases |s|
  {
    if s == [] {
      assert s + t == t;
    } else {
      assert (s + t)[0] == s[0] && (s + t)[1..] == s[1..] + t;
      match Step(sc, s[0])
      case None =>
      case Some(next) => RunAppend(next, s[1..], t);
    }
  }

  /** The exit status when there is one argument-free run that reads to
      end of file: 1 for an empty stream, 0 for a non-empty accepted
      text, 2 for anything else. */
  lemma ExitStatus(input: seq<Byte>)
    ensures Status(0, input, false) == EXIT_EMPTY <==> input == []
    ensures Status(0, input, false) == EXIT_OK <==> input != [] && Utf8Text(input)
    ensures Status(0, input, false) == EXIT_BAD_U8 <==> input != [] && !Utf8Text(input)
  {
    ScanAccepts(Init, input);
  }

  /** The U+10FFFF cap of RFC 3629 section 3 is not applied: F4 90 80 80
      decodes to 0x110000 and F7 BF BF BF to 0x1FFFFF, and both pass. */
  lemma BeyondUnicodeAccepted()
    ensures RunFrom(Init, [0xF4, 0x90, 0x80, 0x80]) == Some(Scan(Byte1, 0x110000))
    ensures RunFrom(Init, [0xF7, 0xBF, 0xBF, 0xBF]) == Some(Scan(Byte1, 0x1FFFFF))
    ensures Status(0, [0xF4, 0x90, 0x80, 0x80], false) == EXIT_OK
  {
    var s := [0xF4, 0x90, 0x80, 0x80];
    assert s[1..] == [0x90, 0x80, 0x80] && s[2..] == [0x80, 0x80] && s[3..] == [0x80];
    var t := [0xF7, 0xBF, 0xBF, 0xBF];
    assert t[1..] == [0xBF, 0xBF, 0xBF] && t[2..] == [0xBF, 0xBF] && t[3..] == [0xBF];
  }

  /** The byte tests of the code are range tests: a mask that keeps the
      top k bits equals a pattern exactly on one range of bytes, and the
      complementary mask keeps the offset into that range. */
  lemma MaskRanges(c: bv8)
    ensures (c & 0x80 == 0) <==> c < 0x80
    ensures (c & 0xC0 == 0x80) <==> 0x80 <= c < 0xC0
    ensures (c & 0xE0 == 0xC0) <==> 0xC0 <= c < 0xE0
    ensures (c & 0xF0 == 0xE0) <==> 0xE0 <= c < 0xF0
    ensures (c & 0xF8 == 0xF0) <==> 0xF0 <= c < 0xF8
    ensures 0x80 <= c < 0xC0 ==> c & !0xC0 == c - 0x80
    ensures 0xC0 <= c < 0xE0 ==> c & !0xE0 == c - 0xC0
    ensures 0xE0 <= c < 0xF0 ==> c & !0xF0 == c - 0xE0
    ensures 0xF0 <= c < 0xF8 ==> c & !0xF8 == c - 0xF0
  {
  }

  /** `|=` of bits the code point does not yet have is an addition. */
  lemma OrIsPlus(a: bv32, b: bv32)
    requires a & b == 0
    ensures a | b == a + b
  {
  }
}
