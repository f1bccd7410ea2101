/*
 * The fixed-layout hexdump: every 16 source bytes become one 77-column
 * line (76 columns and a newline) holding the offset, the direction
 * character, the bytes in hex and the bytes as text.  jmscott_hexdump()
 * writes the lines into a caller's buffer; the hexdump program writes them
 * into a 64 KiB buffer and sends them to standard error under a header
 * that carries a positional checksum.
 *
 *      0  >  67 65 74 20 70 69 6e 67 3a 61 62 63 64 65 66 0a  get ping:abcdef.
 *     32  >  01 02 03                                         ...
 */
module Hexdump {
  import opened Common

  /** The hexchar table: the lower-case hex digits. */
  const HEXCHAR := "0123456789abcdef"

  /** Hex digit v, computed rather than looked up. */
  function HexDigit(v: int): char
    requires 0 <= v < 16
  {
    if v < 10 then ('0' as int + v) as char else ('a' as int + v - 10) as char
  }

  /** The table and the computation agree. */
  lemma HexTable(v: int)
    requires 0 <= v < 16
    ensures HEXCHAR[v] == HexDigit(v)
  {
    assert HEXCHAR == ['0', '1', '2', '3', '4', '5', '6', '7', '8', '9', 'a', 'b', 'c', 'd', 'e', 'f'];
  }

  /** Lines for n source bytes: ceiling(n / 16). */
  function Lines(n: nat): nat {
    (n + 15) / 16
  }

  /** need = ((src_size - 1) / 16 + 1) * (76 + 1) + 1: the lines and the terminating NUL. */
  function Need(n: nat): (need: int)
    requires n >= 1
    ensures need == 77 * Lines(n) + 1
  {
    ((n - 1) / 16 + 1) * (76 + 1) + 1
  }

  function Spaces(n: nat): (s: seq<char>)
    ensures |s| == n
  {
    seq(n, _ => ' ')
  }

  function Min(a: int, b: int): int { if a <= b then a else b }

  /** What sprintf("%6lu", off) prints: the decimal, right-aligned in at least six columns. */
  function Printed6(off: nat): (s: seq<char>)
    ensures |s| >= 6
  {
    var digits := Decimal(off);
    if |digits| >= 6 then digits else Spaces(6 - |digits|) + digits
  }

  /**
   * The last w columns of a number right-aligned in a printf field, its
   * last digit excluded: the digits of n, blanks where n has run out.
   */
  function RightAligned(n: nat, w: nat): (s: seq<char>)
    ensures |s| == w
  {
    if w == 0 then [] else RightAligned(n / 10, w - 1) + [if n == 0 then ' ' else DigitChar(n % 10)]
  }

  /**
   * Columns 0-5 of a line, worked out column by column: an offset below a
   * million right-aligned, a larger one by its leading six digits (the
   * later columns overwrite the rest of what sprintf printed).
   */
  function OffsetField(off: nat): (f: seq<char>)
    ensures |f| == 6
  {
    if off >= 1000000 then OffsetField(off / 10)
    else RightAligned(off / 10, 5) + [DigitChar(off % 10)]
  }

  lemma {:induction false} RightAlignedBlank(w: nat)
    ensures RightAligned(0, w) == Spaces(w)
  {
    if w > 0 {
      RightAlignedBlank(w - 1);
    }
  }

  /** For 0 < n < 10^w: the decimal of n padded on the left with blanks. */
  lemma {:induction false} RightAlignedDecimal(n: nat, w: nat)
    requires 0 < n < Pow10(w)
    ensures |Decimal(n)| <= w && RightAligned(n, w) == Spaces(w - |Decimal(n)|) + Decimal(n)
  {
    assert w > 0;
    if n < 10 {
      RightAlignedBlank(w - 1);
    } else {
      assert n / 10 < Pow10(w - 1);
      RightAlignedDecimal(n / 10, w - 1);
      assert Decimal(n) == Decimal(n / 10) + [DigitChar(n % 10)];
    }
  }

  /** The field is the first six columns of what sprintf("%6lu") prints. */
  lemma {:induction false} FieldIsPrinted(off: nat)
    ensures OffsetField(off) == Printed6(off)[..6]
  {
    if off >= 1000000 {
      FieldIsPrinted(off / 10);
      assert Pow10(5) == 100000;
      NumDigitsAtLeast(off / 10, 5);
      assert Decimal(off) == Decimal(off / 10) + [DigitChar(off % 10)];
    } else if off < 10 {
      RightAlignedBlank(5);
    } else {
      assert Pow10(5) == 100000;
      RightAlignedDecimal(off / 10, 5);
      assert Decimal(off) == Decimal(off / 10) + [DigitChar(off % 10)];
    }
  }

  /** The text column of a byte: itself when printable, else '.'. */
  function Shown(b: Byte): char {
    if IsPrint(b as char) then b as char else '.'
  }

  /**
   * Column k of a line showing the bytes `chunk` under offset field
   * `field`: the field, the direction at 8, the bytes in hex from 10 and as
   * text from 60, the newline at 76, spaces everywhere else.
   */
  function LineCell(field: seq<char>, chunk: seq<Byte>, d: char, k: int): char
    requires |field| == 6 && |chunk| <= 16
  {
    if 0 <= k < 6 then field[k]
    else if k == 8 then d
    else if k == 76 then '\n'
    else if 10 <= k < 10 + 3 * |chunk| then Hex(chunk)[k - 10]
    else if 60 <= k < 60 + |chunk| then Text(chunk)[k - 60]
    else ' '
  }

  /** A line, column by column. */
  function LineText(field: seq<char>, chunk: seq<Byte>, d: char): (t: seq<char>)
    requires |field| == 6 && |chunk| <= 16
    ensures |t| == 77
  {
    seq(77, k => LineCell(field, chunk, d, k))
  }

  /** The source bytes shown on line l. */
  function Chunk(src: seq<Byte>, l: nat): (c: seq<Byte>)
    ensures |c| <= 16
  {
    src[Min(16 * l, |src|) .. Min(16 * l + 16, |src|)]
  }

  /** Line l of the dump of src. */
  function LineOf(src: seq<Byte>, d: char, l: nat): (t: seq<char>)
    ensures |t| == 77
  {
    LineText(OffsetField(16 * l), Chunk(src, l), d)
  }

  /** The first n lines of the dump. */
  function DumpLines(src: seq<Byte>, d: char, n: nat): (t: seq<char>)
    ensures |t| == 77 * n
  {
    if n == 0 then [] else DumpLines(src, d, n - 1) + LineOf(src, d, n - 1)
  }

  /** The dump text, without its terminating NUL. */
  function DumpText(src: seq<Byte>, d: char): (t: seq<char>)
    ensures |t| == 77 * Lines(|src|)
  {
    DumpLines(src, d, Lines(|src|))
  }

  /** Column k of line l of the first n lines. */
  lemma {:induction false} DumpLinesAt(src: seq<Byte>, d: char, n: nat, l: nat, k: nat)
    requires l < n && k < 77
    ensures DumpLines(src, d, n)[77 * l + k] == LineOf(src, d, l)[k]
  {
    if l < n - 1 {
      DumpLinesAt(src, d, n - 1, l, k);
    }
  }

  /** The dump is its lines in order, line l at columns 77l to 77l + 76. */
  lemma DumpLine(src: seq<Byte>, d: char, l: nat)
    requires l < Lines(|src|)
    ensures DumpText(src, d)[77 * l .. 77 * l + 77] == LineOf(src, d, l)
  {
    forall k | 0 <= k < 77
      ensures DumpText(src, d)[77 * l + k] == LineOf(src, d, l)[k]
    {
      DumpLinesAt(src, d, Lines(|src|), l, k);
    }
  }

  /** " hh" per byte. */
  function Hex(chunk: seq<Byte>): (h: seq<char>)
    ensures |h| == 3 * |chunk|
  {
    if |chunk| == 0 then [] else [' ', HexDigit(chunk[0] / 16), HexDigit(chunk[0] % 16)] + Hex(chunk[1..])
  }

  /** The text column of each byte. */
  function Text(chunk: seq<Byte>): (t: seq<char>)
    ensures |t| == |chunk|
  {
    seq(|chunk|, i requires 0 <= i < |chunk| => Shown(chunk[i]))
  }

  /** Byte i in the hex field: a space and its two digits at 3i, 3i + 1, 3i + 2. */
  lemma {:induction false} HexTriple(chunk: seq<Byte>, i: nat)
    requires i < |chunk|
    ensures Hex(chunk)[3 * i] == ' ' && Hex(chunk)[3 * i + 1] == HexDigit(chunk[i] / 16) &&
      Hex(chunk)[3 * i + 2] == HexDigit(chunk[i] % 16)
  {
    if i > 0 {
      HexTriple(chunk[1..], i - 1);
    }
  }

  lemma {:induction false} HexNoNul(chunk: seq<Byte>)
    ensures IsCString(Hex(chunk))
  {
    if |chunk| > 0 {
      HexNoNul(chunk[1..]);
    }
  }

  /**
   * Byte i of a line: a space at column 10 + 3i, its high and low hex
   * digits at 11 + 3i and 12 + 3i, and its text form at 60 + i.
   */
  lemma ByteColumns(field: seq<char>, chunk: seq<Byte>, d: char, i: nat)
    requires |field| == 6 && i < |chunk| <= 16
    ensures var t := LineText(field, chunk, d);
      t[10 + 3 * i] == ' ' && t[11 + 3 * i] == HexDigit(chunk[i] / 16) &&
      t[12 + 3 * i] == HexDigit(chunk[i] % 16) && t[60 + i] == Shown(chunk[i])
  {
    HexTriple(chunk, i);
  }

  /**
   * A line with fewer than 16 bytes is padded with spaces in both the hex
   * columns (up to 58) and the text columns (up to 76).
   */
  lemma LinePadding(field: seq<char>, chunk: seq<Byte>, d: char)
    requires |field| == 6 && |chunk| <= 16
    ensures var t, n := LineText(field, chunk, d), |chunk|;
      t[10 + 3 * n..58] == Spaces(48 - 3 * n) && t[60 + n..76] == Spaces(16 - n)
  {
  }

  /**
   * The fixed columns: the offset field, two spaces, the direction, a
   * space; two spaces between the hex and the text; the newline.
   */
  lemma LineFixedColumns(field: seq<char>, chunk: seq<Byte>, d: char)
    requires |field| == 6 && |chunk| <= 16
    ensures var t := LineText(field, chunk, d);
      t[..6] == field && t[6..10] == [' ', ' ', d, ' '] && t[58..60] == "  " && t[76] == '\n'
  {
    var t := LineText(field, chunk, d);
    assert t[6] == ' ' && t[7] == ' ' && t[8] == d && t[9] == ' ';
    assert t[58] == ' ' && t[59] == ' ';
  }

  /** The value of a lower-case hex digit. */
  function HexValue(c: char): nat {
    if '0' <= c <= '9' then c as nat - '0' as nat
    else if 'a' <= c <= 'f' then c as nat - 'a' as nat + 10
    else 0
  }

  lemma HexDigitValue(v: nat)
    requires v < 16
    ensures HexValue(HexDigit(v)) == v
  {
  }

  /**
   * Byte i of a line can be read back: its two hex digits at columns
   * 11 + 3i and 12 + 3i give its value, column 60 + i shows it as text.
   */
  lemma LineReadsBack(field: seq<char>, chunk: seq<Byte>, d: char, i: nat)
    requires |field| == 6 && i < |chunk| <= 16
    ensures var t := LineText(field, chunk, d);
      16 * HexValue(t[11 + 3 * i]) + HexValue(t[12 + 3 * i]) == chunk[i] &&
      t[60 + i] == Shown(chunk[i])
  {
    var b := chunk[i];
    ByteColumns(field, chunk, d, i);
    HexDigitValue(b / 16);
    HexDigitValue(b % 16);
  }

  /** Every source byte k can be read back from line k / 16 of the dump. */
  lemma DumpReadsBack(src: seq<Byte>, d: char, k: nat)
    requires k < |src|
    ensures k / 16 < Lines(|src|)
    ensures var t, i := LineOf(src, d, k / 16), k % 16;
      16 * HexValue(t[11 + 3 * i]) + HexValue(t[12 + 3 * i]) == src[k] &&
      t[60 + i] == Shown(src[k])
  {
    var l, i := k / 16, k % 16;
    var chunk := Chunk(src, l);
    assert 16 * l <= k < 16 * l + 16;
    assert i < |chunk| && chunk[i] == src[k];
    LineReadsBack(OffsetField(16 * l), chunk, d, i);
  }

  lemma {:induction false} RightAlignedNoNul(n: nat, w: nat)
    ensures IsCString(RightAligned(n, w))
  {
    if w > 0 {
      RightAlignedNoNul(n / 10, w - 1);
    }
  }

  /** Digits and blanks: the offset field holds no NUL. */
  lemma {:induction false} OffsetNoNul(off: nat)
    ensures IsCString(OffsetField(off))
  {
    if off >= 1000000 {
      OffsetNoNul(off / 10);
    } else {
      RightAlignedNoNul(off / 10, 5);
    }
  }

  /** A line holds no NUL when neither its offset field nor its direction does. */
  lemma LineNoNul(field: seq<char>, chunk: seq<Byte>, d: char, k: int)
    requires |field| == 6 && |chunk| <= 16 && IsCString(field) && d != NUL
    ensures LineCell(field, chunk, d, k) != NUL
  {
    HexNoNul(chunk);
  }

  /** The dump text holds no NUL unless the direction character is one. */
  lemma DumpNoNul(src: seq<Byte>, d: char)
    requires d != NUL
    ensures IsCString(DumpText(src, d))
  {
    var t := DumpText(src, d);
    forall p | 0 <= p < |t|
      ensures t[p] != NUL
    {
      var l, k := p / 77, p % 77;
      DumpLinesAt(src, d, Lines(|src|), l, k);
      OffsetNoNul(16 * l);
      LineNoNul(OffsetField(16 * l), Chunk(src, l), d, k);
    }
  }

  /** Offsets below a million are shown in full: sprintf's text fits the field. */
  lemma OffsetInFull(off: nat)
    requires off < 1000000
    ensures OffsetField(off) == Printed6(off)
  {
    assert Pow10(6) == 1000000 by {
      assert Pow10(3) == 1000;
    }
    NumDigitsAtMost(off, 6);
    FieldIsPrinted(off);
  }

  /** An offset of seven or more digits shows only its leading six. */
  lemma OffsetLeadingDigits(off: nat)
    requires off >= 1000000
    ensures |Decimal(off)| > 6 && OffsetField(off) == Decimal(off)[..6]
  {
    assert Pow10(6) == 1000000 by {
      assert Pow10(3) == 1000;
    }
    NumDigitsAtLeast(off, 6);
    FieldIsPrinted(off);
  }

  lemma DecimalAtMostTen(n: nat)
    requires n < 0x8000_0000
    ensures |Decimal(n)| <= 10
  {
    assert Pow10(10) == 10000000000 by {
      assert Pow10(5) == 100000;
    }
    NumDigitsAtMost(n, 10);
  }

  /**
   * sprintf(l, "%6lu", off): the printed offset and its NUL at `at`; the
   * first six columns are the offset field.
   */
  method PrintOffset(tgt: array<char>, at: nat, off: nat)
    requires off < 0x8000_0000 && at + 77 <= tgt.Length
    modifies tgt
    ensures |Printed6(off)| <= 10
    ensures forall p :: at <= p < at + |Printed6(off)| ==> tgt[p] == Printed6(off)[p - at]
    ensures tgt[at + |Printed6(off)|] == NUL
    ensures forall p :: at <= p < at + 6 ==> tgt[p] == OffsetField(off)[p - at]
    ensures forall q :: 0 <= q < tgt.Length && !(at <= q <= at + |Printed6(off)|) ==> tgt[q] == old(tgt[q])
  {
    var text := Printed6(off);
    FieldIsPrinted(off);
    DecimalAtMostTen(off);
    for k := 0 to |text| + 1
      invariant forall p :: at <= p < at + k ==> tgt[p] == if p - at < |text| then text[p - at] else NUL
      invariant forall q :: 0 <= q < tgt.Length && !(at <= q < at + k) ==> tgt[q] == old(tgt[q])
    {
      tgt[at + k] := if k < |text| then text[k] else NUL;
    }
  }

  /**
   * The byte loop of a line: up to 16 bytes from src[s..], each as a
   * space and two hex digits from column 10 and as text from column 60.
   */
  method WriteBytes(tgt: array<char>, at: nat, src: seq<Byte>, s: nat) returns (next: nat)
    requires s < |src| && at + 77 <= tgt.Length
    modifies tgt
    ensures next == Min(s + 16, |src|)
    ensures forall p :: at + 10 <= p < at + 10 + 3 * (next - s) ==> tgt[p] == Hex(src[s..next])[p - at - 10]
    ensures forall p :: at + 60 <= p < at + 60 + (next - s) ==> tgt[p] == Text(src[s..next])[p - at - 60]
    ensures forall q :: (0 <= q < tgt.Length && !(at + 10 <= q < at + 10 + 3 * (next - s)) &&
                         !(at + 60 <= q < at + 60 + (next - s))) ==> tgt[q] == old(tgt[q])
  {
    ghost var chunk := src[s..Min(s + 16, |src|)];
    var i := 0;
    next := s;
    while next < |src| && i < 16
      invariant 0 <= i <= |chunk| && next == s + i
      invariant forall p :: at + 10 <= p < at + 10 + 3 * i ==> tgt[p] == Hex(chunk)[p - at - 10]
      invariant forall p :: at + 60 <= p < at + 60 + i ==> tgt[p] == Text(chunk)[p - at - 60]
      invariant forall q :: (0 <= q < tgt.Length && !(at + 10 <= q < at + 10 + 3 * i) &&
                             !(at + 60 <= q < at + 60 + i)) ==> tgt[q] == old(tgt[q])
    {
      var b := src[next];
      HexTriple(chunk, i);
      PutByte(tgt, at + 10 + i * 3, at + 60 + i, b);
      next := next + 1;
      i := i + 1;
    }
  }

  /** The four columns of one byte: a space, two hex digits, and its text. */
  method PutByte(tgt: array<char>, h: nat, x: nat, b: Byte)
    requires h + 2 < x < tgt.Length
    modifies tgt
    ensures tgt[h] == ' ' && tgt[h + 1] == HexDigit(b / 16) && tgt[h + 2] == HexDigit(b % 16)
    ensures tgt[x] == Shown(b)
    ensures forall q :: 0 <= q < tgt.Length && q != h && q != h + 1 && q != h + 2 && q != x ==> tgt[q] == old(tgt[q])
  {
    HexTable(b / 16);
    HexTable(b % 16);
    tgt[h] := ' ';
    tgt[h + 1] := HEXCHAR[b / 16];
    tgt[h + 2] := HEXCHAR[b % 16];
    tgt[x] := Shown(b);
  }

  /** The padding loop: the columns of bytes n to 15 become spaces. */
  method PadBytes(tgt: array<char>, at: nat, n: nat)
    requires n <= 16 && at + 77 <= tgt.Length
    modifies tgt
    ensures forall p :: at + 10 + 3 * n <= p < at + 58 ==> tgt[p] == ' '
    ensures forall p :: at + 60 + n <= p < at + 76 ==> tgt[p] == ' '
    ensures forall q :: (0 <= q < tgt.Length && !(at + 10 + 3 * n <= q < at + 58) &&
                         !(at + 60 + n <= q < at + 76)) ==> tgt[q] == old(tgt[q])
  {
    var i := n;
    while i < 16
      invariant n <= i <= 16
      invariant forall p :: at + 10 + 3 * n <= p < at + 10 + 3 * i ==> tgt[p] == ' '
      invariant forall p :: at + 60 + n <= p < at + 60 + i ==> tgt[p] == ' '
      invariant forall q :: (0 <= q < tgt.Length && !(at + 10 + 3 * n <= q < at + 10 + 3 * i) &&
                             !(at + 60 + n <= q < at + 60 + i)) ==> tgt[q] == old(tgt[q])
    {
      tgt[at + 10 + i * 3], tgt[at + 10 + i * 3 + 1], tgt[at + 10 + i * 3 + 2] := ' ', ' ', ' ';
      tgt[at + 60 + i] := ' ';
      i := i + 1;
    }
  }

  /**
   * One pass of the outer loop: the offset, the direction columns, the
   * bytes, the padding, the two separating spaces and the newline, all
   * within the 77 columns at `at`.
   */
  method WriteLine(tgt: array<char>, at: nat, src: seq<Byte>, s: nat, d: char, ghost l: nat) returns (next: nat)
    requires s == 16 * l && s < |src| < 0x8000_0000 && at + 77 <= tgt.Length
    modifies tgt
    ensures next == Min(s + 16, |src|)
    ensures forall p :: at <= p < at + 77 ==> tgt[p] == LineOf(src, d, l)[p - at]
    ensures forall q :: 0 <= q < tgt.Length && !(at <= q < at + 77) ==> tgt[q] == old(tgt[q])
  {
    PrintOffset(tgt, at, s);
    tgt[at + 6], tgt[at + 7] := ' ', ' ';
    tgt[at + 8] := d;
    tgt[at + 9] := ' ';
    next := WriteBytes(tgt, at, src, s);
    PadBytes(tgt, at, next - s);
    tgt[at + 58], tgt[at + 59] := ' ', ' ';
    tgt[at + 76] := '\n';
    assert Chunk(src, l) == src[s..next];
    forall p | at <= p < at + 77
      ensures tgt[p] == LineOf(src, d, l)[p - at]
    {
      assert LineOf(src, d, l)[p - at] == LineCell(OffsetField(s), src[s..next], d, p - at);
    }
  }

  /** A line that starts inside the source ends inside the dump. */
  lemma LineFits(n: nat, l: nat)
    requires 16 * l < n
    ensures 77 * l + 77 <= 77 * Lines(n)
  {
    assert l + 1 <= Lines(n);
  }

  /** The outer loop: line after line until the source is used up. */
  method FillLines(src: seq<Byte>, d: char, tgt: array<char>)
    requires |src| < 0x8000_0000 && 77 * Lines(|src|) <= tgt.Length
    modifies tgt
    ensures forall p :: 0 <= p < 77 * Lines(|src|) ==> tgt[p] == DumpText(src, d)[p]
    ensures forall q :: 77 * Lines(|src|) <= q < tgt.Length ==> tgt[q] == old(tgt[q])
  {
    var s, t := 0, 0;
    ghost var l := 0;
    while s < |src|
      invariant t == 77 * l && 16 * l < |src| + 16
      invariant s < |src| ==> s == 16 * l
      invariant s == |src| ==> |src| <= 16 * l
      invariant s <= |src|
      invariant forall p :: 0 <= p < t ==> tgt[p] == DumpLines(src, d, l)[p]
      invariant forall q :: t <= q < tgt.Length ==> tgt[q] == old(tgt[q])
    {
      ghost var prev := DumpLines(src, d, l);
      LineFits(|src|, l);
      s := WriteLine(tgt, t, src, s, d, l);
      assert DumpLines(src, d, l + 1) == prev + LineOf(src, d, l);
      t, l := t + 77, l + 1;
    }
    assert l == Lines(|src|);
  }

  /**
   * jmscott_hexdump(src, src_size, direction, tgt, tgt_size): an empty
   * source leaves the empty string; otherwise the dump and its NUL fill
   * tgt[..need].  Nothing past need is written.
   */
  method Hexdump(src: seq<Byte>, d: char, tgt: array<char>, tgtSize: int)
    requires |src| < 0x8000_0000 && tgtSize <= tgt.Length
    requires |src| == 0 ==> tgt.Length >= 1
    requires |src| > 0 ==> Need(|src|) <= tgtSize
    modifies tgt
    ensures |src| == 0 ==> tgt[..] == old(tgt[..])[0 := NUL]
    ensures |src| > 0 ==>
      tgt[..Need(|src|)] == DumpText(src, d) + [NUL] &&
      tgt[Need(|src|)..] == old(tgt[Need(|src|)..])
  {
    if |src| == 0 {
      tgt[0] := NUL;
      return;
    }
    FillLines(src, d, tgt);
    var need := ((|src| - 1) / 16 + 1) * (76 + 1) + 1;
    tgt[need - 1] := NUL;
    assert tgt[..need] == DumpText(src, d) + [NUL];
  }

  // The hexdump program

  const TBUF_SIZE := 64 * 1024
  const ZERO_BYTES := "hexdump: 0 bytes in source buffer\n"

  /** The checksum before truncation: each byte weighted by its index. */
  function WeightedSum(buf: seq<Byte>): nat {
    if |buf| == 0 then 0 else WeightedSum(buf[..|buf| - 1]) + (|buf| - 1) * buf[|buf| - 1]
  }

  /** _cksum(buf, size): the sum kept in an unsigned short. */
  method Cksum(buf: seq<Byte>) returns (sum: int)
    ensures sum == WeightedSum(buf) % 65536
  {
    sum := 0;
    var i := 0;
    while i < |buf|
      invariant 0 <= i <= |buf|
      invariant sum == WeightedSum(buf[..i]) % 65536
    {
      assert buf[..i + 1][..i] == buf[..i];
      sum := (sum + i * buf[i]) % 65536;
      i := i + 1;
    }
    assert buf[..i] == buf;
  }

  /** The byte at index 0 has weight 0: it never changes the checksum. */
  lemma {:induction false} CksumIgnoresFirst(buf: seq<Byte>, b: Byte)
    requires buf != []
    ensures WeightedSum(buf[0 := b]) == WeightedSum(buf)
  {
    if |buf| > 1 {
      var init := buf[..|buf| - 1];
      CksumIgnoresFirst(init, b);
      assert buf[0 := b][..|buf| - 1] == init[0 := b];
    }
  }

  /**
   * What the hexdump program does with a source: the text it writes on
   * standard error, or, when its `need` check lets a dump through that does
   * not fit, writes past the end of its 64 KiB buffer (undefined behaviour).
   */
  datatype Dumped = Wrote(text: seq<char>) | Overrun(need: int)

  /** need as the source holds it: the exact count kept in a 32-bit int. */
  function NeedAsInt(n: nat): int
    requires n >= 1
  {
    Int32(Need(n))
  }

  /** The refusal printed when the buffer is too small, with need as %d prints it. */
  function Refusal(need: nat): seq<char> {
    "hexdump: source bigger than target: " + Decimal(need) + " > " + Decimal(TBUF_SIZE) + "\n"
  }

  /** The header with the size and the checksum, the dump up to its first NUL and a newline. */
  function DumpOutput(src: seq<Byte>, d: char): seq<char> {
    "\ndump of " + Decimal(|src|) + " bytes, cksum " + Decimal(WeightedSum(src) % 65536) + "\n" +
    UpToNul(DumpText(src, d) + [NUL]) + "\n"
  }

  /** hexdump() as written: need wraps to a 32-bit int before it is tested. */
  function ProgramAsWritten(src: seq<Byte>, d: char): Dumped {
    if |src| == 0 then Wrote(ZERO_BYTES)
    else if NeedAsInt(|src|) > TBUF_SIZE then Wrote(Refusal(NeedAsInt(|src|)))
    else if Need(|src|) > TBUF_SIZE then Overrun(NeedAsInt(|src|))
    else Wrote(DumpOutput(src, d))
  }

  /** hexdump() with need computed exactly (in a 64-bit long): every dump that does not fit is refused. */
  function ProgramOutput(src: seq<Byte>, d: char): seq<char> {
    if |src| == 0 then ZERO_BYTES
    else if Need(|src|) > TBUF_SIZE then Refusal(Need(|src|))
    else DumpOutput(src, d)
  }

  /**
   * hexdump(src, src_size, direction): the checks, the dump into the 64
   * KiB buffer, the header with the checksum, the dump up to its first NUL,
   * and a final newline.
   */
  method HexdumpProgram(src: seq<Byte>, d: char) returns (out: Dumped)
    requires |src| < 0x8000_0000
    ensures out == ProgramAsWritten(src, d)
  {
    if |src| == 0 {
      return Wrote(ZERO_BYTES);
    }
    var need := Int32(((|src| - 1) / 16 + 1) * (76 + 1) + 1);
    if need > TBUF_SIZE {
      return Wrote(Refusal(need));
    }
    if Need(|src|) > TBUF_SIZE {
      // need wrapped below the buffer size: the line loop runs past tbuf
      return Overrun(need);
    }
    var tbuf := new char[TBUF_SIZE];
    Hexdump(src, d, tbuf, TBUF_SIZE);
    var ck := Cksum(src);
    var text := "\ndump of " + Decimal(|src|) + " bytes, cksum " + Decimal(ck) + "\n";
    text := text + UpToNul(tbuf[..need]) + "\n";
    return Wrote(text);
  }

  /** Up to 446,230,368 bytes need fits the int, and the program is the exact one. */
  lemma AsWrittenAgrees(src: seq<Byte>, d: char)
    requires |src| <= 446_230_368
    ensures 0 < |src| ==> Need(|src|) <= 0x7fff_ffff
    ensures ProgramAsWritten(src, d) == Wrote(ProgramOutput(src, d))
  {
    if 0 < |src| {
      assert Lines(|src|) <= 27_889_398;
      }
  }

  /**
   * At 446,230,369 bytes need is 2,147,483,724, which the int holds as a
   * negative number: the check passes and the dump overruns the buffer,
   * where the exact program refuses.
   */
  lemma NeedOverflowOverruns(src: seq<Byte>, d: char)
    requires |src| == 446_230_369
    ensures Need(|src|) == 2_147_483_724
    ensures NeedAsInt(|src|) == -2_147_483_572
    ensures ProgramAsWritten(src, d) == Overrun(-2_147_483_572)
    ensures ProgramOutput(src, d) == Refusal(2_147_483_724)
  {
    assert Lines(|src|) == 27_889_399;
  }

  /**
   * With need exact, the program refuses exactly the sources whose dump
   * does not fit the buffer, and a 64-bit long holds need for every int
   * source size.
   */
  lemma ProgramRefusesOversize(src: seq<Byte>, d: char)
    requires 0 < |src| < 0x8000_0000
    ensures Need(|src|) < 0x8000_0000_0000_0000
    ensures ProgramOutput(src, d) == Refusal(Need(|src|)) <==> Need(|src|) > TBUF_SIZE
  {
    if Need(|src|) <= TBUF_SIZE {
      assert ProgramOutput(src, d)[0] == '\n';
      assert Refusal(Need(|src|))[0] == 'h';
    }
  }

  /** With a direction other than NUL the program shows the whole dump. */
  lemma ProgramShowsDump(src: seq<Byte>, d: char)
    requires 0 < |src| && Need(|src|) <= TBUF_SIZE && d != NUL
    ensures ProgramAsWritten(src, d) == Wrote(
      "\ndump of " + Decimal(|src|) + " bytes, cksum " + Decimal(WeightedSum(src) % 65536) + "\n" +
      DumpText(src, d) + "\n")
  {
    DumpNoNul(src, d);
    UpToNulOfCString(DumpText(src, d));
  }
}
