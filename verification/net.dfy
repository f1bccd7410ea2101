/*
 * jmscott_net_32addr2text: an internet address as "b3.b2.b1.b0", each
 * component the decimal value of one byte of the low 32 bits, written
 * backwards into one of four static 20-byte buffers taken in turn.
 *
 * The four buffers are one array of 4 * 20 chars, buffer k being the
 * columns 20k to 20k+19; the returned pointer is the pair (buffer, index
 * of its first char in the array).
 */
module Net {
  import opened Common

  const SHOW_IP_BUFS: nat := 4
  const SHOW_IP_BUFSIZE: nat := 20

  /** addr shifted right by 8 bits, k times. */
  function Shift(addr: nat, k: nat): nat {
    if k == 0 then addr else Shift(addr, k - 1) / 256
  }

  /** (addr >> 8k) & 0xff */
  function Octet(addr: nat, k: nat): nat {
    Shift(addr, k) % 256
  }

  /** The text the function returns. */
  function DottedQuad(addr: nat): (s: seq<char>) {
    Decimal(Octet(addr, 3)) + "." + Decimal(Octet(addr, 2)) + "." +
    Decimal(Octet(addr, 1)) + "." + Decimal(Octet(addr, 0))
  }

  /**
   * What the do-while loop leaves after k passes, ending just before the
   * NUL: for each of the k low bytes, highest first, a dot and its digits.
   */
  function Low(addr: nat, k: nat): (s: seq<char>) {
    if k == 0 then [] else "." + Decimal(Octet(addr, k - 1)) + Low(addr, k - 1)
  }

  /** The slot after c in the rotation. */
  function NextSlot(c: int): int {
    if c + 1 >= SHOW_IP_BUFS then 0 else c + 1
  }

  // Properties of the text

  /** A byte has one to three digits, and no leading zero. */
  lemma OctetText(addr: nat, k: nat)
    ensures 1 <= |Decimal(Octet(addr, k))| <= 3
    ensures Decimal(Octet(addr, k))[0] != '0' || Octet(addr, k) == 0
    ensures DigitsValue(Decimal(Octet(addr, k))) == Octet(addr, k)
  {
    NumDigitsAtMost(Octet(addr, k), 3);
    DecimalRoundTrip(Octet(addr, k));
  }

  lemma {:induction false} LowLength(addr: nat, k: nat)
    ensures 2 * k <= |Low(addr, k)| <= 4 * k
  {
    if k > 0 {
      LowLength(addr, k - 1);
      OctetText(addr, k - 1);
    }
  }

  /** The four passes of the loop leave a dot followed by the result. */
  lemma FourPasses(addr: nat)
    ensures Low(addr, 4) == "." + DottedQuad(addr)
  {
    var d0, d1 := Decimal(Octet(addr, 0)), Decimal(Octet(addr, 1));
    var d2, d3 := Decimal(Octet(addr, 2)), Decimal(Octet(addr, 3));
    assert Low(addr, 1) == "." + d0;
    assert Low(addr, 2) == "." + d1 + "." + d0;
    assert Low(addr, 3) == "." + d2 + "." + d1 + "." + d0;
  }

  /** Between 7 and 15 characters. */
  lemma DottedQuadLength(addr: nat)
    ensures 7 <= |DottedQuad(addr)| <= 15
  {
    OctetText(addr, 0);
    OctetText(addr, 1);
    OctetText(addr, 2);
    OctetText(addr, 3);
  }

  lemma NoDot(n: nat)
    ensures '.' !in Decimal(n) && multiset(Decimal(n))['.'] == 0
  {
    assert forall i :: 0 <= i < |Decimal(n)| ==> Decimal(n)[i] != '.';
  }

  /** Exactly three dots. */
  lemma ThreeDots(addr: nat)
    ensures multiset(DottedQuad(addr))['.'] == 3
  {
    NoDot(Octet(addr, 0));
    NoDot(Octet(addr, 1));
    NoDot(Octet(addr, 2));
    NoDot(Octet(addr, 3));
  }

  function Pow256(k: nat): (p: nat)
    ensures p >= 1
  {
    if k == 0 then 1 else 256 * Pow256(k - 1)
  }

  /** After k shifts the bits above the low 32 are a multiple of 2^(32-8k). */
  lemma {:induction false} ShiftSplit(addr: nat, k: nat)
    requires k <= 4
    ensures Shift(addr, k) ==
      (addr / 0x1_0000_0000) * Pow256(4 - k) + Shift(addr % 0x1_0000_0000, k)
  {
    if k > 0 {
      ShiftSplit(addr, k - 1);
      var c := (addr / 0x1_0000_0000) * Pow256(4 - k);
      assert (addr / 0x1_0000_0000) * Pow256(4 - (k - 1)) == 256 * c;
      var s := Shift(addr % 0x1_0000_0000, k - 1);
      assert Shift(addr, k - 1) == 256 * c + s;
      assert (256 * c + s) / 256 == c + s / 256;
    }
  }

  /** Bytes 0 to 3 of addr are those of its low 32 bits. */
  lemma LowOctet(addr: nat, k: nat)
    requires k < 4
    ensures Octet(addr, k) == Octet(addr % 0x1_0000_0000, k)
  {
    ShiftSplit(addr, k);
    var c := (addr / 0x1_0000_0000) * Pow256(3 - k);
    assert (addr / 0x1_0000_0000) * Pow256(4 - k) == 256 * c;
    var s := Shift(addr % 0x1_0000_0000, k);
    assert (256 * c + s) % 256 == s % 256;
  }

  /** Bits above the low 32 do not show. */
  lemma HighBitsIgnored(addr: nat)
    ensures DottedQuad(addr) == DottedQuad(addr % 0x1_0000_0000)
  {
    LowOctet(addr, 0);
    LowOctet(addr, 1);
    LowOctet(addr, 2);
    LowOctet(addr, 3);
  }

  /** In x + "." + y with no dot in x, the dot after x is the first one. */
  lemma FirstDot(s: seq<char>, x: seq<char>, y: seq<char>)
    requires '.' !in x && s == x + "." + y
    ensures |x| < |s| && s[|x|] == '.' && forall i :: 0 <= i < |x| ==> s[i] != '.'
  {
    forall i | 0 <= i < |x|
      ensures s[i] != '.'
    {
      assert s[i] == x[i];
    }
  }

  /** A text split at its first dot splits only one way. */
  lemma SplitAtDot(x: seq<char>, y: seq<char>, x': seq<char>, y': seq<char>)
    requires '.' !in x && '.' !in x'
    requires x + "." + y == x' + "." + y'
    ensures x == x' && y == y'
  {
    var s := x + "." + y;
    FirstDot(s, x, y);
    FirstDot(s, x', y');
    assert x == s[..|x|];
    assert x' == s[..|x'|];
    assert y == s[|x| + 1..];
    assert y' == s[|x'| + 1..];
  }

  lemma DottedQuadParts(a: nat)
    ensures DottedQuad(a) == Decimal(Octet(a, 3)) + "." + (Decimal(Octet(a, 2)) + "." +
      (Decimal(Octet(a, 1)) + "." + Decimal(Octet(a, 0))))
  {
  }

  /** Two addresses print alike only when their four bytes agree. */
  lemma DottedQuadInjective(a: nat, b: nat)
    requires DottedQuad(a) == DottedQuad(b)
    ensures forall k :: 0 <= k < 4 ==> Octet(a, k) == Octet(b, k)
  {
    var a0, a1, a2, a3 := Decimal(Octet(a, 0)), Decimal(Octet(a, 1)), Decimal(Octet(a, 2)), Decimal(Octet(a, 3));
    var b0, b1, b2, b3 := Decimal(Octet(b, 0)), Decimal(Octet(b, 1)), Decimal(Octet(b, 2)), Decimal(Octet(b, 3));
    NoDot(Octet(a, 3)); NoDot(Octet(b, 3));
    NoDot(Octet(a, 2)); NoDot(Octet(b, 2));
    NoDot(Octet(a, 1)); NoDot(Octet(b, 1));
    DottedQuadParts(a);
    DottedQuadParts(b);
    SplitAtDot(a3, a2 + "." + (a1 + "." + a0), b3, b2 + "." + (b1 + "." + b0));
    SplitAtDot(a2, a1 + "." + a0, b2, b1 + "." + b0);
    SplitAtDot(a1, a0, b1, b0);
    DecimalRoundTrip(Octet(a, 0)); DecimalRoundTrip(Octet(b, 0));
    DecimalRoundTrip(Octet(a, 1)); DecimalRoundTrip(Octet(b, 1));
    DecimalRoundTrip(Octet(a, 2)); DecimalRoundTrip(Octet(b, 2));
    DecimalRoundTrip(Octet(a, 3)); DecimalRoundTrip(Octet(b, 3));
  }

  /** The digits of a byte, as the loop peels them off from the right. */
  lemma OctetDigits(b: nat)
    requires b < 256
    ensures b < 10 ==> Decimal(b) == [DigitChar(b)]
    ensures 10 <= b < 100 ==> Decimal(b) == [DigitChar(b / 10), DigitChar(b % 10)]
    ensures 100 <= b ==> Decimal(b) == [DigitChar(b / 100), DigitChar(b / 10 % 10), DigitChar(b % 10)]
  {
    if 100 <= b {
      assert Decimal(b / 10) == [DigitChar(b / 100), DigitChar(b / 10 % 10)];
    }
  }

  /** Four calls in a row use four different buffers; the fifth reuses the first. */
  lemma {:induction false} RotationCycle(c: int)
    requires 0 <= c < SHOW_IP_BUFS
    ensures var c1 := NextSlot(c); var c2 := NextSlot(c1); var c3 := NextSlot(c2);
      c != c1 && c != c2 && c != c3 && c1 != c2 && c1 != c3 && c2 != c3 &&
      0 <= c1 < SHOW_IP_BUFS && NextSlot(c3) == c
  {
  }

  // The static buffers

  class AddrText {
    const bufs: array<char>
    var curbuf: int

    ghost predicate Valid()
      reads this
    {
      bufs.Length == SHOW_IP_BUFS * SHOW_IP_BUFSIZE && 0 <= curbuf < SHOW_IP_BUFS
    }

    /** The static storage before the first call. */
    constructor ()
      ensures Valid() && curbuf == 0 && fresh(bufs)
    {
      bufs := new char[SHOW_IP_BUFS * SHOW_IP_BUFSIZE](_ => NUL);
      curbuf := 0;
    }

    /**
     * One pass of the do-while loop: the digits of `byte`, last digit
     * first, then a dot, each before the cursor `cp`.
     */
    method PutOctet(cp: nat, byte: nat) returns (cp': nat)
      requires byte < 256 && 4 <= cp <= bufs.Length
      modifies bufs
      ensures cp' + 1 + |Decimal(byte)| == cp
      ensures forall p :: cp' <= p < cp ==> bufs[p] == ("." + Decimal(byte))[p - cp']
      ensures forall q :: 0 <= q < bufs.Length && !(cp' <= q < cp) ==> bufs[q] == old(bufs[q])
    {
      OctetDigits(byte);
      var b := byte;
      cp' := cp - 1;
      bufs[cp'] := DigitChar(b % 10);
      b := b / 10;
      if b > 0 {
        cp' := cp' - 1;
        bufs[cp'] := DigitChar(b % 10);
        b := b / 10;
        if b > 0 {
          cp' := cp' - 1;
          bufs[cp'] := DigitChar(b);
        }
      }
      cp' := cp' - 1;
      bufs[cp'] := '.';
    }

    /**
     * The do-while loop: four passes, each writing one byte of addr,
     * lowest first, backwards from `last`.
     */
    method WriteOctets(addr: nat, last: nat) returns (cp: nat)
      requires 16 <= last <= bufs.Length
      modifies bufs
      ensures cp + |Low(addr, 4)| == last
      ensures forall p :: cp <= p < last ==> bufs[p] == Low(addr, 4)[p - cp]
      ensures forall q :: 0 <= q < bufs.Length && !(cp <= q < last) ==> bufs[q] == old(bufs[q])
    {
      cp := last;
      var x, n := addr, 4;
      ghost var k := 0;
      while n > 0
        invariant 0 <= n <= 4 && k == 4 - n && x == Shift(addr, k)
        invariant cp + |Low(addr, k)| == last
        invariant forall p :: cp <= p < last ==> bufs[p] == Low(addr, k)[p - cp]
        invariant forall q :: 0 <= q < bufs.Length && !(cp <= q < last) ==> bufs[q] == old(bufs[q])
      {
        LowLength(addr, k);
        cp := PutOctet(cp, x % 256);
        assert Low(addr, k + 1) == "." + Decimal(Octet(addr, k)) + Low(addr, k);
        x := x / 256;
        n, k := n - 1, k + 1;
      }
    }

    /**
     * jmscott_net_32addr2text(addr): the text sits in buffer `slot`
     * from `start` to the NUL in the buffer's last byte; of that buffer
     * only the dot just before the text is also written, and no other
     * buffer changes.
     */
    method Addr2Text(addr: nat) returns (slot: nat, start: nat)
      requires Valid()
      modifies this, bufs
      ensures Valid() && slot == old(curbuf) && curbuf == NextSlot(old(curbuf))
      ensures var last := slot * SHOW_IP_BUFSIZE + SHOW_IP_BUFSIZE - 1;
        slot * SHOW_IP_BUFSIZE < start && start + |DottedQuad(addr)| == last &&
        (forall p :: start <= p < last ==> bufs[p] == DottedQuad(addr)[p - start]) &&
        bufs[last] == NUL && bufs[start - 1] == '.'
      ensures forall q :: (0 <= q < bufs.Length && !(start - 1 <= q < (slot + 1) * SHOW_IP_BUFSIZE)) ==>
        bufs[q] == old(bufs[q])
    {
      slot := curbuf;
      curbuf := curbuf + 1;
      if curbuf >= SHOW_IP_BUFS {
        curbuf := 0;
      }
      var last := slot * SHOW_IP_BUFSIZE + SHOW_IP_BUFSIZE - 1;
      bufs[last] := NUL;
      var cp := WriteOctets(addr, last);
      FourPasses(addr);
      DottedQuadLength(addr);
      start := cp + 1;
      forall p | start <= p < last
        ensures bufs[p] == DottedQuad(addr)[p - start]
      {
        assert bufs[p] == Low(addr, 4)[p - cp];
      }
    }
  }
}
