/*
 * Shared vocabulary of the model: an optional value, the C library's
 * character classes in the "C" locale, and the decimal text that
 * printf("%d"/"%llu") and the library's own ulltoa() produce.
 *
 * A C string is a `seq<char>` that holds no NUL; a char's ordinal is the
 * byte the C code sees.
 */
module Common {

  datatype Option<T> = None | Some(value: T)

  /** An unsigned char. */
  type Byte = b: int | 0 <= b < 256

  const NUL: char := 0 as char

  /** A C string: its bytes up to, not including, the terminating NUL. */
  predicate IsCString(s: seq<char>) {
    forall i :: 0 <= i < |s| ==> s[i] != NUL
  }

  /** strlen(): the index of the first NUL, or the length when there is none. */
  function Strlen(s: seq<char>): (n: nat)
    ensures n <= |s| && (n < |s| ==> s[n] == NUL)
    ensures forall j :: 0 <= j < n ==> s[j] != NUL
  {
    NulFrom(s, 0)
  }

  /** The first NUL at or after index i (the scan `while (*p) p++`). */
  function NulFrom(s: seq<char>, i: nat): (n: nat)
    requires i <= |s|
    ensures i <= n <= |s| && (n < |s| ==> s[n] == NUL)
    ensures forall j :: i <= j < n ==> s[j] != NUL
    decreases |s| - i
  {
    if i == |s| || s[i] == NUL then i else NulFrom(s, i + 1)
  }

  /** The bytes of a buffer up to its first NUL (what strcpy would copy). */
  function UpToNul(s: seq<char>): seq<char> {
    s[..Strlen(s)]
  }

  /** A C string stored with its terminating NUL reads back as itself. */
  lemma UpToNulOfCString(s: seq<char>)
    requires IsCString(s)
    ensures Strlen(s + [NUL]) == |s| && UpToNul(s + [NUL]) == s
  {
    var t := s + [NUL];
    assert t[|s|] == NUL;
    assert t[..|s|] == s;
  }

  // ctype.h in the "C" locale

  predicate IsAscii(c: char) { c as int < 128 }
  predicate IsDigit(c: char) { '0' <= c <= '9' }
  predicate IsLower(c: char) { 'a' <= c <= 'z' }
  predicate IsUpper(c: char) { 'A' <= c <= 'Z' }
  predicate IsAlpha(c: char) { IsLower(c) || IsUpper(c) }
  predicate IsSpace(c: char) { c == ' ' || 9 <= c as int <= 13 }
  /** isgraph: printable and not a space. */
  predicate IsGraph(c: char) { 0x21 <= c as int <= 0x7e }
  /** isprint: printable, the space included. */
  predicate IsPrint(c: char) { 0x20 <= c as int <= 0x7e }

  function DigitChar(d: nat): (c: char)
    requires d < 10
    ensures IsDigit(c) && c as int - '0' as int == d
  {
    (d + '0' as int) as char
  }

  function DigitValue(c: char): (d: nat)
    requires IsDigit(c)
    ensures d < 10 && DigitChar(d) == c
  {
    c as int - '0' as int
  }

  /** Value of a string of decimal digits read left to right. */
  function DigitsValue(s: seq<char>): nat
    requires forall i :: 0 <= i < |s| ==> IsDigit(s[i])
  {
    if s == [] then 0 else 10 * DigitsValue(s[..|s| - 1]) + DigitValue(s[|s| - 1])
  }

  predicate AllDigits(s: seq<char>) {
    forall i :: 0 <= i < |s| ==> IsDigit(s[i])
  }

  /** Number of decimal digits of n, at least one. */
  function NumDigits(n: nat): (k: nat)
    ensures k >= 1
  {
    if n < 10 then 1 else 1 + NumDigits(n / 10)
  }

  function Pow10(k: nat): (p: nat)
    ensures p >= 1
  {
    if k == 0 then 1 else 10 * Pow10(k - 1)
  }

  /** Decimal text of n: no sign, no leading zero, "0" for zero. */
  function Decimal(n: nat): (s: string)
    ensures |s| == NumDigits(n)
    ensures AllDigits(s)
  {
    if n < 10 then [DigitChar(n)] else Decimal(n / 10) + [DigitChar(n % 10)]
  }

  /** printf("%d") of a signed value. */
  function SignedDecimal(i: int): (s: string)
    ensures s != []
  {
    if i < 0 then "-" + Decimal(-i) else Decimal(i)
  }

  /** Left-pad with `pad` to at least `width` characters (printf field width). */
  function PadLeft(s: seq<char>, width: nat, pad: char): (r: seq<char>)
    ensures |r| == if |s| >= width then |s| else width
    ensures r[|r| - |s|..] == s
    ensures forall i :: 0 <= i < |r| - |s| ==> r[i] == pad
  {
    if |s| >= width then s else seq(width - |s|, _ => pad) + s
  }

  /** Decimal is an exact, canonical rendering of n. */
  lemma {:induction false} DecimalRoundTrip(n: nat)
    ensures DigitsValue(Decimal(n)) == n
    ensures Decimal(n)[0] != '0' || n == 0
  {
    if n >= 10 {
      DecimalRoundTrip(n / 10);
      var s := Decimal(n);
      assert s[..|s| - 1] == Decimal(n / 10);
    }
  }

  /** NumDigits(n) is the k with 10^(k-1) <= n < 10^k (n > 0). */
  lemma {:induction false} NumDigitsBounds(n: nat)
    ensures n < Pow10(NumDigits(n))
    ensures n == 0 || Pow10(NumDigits(n) - 1) <= n
  {
    if n >= 10 {
      NumDigitsBounds(n / 10);
    }
  }

  /** A numeral without leading zeros is the Decimal of its value. */
  lemma {:induction false} DecimalOfDigits(s: seq<char>)
    requires s != [] && AllDigits(s) && (s[0] != '0' || |s| == 1)
    ensures Decimal(DigitsValue(s)) == s
  {
    if |s| > 1 {
      var init := s[..|s| - 1];
      DecimalOfDigits(init);
      DigitsValuePositive(init);
      var n := DigitsValue(s);
      assert n / 10 == DigitsValue(init);
      assert n % 10 == DigitValue(s[|s| - 1]);
      assert s == init + [s[|s| - 1]];
    }
  }

  lemma {:induction false} DigitsValuePositive(s: seq<char>)
    requires s != [] && AllDigits(s) && s[0] != '0'
    ensures DigitsValue(s) > 0
  {
    if |s| > 1 {
      DigitsValuePositive(s[..|s| - 1]);
    }
  }

  lemma {:induction false} Pow10Mono(a: nat, b: nat)
    requires a <= b
    ensures Pow10(a) <= Pow10(b)
  {
    if a < b {
      Pow10Mono(a, b - 1);
    }
  }

  /** A value below 10^k has at most k digits. */
  lemma {:induction false} NumDigitsAtMost(n: nat, k: nat)
    requires k >= 1 && n < Pow10(k)
    ensures NumDigits(n) <= k
  {
    if n >= 10 {
      assert k > 1 && n / 10 < Pow10(k - 1);
      NumDigitsAtMost(n / 10, k - 1);
    }
  }

  /** A value of at least 10^k has more than k digits. */
  lemma {:induction false} NumDigitsAtLeast(n: nat, k: nat)
    requires Pow10(k) <= n
    ensures NumDigits(n) > k
  {
    if k > 0 {
      assert Pow10(k - 1) <= n / 10;
      NumDigitsAtLeast(n / 10, k - 1);
    }
  }

  /** k digits read as a number stay below 10^k. */
  lemma {:induction false} DigitsValueBound(s: seq<char>)
    requires AllDigits(s)
    ensures DigitsValue(s) < Pow10(|s|)
  {
    if s != [] {
      DigitsValueBound(s[..|s| - 1]);
    }
  }

  /** k nines read as 10^k - 1. */
  lemma {:induction false} DigitsAllNines(k: nat)
    ensures DigitsValue(seq(k, _ => '9')) == Pow10(k) - 1
  {
    if k > 0 {
      DigitsAllNines(k - 1);
      assert seq(k, _ => '9')[..k - 1] == seq(k - 1, _ => '9');
    }
  }

  lemma Pow10Nineteen()
    ensures Pow10(19) == 10000000000000000000
  {
    assert Pow10(1) == 10;
    assert Pow10(2) == 100;
    assert Pow10(3) == 1000;
    assert Pow10(4) == 10000;
    assert Pow10(5) == 100000;
    assert Pow10(6) == 1000000;
    assert Pow10(7) == 10000000;
    assert Pow10(8) == 100000000;
    assert Pow10(9) == 1000000000;
    assert Pow10(10) == 10000000000;
    assert Pow10(11) == 100000000000;
    assert Pow10(12) == 1000000000000;
    assert Pow10(13) == 10000000000000;
    assert Pow10(14) == 100000000000000;
    assert Pow10(15) == 1000000000000000;
    assert Pow10(16) == 10000000000000000;
    assert Pow10(17) == 100000000000000000;
    assert Pow10(18) == 1000000000000000000;
    assert Pow10(19) == 10000000000000000000;
  }

  const INT_MIN: int := -0x8000_0000

  /** Conversion of a value to a 32-bit C int, keeping its low 32 bits. */
  function Int32(x: int): (i: int)
    ensures INT_MIN <= i < -INT_MIN
    ensures (i - x) % 0x1_0000_0000 == 0
    ensures INT_MIN <= x < -INT_MIN ==> i == x
  {
    (x - INT_MIN) % 0x1_0000_0000 + INT_MIN
  }
}
