/*
 * jmscott_frisk_udig(): the syntax check of a uniform digest
 * "algorithm:digest", in the library's current form (clib) and in its
 * older, laxer form (clang).  Each returns no message when the udig is
 * well formed and otherwise the message of the first check that fails.
 */
module Udig {
  import opened Common

  const UDIG_NULL := "udig is null"
  const ZERO_LENGTH := "udig is zero length"
  const FIRST_NOT_LOWER := "first char of algorithm not in [a-z]"
  const ALGO_TOO_LONG := "algo > 8 chars"
  const ALGO_NOT_ASCII := "char in algo is not ascii"
  const ALGO_ALPHA_NOT_LOWER := "alpha char in algo is not lower"
  const ALGO_NOT_ALNUM := "char in algo not in [a-z0-9]"
  const NO_COLON := "algorithm not terminated with a colon"
  const DIGEST_TOO_LONG := "digest > 128 character"
  const DIGEST_NOT_ASCII := "character in digest is not ascii"
  const DIGEST_NOT_GRAPH := "character in digest is not graphable"
  const DIGEST_TOO_SHORT := "digest < 32 chars"

  // the older copy words two of its messages differently
  const LAX_NOT_LOWER := "char in algo is not lower"
  const LAX_NOT_DIGIT := "char in algo not a digit"

  /** A character allowed after the first one of an algorithm name. */
  predicate AlgoChar(c: char) { IsLower(c) || IsDigit(c) }

  /**
   * Where the algorithm scan from index k stops: the first index holding
   * the colon, lying at or past index 8, or holding a character outside
   * [a-z0-9]; |u| when the string ends first.
   */
  function AlgoStop(u: seq<char>, k: nat): (a: nat)
    requires k <= |u|
    ensures k <= a <= |u|
    ensures a == k || a <= 8
    ensures forall j :: k <= j < a ==> u[j] != ':' && j < 8 && AlgoChar(u[j])
    ensures a < |u| ==> u[a] == ':' || a >= 8 || !AlgoChar(u[a])
    decreases |u| - k
  {
    if k == |u| || u[k] == ':' || k + 1 > 8 || !AlgoChar(u[k]) then k else AlgoStop(u, k + 1)
  }

  /** The message for algorithm character c at index j, when it is not the colon. */
  function AlgoError(c: char, j: nat): string {
    if j + 1 > 8 then ALGO_TOO_LONG
    else if !IsAscii(c) then ALGO_NOT_ASCII
    else if IsAlpha(c) then ALGO_ALPHA_NOT_LOWER
    else ALGO_NOT_ALNUM
  }

  /** Where the digest scan from index k stops: at index 128 or a non-graphic character. */
  function DigestStop(u: seq<char>, k: nat): (d: nat)
    requires k <= |u|
    ensures k <= d <= |u|
    ensures d == k || d <= 128
    ensures forall j :: k <= j < d ==> IsGraph(u[j])
    ensures d < |u| ==> d >= 128 || !IsGraph(u[d])
    decreases |u| - k
  {
    if k == |u| || k + 1 > 128 || !IsGraph(u[k]) then k else DigestStop(u, k + 1)
  }

  function DigestError(c: char, j: nat): string {
    if j + 1 > 128 then DIGEST_TOO_LONG
    else if !IsAscii(c) then DIGEST_NOT_ASCII
    else DIGEST_NOT_GRAPH
  }

  /** The verdict of clib's jmscott_frisk_udig(), check by check. */
  function Frisk(udig: Option<seq<char>>): Option<string>
    requires udig.Some? ==> IsCString(udig.value)
  {
    match udig
    case None => Some(UDIG_NULL)
    case Some(u) =>
      if |u| == 0 then Some(ZERO_LENGTH)
      else if !IsAlpha(u[0]) || !IsLower(u[0]) then Some(FIRST_NOT_LOWER)
      else
        var a := AlgoStop(u, 1);
        if a == |u| then Some(NO_COLON)
        else if u[a] != ':' then Some(AlgoError(u[a], a))
        else
          var d := DigestStop(u, a + 1);
          if d < |u| then Some(DigestError(u[d], d))
          else if |u| + 1 < 32 then Some(DIGEST_TOO_SHORT)
          else None
  }

  /**
   * clib/udig.c jmscott_frisk_udig(udig): pointer u advancing through the
   * algorithm and then the digest, returning at the first failed check.
   */
  method FriskUdig(udig: Option<seq<char>>) returns (err: Option<string>)
    requires udig.Some? ==> IsCString(udig.value)
    ensures err == Frisk(udig)
  {
    if udig.None? {
      return Some(UDIG_NULL);
    }
    var u := udig.value;
    if |u| == 0 {
      return Some(ZERO_LENGTH);
    }
    var c := u[0];
    if !IsAlpha(c) || !IsLower(c) {
      return Some(FIRST_NOT_LOWER);
    }
    var i := 1;
    while i < |u| && u[i] != ':'
      invariant 1 <= i <= |u| && AlgoStop(u, 1) == AlgoStop(u, i)
    {
      c := u[i];
      if i + 1 > 8 {
        return Some(ALGO_TOO_LONG);
      }
      if !IsAscii(c) {
        return Some(ALGO_NOT_ASCII);
      }
      if IsAlpha(c) {
        if !IsLower(c) {
          return Some(ALGO_ALPHA_NOT_LOWER);
        }
      } else if !IsDigit(c) {
        return Some(ALGO_NOT_ALNUM);
      }
      i := i + 1;
    }
    if i == |u| {
      return Some(NO_COLON);
    }
    ghost var a := i;
    i := i + 1;
    while i < |u|
      invariant a + 1 <= i <= |u| && DigestStop(u, a + 1) == DigestStop(u, i)
    {
      c := u[i];
      if i + 1 > 128 {
        return Some(DIGEST_TOO_LONG);
      }
      if !IsAscii(c) {
        return Some(DIGEST_NOT_ASCII);
      }
      if !IsGraph(c) {
        return Some(DIGEST_NOT_GRAPH);
      }
      i := i + 1;
    }
    if i + 1 < 32 {
      return Some(DIGEST_TOO_SHORT);
    }
    return None;
  }

  /**
   * The udigs clib accepts: a lower-case letter, up to seven more of
   * [a-z0-9], a colon, then graphic ASCII characters, the whole udig
   * (algorithm and colon included) being 31 to 128 characters long.
   */
  predicate WellFormed(u: seq<char>) {
    31 <= |u| <= 128 && IsLower(u[0]) &&
    exists c :: 1 <= c <= 8 && c < |u| && u[c] == ':' &&
      (forall j :: 1 <= j < c ==> AlgoChar(u[j])) &&
      (forall j :: c < j < |u| ==> IsGraph(u[j]))
  }

  /** clib accepts a udig exactly when it is well formed. */
  lemma FriskAccepts(u: seq<char>)
    requires IsCString(u)
    ensures Frisk(Some(u)) == None <==> WellFormed(u)
  {
    if WellFormed(u) {
      var c :| 1 <= c <= 8 && c < |u| && u[c] == ':' &&
        (forall j :: 1 <= j < c ==> AlgoChar(u[j])) &&
        (forall j :: c < j < |u| ==> IsGraph(u[j]));
      AlgoStopAt(u, 1, c);
      DigestStopEnd(u, c + 1);
    }
    if Frisk(Some(u)) == None {
      var a := AlgoStop(u, 1);
      assert u[a] == ':' && a <= 8;
    }
  }

  /** The algorithm scan stops at the colon when everything before it is an algorithm character. */
  lemma {:induction false} AlgoStopAt(u: seq<char>, k: nat, c: nat)
    requires 1 <= k <= c < |u| && c <= 8 && u[c] == ':'
    requires forall j :: k <= j < c ==> AlgoChar(u[j])
    ensures AlgoStop(u, k) == c
    decreases c - k
  {
    if k < c {
      assert u[k] != ':';
      AlgoStopAt(u, k + 1, c);
    }
  }

  /** The digest scan reaches the end when the rest is graphic and ends by index 128. */
  lemma {:induction false} DigestStopEnd(u: seq<char>, k: nat)
    requires k <= |u| <= 128
    requires forall j :: k <= j < |u| ==> IsGraph(u[j])
    ensures DigestStop(u, k) == |u|
    decreases |u| - k
  {
    if k < |u| {
      DigestStopEnd(u, k + 1);
    }
  }

  /** The first checks of clib: null, empty, and a first character outside [a-z]. */
  lemma FriskFirstChecks(u: seq<char>)
    requires IsCString(u)
    ensures Frisk(None) == Some(UDIG_NULL)
    ensures |u| == 0 ==> Frisk(Some(u)) == Some(ZERO_LENGTH)
    ensures |u| > 0 && !IsLower(u[0]) ==> Frisk(Some(u)) == Some(FIRST_NOT_LOWER)
  {
  }

  /**
   * Both length limits count from the start of the udig: a 4-character
   * algorithm with a 27-character digest passes, and a 125-character
   * digest after the same algorithm is refused as too long.
   */
  lemma LengthsCountWholeUdig()
    ensures Frisk(Some("sha:" + seq(27, _ => 'a'))) == None
    ensures Frisk(Some("sha:" + seq(125, _ => 'a'))) == Some(DIGEST_TOO_LONG)
  {
    var u := "sha:" + seq(27, _ => 'a');
    assert u[3] == ':';
    AlgoStopAt(u, 1, 3);
    DigestStopEnd(u, 4);
    var v := "sha:" + seq(125, _ => 'a');
    assert v[3] == ':';
    AlgoStopAt(v, 1, 3);
    DigestStopAt128(v, 4);
  }

  lemma {:induction false} DigestStopAt128(u: seq<char>, k: nat)
    requires k <= 128 < |u|
    requires forall j :: k <= j <= 128 ==> IsGraph(u[j])
    ensures DigestStop(u, k) == 128
    decreases 128 - k
  {
    if k < 128 {
      DigestStopAt128(u, k + 1);
    }
  }

  // clang/udig.c: the older copy

  /** The older algorithm scan from index k: the first character must also be a lower-case letter. */
  function LaxAlgoStop(u: seq<char>, k: nat): (a: nat)
    requires k <= |u|
    ensures k <= a <= |u|
    ensures a == k || a <= 8
    ensures forall j :: k <= j < a ==> u[j] != ':' && AlgoChar(u[j]) && (j == 0 ==> IsLower(u[j]))
    ensures a < |u| ==> u[a] == ':' || a >= 8 || !AlgoChar(u[a]) || (a == 0 && !IsLower(u[a]))
    decreases |u| - k
  {
    if k == |u| || u[k] == ':' || k + 1 > 8 || !AlgoChar(u[k]) || (k == 0 && !IsLower(u[k])) then k
    else LaxAlgoStop(u, k + 1)
  }

  function LaxAlgoError(c: char, j: nat): string {
    if j + 1 > 8 then ALGO_TOO_LONG
    else if !IsAscii(c) then ALGO_NOT_ASCII
    else if IsAlpha(c) && !IsLower(c) then LAX_NOT_LOWER
    else if !IsAlpha(c) && !IsDigit(c) then LAX_NOT_DIGIT
    else FIRST_NOT_LOWER
  }

  /** The verdict of clang's jmscott_frisk_udig(). */
  function LaxFrisk(udig: Option<seq<char>>): Option<string>
    requires udig.Some? ==> IsCString(udig.value)
  {
    match udig
    case None => Some(UDIG_NULL)
    case Some(u) =>
      var a := LaxAlgoStop(u, 0);
      if a == |u| then Some(NO_COLON)
      else if u[a] != ':' then Some(LaxAlgoError(u[a], a))
      else
        var d := DigestStop(u, a + 1);
        if d < |u| then Some(DigestError(u[d], d)) else None
  }

  /**
   * clang/udig.c jmscott_frisk_udig(udig): the first-character test comes
   * after the colon test and the class tests, and there is no empty or
   * minimum-length check.
   */
  method LaxFriskUdig(udig: Option<seq<char>>) returns (err: Option<string>)
    requires udig.Some? ==> IsCString(udig.value)
    ensures err == LaxFrisk(udig)
  {
    if udig.None? {
      return Some(UDIG_NULL);
    }
    var u := udig.value;
    var i := 0;
    while i < |u| && u[i] != ':'
      invariant 0 <= i <= |u| && LaxAlgoStop(u, 0) == LaxAlgoStop(u, i)
    {
      var c := u[i];
      if i + 1 > 8 {
        return Some(ALGO_TOO_LONG);
      }
      if !IsAscii(c) {
        return Some(ALGO_NOT_ASCII);
      }
      if IsAlpha(c) {
        if !IsLower(c) {
          return Some(LAX_NOT_LOWER);
        }
      } else if !IsDigit(c) {
        return Some(LAX_NOT_DIGIT);
      }
      if i + 1 == 1 && (c < 'a' || c > 'z') {
        return Some(FIRST_NOT_LOWER);
      }
      i := i + 1;
    }
    if i == |u| {
      return Some(NO_COLON);
    }
    ghost var a := i;
    i := i + 1;
    while i < |u|
      invariant a + 1 <= i <= |u| && DigestStop(u, a + 1) == DigestStop(u, i)
    {
      var c := u[i];
      if i + 1 > 128 {
        return Some(DIGEST_TOO_LONG);
      }
      if !IsAscii(c) {
        return Some(DIGEST_NOT_ASCII);
      }
      if !IsGraph(c) {
        return Some(DIGEST_NOT_GRAPH);
      }
      i := i + 1;
    }
    return None;
  }

  /**
   * The udigs the older copy accepts: up to eight characters of [a-z0-9]
   * not starting with a digit (possibly none), a colon, then graphic ASCII
   * characters up to index 128; no minimum length.
   */
  predicate LaxWellFormed(u: seq<char>) {
    |u| <= 128 &&
    exists c :: 0 <= c <= 8 && c < |u| && u[c] == ':' &&
      (c > 0 ==> IsLower(u[0])) &&
      (forall j :: 0 <= j < c ==> AlgoChar(u[j])) &&
      (forall j :: c < j < |u| ==> IsGraph(u[j]))
  }

  lemma {:induction false} LaxAlgoStopAt(u: seq<char>, k: nat, c: nat)
    requires k <= c < |u| && c <= 8 && u[c] == ':'
    requires forall j :: k <= j < c ==> AlgoChar(u[j])
    requires k == 0 < c ==> IsLower(u[0])
    ensures LaxAlgoStop(u, k) == c
    decreases c - k
  {
    if k < c {
      assert u[k] != ':';
      LaxAlgoStopAt(u, k + 1, c);
    }
  }

  /** The older copy accepts a udig exactly when it is well formed in its laxer sense. */
  lemma LaxFriskAccepts(u: seq<char>)
    requires IsCString(u)
    ensures LaxFrisk(Some(u)) == None <==> LaxWellFormed(u)
  {
    if LaxWellFormed(u) {
      var c :| 0 <= c <= 8 && c < |u| && u[c] == ':' &&
        (c > 0 ==> IsLower(u[0])) &&
        (forall j :: 0 <= j < c ==> AlgoChar(u[j])) &&
        (forall j :: c < j < |u| ==> IsGraph(u[j]));
      LaxAlgoStopAt(u, 0, c);
      DigestStopEnd(u, c + 1);
    }
    if LaxFrisk(Some(u)) == None {
      var a := LaxAlgoStop(u, 0);
      assert u[a] == ':' && a <= 8;
    }
  }

  /** The older copy is laxer: what clib accepts it accepts too. */
  lemma StrictImpliesLax(u: seq<char>)
    requires IsCString(u)
    ensures Frisk(Some(u)) == None ==> LaxFrisk(Some(u)) == None
  {
    FriskAccepts(u);
    LaxFriskAccepts(u);
    if WellFormed(u) {
      var c :| 1 <= c <= 8 && c < |u| && u[c] == ':' &&
        (forall j :: 1 <= j < c ==> AlgoChar(u[j])) &&
        (forall j :: c < j < |u| ==> IsGraph(u[j]));
      assert 0 <= c <= 8 && c < |u| && u[c] == ':' && (c > 0 ==> IsLower(u[0])) &&
        (forall j :: 0 <= j < c ==> AlgoChar(u[j])) &&
        (forall j :: c < j < |u| ==> IsGraph(u[j]));
    }
  }

  /** The older copy also accepts an empty algorithm and an empty digest,
      which clib refuses; both refuse "" for its missing colon. */
  lemma LaxAcceptsEmptyParts()
    ensures LaxFrisk(Some(":")) == None && Frisk(Some(":")) == Some(FIRST_NOT_LOWER)
    ensures LaxFrisk(Some("sha:")) == None && Frisk(Some("sha:")) == Some(DIGEST_TOO_SHORT)
    ensures LaxFrisk(Some("")) == Some(NO_COLON)
  {
    var s := "sha:";
    assert s[3] == ':';
    AlgoStopAt(s, 1, 3);
    LaxAlgoStopAt(s, 0, 3);
  }

  /** In the older copy the class tests come first: 'A' is refused as not lower, '1' as a first char. */
  lemma LaxFirstCharOrder()
    ensures LaxFrisk(Some("A:x")) == Some(LAX_NOT_LOWER)
    ensures LaxFrisk(Some("1:x")) == Some(FIRST_NOT_LOWER)
  {
  }
}
