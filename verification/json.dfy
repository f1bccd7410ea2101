/*
 * JSON string escaping: jmscott_ascii2json_string() writing an escaped,
 * quoted, NUL-terminated string into a caller's buffer of tgt_size bytes,
 * jmscott_json_write() scanning its format for comments and white space,
 * and the escape-json-string filter that escapes standard input onto
 * standard output.
 *
 * Both escapers share one mapping: the seven characters `"`, `\`, BS, FF,
 * LF, CR and TAB become a backslash and a letter, every other byte stays.
 */
module Json {
  import opened Common

  const BS: char := 8 as char
  const FF: char := 12 as char

  const TGT_TOO_SMALL := "tgt size < 3"
  const NON_ASCII := "non ascii char in source string"
  const TOO_LARGE := "source string too large for target buffer"
  const NULL_FORMAT := "null format"
  const UNKNOWN_FORMAT := "unknown format char"

  /** The letter that follows the backslash, for the seven escaped characters. */
  predicate NeedsEscape(c: char) {
    c == '"' || c == '\\' || c == BS || c == FF || c == '\n' || c == '\r' || c == '\t'
  }

  /** What one source character becomes (the switch of both escapers). */
  function EscapeChar(c: char): (e: seq<char>)
    ensures NeedsEscape(c) ==> |e| == 2 && e[0] == '\\'
    ensures !NeedsEscape(c) ==> e == [c]
  {
    if c == '"' then ['\\', '"']
    else if c == '\\' then ['\\', '\\']
    else if c == BS then ['\\', 'b']
    else if c == FF then ['\\', 'f']
    else if c == '\n' then ['\\', 'n']
    else if c == '\r' then ['\\', 'r']
    else if c == '\t' then ['\\', 't']
    else [c]
  }

  /** The escaped text of a whole string. */
  function Escaped(s: seq<char>): seq<char> {
    if s == [] then [] else EscapeChar(s[0]) + Escaped(s[1..])
  }

  /** How many characters of s are escaped. */
  function EscapeCount(s: seq<char>): nat {
    if s == [] then 0 else (if NeedsEscape(s[0]) then 1 else 0) + EscapeCount(s[1..])
  }

  /** The character a backslash followed by d stands for in a JSON string. */
  function Unletter(d: char): Option<char> {
    if d == '"' then Some('"')
    else if d == '\\' then Some('\\')
    else if d == 'b' then Some(BS)
    else if d == 'f' then Some(FF)
    else if d == 'n' then Some('\n')
    else if d == 'r' then Some('\r')
    else if d == 't' then Some('\t')
    else None
  }

  /**
   * A JSON reader's view of the escaped text: a backslash and one of the
   * seven letters stand for their character, any other character for
   * itself; a lone or unknown escape is refused.
   */
  function Unescape(t: seq<char>): Option<seq<char>> {
    if t == [] then Some([])
    else if t[0] != '\\' then
      match Unescape(t[1..])
      case None => None
      case Some(r) => Some([t[0]] + r)
    else if |t| < 2 then None
    else
      match Unletter(t[1])
      case None => None
      case Some(c) =>
        match Unescape(t[2..])
        case None => None
        case Some(r) => Some([c] + r)
  }

  /** The letter after the backslash stands for the escaped character. */
  lemma UnletterEscape(c: char)
    requires NeedsEscape(c)
    ensures Unletter(EscapeChar(c)[1]) == Some(c)
  {
  }

  /** One escaped character in front of text a reader reads back as r. */
  lemma UnescapeOne(c: char, t: seq<char>, r: seq<char>)
    requires Unescape(t) == Some(r)
    ensures Unescape(EscapeChar(c) + t) == Some([c] + r)
  {
    var u := EscapeChar(c) + t;
    if NeedsEscape(c) {
      UnletterEscape(c);
      assert u[0] == '\\' && u[1] == EscapeChar(c)[1] && u[2..] == t;
    } else {
      assert u[0] == c && u[1..] == t;
    }
  }

  /** Escaping is undone by a JSON reader: the text read back is the source. */
  lemma {:induction false} UnescapeEscaped(s: seq<char>)
    ensures Unescape(Escaped(s)) == Some(s)
  {
    if s != [] {
      UnescapeEscaped(s[1..]);
      UnescapeOne(s[0], Escaped(s[1..]), s[1..]);
      assert [s[0]] + s[1..] == s;
    }
  }

  /** Each escaped character adds exactly one byte (the backslash). */
  lemma {:induction false} EscapedLength(s: seq<char>)
    ensures |Escaped(s)| == |s| + EscapeCount(s)
  {
    if s != [] {
      EscapedLength(s[1..]);
    }
  }

  /** The escaped text holds no unescaped quote: every `"` follows a backslash. */
  lemma {:induction false} QuotesEscaped(s: seq<char>, k: nat)
    requires k < |Escaped(s)| && Escaped(s)[k] == '"'
    ensures 0 < k && Escaped(s)[k - 1] == '\\'
  {
    var e := EscapeChar(s[0]);
    if k >= |e| {
      QuotesEscaped(s[1..], k - |e|);
      if k - |e| == 0 {
        assert false;
      }
    }
  }

  lemma {:induction false} EscapedAppend(s: seq<char>, t: seq<char>)
    ensures Escaped(s + t) == Escaped(s) + Escaped(t)
  {
    if s != [] {
      assert (s + t)[1..] == s[1..] + t;
      EscapedAppend(s[1..], t);
    } else {
      assert s + t == t;
    }
  }

  lemma EscapedSnoc(s: seq<char>, c: char)
    ensures Escaped(s + [c]) == Escaped(s) + EscapeChar(c)
  {
    EscapedAppend(s, [c]);
    assert Escaped([c]) == EscapeChar(c) + Escaped([]);
  }

  // jmscott_ascii2json_string()

  /** The index of the first non-ASCII character, or |s| when there is none. */
  function FirstNonAscii(s: seq<char>): (a: nat)
    ensures a <= |s| && (a < |s| ==> !IsAscii(s[a]))
    ensures forall k :: 0 <= k < a ==> IsAscii(s[k])
  {
    if s == [] then 0 else if !IsAscii(s[0]) then 0 else 1 + FirstNonAscii(s[1..])
  }

  /**
   * Every byte the converter would write given an unbounded buffer, and
   * how it would end: the opening quote, the escaped characters up to the
   * first non-ASCII one (then it stops with an error), or the whole escaped
   * source, the closing quote and the NUL.
   */
  function Stream(src: seq<char>): (seq<char>, Option<string>) {
    var a := FirstNonAscii(src);
    if a < |src| then (['"'] + Escaped(src[..a]), Some(NON_ASCII))
    else (['"'] + Escaped(src) + ['"', NUL], None)
  }

  /** The outcome for a buffer of tgtSize bytes: the bytes written and the error returned. */
  function Converted(src: seq<char>, tgtSize: int): (r: (seq<char>, Option<string>))
    ensures |r.0| <= if tgtSize < 0 then 0 else tgtSize
  {
    if tgtSize < 3 then ([], Some(TGT_TOO_SMALL))
    else
      var (w, e) := Stream(src);
      if |w| <= tgtSize then (w, e) else (w[..tgtSize], Some(TOO_LARGE))
  }

  /** A JSON string literal in a C buffer: quote, escaped text, quote, NUL. */
  function JsonString(src: seq<char>): seq<char> {
    ['"'] + Escaped(src) + ['"', NUL]
  }

  /**
   * The converter succeeds exactly when the source is all ASCII and its
   * quoted, escaped, NUL-terminated form fits the buffer; it then writes
   * that form and nothing else.  It never writes more than tgtSize bytes.
   */
  lemma ConvertedSucceeds(src: seq<char>, tgtSize: int)
    ensures Converted(src, tgtSize).1 == None <==>
      (forall k :: 0 <= k < |src| ==> IsAscii(src[k])) && |Escaped(src)| + 3 <= tgtSize
    ensures Converted(src, tgtSize).1 == None ==> Converted(src, tgtSize).0 == JsonString(src)
  {
    if FirstNonAscii(src) == |src| {
      assert src[..|src|] == src;
    }
  }

  /** The errors are the three messages, chosen in the order the source checks them. */
  lemma ConvertedErrors(src: seq<char>, tgtSize: int)
    ensures tgtSize < 3 ==> Converted(src, tgtSize).1 == Some(TGT_TOO_SMALL)
    ensures tgtSize >= 3 && FirstNonAscii(src) < |src| &&
      1 + |Escaped(src[..FirstNonAscii(src)])| <= tgtSize
      ==> Converted(src, tgtSize).1 == Some(NON_ASCII)
    ensures tgtSize >= 3 && (forall k :: 0 <= k < |src| ==> IsAscii(src[k])) &&
      |Escaped(src)| + 3 > tgtSize
      ==> Converted(src, tgtSize).1 == Some(TOO_LARGE)
  {
    if FirstNonAscii(src) == |src| {
      assert src[..|src|] == src;
    }
  }

  /** The bytes written for src[..i] form a prefix of the stream. */
  lemma StreamPrefix(src: seq<char>, i: nat)
    requires i <= FirstNonAscii(src)
    ensures var p := ['"'] + Escaped(src[..i]);
      |p| <= |Stream(src).0| && Stream(src).0[..|p|] == p
  {
    var a := FirstNonAscii(src);
    assert src[..a] == src[..i] + src[i..a];
    EscapedAppend(src[..i], src[i..a]);
    if a == |src| {
      assert src[..a] == src;
    }
  }

  /** A prefix q + e of w: w holds the bytes of e right after q. */
  lemma PrefixThen(w: seq<char>, q: seq<char>, e: seq<char>, j: nat)
    requires |q + e| <= |w| && w[..|q + e|] == q + e && j == |q| && 1 <= |e| <= 2
    ensures w[j] == e[0] && (|e| == 2 ==> w[j + 1] == e[1])
  {
    assert w[j] == w[..|q + e|][j];
    if |e| == 2 {
      assert w[j + 1] == w[..|q + e|][j + 1];
    }
  }

  /** The written prefix for src[..i + 1]: the one for src[..i], then the escape of src[i]. */
  lemma WrittenSnoc(src: seq<char>, i: nat)
    requires i < |src|
    ensures ['"'] + Escaped(src[..i + 1]) == (['"'] + Escaped(src[..i])) + EscapeChar(src[i])
  {
    assert src[..i + 1] == src[..i] + [src[i]];
    EscapedSnoc(src[..i], src[i]);
  }

  /** After src[..i], written as j bytes, the stream goes on with the escape of src[i]. */
  lemma StreamNext(src: seq<char>, i: nat, j: nat)
    requires i < FirstNonAscii(src) && j == 1 + |Escaped(src[..i])|
    ensures var e := EscapeChar(src[i]);
      j + |e| <= |Stream(src).0| && Stream(src).0[j] == e[0] &&
      (|e| == 2 ==> Stream(src).0[j + 1] == e[1]) &&
      1 + |Escaped(src[..i + 1])| == j + |e|
  {
    WrittenSnoc(src, i);
    StreamPrefix(src, i + 1);
    PrefixThen(Stream(src).0, ['"'] + Escaped(src[..i]), EscapeChar(src[i]), j);
  }

  /** The stream of an all-ASCII source ends with the closing quote and the NUL. */
  lemma StreamEnd(src: seq<char>)
    requires FirstNonAscii(src) == |src|
    ensures var n := 1 + |Escaped(src)|;
      |Stream(src).0| == n + 2 && Stream(src).0[n] == '"' && Stream(src).0[n + 1] == NUL
  {
  }

  /** A stream longer than a buffer of at least 3 bytes is cut at its end: too large. */
  lemma Overflows(src: seq<char>, tgtSize: int)
    requires 3 <= tgtSize < |Stream(src).0|
    ensures Converted(src, tgtSize).1 == Some(TOO_LARGE)
    ensures Converted(src, tgtSize).0 == Stream(src).0[..tgtSize]
  {
  }

  /** A stream that fits a buffer of at least 3 bytes is written whole, with its own ending. */
  lemma Fits(src: seq<char>, tgtSize: int)
    requires 3 <= tgtSize && |Stream(src).0| <= tgtSize
    ensures Converted(src, tgtSize).1 == Stream(src).1
    ensures Converted(src, tgtSize).0 == Stream(src).0
  {
  }

  /** A buffer whose first |w| bytes have been overwritten with w. */
  function Overlay(before: seq<char>, w: seq<char>): (r: seq<char>)
    requires |w| <= |before|
    ensures |r| == |before| && r[..|w|] == w
  {
    w + before[|w|..]
  }

  /**
   * The _PUT(c) macro, c being the stream's next byte: with j bytes
   * written, refuse when the buffer is full, otherwise write c at j.
   */
  method Put(tgt: array<char>, tgtSize: int, ghost before: seq<char>, ghost S: seq<char>, j: int, c: char)
    returns (ok: bool)
    requires tgtSize <= tgt.Length == |before| && 0 <= j <= tgtSize && j < |S| && S[j] == c
    requires tgt[..] == Overlay(before, S[..j])
    modifies tgt
    ensures ok <==> j < tgtSize
    ensures tgt[..] == Overlay(before, S[..if ok then j + 1 else j])
  {
    if j >= tgtSize {
      return false;
    }
    tgt[j] := c;
    assert S[..j + 1] == S[..j] + [c];
    return true;
  }

  /**
   * The _PUT calls for one or two stream bytes e starting at j: each is
   * written while the buffer has room; when it runs out the buffer holds
   * exactly the first tgtSize bytes of the stream.
   */
  method PutBytes(tgt: array<char>, tgtSize: int, ghost before: seq<char>, ghost S: seq<char>, j: int, e: seq<char>)
    returns (ok: bool)
    requires tgtSize <= tgt.Length == |before| && 0 <= j <= tgtSize && 1 <= |e| <= 2 && j + |e| <= |S|
    requires S[j] == e[0] && (|e| == 2 ==> S[j + 1] == e[1])
    requires tgt[..] == Overlay(before, S[..j])
    modifies tgt
    ensures ok <==> j + |e| <= tgtSize
    ensures tgt[..] == Overlay(before, S[..if ok then j + |e| else tgtSize])
  {
    ok := Put(tgt, tgtSize, before, S, j, e[0]);
    if ok && |e| == 2 {
      ok := Put(tgt, tgtSize, before, S, j + 1, e[1]);
    }
  }

  /**
   * The loop of jmscott_ascii2json_string over the source: each character
   * is refused when not ASCII, otherwise put escaped.  It stops with the
   * converter's error, or, past the last character, with j bytes written.
   */
  method PutEscapedSource(src: seq<char>, tgt: array<char>, tgtSize: int, ghost before: seq<char>)
    returns (err: Option<string>, j: int)
    requires 3 <= tgtSize <= tgt.Length == |before|
    requires tgt[..] == Overlay(before, Stream(src).0[..1])
    modifies tgt
    ensures err.Some? ==> err == Converted(src, tgtSize).1
    ensures err.Some? ==> tgt[..] == Overlay(before, Converted(src, tgtSize).0)
    ensures err.None? ==> FirstNonAscii(src) == |src| && j == 1 + |Escaped(src)| && j <= tgtSize
    ensures err.None? ==> tgt[..] == Overlay(before, Stream(src).0[..j])
  {
    ghost var S := Stream(src).0;
    StreamPrefix(src, 0);
    j := 1;
    var i := 0;
    while i < |src|
      invariant 0 <= i <= FirstNonAscii(src)
      invariant j == 1 + |Escaped(src[..i])| && j <= tgtSize && j <= |S|
      invariant tgt[..] == Overlay(before, S[..j])
    {
      var c := src[i];
      if !IsAscii(c) {
        StreamPrefix(src, i);
        Fits(src, tgtSize);
        return Some(NON_ASCII), j;
      }
      StreamNext(src, i, j);
      var e := EscapeChar(c);
      var ok := PutBytes(tgt, tgtSize, before, S, j, e);
      if !ok {
        Overflows(src, tgtSize);
        return Some(TOO_LARGE), j;
      }
      j := j + |e|;
      i := i + 1;
    }
    assert src[..i] == src;
    return None, j;
  }

  /**
   * jmscott_ascii2json_string(src, tgt, tgt_size): tgt[..tgtSize] is the
   * caller's buffer.  The bytes written and the error returned are those of
   * Converted; no byte beyond what Converted writes is touched.
   */
  method Ascii2JsonString(src: seq<char>, tgt: array<char>, tgtSize: int) returns (err: Option<string>)
    requires IsCString(src) && tgtSize <= tgt.Length
    modifies tgt
    ensures err == Converted(src, tgtSize).1
    ensures tgt[..] == Overlay(old(tgt[..]), Converted(src, tgtSize).0)
  {
    ghost var before := tgt[..];
    if tgtSize < 3 {
      assert tgt[..] == Overlay(before, []);
      return Some(TGT_TOO_SMALL);
    }
    ghost var S := Stream(src).0;
    StreamPrefix(src, 0);
    tgt[0] := '"';
    assert tgt[..] == Overlay(before, S[..1]);
    var j;
    err, j := PutEscapedSource(src, tgt, tgtSize, before);
    if err.Some? {
      return;
    }
    StreamEnd(src);
    var ok := PutBytes(tgt, tgtSize, before, S, j, ['"', NUL]);
    if !ok {
      Overflows(src, tgtSize);
      return Some(TOO_LARGE);
    }
    assert S[..j + 2] == S;
    Fits(src, tgtSize);
    return None;
  }

  // jmscott_json_write()

  /**
   * The format from index i on holds only white space and `#` comments,
   * each comment running to the next newline or the end.
   */
  predicate BlankFrom(f: seq<char>, i: nat)
    decreases |f| - i, 1
  {
    i >= |f| ||
    (IsSpace(f[i]) && BlankFrom(f, i + 1)) ||
    (f[i] == '#' && CommentFrom(f, i + 1))
  }

  /** Inside a comment at index i: the rest is blank once the comment's newline is passed. */
  predicate CommentFrom(f: seq<char>, i: nat)
    decreases |f| - i, 0
  {
    i >= |f| || (if f[i] == '\n' then BlankFrom(f, i + 1) else CommentFrom(f, i + 1))
  }

  /**
   * jmscott_json_write(fd, format): nothing is written yet; the format is
   * accepted (null returned) exactly when it is only white space and
   * comments, a null format and any other character are refused.
   */
  method JsonWrite(format: Option<seq<char>>) returns (err: Option<string>)
    requires format.Some? ==> IsCString(format.value)
    ensures format.None? ==> err == Some(NULL_FORMAT)
    ensures format.Some? ==> (err.None? <==> BlankFrom(format.value, 0))
    ensures format.Some? && err.Some? ==> err.value == UNKNOWN_FORMAT
  {
    if format.None? {
      return Some(NULL_FORMAT);
    }
    var f := format.value;
    var i := 0;
    while true
      invariant 0 <= i <= |f|
      invariant BlankFrom(f, 0) <==> BlankFrom(f, i)
      decreases |f| - i
    {
      while i < |f| && IsSpace(f[i])
        invariant 0 <= i <= |f|
        invariant BlankFrom(f, 0) <==> BlankFrom(f, i)
      {
        i := i + 1;
      }
      if i == |f| {
        return None;
      }
      if f[i] != '#' {
        return Some(UNKNOWN_FORMAT);
      }
      i := i + 1;
      while i < |f| && f[i] != '\n'
        invariant 0 <= i <= |f|
        invariant BlankFrom(f, 0) <==> CommentFrom(f, i)
      {
        i := i + 1;
      }
      if i == |f| {
        return None;
      }
      i := i + 1;
    }
  }

  // escape-json-string

  const EXIT_OK := 0
  const EXIT_FAIL := 1

  /**
   * main(argc, argv) of escape-json-string: any command-line argument is
   * refused with exit status 1; otherwise every byte read is written
   * through EscapeChar and the status is 0.
   */
  method EscapeJsonString(argc: nat, input: seq<char>) returns (output: seq<char>, status: int)
    ensures argc != 1 ==> status == EXIT_FAIL && output == []
    ensures argc == 1 ==> status == EXIT_OK && output == Escaped(input)
  {
    if argc != 1 {
      return [], EXIT_FAIL;
    }
    output := [];
    var i := 0;
    while i < |input|
      invariant 0 <= i <= |input|
      invariant output == Escaped(input[..i])
    {
      var c := input[i];
      output := output + EscapeChar(c);
      assert input[..i + 1] == input[..i] + [c];
      EscapedSnoc(input[..i], c);
      i := i + 1;
    }
    assert input[..i] == input;
    return output, EXIT_OK;
  }
}
