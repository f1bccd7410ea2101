/*
 * flatx: flatten an XML document into one row per element.  The parser
 * (expat) is outside the model: its callbacks become the methods of
 * Flattener below, and the positions it reports are inputs.
 *
 * This file holds the --order list parser, the row layout of
 * start_element, the element stack, and the char-extraction states.
 */
module Flatx {
  import opened Common

  // Exit statuses of flatx
  const EXIT_CLIARG := 2
  const EXIT_I64OFLOW := 6
  const EXIT_NO_ELEMENT := 7
  const EXIT_PANIC := 255

  /** The largest value of expat's signed 64 bit counters. */
  const MAX_INT64: nat := 0x7FFF_FFFF_FFFF_FFFF

  /** The longest --order list is one char less than its 25 char copy. */
  const ORDER_LIST_SIZE := 25

  // The messages of the --order checks, as die2 joins them
  const EMPTY_LIST := "option --order: empty order list"
  const LONG_LIST := "option --order: list too long"
  const UNEXPECTED_LIST := "option --order: unexpected order list: "
  const UNKNOWN_ORDER := "option --order: unknown order: "

  /** A call of die(status, msg), or a value. */
  datatype Outcome<T> = Ok(value: T) | Die(status: int, why: string)

  // The --order list

  /** The document orders a row may start with: ORDER_BYTE .. ORDER_ELEMENT. */
  datatype Order = Byte | Line | Column | Element

  function Code(o: Order): (c: int)
    ensures 1 <= c <= 4
  {
    match o
    case Byte => 1
    case Line => 2
    case Column => 3
    case Element => 4
  }

  // The names --order accepts
  const BYTE_NAME := "byte"
  const LINE_NAME := "line"
  const COLUMN_NAME := "column"
  const ELEMENT_NAME := "element"

  function OrderName(o: Order): string {
    match o
    case Byte => BYTE_NAME
    case Line => LINE_NAME
    case Column => COLUMN_NAME
    case Element => ELEMENT_NAME
  }

  /** scan_order: the order a word names; any other word is a command line error. */
  function ScanOrder(word: string): (r: Outcome<Order>)
    ensures r.Ok? ==> OrderName(r.value) == word
    ensures r.Die? ==> r.status == EXIT_CLIARG && forall o :: OrderName(o) != word
  {
    if word == BYTE_NAME then Ok(Byte)
    else if word == LINE_NAME then Ok(Line)
    else if word == COLUMN_NAME then Ok(Column)
    else if word == ELEMENT_NAME then Ok(Element)
    else Die(EXIT_CLIARG, UNKNOWN_ORDER + word)
  }

  /** Each order's name scans back to that order, and the four codes differ. */
  lemma ScanOrderName(o: Order, p: Order)
    ensures ScanOrder(OrderName(o)) == Ok(o)
    ensures Code(o) == Code(p) ==> o == p
  {
  }

  /** strchr from index i: the first comma at or after i, or the end of the list. */
  function Comma(s: string, i: nat): (k: nat)
    requires i <= |s|
    ensures i <= k <= |s|
    ensures k < |s| ==> s[k] == ','
    decreases |s| - i
  {
    if i == |s| || s[i] == ',' then i else Comma(s, i + 1)
  }

  /** The comma strchr finds is the first one: none lies between i and it. */
  lemma {:induction false} CommaFirst(s: string, i: nat)
    requires i <= |s|
    ensures forall m :: i <= m < Comma(s, i) ==> s[m] != ','
    decreases |s| - i
  {
    if i < |s| && s[i] != ',' {
      CommaFirst(s, i + 1);
    }
  }

  /** Put orders in front of a list the scan goes on to accept. */
  function Prepend(os: seq<Order>, r: Outcome<seq<Order>>): Outcome<seq<Order>> {
    if r.Ok? then Ok(os + r.value) else r
  }

  lemma PrependTwice(a: seq<Order>, b: seq<Order>, r: Outcome<seq<Order>>)
    ensures Prepend(a, Prepend(b, r)) == Prepend(a + b, r)
    ensures Prepend([], r) == r
  {
    if r.Ok? {
      assert a + (b + r.value) == (a + b) + r.value;
      assert [] + r.value == r.value;
    }
  }

  /** A single order, as a list. */
  function One(r: Outcome<Order>): Outcome<seq<Order>> {
    if r.Ok? then Ok([r.value]) else Die(r.status, r.why)
  }

  /**
   * The scan of the list from index `start`, with j orders read: the
   * first four comma-ended words are scanned one by one, the rest of
   * the list as a fifth word.  An empty rest is an unexpected list; the
   * message shows the list as the scan has cut it, its first word.
   */
  function Scan(s: string, start: nat, j: nat): Outcome<seq<Order>>
    requires start <= |s| && j <= 4
    decreases 4 - j
  {
    if j == 4 then One(ScanOrder(s[start..]))
    else if start == |s| then
      Die(EXIT_CLIARG, UNEXPECTED_LIST + s[..Comma(s, 0)])
    else
      var k := Comma(s, start);
      if k == |s| then One(ScanOrder(s[start..]))
      else
        var w := ScanOrder(s[start..k]);
        if w.Die? then Die(w.status, w.why) else Prepend([w.value], Scan(s, k + 1, j + 1))
  }

  /** One comma-ended word of the scan. */
  lemma ScanWord(s: string, start: nat, j: nat, k: nat, w: Order)
    requires start < |s| && j < 4 && k == Comma(s, start) < |s|
    requires ScanOrder(s[start..k]) == Ok(w)
    ensures Scan(s, start, j) == Prepend([w], Scan(s, k + 1, j + 1))
  {
  }

  /** A list that ends after a comma, or before its fifth word, is unexpected. */
  lemma ScanEmptyRest(s: string, start: nat, j: nat)
    requires start == |s| && j < 4
    ensures Scan(s, start, j) == Die(EXIT_CLIARG, UNEXPECTED_LIST + s[..Comma(s, 0)])
  {
  }

  /** A comma-ended word that names no order ends the scan with its error. */
  lemma ScanUnknown(s: string, start: nat, j: nat, k: nat)
    requires start < |s| && j < 4 && k == Comma(s, start) < |s|
    requires ScanOrder(s[start..k]).Die?
    ensures Scan(s, start, j) == Die(ScanOrder(s[start..k]).status, ScanOrder(s[start..k]).why)
  {
  }

  /** The word that ends the list: the fifth, or one with no comma after it. */
  lemma ScanFinal(s: string, start: nat, j: nat)
    requires start <= |s| && j <= 4
    requires j == 4 || (start < |s| && Comma(s, start) == |s|)
    ensures Scan(s, start, j) == One(ScanOrder(s[start..]))
  {
  }

  /** The value of --order: a non-empty list shorter than 25 chars, then its scan. */
  function OrderList(s: string): Outcome<seq<Order>> {
    if s == [] then Die(EXIT_CLIARG, EMPTY_LIST)
    else if |s| >= ORDER_LIST_SIZE then Die(EXIT_CLIARG, LONG_LIST)
    else Scan(s, 0, 0)
  }

  /** Order names joined by commas. */
  function JoinOrders(os: seq<Order>): string
    decreases |os|
  {
    if os == [] then []
    else if |os| == 1 then OrderName(os[0])
    else OrderName(os[0]) + "," + JoinOrders(os[1..])
  }

  /** No order name holds a comma. */
  lemma NameHasNoComma(o: Order)
    ensures forall m :: 0 <= m < |OrderName(o)| ==> OrderName(o)[m] != ','
  {
  }

  /** The comma that ends a word without commas is found right after it. */
  lemma {:induction false} CommaAfter(s: string, i: nat, n: nat)
    requires i + n <= |s|
    requires forall m :: i <= m < i + n ==> s[m] != ','
    requires i + n < |s| ==> s[i + n] == ','
    ensures Comma(s, i) == i + n
    decreases n
  {
    if n > 0 {
      CommaAfter(s, i + 1, n - 1);
    }
  }

  /** A single order name is the last word of the list. */
  lemma ScanLast(s: string, start: nat, j: nat, o: Order)
    requires start <= |s| && j <= 4 && s[start..] == OrderName(o)
    ensures Scan(s, start, j) == Ok([o])
  {
    ScanOrderName(o, o);
    if j < 4 {
      NameHasNoComma(o);
      CommaAfter(s, start, |OrderName(o)|);
    }
  }

  /** A word and a comma in front of the rest of the list. */
  lemma CutWord(s: string, start: nat, o: Order, rest: string)
    requires start <= |s| && s[start..] == OrderName(o) + "," + rest
    ensures Comma(s, start) < |s|
    ensures s[start..Comma(s, start)] == OrderName(o)
    ensures s[Comma(s, start) + 1..] == rest
  {
    var n := |OrderName(o)|;
    assert s[start..start + n] == s[start..][..n];
    assert s[start + n] == s[start..][n];
    assert s[start + n + 1..] == s[start..][n + 1..];
    NameHasNoComma(o);
    CommaAfter(s, start, n);
  }

  /** A joined list of one to 5 - j orders scans back to those orders. */
  lemma {:induction false} ScanJoined(s: string, start: nat, j: nat, os: seq<Order>)
    requires start <= |s| && j <= 4 && 1 <= |os| <= 5 - j
    requires s[start..] == JoinOrders(os)
    ensures Scan(s, start, j) == Ok(os)
    decreases |os|
  {
    if |os| == 1 {
      ScanLast(s, start, j, os[0]);
      assert os == [os[0]];
    } else {
      CutWord(s, start, os[0], JoinOrders(os[1..]));
      ScanOrderName(os[0], os[0]);
      ScanWord(s, start, j, Comma(s, start), os[0]);
      ScanJoined(s, Comma(s, start) + 1, j + 1, os[1..]);
      assert [os[0]] + os[1..] == os;
    }
  }

  /** A name in front of a non-empty joined list, with the comma between. */
  lemma JoinCons(o: Order, os: seq<Order>)
    requires os != []
    ensures JoinOrders([o] + os) == OrderName(o) + "," + JoinOrders(os)
  {
    assert ([o] + os)[1..] == os;
  }

  /** The list from start, cut at the comma at k. */
  lemma SplitAtComma(s: string, start: nat, k: nat)
    requires start <= k < |s| && s[k] == ','
    ensures s[start..] == s[start..k] + "," + s[k + 1..]
  {
  }

  /** What the scan accepts is a joined list of at most 5 - j orders. */
  lemma {:induction false} ScanAccepts(s: string, start: nat, j: nat)
    requires start <= |s| && j <= 4 && Scan(s, start, j).Ok?
    ensures var os := Scan(s, start, j).value;
      1 <= |os| <= 5 - j && s[start..] == JoinOrders(os)
    decreases 4 - j
  {
    if j < 4 && start < |s| {
      var k := Comma(s, start);
      if k < |s| {
        var w := ScanOrder(s[start..k]);
        ScanWord(s, start, j, k, w.value);
        ScanAccepts(s, k + 1, j + 1);
        var os := Scan(s, k + 1, j + 1).value;
        JoinCons(w.value, os);
        SplitAtComma(s, start, k);
      }
    }
  }

  /**
   * --order accepts exactly the comma-joined lists of one to five order
   * names shorter than 25 chars, and reads each back as written.
   */
  lemma OrderListExact(s: string, os: seq<Order>)
    ensures OrderList(s).Ok? ==>
      1 <= |OrderList(s).value| <= 5 && s == JoinOrders(OrderList(s).value)
    ensures 1 <= |os| <= 5 && |JoinOrders(os)| < ORDER_LIST_SIZE ==>
      OrderList(JoinOrders(os)) == Ok(os)
  {
    if OrderList(s).Ok? {
      ScanAccepts(s, 0, 0);
    }
    if 1 <= |os| <= 5 && |JoinOrders(os)| < ORDER_LIST_SIZE {
      var t := JoinOrders(os);
      assert t[0..] == t;
      ScanJoined(t, 0, 0, os);
      NameHasNoComma(os[0]);
    }
  }

  /** Without --order, rows start with the byte index. */
  function DefaultOrders(given: seq<Order>): (os: seq<Order>)
    ensures os != [] && (given != [] ==> os == given)
  {
    if given == [] then [Byte] else given
  }

  /** strchr(p, ','), as a loop over the list from index i. */
  method Strchr(s: string, i: nat) returns (k: nat)
    requires i <= |s|
    ensures k == Comma(s, i)
  {
    k := i;
    while k < |s| && s[k] != ','
      invariant i <= k <= |s| && Comma(s, i) == Comma(s, k)
    {
      k := k + 1;
    }
  }

  /**
   * The --order branch of main's argument loop: the checks on the
   * argument, then the loop that cuts the list at its commas.
   */
  method ParseOrderOption(arg: string) returns (r: Outcome<seq<Order>>)
    ensures r == OrderList(arg)
  {
    if arg == [] {
      return Die(EXIT_CLIARG, EMPTY_LIST);
    }
    if |arg| >= ORDER_LIST_SIZE {
      return Die(EXIT_CLIARG, LONG_LIST);
    }
    r := CutList(arg);
  }

  /** The loop of the --order branch: up to four comma-ended words, then the last. */
  method CutList(arg: string) returns (r: Outcome<seq<Order>>)
    ensures r == Scan(arg, 0, 0)
  {
    var orders: seq<Order> := [];
    var start, j := 0, 0;
    PrependTwice([], [], Scan(arg, 0, 0));
    while j < 4
      invariant start <= |arg| && j <= 4
      invariant Scan(arg, 0, 0) == Prepend(orders, Scan(arg, start, j))
      decreases 4 - j
    {
      if start == |arg| {
        var first := Strchr(arg, 0);
        ScanEmptyRest(arg, start, j);
        return Die(EXIT_CLIARG, UNEXPECTED_LIST + arg[..first]);
      }
      var k := Strchr(arg, start);
      if k == |arg| {
        break;
      }
      var w := ScanOrder(arg[start..k]);
      if w.Die? {
        ScanUnknown(arg, start, j, k);
        return Die(w.status, w.why);
      }
      ScanWord(arg, start, j, k, w.value);
      PrependTwice(orders, [w.value], Scan(arg, k + 1, j + 1));
      orders := orders + [w.value];
      start, j := k + 1, j + 1;
    }
    ScanFinal(arg, start, j);
    var last := ScanOrder(arg[start..]);
    r := Prepend(orders, One(last));
  }

  // The row of start_element

  /** Where expat says the element starts: byte index, line and column. */
  datatype Pos = Pos(byte: nat, line: nat, column: nat)

  /**
   * The settings main leaves for start_element: the --prefix-fields id,
   * the orders, and the path, field and row separators.
   */
  datatype Config = Config(prefix: Option<string>, orders: seq<Order>,
                           pathSep: string, fieldSep: string, rowSep: string)

  /**
   * What writing (part of) a row leaves: everything written so far, the
   * element order, and whether the element order hit its limit.
   */
  datatype Emit = Emit(text: string, count: nat, overflow: bool)

  /** The decimal text of one order field; the element order is the count so far. */
  function FieldText(o: Order, pos: Pos, count: nat): string {
    match o
    case Byte => Decimal(pos.byte)
    case Line => Decimal(pos.line)
    case Column => Decimal(pos.column)
    case Element => Decimal(count)
  }

  /** The element order after a field of order o. */
  function After(o: Order, count: nat): nat {
    if o == Element then count + 1 else count
  }

  /**
   * Whether a field separator goes before order field j.  As written the
   * test is `o - 1 > orders` with o at field j, true from the third
   * field on; the evident intent is from the second field on.  With a
   * prefix both write it before every field.
   */
  predicate SepBefore(cfg: Config, j: nat, asWritten: bool) {
    cfg.prefix.Some? || (if asWritten then j >= 2 else j >= 1)
  }

  /**
   * The output once order fields j and on are written after `out`.  An
   * element field whose order has reached the signed 64 bit limit dies
   * with exit 6 after its separator was written.
   */
  function Fields(cfg: Config, pos: Pos, j: nat, count: nat, asWritten: bool, out: string): Emit
    requires j <= |cfg.orders|
    decreases |cfg.orders| - j
  {
    if j == |cfg.orders| then Emit(out, count, false)
    else
      var o := cfg.orders[j];
      var sepd := if SepBefore(cfg, j, asWritten) then out + cfg.fieldSep else out;
      if o == Element && count == MAX_INT64 then Emit(sepd, count, true)
      else Fields(cfg, pos, j + 1, After(o, count), asWritten, sepd + FieldText(o, pos, count))
  }

  /** The output once the path separator and name of path[i], path[i + 1], .. follow `out`. */
  function PathOnto(out: string, path: seq<string>, i: nat, sep: string): string
    requires i <= |path|
    decreases |path| - i
  {
    if i == |path| then out else PathOnto(out + sep + path[i], path, i + 1, sep)
  }

  /**
   * The output once start_element has written its row after `out`: the
   * prefix, the order fields, a field separator when either came
   * before, the branch of the tree, the row separator.
   */
  function RowOf(cfg: Config, pos: Pos, count: nat, path: seq<string>, asWritten: bool, out: string): Emit {
    var head := if cfg.prefix.Some? then out + cfg.prefix.value else out;
    var f := Fields(cfg, pos, 0, count, asWritten, head);
    if f.overflow then f
    else
      var body := if |cfg.orders| > 0 || cfg.prefix.Some? then f.text + cfg.fieldSep else f.text;
      Emit(PathOnto(body, path, 0, cfg.pathSep) + cfg.rowSep, f.count, false)
  }

  /** The row as the code writes it. */
  function RowAsWritten(cfg: Config, pos: Pos, count: nat, path: seq<string>, out: string): Emit {
    RowOf(cfg, pos, count, path, true, out)
  }

  /** The row with a separator between every two order fields. */
  function Row(cfg: Config, pos: Pos, count: nat, path: seq<string>, out: string): Emit {
    RowOf(cfg, pos, count, path, false, out)
  }

  /** The number of element fields among the orders from j on. */
  function Elements(orders: seq<Order>, j: nat): nat
    requires j <= |orders|
  {
    multiset(orders[j..])[Element]
  }

  /**
   * The element order goes up by one for each element field of the row,
   * and the row dies with exit 6 exactly when a field would print the
   * signed 64 bit limit.
   */
  lemma {:induction false} FieldsCount(cfg: Config, pos: Pos, j: nat, count: nat, asWritten: bool, out: string)
    requires j <= |cfg.orders| && count <= MAX_INT64
    ensures var f := Fields(cfg, pos, j, count, asWritten, out);
      (!f.overflow <==> count + Elements(cfg.orders, j) <= MAX_INT64) &&
      (!f.overflow ==> f.count == count + Elements(cfg.orders, j))
    decreases |cfg.orders| - j
  {
    if j < |cfg.orders| {
      var o := cfg.orders[j];
      assert cfg.orders[j..] == [o] + cfg.orders[j + 1..];
      assert Elements(cfg.orders, j) == (if o == Element then 1 else 0) + Elements(cfg.orders, j + 1);
      if !(o == Element && count == MAX_INT64) {
        var sepd := if SepBefore(cfg, j, asWritten) then out + cfg.fieldSep else out;
        FieldsCount(cfg, pos, j + 1, After(o, count), asWritten, sepd + FieldText(o, pos, count));
      }
    }
  }

  /** Each field's text, the element order counting up at each element field. */
  function Texts(cfg: Config, pos: Pos, j: nat, count: nat): seq<string>
    requires j <= |cfg.orders|
    decreases |cfg.orders| - j
  {
    if j == |cfg.orders| then []
    else [FieldText(cfg.orders[j], pos, count)] + Texts(cfg, pos, j + 1, After(cfg.orders[j], count))
  }

  /**
   * The element field at k, with no element field before it, prints the
   * element order the row started with.
   */
  lemma {:induction false} ElementFieldAt(cfg: Config, pos: Pos, j: nat, k: nat, count: nat)
    requires j <= k < |cfg.orders| && cfg.orders[k] == Element
    requires forall i :: j <= i < k ==> cfg.orders[i] != Element
    ensures |Texts(cfg, pos, j, count)| > k - j
    ensures Texts(cfg, pos, j, count)[k - j] == Decimal(count)
    decreases k - j
  {
    if j < k {
      ElementFieldAt(cfg, pos, j + 1, k, count);
    }
  }

  /**
   * A fresh flattener's element order is 0, and start_element prints it
   * before counting up: the first row's element field is "0", not 1.
   */
  lemma FirstElementOrderZero(cfg: Config, pos: Pos, k: nat)
    requires k < |cfg.orders| && cfg.orders[k] == Element
    requires forall i :: 0 <= i < k ==> cfg.orders[i] != Element
    ensures |Texts(cfg, pos, 0, 0)| > k && Texts(cfg, pos, 0, 0)[k] == "0"
  {
    ElementFieldAt(cfg, pos, 0, k, 0);
    assert Decimal(0) == "0";
  }

  /** Each text with a separator in front of it. */
  function Separated(ts: seq<string>, sep: string): string
    decreases |ts|
  {
    if ts == [] then [] else sep + ts[0] + Separated(ts[1..], sep)
  }

  /** The texts with a separator between every two. */
  function Join(ts: seq<string>, sep: string): string {
    if ts == [] then [] else ts[0] + Separated(ts[1..], sep)
  }

  /** Once a separator is due, every later field has one in front. */
  lemma {:induction false} FieldsSeparated(cfg: Config, pos: Pos, j: nat, count: nat, out: string)
    requires j <= |cfg.orders| && SepBefore(cfg, j, false)
    requires !Fields(cfg, pos, j, count, false, out).overflow
    ensures Fields(cfg, pos, j, count, false, out).text == out + Separated(Texts(cfg, pos, j, count), cfg.fieldSep)
    decreases |cfg.orders| - j
  {
    if j < |cfg.orders| {
      var o := cfg.orders[j];
      var fs := cfg.fieldSep;
      var t := FieldText(o, pos, count);
      FieldsSeparated(cfg, pos, j + 1, After(o, count), out + fs + t);
      var ts := Texts(cfg, pos, j, count);
      assert ts[0] == t;
      assert ts[1..] == Texts(cfg, pos, j + 1, After(o, count));
      var rest := Separated(ts[1..], fs);
      assert (out + fs + t) + rest == out + (fs + t + rest);
    }
  }

  /** The order fields alone: joined, after one separator when a prefix came first. */
  lemma FieldsJoined(cfg: Config, pos: Pos, count: nat, out: string)
    requires |cfg.orders| > 0 && !Fields(cfg, pos, 0, count, false, out).overflow
    ensures var fs := cfg.fieldSep;
      Fields(cfg, pos, 0, count, false, out).text ==
        out + (if cfg.prefix.Some? then fs else []) + Join(Texts(cfg, pos, 0, count), fs)
  {
    var ts := Texts(cfg, pos, 0, count);
    var fs := cfg.fieldSep;
    if cfg.prefix.Some? {
      FieldsSeparated(cfg, pos, 0, count, out);
      assert Separated(ts, fs) == fs + ts[0] + Separated(ts[1..], fs);
      assert out + (fs + ts[0] + Separated(ts[1..], fs)) == out + fs + (ts[0] + Separated(ts[1..], fs));
    } else {
      var o := cfg.orders[0];
      FieldsSeparated(cfg, pos, 1, After(o, count), out + ts[0]);
      assert ts[1..] == Texts(cfg, pos, 1, After(o, count));
      assert out + ts[0] + Separated(ts[1..], fs) == out + [] + (ts[0] + Separated(ts[1..], fs));
    }
  }

  /** The path onto the output is the output followed by the separated names. */
  lemma {:induction false} PathOntoText(out: string, path: seq<string>, i: nat, sep: string)
    requires i <= |path|
    ensures PathOnto(out, path, i, sep) == out + Separated(path[i..], sep)
    decreases |path| - i
  {
    if i < |path| {
      PathOntoText(out + sep + path[i], path, i + 1, sep);
      assert path[i..][1..] == path[i + 1..];
      var rest := Separated(path[i + 1..], sep);
      assert out + sep + path[i] + rest == out + (sep + path[i] + rest);
    }
  }

  /**
   * The row separates every two of its fields: the prefix (when given)
   * and each order field are joined by the field separator, one more
   * goes before the path, and each element name follows a path separator.
   */
  lemma RowSeparatesFields(cfg: Config, pos: Pos, count: nat, path: seq<string>)
    requires |cfg.orders| > 0 && !Row(cfg, pos, count, path, []).overflow
    ensures var fs := cfg.fieldSep;
      Row(cfg, pos, count, path, []).text ==
        (if cfg.prefix.Some? then cfg.prefix.value + fs else [])
        + Join(Texts(cfg, pos, 0, count), fs) + fs + Separated(path, cfg.pathSep) + cfg.rowSep
  {
    var fs := cfg.fieldSep;
    var head: string := if cfg.prefix.Some? then [] + cfg.prefix.value else [];
    var joined := Join(Texts(cfg, pos, 0, count), fs);
    FieldsJoined(cfg, pos, count, head);
    var f := Fields(cfg, pos, 0, count, false, head);
    PathOntoText(f.text + fs, path, 0, cfg.pathSep);
    assert path[0..] == path;
    var pre: string := if cfg.prefix.Some? then cfg.prefix.value + fs else [];
    assert f.text == pre + joined by {
      if cfg.prefix.Some? {
        assert head + fs + joined == cfg.prefix.value + fs + joined;
      } else {
        assert head + [] + joined == joined;
      }
    }
  }

  /** The two readings of the separator test differ only between the first two fields. */
  lemma {:induction false} FieldsAgree(cfg: Config, pos: Pos, j: nat, count: nat, out: string)
    requires j <= |cfg.orders|
    requires cfg.prefix.Some? || |cfg.orders| <= 1 || j >= 2
    ensures Fields(cfg, pos, j, count, true, out) == Fields(cfg, pos, j, count, false, out)
    decreases |cfg.orders| - j
  {
    if j < |cfg.orders| {
      var o := cfg.orders[j];
      var sepd := if SepBefore(cfg, j, false) then out + cfg.fieldSep else out;
      FieldsAgree(cfg, pos, j + 1, After(o, count), sepd + FieldText(o, pos, count));
    }
  }

  /** With a prefix, or at most one order, the row as written is the intended row. */
  lemma RowsAgree(cfg: Config, pos: Pos, count: nat, path: seq<string>, out: string)
    requires cfg.prefix.Some? || |cfg.orders| <= 1
    ensures RowAsWritten(cfg, pos, count, path, out) == Row(cfg, pos, count, path, out)
  {
    FieldsAgree(cfg, pos, 0, count, if cfg.prefix.Some? then out + cfg.prefix.value else out);
  }

  /** The texts as the code joins them: the first two run together, a separator before each later one. */
  function JoinAsWritten(ts: seq<string>, sep: string): string {
    if |ts| < 2 then Join(ts, sep) else ts[0] + ts[1] + Separated(ts[2..], sep)
  }

  /**
   * The order fields as written: after a prefix, each field has a
   * separator in front; without one, the first two fields run together.
   */
  lemma FieldsJoinedAsWritten(cfg: Config, pos: Pos, count: nat, out: string)
    requires |cfg.orders| > 0 && !Fields(cfg, pos, 0, count, true, out).overflow
    ensures var fs := cfg.fieldSep; var ts := Texts(cfg, pos, 0, count);
      Fields(cfg, pos, 0, count, true, out).text ==
        out + (if cfg.prefix.Some? then fs + Join(ts, fs) else JoinAsWritten(ts, fs))
  {
    var ts := Texts(cfg, pos, 0, count);
    var fs := cfg.fieldSep;
    if cfg.prefix.Some? || |cfg.orders| == 1 {
      FieldsAgree(cfg, pos, 0, count, out);
      FieldsJoined(cfg, pos, count, out);
      if cfg.prefix.Some? {
        assert out + fs + Join(ts, fs) == out + (fs + Join(ts, fs));
      } else {
        assert out + [] + Join(ts, fs) == out + Join(ts, fs);
      }
    } else {
      GluedFields(cfg, pos, count, out);
    }
  }

  /** Without a prefix and with two orders or more, the first two fields run together. */
  lemma GluedFields(cfg: Config, pos: Pos, count: nat, out: string)
    requires cfg.prefix.None? && |cfg.orders| >= 2 && !Fields(cfg, pos, 0, count, true, out).overflow
    ensures var ts := Texts(cfg, pos, 0, count);
      Fields(cfg, pos, 0, count, true, out).text == out + JoinAsWritten(ts, cfg.fieldSep)
  {
    var o0, o1 := cfg.orders[0], cfg.orders[1];
    var c1 := After(o0, count);
    var c2 := After(o1, c1);
    var t0, t1 := FieldText(o0, pos, count), FieldText(o1, pos, c1);
    var ts := Texts(cfg, pos, 0, count);
    assert ts[0] == t0 && ts[1..] == Texts(cfg, pos, 1, c1);
    assert ts[1] == t1 && ts[2..] == Texts(cfg, pos, 2, c2);
    assert Fields(cfg, pos, 0, count, true, out) == Fields(cfg, pos, 2, c2, true, out + t0 + t1);
    FieldsAgree(cfg, pos, 2, c2, out + t0 + t1);
    FieldsSeparated(cfg, pos, 2, c2, out + t0 + t1);
    assert out + t0 + t1 + Separated(ts[2..], cfg.fieldSep) == out + (t0 + t1 + Separated(ts[2..], cfg.fieldSep));
  }

  /**
   * The row start_element writes: the prefix and the order fields as
   * FieldsJoinedAsWritten lays them out, a field separator, each
   * element name after a path separator, and the row separator.
   */
  lemma RowAsWrittenLayout(cfg: Config, pos: Pos, count: nat, path: seq<string>)
    requires |cfg.orders| > 0 && !RowAsWritten(cfg, pos, count, path, []).overflow
    ensures var fs := cfg.fieldSep; var ts := Texts(cfg, pos, 0, count);
      RowAsWritten(cfg, pos, count, path, []).text ==
        (if cfg.prefix.Some? then cfg.prefix.value + fs + Join(ts, fs) else JoinAsWritten(ts, fs))
        + fs + Separated(path, cfg.pathSep) + cfg.rowSep
  {
    var fs := cfg.fieldSep;
    var ts := Texts(cfg, pos, 0, count);
    var head: string := if cfg.prefix.Some? then [] + cfg.prefix.value else [];
    FieldsJoinedAsWritten(cfg, pos, count, head);
    var f := Fields(cfg, pos, 0, count, true, head);
    PathOntoText(f.text + fs, path, 0, cfg.pathSep);
    assert path[0..] == path;
    var fields: string := if cfg.prefix.Some? then cfg.prefix.value + fs + Join(ts, fs) else JoinAsWritten(ts, fs);
    assert f.text == fields by {
      if cfg.prefix.Some? {
        assert head + (fs + Join(ts, fs)) == cfg.prefix.value + fs + Join(ts, fs);
      } else {
        assert head + JoinAsWritten(ts, fs) == JoinAsWritten(ts, fs);
      }
    }
  }

  /**
   * Without a prefix, `--order byte,line` runs the first two fields
   * together: byte index 12 on line 3 prints "123" where "12<tab>3" is meant.
   */
  lemma RowAsWrittenGlues()
    ensures var cfg := Config(None, [Byte, Line], "/", "\t", "\n");
      var pos := Pos(12, 3, 7);
      RowAsWritten(cfg, pos, 0, ["a"], []).text == "123\t/a\n" &&
      Row(cfg, pos, 0, ["a"], []).text == "12\t3\t/a\n"
  {
    var cfg := Config(None, [Byte, Line], "/", "\t", "\n");
    var pos := Pos(12, 3, 7);
    assert Decimal(12) == "12" && Decimal(3) == "3";
    assert Fields(cfg, pos, 0, 0, true, []).text == "123";
    assert Fields(cfg, pos, 0, 0, false, []).text == "12\t3";
    assert PathOnto("123\t", ["a"], 0, "/") == "123\t/a";
    assert PathOnto("12\t3\t", ["a"], 0, "/") == "12\t3\t/a";
  }

  // The element stack and the parser callbacks

  const INIT_ELEMENT_STACK_SIZE := 64

  /**
   * One slot of the element stack: the size of its name buffer, the
   * name last pushed into it, and in_char_twig.
   */
  datatype Slot = Slot(alloc: nat, name: string, inTwig: bool)

  /** A slot as calloc, or the growth of the stack, leaves it. */
  const EMPTY_SLOT := Slot(0, [], false)

  /** The char-extraction state of --char-byte-index. */
  datatype CharState = Off | Search | Extracting | Done

  function Names(ss: seq<Slot>): (names: seq<string>)
    ensures |names| == |ss| && forall i :: 0 <= i < |ss| ==> names[i] == ss[i].name
  {
    seq(|ss|, i requires 0 <= i < |ss| => ss[i].name)
  }

  /** The exit of main once the document is parsed, by the char state it ends in. */
  function Verdict(state: CharState, target: nat): Outcome<()> {
    match state
    case Off => Ok(())
    case Search => Die(EXIT_NO_ELEMENT, "byte index: " + Decimal(target))
    case Extracting => Die(EXIT_PANIC, "impossible CHAR_STATE_EXTRACTING")
    case Done => Ok(())
  }

  /**
   * The state flatx keeps between expat's callbacks: the element stack
   * (elements, element_next, element_limit), element_order, char_state,
   * and what it has written to standard output.
   */
  class Flattener {
    const cfg: Config
    /** char_byte_index: the byte index of the element to extract. */
    const target: nat
    var slots: array<Slot>
    /** The depth: element_next - elements. */
    var top: nat
    var elementOrder: nat
    var charState: CharState
    var out: seq<char>
    /** The slot whose element is being extracted. */
    ghost var twig: nat

    /**
     * The stack has room and every name fits its buffer; only the slot
     * of the element being extracted is marked, and it is still open.
     */
    ghost predicate Valid()
      reads this, slots
    {
      0 < slots.Length && top <= slots.Length && elementOrder <= MAX_INT64 &&
      (forall i :: 0 <= i < slots.Length ==> |slots[i].name| <= slots[i].alloc) &&
      (charState == Extracting ==> twig < top && slots[twig].inTwig) &&
      (forall i :: 0 <= i < slots.Length && slots[i].inTwig ==> charState == Extracting && i == twig)
    }

    /** The names of the open elements, outermost first. */
    function Path(): seq<string>
      reads this, slots
      requires top <= slots.Length
    {
      Names(slots[..top])
    }

    /**
     * The state main sets up: an empty stack of 64 slots, element order 0,
     * and, with --char-byte-index, the search for the element at that index.
     */
    constructor (cfg: Config, extract: Option<nat>)
      ensures Valid() && this.cfg == cfg && out == [] && elementOrder == 0
      ensures top == 0 && slots.Length == INIT_ELEMENT_STACK_SIZE
      ensures forall i :: 0 <= i < slots.Length ==> slots[i] == EMPTY_SLOT
      ensures charState == (if extract.Some? then Search else Off)
      ensures extract.Some? ==> target == extract.value
    {
      this.cfg := cfg;
      target := if extract.Some? then extract.value else 0;
      slots := new Slot[INIT_ELEMENT_STACK_SIZE](_ => EMPTY_SLOT);
      top, elementOrder, out := 0, 0, [];
      charState := if extract.Some? then Search else Off;
      twig := 0;
    }

    /**
     * The growth of a full stack: twice the slots, the old ones kept,
     * the new ones zeroed.
     */
    method Grow()
      requires Valid() && top == slots.Length
      modifies this
      ensures Valid() && fresh(slots) && slots.Length == 2 * old(slots.Length)
      ensures forall i :: 0 <= i < old(slots.Length) ==> slots[i] == old(slots[i])
      ensures forall i :: old(slots.Length) <= i < slots.Length ==> slots[i] == EMPTY_SLOT
      ensures top == old(top) && elementOrder == old(elementOrder) && charState == old(charState)
      ensures out == old(out) && twig == old(twig)
    {
      var s := slots.Length;
      var limit := s * 2;
      var grown := new Slot[limit];
      forall i | 0 <= i < s {
        grown[i] := slots[i];
      }
      assert forall m :: 0 <= m < s ==> grown[m] == slots[m];
      var i := s;
      while i < limit
        invariant s <= i <= limit
        invariant forall m :: 0 <= m < s ==> grown[m] == slots[m]
        invariant forall m :: s <= m < i ==> grown[m] == EMPTY_SLOT
        modifies grown
      {
        grown[i] := EMPTY_SLOT;
        i := i + 1;
      }
      slots := grown;
    }

    /**
     * push_element: grow the stack when it is full, then put the name in
     * the next slot, whose buffer grows to the name's length when that is
     * longer and never shrinks.
     */
    method PushElement(name: string) returns (e: nat)
      requires Valid()
      modifies this, slots
      ensures Valid() && e == old(top) && top == e + 1 && e < slots.Length
      ensures slots == old(slots) || fresh(slots)
      ensures Path() == old(Path()) + [name]
      ensures slots.Length == if old(top) == old(slots.Length) then 2 * old(slots.Length) else old(slots.Length)
      ensures var before := if e < old(slots.Length) then old(slots[e].alloc) else 0;
        slots[e] == Slot(if |name| > before then |name| else before, name, false)
      ensures forall i :: 0 <= i < slots.Length && i != e ==>
        slots[i] == if i < old(slots.Length) then old(slots[i]) else EMPTY_SLOT
      ensures elementOrder == old(elementOrder) && charState == old(charState)
      ensures out == old(out) && twig == old(twig)
    {
      if top >= slots.Length {
        Grow();
      }
      e := top;
      var slot := slots[e];
      var alloc := if |name| > slot.alloc then |name| else slot.alloc;
      slots[e] := Slot(alloc, name, slot.inTwig);
      top := top + 1;
      assert slots[..top] == old(slots[..top]) + [slots[e]] by {
        forall i | 0 <= i < e
          ensures slots[i] == old(slots[i])
        {
        }
      }
    }

    /**
     * end_element, the handler when no char is extracted: pop one
     * element; popping an empty stack is a panic.
     */
    method EndElement() returns (r: Outcome<()>)
      requires Valid() && charState == Off
      modifies this
      ensures Valid() && slots == old(slots)
      ensures r.Die? <==> old(top) == 0
      ensures r.Die? ==> r.status == EXIT_PANIC && top == old(top)
      ensures r.Ok? ==> top == old(top) - 1 && Path() == old(Path())[..top]
      ensures elementOrder == old(elementOrder) && charState == old(charState)
      ensures out == old(out) && twig == old(twig)
    {
      if top == 0 {
        return Die(EXIT_PANIC, "end_element: element stack underflow");
      }
      top := top - 1;
      r := Ok(());
    }
  
    /**
     * char_start_element: push the element; while searching, the element
     * that starts at the target byte index is marked and extraction begins.
     */
    method CharStartElement(name: string, byteIndex: nat)
      requires Valid() && charState != Off
      modifies this, slots
      ensures Valid() && top == old(top) + 1 && Path() == old(Path()) + [name]
      ensures charState == if old(charState) == Search && byteIndex == target then Extracting else old(charState)
      ensures charState == Extracting && old(charState) != Extracting ==> twig == top - 1
      ensures elementOrder == old(elementOrder) && out == old(out)
    {
      var e := PushElement(name);
      if charState == Search && target == byteIndex {
        slots[e] := slots[e].(inTwig := true);
        charState := Extracting;
        twig := e;
        assert Names(slots[..top]) == Names(old(slots[..top])) + [name] by {
          assert forall m :: 0 <= m < e ==> slots[m] == old(slots[m]);
        }
      }
    }

    /**
     * char_end_element: pop one element, a panic on an empty stack; the
     * end of the marked element ends the extraction.
     */
    method CharEndElement() returns (r: Outcome<()>)
      requires Valid() && charState != Off
      modifies this, slots
      ensures Valid() && slots == old(slots)
      ensures r.Die? <==> old(top) == 0
      ensures r.Die? ==> r.status == EXIT_PANIC && top == old(top) && charState == old(charState)
      ensures r.Ok? ==> top == old(top) - 1 && Path() == old(Path())[..top]
      ensures r.Ok? ==> charState == if old(charState) == Extracting && old(twig) == top then Done else old(charState)
      ensures elementOrder == old(elementOrder) && out == old(out)
    {
      if top == 0 {
        return Die(EXIT_PANIC, "end_element: element stack underflow");
      }
      top := top - 1;
      r := Ok(());
      var e := slots[top];
      if e.inTwig {
        slots[top] := e.(inTwig := false);
        charState := Done;
      }
      assert Names(slots[..top]) == Names(old(slots[..top]))[..top];
    }

    /** character_data: text is written only while the marked element is open. */
    method CharacterData(data: string)
      requires Valid()
      modifies this
      ensures Valid() && out == old(out) + (if charState == Extracting then data else [])
      ensures slots == old(slots) && top == old(top) && charState == old(charState)
      ensures elementOrder == old(elementOrder) && twig == old(twig)
    {
      if charState == Extracting {
        out := out + data;
      }
    }

    /**
     * The end of main: no element at the target index exits 7; an
     * extraction still open is a panic, which a closed document rules out.
     */
    method Finish() returns (r: Outcome<()>)
      requires Valid()
      ensures r == Verdict(charState, target)
      ensures r.Die? <==> charState in {Search, Extracting}
      ensures top == 0 ==> r.Ok? || r.status == EXIT_NO_ELEMENT
    {
      match charState
      case Off => r := Ok(());
      case Search => r := Die(EXIT_NO_ELEMENT, "byte index: " + Decimal(target));
      case Extracting => r := Die(EXIT_PANIC, "impossible CHAR_STATE_EXTRACTING");
      case Done => r := Ok(());
    }

    /**
     * start_element: push the element, then write its row: the prefix,
     * the order fields, a field separator, the path and the row separator.
     * The element order reaching the signed 64 bit limit exits 6.
     */
    method StartElement(name: string, pos: Pos) returns (r: Outcome<()>)
      requires Valid() && charState == Off
      modifies this, slots
      ensures Valid() && top == old(top) + 1 && Path() == old(Path()) + [name]
      ensures var row := RowAsWritten(cfg, pos, old(elementOrder), Path(), old(out));
        out == row.text && elementOrder == row.count &&
        (r.Die? <==> row.overflow) && (r.Die? ==> r.status == EXIT_I64OFLOW)
      ensures charState == old(charState)
    {
      var e := PushElement(name);
      r := WriteRow(pos);
    }

    /** The row of start_element, for the stack as it is after the push. */
    method WriteRow(pos: Pos) returns (r: Outcome<()>)
      requires top <= slots.Length && elementOrder <= MAX_INT64
      modifies this
      ensures slots == old(slots) && top == old(top) && charState == old(charState) && twig == old(twig)
      ensures var row := RowAsWritten(cfg, pos, old(elementOrder), Path(), old(out));
        out == row.text && elementOrder == row.count &&
        (r.Die? <==> row.overflow) && (r.Die? ==> r.status == EXIT_I64OFLOW)
      ensures elementOrder <= MAX_INT64
    {
      if cfg.prefix.Some? {
        out := out + cfg.prefix.value;
      }
      var overflow := WriteFields(pos);
      if overflow {
        return Die(EXIT_I64OFLOW, "element order too big");
      }
      if |cfg.orders| > 0 || cfg.prefix.Some? {
        out := out + cfg.fieldSep;
      }
      WritePath();
      out := out + cfg.rowSep;
      r := Ok(());
    }

    /** The loop over the orders of start_element, with its separator test as written. */
    method WriteFields(pos: Pos) returns (overflow: bool)
      requires elementOrder <= MAX_INT64
      modifies this
      ensures Fields(cfg, pos, 0, old(elementOrder), true, old(out)) == Emit(out, elementOrder, overflow)
      ensures elementOrder <= MAX_INT64
      ensures slots == old(slots) && top == old(top) && charState == old(charState) && twig == old(twig)
    {
      var count: nat, o := elementOrder, out;
      var j := 0;
      while j < |cfg.orders|
        invariant j <= |cfg.orders| && count <= MAX_INT64
        invariant Fields(cfg, pos, j, count, true, o) == Fields(cfg, pos, 0, old(elementOrder), true, old(out))
        decreases |cfg.orders| - j
      {
        if SepBefore(cfg, j, true) {
          o := o + cfg.fieldSep;
        }
        var order := cfg.orders[j];
        if order == Element && count == MAX_INT64 {
          out, elementOrder, overflow := o, count, true;
          return;
        }
        o := o + FieldText(order, pos, count);
        count := After(order, count);
        j := j + 1;
      }
      out, elementOrder, overflow := o, count, false;
    }

    /** The loop over the stack of start_element: each name after the path separator. */
    method WritePath()
      requires top <= slots.Length
      modifies this
      ensures slots == old(slots) && top == old(top) && charState == old(charState)
      ensures elementOrder == old(elementOrder) && twig == old(twig)
      ensures out == PathOnto(old(out), Path(), 0, cfg.pathSep)
    {
      var path := Path();
      var o := out;
      var i := 0;
      while i < top
        invariant i <= top
        invariant PathOnto(o, path, i, cfg.pathSep) == PathOnto(out, path, 0, cfg.pathSep)
      {
        o := o + cfg.pathSep;
        o := o + slots[i].name;
        i := i + 1;
      }
      out := o;
    }
  }
}
