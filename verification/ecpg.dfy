/*
 * The handler of SQL faults for embedded SQL (ecpg) programs: it builds
 * a message from the fault's SQLSTATE and error text, lets a caller's
 * table of SQLSTATE codes ignore the fault or pick the exit status, and
 * dies.  The sqlca record the PostgreSQL library fills in is an input.
 */
module Ecpg {
  import opened Common
  import CString

  /** The exit statuses used when the table does not pick one. */
  datatype Codes = Codes(error: int, warn: int)

  /** jmscott_ecpg_error_code and jmscott_ecpg_warn_code as initialised. */
  const DEFAULT_CODES := Codes(127, 126)

  /** The size of the message buffer. */
  const MSG_SIZE := 4096

  const MISSING_STATE := ": (WARN: missing sql state)"
  const NOT_PG := "jmscott_ecpg_fault: not compiled with postgresql"

  /**
   * One entry of a jmscott_ecpg_state_fault table before its null
   * sentinel: an SQLSTATE code and the action, -1 to ignore the fault
   * or 0..255 for the exit status.
   */
  datatype StateFault = StateFault(sqlState: string, action: int)

  /**
   * The parts of sqlca the handler reads: the five SQLSTATE chars and
   * the error message buffer with its length.
   */
  datatype Sqlca = Sqlca(sqlstate: seq<char>, sqlerrmc: seq<char>, sqlerrml: int)

  predicate WellFormed(ca: Sqlca) {
    |ca.sqlstate| == 5 && ca.sqlerrml <= |ca.sqlerrmc|
  }

  /** What the handler does: return to the caller, or die with a status and a message. */
  datatype Effect = Return | Die(status: int, msg: string)

  /** The SQLSTATE as the C string copied out of sqlca. */
  function State(ca: Sqlca): string
    requires WellFormed(ca)
  {
    UpToNul(ca.sqlstate)
  }

  /** The error text: sqlerrml chars of sqlerrmc, read as a C string. */
  function ErrText(ca: Sqlca): string
    requires WellFormed(ca) && ca.sqlerrml > 0
  {
    UpToNul(ca.sqlerrmc[..ca.sqlerrml])
  }

  /**
   * The message left in the buffer by jmscott_strcat of each part in
   * turn: the parts joined, cut to one char less than the buffer
   * (CString.CatAllText).
   */
  function Message(parts: seq<string>): string {
    CString.Truncate(CString.Flatten(parts), MSG_SIZE - 1)
  }

  /** The index of the first table entry for the state, or the table's length. */
  function Lookup(state: string, table: seq<StateFault>): (i: nat)
    ensures i <= |table|
    ensures i < |table| ==> table[i].sqlState == state
    ensures forall k :: 0 <= k < i ==> table[k].sqlState != state
  {
    if table == [] then 0
    else if table[0].sqlState == state then 0
    else 1 + Lookup(state, table[1..])
  }

  /** The parts of the message: "SQL" and what, the state or a warning that it is missing, the error text. */
  function Parts(what: string, ca: Sqlca): seq<string>
    requires WellFormed(ca)
  {
    var head := if ca.sqlstate[0] != NUL then ["SQL", what, ": ", State(ca)] else ["SQL", what, MISSING_STATE];
    if ca.sqlerrml > 0 then head + [": ", ErrText(ca)] else head
  }

  /**
   * jmscott_ecpg_fault(status, what, fault): without PostgreSQL a fixed
   * death with 127; with it, a fault whose state the table maps to -1 is
   * ignored, one mapped to 0..255 dies with that status, any other dies
   * with the given status.
   */
  function FaultEffect(status: int, what: string, fault: Option<seq<StateFault>>, ca: Sqlca, pg: bool): Effect
    requires WellFormed(ca)
  {
    if !pg then Die(127, NOT_PG)
    else
      var msg := Message(Parts(what, ca));
      if ca.sqlstate[0] == NUL || fault.None? then Die(status, msg)
      else
        var table := fault.value;
        var i := Lookup(State(ca), table);
        if i == |table| then Die(status, msg)
        else if table[i].action == -1 then Return
        else if 0 <= table[i].action <= 255 then Die(table[i].action, msg)
        else Die(status, msg)
  }

  /** The scan `while (fault->sql_state)` up to the first entry for the state. */
  method ScanFaults(state: string, table: seq<StateFault>) returns (i: nat)
    ensures i == Lookup(state, table)
  {
    i := 0;
    while i < |table| && table[i].sqlState != state
      invariant i <= |table| && Lookup(state, table) == i + Lookup(state, table[i..])
    {
      assert table[i..][1..] == table[i + 1..];
      i := i + 1;
    }
  }

  /** jmscott_ecpg_fault, step by step; pg says whether it was built with PostgreSQL. */
  method EcpgFault(status: int, what: string, fault: Option<seq<StateFault>>, ca: Sqlca, pg: bool)
    returns (e: Effect)
    requires WellFormed(ca)
    ensures e == FaultEffect(status, what, fault, ca, pg)
  {
    if !pg {
      return Die(127, NOT_PG);
    }
    var parts := ["SQL", what];
    var st := status;
    if ca.sqlstate[0] != NUL {
      var state := UpToNul(ca.sqlstate);
      parts := parts + [": ", state];
      if fault.Some? {
        var table := fault.value;
        var i := ScanFaults(state, table);
        if i < |table| {
          var act := table[i].action;
          if act == -1 {
            return Return;
          }
          if 0 <= act <= 255 {
            st := act;
          }
        }
      }
    } else {
      parts := parts + [MISSING_STATE];
    }
    if ca.sqlerrml > 0 {
      var err := UpToNul(ca.sqlerrmc[..ca.sqlerrml]);
      parts := parts + [": ", err];
    }
    assert parts == Parts(what, ca);
    e := Die(st, Message(parts));
  }

  /** jmscott_ecpg_error: a fault with the error code and "ERROR". */
  method EcpgError(codes: Codes, fault: Option<seq<StateFault>>, ca: Sqlca, pg: bool) returns (e: Effect)
    requires WellFormed(ca)
    ensures e == FaultEffect(codes.error, "ERROR", fault, ca, pg)
  {
    e := EcpgFault(codes.error, "ERROR", fault, ca, pg);
  }

  /** jmscott_ecpg_warning: a fault with the warning code and "WARNING". */
  method EcpgWarning(codes: Codes, fault: Option<seq<StateFault>>, ca: Sqlca, pg: bool) returns (e: Effect)
    requires WellFormed(ca)
    ensures e == FaultEffect(codes.warn, "WARNING", fault, ca, pg)
  {
    e := EcpgFault(codes.warn, "WARNING", fault, ca, pg);
  }

  // What the handler promises

  /**
   * The fault is ignored exactly when the library was built with
   * PostgreSQL, the state is present, and the first table entry for it
   * says -1; otherwise it dies with the entry's status when that is
   * 0..255, else with the default (127 without PostgreSQL).
   */
  lemma FaultOutcome(status: int, what: string, table: seq<StateFault>, ca: Sqlca, pg: bool)
    requires WellFormed(ca)
    ensures var e := FaultEffect(status, what, Some(table), ca, pg);
      var found := pg && ca.sqlstate[0] != NUL && Lookup(State(ca), table) < |table|;
      var act := if found then table[Lookup(State(ca), table)].action else status;
      (e == Return <==> found && act == -1) &&
      (e.Die? ==> e.status == if !pg then 127 else if found && 0 <= act <= 255 then act else status)
  {
    if pg && ca.sqlstate[0] != NUL {
      var i := Lookup(State(ca), table);
      if i < |table| {
        assert FaultEffect(status, what, Some(table), ca, pg) ==
          if table[i].action == -1 then Return
          else if 0 <= table[i].action <= 255 then Die(table[i].action, Message(Parts(what, ca)))
          else Die(status, Message(Parts(what, ca)));
      }
    }
  }

  /** The first entry for a state wins, whatever later entries say. */
  lemma FirstEntryWins(state: string, before: seq<StateFault>, action: int, after: seq<StateFault>)
    requires forall k :: 0 <= k < |before| ==> before[k].sqlState != state
    ensures Lookup(state, before + [StateFault(state, action)] + after) == |before|
  {
    var t := before + [StateFault(state, action)] + after;
    assert t[|before|].sqlState == state;
    assert forall k :: 0 <= k < |before| ==> t[k] == before[k];
  }

  /** Without a state the table is not consulted and the message says the state is missing. */
  lemma MissingStateSkipsTable(status: int, what: string, fault: Option<seq<StateFault>>, ca: Sqlca)
    requires WellFormed(ca) && ca.sqlstate[0] == NUL
    ensures FaultEffect(status, what, fault, ca, true) == FaultEffect(status, what, None, ca, true)
    ensures FaultEffect(status, what, fault, ca, true).Die?
    ensures FaultEffect(status, what, fault, ca, true).msg ==
      Message(["SQL", what, MISSING_STATE] + if ca.sqlerrml > 0 then [": ", ErrText(ca)] else [])
  {
    if ca.sqlerrml <= 0 {
      assert ["SQL", what, MISSING_STATE] + [] == ["SQL", what, MISSING_STATE];
    }
  }

  lemma {:induction false} FlattenAppend(a: seq<string>, b: seq<string>)
    ensures CString.Flatten(a + b) == CString.Flatten(a) + CString.Flatten(b)
    decreases |a|
  {
    if a == [] {
      assert a + b == b;
    } else {
      FlattenAppend(a[1..], b);
      assert (a + b)[1..] == a[1..] + b;
    }
  }

  /** The message starts with "SQL" and what, with no separator, when that fits the buffer. */
  lemma MessageBegins(what: string, ca: Sqlca)
    requires WellFormed(ca) && 3 + |what| < MSG_SIZE
    ensures var msg := Message(Parts(what, ca));
      |msg| >= 3 + |what| && msg[..3 + |what|] == "SQL" + what
  {
    var parts := Parts(what, ca);
    assert parts == ["SQL", what] + parts[2..];
    FlattenAppend(["SQL", what], parts[2..]);
    assert CString.Flatten(["SQL", what]) == "SQL" + what by {
      assert ["SQL", what][1..] == [what];
      assert [what][1..] == [];
    }
    var all := CString.Flatten(parts);
    assert all[..3 + |what|] == "SQL" + what;
  }
}
