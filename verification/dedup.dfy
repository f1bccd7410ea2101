/*
 * dedup: copy standard input to standard output, each distinct line only
 * the first time it appears; with --count, print only the number of
 * distinct lines.  The lines are those the scanner returned; scanErr
 * says whether it then stopped on an error (a line longer than its
 * buffer, say) rather than at the end of input.
 */
module Dedup {
  import opened Common

  /** The set of the lines in s. */
  function Members(s: seq<string>): set<string> {
    set x | x in s
  }

  /** The first n lines, each kept only when no earlier line equals it. */
  function Keep(lines: seq<string>, n: nat): seq<string>
    requires n <= |lines|
  {
    if n == 0 then []
    else if lines[n - 1] in lines[..n - 1] then Keep(lines, n - 1)
    else Keep(lines, n - 1) + [lines[n - 1]]
  }

  /** The lines printed without --count: the first occurrence of each, in input order. */
  function Distinct(lines: seq<string>): seq<string> {
    Keep(lines, |lines|)
  }

  /** What a run ends with: the exit status and the lines written to standard output. */
  datatype Exit = Exit(status: int, stdout: seq<string>)

  /** The run: a bad argument list dies with 1; a scanner error exits 1 after what was printed. */
  function Dedup(args: seq<string>, lines: seq<string>, scanErr: bool): Exit {
    if |args| > 1 || (|args| == 1 && args[0] != "--count") then Exit(1, [])
    else
      var count := |args| == 1;
      if scanErr then Exit(1, if count then [] else Distinct(lines))
      else if count then Exit(0, [Decimal(|Members(lines)|)])
      else Exit(0, Distinct(lines))
  }

  /** main: parse the arguments, then the scan loop over a set of lines seen. */
  method DedupMain(args: seq<string>, lines: seq<string>, scanErr: bool) returns (r: Exit)
    ensures r == Dedup(args, lines, scanErr)
  {
    var putCount := false;
    if |args| == 1 {
      if args[0] != "--count" {
        return Exit(1, []);
      }
      putCount := true;
    } else if |args| != 0 {
      return Exit(1, []);
    }
    var seen: set<string> := {};
    var out: seq<string> := [];
    var i := 0;
    while i < |lines|
      invariant i <= |lines|
      invariant seen == Members(lines[..i])
      invariant out == if putCount then [] else Keep(lines, i)
    {
      var txt := lines[i];
      assert lines[..i + 1] == lines[..i] + [txt];
      if txt !in seen {
        seen := seen + {txt};
        if !putCount {
          out := out + [txt];
        }
      }
      i := i + 1;
    }
    assert lines[..i] == lines;
    if scanErr {
      return Exit(1, out);
    }
    if putCount {
      out := out + [Decimal(|seen|)];
    }
    r := Exit(0, out);
  }

  // What the output promises

  /** No line is printed twice. */
  lemma {:induction false} KeepNoRepeats(lines: seq<string>, n: nat)
    requires n <= |lines|
    ensures forall i, j :: 0 <= i < j < |Keep(lines, n)| ==> Keep(lines, n)[i] != Keep(lines, n)[j]
    ensures Members(Keep(lines, n)) == Members(lines[..n])
  {
    if n > 0 {
      KeepNoRepeats(lines, n - 1);
      var k, x := Keep(lines, n - 1), lines[n - 1];
      assert lines[..n] == lines[..n - 1] + [x];
      assert Members(lines[..n]) == Members(lines[..n - 1]) + {x};
      if x !in lines[..n - 1] {
        assert x !in k;
        assert Members(k + [x]) == Members(k) + {x};
      }
    }
  }

  /** Every line of the input is printed, and only those. */
  lemma DistinctMembers(lines: seq<string>)
    ensures Members(Distinct(lines)) == Members(lines)
    ensures forall i, j :: 0 <= i < j < |Distinct(lines)| ==> Distinct(lines)[i] != Distinct(lines)[j]
  {
    KeepNoRepeats(lines, |lines|);
    assert lines[..|lines|] == lines;
  }

  /** A sequence without repeats has as many members as elements. */
  lemma {:induction false} MembersCount(s: seq<string>)
    requires forall i, j :: 0 <= i < j < |s| ==> s[i] != s[j]
    ensures |Members(s)| == |s|
  {
    if s != [] {
      var t := s[..|s| - 1];
      MembersCount(t);
      assert s == t + [s[|s| - 1]];
      assert s[|s| - 1] !in t;
      assert Members(s) == Members(t) + {s[|s| - 1]};
    }
  }

  /** --count prints the number of lines the plain run prints. */
  lemma CountIsDistinct(lines: seq<string>)
    ensures |Members(lines)| == |Distinct(lines)|
    ensures Dedup(["--count"], lines, false) == Exit(0, [Decimal(|Dedup([], lines, false).stdout|)])
  {
    DistinctMembers(lines);
    MembersCount(Distinct(lines));
  }

  /** Deduplicating twice prints what deduplicating once does. */
  lemma DistinctIdempotent(lines: seq<string>)
    ensures Distinct(Distinct(lines)) == Distinct(lines)
  {
    DistinctMembers(lines);
    NoRepeatsKept(Distinct(lines), |Distinct(lines)|);
  }

  /** A sequence without repeats is kept whole. */
  lemma {:induction false} NoRepeatsKept(s: seq<string>, n: nat)
    requires n <= |s|
    requires forall i, j :: 0 <= i < j < |s| ==> s[i] != s[j]
    ensures Keep(s, n) == s[..n]
  {
    if n > 0 {
      NoRepeatsKept(s, n - 1);
      assert s[n - 1] !in s[..n - 1];
      assert s[..n] == s[..n - 1] + [s[n - 1]];
    }
  }

  /** The exit status: 0 exactly when the arguments are none or just --count and the scan ended cleanly. */
  lemma ExitStatus(args: seq<string>, lines: seq<string>, scanErr: bool)
    ensures Dedup(args, lines, scanErr).status == 0 <==> (args == [] || args == ["--count"]) && !scanErr
    ensures Dedup(args, lines, scanErr).status != 0 ==> Dedup(args, lines, scanErr).status == 1
  {
    if |args| == 1 && args[0] == "--count" {
      assert args == ["--count"];
    }
  }
}
