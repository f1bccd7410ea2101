/*
 * The tree behind jmscott_halloc, as values.
 *
 * Every allocation is a header (struct jmscott_memory) followed by its
 * payload.  Headers are addressed by a Ptr; 0 is the null pointer.  A
 * header keeps the C link fields verbatim (parent, child_head, child_tail,
 * next, previous) and its FIFO list of free-time callbacks.
 *
 * A Shape pairs the headers with a ghost account of the tree: the ordered
 * children of every node, the node whose child list actually holds it
 * (`owner`, 0 for a root), and a rank that strictly drops from a node to
 * each of its children, which rules out cycles.  WF says the link fields
 * spell exactly that tree.  The recorded `parent` field is deliberately
 * NOT tied to `owner`: jmscott_halloc_adopt moves a node without updating
 * it, so the two can differ.
 *
 * Over a well-formed shape this module defines the subtree of a node and
 * the two depth-first walks jmscott_halloc_free performs (firing callbacks,
 * then releasing storage), and proves what those walks visit and in which
 * order.
 */
module HAllocTree {

  /** An address of a header; 0 is the null pointer. */
  type Ptr = nat

  const NULL: Ptr := 0

  /** struct jmscott_halloc_callback: a function and its private data, both opaque. */
  datatype Callback = Callback(func: int, data: int)

  /** struct jmscott_memory, with the payload bytes that follow it. */
  datatype Header = Header(parent: Ptr, childHead: Ptr, childTail: Ptr,
                           next: Ptr, previous: Ptr,
                           callbacks: seq<Callback>, payload: seq<char>)

  /** What freeing makes observable: a callback invoked on a node's payload,
      a callback record released, a node's block released. */
  datatype Event =
    | Call(node: Ptr, cb: Callback)
    | ReleaseCallback(node: Ptr, cb: Callback)
    | ReleaseNode(node: Ptr)

  /** The two traversals of jmscott_halloc_free: fire_free_callbacks and _free. */
  datatype Pass = Firing | Releasing

  datatype Shape = Shape(h: map<Ptr, Header>, kids: map<Ptr, seq<Ptr>>,
                         owner: map<Ptr, Ptr>, rank: map<Ptr, nat>)

  function First(ks: seq<Ptr>): Ptr {
    if ks == [] then NULL else ks[0]
  }

  function Last(ks: seq<Ptr>): Ptr {
    if ks == [] then NULL else ks[|ks| - 1]
  }

  /** The sibling before position i, NULL for the head. */
  function Before(ks: seq<Ptr>, i: nat): Ptr
    requires i < |ks|
  {
    if i == 0 then NULL else ks[i - 1]
  }

  /** The sibling after position i, NULL for the tail. */
  function After(ks: seq<Ptr>, i: nat): Ptr
    requires i < |ks|
  {
    if i + 1 == |ks| then NULL else ks[i + 1]
  }

  predicate Distinct(ks: seq<Ptr>) {
    forall i, j :: 0 <= i < j < |ks| ==> ks[i] != ks[j]
  }

  predicate Domains(S: Shape) {
    NULL !in S.h && S.kids.Keys == S.h.Keys && S.owner.Keys == S.h.Keys && S.rank.Keys == S.h.Keys
  }

  /** A node's own links: it sits in its owner's child list (roots have no
      siblings), and child_head/child_tail name the ends of its children. */
  predicate NodeOk(S: Shape, n: Ptr)
    requires Domains(S) && n in S.h
  {
    var o := S.owner[n];
    (o == NULL || (o in S.h && n in S.kids[o])) &&
    (o == NULL ==> S.h[n].previous == NULL && S.h[n].next == NULL) &&
    S.h[n].childHead == First(S.kids[n]) && S.h[n].childTail == Last(S.kids[n]) &&
    Distinct(S.kids[n])
  }

  /** The i-th child of n: owned by n, of lower rank, and its sibling links
      are its neighbours in n's child list. */
  predicate KidOk(S: Shape, n: Ptr, i: nat)
    requires Domains(S) && n in S.h && i < |S.kids[n]|
  {
    var c := S.kids[n][i];
    c in S.h && S.owner[c] == n && S.rank[c] < S.rank[n] &&
    S.h[c].previous == Before(S.kids[n], i) && S.h[c].next == After(S.kids[n], i)
  }

  /** The link fields spell the tree recorded in kids/owner, and it is acyclic. */
  predicate WF(S: Shape) {
    Domains(S) &&
    (forall n {:trigger NodeOk(S, n)} :: n in S.h ==> NodeOk(S, n)) &&
    (forall n, i :: n in S.h && 0 <= i < |S.kids[n]| ==> KidOk(S, n, i))
  }

  /** The recorded parent is the node whose child list holds n. */
  predicate ParentOk(S: Shape, n: Ptr)
    requires Domains(S) && n in S.h
  {
    S.h[n].parent == S.owner[n]
  }

  // ----- subtrees -----

  /** x and all its descendants. */
  function Sub(S: Shape, x: Ptr): set<Ptr>
    requires WF(S) && x in S.h
    decreases S.rank[x], 1, 0
  {
    {x} + ChildSubs(S, x, |S.kids[x]|)
  }

  /** The subtrees of x's first i children. */
  function ChildSubs(S: Shape, x: Ptr, i: nat): set<Ptr>
    requires WF(S) && x in S.h && i <= |S.kids[x]|
    decreases S.rank[x], 0, i
  {
    if i == 0 then {}
    else
      assert KidOk(S, x, i - 1);
      ChildSubs(S, x, i - 1) + Sub(S, S.kids[x][i - 1])
  }

  // ----- the two walks of jmscott_halloc_free -----

  /** What one node contributes to a walk: its callbacks in registration
      order; when releasing, then the node itself. */
  function Own(S: Shape, x: Ptr, pass: Pass): (r: seq<Event>)
    ensures forall k :: 0 <= k < |r| ==> r[k].node == x
  {
    if x !in S.h then []
    else
      var cbs := S.h[x].callbacks;
      match pass
      case Firing => seq(|cbs|, k requires 0 <= k < |cbs| => Call(x, cbs[k]))
      case Releasing => seq(|cbs|, k requires 0 <= k < |cbs| => ReleaseCallback(x, cbs[k])) + [ReleaseNode(x)]
  }

  /** The walk of x's subtree: the children's walks head to tail, then x. */
  function Trace(S: Shape, x: Ptr, pass: Pass): seq<Event>
    requires WF(S) && x in S.h
    decreases S.rank[x], 1, 0
  {
    ChildTraces(S, x, |S.kids[x]|, pass) + Own(S, x, pass)
  }

  function ChildTraces(S: Shape, x: Ptr, i: nat, pass: Pass): seq<Event>
    requires WF(S) && x in S.h && i <= |S.kids[x]|
    decreases S.rank[x], 0, i
  {
    if i == 0 then []
    else
      assert KidOk(S, x, i - 1);
      ChildTraces(S, x, i - 1, pass) + Trace(S, S.kids[x][i - 1], pass)
  }

  /** The events of a trace that concern node y, in trace order. */
  function EventsOf(t: seq<Event>, y: Ptr): seq<Event>
  {
    EventsUpTo(t, y, |t|)
  }

  /** The events about y among the first n of t. */
  function EventsUpTo(t: seq<Event>, y: Ptr, n: nat): seq<Event>
    requires n <= |t|
  {
    if n == 0 then []
    else if t[n - 1].node == y then EventsUpTo(t, y, n - 1) + [t[n - 1]]
    else EventsUpTo(t, y, n - 1)
  }

  // ----- lemmas about events -----

  /** Filtering a prefix of a + b only sees a. */
  lemma {:induction false} EventsUpToLeft(a: seq<Event>, b: seq<Event>, y: Ptr, n: nat)
    requires n <= |a|
    ensures EventsUpTo(a + b, y, n) == EventsUpTo(a, y, n)
  {
    if n > 0 {
      EventsUpToLeft(a, b, y, n - 1);
    }
  }

  lemma {:induction false} EventsUpToRight(a: seq<Event>, b: seq<Event>, y: Ptr, k: nat)
    requires k <= |b|
    ensures EventsUpTo(a + b, y, |a| + k) == EventsUpTo(a, y, |a|) + EventsUpTo(b, y, k)
  {
    if k == 0 {
      EventsUpToLeft(a, b, y, |a|);
    } else {
      EventsUpToRight(a, b, y, k - 1);
      assert (a + b)[|a| + k - 1] == b[k - 1];
    }
  }

  lemma EventsOfConcat(a: seq<Event>, b: seq<Event>, y: Ptr)
    ensures EventsOf(a + b, y) == EventsOf(a, y) + EventsOf(b, y)
  {
    EventsUpToRight(a, b, y, |b|);
  }

  /** A trace all about y filters to itself. */
  lemma EventsOfAll(t: seq<Event>, y: Ptr)
    requires forall k :: 0 <= k < |t| ==> t[k].node == y
    ensures EventsOf(t, y) == t
  {
    EventsUpToAll(t, y, |t|);
  }

  lemma {:induction false} EventsUpToAll(t: seq<Event>, y: Ptr, n: nat)
    requires n <= |t|
    requires forall k :: 0 <= k < |t| ==> t[k].node == y
    ensures EventsUpTo(t, y, n) == t[..n]
  {
    if n > 0 {
      EventsUpToAll(t, y, n - 1);
      assert t[..n] == t[..n - 1] + [t[n - 1]];
    }
  }

  /** A trace never about y filters to nothing. */
  lemma EventsOfNone(t: seq<Event>, y: Ptr)
    requires forall k :: 0 <= k < |t| ==> t[k].node != y
    ensures EventsOf(t, y) == []
  {
    EventsUpToNone(t, y, |t|);
  }

  lemma {:induction false} EventsUpToNone(t: seq<Event>, y: Ptr, n: nat)
    requires n <= |t|
    requires forall k :: 0 <= k < |t| ==> t[k].node != y
    ensures EventsUpTo(t, y, n) == []
  {
    if n > 0 {
      EventsUpToNone(t, y, n - 1);
    }
  }

  lemma OwnEvents(S: Shape, x: Ptr, pass: Pass, y: Ptr)
    requires x in S.h
    ensures EventsOf(Own(S, x, pass), y) == if x == y then Own(S, x, pass) else []
  {
    if x == y {
      EventsOfAll(Own(S, x, pass), y);
    } else {
      EventsOfNone(Own(S, x, pass), y);
    }
  }

  // ----- lemmas about subtrees -----

  /** A subtree lies in the arena, and ranks drop strictly below its root. */
  lemma {:induction false} SubBelow(S: Shape, x: Ptr)
    requires WF(S) && x in S.h
    ensures forall y :: y in Sub(S, x) ==> y in S.h && S.rank[y] <= S.rank[x]
    ensures x !in ChildSubs(S, x, |S.kids[x]|)
    decreases S.rank[x], 1
  {
    ChildSubsBelow(S, x, |S.kids[x]|);
  }

  lemma {:induction false} ChildSubsBelow(S: Shape, x: Ptr, i: nat)
    requires WF(S) && x in S.h && i <= |S.kids[x]|
    ensures forall y :: y in ChildSubs(S, x, i) ==> y in S.h && S.rank[y] < S.rank[x]
    decreases S.rank[x], 0, i
  {
    if i > 0 {
      assert KidOk(S, x, i - 1);
      ChildSubsBelow(S, x, i - 1);
      SubBelow(S, S.kids[x][i - 1]);
    }
  }

  /** y is among the first i children's subtrees exactly when it is in one of them. */
  lemma {:induction false} ChildSubsMember(S: Shape, x: Ptr, i: nat, y: Ptr)
    requires WF(S) && x in S.h && i <= |S.kids[x]|
    ensures y in ChildSubs(S, x, i) <==>
            exists j :: 0 <= j < i && KidIn(S, x, j) && y in Sub(S, S.kids[x][j])
  {
    if i > 0 {
      assert KidOk(S, x, i - 1);
      ChildSubsMember(S, x, i - 1, y);
    }
  }

  /** The j-th child of x is a node, so its subtree is defined. */
  predicate KidIn(S: Shape, x: Ptr, j: nat)
    requires WF(S) && x in S.h
  {
    j < |S.kids[x]| && S.kids[x][j] in S.h
  }

  /** The subtree of a child is part of the subtree of its parent. */
  lemma KidSub(S: Shape, x: Ptr, j: nat)
    requires WF(S) && x in S.h && j < |S.kids[x]|
    ensures KidIn(S, x, j) && Sub(S, S.kids[x][j]) <= Sub(S, x)
  {
    assert KidOk(S, x, j);
    forall y | y in Sub(S, S.kids[x][j]) ensures y in Sub(S, x) {
      ChildSubsMember(S, x, |S.kids[x]|, y);
    }
  }

  /** Going up from a proper descendant stays in the subtree. */
  lemma {:induction false} SubUp(S: Shape, x: Ptr, y: Ptr)
    requires WF(S) && x in S.h && y in Sub(S, x) && y != x
    ensures y in S.h && S.owner[y] in Sub(S, x)
    decreases S.rank[x]
  {
    ChildSubsMember(S, x, |S.kids[x]|, y);
    var j :| 0 <= j < |S.kids[x]| && KidIn(S, x, j) && y in Sub(S, S.kids[x][j]);
    var c := S.kids[x][j];
    assert KidOk(S, x, j);
    KidSub(S, x, j);
    if y != c {
      SubUp(S, c, y);
    }
  }

  /** Going down from a member of the subtree stays in the subtree. */
  lemma {:induction false} SubDown(S: Shape, x: Ptr, y: Ptr, k: nat)
    requires WF(S) && x in S.h && y in Sub(S, x) && y in S.h && k < |S.kids[y]|
    ensures S.kids[y][k] in Sub(S, x)
    decreases S.rank[x]
  {
    if y == x {
      KidSub(S, x, k);
      assert S.kids[x][k] in Sub(S, S.kids[x][k]);
    } else {
      ChildSubsMember(S, x, |S.kids[x]|, y);
      var j :| 0 <= j < |S.kids[x]| && KidIn(S, x, j) && y in Sub(S, S.kids[x][j]);
      assert KidOk(S, x, j);
      SubDown(S, S.kids[x][j], y, k);
      KidSub(S, x, j);
    }
  }

  /** A node in two subtrees: one of their roots lies below the other. */
  lemma {:induction false} Chain(S: Shape, a: Ptr, b: Ptr, y: Ptr)
    requires WF(S) && a in S.h && b in S.h && y in S.h && y in Sub(S, a) && y in Sub(S, b)
    ensures a in Sub(S, b) || b in Sub(S, a)
    decreases S.rank[a] as int + S.rank[b] - 2 * S.rank[y]
  {
    SubBelow(S, a);
    SubBelow(S, b);
    if y != a && y != b {
      SubUp(S, a, y);
      var o := S.owner[y];
      SubUp(S, b, y);
      assert NodeOk(S, y);
      var i :| 0 <= i < |S.kids[o]| && S.kids[o][i] == y;
      assert KidOk(S, o, i);
      Chain(S, a, b, o);
    }
  }

  /** The subtrees of two different children are disjoint. */
  lemma SiblingsDisjoint(S: Shape, x: Ptr, j: nat, k: nat)
    requires WF(S) && x in S.h && j < |S.kids[x]| && k < |S.kids[x]| && j != k
    ensures KidIn(S, x, j) && KidIn(S, x, k)
    ensures Sub(S, S.kids[x][j]) !! Sub(S, S.kids[x][k])
  {
    assert KidOk(S, x, j) && KidOk(S, x, k);
    var a, b := S.kids[x][j], S.kids[x][k];
    assert NodeOk(S, x);
    if y :| y in Sub(S, a) && y in Sub(S, b) {
      SubBelow(S, a);
      Chain(S, a, b, y);
      if a in Sub(S, b) {
        SubUp(S, b, a);
        SubBelow(S, b);
      } else {
        SubUp(S, a, b);
        SubBelow(S, a);
      }
      assert false;
    }
  }

  /** The next child's subtree is disjoint from the earlier children's. */
  lemma ChildSubsDisjoint(S: Shape, x: Ptr, i: nat)
    requires WF(S) && x in S.h && i < |S.kids[x]|
    ensures KidIn(S, x, i) && Sub(S, S.kids[x][i]) !! ChildSubs(S, x, i)
  {
    assert KidOk(S, x, i);
    forall y | y in Sub(S, S.kids[x][i]) && y in ChildSubs(S, x, i) ensures false {
      ChildSubsMember(S, x, i, y);
      var j :| 0 <= j < i && KidIn(S, x, j) && y in Sub(S, S.kids[x][j]);
      SiblingsDisjoint(S, x, j, i);
    }
  }

  // ----- what the walks visit and in which order -----

  /** Each node of the subtree appears in the walk with exactly its own
      events (its callbacks in registration order, and when releasing its
      block), and no node outside the subtree appears at all. */
  lemma {:induction false} TraceEvents(S: Shape, x: Ptr, pass: Pass, y: Ptr)
    requires WF(S) && x in S.h
    ensures EventsOf(Trace(S, x, pass), y) == if y in Sub(S, x) then Own(S, y, pass) else []
    decreases S.rank[x], 1
  {
    var ct := ChildTraces(S, x, |S.kids[x]|, pass);
    SubBelow(S, x);
    ChildTracesEvents(S, x, |S.kids[x]|, pass, y);
    OwnEvents(S, x, pass, y);
    EventsJoin(ct, Own(S, x, pass), y, ChildSubs(S, x, |S.kids[x]|), {x}, Own(S, y, pass));
    assert Sub(S, x) == ChildSubs(S, x, |S.kids[x]|) + {x};
  }

  lemma {:induction false} ChildTracesEvents(S: Shape, x: Ptr, i: nat, pass: Pass, y: Ptr)
    requires WF(S) && x in S.h && i <= |S.kids[x]|
    ensures EventsOf(ChildTraces(S, x, i, pass), y) == if y in ChildSubs(S, x, i) then Own(S, y, pass) else []
    decreases S.rank[x], 0, i
  {
    if i > 0 {
      assert KidOk(S, x, i - 1);
      var c := S.kids[x][i - 1];
      var pre, tc := ChildTraces(S, x, i - 1, pass), Trace(S, c, pass);
      ChildTracesEvents(S, x, i - 1, pass, y);
      TraceEvents(S, c, pass, y);
      ChildSubsDisjoint(S, x, i - 1);
      EventsJoin(pre, tc, y, ChildSubs(S, x, i - 1), Sub(S, c), Own(S, y, pass));
      ChildUnfold(S, x, i, pass);
    }
  }

  /** One step of ChildTraces and ChildSubs. */
  lemma ChildUnfold(S: Shape, x: Ptr, i: nat, pass: Pass)
    requires WF(S) && x in S.h && 0 < i <= |S.kids[x]|
    ensures KidIn(S, x, i - 1)
    ensures ChildTraces(S, x, i, pass) == ChildTraces(S, x, i - 1, pass) + Trace(S, S.kids[x][i - 1], pass)
    ensures ChildSubs(S, x, i) == ChildSubs(S, x, i - 1) + Sub(S, S.kids[x][i - 1])
  {
    assert KidOk(S, x, i - 1);
  }

  /** The events of y in two consecutive walks, when y belongs to at most
      one of them. */
  lemma EventsJoin(pre: seq<Event>, tc: seq<Event>, y: Ptr, A: set<Ptr>, B: set<Ptr>, own: seq<Event>)
    requires A !! B
    requires EventsOf(pre, y) == (if y in A then own else [])
    requires EventsOf(tc, y) == (if y in B then own else [])
    ensures EventsOf(pre + tc, y) == (if y in A + B then own else [])
  {
    EventsOfConcat(pre, tc, y);
    if y in A {
      assert y !in B;
      assert EventsOf(pre + tc, y) == own + [];
    } else {
      assert EventsOf(pre + tc, y) == [] + EventsOf(tc, y);
    }
  }

  /** The walk of a subtree is one contiguous block of the walk of any
      subtree containing it. */
  lemma {:induction false} TraceSegment(S: Shape, x: Ptr, pass: Pass, y: Ptr)
    requires WF(S) && x in S.h && y in Sub(S, x)
    ensures y in S.h
    ensures exists a, b :: Trace(S, x, pass) == a + Trace(S, y, pass) + b
    decreases S.rank[x], 1
  {
    SubBelow(S, x);
    var ty := Trace(S, y, pass);
    if y == x {
      assert Trace(S, x, pass) == [] + ty + [];
    } else {
      var n := |S.kids[x]|;
      ChildTracesSegment(S, x, n, pass, y);
      var a, b :| ChildTraces(S, x, n, pass) == a + ty + b;
      Regroup(a, ty, b, Own(S, x, pass));
    }
  }

  lemma {:induction false} ChildTracesSegment(S: Shape, x: Ptr, i: nat, pass: Pass, y: Ptr)
    requires WF(S) && x in S.h && i <= |S.kids[x]| && y in ChildSubs(S, x, i)
    ensures y in S.h
    ensures exists a, b :: ChildTraces(S, x, i, pass) == a + Trace(S, y, pass) + b
    decreases S.rank[x], 0, i
  {
    ChildSubsBelow(S, x, i);
    assert KidOk(S, x, i - 1);
    var c := S.kids[x][i - 1];
    var pre, tc, ty := ChildTraces(S, x, i - 1, pass), Trace(S, c, pass), Trace(S, y, pass);
    assert ChildTraces(S, x, i, pass) == pre + tc;
    if y in ChildSubs(S, x, i - 1) {
      ChildTracesSegment(S, x, i - 1, pass, y);
      var a, b :| pre == a + ty + b;
      Regroup(a, ty, b, tc);
    } else {
      TraceSegment(S, c, pass, y);
      var a, b :| tc == a + ty + b;
      Regroup(pre, a, ty, b);
    }
  }

  lemma Regroup(p: seq<Event>, q: seq<Event>, r: seq<Event>, s: seq<Event>)
    ensures (p + q + r) + s == p + q + (r + s)
    ensures p + (q + r + s) == (p + q) + r + s
  {
  }

  /** Deepest first: in the walk of x, the events of any node y of the
      subtree form one block, immediately preceded by a block holding every
      event of y's proper descendants, and none of those events occur
      anywhere else. */
  lemma DescendantsFirst(S: Shape, x: Ptr, pass: Pass, y: Ptr)
    requires WF(S) && x in S.h && y in Sub(S, x)
    ensures y in S.h
    ensures exists a, c, b :: Trace(S, x, pass) == a + c + Own(S, y, pass) + b &&
              OnlyInBlock(S, y, pass, a, c, b)
  {
    SubBelow(S, x);
    TraceSegment(S, x, pass, y);
    var a, b :| Trace(S, x, pass) == a + Trace(S, y, pass) + b;
    var c := ChildTraces(S, y, |S.kids[y]|, pass);
    BlockSplit(S, y, pass, a, b, Trace(S, x, pass));
    BlockOnly(S, x, pass, y, a, b);
    assert Trace(S, x, pass) == a + c + Own(S, y, pass) + b && OnlyInBlock(S, y, pass, a, c, b);
  }

  lemma BlockSplit(S: Shape, y: Ptr, pass: Pass, a: seq<Event>, b: seq<Event>, t: seq<Event>)
    requires WF(S) && y in S.h
    requires t == a + Trace(S, y, pass) + b
    ensures t == a + ChildTraces(S, y, |S.kids[y]|, pass) + Own(S, y, pass) + b
  {
    Regroup(a, ChildTraces(S, y, |S.kids[y]|, pass), Own(S, y, pass), b);
  }

  lemma BlockOnly(S: Shape, x: Ptr, pass: Pass, y: Ptr, a: seq<Event>, b: seq<Event>)
    requires WF(S) && x in S.h && y in S.h && y in Sub(S, x)
    requires Trace(S, x, pass) == a + Trace(S, y, pass) + b
    ensures OnlyInBlock(S, y, pass, a, ChildTraces(S, y, |S.kids[y]|, pass), b)
  {
    var c := ChildTraces(S, y, |S.kids[y]|, pass);
    SubBelow(S, y);
    forall z | z in Sub(S, y) && z != y
      ensures EventsOf(a + b, z) == [] && z in S.h && EventsOf(c, z) == Own(S, z, pass)
    {
      BlockEvents(S, x, pass, y, z, a, b);
    }
    BlockEvents(S, x, pass, y, y, a, b);
    ChildTracesEvents(S, y, |S.kids[y]|, pass, y);
  }

  /** y's events occur neither in a, b nor c, and every proper descendant
      of y has all its events in c and none in a or b. */
  predicate OnlyInBlock(S: Shape, y: Ptr, pass: Pass, a: seq<Event>, c: seq<Event>, b: seq<Event>)
    requires WF(S) && y in S.h
  {
    EventsOf(a + b, y) == [] && EventsOf(c, y) == [] &&
    forall z :: z in Sub(S, y) && z != y ==>
      EventsOf(a + b, z) == [] && z in S.h && EventsOf(c, z) == Own(S, z, pass)
  }

  /** Helper of DescendantsFirst: events of a node of y's subtree lie only
      in y's block. */
  lemma BlockEvents(S: Shape, x: Ptr, pass: Pass, y: Ptr, z: Ptr, a: seq<Event>, b: seq<Event>)
    requires WF(S) && x in S.h && y in S.h && y in Sub(S, x) && z in Sub(S, y)
    requires Trace(S, x, pass) == a + Trace(S, y, pass) + b
    ensures EventsOf(a + b, z) == []
    ensures z in S.h
    ensures z != y ==> EventsOf(ChildTraces(S, y, |S.kids[y]|, pass), z) == Own(S, z, pass)
  {
    SubBelow(S, y);
    assert z in S.h;
    var ty := Trace(S, y, pass);
    TraceEvents(S, x, pass, z);
    TraceEvents(S, y, pass, z);
    SubSub(S, x, y, z);
    EventsOfConcat(a + ty, b, z);
    EventsOfConcat(a, ty, z);
    EventsOfConcat(a, b, z);
    if z != y {
      ChildTracesEvents(S, y, |S.kids[y]|, pass, z);
    }
  }

  /** Subtrees are nested: a node below y, itself below x, is below x. */
  lemma {:induction false} SubSub(S: Shape, x: Ptr, y: Ptr, z: Ptr)
    requires WF(S) && x in S.h && y in S.h && y in Sub(S, x) && z in Sub(S, y)
    ensures z in Sub(S, x)
    decreases S.rank[y]
  {
    if z != y {
      ChildSubsMember(S, y, |S.kids[y]|, z);
      var j :| 0 <= j < |S.kids[y]| && KidIn(S, y, j) && z in Sub(S, S.kids[y][j]);
      SubDown(S, x, y, j);
      assert KidOk(S, y, j);
      SubSub(S, x, S.kids[y][j], z);
    }
  }
}
