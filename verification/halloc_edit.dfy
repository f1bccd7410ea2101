/*
 * The edits jmscott_halloc makes to its tree, as functions from one shape
 * to the next, each proved to keep the shape well formed:
 *
 *   Insert  a fresh, zeroed header as a root         (jmscott_halloc)
 *   Append  a root as a node's last child            (jmscott_halloc, _adopt)
 *   Detach  a node from its owner's child list       (jmscott_halloc_free, _adopt)
 *   Prune   a detached subtree out of the arena      (jmscott_halloc_free)
 *   Rename  a node whose block realloc moved         (jmscott_halloc_resize)
 *
 * The methods in module HAlloc perform the pointer assignments of the C
 * code and are proved to land on exactly these shapes.
 */
module HAllocEdit {
  import opened HAllocTree

  /** The list without its j-th element. */
  function Remove(ks: seq<Ptr>, j: nat): (r: seq<Ptr>)
    requires j < |ks|
    ensures |r| == |ks| - 1
    ensures forall i :: 0 <= i < |r| ==> r[i] == if i < j then ks[i] else ks[i + 1]
  {
    ks[..j] + ks[j + 1..]
  }

  /** Where p sits in a list that holds it. */
  function IndexOf(ks: seq<Ptr>, p: Ptr): (j: nat)
    requires p in ks
    ensures j < |ks| && ks[j] == p
  {
    if ks[0] == p then 0 else 1 + IndexOf(ks[1..], p)
  }

  /** Links of a header cleared, as bzero leaves a fresh one. */
  function Unlinked(hd: Header): Header {
    hd.(childHead := NULL, childTail := NULL, next := NULL, previous := NULL)
  }

  // ----- Insert -----

  /** A fresh header as a root with no children and the lowest rank. */
  function Insert(S: Shape, p: Ptr, hd: Header): Shape
    requires p !in S.h
  {
    Shape(S.h[p := Unlinked(hd)], S.kids[p := []], S.owner[p := NULL], S.rank[p := 0])
  }

  lemma InsertWF(S: Shape, p: Ptr, hd: Header)
    requires WF(S) && p !in S.h && p != NULL
    ensures WF(Insert(S, p, hd))
    ensures Sub(Insert(S, p, hd), p) == {p}
  {
    var S1 := Insert(S, p, hd);
    forall n | n in S1.h ensures NodeOk(S1, n) {
      if n != p {
        assert NodeOk(S, n);
      }
    }
    forall n, i | n in S1.h && 0 <= i < |S1.kids[n]| ensures KidOk(S1, n, i) {
      assert KidOk(S, n, i);
    }
  }

  // ----- Append -----

  /** A root p becomes P's last child.  Ranks outside p's subtree are
      raised above p's so that P outranks it. */
  function Append(S: Shape, P: Ptr, p: Ptr): (r: Shape)
    requires WF(S) && p in S.h && P in S.h && S.owner[p] == NULL && P !in Sub(S, p)
    ensures Domains(r) && r.h.Keys == S.h.Keys
  {
    Shape(map x | x in S.h :: AppendHeader(S, P, p, x),
          S.kids[P := S.kids[P] + [p]], S.owner[p := P], Rerank(S, p))
  }

  /** Node x's header after Append: P's tail and p's back link name each
      other; only p, P and P's old tail change. */
  function AppendHeader(S: Shape, P: Ptr, p: Ptr, x: Ptr): (r: Header)
    requires Domains(S) && P in S.h && x in S.h
    ensures r.parent == S.h[x].parent && r.callbacks == S.h[x].callbacks && r.payload == S.h[x].payload
  {
    var hd := S.h[x];
    var ks := S.kids[P];
    if x == p then hd.(previous := Last(ks), next := NULL)
    else if x == P then hd.(childHead := First(ks + [p]), childTail := p)
    else if x == Last(ks) then hd.(next := p)
    else hd
  }

  function Rerank(S: Shape, p: Ptr): (r: map<Ptr, nat>)
    requires WF(S) && p in S.h
    ensures r.Keys == S.rank.Keys
  {
    map n | n in S.rank :: if n in Sub(S, p) then S.rank[n] else S.rank[n] + S.rank[p] + 1
  }

  /** p, P and P's old tail are three different nodes, p has no links. */
  lemma AppendParts(S: Shape, P: Ptr, p: Ptr)
    requires WF(S) && p in S.h && P in S.h && S.owner[p] == NULL && P !in Sub(S, p)
    ensures P != p && S.h[p].previous == NULL && S.h[p].next == NULL
    ensures p !in S.kids[P]
    ensures Last(S.kids[P]) != NULL ==>
      Last(S.kids[P]) in S.h && S.owner[Last(S.kids[P])] == P && Last(S.kids[P]) != p &&
      Last(S.kids[P]) != P && S.rank[Last(S.kids[P])] < S.rank[P] &&
      S.h[Last(S.kids[P])].next == NULL
  {
    var ks := S.kids[P];
    assert NodeOk(S, p);
    assert p in Sub(S, p);
    forall k | 0 <= k < |ks| ensures ks[k] != p {
      assert KidOk(S, P, k);
    }
    if ks != [] {
      assert KidOk(S, P, |ks| - 1);
    }
  }

  /** Append keeps the shape well formed, and p takes its whole subtree,
      unchanged, along with it. */
  lemma AppendWF(S: Shape, P: Ptr, p: Ptr)
    requires WF(S) && p in S.h && P in S.h && S.owner[p] == NULL && P !in Sub(S, p)
    ensures WF(Append(S, P, p))
    ensures Sub(Append(S, P, p), p) == Sub(S, p)
    ensures forall pass :: Trace(Append(S, P, p), p, pass) == Trace(S, p, pass)
  {
    AppendLinks(S, P, p);
    var S2 := Append(S, P, p);
    SubBelow(S, p);
    forall y | y in Sub(S, p) && y in S.h
      ensures y in S2.h && S2.kids[y] == S.kids[y] && S2.rank[y] == S.rank[y]
      ensures S2.h[y].callbacks == S.h[y].callbacks
    {
      assert S2.h[y] == AppendHeader(S, P, p, y);
    }
    SubSame(S, S2, p);
  }

  lemma AppendLinks(S: Shape, P: Ptr, p: Ptr)
    requires WF(S) && p in S.h && P in S.h && S.owner[p] == NULL && P !in Sub(S, p)
    ensures WF(Append(S, P, p))
  {
    var S2 := Append(S, P, p);
    AppendParts(S, P, p);
    forall n | n in S2.h ensures NodeOk(S2, n) {
      AppendNodeOk(S, P, p, n);
    }
    forall n, i | n in S2.h && 0 <= i < |S2.kids[n]| ensures KidOk(S2, n, i) {
      AppendKidOk(S, P, p, n, i);
    }
  }

  lemma AppendNodeOk(S: Shape, P: Ptr, p: Ptr, n: Ptr)
    requires WF(S) && p in S.h && P in S.h && S.owner[p] == NULL && P !in Sub(S, p)
    requires n in S.h
    ensures NodeOk(Append(S, P, p), n)
  {
    var S2 := Append(S, P, p);
    AppendParts(S, P, p);
    assert NodeOk(S, n);
    var hd := AppendHeader(S, P, p, n);
    assert S2.h[n] == hd;
    if n == P {
      assert S2.kids[P] == S.kids[P] + [p];
      AppendDistinct(S.kids[P], p);
    } else {
      assert S2.kids[n] == S.kids[n];
      if n != p {
        AppendOwnerOk(S, P, p, n);
      }
    }
  }

  lemma AppendDistinct(ks: seq<Ptr>, p: Ptr)
    requires Distinct(ks) && p !in ks
    ensures Distinct(ks + [p])
  {
    forall a, b | 0 <= a < b < |ks| + 1 ensures (ks + [p])[a] != (ks + [p])[b] {
      assert (ks + [p])[a] == ks[a];
    }
  }

  /** A node other than p keeps its owner, and stays in its owner's list. */
  lemma AppendOwnerOk(S: Shape, P: Ptr, p: Ptr, n: Ptr)
    requires WF(S) && p in S.h && P in S.h && S.owner[p] == NULL && P !in Sub(S, p)
    requires n in S.h && n != p
    ensures var S2 := Append(S, P, p); var on := S.owner[n];
      S2.owner[n] == on && (on == NULL || (on in S.h && n in S2.kids[on])) &&
      (on == NULL ==> S2.h[n].previous == NULL && S2.h[n].next == NULL)
  {
    var S2 := Append(S, P, p);
    AppendParts(S, P, p);
    assert NodeOk(S, n);
    var on := S.owner[n];
    if on == P {
      assert S2.kids[P] == S.kids[P] + [p];
    } else if on != NULL {
      assert S2.kids[on] == S.kids[on];
    } else {
      assert n != Last(S.kids[P]);
      var hd := AppendHeader(S, P, p, n);
      assert hd.previous == S.h[n].previous && hd.next == S.h[n].next;
      assert S2.h[n] == hd;
    }
  }

  lemma AppendKidOk(S: Shape, P: Ptr, p: Ptr, n: Ptr, i: nat)
    requires WF(S) && p in S.h && P in S.h && S.owner[p] == NULL && P !in Sub(S, p)
    requires n in S.h && i < |Append(S, P, p).kids[n]|
    ensures KidOk(Append(S, P, p), n, i)
  {
    var S2 := Append(S, P, p);
    AppendParts(S, P, p);
    if n == P {
      var c := AppendSibling(S, P, p, i);
      assert S2.kids[P] == S.kids[P] + [p];
      assert S2.h[c] == AppendHeader(S, P, p, c);
      AppendRank(S, P, p, P, i);
    } else {
      assert S2.kids[n] == S.kids[n];
      assert KidOk(S, n, i);
      var c := S.kids[n][i];
      assert c != p && c != Last(S.kids[P]);
      var hd := AppendHeader(S, P, p, c);
      assert hd.previous == S.h[c].previous && hd.next == S.h[c].next;
      assert S2.h[c] == hd;
      AppendRank(S, P, p, n, i);
    }
  }

  /** The i-th child of P after Append links to its neighbours. */
  lemma AppendSibling(S: Shape, P: Ptr, p: Ptr, i: nat) returns (c: Ptr)
    requires WF(S) && p in S.h && P in S.h && S.owner[p] == NULL && P !in Sub(S, p)
    requires i <= |S.kids[P]|
    ensures c == (S.kids[P] + [p])[i] && c in S.h && c != P
    ensures AppendHeader(S, P, p, c).previous == Before(S.kids[P] + [p], i)
    ensures AppendHeader(S, P, p, c).next == After(S.kids[P] + [p], i)
  {
    var ks := S.kids[P];
    AppendParts(S, P, p);
    c := (ks + [p])[i];
    if i < |ks| {
      assert KidOk(S, P, i) && NodeOk(S, P);
      if i + 1 < |ks| {
        assert c != Last(ks) by {
          assert KidOk(S, P, |ks| - 1);
        }
      }
    }
  }

  /** The i-th child of n after Append (p itself when n == P and i is the
      new last position) ranks below n. */
  lemma AppendRank(S: Shape, P: Ptr, p: Ptr, n: Ptr, i: nat)
    requires WF(S) && p in S.h && P in S.h && S.owner[p] == NULL && P !in Sub(S, p)
    requires n in S.h && i < |Append(S, P, p).kids[n]|
    ensures var S2 := Append(S, P, p);
      S2.kids[n][i] in S.h && S2.owner[S2.kids[n][i]] == n && S2.rank[S2.kids[n][i]] < S2.rank[n]
  {
    var S2 := Append(S, P, p);
    AppendParts(S, P, p);
    assert p in Sub(S, p);
    if n == P && i == |S.kids[P]| {
      assert S2.kids[n][i] == p;
    } else {
      assert S2.kids[n][i] == S.kids[n][i];
      assert KidOk(S, n, i);
      var c := S.kids[n][i];
      assert NodeOk(S, p);
      if c in Sub(S, p) {
        SubUp(S, p, c);
      } else if n in Sub(S, p) {
        SubDown(S, p, n, i);
      }
    }
  }

  // ----- subtrees an edit leaves alone -----

  /** Every node of x's subtree in S is in T with the same children, rank
      and callbacks. */
  predicate SameBelow(S: Shape, T: Shape, x: Ptr)
    requires WF(S) && Domains(T) && x in S.h
  {
    forall y :: y in Sub(S, x) && y in S.h ==>
      y in T.h && T.kids[y] == S.kids[y] && T.rank[y] == S.rank[y] &&
      T.h[y].callbacks == S.h[y].callbacks
  }

  /** Such a subtree, and both walks of it, are the same in T as in S. */
  lemma {:induction false} SubSame(S: Shape, T: Shape, x: Ptr)
    requires WF(S) && WF(T) && x in S.h && SameBelow(S, T, x)
    ensures x in T.h && Sub(T, x) == Sub(S, x)
    ensures forall pass :: Trace(T, x, pass) == Trace(S, x, pass)
    decreases S.rank[x], 1
  {
    assert x in Sub(S, x);
    SubBelow(S, x);
    ChildSubsSame(S, T, x, |S.kids[x]|);
  }

  lemma {:induction false} ChildSubsSame(S: Shape, T: Shape, x: Ptr, i: nat)
    requires WF(S) && WF(T) && x in S.h && SameBelow(S, T, x) && i <= |S.kids[x]|
    ensures x in T.h && i <= |T.kids[x]|
    ensures ChildSubs(T, x, i) == ChildSubs(S, x, i)
    ensures forall pass :: ChildTraces(T, x, i, pass) == ChildTraces(S, x, i, pass)
    decreases S.rank[x], 0, i
  {
    assert x in Sub(S, x);
    SubBelow(S, x);
    if i > 0 {
      ChildSubsSame(S, T, x, i - 1);
      assert KidOk(S, x, i - 1);
      KidSub(S, x, i - 1);
      SubSame(S, T, S.kids[x][i - 1]);
    }
  }

  // ----- Detach -----

  /** A child p leaves its owner's list: its neighbours link to each other,
      the owner's head and tail name the ends of what is left, and p is a
      root with no siblings.  Ranks stay as they are. */
  function Detach(S: Shape, p: Ptr): (r: Shape)
    requires WF(S) && p in S.h && S.owner[p] != NULL
    ensures Domains(r) && r.h.Keys == S.h.Keys && r.rank == S.rank
  {
    var o := S.owner[p];
    assert NodeOk(S, p);
    Shape(map x | x in S.h :: DetachHeader(S, p, x),
          S.kids[o := Remaining(S, p)], S.owner[p := NULL], S.rank)
  }

  /** The owner's children without p, in their old order. */
  function Remaining(S: Shape, p: Ptr): seq<Ptr>
    requires WF(S) && p in S.h && S.owner[p] != NULL
  {
    assert NodeOk(S, p);
    var ks := S.kids[S.owner[p]];
    Remove(ks, IndexOf(ks, p))
  }

  /** Node x's header after Detach: only p, its owner and its two
      neighbours change. */
  function DetachHeader(S: Shape, p: Ptr, x: Ptr): (r: Header)
    requires WF(S) && p in S.h && S.owner[p] != NULL && x in S.h
    ensures r.parent == S.h[x].parent && r.callbacks == S.h[x].callbacks && r.payload == S.h[x].payload
  {
    var hd := S.h[x];
    var prev, nxt := S.h[p].previous, S.h[p].next;
    if x == p then hd.(previous := NULL, next := NULL)
    else if x == S.owner[p] then
      var rest := Remaining(S, p);
      hd.(childHead := First(rest), childTail := Last(rest))
    else if x == prev then hd.(next := nxt)
    else if x == nxt then hd.(previous := prev)
    else hd
  }

  /** The neighbours of a child, the child and its owner are four different nodes. */
  lemma DetachParts(S: Shape, p: Ptr)
    requires WF(S) && p in S.h && S.owner[p] != NULL
    ensures var o := S.owner[p];
      o in S.h && p in S.kids[o] && o != p &&
      var ks := S.kids[o]; var j := IndexOf(ks, p);
      var prev, nxt := S.h[p].previous, S.h[p].next;
      prev == Before(ks, j) && nxt == After(ks, j) &&
      (prev != NULL ==> prev in S.h && S.owner[prev] == o && prev != p && prev != o && prev != nxt) &&
      (nxt != NULL ==> nxt in S.h && S.owner[nxt] == o && nxt != p && nxt != o)
  {
    var o := S.owner[p];
    assert NodeOk(S, p) && NodeOk(S, o);
    var ks := S.kids[o];
    var j := IndexOf(ks, p);
    assert KidOk(S, o, j);
    if j > 0 {
      assert KidOk(S, o, j - 1);
    }
    if j + 1 < |ks| {
      assert KidOk(S, o, j + 1);
    }
  }

  /** Removing the j-th element keeps every other element and distinctness. */
  lemma RemoveKeeps(ks: seq<Ptr>, j: nat, x: Ptr)
    requires j < |ks| && Distinct(ks)
    ensures Distinct(Remove(ks, j)) && ks[j] !in Remove(ks, j)
    ensures x in ks && x != ks[j] ==> x in Remove(ks, j)
  {
    var r := Remove(ks, j);
    forall a, b | 0 <= a < b < |r| ensures r[a] != r[b] {
      var a' := if a < j then a else a + 1;
      var b' := if b < j then b else b + 1;
      assert r[a] == ks[a'] && r[b] == ks[b'];
    }
    if x in ks && x != ks[j] {
      var k :| 0 <= k < |ks| && ks[k] == x;
      if k < j {
        assert r[k] == x;
      } else {
        assert r[k - 1] == x;
      }
    }
  }

  /** Detach keeps the shape well formed, and p takes its whole subtree,
      unchanged, along with it. */
  lemma DetachWF(S: Shape, p: Ptr)
    requires WF(S) && p in S.h && S.owner[p] != NULL
    ensures WF(Detach(S, p))
    ensures Sub(Detach(S, p), p) == Sub(S, p)
    ensures forall pass :: Trace(Detach(S, p), p, pass) == Trace(S, p, pass)
  {
    DetachLinks(S, p);
    var S2 := Detach(S, p);
    SubBelow(S, p);
    assert NodeOk(S, p);
    assert KidOk(S, S.owner[p], IndexOf(S.kids[S.owner[p]], p));
    forall y | y in Sub(S, p) && y in S.h
      ensures y in S2.h && S2.kids[y] == S.kids[y] && S2.rank[y] == S.rank[y]
      ensures S2.h[y].callbacks == S.h[y].callbacks
    {
      assert S2.h[y] == DetachHeader(S, p, y);
    }
    SubSame(S, S2, p);
  }

  lemma DetachLinks(S: Shape, p: Ptr)
    requires WF(S) && p in S.h && S.owner[p] != NULL
    ensures WF(Detach(S, p))
  {
    var S2 := Detach(S, p);
    forall n | n in S2.h ensures NodeOk(S2, n) {
      DetachNodeOk(S, p, n);
    }
    forall n, i | n in S2.h && 0 <= i < |S2.kids[n]| ensures KidOk(S2, n, i) {
      DetachKidOk(S, p, n, i);
    }
  }

  lemma DetachNodeOk(S: Shape, p: Ptr, n: Ptr)
    requires WF(S) && p in S.h && S.owner[p] != NULL && n in S.h
    ensures NodeOk(Detach(S, p), n)
  {
    var S2 := Detach(S, p);
    var o := S.owner[p];
    DetachParts(S, p);
    assert NodeOk(S, n);
    var hd := DetachHeader(S, p, n);
    assert S2.h[n] == hd;
    if n == o {
      var ks := S.kids[o];
      RemoveKeeps(ks, IndexOf(ks, p), n);
      assert S2.kids[n] == Remaining(S, p);
    } else {
      assert S2.kids[n] == S.kids[n];
      assert hd.childHead == S.h[n].childHead && hd.childTail == S.h[n].childTail;
      if n != p {
        DetachOwnerOk(S, p, n);
      }
    }
  }

  /** A node other than p keeps its owner, and stays in its owner's list. */
  lemma DetachOwnerOk(S: Shape, p: Ptr, n: Ptr)
    requires WF(S) && p in S.h && S.owner[p] != NULL && n in S.h && n != p
    ensures var S2 := Detach(S, p); var on := S.owner[n];
      S2.owner[n] == on && (on == NULL || (on in S.h && n in S2.kids[on])) &&
      (on == NULL ==> S2.h[n].previous == NULL && S2.h[n].next == NULL)
  {
    var S2 := Detach(S, p);
    var o := S.owner[p];
    DetachParts(S, p);
    assert NodeOk(S, n);
    var on := S.owner[n];
    if on == o {
      assert NodeOk(S, o);
      var ks := S.kids[o];
      RemoveKeeps(ks, IndexOf(ks, p), n);
      assert S2.kids[o] == Remaining(S, p);
    } else if on != NULL {
      assert S2.kids[on] == S.kids[on];
    } else {
      assert n != S.h[p].previous && n != S.h[p].next;
      var hd := DetachHeader(S, p, n);
      assert hd.previous == S.h[n].previous && hd.next == S.h[n].next;
      assert S2.h[n] == hd;
    }
  }

  lemma DetachKidOk(S: Shape, p: Ptr, n: Ptr, i: nat)
    requires WF(S) && p in S.h && S.owner[p] != NULL && n in S.h
    requires i < |Detach(S, p).kids[n]|
    ensures KidOk(Detach(S, p), n, i)
  {
    var o := S.owner[p];
    DetachParts(S, p);
    if n == o {
      DetachKidOkOwner(S, p, i);
    } else {
      DetachKidOkOther(S, p, n, i);
    }
  }

  /** The children of any node but the owner keep their links: none of
      them is p or one of its neighbours. */
  lemma DetachKidOkOther(S: Shape, p: Ptr, n: Ptr, i: nat)
    requires WF(S) && p in S.h && S.owner[p] != NULL && n in S.h && n != S.owner[p]
    requires i < |S.kids[n]|
    ensures KidOk(Detach(S, p), n, i)
  {
    var S2 := Detach(S, p);
    DetachParts(S, p);
    assert KidOk(S, n, i);
    var c := S.kids[n][i];
    assert S2.kids[n] == S.kids[n];
    assert c != p && c != S.h[p].previous && c != S.h[p].next;
    var hd := DetachHeader(S, p, c);
    assert hd.previous == S.h[c].previous && hd.next == S.h[c].next;
    assert S2.h[c] == hd;
  }

  /** The remaining children of the owner: the two former neighbours of p
      now name each other, every other child keeps its links. */
  lemma DetachKidOkOwner(S: Shape, p: Ptr, i: nat)
    requires WF(S) && p in S.h && S.owner[p] != NULL
    requires i < |Remaining(S, p)|
    ensures KidOk(Detach(S, p), S.owner[p], i)
  {
    var S2 := Detach(S, p);
    var o := S.owner[p];
    var rest := Remaining(S, p);
    var c := DetachSibling(S, p, i);
    assert S2.kids[o] == rest;
    assert S2.h[c] == DetachHeader(S, p, c);
  }

  /** The i-th remaining child links to its neighbours among the remaining. */
  lemma DetachSibling(S: Shape, p: Ptr, i: nat) returns (c: Ptr)
    requires WF(S) && p in S.h && S.owner[p] != NULL
    requires i < |Remaining(S, p)|
    ensures c == Remaining(S, p)[i] && c in S.h && c != p && S.owner[c] == S.owner[p]
    ensures S.owner[p] in S.h && S.rank[c] < S.rank[S.owner[p]]
    ensures DetachHeader(S, p, c).previous == Before(Remaining(S, p), i)
    ensures DetachHeader(S, p, c).next == After(Remaining(S, p), i)
  {
    c := DetachSiblingAt(S, p, i);
    DetachSiblingPrevious(S, p, i);
    DetachSiblingNext(S, p, i);
  }

  /** Where the i-th remaining child sat before: index k of the old list. */
  lemma DetachSiblingAt(S: Shape, p: Ptr, i: nat) returns (c: Ptr)
    requires WF(S) && p in S.h && S.owner[p] != NULL
    requires i < |Remaining(S, p)|
    ensures c == Remaining(S, p)[i] && c in S.h && c != p && S.owner[c] == S.owner[p]
    ensures S.owner[p] in S.h && S.rank[c] < S.rank[S.owner[p]]
  {
    var o := S.owner[p];
    DetachParts(S, p);
    var ks := S.kids[o];
    var j := IndexOf(ks, p);
    var k := if i < j then i else i + 1;
    assert NodeOk(S, o);
    assert Remaining(S, p)[i] == ks[k];
    assert KidOk(S, o, k);
    c := ks[k];
  }

  lemma DetachSiblingPrevious(S: Shape, p: Ptr, i: nat)
    requires WF(S) && p in S.h && S.owner[p] != NULL
    requires i < |Remaining(S, p)|
    ensures Remaining(S, p)[i] in S.h && Remaining(S, p)[i] != p
    ensures DetachHeader(S, p, Remaining(S, p)[i]).previous == Before(Remaining(S, p), i)
  {
    var o := S.owner[p];
    DetachParts(S, p);
    assert NodeOk(S, o);
    var ks := S.kids[o];
    var j := IndexOf(ks, p);
    var rest := Remaining(S, p);
    var k := if i < j then i else i + 1;
    assert rest[i] == ks[k];
    assert KidOk(S, o, k);
    var c := ks[k];
    if k == j + 1 {
      assert c == S.h[p].next;
    } else {
      assert c != S.h[p].next && c != p;
    }
  }

  lemma DetachSiblingNext(S: Shape, p: Ptr, i: nat)
    requires WF(S) && p in S.h && S.owner[p] != NULL
    requires i < |Remaining(S, p)|
    ensures Remaining(S, p)[i] in S.h && Remaining(S, p)[i] != p
    ensures DetachHeader(S, p, Remaining(S, p)[i]).next == After(Remaining(S, p), i)
  {
    var o := S.owner[p];
    DetachParts(S, p);
    assert NodeOk(S, o);
    var ks := S.kids[o];
    var j := IndexOf(ks, p);
    var rest := Remaining(S, p);
    var k := if i < j then i else i + 1;
    assert rest[i] == ks[k];
    assert KidOk(S, o, k);
    var c := ks[k];
    if k + 1 == j {
      assert c == S.h[p].previous;
    } else {
      assert c != S.h[p].previous && c != p;
    }
  }

  // ----- Unhook, Prune -----

  /** p out of any child list: detached if it has an owner, as is otherwise. */
  function Unhook(S: Shape, p: Ptr): Shape
    requires WF(S) && p in S.h
  {
    if S.owner[p] == NULL then S else Detach(S, p)
  }

  lemma UnhookWF(S: Shape, p: Ptr)
    requires WF(S) && p in S.h
    ensures WF(Unhook(S, p)) && p in Unhook(S, p).h && Unhook(S, p).owner[p] == NULL
    ensures Unhook(S, p).h.Keys == S.h.Keys
    ensures Sub(Unhook(S, p), p) == Sub(S, p)
    ensures forall pass :: Trace(Unhook(S, p), p, pass) == Trace(S, p, pass)
  {
    if S.owner[p] != NULL {
      DetachWF(S, p);
    }
  }

  /** A root's whole subtree removed from the arena. */
  function Prune(S: Shape, p: Ptr): (r: Shape)
    requires WF(S) && p in S.h && S.owner[p] == NULL
    ensures Domains(r) && r.h.Keys == S.h.Keys - Sub(S, p)
    ensures forall x :: x in r.h ==> r.h[x] == S.h[x] && r.kids[x] == S.kids[x]
  {
    var gone := Sub(S, p);
    Shape(S.h - gone, S.kids - gone, S.owner - gone, S.rank - gone)
  }

  lemma PruneWF(S: Shape, p: Ptr)
    requires WF(S) && p in S.h && S.owner[p] == NULL
    ensures WF(Prune(S, p))
  {
    var S2 := Prune(S, p);
    var gone := Sub(S, p);
    assert NodeOk(S, p);
    forall n | n in S2.h ensures NodeOk(S2, n) {
      assert NodeOk(S, n);
      var on := S.owner[n];
      if on != NULL && on in gone {
        var k :| 0 <= k < |S.kids[on]| && S.kids[on][k] == n;
        SubBelow(S, p);
        SubDown(S, p, on, k);
      }
    }
    forall n, i | n in S2.h && 0 <= i < |S2.kids[n]| ensures KidOk(S2, n, i) {
      assert KidOk(S, n, i);
      var c := S.kids[n][i];
      if c in gone {
        SubUp(S, p, c);
      }
    }
  }

  /** What jmscott_halloc_free does to the tree: p leaves its owner's list
      and its subtree leaves the arena. */
  function FreeShape(S: Shape, p: Ptr): Shape
    requires WF(S) && p in S.h
  {
    UnhookWF(S, p);
    Prune(Unhook(S, p), p)
  }

  lemma FreeShapeWF(S: Shape, p: Ptr)
    requires WF(S) && p in S.h
    ensures WF(FreeShape(S, p))
  {
    UnhookWF(S, p);
    PruneWF(Unhook(S, p), p);
  }

  /** After free exactly p's subtree is gone, and no surviving node
      changes except p's owner and p's two former neighbours. */
  lemma FreeKeeps(S: Shape, p: Ptr)
    requires WF(S) && p in S.h
    ensures var R := FreeShape(S, p);
      R.h.Keys == S.h.Keys - Sub(S, p) &&
      (forall x :: x in R.h && x != S.owner[p] && x != S.h[p].previous && x != S.h[p].next ==>
        R.h[x] == S.h[x] && R.kids[x] == S.kids[x])
  {
    UnhookWF(S, p);
    var o := S.owner[p];
    if o != NULL {
      var D := Detach(S, p);
      SubBelow(S, p);
      forall x | x in D.h && x != o && x != p && x != S.h[p].previous && x != S.h[p].next
        ensures D.h[x] == S.h[x] && D.kids[x] == S.kids[x]
      {
        assert D.h[x] == DetachHeader(S, p, x);
      }
    }
  }

  /** After free p is no longer in its owner's list, and the owner's other
      children keep their order. */
  lemma FreeUnlinks(S: Shape, p: Ptr)
    requires WF(S) && p in S.h && S.owner[p] != NULL
    ensures var R := FreeShape(S, p); var o := S.owner[p];
      o in R.h && p in S.kids[o] &&
      R.kids[o] == Remove(S.kids[o], IndexOf(S.kids[o], p)) && p !in R.kids[o]
  {
    UnhookWF(S, p);
    var o := S.owner[p];
    DetachParts(S, p);
    SubBelow(S, p);
    var ks := S.kids[o];
    var j := IndexOf(ks, p);
    assert KidOk(S, o, j) && NodeOk(S, o);
    assert o !in Sub(S, p);
    RemoveKeeps(ks, j, p);
  }

  // ----- Adopt -----

  /** jmscott_halloc_adopt's tree: p out of its old list, onto P's tail. */
  function Adopted(S: Shape, P: Ptr, p: Ptr): Shape
    requires WF(S) && p in S.h && P in S.h && P !in Sub(S, p)
  {
    UnhookWF(S, p);
    Append(Unhook(S, p), P, p)
  }

  /** Adopt keeps the shape well formed, and p's subtree moves with it
      unchanged. */
  lemma AdoptedWF(S: Shape, P: Ptr, p: Ptr)
    requires WF(S) && p in S.h && P in S.h && P !in Sub(S, p)
    ensures var A := Adopted(S, P, p);
      WF(A) && A.h.Keys == S.h.Keys && Sub(A, p) == Sub(S, p) &&
      (forall pass :: Trace(A, p, pass) == Trace(S, p, pass))
  {
    UnhookWF(S, p);
    AppendWF(Unhook(S, p), P, p);
  }

  /** After adopt p is P's last child, behind P's earlier children in their
      old order. */
  lemma AdoptAppends(S: Shape, P: Ptr, p: Ptr)
    requires WF(S) && p in S.h && P in S.h && P !in Sub(S, p) && P != S.owner[p]
    ensures Adopted(S, P, p).owner[p] == P && Adopted(S, P, p).kids[P] == S.kids[P] + [p]
  {
    UnhookWF(S, p);
    var U := Unhook(S, p);
    if S.owner[p] != NULL {
      assert U.kids[P] == S.kids[P];
    }
  }

  /** The recorded parent is left as it was: after an adopt that moved p,
      p's parent field no longer names the node whose list holds it. */
  lemma AdoptLeavesParent(S: Shape, P: Ptr, p: Ptr)
    requires WF(S) && p in S.h && P in S.h && P !in Sub(S, p)
    ensures var A := Adopted(S, P, p);
      p in A.h && A.owner[p] == P && A.h[p].parent == S.h[p].parent &&
      (ParentOk(A, p) <==> S.h[p].parent == P)
  {
    UnhookWF(S, p);
    var U := Unhook(S, p);
    var A := Append(U, P, p);
    assert A.h[p] == AppendHeader(U, P, p, p);
    if S.owner[p] != NULL {
      assert U.h[p] == DetachHeader(S, p, p);
    }
  }

  /** T with q's parent field set to v; no link the tree is read from changes. */
  function WithParent(T: Shape, q: Ptr, v: Ptr): (r: Shape)
    requires q in T.h
  {
    T.(h := T.h[q := T.h[q].(parent := v)])
  }

  /** Setting a parent field keeps the shape well formed, q's subtree and
      its walks. */
  lemma WithParentWF(T: Shape, q: Ptr, v: Ptr)
    requires WF(T) && q in T.h
    ensures var R := WithParent(T, q, v);
      WF(R) && q in R.h && Sub(R, q) == Sub(T, q) &&
      (forall pass :: Trace(R, q, pass) == Trace(T, q, pass))
  {
    var R := WithParent(T, q, v);
    forall n | n in R.h ensures NodeOk(R, n) {
      assert NodeOk(T, n);
    }
    forall n, i | n in R.h && 0 <= i < |R.kids[n]| ensures KidOk(R, n, i) {
      assert KidOk(T, n, i);
    }
    SubSame(T, R, q);
  }

  /** The adopt that also records the new parent: Adopted, with p's parent
      field naming P. */
  function AdoptedRecorded(S: Shape, P: Ptr, p: Ptr): (r: Shape)
    requires WF(S) && p in S.h && P in S.h && P !in Sub(S, p)
  {
    AdoptedWF(S, P, p);
    WithParent(Adopted(S, P, p), p, P)
  }

  /** Recording the parent keeps the tree of Adopted, its subtree and its
      walks, and makes p's parent field name the node whose list holds it. */
  lemma AdoptedRecordedWF(S: Shape, P: Ptr, p: Ptr)
    requires WF(S) && p in S.h && P in S.h && P !in Sub(S, p)
    ensures var R := AdoptedRecorded(S, P, p);
      WF(R) && R.h.Keys == S.h.Keys && p in R.h && ParentOk(R, p) && R.owner[p] == P &&
      R.kids == Adopted(S, P, p).kids && Sub(R, p) == Sub(S, p) &&
      (forall pass :: Trace(R, p, pass) == Trace(S, p, pass))
  {
    AdoptedWF(S, P, p);
    AdoptLeavesParent(S, P, p);
    WithParentWF(Adopted(S, P, p), p, P);
  }

  // ----- Resize -----

  /** A block that realloc resized in place: only its payload changes. */
  function SetPayload(S: Shape, m: Ptr, pl: seq<char>): (r: Shape)
    requires m in S.h
    ensures r.kids == S.kids && r.owner == S.owner && r.rank == S.rank && r.h.Keys == S.h.Keys
    ensures forall x :: x in S.h && x != m ==> r.h[x] == S.h[x]
  {
    S.(h := S.h[m := S.h[m].(payload := pl)])
  }

  lemma SetPayloadWF(S: Shape, m: Ptr, pl: seq<char>)
    requires WF(S) && m in S.h
    ensures WF(SetPayload(S, m, pl))
  {
    var S2 := SetPayload(S, m, pl);
    forall n | n in S2.h ensures NodeOk(S2, n) {
      assert NodeOk(S, n);
    }
    forall n, i | n in S2.h && 0 <= i < |S2.kids[n]| ensures KidOk(S2, n, i) {
      assert KidOk(S, n, i);
    }
  }

  /** A block that realloc moved from m to m2: m2 takes m's place in its
      owner's list and between its siblings, m's children record m2 as
      their parent, and m is gone. */
  function Rename(S: Shape, m: Ptr, m2: Ptr, pl: seq<char>): (r: Shape)
    requires WF(S) && m in S.h && m2 !in S.h && m2 != NULL
    ensures r.h.Keys == S.h.Keys - {m} + {m2} && Domains(r)
  {
    var keys := S.h.Keys - {m} + {m2};
    Shape(map x | x in keys :: RenameHeader(S, m, m2, pl, x),
          map x | x in keys :: RenameKids(S, m, m2, x),
          map x | x in keys :: RenameOwner(S, m, m2, x),
          map x | x in keys :: if x == m2 then S.rank[m] else S.rank[x])
  }

  /** Node x's header after the move.  Links are repaired through m's own
      copied fields: its children, its next and previous siblings, and
      when it was an end of the list, its recorded parent's head or tail. */
  function RenameHeader(S: Shape, m: Ptr, m2: Ptr, pl: seq<char>, x: Ptr): (r: Header)
    requires WF(S) && m in S.h && (x == m2 || (x in S.h && x != m))
    ensures x != m2 ==> r.callbacks == S.h[x].callbacks && r.payload == S.h[x].payload
    ensures x != m2 && x != S.h[m].parent ==>
      r.childHead == S.h[x].childHead && r.childTail == S.h[x].childTail
  {
    var old_ := S.h[m];
    if x == m2 then old_.(payload := pl)
    else
      var hd := S.h[x];
      if x in S.kids[m] then hd.(parent := m2)
      else if x == old_.next then hd.(previous := m2)
      else if x == old_.previous then hd.(next := m2)
      else if x == old_.parent then
        hd.(childTail := if old_.next == NULL then m2 else hd.childTail,
            childHead := if old_.previous == NULL then m2 else hd.childHead)
      else hd
  }

  function RenameKids(S: Shape, m: Ptr, m2: Ptr, x: Ptr): seq<Ptr>
    requires WF(S) && m in S.h && (x == m2 || (x in S.h && x != m))
  {
    if x == m2 then S.kids[m]
    else if x == S.owner[m] && m in S.kids[x] then S.kids[x][IndexOf(S.kids[x], m) := m2]
    else S.kids[x]
  }

  function RenameOwner(S: Shape, m: Ptr, m2: Ptr, x: Ptr): Ptr
    requires WF(S) && m in S.h && (x == m2 || (x in S.h && x != m))
  {
    if x == m2 then S.owner[m] else if x in S.kids[m] then m2 else S.owner[x]
  }

  /** Where m sits: its owner (recorded as its parent), its neighbours and
      its children are all different nodes, none of them m or m2. */
  lemma RenameParts(S: Shape, m: Ptr, m2: Ptr)
    requires WF(S) && m in S.h && m2 !in S.h && m2 != NULL && ParentOk(S, m)
    ensures S.h[m].parent == S.owner[m] && S.owner[m] != m
    ensures S.owner[m] !in S.kids[m] && m !in S.kids[m]
    ensures var o := S.owner[m]; var hd := S.h[m];
      o != NULL ==> (o in S.h && m in S.kids[o] && m2 !in S.kids[o] &&
        hd.previous == Before(S.kids[o], IndexOf(S.kids[o], m)) &&
        hd.next == After(S.kids[o], IndexOf(S.kids[o], m)))
    ensures S.owner[m] == NULL ==> S.h[m].previous == NULL && S.h[m].next == NULL
    ensures var o := S.owner[m]; var prev := S.h[m].previous;
      prev != NULL ==> (prev in S.h && S.owner[prev] == o && prev != m && prev != o &&
        prev != S.h[m].next && prev !in S.kids[m])
    ensures var o := S.owner[m]; var nxt := S.h[m].next;
      nxt != NULL ==> (nxt in S.h && S.owner[nxt] == o && nxt != m && nxt != o && nxt !in S.kids[m])
    ensures forall k :: 0 <= k < |S.kids[m]| ==>
      S.kids[m][k] in S.h && S.owner[S.kids[m][k]] == m && S.kids[m][k] != m2
  {
    var o := S.owner[m];
    assert NodeOk(S, m);
    var ks := S.kids[m];
    forall k | 0 <= k < |ks|
      ensures ks[k] in S.h && S.owner[ks[k]] == m && ks[k] != m2 && S.rank[ks[k]] < S.rank[m]
    {
      assert KidOk(S, m, k);
    }
    if o != NULL {
      assert NodeOk(S, o);
      var os := S.kids[o];
      var j := IndexOf(os, m);
      assert KidOk(S, o, j);
      if j > 0 {
        assert KidOk(S, o, j - 1);
      }
      if j + 1 < |os| {
        assert KidOk(S, o, j + 1);
      }
      forall k | 0 <= k < |os| ensures os[k] != m2 {
        assert KidOk(S, o, k);
      }
    }
  }

  /** The move keeps the shape well formed. */
  lemma RenameWF(S: Shape, m: Ptr, m2: Ptr, pl: seq<char>)
    requires WF(S) && m in S.h && m2 !in S.h && m2 != NULL && ParentOk(S, m)
    ensures WF(Rename(S, m, m2, pl))
  {
    var R := Rename(S, m, m2, pl);
    forall n | n in R.h ensures NodeOk(R, n) {
      RenameNodeOk(S, m, m2, pl, n);
    }
    forall n, i | n in R.h && 0 <= i < |R.kids[n]| ensures KidOk(R, n, i) {
      RenameKidOk(S, m, m2, pl, n, i);
    }
  }

  lemma RenameNodeOk(S: Shape, m: Ptr, m2: Ptr, pl: seq<char>, n: Ptr)
    requires WF(S) && m in S.h && m2 !in S.h && m2 != NULL && ParentOk(S, m)
    requires n in Rename(S, m, m2, pl).h
    ensures NodeOk(Rename(S, m, m2, pl), n)
  {
    var R := Rename(S, m, m2, pl);
    var o := S.owner[m];
    RenameParts(S, m, m2);
    var hd := RenameHeader(S, m, m2, pl, n);
    assert R.h[n] == hd && R.kids[n] == RenameKids(S, m, m2, n) && R.owner[n] == RenameOwner(S, m, m2, n);
    if n == m2 {
      assert NodeOk(S, m);
      if o != NULL {
        RenameInOwner(S, m, m2, pl);
      }
    } else if n == o {
      assert NodeOk(S, o);
      RenameOwnerEnds(S, m, m2, pl);
      RenameOwnerOk(S, m, m2, pl, n);
    } else {
      assert NodeOk(S, n);
      RenameOwnerOk(S, m, m2, pl, n);
    }
  }

  /** m2 stands where m stood in its owner's list. */
  lemma RenameInOwner(S: Shape, m: Ptr, m2: Ptr, pl: seq<char>)
    requires WF(S) && m in S.h && m2 !in S.h && m2 != NULL && ParentOk(S, m)
    requires S.owner[m] != NULL
    ensures var R := Rename(S, m, m2, pl); var o := S.owner[m];
      o in S.h && o in R.h && m in S.kids[o] &&
      R.kids[o] == S.kids[o][IndexOf(S.kids[o], m) := m2] && m2 in R.kids[o]
  {
    var R := Rename(S, m, m2, pl);
    var o := S.owner[m];
    RenameParts(S, m, m2);
    assert R.kids[o] == RenameKids(S, m, m2, o);
    var j := IndexOf(S.kids[o], m);
    assert R.kids[o][j] == m2;
  }

  /** The owner's head and tail name the ends of its list with m2 in it. */
  lemma RenameOwnerEnds(S: Shape, m: Ptr, m2: Ptr, pl: seq<char>)
    requires WF(S) && m in S.h && m2 !in S.h && m2 != NULL && ParentOk(S, m)
    requires S.owner[m] != NULL
    ensures var R := Rename(S, m, m2, pl); var o := S.owner[m];
      o in R.h && R.h[o].childHead == First(R.kids[o]) && R.h[o].childTail == Last(R.kids[o]) &&
      Distinct(R.kids[o])
  {
    var R := Rename(S, m, m2, pl);
    var o := S.owner[m];
    RenameInOwner(S, m, m2, pl);
    RenameOwnerHeader(S, m, m2, pl);
    assert R.h[o] == RenameHeader(S, m, m2, pl, o);
    RenameParts(S, m, m2);
    assert NodeOk(S, o);
    ReplaceDistinct(S.kids[o], IndexOf(S.kids[o], m), m2);
  }

  /** The owner's header after the rename: an end that was m is now m2. */
  lemma RenameOwnerHeader(S: Shape, m: Ptr, m2: Ptr, pl: seq<char>)
    requires WF(S) && m in S.h && m2 !in S.h && m2 != NULL && ParentOk(S, m)
    requires S.owner[m] != NULL
    ensures S.owner[m] in S.h && S.owner[m] != m && m in S.kids[S.owner[m]]
    ensures var o := S.owner[m]; var os := S.kids[o]; var j := IndexOf(os, m);
      RenameHeader(S, m, m2, pl, o).childHead == (if j == 0 then m2 else os[0]) &&
      RenameHeader(S, m, m2, pl, o).childTail == (if j + 1 == |os| then m2 else os[|os| - 1])
  {
    var o := S.owner[m];
    var old_ := S.h[m];
    RenameParts(S, m, m2);
    assert NodeOk(S, o);
    var os := S.kids[o];
    var j := IndexOf(os, m);
    assert o !in S.kids[m] && o != old_.next && o != old_.previous && o == old_.parent;
    if j > 0 {
      assert KidOk(S, o, j - 1);
    }
    if j + 1 < |os| {
      assert KidOk(S, o, j + 1);
    }
    assert (old_.previous == NULL) == (j == 0);
    assert (old_.next == NULL) == (j + 1 == |os|);
  }

  lemma ReplaceDistinct(ks: seq<Ptr>, j: nat, x: Ptr)
    requires j < |ks| && Distinct(ks) && x !in ks
    ensures Distinct(ks[j := x])
  {
    var r := ks[j := x];
    forall a, b | 0 <= a < b < |r| ensures r[a] != r[b] {
      if a == j || b == j {
        assert ks[if a == j then b else a] in ks;
      }
    }
  }

  /** A node other than m2 keeps its owner, or has m2 as owner if it was
      m's child, and stays in its owner's list; roots keep no siblings. */
  lemma RenameOwnerOk(S: Shape, m: Ptr, m2: Ptr, pl: seq<char>, n: Ptr)
    requires WF(S) && m in S.h && m2 !in S.h && m2 != NULL && ParentOk(S, m)
    requires n in S.h && n != m
    ensures var R := Rename(S, m, m2, pl); var on := R.owner[n];
      n in R.h && (on == NULL || (on in R.h && n in R.kids[on])) &&
      (on == NULL ==> R.h[n].previous == NULL && R.h[n].next == NULL)
  {
    RenameParts(S, m, m2);
    if n in S.kids[m] {
      RenameOwnerOkMoved(S, m, m2, pl, n);
    } else if S.owner[n] == S.owner[m] && S.owner[n] != NULL {
      RenameOwnerOkSibling(S, m, m2, pl, n);
    } else {
      RenameOwnerOkOther(S, m, m2, pl, n);
    }
  }

  lemma RenameOwnerOkMoved(S: Shape, m: Ptr, m2: Ptr, pl: seq<char>, n: Ptr)
    requires WF(S) && m in S.h && m2 !in S.h && m2 != NULL && ParentOk(S, m)
    requires n in S.h && n != m && n in S.kids[m]
    ensures var R := Rename(S, m, m2, pl);
      n in R.h && m2 in R.h && R.owner[n] == m2 && n in R.kids[m2]
  {
    var R := Rename(S, m, m2, pl);
    RenameParts(S, m, m2);
    assert R.owner[n] == RenameOwner(S, m, m2, n);
    assert R.kids[m2] == S.kids[m];
  }

  lemma RenameOwnerOkSibling(S: Shape, m: Ptr, m2: Ptr, pl: seq<char>, n: Ptr)
    requires WF(S) && m in S.h && m2 !in S.h && m2 != NULL && ParentOk(S, m)
    requires n in S.h && n != m && n !in S.kids[m] && S.owner[n] == S.owner[m] != NULL
    ensures var R := Rename(S, m, m2, pl); var o := S.owner[m];
      n in R.h && o in R.h && R.owner[n] == o && n in R.kids[o]
  {
    var R := Rename(S, m, m2, pl);
    var o := S.owner[m];
    RenameParts(S, m, m2);
    assert NodeOk(S, n);
    assert R.owner[n] == RenameOwner(S, m, m2, n);
    RenameInOwner(S, m, m2, pl);
    var j :| 0 <= j < |S.kids[o]| && S.kids[o][j] == n;
    assert R.kids[o][j] == n;
  }

  lemma RenameOwnerOkOther(S: Shape, m: Ptr, m2: Ptr, pl: seq<char>, n: Ptr)
    requires WF(S) && m in S.h && m2 !in S.h && m2 != NULL && ParentOk(S, m)
    requires n in S.h && n != m && n !in S.kids[m]
    requires S.owner[n] != S.owner[m] || S.owner[n] == NULL
    ensures var R := Rename(S, m, m2, pl); var on := S.owner[n];
      n in R.h && R.owner[n] == on && (on == NULL || (on in R.h && n in R.kids[on])) &&
      (on == NULL ==> R.h[n].previous == NULL && R.h[n].next == NULL)
  {
    var R := Rename(S, m, m2, pl);
    RenameParts(S, m, m2);
    assert NodeOk(S, n);
    assert R.h[n] == RenameHeader(S, m, m2, pl, n) && R.owner[n] == RenameOwner(S, m, m2, n);
    var on := S.owner[n];
    if on != NULL {
      assert on != m;
      assert R.kids[on] == RenameKids(S, m, m2, on) == S.kids[on];
    }
  }

  lemma RenameKidOk(S: Shape, m: Ptr, m2: Ptr, pl: seq<char>, n: Ptr, i: nat)
    requires WF(S) && m in S.h && m2 !in S.h && m2 != NULL && ParentOk(S, m)
    requires n in Rename(S, m, m2, pl).h && i < |Rename(S, m, m2, pl).kids[n]|
    ensures KidOk(Rename(S, m, m2, pl), n, i)
  {
    var R := Rename(S, m, m2, pl);
    var o := S.owner[m];
    RenameParts(S, m, m2);
    assert R.kids[n] == RenameKids(S, m, m2, n);
    if n == m2 {
      RenameKidOkMoved(S, m, m2, pl, i);
    } else if n == o {
      RenameKidOkOwner(S, m, m2, pl, i);
    } else {
      RenameKidOkOther(S, m, m2, pl, n, i);
    }
  }

  /** m's children, now under m2, keep their sibling links. */
  lemma RenameKidOkMoved(S: Shape, m: Ptr, m2: Ptr, pl: seq<char>, i: nat)
    requires WF(S) && m in S.h && m2 !in S.h && m2 != NULL && ParentOk(S, m)
    requires i < |S.kids[m]|
    ensures var R := Rename(S, m, m2, pl); m2 in R.h && i < |R.kids[m2]| && KidOk(R, m2, i)
  {
    var R := Rename(S, m, m2, pl);
    RenameParts(S, m, m2);
    assert R.kids[m2] == S.kids[m];
    assert KidOk(S, m, i);
    var c := S.kids[m][i];
    assert R.h[c] == RenameHeader(S, m, m2, pl, c);
    assert R.owner[c] == RenameOwner(S, m, m2, c);
  }

  /** Children of any other node are untouched. */
  lemma RenameKidOkOther(S: Shape, m: Ptr, m2: Ptr, pl: seq<char>, n: Ptr, i: nat)
    requires WF(S) && m in S.h && m2 !in S.h && m2 != NULL && ParentOk(S, m)
    requires n in S.h && n != m && n != S.owner[m] && i < |S.kids[n]|
    ensures var R := Rename(S, m, m2, pl); n in R.h && i < |R.kids[n]| && KidOk(R, n, i)
  {
    var R := Rename(S, m, m2, pl);
    RenameParts(S, m, m2);
    assert R.kids[n] == RenameKids(S, m, m2, n) == S.kids[n];
    assert KidOk(S, n, i);
    var c := S.kids[n][i];
    assert c != m && c !in S.kids[m];
    var hd := RenameHeader(S, m, m2, pl, c);
    assert c != S.h[m].previous && c != S.h[m].next;
    assert hd.previous == S.h[c].previous && hd.next == S.h[c].next;
    assert R.h[c] == hd && R.owner[c] == RenameOwner(S, m, m2, c);
  }

  /** m's siblings: m2 and its two neighbours link to each other. */
  lemma RenameKidOkOwner(S: Shape, m: Ptr, m2: Ptr, pl: seq<char>, i: nat)
    requires WF(S) && m in S.h && m2 !in S.h && m2 != NULL && ParentOk(S, m)
    requires S.owner[m] in S.h && i < |S.kids[S.owner[m]]|
    ensures var R := Rename(S, m, m2, pl); var o := S.owner[m];
      o in R.h && i < |R.kids[o]| && KidOk(R, o, i)
  {
    var R := Rename(S, m, m2, pl);
    var o := S.owner[m];
    RenameParts(S, m, m2);
    RenameInOwner(S, m, m2, pl);
    var os := S.kids[o];
    var j := IndexOf(os, m);
    var os2 := R.kids[o];
    assert KidOk(S, o, i);
    if i == j {
      assert os2[i] == m2;
      assert R.h[m2] == RenameHeader(S, m, m2, pl, m2) && R.owner[m2] == RenameOwner(S, m, m2, m2);
    } else {
      var c := os[i];
      assert NodeOk(S, o);
      assert c != m && S.owner[c] == o;
      assert os2[i] == c && c !in S.kids[m] && c in R.h;
      var hd := RenameHeader(S, m, m2, pl, c);
      assert R.h[c] == hd && R.owner[c] == RenameOwner(S, m, m2, c);
      RenameSibling(S, m, m2, pl, i);
    }
  }

  lemma RenameSibling(S: Shape, m: Ptr, m2: Ptr, pl: seq<char>, i: nat)
    requires WF(S) && m in S.h && m2 !in S.h && m2 != NULL && ParentOk(S, m)
    requires S.owner[m] in S.h && i < |S.kids[S.owner[m]]|
    requires S.kids[S.owner[m]][i] != m
    ensures var o := S.owner[m]; var os := S.kids[o]; var c := os[i];
      m in os && c in S.h && c != m &&
      var os2 := os[IndexOf(os, m) := m2];
      RenameHeader(S, m, m2, pl, c).previous == Before(os2, i) &&
      RenameHeader(S, m, m2, pl, c).next == After(os2, i)
  {
    var o := S.owner[m];
    RenameParts(S, m, m2);
    var os := S.kids[o];
    var j := IndexOf(os, m);
    assert KidOk(S, o, i) && NodeOk(S, o);
    var c := os[i];
    if i + 1 == j {
      assert c == S.h[m].previous;
    } else if i == j + 1 {
      assert c == S.h[m].next;
    } else {
      assert c != S.h[m].previous && c != S.h[m].next;
    }
  }
}
