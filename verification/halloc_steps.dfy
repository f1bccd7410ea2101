/*
 * The pointer assignments of clib/halloc.c, written as functions on the
 * header map, one C statement per step and in the C order, and proofs
 * that each group of them performs one of the tree edits of HAllocEdit:
 *
 *   FreeUnlink   jmscott_halloc_free, lines 242-254   Detach (when the recorded parent is the owner)
 *   AdoptUnlink  jmscott_halloc_adopt, lines 85-105   Detach
 *   AdoptRelink  jmscott_halloc_adopt, lines 109-110  (no effect, see AdoptRelinkRedundant)
 *   WireTail     jmscott_halloc 158-164, adopt 116-120  Append
 *   Relink       jmscott_halloc_resize, lines 347-362  Rename
 *
 * The methods of HAlloc.Arena execute the same statements on their own
 * header map and are proved equal to these functions.
 */
module HAllocSteps {
  import opened HAllocTree
  import opened HAllocEdit

  /** The headers of the arena, by address. */
  type Heap = map<Ptr, Header>

  // ----- single assignments -----

  /** `x->next = v` */
  function SetNext(h: Heap, x: Ptr, v: Ptr): (r: Heap)
    requires x in h
    ensures r.Keys == h.Keys
  {
    h[x := h[x].(next := v)]
  }

  /** `x->previous = v` */
  function SetPrevious(h: Heap, x: Ptr, v: Ptr): (r: Heap)
    requires x in h
    ensures r.Keys == h.Keys
  {
    h[x := h[x].(previous := v)]
  }

  /** `x->child_head = v` */
  function SetHead(h: Heap, x: Ptr, v: Ptr): (r: Heap)
    requires x in h
    ensures r.Keys == h.Keys
  {
    h[x := h[x].(childHead := v)]
  }

  /** `x->child_tail = v` */
  function SetTail(h: Heap, x: Ptr, v: Ptr): (r: Heap)
    requires x in h
    ensures r.Keys == h.Keys
  {
    h[x := h[x].(childTail := v)]
  }

  /** `x->parent = v` */
  function SetParent(h: Heap, x: Ptr, v: Ptr): (r: Heap)
    requires x in h
    ensures r.Keys == h.Keys
  {
    h[x := h[x].(parent := v)]
  }

  /** Every link of header x is null or names a live header: following
      one is defined behaviour. */
  predicate LinksIn(h: Heap, x: Ptr)
    requires x in h
  {
    var hd := h[x];
    (hd.parent == NULL || hd.parent in h) && (hd.next == NULL || hd.next in h) &&
    (hd.previous == NULL || hd.previous in h) &&
    (hd.childHead == NULL || hd.childHead in h) && (hd.childTail == NULL || hd.childTail in h)
  }

  // ----- taking a node out of its list -----

  /** jmscott_halloc_free, lines 242-254: the siblings first, then the
      recorded parent's head and tail.  The statements never write p's
      own header, so p's fields are read once. */
  function FreeUnlink(h: Heap, p: Ptr): (r: Heap)
    requires p in h && LinksIn(h, p)
    ensures r.Keys == h.Keys
  {
    var hd := h[p];
    var h1 := if hd.next != NULL then SetPrevious(h, hd.next, hd.previous) else h;
    var h2 := if hd.previous != NULL then SetNext(h1, hd.previous, hd.next) else h1;
    if hd.parent == NULL then h2
    else
      var h3 := if h2[hd.parent].childHead == p then SetHead(h2, hd.parent, hd.next) else h2;
      if h3[hd.parent].childTail == p then SetTail(h3, hd.parent, hd.previous) else h3
  }

  /** jmscott_halloc_adopt, lines 85-105, run when p has a recorded parent:
      the recorded parent's head and tail first, then the siblings. */
  function AdoptUnlink(h: Heap, p: Ptr): (r: Heap)
    requires p in h && LinksIn(h, p) && h[p].parent != NULL
    ensures r.Keys == h.Keys
  {
    var hd := h[p];
    var R := hd.parent;
    var h1 := if h[R].childHead == p then SetHead(h, R, hd.next) else h;
    var h2 := if h1[R].childTail == p then SetTail(h1, R, hd.previous) else h1;
    var h3 := if hd.previous != NULL then SetNext(h2, hd.previous, hd.next) else h2;
    if hd.next != NULL then SetPrevious(h3, hd.next, hd.previous) else h3
  }

  /** Header x once p's neighbours and p's recorded parent have let go of
      p: the neighbours name each other, and a parent whose head or tail
      was p moves it to the neighbour.  p keeps its own fields. */
  function SpliceOut(h: Heap, p: Ptr, x: Ptr): Header
    requires p in h && x in h
  {
    var hd := h[p];
    if x == p then hd
    else if x == hd.next then h[x].(previous := hd.previous)
    else if x == hd.previous then h[x].(next := hd.next)
    else if x == hd.parent then
      h[x].(childHead := if h[x].childHead == p then hd.next else h[x].childHead,
            childTail := if h[x].childTail == p then hd.previous else h[x].childTail)
    else h[x]
  }

  /** The unlink statements touch four different headers, so their order
      does not matter: p, its two neighbours, and its recorded parent
      (which may coincide with p or a neighbour only when its head and
      tail are not p, and is then left alone). */
  predicate Spliceable(h: Heap, p: Ptr) {
    NULL !in h && p in h && LinksIn(h, p) &&
    var hd := h[p];
    hd.next != p && hd.previous != p &&
    (hd.next != NULL ==> hd.next != hd.previous) &&
    (hd.parent != NULL && (hd.parent == p || hd.parent == hd.next || hd.parent == hd.previous) ==>
      h[hd.parent].childHead != p && h[hd.parent].childTail != p)
  }

  /** Both unlink orders leave each header as SpliceOut says. */
  lemma FreeUnlinkSplices(h: Heap, p: Ptr)
    requires Spliceable(h, p)
    ensures FreeUnlink(h, p) == map x | x in h :: SpliceOut(h, p, x)
  {
    var r := FreeUnlink(h, p);
    forall x | x in h ensures r[x] == SpliceOut(h, p, x) {
    }
  }

  lemma AdoptUnlinkSplices(h: Heap, p: Ptr)
    requires Spliceable(h, p) && h[p].parent != NULL
    ensures AdoptUnlink(h, p) == map x | x in h :: SpliceOut(h, p, x)
  {
    var r := AdoptUnlink(h, p);
    forall x | x in h ensures r[x] == SpliceOut(h, p, x) {
    }
  }

  /** A node whose child list starts or ends with p is p's owner. */
  lemma EndsOwner(S: Shape, R: Ptr, p: Ptr)
    requires WF(S) && R in S.h && p != NULL
    requires S.h[R].childHead == p || S.h[R].childTail == p
    ensures p in S.h && S.owner[p] == R && p in S.kids[R]
  {
    assert NodeOk(S, R);
    var ks := S.kids[R];
    if S.h[R].childHead == p {
      assert KidOk(S, R, 0);
    } else {
      assert KidOk(S, R, |ks| - 1);
    }
  }

  /** The links of a node of a well-formed shape lead to live headers. */
  lemma WFLinksIn(S: Shape, x: Ptr)
    requires WF(S) && x in S.h && (S.h[x].parent == NULL || S.h[x].parent in S.h)
    ensures LinksIn(S.h, x)
  {
    assert NodeOk(S, x);
    var ks := S.kids[x];
    if ks != [] {
      assert KidOk(S, x, 0) && KidOk(S, x, |ks| - 1);
    }
    if S.owner[x] != NULL {
      DetachParts(S, x);
    }
  }

  /** In a well-formed shape a node can be unlinked, whatever its recorded
      parent, as long as that parent is live. */
  lemma WFSpliceable(S: Shape, p: Ptr)
    requires WF(S) && p in S.h && (S.h[p].parent == NULL || S.h[p].parent in S.h)
    ensures Spliceable(S.h, p)
  {
    WFLinksIn(S, p);
    assert NodeOk(S, p);
    var hd := S.h[p];
    var R := hd.parent;
    if S.owner[p] != NULL {
      DetachParts(S, p);
    }
    if R != NULL && (S.h[R].childHead == p || S.h[R].childTail == p) {
      EndsOwner(S, R, p);
    }
  }

  /** The ends of a list without its j-th element: the neighbour of the
      removed element when it was an end, the old end otherwise. */
  lemma RemoveEnds(ks: seq<Ptr>, j: nat)
    requires j < |ks| && Distinct(ks)
    ensures First(Remove(ks, j)) == if First(ks) == ks[j] then After(ks, j) else First(ks)
    ensures Last(Remove(ks, j)) == if Last(ks) == ks[j] then Before(ks, j) else Last(ks)
  {
    var r := Remove(ks, j);
    if |ks| > 1 {
      assert First(ks) == ks[j] <==> j == 0;
      assert Last(ks) == ks[j] <==> j == |ks| - 1;
      if j == 0 {
        assert r[0] == ks[1];
      } else {
        assert r[0] == ks[0];
      }
      if j == |ks| - 1 {
        assert r[|r| - 1] == ks[j - 1];
      } else {
        assert r[|r| - 1] == ks[|ks| - 1];
      }
    }
  }

  /** When the recorded parent is the owner, unlinking is Detach (p keeps
      its sibling fields, which the C code never clears). */
  lemma SpliceOutDetach(S: Shape, p: Ptr, x: Ptr)
    requires WF(S) && p in S.h && ParentOk(S, p) && x in S.h
    ensures SpliceOut(S.h, p, x) == Unhook(S, p).h[p := S.h[p]][x]
  {
    var o := S.owner[p];
    assert NodeOk(S, p);
    if o != NULL && x != p {
      DetachParts(S, p);
      var D := Detach(S, p);
      assert D.h[x] == DetachHeader(S, p, x);
      if x == o {
        assert NodeOk(S, o);
        RemoveEnds(S.kids[o], IndexOf(S.kids[o], p));
      }
    }
  }

  /** The free and adopt unlink statements, applied to a node whose
      recorded parent is its owner, perform Detach. */
  lemma UnlinkIsDetach(S: Shape, p: Ptr)
    requires WF(S) && p in S.h && ParentOk(S, p)
    ensures Spliceable(S.h, p)
    ensures FreeUnlink(S.h, p) == Unhook(S, p).h[p := S.h[p]]
    ensures S.h[p].parent != NULL ==> AdoptUnlink(S.h, p) == Unhook(S, p).h[p := S.h[p]]
  {
    assert NodeOk(S, p);
    WFSpliceable(S, p);
    FreeUnlinkSplices(S.h, p);
    if S.h[p].parent != NULL {
      AdoptUnlinkSplices(S.h, p);
    }
    SplicedIsDetached(S, p);
  }

  lemma SplicedIsDetached(S: Shape, p: Ptr)
    requires WF(S) && p in S.h && ParentOk(S, p)
    ensures (map x | x in S.h :: SpliceOut(S.h, p, x)) == Unhook(S, p).h[p := S.h[p]]
  {
    UnhookWF(S, p);
    forall x | x in S.h ensures SpliceOut(S.h, p, x) == Unhook(S, p).h[p := S.h[p]][x] {
      SpliceOutDetach(S, p, x);
    }
  }

  /** p's owner and siblings lie outside p's subtree. */
  lemma KinOutside(S: Shape, p: Ptr)
    requires WF(S) && p in S.h
    ensures S.owner[p] != NULL ==> S.owner[p] !in Sub(S, p)
    ensures S.h[p].next != NULL ==> S.h[p].next !in Sub(S, p)
    ensures S.h[p].previous != NULL ==> S.h[p].previous !in Sub(S, p)
  {
    var o := S.owner[p];
    assert NodeOk(S, p);
    if o != NULL {
      DetachParts(S, p);
      SubBelow(S, p);
      assert KidOk(S, o, IndexOf(S.kids[o], p));
      var nxt, prev := S.h[p].next, S.h[p].previous;
      if nxt != NULL && nxt in Sub(S, p) {
        SubUp(S, p, nxt);
      }
      if prev != NULL && prev in Sub(S, p) {
        SubUp(S, p, prev);
      }
    }
  }

  /** Unlinking p leaves every header of p's subtree as it was, whatever
      p's recorded parent: the subtree the release walk follows is intact. */
  lemma UnlinkKeepsSub(S: Shape, p: Ptr)
    requires WF(S) && p in S.h && (S.h[p].parent == NULL || S.h[p].parent in S.h)
    ensures Spliceable(S.h, p)
    ensures forall x :: x in Sub(S, p) ==> x in S.h && FreeUnlink(S.h, p)[x] == S.h[x]
  {
    WFSpliceable(S, p);
    FreeUnlinkSplices(S.h, p);
    forall x | x in Sub(S, p) ensures x in S.h && SpliceOut(S.h, p, x) == S.h[x] {
      SpliceOutInSub(S, p, x);
    }
  }

  lemma SpliceOutInSub(S: Shape, p: Ptr, x: Ptr)
    requires WF(S) && p in S.h && (S.h[p].parent == NULL || S.h[p].parent in S.h)
    requires x in Sub(S, p)
    ensures x in S.h && SpliceOut(S.h, p, x) == S.h[x]
  {
    KinOutside(S, p);
    SubBelow(S, p);
    var R := S.h[p].parent;
    if R != NULL && (S.h[R].childHead == p || S.h[R].childTail == p) {
      EndsOwner(S, R, p);
    }
  }

  /** A free through a recorded parent that is not the owner leaves the
      owner's head or tail naming the released node. */
  lemma StaleFreeDangles(S: Shape, p: Ptr)
    requires WF(S) && p in S.h && (S.h[p].parent == NULL || S.h[p].parent in S.h)
    requires S.owner[p] != NULL && S.h[p].parent != S.owner[p]
    ensures LinksIn(S.h, p)
    ensures var o := S.owner[p]; var h := FreeUnlink(S.h, p) - Sub(S, p);
      p !in h && o in h &&
      (Last(S.kids[o]) == p ==> h[o].childTail == p) &&
      (First(S.kids[o]) == p ==> h[o].childHead == p)
  {
    var o := S.owner[p];
    UnlinkKeepsSub(S, p);
    FreeUnlinkSplices(S.h, p);
    DetachParts(S, p);
    KinOutside(S, p);
    assert NodeOk(S, o);
    assert p in Sub(S, p);
    assert SpliceOut(S.h, p, o) == S.h[o];
  }

  /** The defect of jmscott_halloc_adopt: it never assigns the moved
      node's parent field, so when the node is later freed, the new
      parent keeps the freed node as its last child. */
  lemma AdoptThenFreeDangles(S: Shape, P: Ptr, p: Ptr)
    requires WF(S) && p in S.h && P in S.h && P !in Sub(S, p) && ParentOk(S, p)
    requires S.h[p].parent != P
    ensures var A := Adopted(S, P, p); WF(A) && p in A.h && LinksIn(A.h, p)
    ensures var A := Adopted(S, P, p); var h := FreeUnlink(A.h, p) - Sub(A, p);
      WF(A) && p !in h && P in h && h[P].childTail == p
  {
    AdoptedWF(S, P, p);
    AdoptAppends(S, P, p);
    AdoptLeavesParent(S, P, p);
    var A := Adopted(S, P, p);
    assert NodeOk(S, p);
    WFLinksIn(A, p);
    StaleFreeDangles(A, p);
  }

  /** With the parent recorded, a free after the adopt is the tree edit
      FreeShape: the tree stays well formed and P no longer names p. */
  lemma RecordedAdoptThenFree(S: Shape, P: Ptr, p: Ptr)
    requires WF(S) && p in S.h && P in S.h && P !in Sub(S, p)
    ensures var R := AdoptedRecorded(S, P, p); WF(R) && p in R.h && LinksIn(R.h, p)
    ensures var R := AdoptedRecorded(S, P, p); var F := FreeShape(R, p);
      WF(R) && WF(F) && FreeUnlink(R.h, p) - Sub(R, p) == F.h &&
      P in F.h && F.h[P].childTail != p && F.h[P].childHead != p
  {
    AdoptedRecordedWF(S, P, p);
    var R := AdoptedRecorded(S, P, p);
    FreeIs(R, p);
    FreeNamesNone(R, P, p);
  }

  /** After FreeShape no surviving node names p as its first or last child. */
  lemma FreeNamesNone(T: Shape, P: Ptr, p: Ptr)
    requires WF(T) && p in T.h && P in T.h && P !in Sub(T, p)
    ensures var F := FreeShape(T, p);
      WF(F) && P in F.h && F.h[P].childTail != p && F.h[P].childHead != p
  {
    FreeShapeWF(T, p);
    FreeKeeps(T, p);
    var F := FreeShape(T, p);
    assert p in Sub(T, p);
    assert NodeOk(F, P);
    if F.kids[P] != [] {
      assert KidOk(F, P, |F.kids[P]| - 1);
      assert KidOk(F, P, 0);
    }
  }

  // ----- putting a node at a list's tail -----

  /** jmscott_halloc, lines 159-164, and jmscott_halloc_adopt, lines
      116-120: p's back link takes P's old tail, which links forward to p
      (or, for an empty list, P's head becomes p), and P's tail becomes p. */
  function WireTail(h: Heap, P: Ptr, p: Ptr): (r: Heap)
    requires P in h && p in h && (h[P].childTail == NULL || h[P].childTail in h)
    ensures r.Keys == h.Keys
  {
    var T := h[P].childTail;
    var h1 := SetPrevious(h, p, T);
    var h2 := if T != NULL then SetNext(h1, T, p) else SetHead(h1, P, p);
    SetTail(h2, P, p)
  }

  /** jmscott_halloc_adopt, lines 109-110, run after the unlink: p's back
      link takes P's tail, which links forward to p. */
  function AdoptRelink(h: Heap, P: Ptr, p: Ptr): (r: Heap)
    requires P in h && p in h && (h[P].childTail == NULL || h[P].childTail in h)
    ensures r.Keys == h.Keys
  {
    var T := h[P].childTail;
    var h1 := SetPrevious(h, p, T);
    if T != NULL then SetNext(h1, T, p) else h1
  }

  /** On a root with no siblings, WireTail is Append. */
  lemma WireTailAppends(S: Shape, P: Ptr, p: Ptr)
    requires WF(S) && p in S.h && P in S.h && S.owner[p] == NULL && P !in Sub(S, p)
    ensures S.h[P].childTail == NULL || S.h[P].childTail in S.h
    ensures WireTail(S.h, P, p) == Append(S, P, p).h
  {
    AppendParts(S, P, p);
    assert NodeOk(S, P);
    var r := WireTail(S.h, P, p);
    var A := Append(S, P, p);
    forall x | x in S.h ensures r[x] == A.h[x] {
      WireTailAt(S, P, p, x);
    }
  }

  lemma WireTailAt(S: Shape, P: Ptr, p: Ptr, x: Ptr)
    requires WF(S) && p in S.h && P in S.h && S.owner[p] == NULL && P !in Sub(S, p) && x in S.h
    requires S.h[P].childTail == NULL || S.h[P].childTail in S.h
    ensures WireTail(S.h, P, p)[x] == AppendHeader(S, P, p, x)
  {
    AppendParts(S, P, p);
    assert NodeOk(S, P) && NodeOk(S, p);
    var ks := S.kids[P];
    if ks != [] {
      assert KidOk(S, P, |ks| - 1);
      assert (ks + [p])[0] == ks[0];
    }
  }

  /** Lines 109-110 of jmscott_halloc_adopt have no effect: lines 115-120
      assign the same links again (next is cleared in between). */
  lemma AdoptRelinkRedundant(h: Heap, P: Ptr, p: Ptr)
    requires P in h && p in h && P != p
    requires h[P].childTail != p && (h[P].childTail == NULL || h[P].childTail in h)
    ensures var h1 := SetNext(AdoptRelink(h, P, p), p, NULL);
      h1[P].childTail == h[P].childTail &&
      WireTail(h1, P, p) == WireTail(SetNext(h, p, NULL), P, p)
  {
  }

  /** WireTail overwrites p's back link, so its old value does not matter. */
  lemma WireTailOverwrites(h: Heap, P: Ptr, p: Ptr, v: Ptr)
    requires P in h && p in h && P != p && (h[P].childTail == NULL || h[P].childTail in h)
    ensures WireTail(SetPrevious(h, p, v), P, p) == WireTail(h, P, p)
  {
  }

  /** The statements of jmscott_halloc_adopt after its early returns
      (lines 85-120) move p to the tail of P's list: they perform Adopted. */
  lemma AdoptSteps(S: Shape, P: Ptr, p: Ptr)
    requires WF(S) && p in S.h && P in S.h && P !in Sub(S, p) && ParentOk(S, p)
    requires S.h[p].parent != P
    ensures LinksIn(S.h, p) && P != p
    ensures S.h[p].parent != NULL ==>
      var h1 := AdoptUnlink(S.h, p);
      h1[P].childTail != p && (h1[P].childTail == NULL || h1[P].childTail in h1) &&
      var h2 := SetNext(AdoptRelink(h1, P, p), p, NULL);
      h2[P].childTail == h1[P].childTail &&
      WireTail(h2, P, p) == Adopted(S, P, p).h
    ensures S.h[p].parent == NULL ==>
      (S.h[P].childTail == NULL || S.h[P].childTail in S.h) &&
      WireTail(SetNext(S.h, p, NULL), P, p) == Adopted(S, P, p).h
  {
    assert NodeOk(S, p);
    WFLinksIn(S, p);
    if S.h[p].parent == NULL {
      assert SetNext(S.h, p, NULL) == S.h;
      WireTailAppends(S, P, p);
    } else {
      AdoptStepsMoved(S, P, p);
    }
  }

  lemma AdoptStepsMoved(S: Shape, P: Ptr, p: Ptr)
    requires WF(S) && p in S.h && P in S.h && P !in Sub(S, p) && ParentOk(S, p)
    requires S.h[p].parent != P && S.h[p].parent != NULL && LinksIn(S.h, p)
    ensures var h1 := AdoptUnlink(S.h, p);
      h1[P].childTail != p && (h1[P].childTail == NULL || h1[P].childTail in h1) &&
      var h2 := SetNext(AdoptRelink(h1, P, p), p, NULL);
      h2[P].childTail == h1[P].childTail &&
      WireTail(h2, P, p) == Adopted(S, P, p).h
  {
    assert p in Sub(S, p);
    UnhookWF(S, p);
    var U := Unhook(S, p);
    AppendParts(U, P, p);
    assert NodeOk(U, P);
    UnlinkIsDetach(S, p);
    var hu := U.h[p := S.h[p]];
    assert hu[P] == U.h[P];
    AdoptRelinkRedundant(hu, P, p);
    DetachedSelf(S, p);
    RestoreBackLink(U.h, S.h[p], p);
    WireTailOverwrites(U.h, P, p, S.h[p].previous);
    WireTailAppends(U, P, p);
  }

  lemma DetachedSelf(S: Shape, p: Ptr)
    requires WF(S) && p in S.h && S.owner[p] != NULL
    ensures p in Unhook(S, p).h && Unhook(S, p).h[p] == S.h[p].(previous := NULL, next := NULL)
  {
    assert Detach(S, p).h[p] == DetachHeader(S, p, p);
  }

  /** p's old header with next cleared is its unlinked header with the
      back link restored. */
  lemma RestoreBackLink(g: Heap, hd: Header, p: Ptr)
    requires p in g && g[p] == hd.(previous := NULL, next := NULL)
    ensures SetNext(g[p := hd], p, NULL) == SetPrevious(g, p, hd.previous)
  {
  }

  // ----- moving a block -----

  /** realloc moving the block from m to m2: the header is copied to m2
      with the new payload, and the block at m is gone. */
  function Moved(h: Heap, m: Ptr, m2: Ptr, pl: seq<char>): (r: Heap)
    requires m in h
    ensures r.Keys == h.Keys - {m} + {m2}
  {
    (h - {m})[m2 := h[m].(payload := pl)]
  }

  /** The nodes of ks record v as their parent. */
  function SetParents(h: Heap, ks: seq<Ptr>, v: Ptr): (r: Heap)
    ensures r.Keys == h.Keys
  {
    map x | x in h :: if x in ks then h[x].(parent := v) else h[x]
  }

  /** One more turn of the loop at lines 347-348. */
  lemma SetParentsStep(h: Heap, ks: seq<Ptr>, i: nat, v: Ptr)
    requires i < |ks| && ks[i] in h
    ensures SetParent(SetParents(h, ks[..i], v), ks[i], v) == SetParents(h, ks[..i + 1], v)
  {
    assert ks[..i + 1] == ks[..i] + [ks[i]];
  }

  /** n's child list, followed from child_head along the next links,
      visits exactly the nodes of ks, in order. */
  predicate Chained(h: Heap, n: Ptr, ks: seq<Ptr>) {
    n in h && h[n].childHead == First(ks) &&
    forall j :: 0 <= j < |ks| ==> ks[j] != NULL && ks[j] in h && h[ks[j]].next == After(ks, j)
  }

  /** The copied header at m2 still heads m's child list. */
  lemma MovedChained(S: Shape, m: Ptr, m2: Ptr, pl: seq<char>)
    requires WF(S) && m in S.h && m2 !in S.h
    ensures Chained(Moved(S.h, m, m2, pl), m2, S.kids[m])
  {
    var ks := S.kids[m];
    var h := Moved(S.h, m, m2, pl);
    assert NodeOk(S, m);
    forall j | 0 <= j < |ks| ensures ks[j] != NULL && ks[j] in h && h[ks[j]].next == After(ks, j) {
      assert KidOk(S, m, j);
    }
  }

  /** jmscott_halloc_resize, lines 355-362: the moved node's next sibling
      (or, for the tail, the recorded parent's tail) and its previous
      sibling (or, for the head, the parent's head) name n.  The
      statements never write n's own header, so its fields are read once. */
  function Relink(h: Heap, n: Ptr): (r: Heap)
    requires n in h && LinksIn(h, n)
    ensures r.Keys == h.Keys
  {
    var hd := h[n];
    var h1 := if hd.next != NULL then SetPrevious(h, hd.next, n)
              else if hd.parent != NULL then SetTail(h, hd.parent, n)
              else h;
    if hd.previous != NULL then SetNext(h1, hd.previous, n)
    else if hd.parent != NULL then SetHead(h1, hd.parent, n)
    else h1
  }

  /** The copy, the loop over the children and the relinking of
      jmscott_halloc_resize (lines 335-362) together perform Rename. */
  lemma ResizeMoves(S: Shape, m: Ptr, m2: Ptr, pl: seq<char>)
    requires WF(S) && m in S.h && m2 !in S.h && m2 != NULL && ParentOk(S, m)
    ensures var h := SetParents(Moved(S.h, m, m2, pl), S.kids[m], m2);
      m2 in h && LinksIn(h, m2) && Relink(h, m2) == Rename(S, m, m2, pl).h
  {
    ResizeMovesAt(S, m, m2, pl, m2);
    ResizeMovesPointwise(S, m, m2, pl);
  }

  lemma ResizeMovesPointwise(S: Shape, m: Ptr, m2: Ptr, pl: seq<char>)
    requires WF(S) && m in S.h && m2 !in S.h && m2 != NULL && ParentOk(S, m)
    requires var h := SetParents(Moved(S.h, m, m2, pl), S.kids[m], m2); m2 in h && LinksIn(h, m2)
    ensures var g := Relink(SetParents(Moved(S.h, m, m2, pl), S.kids[m], m2), m2);
      forall x :: x in Rename(S, m, m2, pl).h ==> x in g && g[x] == Rename(S, m, m2, pl).h[x]
  {
    var g := Relink(SetParents(Moved(S.h, m, m2, pl), S.kids[m], m2), m2);
    var R := Rename(S, m, m2, pl);
    forall x | x in R.h ensures x in g && g[x] == R.h[x] {
      ResizeMovesAt(S, m, m2, pl, x);
      RenameAt(S, m, m2, pl, x);
    }
  }

  lemma RenameAt(S: Shape, m: Ptr, m2: Ptr, pl: seq<char>, x: Ptr)
    requires WF(S) && m in S.h && m2 !in S.h && m2 != NULL
    requires x in Rename(S, m, m2, pl).h
    ensures (x == m2 || (x in S.h && x != m)) && Rename(S, m, m2, pl).h[x] == RenameHeader(S, m, m2, pl, x)
  {
  }

  lemma ResizeMovesAt(S: Shape, m: Ptr, m2: Ptr, pl: seq<char>, x: Ptr)
    requires WF(S) && m in S.h && m2 !in S.h && m2 != NULL && ParentOk(S, m)
    requires x == m2 || (x in S.h && x != m)
    ensures var h := SetParents(Moved(S.h, m, m2, pl), S.kids[m], m2);
      m2 in h && LinksIn(h, m2) && Relink(h, m2)[x] == RenameHeader(S, m, m2, pl, x)
  {
    RenameParts(S, m, m2);
    assert NodeOk(S, m);
    var h := SetParents(Moved(S.h, m, m2, pl), S.kids[m], m2);
    var hd := S.h[m];
    assert h[m2] == hd.(payload := pl);
    assert x != m2 ==> h[x] == if x in S.kids[m] then S.h[x].(parent := m2) else S.h[x];
    RelinkAt(h, m2, x);
  }

  /** Relink writes three headers other than n: n's two siblings and its
      recorded parent. */
  lemma RelinkAt(h: Heap, n: Ptr, x: Ptr)
    requires n in h && LinksIn(h, n) && x in h && NULL !in h
    requires var hd := h[n];
      hd.next != n && hd.previous != n && hd.parent != n &&
      (hd.next != NULL ==> hd.next != hd.previous && hd.next != hd.parent) &&
      (hd.previous != NULL ==> hd.previous != hd.parent)
    ensures var hd := h[n];
      Relink(h, n)[x] ==
        if x == n then hd
        else if x == hd.next then h[x].(previous := n)
        else if x == hd.previous then h[x].(next := n)
        else if x == hd.parent then
          h[x].(childTail := if hd.next == NULL then n else h[x].childTail,
                childHead := if hd.previous == NULL then n else h[x].childHead)
        else h[x]
  {
  }

  // ----- allocating -----

  /** A header as bzero leaves it, in front of the payload bytes malloc
      returned. */
  function Zeroed(junk: seq<char>): (hd: Header)
    ensures Unlinked(hd) == hd && hd.callbacks == []
  {
    Header(NULL, NULL, NULL, NULL, NULL, [], junk)
  }

  /** jmscott_halloc's tree: a fresh node that records P as its parent and,
      when P is not null, is P's last child. */
  function Allocated(S: Shape, P: Ptr, p: Ptr, junk: seq<char>): Shape
    requires WF(S) && p !in S.h && p != NULL && (P == NULL || P in S.h)
  {
    var hd := Zeroed(junk).(parent := P);
    InsertWF(S, p, hd);
    var I := Insert(S, p, hd);
    if P == NULL then I else Append(I, P, p)
  }

  /** The new node has no children and no callbacks and holds the bytes
      malloc returned; it is P's last child behind P's earlier children;
      no other node's children change. */
  lemma AllocatedShape(S: Shape, P: Ptr, p: Ptr, junk: seq<char>)
    requires WF(S) && p !in S.h && p != NULL && (P == NULL || P in S.h)
    ensures var A := Allocated(S, P, p, junk);
      WF(A) && A.h.Keys == S.h.Keys + {p} &&
      A.kids[p] == [] && A.h[p].callbacks == [] && A.h[p].payload == junk &&
      A.h[p].parent == P && A.owner[p] == P && ParentOk(A, p) &&
      (P != NULL ==> A.kids[P] == S.kids[P] + [p]) &&
      (forall x :: x in S.h && x != P ==> A.kids[x] == S.kids[x])
  {
    var hd := Zeroed(junk).(parent := P);
    InsertWF(S, p, hd);
    var I := Insert(S, p, hd);
    if P != NULL {
      AppendWF(I, P, p);
      var A := Append(I, P, p);
      assert A.h[p] == AppendHeader(I, P, p, p);
    }
  }

  /** bzero, the parent assignment and the wiring of lines 149-164 build
      exactly that tree. */
  lemma AllocSteps(S: Shape, P: Ptr, p: Ptr, junk: seq<char>)
    requires WF(S) && p !in S.h && p != NULL && (P == NULL || P in S.h)
    ensures var h0 := SetParent(S.h[p := Zeroed(junk)], p, P);
      (P == NULL ==> h0 == Allocated(S, P, p, junk).h) &&
      (P != NULL ==> (h0[P].childTail == NULL || h0[P].childTail in h0) &&
                     WireTail(h0, P, p) == Allocated(S, P, p, junk).h)
  {
    var hd := Zeroed(junk).(parent := P);
    InsertWF(S, p, hd);
    var I := Insert(S, p, hd);
    assert SetParent(S.h[p := Zeroed(junk)], p, P) == I.h;
    if P != NULL {
      WireTailAppends(I, P, p);
    }
  }

  /** When the recorded parent is the owner, the unlink followed by the
      release of the subtree leaves the headers of FreeShape. */
  lemma FreeIs(S: Shape, p: Ptr)
    requires WF(S) && p in S.h && ParentOk(S, p)
    ensures LinksIn(S.h, p) && FreeUnlink(S.h, p) - Sub(S, p) == FreeShape(S, p).h
  {
    UnlinkIsDetach(S, p);
    UnhookWF(S, p);
    assert p in Sub(S, p);
  }

  // ----- callbacks -----

  /** jmscott_halloc_add_callback's tree: cb joins the tail of m's list. */
  function Registered(S: Shape, m: Ptr, cb: Callback): (r: Shape)
    requires m in S.h
  {
    S.(h := S.h[m := S.h[m].(callbacks := S.h[m].callbacks + [cb])])
  }

  /** A new callback keeps the shape well formed. */
  lemma RegisteredWF(S: Shape, m: Ptr, cb: Callback)
    requires WF(S) && m in S.h
    ensures WF(Registered(S, m, cb))
  {
    var R := Registered(S, m, cb);
    forall n | n in R.h ensures NodeOk(R, n) {
      assert NodeOk(S, n);
    }
    forall n, i | n in R.h && 0 <= i < |R.kids[n]| ensures KidOk(R, n, i) {
      assert KidOk(S, n, i);
    }
  }

  /** A new callback fires after every callback m already had, and its
      record is released after theirs and before m's block. */
  lemma RegisteredFiresLast(S: Shape, m: Ptr, cb: Callback)
    requires m in S.h
    ensures Own(Registered(S, m, cb), m, Firing) == Own(S, m, Firing) + [Call(m, cb)]
    ensures Own(Registered(S, m, cb), m, Releasing) ==
      Own(S, m, Releasing)[..|S.h[m].callbacks|] + [ReleaseCallback(m, cb), ReleaseNode(m)]
  {
    var R := Registered(S, m, cb);
    var a, b := Own(R, m, Releasing), Own(S, m, Releasing)[..|S.h[m].callbacks|] + [ReleaseCallback(m, cb), ReleaseNode(m)];
    assert |a| == |b|;
    forall k | 0 <= k < |a| ensures a[k] == b[k] {
    }
  }
}
