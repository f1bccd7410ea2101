/*
 * jmscott_halloc as an object: the header map is the memory the C code
 * writes through its pointers, and every method performs the assignments
 * of its C function in the C order.  Ghost fields carry the tree those
 * headers spell (see HAllocTree); each method is proved to leave the
 * headers equal to a tree edit of HAllocEdit, or, for free, to the
 * unlink of HAllocSteps followed by the removal of the subtree.
 *
 * malloc and realloc are parameters: the address they return (or their
 * failure) and the bytes they leave in a fresh payload.  Callback
 * functions are opaque: calling one appends an event to `trace`.
 */
module HAlloc {
  import opened Common
  import opened HAllocTree
  import opened HAllocEdit
  import opened HAllocSteps

  const EINVAL: int := 22
  const ENOMEM: int := 12

  /** What a call hands back: null, a payload pointer (one header past
      the node's address), or, from adopt, the node's header itself. */
  datatype Ref = Null | Payload(node: Ptr) | HeaderOf(node: Ptr)

  /** What realloc did with the block: failed, resized it in place, or
      moved it to a fresh address. */
  datatype Realloc = Fail | Stay | Move(to: Ptr)

  /** realloc keeps the bytes the old and the new size have in common. */
  predicate Preserved(old_: seq<char>, new_: seq<char>) {
    var n := if |old_| < |new_| then |old_| else |new_|;
    old_[..n] == new_[..n]
  }

  class Arena {
    var hdr: Heap
    var trace: seq<Event>
    var errno: int
    ghost var kids: map<Ptr, seq<Ptr>>
    ghost var owner: map<Ptr, Ptr>
    ghost var rank: map<Ptr, nat>

    ghost function Tree(): Shape
      reads this`hdr, this`kids, this`owner, this`rank
    {
      Shape(hdr, kids, owner, rank)
    }

    ghost predicate Valid()
      reads this`hdr, this`kids, this`owner, this`rank
    {
      WF(Tree())
    }

    constructor ()
      ensures Valid() && hdr == map[] && trace == [] && errno == 0
    {
      hdr := map[];
      trace := [];
      errno := 0;
      kids := map[];
      owner := map[];
      rank := map[];
    }

    /** jmscott_halloc(parent, size): errno is cleared, and a failed malloc
        (addr == None) leaves the ENOMEM it sets and changes nothing.
        Otherwise the zeroed header records P as its parent and, when P is
        not null, joins P's child list at the tail. */
    method Alloc(P: Ptr, size: nat, addr: Option<Ptr>, junk: seq<char>) returns (r: Ref)
      requires Valid() && (P == NULL || P in hdr)
      requires addr.Some? ==> addr.value != NULL && addr.value !in hdr && |junk| == size
      modifies this
      ensures Valid() && trace == old(trace)
      ensures addr.None? ==> r == Null && errno == ENOMEM && Tree() == old(Tree())
      ensures addr.Some? ==>
        r == Payload(addr.value) && errno == 0 && Tree() == Allocated(old(Tree()), P, addr.value, junk)
    {
      errno := 0;
      if addr.None? {
        errno := ENOMEM;
        return Null;
      }
      var p := addr.value;
      ghost var S := Tree();
      AllocSteps(S, P, p, junk);
      AllocatedShape(S, P, p, junk);
      hdr := hdr[p := Zeroed(junk)];
      hdr := SetParent(hdr, p, P);
      if P != NULL {
        LinkTail(P, p);
      }
      ghost var A := Allocated(S, P, p, junk);
      kids, owner, rank := A.kids, A.owner, A.rank;
      return Payload(p);
    }

    /** The tail wiring shared by jmscott_halloc (lines 159-164) and
        jmscott_halloc_adopt (lines 116-120): p's back link takes P's
        tail, which (or, for an empty list, P's head) links forward to p,
        and p becomes P's tail. */
    method LinkTail(P: Ptr, p: Ptr)
      requires P in hdr && p in hdr && (hdr[P].childTail == NULL || hdr[P].childTail in hdr)
      modifies this`hdr
      ensures hdr == WireTail(old(hdr), P, p)
    {
      hdr := SetPrevious(hdr, p, hdr[P].childTail);
      if hdr[p].previous != NULL {
        hdr := SetNext(hdr, hdr[p].previous, p);
      } else {
        hdr := SetHead(hdr, P, p);
      }
      hdr := SetTail(hdr, P, p);
    }

    /** jmscott_halloc_strdup(parent, cp): a null cp sets EINVAL;
        otherwise a block of strlen(cp) + 1 bytes is allocated under P,
        and, unless that fails, the string and its NUL are copied in. */
    method Strdup(P: Ptr, cp: Option<seq<char>>, addr: Option<Ptr>, junk: seq<char>) returns (r: Ref)
      requires Valid() && (P == NULL || P in hdr)
      requires cp.Some? ==> Strlen(cp.value) < |cp.value|
      requires cp.Some? && addr.Some? ==>
        addr.value != NULL && addr.value !in hdr && |junk| == Strlen(cp.value) + 1
      modifies this
      ensures Valid() && trace == old(trace)
      ensures cp.None? ==> r == Null && errno == EINVAL && Tree() == old(Tree())
      ensures cp.Some? && addr.None? ==> r == Null && errno == ENOMEM && Tree() == old(Tree())
      ensures cp.Some? && addr.Some? ==>
        r == Payload(addr.value) && errno == 0 &&
        Tree() == SetPayload(Allocated(old(Tree()), P, addr.value, junk), addr.value, UpToNul(cp.value) + [NUL])
    {
      if cp.None? {
        errno := EINVAL;
        return Null;
      }
      var s := UpToNul(cp.value);
      r := Alloc(P, |s| + 1, addr, junk);
      if r == Null {
        return Null;
      }
      var p := r.node;
      ghost var A := Tree();
      SetPayloadWF(A, p, s + [NUL]);
      hdr := hdr[p := hdr[p].(payload := s + [NUL])];
    }

    /** jmscott_halloc_add_callback(p, func, private_data): the new record
        is linked behind the last one, or becomes the head of an empty
        list.  The callback list is a sequence here, so the walk to its
        tail is its end.  The malloc of the record is not checked by the C
        code and is taken to succeed. */
    method AddCallback(m: Ptr, func: int, data: int)
      requires Valid() && m in hdr
      modifies this`hdr
      ensures Valid() && Tree() == Registered(old(Tree()), m, Callback(func, data))
      ensures hdr[m].callbacks == old(hdr)[m].callbacks + [Callback(func, data)]
    {
      ghost var S := Tree();
      RegisteredWF(S, m, Callback(func, data));
      var cbs := hdr[m].callbacks;
      hdr := hdr[m := hdr[m].(callbacks := cbs + [Callback(func, data)])];
    }

    /** jmscott_halloc_adopt(parent, p): a null p sets EINVAL; a node
        already recorded under P is left alone.  Otherwise a node with a
        recorded parent leaves its old list, and p joins P's list at the
        tail.  p's recorded parent is never updated, so after a move it
        still names the old parent (HAllocEdit.AdoptLeavesParent). */
    method Adopt(P: Ptr, p: Ptr) returns (r: Ref)
      requires Valid()
      requires p != NULL ==> p in hdr && P in hdr && P !in Sub(Tree(), p) && ParentOk(Tree(), p)
      modifies this
      ensures Valid() && trace == old(trace)
      ensures p == NULL ==> r == Null && errno == EINVAL && Tree() == old(Tree())
      ensures p != NULL ==> r == HeaderOf(p) && errno == old(errno)
      ensures p != NULL && old(hdr)[p].parent == P ==> Tree() == old(Tree())
      ensures p != NULL && old(hdr)[p].parent != P ==> Tree() == Adopted(old(Tree()), P, p)
    {
      if p == NULL {
        errno := EINVAL;
        return Null;
      }
      if hdr[p].parent == P {
        return HeaderOf(p);
      }
      MoveUnder(P, p);
      return HeaderOf(p);
    }

    /** jmscott_halloc_adopt as evidently intended: as Adopt, and a moved
        node's parent field is set to P, so that the node stays freeable
        (HAllocSteps.RecordedAdoptThenFree). */
    method AdoptRecording(P: Ptr, p: Ptr) returns (r: Ref)
      requires Valid()
      requires p != NULL ==> p in hdr && P in hdr && P !in Sub(Tree(), p) && ParentOk(Tree(), p)
      modifies this
      ensures Valid() && trace == old(trace)
      ensures p == NULL ==> r == Null && errno == EINVAL && Tree() == old(Tree())
      ensures p != NULL ==> r == HeaderOf(p) && errno == old(errno) && p in hdr && ParentOk(Tree(), p)
      ensures p != NULL && old(hdr)[p].parent == P ==> Tree() == old(Tree())
      ensures p != NULL && old(hdr)[p].parent != P ==> Tree() == AdoptedRecorded(old(Tree()), P, p)
    {
      if p == NULL {
        errno := EINVAL;
        return Null;
      }
      if hdr[p].parent == P {
        return HeaderOf(p);
      }
      MoveRecording(P, p);
      return HeaderOf(p);
    }

    /** The move of adopt, then the one assignment AdoptRecording adds:
        p's parent field names P. */
    method MoveRecording(P: Ptr, p: Ptr)
      requires Valid() && p in hdr && P in hdr && P !in Sub(Tree(), p) && ParentOk(Tree(), p)
      requires hdr[p].parent != P
      modifies this`hdr, this`kids, this`owner, this`rank
      ensures Valid() && Tree() == AdoptedRecorded(old(Tree()), P, p) && p in hdr && ParentOk(Tree(), p)
    {
      ghost var S := Tree();
      MoveUnder(P, p);
      AdoptedWF(S, P, p);
      hdr := SetParent(hdr, p, P);
      assert Tree() == AdoptedRecorded(S, P, p);
      AdoptedRecordedWF(S, P, p);
    }

    /** jmscott_halloc_adopt, lines 85-120, for a node whose recorded
        parent is not P. */
    method MoveUnder(P: Ptr, p: Ptr)
      requires Valid() && p in hdr && P in hdr && P !in Sub(Tree(), p) && ParentOk(Tree(), p)
      requires hdr[p].parent != P
      modifies this`hdr, this`kids, this`owner, this`rank
      ensures Valid() && Tree() == Adopted(old(Tree()), P, p)
    {
      ghost var S := Tree();
      AdoptSteps(S, P, p);
      if hdr[p].parent != NULL {
        LeaveParent(p);
        FollowTail(P, p);
      }
      hdr := SetNext(hdr, p, NULL);
      LinkTail(P, p);
      Readopted(S, P, p);
    }

    /** jmscott_halloc_adopt, lines 85-105: the recorded parent's head and
        tail move past p, and p's neighbours name each other.  p's own
        header is not written, so its fields are read once. */
    method LeaveParent(p: Ptr)
      requires p in hdr && LinksIn(hdr, p) && hdr[p].parent != NULL
      modifies this`hdr
      ensures hdr == AdoptUnlink(old(hdr), p)
    {
      var hd := hdr[p];
      var R := hd.parent;
      if hdr[R].childHead == p {
        hdr := SetHead(hdr, R, hd.next);
      }
      if hdr[R].childTail == p {
        hdr := SetTail(hdr, R, hd.previous);
      }
      if hd.previous != NULL {
        hdr := SetNext(hdr, hd.previous, hd.next);
      }
      if hd.next != NULL {
        hdr := SetPrevious(hdr, hd.next, hd.previous);
      }
    }

    /** jmscott_halloc_adopt, lines 109-110: p's back link takes P's
        tail, which links forward to p. */
    method FollowTail(P: Ptr, p: Ptr)
      requires P in hdr && p in hdr && (hdr[P].childTail == NULL || hdr[P].childTail in hdr)
      modifies this`hdr
      ensures hdr == AdoptRelink(old(hdr), P, p)
    {
      hdr := SetPrevious(hdr, p, hdr[P].childTail);
      if hdr[p].previous != NULL {
        hdr := SetNext(hdr, hdr[p].previous, p);
      }
    }

    /** The ghost tree after an adopt that moved p. */
    ghost method Readopted(S: Shape, P: Ptr, p: Ptr)
      requires WF(S) && p in S.h && P in S.h && P !in Sub(S, p) && hdr == Adopted(S, P, p).h
      modifies this`kids, this`owner, this`rank
      ensures Valid() && Tree() == Adopted(S, P, p)
    {
      AdoptedWF(S, P, p);
      ghost var A := Adopted(S, P, p);
      kids, owner, rank := A.kids, A.owner, A.rank;
    }

    /** jmscott_halloc_resize(p, size): a null p sets EINVAL, and a failed
        realloc (outcome Fail) leaves the ENOMEM it sets and changes
        nothing.  A block resized in place keeps its address; a moved
        block's children record the new address, and its neighbours, or
        for an end of the list its recorded parent, are pointed at it.
        pl is what the block holds afterwards: the old payload's common
        prefix, then whatever realloc left. */
    method Resize(m: Ptr, size: nat, outcome: Realloc, pl: seq<char>) returns (r: Ref)
      requires Valid()
      requires m != NULL ==> m in hdr
      requires m != NULL && !outcome.Fail? ==> |pl| == size && Preserved(hdr[m].payload, pl)
      requires m != NULL && outcome.Move? ==>
        outcome.to != NULL && outcome.to !in hdr && ParentOk(Tree(), m)
      modifies this
      ensures Valid() && trace == old(trace)
      ensures m == NULL ==> r == Null && errno == EINVAL && Tree() == old(Tree())
      ensures m != NULL && outcome.Fail? ==> r == Null && errno == ENOMEM && Tree() == old(Tree())
      ensures m != NULL && outcome.Stay? ==>
        r == Payload(m) && errno == old(errno) && Tree() == SetPayload(old(Tree()), m, pl)
      ensures m != NULL && outcome.Move? ==>
        r == Payload(outcome.to) && errno == old(errno) && Tree() == Rename(old(Tree()), m, outcome.to, pl)
    {
      if m == NULL {
        errno := EINVAL;
        return Null;
      }
      ghost var S := Tree();
      match outcome
      case Fail =>
        errno := ENOMEM;
        return Null;
      case Stay =>
        SetPayloadWF(S, m, pl);
        hdr := hdr[m := hdr[m].(payload := pl)];
        return Payload(m);
      case Move(m2) =>
        MovedChained(S, m, m2, pl);
        ResizeMoves(S, m, m2, pl);
        hdr := Moved(hdr, m, m2, pl);
        ReparentChildren(m2, S.kids[m]);
        RelinkMoved(m2);
        Renamed(S, m, m2, pl);
        return Payload(m2);
    }

    /** jmscott_halloc_resize, lines 347-348: each child of the moved
        block, found from its child_head along the next links, records
        n as its parent. */
    method ReparentChildren(n: Ptr, ghost ks: seq<Ptr>)
      requires Chained(hdr, n, ks)
      modifies this`hdr
      ensures hdr == SetParents(old(hdr), ks, n)
    {
      var tmp := hdr[n].childHead;
      ghost var i := 0;
      while tmp != NULL
        invariant i <= |ks| && tmp == (if i < |ks| then ks[i] else NULL)
        invariant hdr == SetParents(old(hdr), ks[..i], n)
        decreases |ks| - i
      {
        SetParentsStep(old(hdr), ks, i, n);
        hdr := SetParent(hdr, tmp, n);
        tmp := hdr[tmp].next;
        i := i + 1;
      }
      assert ks[..i] == ks;
    }

    /** jmscott_halloc_resize, lines 355-362: the moved block's neighbours,
        or its recorded parent's tail and head, name n. */
    method RelinkMoved(n: Ptr)
      requires n in hdr && LinksIn(hdr, n)
      modifies this`hdr
      ensures hdr == Relink(old(hdr), n)
    {
      var hd := hdr[n];
      if hd.next != NULL {
        hdr := SetPrevious(hdr, hd.next, n);
      } else if hd.parent != NULL {
        hdr := SetTail(hdr, hd.parent, n);
      }
      if hd.previous != NULL {
        hdr := SetNext(hdr, hd.previous, n);
      } else if hd.parent != NULL {
        hdr := SetHead(hdr, hd.parent, n);
      }
    }

    /** The ghost tree after a resize that moved the block. */
    ghost method Renamed(S: Shape, m: Ptr, m2: Ptr, pl: seq<char>)
      requires WF(S) && m in S.h && m2 !in S.h && m2 != NULL && ParentOk(S, m)
      requires hdr == Rename(S, m, m2, pl).h
      modifies this`kids, this`owner, this`rank
      ensures Valid() && Tree() == Rename(S, m, m2, pl)
    {
      RenameWF(S, m, m2, pl);
      ghost var R := Rename(S, m, m2, pl);
      kids, owner, rank := R.kids, R.owner, R.rank;
    }

    /** fire_free_callbacks(m): the children's subtrees head to tail, then
        m's own callbacks in registration order.  T is the tree the
        headers of m's subtree spell. */
    method FireFreeCallbacks(m: Ptr, ghost T: Shape)
      requires WF(T) && m in T.h && Mirrors(hdr, T, m)
      modifies this`trace
      ensures trace == old(trace) + Trace(T, m, Firing)
      decreases T.rank[m]
    {
      ghost var ks := T.kids[m];
      WalkStart(hdr, T, m);
      var c := hdr[m].childHead;
      ghost var i := 0;
      while c != NULL
        invariant i <= |ks| && (i < |ks| ==> c in T.h)
        invariant c == if i < |ks| then ks[i] else NULL
        invariant trace == old(trace) + ChildTraces(T, m, i, Firing)
        decreases |ks| - i
      {
        WalkStep(T, m, i, Firing);
        MirrorKid(hdr, T, m, i);
        FireFreeCallbacks(c, T);
        c := hdr[c].next;
        i := i + 1;
      }
      FireOwn(m, T);
    }

    /** The tail of fire_free_callbacks(m): m's callbacks in list order. */
    method FireOwn(m: Ptr, ghost T: Shape)
      requires m in T.h && m in hdr && hdr[m] == T.h[m]
      modifies this`trace
      ensures trace == old(trace) + Own(T, m, Firing)
    {
      var cbs := hdr[m].callbacks;
      ghost var own := Own(T, m, Firing);
      var k := 0;
      while k < |cbs|
        invariant k <= |cbs|
        invariant trace == old(trace) + own[..k]
      {
        assert own[..k + 1] == own[..k] + [Call(m, cbs[k])];
        trace := trace + [Call(m, cbs[k])];
        k := k + 1;
      }
      assert own[..k] == own;
    }

    /** _free(m): each child's subtree head to tail, then m's callback
        records in list order, then m's block. */
    method FreeTree(m: Ptr, ghost T: Shape)
      requires WF(T) && m in T.h && Mirrors(hdr, T, m)
      modifies this`hdr, this`trace
      ensures hdr == old(hdr) - Sub(T, m)
      ensures trace == old(trace) + Trace(T, m, Releasing)
      decreases T.rank[m], 1
    {
      FreeKids(m, T);
      ReleaseLast(old(hdr), T, m);
      ReleaseOwn(m, T);
    }

    /** The child loop of _free(m): the next link of each child is read
        before the child's subtree is released. */
    method FreeKids(m: Ptr, ghost T: Shape)
      requires WF(T) && m in T.h && Mirrors(hdr, T, m)
      modifies this`hdr, this`trace
      ensures hdr == old(hdr) - ChildSubs(T, m, |T.kids[m]|)
      ensures trace == old(trace) + ChildTraces(T, m, |T.kids[m]|, Releasing)
      decreases T.rank[m], 0
    {
      ghost var ks := T.kids[m];
      WalkStart(hdr, T, m);
      var c := hdr[m].childHead;
      ghost var i := 0;
      while c != NULL
        invariant i <= |ks| && (i < |ks| ==> c in T.h)
        invariant c == if i < |ks| then ks[i] else NULL
        invariant hdr == old(hdr) - ChildSubs(T, m, i)
        invariant trace == old(trace) + ChildTraces(T, m, i, Releasing)
        decreases |ks| - i
      {
        WalkStep(T, m, i, Releasing);
        ReleaseStep(old(hdr), T, m, i);
        var next := hdr[c].next;
        FreeTree(c, T);
        c := next;
        i := i + 1;
      }
    }

    /** The tail of _free(m): m's callback records in list order, then m. */
    method ReleaseOwn(m: Ptr, ghost T: Shape)
      requires m in T.h && m in hdr && hdr[m] == T.h[m]
      modifies this`hdr, this`trace
      ensures hdr == old(hdr) - {m}
      ensures trace == old(trace) + Own(T, m, Releasing)
    {
      var cbs := hdr[m].callbacks;
      ghost var own := Own(T, m, Releasing);
      var k := 0;
      while k < |cbs|
        invariant k <= |cbs| && hdr == old(hdr)
        invariant trace == old(trace) + own[..k]
      {
        assert own[..k + 1] == own[..k] + [ReleaseCallback(m, cbs[k])];
        trace := trace + [ReleaseCallback(m, cbs[k])];
        k := k + 1;
      }
      hdr := hdr[m := hdr[m].(callbacks := [])];
      hdr := hdr - {m};
      trace := trace + [ReleaseNode(m)];
      assert own == own[..k] + [ReleaseNode(m)];
    }

    /** jmscott_halloc_free(p): every callback of the subtree fires, then
        p leaves its siblings and, through its recorded parent, the
        parent's head and tail, then the subtree is released.  When the
        recorded parent is where p is linked, the result is FreeShape;
        otherwise (after an adopt) see HAllocSteps.StaleFreeDangles. */
    method Free(p: Ptr)
      requires Valid() && p in hdr && LinksIn(hdr, p)
      modifies this
      ensures trace == old(trace) + Trace(old(Tree()), p, Firing) + Trace(old(Tree()), p, Releasing)
      ensures hdr == FreeUnlink(old(hdr), p) - Sub(old(Tree()), p)
      ensures errno == old(errno)
      ensures ParentOk(old(Tree()), p) ==> Valid() && Tree() == FreeShape(old(Tree()), p)
    {
      ghost var S := Tree();
      SubBelow(S, p);
      FireFreeCallbacks(p, S);
      UnlinkKeepsSub(S, p);
      Unlink(p);
      FreeTree(p, S);
      if ParentOk(S, p) {
        Refreed(S, p);
      }
    }

    /** The ghost tree after a free through the parent where p is linked. */
    ghost method Refreed(S: Shape, p: Ptr)
      requires WF(S) && p in S.h && ParentOk(S, p) && LinksIn(S.h, p)
      requires hdr == FreeUnlink(S.h, p) - Sub(S, p)
      modifies this`kids, this`owner, this`rank
      ensures Valid() && Tree() == FreeShape(S, p)
    {
      FreeShapeWF(S, p);
      FreeIs(S, p);
      ghost var F := FreeShape(S, p);
      kids, owner, rank := F.kids, F.owner, F.rank;
    }

    /** The middle of jmscott_halloc_free(p): p's neighbours are joined
        and, through p's recorded parent, the parent's head and tail move
        past p.  p's own header is read once and never written. */
    method Unlink(p: Ptr)
      requires p in hdr && LinksIn(hdr, p)
      modifies this`hdr
      ensures hdr == FreeUnlink(old(hdr), p)
    {
      var hd := hdr[p];
      if hd.next != NULL {
        hdr := SetPrevious(hdr, hd.next, hd.previous);
      }
      if hd.previous != NULL {
        hdr := SetNext(hdr, hd.previous, hd.next);
      }
      if hd.parent != NULL {
        if hdr[hd.parent].childHead == p {
          hdr := SetHead(hdr, hd.parent, hd.next);
        }
        if hdr[hd.parent].childTail == p {
          hdr := SetTail(hdr, hd.parent, hd.previous);
        }
      }
    }
  }

  /** The headers h hold m's subtree as T spells it. */
  ghost predicate Mirrors(h: Heap, T: Shape, m: Ptr)
    requires WF(T) && m in T.h
  {
    forall x :: x in Sub(T, m) ==> x in T.h && x in h && h[x] == T.h[x]
  }

  /** Where the walks start: m's own header, whose child list begins at
      child_head. */
  lemma WalkStart(h: Heap, T: Shape, m: Ptr)
    requires WF(T) && m in T.h && Mirrors(h, T, m)
    ensures var ks := T.kids[m];
      m in h && h[m] == T.h[m] &&
      T.h[m].childHead == (if ks == [] then NULL else ks[0]) && (ks != [] ==> ks[0] in T.h)
  {
    assert NodeOk(T, m);
    SubBelow(T, m);
    if T.kids[m] != [] {
      assert KidOk(T, m, 0);
    }
  }

  /** One turn of the walks' child loops: the i-th child, of lower rank,
      whose next link names the following child, and whose walk extends
      the walk of the earlier children. */
  lemma WalkStep(T: Shape, m: Ptr, i: nat, pass: Pass)
    requires WF(T) && m in T.h && i < |T.kids[m]|
    ensures var ks := T.kids[m]; var c := ks[i];
      c in T.h && T.rank[c] < T.rank[m] &&
      T.h[c].next == (if i + 1 < |ks| then ks[i + 1] else NULL) &&
      (i + 1 < |ks| ==> ks[i + 1] in T.h) &&
      ChildTraces(T, m, i + 1, pass) == ChildTraces(T, m, i, pass) + Trace(T, c, pass)
  {
    assert KidOk(T, m, i);
    if i + 1 < |T.kids[m]| {
      assert KidOk(T, m, i + 1);
    }
    ChildUnfold(T, m, i + 1, pass);
  }

  /** A child's subtree is mirrored wherever its parent's is. */
  lemma MirrorKid(h: Heap, T: Shape, m: Ptr, i: nat)
    requires WF(T) && m in T.h && i < |T.kids[m]| && Mirrors(h, T, m)
    ensures T.kids[m][i] in T.h && T.kids[m][i] in h && Mirrors(h, T, T.kids[m][i])
  {
    KidSub(T, m, i);
    SubBelow(T, T.kids[m][i]);
  }

  /** Releasing the i-th child's subtree after the earlier children's:
      the child is still there, and what remains is m's subtree less the
      first i + 1 children's. */
  lemma ReleaseStep(h: Heap, T: Shape, m: Ptr, i: nat)
    requires WF(T) && m in T.h && i < |T.kids[m]| && Mirrors(h, T, m)
    ensures var c := T.kids[m][i]; var r := h - ChildSubs(T, m, i);
      c in T.h && c in r && Mirrors(r, T, c) &&
      r - Sub(T, c) == h - ChildSubs(T, m, i + 1)
  {
    var c := T.kids[m][i];
    KidSub(T, m, i);
    SubBelow(T, c);
    ChildSubsDisjoint(T, m, i);
    ChildUnfold(T, m, i + 1, Firing);
    MinusBoth(h, ChildSubs(T, m, i), Sub(T, c));
  }

  /** Once every child's subtree is released, m is left, as T spells it,
      and releasing it leaves h less m's subtree. */
  lemma ReleaseLast(h: Heap, T: Shape, m: Ptr)
    requires WF(T) && m in T.h && Mirrors(h, T, m)
    ensures var r := h - ChildSubs(T, m, |T.kids[m]|);
      m in r && r[m] == T.h[m] && r - {m} == h - Sub(T, m)
  {
    SubBelow(T, m);
    MinusBoth(h, ChildSubs(T, m, |T.kids[m]|), {m});
  }

  lemma MinusBoth(h: Heap, A: set<Ptr>, B: set<Ptr>)
    ensures (h - A) - B == h - (A + B)
  {
  }
}
