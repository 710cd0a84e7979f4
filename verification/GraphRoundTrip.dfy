/**
 Merging undoes splitting.
 */
module GraphRoundTrip {

  import opened Bricks
  import opened BrickLinks
  import opened BrickReach
  import opened BrickGraph
  import opened GraphSplit
  import opened GraphMerge

  /** The queues of a finished cut stand next to the bricks that were linked. */
  lemma CutNeighbours(c: Cut, h: Heap)
    requires IsCut(c) && Finished(c, h)
    ensures Neighbour(h[c.qw]) == To(c.w) && Neighbour(h[c.qe]) == To(c.e) && ToJoin(h, c.qw, c.qe)
    ensures HasWire(h, c.wx) && HasWireEast(h, c.wx) && HasWire(h, c.qx) && HasWireEast(h, c.qx)
  {
    hide Valid, HasWire, HasWireEast, SameNode, Neighbour;
    assert HasWire(c.whole, c.qx) && HasWire(c.half, c.wx);
    assert HasWire(h, c.wx) && HasWire(h, c.qx);
    WireBothEnds(h, c.wx);
    WireBothEnds(h, c.qx);
    QueueBetween(h, c.wx, c.qw);
    QueueBetween(h, c.qx, c.qe);
  }

  /** A queue's neighbour is at the other end of its only link. */
  lemma QueueBetween(h: Heap, x: Wire, q: Id)
    requires Valid(h) && q in h && h[q].isQueue && HasWire(h, x) && HasWireEast(h, x) && x.west != x.east && Touches(x, q)
    ensures Neighbour(h[q]) == To(if x.west == q then x.east else x.west)
  {
    assert ShapeOk(h[q]);
  }

  /** The links of a finished cut. */
  lemma CutWires(c: Cut, h: Heap, y: Wire)
    requires IsCut(c) && Finished(c, h)
    ensures HasWire(h, y) <==> HasWire(c.cut, y) || y == c.wx || y == c.qx
    ensures HasWire(c.cut, y) ==> !Touches(y, c.qw) && !Touches(y, c.qe)
  {
    hide Valid;
    assert HasWire(h, y) <==> HasWire(c.whole, y);
    assert HasWire(c.whole, y) <==> HasWire(c.half, y) || y == c.qx;
    assert HasWire(c.half, y) <==> HasWire(c.grown, y) || y == c.wx;
    assert HasWire(c.grown, y) <==> HasWire(c.cut, y);
    if HasWire(c.cut, y) { WireBothEnds(c.cut, y); }
  }

  /**
   Merging the two queues of a split leaves the links as they were, except that
   the cut link is now between the first free slots of the same two bricks.
   */
  lemma MergeUndoesSplit(h: Heap, x: Wire, c: Cut, h1: Heap, h2: Heap, x': Wire)
    requires CutOf(h, x, c) && Finished(c, h1) && PairMerged(h1, h2, c.qw, c.qe, x')
    ensures x'.west == c.w && x'.east == c.e
    ensures forall y :: HasWire(h2, y) <==> (HasWire(h, y) && y != x) || y == x'
  {
    hide Valid, HasWire, SameNode;
    CutNeighbours(c, h1);
    forall y ensures HasWire(h2, y) <==> (HasWire(h, y) && y != x) || y == x' {
      CutWires(c, h1, y);
      CutEnds(h, x, c, y);
    }
  }

  lemma CutEnds(h: Heap, x: Wire, c: Cut, y: Wire)
    requires CutOf(h, x, c)
    ensures HasWire(c.cut, y) <==> HasWire(h, y) && y != x
    ensures c.qw != c.w && c.qw != c.e && c.qe != c.w && c.qe != c.e && c.wx.east == c.qw && c.qx.west == c.qe
  {
  }

  /** The same bricks are neighbours as before the split. */
  lemma AdjacencyRestored(h: Heap, x: Wire, c: Cut, h1: Heap, h2: Heap, x': Wire, a: Id, b: Id)
    requires CutOf(h, x, c) && Finished(c, h1) && PairMerged(h1, h2, c.qw, c.qe, x') && Valid(h) && Valid(h2)
    ensures Adjacent(h2, a, b) <==> Adjacent(h, a, b)
  {
    hide Finished, PairMerged, Adjacent, Valid, HasWire;
    MergeUndoesSplit(h, x, c, h1, h2, x');
    AdjacentIffWire(h, a, b);
    AdjacentIffWire(h2, a, b);
    CutJoins(h, x, c);
    if Adjacent(h, a, b) {
      var y :| HasWire(h, y) && Joins(y, a, b);
      if y == x {
        assert HasWire(h2, x') && Joins(x', a, b);
      } else {
        assert HasWire(h2, y);
      }
    }
    if Adjacent(h2, a, b) {
      var y :| HasWire(h2, y) && Joins(y, a, b);
      if y == x' {
        assert HasWire(h, x) && Joins(x, a, b);
      } else {
        assert HasWire(h, y);
      }
    }
  }

  lemma CutJoins(h: Heap, x: Wire, c: Cut)
    requires CutOf(h, x, c)
    ensures HasWire(h, x) && Joins(x, c.w, c.e)
  {
  }

  /** Neighbours decide what is reached. */
  lemma ReachRestored(h: Heap, h': Heap, a: Id, k: Id)
    requires h.Keys == h'.Keys && forall b, c :: Adjacent(h', b, c) <==> Adjacent(h, b, c)
    ensures Reaches(h', a, k) <==> Reaches(h, a, k)
  {
    hide Adjacent;
    if Reaches(h, a, k) {
      var p :| Path(h, p) && p[0] == a && p[|p| - 1] == k;
      assert Path(h', p);
    }
    if Reaches(h', a, k) {
      var p :| Path(h', p) && p[0] == a && p[|p| - 1] == k;
      assert Path(h, p);
    }
  }

  /** The slot a vanished link has left is empty, and its side has room. */
  lemma SlotFreed(h: Heap, h': Heap, x: Wire)
    requires Valid(h) && Valid(h') && h'.Keys == h.Keys && HasWire(h, x) && HasWireEast(h, x) && !HasWire(h', x)
    requires forall y :: HasWire(h', y) ==> HasWire(h, y)
    requires forall id :: id in h ==> h'[id].at == h[id].at && SameNode(h[id], h'[id].(friend := h[id].friend))
    ensures HasRoom(h'[x.west], East) && HasRoom(h'[x.east], West)
  {
    var b, b' := h[x.west], h'[x.west];
    assert SameNode(b, b'.(friend := b.friend)) && ShapeOk(b) && ShapeOk(b');
    if b'.Get(b'.Store(East), x.wi).link.To? {
      SlotHasWire(h', x.west, b'.Store(East), x.wi);
    }
    LinkedMeansRoom(b, b.Store(East), x.wi);
    FreeMeansRoom(b', East, x.wi);
    SlotFreedEast(h, h', x);
  }

  lemma SlotFreedEast(h: Heap, h': Heap, x: Wire)
    requires Valid(h) && Valid(h') && h'.Keys == h.Keys && HasWire(h, x) && HasWireEast(h, x) && !HasWire(h', x)
    requires forall y :: HasWire(h', y) ==> HasWire(h, y)
    requires forall id :: id in h ==> h'[id].at == h[id].at && SameNode(h[id], h'[id].(friend := h[id].friend))
    ensures HasRoom(h'[x.east], West)
  {
    var b, b' := h[x.east], h'[x.east];
    assert SameNode(b, b'.(friend := b.friend)) && ShapeOk(b) && ShapeOk(b');
    if b'.Get(b'.Store(West), x.ei).link.To? {
      var y := WireAt(h', x.east, b'.Store(West), x.ei);
      SlotHasWire(h', x.east, b'.Store(West), x.ei);
      WireBothEnds(h, y);
    }
    LinkedMeansRoom(b, b.Store(West), x.ei);
    FreeMeansRoom(b', West, x.ei);
  }

  // ----- what a merge after a split finds

  /** A link that is the only connection between its ends, and can be split at. */
  ghost predicate IsBridge(h: Heap, w: Id, e: Id) {
    CanCut(h, w, e) && forall i: nat :: FirstLink(h, w, e, i) ==> !Reaches(CutHeap(h, w, i), w, e)
  }

  /** Without the first link between `w` and `e`, `q1` is on the side of `w` and its friend `q2` on that of `e`. */
  ghost predicate FriendsApart(h: Heap, w: Id, e: Id, q1: Id, q2: Id) {
    && w in h && q1 in h && h[q1].friend == To(q2)
    && exists i: nat :: FirstLink(h, w, e, i) && Reaches(CutHeap(h, w, i), w, q1) && Reaches(CutHeap(h, w, i), e, q2)
  }

  ghost predicate SeparatesFriends(h: Heap, w: Id, e: Id) {
    exists q1, q2 :: FriendsApart(h, w, e, q1, q2)
  }

  /** One of two friends that lie on different sides of the link. */
  ghost predicate Lost(h: Heap, w: Id, e: Id, q: Id) {
    exists p :: FriendsApart(h, w, e, q, p) || FriendsApart(h, w, e, p, q)
  }

  /** A queue at the east of its neighbour with its friend at the west of the other one, neither neighbour being lost. */
  ghost predicate Upright(h: Heap, w: Id, e: Id, q1: Id, q2: Id) {
    && q1 != w && q1 != e && q2 != w && q2 != e
    && exists x1, x2 ::
         HasWire(h, x1) && HasWire(h, x2) && x1.east == q1 && x2.west == q2 && !Lost(h, w, e, x1.west) && !Lost(h, w, e, x2.east)
  }

  ghost predicate AllUpright(h: Heap, w: Id, e: Id) {
    forall q1, q2 {:trigger FriendsApart(h, w, e, q1, q2)} :: FriendsApart(h, w, e, q1, q2) ==> Upright(h, w, e, q1, q2)
  }

  lemma ApartInCut(h: Heap, x: Wire, c: Cut, q1: Id, q2: Id)
    requires CutOf(h, x, c)
    ensures FriendsApart(h, c.w, c.e, q1, q2) <==>
              q1 in h && h[q1].friend == To(q2) && Reaches(c.cut, c.w, q1) && Reaches(c.cut, c.e, q2)
  {
    hide Reaches, Valid, HasWire, OneMore, CutHeap, SameWires;
    assert c.w in h && FirstLink(h, c.w, c.e, c.slot);
  }

  lemma BridgeIsCut(h: Heap, x: Wire, c: Cut)
    requires CutOf(h, x, c) && IsBridge(h, c.w, c.e)
    ensures Bridge(c)
  {
    hide Reaches, CutHeap, Valid, HasWire, IsCut, OneMore;
    assert FirstLink(h, c.w, c.e, c.slot);
  }

  /** The queues of the component of `id`. */
  ghost predicate QueuesOf(h: Heap, id: Id, qs: seq<Id>) {
    forall q :: q in qs <==> q in h && h[q].isQueue && Reaches(h, id, q)
  }

  /** Every queue of a component is listed by the graph that holds it, since queues poll. */
  lemma QueuesPolled(g: Graph, h: Heap, id: Id)
    requires Valid(h) && g.Holds(h, id)
    ensures forall q :: q in g.pollable ==> q in h
    ensures forall q :: q in g.pollable && h[q].isQueue <==> q in h && h[q].isQueue && Reaches(h, id, q)
  {
    hide Reaches;
    forall q | q in h ensures q in g.pollable && h[q].isQueue <==> h[q].isQueue && Reaches(h, id, q) {
      assert ShapeOk(h[q]);
      if q in g.pollable || Reaches(h, id, q) {
        assert g.Member(q);
      }
    }
  }

  /** The friends that a merge after a split finds are the split's own queues and those it separated. */
  lemma MatchedApart(h: Heap, x: Wire, c: Cut, h1: Heap, west: seq<Id>, east: seq<Id>, q1: Id, q2: Id)
    requires CutOf(h, x, c) && Bridge(c) && Finished(c, h1) && Extends(h, h1)
    requires QueuesOf(h1, c.qw, west) && QueuesOf(h1, c.qe, east)
    ensures Matched(h1, west, east, q1, q2) <==> (q1 == c.qw && q2 == c.qe) || FriendsApart(h, c.w, c.e, q1, q2)
  {
    hide Reaches, Valid, CutOf, FriendsApart;
    CutParts(h, x, c, h1);
    ApartInCut(h, x, c, q1, q2);
    SplitComponents(h, x, c, h1, q1);
    SplitComponents(h, x, c, h1, q2);
    ReachSelf(h1, c.qw);
    ReachSelf(h1, c.qe);
    if Matched(h1, west, east, q1, q2) {
      FriendBack(h1, q1, q2);
      if q1 != c.qw {
        CutIn(h, x, c, q1);
        assert SameNode(h[q1], h1[q1]);
      }
    }
    if FriendsApart(h, c.w, c.e, q1, q2) {
      assert SameNode(h[q1], h1[q1]);
      FriendBack(h1, q1, q2);
    }
  }

  /** Friends are queues. */
  lemma FriendBack(h: Heap, q1: Id, q2: Id)
    requires Valid(h) && q1 in h && h[q1].friend == To(q2)
    ensures q2 in h && h[q2].friend == To(q1) && h[q1].isQueue && h[q2].isQueue
  {
    assert FriendOk(h, q1);
    assert FriendOk(h, q2);
  }

  lemma CutIn(h: Heap, x: Wire, c: Cut, k: Id)
    requires CutOf(h, x, c) && (Reaches(c.cut, c.w, k) || Reaches(c.cut, c.e, k))
    ensures k in h
  {
    InOld(c.cut, c.w, k);
    InOld(c.cut, c.e, k);
  }

  // ----- a merge that does not get stuck

  /** No friend of the brick is to be merged with it. */
  ghost predicate Free(h: Heap, west: seq<Id>, east: seq<Id>, n: Id) {
    forall p {:trigger Matched(h, west, east, n, p)} {:trigger Matched(h, west, east, p, n)} ::
      !Matched(h, west, east, n, p) && !Matched(h, west, east, p, n)
  }

  /** The queues stand between two bricks that stay, from west to east. */
  ghost predicate Facing(h: Heap, west: seq<Id>, east: seq<Id>, q1: Id, q2: Id, x1: Wire, x2: Wire) {
    && HasWire(h, x1) && HasWire(h, x2) && x1.east == q1 && x2.west == q2 && x1.west != x2.east
    && Free(h, west, east, x1.west) && Free(h, west, east, x2.east)
  }

  ghost predicate AllFacing(h: Heap, west: seq<Id>, east: seq<Id>) {
    forall q1, q2 {:trigger Matched(h, west, east, q1, q2)} ::
      Matched(h, west, east, q1, q2) ==> exists x1, x2 :: Facing(h, west, east, q1, q2, x1, x2)
  }

  /** A pair still to be merged has kept its links. */
  lemma StillFacing(h: Heap, now: Heap, west: seq<Id>, east: seq<Id>, dw: seq<Id>, de: seq<Id>, q1: Id, q2: Id, x1: Wire, x2: Wire)
    requires Valid(h) && (forall q :: q in west ==> q !in east) && Couples(h, west, east, dw, de) && MergedSoFar(h, now, dw, de)
    requires Matched(h, west, east, q1, q2) && q1 !in dw && Facing(h, west, east, q1, q2, x1, x2)
    ensures HasWire(now, x1) && HasWire(now, x2)
  {
    hide HasWire, Valid, SameNode;
    CouplesParts(h, west, east, dw, de);
    NotMerged(h, west, east, dw, de, q1, q2);
    FreeStays(h, west, east, dw, de, x1.west);
    FreeStays(h, west, east, dw, de, x2.east);
    assert forall q :: Touches(x1, q) ==> q !in dw && q !in de;
    assert forall q :: Touches(x2, q) ==> q !in dw && q !in de;
  }

  lemma NotMerged(h: Heap, west: seq<Id>, east: seq<Id>, dw: seq<Id>, de: seq<Id>, q1: Id, q2: Id)
    requires Valid(h) && Couples(h, west, east, dw, de) && Matched(h, west, east, q1, q2) && q1 !in dw
    ensures q2 !in de
  {
    hide Valid;
    if q2 in de {
      var k :| 0 <= k < |de| && de[k] == q2;
      FriendBack(h, dw[k], q2);
      FriendBack(h, q1, q2);
    }
  }

  lemma FreeStays(h: Heap, west: seq<Id>, east: seq<Id>, dw: seq<Id>, de: seq<Id>, n: Id)
    requires Couples(h, west, east, dw, de) && Free(h, west, east, n)
    ensures n !in dw && n !in de
  {
    hide Matched;
    forall k | 0 <= k < |dw| ensures dw[k] != n && de[k] != n {
      assert Matched(h, west, east, dw[k], de[k]);
    }
  }

  /** Two queues that stand between different bricks can be taken out. */
  lemma FacingJoin(now: Heap, mid: Heap, q1: Id, q2: Id, x1: Wire, x2: Wire)
    requires Valid(now) && HasWire(now, x1) && HasWire(now, x2) && x1.east == q1 && x2.west == q2
    requires x1.west != x2.east && q1 in now && q2 in now && now[q1].isQueue && now[q2].isQueue && Separated(now, mid, q1, q2)
    ensures CanJoin(now, mid, q1, q2)
  {
    hide SameNode, Valid, HasRoom;
    WireBothEnds(now, x1);
    WireBothEnds(now, x2);
    QueueBetween(now, x1, q1);
    QueueBetween(now, x2, q2);
    assert !HasWire(mid, x1) && !HasWire(mid, x2);
    SlotFreed(now, mid, x1);
    SlotFreed(now, mid, x2);
  }

  /** A merge of queues that all stand between bricks that stay cannot fail on the way. */
  lemma NeverStuck(h: Heap, now: Heap, west: seq<Id>, east: seq<Id>, dw: seq<Id>, de: seq<Id>, mid: Heap)
    requires Valid(h) && (forall q :: q in west ==> q !in east) && Couples(h, west, east, dw, de) && AllFacing(h, west, east)
    ensures !Stuck(h, now, west, east, dw, de, mid)
  {
    hide Valid, HasWire, Separated, CanJoin, SameNode, NoDuplicates;
    if Stuck(h, now, west, east, dw, de, mid) {
      var q1, q2 :| Matched(h, west, east, q1, q2) && q1 !in dw && Separated(now, mid, q1, q2) && !CanJoin(now, mid, q1, q2);
      var x1, x2 :| Facing(h, west, east, q1, q2, x1, x2);
      StillFacing(h, now, west, east, dw, de, q1, q2, x1, x2);
      FriendBack(h, q1, q2);
      assert SameNode(h[q1], now[q1].(friend := h[q1].friend)) && SameNode(h[q2], now[q2].(friend := h[q2].friend));
      StaysQueue(h, now, q1);
      StaysQueue(h, now, q2);
      FacingJoin(now, mid, q1, q2, x1, x2);
    }
  }

  lemma StaysQueue(h: Heap, now: Heap, q: Id)
    requires q in h && q in now && SameNode(h[q], now[q].(friend := h[q].friend))
    ensures now[q].isQueue == h[q].isQueue
  {
  }

  /** What a merge after a split leaves alone. */
  lemma NotLostFree(h: Heap, x: Wire, c: Cut, h1: Heap, west: seq<Id>, east: seq<Id>, n: Id)
    requires CutOf(h, x, c) && Bridge(c) && Finished(c, h1) && Extends(h, h1)
    requires QueuesOf(h1, c.qw, west) && QueuesOf(h1, c.qe, east)
    requires n != c.qw && n != c.qe && !Lost(h, c.w, c.e, n)
    ensures Free(h1, west, east, n)
  {
    hide Matched, FriendsApart, CutOf, Bridge, Finished, Extends, QueuesOf;
    forall p ensures !Matched(h1, west, east, n, p) && !Matched(h1, west, east, p, n) {
      MatchedApart(h, x, c, h1, west, east, n, p);
      MatchedApart(h, x, c, h1, west, east, p, n);
    }
  }

  /** The queues of a split stand between the two bricks it has cut apart. */
  lemma OwnFacing(h: Heap, x: Wire, c: Cut, h1: Heap, west: seq<Id>, east: seq<Id>)
    requires CutOf(h, x, c) && Bridge(c) && Finished(c, h1) && Extends(h, h1)
    requires QueuesOf(h1, c.qw, west) && QueuesOf(h1, c.qe, east) && AllUpright(h, c.w, c.e)
    ensures Facing(h1, west, east, c.qw, c.qe, c.wx, c.qx)
  {
    hide FriendsApart, Bridge, Extends, QueuesOf, Free, HasWire, Valid, SameNode, CutHeap, FirstLink;
    CutNeighbours(c, h1);
    NotLostFree(h, x, c, h1, west, east, c.w);
    NotLostFree(h, x, c, h1, west, east, c.e);
  }

  /** A link that does not touch the ends of the cut has survived it. */
  lemma WireSurvives(h: Heap, x: Wire, c: Cut, h1: Heap, y: Wire, q: Id)
    requires CutOf(h, x, c) && Finished(c, h1) && HasWire(h, y) && Touches(y, q) && q != c.w && q != c.e
    ensures HasWire(h1, y) && y.west != c.qw && y.west != c.qe && y.east != c.qw && y.east != c.qe
  {
    hide Finished, HasWire, Valid, IsCut, OneMore, FirstLink, CutHeap;
    CutEnds(h, x, c, y);
    CutWires(c, h1, y);
  }

  /** Two friends that the split has separated stand between bricks of different sides. */
  lemma ApartFacing(h: Heap, x: Wire, c: Cut, h1: Heap, west: seq<Id>, east: seq<Id>, q1: Id, q2: Id, x1: Wire, x2: Wire)
    requires CutOf(h, x, c) && Bridge(c) && Finished(c, h1) && Extends(h, h1)
    requires QueuesOf(h1, c.qw, west) && QueuesOf(h1, c.qe, east) && FriendsApart(h, c.w, c.e, q1, q2)
    requires q1 != c.w && q1 != c.e && q2 != c.w && q2 != c.e && x1.east == q1 && x2.west == q2
    requires HasWire(h, x1) && HasWire(h, x2) && !Lost(h, c.w, c.e, x1.west) && !Lost(h, c.w, c.e, x2.east)
    ensures Facing(h1, west, east, q1, q2, x1, x2)
  {
    hide FriendsApart, Bridge, Extends, QueuesOf, Free, HasWire, Valid, CutOf, Lost, Finished, Reaches, Adjacent;
    WireSurvives(h, x, c, h1, x1, q1);
    WireSurvives(h, x, c, h1, x2, q2);
    NotLostFree(h, x, c, h1, west, east, x1.west);
    NotLostFree(h, x, c, h1, west, east, x2.east);
    CutParts(h, x, c, h1);
    MatchedApart(h, x, c, h1, west, east, q1, q2);
    QueueReached(h1, c.qw, west, q1);
    QueueReached(h1, c.qe, east, q2);
    AdjacentIffWire(h1, q1, x1.west);
    AdjacentIffWire(h1, q2, x2.east);
    ReachStep(h1, c.qw, q1, x1.west);
    ReachStep(h1, c.qe, q2, x2.east);
    SplitComponents(h, x, c, h1, x1.west);
  }

  lemma QueueReached(h: Heap, id: Id, qs: seq<Id>, q: Id)
    requires QueuesOf(h, id, qs) && q in qs
    ensures Reaches(h, id, q)
  {
  }

  /** The queues of a split and the upright friends it separates all stand between bricks that stay. */
  lemma UprightFacing(h: Heap, x: Wire, c: Cut, h1: Heap, west: seq<Id>, east: seq<Id>)
    requires CutOf(h, x, c) && Bridge(c) && Finished(c, h1) && Extends(h, h1)
    requires QueuesOf(h1, c.qw, west) && QueuesOf(h1, c.qe, east) && AllUpright(h, c.w, c.e)
    ensures AllFacing(h1, west, east)
  {
    hide FriendsApart, Bridge, Extends, QueuesOf, HasWire, CutOf, Lost, Finished, Facing, Matched;
    forall q1, q2 | Matched(h1, west, east, q1, q2) ensures exists x1, x2 :: Facing(h1, west, east, q1, q2, x1, x2) {
      MatchedApart(h, x, c, h1, west, east, q1, q2);
      if q1 == c.qw && q2 == c.qe {
        OwnFacing(h, x, c, h1, west, east);
      } else {
        var x1, x2 :| HasWire(h, x1) && HasWire(h, x2) && x1.east == q1 && x2.west == q2
                      && !Lost(h, c.w, c.e, x1.west) && !Lost(h, c.w, c.e, x2.east);
        ApartFacing(h, x, c, h1, west, east, q1, q2, x1, x2);
      }
    }
  }

  // ----- what is left after the merge

  /** No link leaves the set. */
  ghost predicate Enclosed(h: Heap, inside: iset<Id>) {
    forall y :: HasWire(h, y) ==> (y.west in inside <==> y.east in inside)
  }

  lemma NeighbourInside(h: Heap, q: Id, inside: iset<Id>)
    requires Valid(h) && q in h && q in inside && Enclosed(h, inside) && Neighbour(h[q]).To?
    ensures Neighbour(h[q]).id in inside
  {
    SlotHasWire(h, q, West, 0);
  }

  /** Merging queues inside a closed set makes no link out of it. */
  lemma {:induction false} ChainEnclosed(h: Heap, h': Heap, dw: seq<Id>, de: seq<Id>, joins: seq<Join>, inside: iset<Id>)
    requires Valid(h) && Chain(h, h', dw, de, joins) && Enclosed(h, inside)
    requires forall q :: q in dw || q in de ==> q in inside && q in h
    ensures Valid(h') && Enclosed(h', inside) && h'.Keys == h.Keys
    decreases |dw|
  {
    hide HasWire, Valid, SameNode;
    if dw != [] {
      var j := joins[0];
      assert forall q :: q in dw[1..] || q in de[1..] ==> q in dw || q in de;
      ChainEnclosed(h, j.before, dw[1..], de[1..], joins[1..], inside);
      assert dw[0] in dw && de[0] in de;
      if ToJoin(j.before, dw[0], de[0]) {
        NeighbourInside(j.before, dw[0], inside);
        NeighbourInside(j.before, de[0], inside);
      }
    }
  }

  /** All that is reached from the west part after the merge was in one of the parts before. */
  lemma StaysInside(h1: Heap, h2: Heap, m: MergeLog, inside: iset<Id>, s: Id, k: Id)
    requires Valid(h1) && Valid(h2) && MergeDone(h1, h2, m) && Enclosed(h1, inside)
    requires forall q :: q in m.dw || q in m.de ==> q in inside && q in h1
    requires s in inside && Reaches(h2, s, k)
    ensures k in inside
  {
    hide Valid, Adjacent, Reaches, AllMerged, WithoutQueues, PairMerged, Chain, HasWire;
    ChainEnclosed(h1, m.joined, m.dw, m.de, m.joins, inside);
    forall a, b | a in inside && Adjacent(h2, a, b) ensures b in inside {
      AdjacentIffWire(h2, a, b);
    }
    ClosedReach(h2, inside, s, k);
  }

  /** A component, or two, is closed. */
  lemma ComponentsEnclosed(h: Heap, a: Id, b: Id)
    requires Valid(h)
    ensures Enclosed(h, iset k | Reaches(h, a, k) || Reaches(h, b, k))
  {
    hide Reaches, Valid, Adjacent, HasWire;
    forall y | HasWire(h, y)
      ensures Reaches(h, a, y.west) <==> Reaches(h, a, y.east)
      ensures Reaches(h, b, y.west) <==> Reaches(h, b, y.east)
    {
      WireReaches(h, a, y);
      WireReaches(h, b, y);
    }
  }

  lemma WireReaches(h: Heap, a: Id, y: Wire)
    requires Valid(h) && HasWire(h, y)
    ensures Reaches(h, a, y.west) <==> Reaches(h, a, y.east)
  {
    hide Reaches, Valid, Adjacent, HasWire;
    AdjacentIffWire(h, y.west, y.east);
    AdjacentIffWire(h, y.east, y.west);
    if Reaches(h, a, y.west) { ReachStep(h, a, y.west, y.east); }
    if Reaches(h, a, y.east) { ReachStep(h, a, y.east, y.west); }
  }

  /** The names stay unique. */
  lemma NamesAfterMerge(h: Heap, x: Wire, c: Cut, h1: Heap, h2: Heap, m: MergeLog, s: Id)
    requires CutOf(h, x, c) && Finished(c, h1) && Extends(h, h1) && Valid(h2) && UniqueNames(h, c.w)
    requires MergeDone(h1, h2, m) && c.qw !in h2 && c.qe !in h2 && Reaches(h1, c.qw, s)
    requires forall q :: q in m.dw ==> Reaches(h1, c.qw, q)
    requires forall q :: q in m.de ==> Reaches(h1, c.qe, q)
    ensures UniqueNames(h2, s)
  {
    hide Reaches, Valid, CutOf, Finished;
    CutParts(h, x, c, h1);
    ComponentsEnclosed(h1, c.qw, c.qe);
    var inside := iset k | Reaches(h1, c.qw, k) || Reaches(h1, c.qe, k);
    forall q | q in m.dw || q in m.de ensures q in inside && q in h1 {
      InOld(h1, c.qw, q);
      InOld(h1, c.qe, q);
    }
    forall k | k in h2 && Reaches(h2, s, k) ensures k in h && Reaches(h, c.w, k) && h2[k].name == h[k].name {
      StaysInside(h1, h2, m, inside, s, k);
      OldMember(h, x, c, h1, k);
      SameNameAfter(h, h1, h2, m, k);
    }
  }

  lemma OldMember(h: Heap, x: Wire, c: Cut, h1: Heap, k: Id)
    requires CutOf(h, x, c) && Finished(c, h1) && (Reaches(h1, c.qw, k) || Reaches(h1, c.qe, k)) && k != c.qw && k != c.qe
    ensures k in h && Reaches(h, c.w, k)
  {
    hide Reaches, Valid, CutOf, Finished;
    SplitComponents(h, x, c, h1, k);
    CutParts(h, x, c, h1);
    InOld(h, c.w, k);
  }

  lemma SameNameAfter(h: Heap, h1: Heap, h2: Heap, m: MergeLog, k: Id)
    requires k in h && k in h2 && Extends(h, h1) && MergeDone(h1, h2, m)
    ensures h2[k].name == h[k].name
  {
    hide HasWire, Chain, AllMerged, PairMerged, WiresLeft;
    assert SameNode(h[k], h1[k]) && SameNode(h1[k], h2[k].(friend := h1[k].friend));
  }

  /** Of the bricks before the split, a merge leaves all but the friends that were separated. */
  lemma OnlyLostGone(h: Heap, x: Wire, c: Cut, h1: Heap, h2: Heap, m: MergeLog, q: Id)
    requires CutOf(h, x, c) && Bridge(c) && Finished(c, h1) && Extends(h, h1)
    requires QueuesOf(h1, c.qw, m.west) && QueuesOf(h1, c.qe, m.east)
    requires Couples(h1, m.west, m.east, m.dw, m.de) && MergeDone(h1, h2, m)
    ensures q in h2 <==> q in h && !Lost(h, c.w, c.e, q)
  {
    hide FriendsApart, Bridge, CutOf, Finished, Extends, QueuesOf, Chain, PairMerged, WiresLeft, HasWire, SameNode, Matched;
    SplitKeys(h, x, c, h1);
    forall p
      ensures Matched(h1, m.west, m.east, q, p) <==> (q == c.qw && p == c.qe) || FriendsApart(h, c.w, c.e, q, p)
      ensures Matched(h1, m.west, m.east, p, q) <==> (p == c.qw && q == c.qe) || FriendsApart(h, c.w, c.e, p, q)
    {
      MatchedApart(h, x, c, h1, m.west, m.east, q, p);
      MatchedApart(h, x, c, h1, m.west, m.east, p, q);
    }
    assert Matched(h1, m.west, m.east, q, c.qe) || q != c.qw;
    assert Matched(h1, m.west, m.east, c.qw, q) || q != c.qe;
    if q in m.dw {
      var k :| 0 <= k < |m.dw| && m.dw[k] == q;
      assert Matched(h1, m.west, m.east, q, m.de[k]);
    }
    if q in m.de {
      var k :| 0 <= k < |m.de| && m.de[k] == q;
      assert Matched(h1, m.west, m.east, m.dw[k], q);
    }
    assert q in h2 <==> q in h1 && q !in m.dw && q !in m.de;
  }

  lemma SplitKeys(h: Heap, x: Wire, c: Cut, h1: Heap)
    requires CutOf(h, x, c) && Finished(c, h1)
    ensures h1.Keys == h.Keys + {c.qw, c.qe} && c.qw !in h && c.qe !in h
  {
  }

  lemma AtMostOne(s: seq<Id>, q: Id)
    requires NoDuplicates(s) && forall k :: 0 <= k < |s| ==> s[k] == q
    ensures s == [] || s == [q]
  {
    if s != [] {
      var last := |s| - 1;
      assert s[last] == s[0];
    }
  }

  /** Without friends apart only the split's own queues are merged. */
  lemma MergesOnePair(h: Heap, x: Wire, c: Cut, h1: Heap, m: MergeLog)
    requires CutOf(h, x, c) && Bridge(c) && Finished(c, h1) && Extends(h, h1) && !SeparatesFriends(h, c.w, c.e)
    requires QueuesOf(h1, c.qw, m.west) && QueuesOf(h1, c.qe, m.east)
    requires Couples(h1, m.west, m.east, m.dw, m.de) && AllMerged(h1, m.west, m.east, m.dw, m.de)
    ensures m.dw == [c.qw] && m.de == [c.qe]
  {
    hide FriendsApart, Bridge, CutOf, Finished, Extends, QueuesOf, Matched;
    forall k | 0 <= k < |m.dw| ensures m.dw[k] == c.qw && m.de[k] == c.qe {
      MatchedApart(h, x, c, h1, m.west, m.east, m.dw[k], m.de[k]);
    }
    AtMostOne(m.dw, c.qw);
    AtMostOne(m.de, c.qe);
    MatchedApart(h, x, c, h1, m.west, m.east, c.qw, c.qe);
  }

  /** Bricks keep everything but links, references and stance through a split and a merge. */
  lemma NodesRestored(h: Heap, x: Wire, c: Cut, h1: Heap, h2: Heap)
    requires CutOf(h, x, c) && Finished(c, h1) && Extends(h, h1) && WithoutQueues(h1, h2, {c.qw, c.qe})
    ensures SameNodes(h, h2)
  {
    hide Valid, HasWire, CutHeap;
    forall id | id in h ensures id in h2 && SameNode(h[id], h2[id]) {
      assert SameNode(h[id], h1[id]) && SameNode(h1[id], h2[id].(friend := h1[id].friend));
    }
  }

  /** A graph that holds a component has unique names. */
  lemma HoldsUnique(g: Graph, h: Heap, w: Id, n1: string, n2: string)
    requires g.Holds(h, w) && n1 !in g.all && n2 !in g.all
    ensures UniqueNames(h, w)
    ensures forall k :: k in h && Reaches(h, w, k) ==> h[k].name != n1 && h[k].name != n2
  {
    hide Reaches;
    forall k | k in h && Reaches(h, w, k) ensures h[k].name in g.all && g.all[h[k].name] == k {
      assert g.Member(k);
    }
  }

  lemma NamesRestored(h: Heap, h2: Heap, w: Id, s: Id)
    requires Valid(h2) && SameNodes(h, h2) && UniqueNames(h, w) && Reaches(h2, w, s)
    requires forall k :: Reaches(h2, w, k) <==> Reaches(h, w, k)
    ensures UniqueNames(h2, s)
    ensures forall k :: Reaches(h2, s, k) <==> Reaches(h, w, k)
  {
    hide Reaches, Valid;
    forall k ensures Reaches(h2, s, k) <==> Reaches(h, w, k) { SameComponent(h2, w, s, k); }
    forall a, b | a in h2 && b in h2 && Reaches(h2, s, a) && Reaches(h2, s, b) && h2[a].name == h2[b].name ensures a == b {
      assert SameNode(h[a], h2[a]) && SameNode(h[b], h2[b]);
    }
  }

  lemma AllRestored(h: Heap, x: Wire, c: Cut, h1: Heap, h2: Heap, m: MergeLog)
    requires CutOf(h, x, c) && Finished(c, h1) && Extends(h, h1) && Valid(h) && Valid(h2)
    requires m.dw == [c.qw] && m.de == [c.qe] && MergeDone(h1, h2, m)
    ensures SameNodes(h, h2)
    ensures forall a, b :: Adjacent(h2, a, b) <==> Adjacent(h, a, b)
    ensures forall k :: Reaches(h2, c.w, k) <==> Reaches(h, c.w, k)
  {
    hide Reaches, Valid, Adjacent, CutOf, Finished, Extends, PairMerged, WithoutQueues, AllMerged;
    assert Elements(m.dw) + Elements(m.de) == {c.qw, c.qe};
    NodesRestored(h, x, c, h1, h2);
    forall a, b ensures Adjacent(h2, a, b) <==> Adjacent(h, a, b) { AdjacencyRestored(h, x, c, h1, h2, m.x, a, b); }
    forall k ensures Reaches(h2, c.w, k) <==> Reaches(h, c.w, k) { ReachRestored(h, h2, c.w, k); }
  }

  /** The two graphs of a split at a bridge, as the merge finds them. */
  lemma SplitGraphs(h: Heap, x: Wire, c: Cut, h1: Heap, g: Graph, r: Graph)
    requires CutOf(h, x, c) && Bridge(c) && Finished(c, h1)
    requires g.Holds(h1, c.qw) && r.Holds(h1, c.qe)
    ensures forall k :: g.Member(k) ==> !r.Member(k)
    ensures forall k :: g.Member(k) <==> Reaches(h1, c.qw, k)
    ensures g.Member(c.w) && c.w != c.qw
    ensures forall k :: g.Member(k) && k != c.qw ==> Reaches(h, c.w, k)
  {
    hide Reaches, Valid, CutOf;
    CutParts(h, x, c, h1);
    forall k ensures g.Member(k) ==> !r.Member(k) && (k != c.qw ==> Reaches(h, c.w, k)) {
      SplitComponents(h, x, c, h1, k);
      BeforeCut(h, x, c, k);
    }
    CutSelf(h, x, c);
    SplitComponents(h, x, c, h1, c.w);
  }

  lemma CutSelf(h: Heap, x: Wire, c: Cut)
    requires CutOf(h, x, c)
    ensures Reaches(c.cut, c.w, c.w)
  {
    ReachSelf(c.cut, c.w);
  }

  lemma BridgeCut(h: Heap, w: Id, e: Id)
    requires IsBridge(h, w, e)
    ensures CanCut(h, w, e)
  {
  }

  /** The lists of queues of two disjoint components are disjoint. */
  lemma QueuesDisjoint(h: Heap, x: Wire, c: Cut, h1: Heap, west: seq<Id>, east: seq<Id>)
    requires CutOf(h, x, c) && Bridge(c) && Finished(c, h1) && QueuesOf(h1, c.qw, west) && QueuesOf(h1, c.qe, east)
    ensures forall q :: q in west ==> q !in east
  {
    hide Reaches, CutOf, Bridge, Finished;
    forall q | q in west ensures q !in east { SplitComponents(h, x, c, h1, q); }
  }

  /** What is merged is reached from the two new queues. */
  lemma MergedReached(h1: Heap, c: Cut, m: MergeLog)
    requires QueuesOf(h1, c.qw, m.west) && QueuesOf(h1, c.qe, m.east) && Couples(h1, m.west, m.east, m.dw, m.de)
    ensures forall q :: q in m.dw ==> Reaches(h1, c.qw, q)
    ensures forall q :: q in m.de ==> Reaches(h1, c.qe, q)
  {
    hide Reaches, Matched;
    CouplesParts(h1, m.west, m.east, m.dw, m.de);
  }

  /** Why the merge that follows a split succeeds. */
  lemma UprightMerges(h: Heap, x: Wire, c: Cut, h1: Heap, m: MergeLog)
    requires CutOf(h, x, c) && Bridge(c) && Finished(c, h1) && Extends(h, h1) && AllUpright(h, c.w, c.e)
    requires QueuesOf(h1, c.qw, m.west) && QueuesOf(h1, c.qe, m.east) && Couples(h1, m.west, m.east, m.dw, m.de)
    ensures !Stuck(h1, m.joined, m.west, m.east, m.dw, m.de, m.mid)
  {
    hide Bridge, CutOf, Finished, Extends, QueuesOf, AllUpright, Couples, AllFacing, Stuck, Valid;
    CutParts(h, x, c, h1);
    QueuesDisjoint(h, x, c, h1, m.west, m.east);
    UprightFacing(h, x, c, h1, m.west, m.east);
    NeverStuck(h1, m.joined, m.west, m.east, m.dw, m.de, m.mid);
  }

  lemma NoneApart(h: Heap, w: Id, e: Id)
    requires !SeparatesFriends(h, w, e)
    ensures AllUpright(h, w, e)
    ensures forall q :: !Lost(h, w, e, q)
  {
    hide FriendsApart;
  }

  lemma SomeApart(h: Heap, w: Id, e: Id, h2: Heap)
    requires SeparatesFriends(h, w, e) && forall q :: q in h2 <==> q in h && !Lost(h, w, e, q)
    ensures !SameNodes(h, h2)
  {
    var q1, q2 :| FriendsApart(h, w, e, q1, q2);
    assert Lost(h, w, e, q1) && q1 in h;
  }

  /**
   Splitting an explored graph at a bridge under fresh queue names and merging
   the two halves gives the graph back exactly if the bridge lies between no two
   friends: then both operations succeed, the same bricks are neighbours, and
   the graph holds them all.  Friends on different sides are lost by a merge
   that succeeds, and they alone; it does succeed when each of them stands
   between two bricks that stay.
   */
  method SplitThenMerge(world: World, g: Graph, eastName: string, westBrick: string, eastBrick: string,
                        westQueue: string, eastQueue: string) returns (ok: bool)
    requires world.Ok() && g.Ok(world.heap) && westBrick in g.all && eastBrick in g.all
    requires g.Holds(world.heap, g.all[westBrick]) && westQueue !in g.all && eastQueue !in g.all
    requires IsBridge(world.heap, g.all[westBrick], g.all[eastBrick])
    modifies world, g
    ensures world.Ok()
    ensures ok && SameNodes(old(world.heap), world.heap) <==>
              !SeparatesFriends(old(world.heap), old(g.all)[westBrick], old(g.all)[eastBrick])
    ensures !SeparatesFriends(old(world.heap), old(g.all)[westBrick], old(g.all)[eastBrick]) ==>
              && (forall a, b :: Adjacent(world.heap, a, b) <==> Adjacent(old(world.heap), a, b))
              && g.Ok(world.heap) && forall k :: g.Member(k) <==> old(g.Member(k))
    ensures ok ==>
              forall q :: q in world.heap <==>
                q in old(world.heap) && !Lost(old(world.heap), old(g.all)[westBrick], old(g.all)[eastBrick], q)
    ensures AllUpright(old(world.heap), old(g.all)[westBrick], old(g.all)[eastBrick]) ==> ok
  {
    hide Valid, Reaches, Adjacent, CutOf, Finished, Extends, IsBridge, UniqueNames, MergeDone, Couples, SameNodes, Graph.Ok, Stuck, AllMerged, QueuesOf, SeparatesFriends, AllUpright, Lost, Bridge;
    ghost var h, w, e := world.heap, g.all[westBrick], g.all[eastBrick];
    ghost var done, x, c;
    BridgeCut(h, w, e);
    HoldsUnique(g, h, w, westQueue, eastQueue);
    var r;
    r, done, x, c := Split(world, g, eastName, westBrick, eastBrick, westQueue, eastQueue);
    ghost var h1 := world.heap;
    BridgeIsCut(h, x, c);
    SplitNames(h, x, c, h1);
    SplitGraphs(h, x, c, h1, g, r);
    QueuesIn(c, h1);
    CutParts(h, x, c, h1);
    QueuesPolled(g, h1, c.qw);
    QueuesPolled(r, h1, c.qe);
    ghost var m;
    ok, m := Merge(world, g, r);
    QueuesListed(h1, c.qw, m.west);
    QueuesListed(h1, c.qe, m.east);
    MergedReached(h1, c, m);
    if AllUpright(h, w, e) {
      UprightMerges(h, x, c, h1, m);
    }
    if !m.stuck {
      forall q ensures q in world.heap <==> q in h && !Lost(h, w, e, q) { OnlyLostGone(h, x, c, h1, world.heap, m, q); }
      if m.start.To? {
        NamesAfterMerge(h, x, c, h1, world.heap, m, m.start.id);
      }
    }
    if SeparatesFriends(h, w, e) {
      if ok { SomeApart(h, w, e, world.heap); }
    } else {
      NoneApart(h, w, e);
      UprightMerges(h, x, c, h1, m);
      MergedAll(h1, world.heap, m);
      MergesOnePair(h, x, c, h1, m);
      AllRestored(h, x, c, h1, world.heap, m);
      NamesRestored(h, world.heap, c.w, m.start.id);
    }
  }

  lemma QueuesListed(h: Heap, id: Id, qs: seq<Id>)
    requires forall q :: q in qs <==> q in h && h[q].isQueue && Reaches(h, id, q)
    ensures QueuesOf(h, id, qs)
  {
  }

  lemma QueuesIn(c: Cut, h: Heap)
    requires Finished(c, h)
    ensures c.qw in h && c.qe in h && h[c.qw].isQueue && h[c.qe].isQueue
  {
  }

  lemma MergedAll(h: Heap, h': Heap, m: MergeLog)
    ensures MergeDone(h, h', m) ==> AllMerged(h, m.west, m.east, m.dw, m.de)
  {
  }
}
