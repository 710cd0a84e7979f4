/**
 Cutting a graph in two at a link, with a pair of friend queues on the cut, and
 joining two graphs again where their queues are friends.
 */
module GraphSplit {

  import opened Bricks
  import opened BrickLinks
  import opened BrickReach
  import opened BrickGraph

  // ----- reachability when links come and go

  ghost predicate Joins(x: Wire, a: Id, b: Id) {
    (x.west == a && x.east == b) || (x.west == b && x.east == a)
  }

  /** Neighbours are what links join. */
  lemma AdjacentIffWire(h: Heap, a: Id, b: Id)
    requires Valid(h)
    ensures Adjacent(h, a, b) <==> exists x :: HasWire(h, x) && Joins(x, a, b)
  {
    if Adjacent(h, a, b) {
      var x := AdjacentByWire(h, a, b);
      assert HasWire(h, x) && Joins(x, a, b);
    }
    if exists x :: HasWire(h, x) && Joins(x, a, b) {
      var x :| HasWire(h, x) && Joins(x, a, b);
      WireMakesAdjacent(h, x);
    }
  }

  /** More links, more is reached. */
  lemma ReachMore(h: Heap, h': Heap, a: Id, b: Id)
    requires Valid(h) && Valid(h') && Reaches(h, a, b) && a in h'
    requires forall x :: HasWire(h, x) ==> HasWire(h', x)
    ensures Reaches(h', a, b)
  {
    var inside := iset c | Reaches(h', a, c);
    ReachSelf(h', a);
    forall c, d | c in inside && Adjacent(h, c, d) ensures d in inside {
      AdjacentIffWire(h, c, d);
      AdjacentIffWire(h', c, d);
      ReachStep(h', a, c, d);
    }
    ClosedReach(h, inside, a, b);
  }

  /** The links of `h'` are those of `h` and `x`. */
  ghost predicate OneMore(h: Heap, h': Heap, x: Wire) {
    Valid(h) && Valid(h') && h.Keys <= h'.Keys && forall y :: HasWire(h', y) <==> HasWire(h, y) || y == x
  }

  /** One more link joins two components, or closes a cycle. */
  lemma ReachOneMore(h: Heap, h': Heap, x: Wire, k: Id)
    requires OneMore(h, h', x) && x.west in h && x.east in h
    ensures Reaches(h', x.west, k) <==> Reaches(h, x.west, k) || Reaches(h, x.east, k)
  {
    assert HasWire(h', x);
    WireMakesAdjacent(h', x);
    ReachSelf(h', x.west);
    ReachSelf(h', x.east);
    ReachStep(h', x.west, x.west, x.east);
    if Reaches(h, x.west, k) { ReachMore(h, h', x.west, k); }
    if Reaches(h, x.east, k) {
      ReachMore(h, h', x.east, k);
      ReachTransitive(h', x.west, x.east, k);
    }
    if Reaches(h', x.west, k) {
      var inside := iset c | Reaches(h, x.west, c) || Reaches(h, x.east, c);
      ReachSelf(h, x.west);
      ReachSelf(h, x.east);
      forall c, d | c in inside && Adjacent(h', c, d) ensures d in inside { JoinedStep(h, h', x, c, d); }
      ClosedReach(h', inside, x.west, k);
    }
  }

  lemma JoinedStep(h: Heap, h': Heap, x: Wire, c: Id, d: Id)
    requires OneMore(h, h', x) && x.west in h && x.east in h && Adjacent(h', c, d)
    requires Reaches(h, x.west, c) || Reaches(h, x.east, c)
    ensures Reaches(h, x.west, d) || Reaches(h, x.east, d)
  {
    AdjacentIffWire(h', c, d);
    var y :| HasWire(h', y) && Joins(y, c, d);
    if y == x {
      ReachSelf(h, x.west);
      ReachSelf(h, x.east);
    } else {
      AdjacentIffWire(h, c, d);
      if Reaches(h, x.west, c) { ReachStep(h, x.west, c, d); }
      if Reaches(h, x.east, c) { ReachStep(h, x.east, c, d); }
    }
  }

  /** A component that a new link does not touch stays as it is. */
  lemma ReachUntouched(h: Heap, h': Heap, x: Wire, a: Id, k: Id)
    requires OneMore(h, h', x) && a in h && !Reaches(h, a, x.west) && !Reaches(h, a, x.east)
    ensures Reaches(h', a, k) <==> Reaches(h, a, k)
  {
    ReachSelf(h, a);
    if Reaches(h, a, k) { ReachMore(h, h', a, k); }
    if Reaches(h', a, k) {
      var inside := iset c | Reaches(h, a, c);
      forall c, d | c in inside && Adjacent(h', c, d) ensures d in inside {
        AdjacentIffWire(h', c, d);
        AdjacentIffWire(h, c, d);
        ReachStepIf(h, a, c, d);
      }
      ClosedReach(h', inside, a, k);
    }
  }

  lemma ReachStepIf(h: Heap, a: Id, b: Id, c: Id)
    requires Reaches(h, a, b)
    ensures Adjacent(h, b, c) ==> Reaches(h, a, c)
  {
    if Adjacent(h, b, c) { ReachStep(h, a, b, c); }
  }

  /** A brick without links is alone. */
  lemma ReachAlone(h: Heap, a: Id, k: Id)
    requires Valid(h) && a in h && forall x :: HasWire(h, x) ==> !Touches(x, a)
    ensures Reaches(h, a, k) <==> k == a
    ensures Reaches(h, k, a) ==> k == a
  {
    ReachSelf(h, a);
    forall d ensures !Adjacent(h, a, d) { AdjacentIffWire(h, a, d); }
    if Reaches(h, k, a) { ReachSymmetric(h, k, a); }
    if Reaches(h, a, k) { ClosedReach(h, iset{a}, a, k); }
  }

  ghost predicate SameWires(h: Heap, h': Heap) {
    Valid(h) && Valid(h') && h.Keys <= h'.Keys && forall y :: HasWire(h', y) <==> HasWire(h, y)
  }

  lemma ReachSameWires(h: Heap, h': Heap, a: Id, k: Id)
    requires SameWires(h, h') && a in h
    ensures Reaches(h', a, k) <==> Reaches(h, a, k)
  {
    if Reaches(h, a, k) { ReachMore(h, h', a, k); }
    if Reaches(h', a, k) { ReachMore(h', h, a, k); }
  }

  /** Bricks that reach each other reach the same bricks. */
  lemma SameComponent(h: Heap, a: Id, b: Id, k: Id)
    requires Valid(h) && Reaches(h, a, b)
    ensures Reaches(h, a, k) <==> Reaches(h, b, k)
    ensures Reaches(h, b, a)
  {
    ReachSymmetric(h, a, b);
    if Reaches(h, b, k) { ReachTransitive(h, a, b, k); }
    if Reaches(h, a, k) { ReachTransitive(h, b, a, k); }
  }

  // ----- the cut

  /**
   A cut: `cut` is the heap without the link, `grown` has the two new queues,
   `half` the first of them linked, `whole` both.
   */
  datatype Cut = Cut(w: Id, e: Id, slot: nat, qw: Id, qe: Id, cut: Heap, grown: Heap, half: Heap, whole: Heap, wx: Wire, qx: Wire)

  ghost predicate IsCut(c: Cut) {
    && c.w in c.cut && c.e in c.cut && c.w != c.e
    && c.qw in c.grown && c.qe in c.grown && c.qw !in c.cut && c.qe !in c.cut && c.qw != c.qe
    && SameWires(c.cut, c.grown) && c.grown.Keys == c.cut.Keys + {c.qw, c.qe} && c.grown.Keys == c.half.Keys == c.whole.Keys
    && OneMore(c.grown, c.half, c.wx) && c.wx.west == c.w && c.wx.east == c.qw
    && OneMore(c.half, c.whole, c.qx) && c.qx.west == c.qe && c.qx.east == c.e
  }

  /** The cut link was the only connection between its ends. */
  ghost predicate Bridge(c: Cut) { !Reaches(c.cut, c.w, c.e) }

  lemma FreshAlone(c: Cut, q: Id, k: Id)
    requires IsCut(c) && (q == c.qw || q == c.qe)
    ensures Reaches(c.grown, q, k) <==> k == q
    ensures Reaches(c.grown, k, q) ==> k == q
  {
    forall x | HasWire(c.grown, x) ensures !Touches(x, q) {
      assert HasWire(c.cut, x);
      WireBothEnds(c.cut, x);
    }
    ReachAlone(c.grown, q, k);
  }

  /** With the west queue linked. */
  lemma HalfReach(c: Cut, k: Id)
    requires IsCut(c)
    ensures Reaches(c.half, c.w, k) <==> Reaches(c.cut, c.w, k) || k == c.qw
    ensures Reaches(c.half, c.qw, k) <==> Reaches(c.cut, c.w, k) || k == c.qw
    ensures Reaches(c.half, c.qe, k) <==> k == c.qe
    ensures Reaches(c.half, k, c.qe) ==> k == c.qe
    ensures Bridge(c) ==> (Reaches(c.half, c.e, k) <==> Reaches(c.cut, c.e, k))
  {
    ReachOneMore(c.grown, c.half, c.wx, k);
    ReachSameWires(c.cut, c.grown, c.w, k);
    FreshAlone(c, c.qw, k);
    FreshAlone(c, c.qw, c.e);
    ReachOneMore(c.grown, c.half, c.wx, c.qw);
    FreshAlone(c, c.qw, c.qw);
    SameComponent(c.half, c.w, c.qw, k);
    forall x | HasWire(c.half, x) ensures !Touches(x, c.qe) {
      if x != c.wx {
        assert HasWire(c.cut, x);
        WireBothEnds(c.cut, x);
      }
    }
    ReachAlone(c.half, c.qe, k);
    if Bridge(c) {
      if Reaches(c.grown, c.e, c.w) {
        ReachSymmetric(c.grown, c.e, c.w);
        ReachSameWires(c.cut, c.grown, c.w, c.e);
      }
      ReachUntouched(c.grown, c.half, c.wx, c.e, k);
      ReachSameWires(c.cut, c.grown, c.e, k);
    }
  }

  /**
   What the two queues reach after the cut: each its own side if the link was a
   bridge, and otherwise both the same.
   */
  lemma CutComponents(c: Cut, k: Id)
    requires IsCut(c)
    ensures Bridge(c) ==> (Reaches(c.whole, c.qw, k) <==> k == c.qw || Reaches(c.cut, c.w, k))
    ensures Bridge(c) ==> (Reaches(c.whole, c.qe, k) <==> k == c.qe || Reaches(c.cut, c.e, k))
    ensures !Bridge(c) ==> (Reaches(c.whole, c.qw, k) <==> k == c.qw || k == c.qe || Reaches(c.cut, c.w, k))
    ensures !Bridge(c) ==> (Reaches(c.whole, c.qe, k) <==> Reaches(c.whole, c.qw, k))
  {
    HalfReach(c, k);
    ReachOneMore(c.half, c.whole, c.qx, k);
    if Bridge(c) {
      HalfReach(c, c.e);
      HalfReach(c, c.qe);
      HalfReach(c, c.qw);
      NotInCut(c, c.w, c.qe);
      ReachUntouched(c.half, c.whole, c.qx, c.qw, k);
    } else {
      HalfReach(c, c.e);
      HalfReach(c, c.qw);
      SameComponent(c.half, c.w, c.e, k);
      SameComponent(c.half, c.w, c.e, c.qw);
      ReachOneMore(c.half, c.whole, c.qx, c.qw);
      SameComponent(c.whole, c.qe, c.qw, k);
    }
  }

  lemma NotInCut(c: Cut, a: Id, q: Id)
    requires IsCut(c) && q !in c.cut
    ensures !Reaches(c.cut, a, q)
  {
    if Reaches(c.cut, a, q) { ReachSymmetric(c.cut, a, q); }
  }

  // ----- split

  /** The slot of `w` that pg_brick_unlink_edge picks, if the two bricks are linked. */
  ghost predicate FirstLink(h: Heap, w: Id, e: Id, i: nat)
    requires w in h
  {
    h[w].Get(h[w].Store(East), i).link == To(e) && forall k: nat :: k < i ==> h[w].Get(h[w].Store(East), k).link != To(e)
  }

  /** The bricks are linked and the queues find room where the link was. */
  ghost predicate CanCut(h: Heap, w: Id, e: Id) {
    && w in h && e in h
    && (exists i: nat :: h[w].Get(h[w].Store(East), i).link == To(e))
    && (h[w].Real(h[w].Store(East)) == East || h[e].kind.Monopole? || HasRoom(h[e], West))
  }

  /** Same bricks under the same names, but for links, references and stance. */
  ghost predicate Extends(h: Heap, h': Heap) {
    h.Keys <= h'.Keys && forall id :: id in h ==> SameNode(h[id], h'[id])
  }

  lemma GraphKept(g: Graph, h: Heap, h': Heap)
    requires g.Ok(h) && Extends(h, h')
    ensures g.Ok(h')
  {
  }

  /** The slots a broken link has freed have room again. */
  lemma RoomAfterUnlink(h: Heap, x: Wire, w: Id, e: Id)
    requires Valid(h) && HasWire(h, x) && HasWireEast(h, x) && x.west != x.east && Joins(x, w, e)
    requires Valid(UnlinkHeap(h, x))
    ensures var h' := UnlinkHeap(h, x);
            && (x.west == w || h[w].kind.Monopole? ==> HasRoom(h'[w], East))
            && (x.east == e || h[e].kind.Monopole? ==> HasRoom(h'[e], West))
            && (x.east != e && !h[e].kind.Monopole? ==> HasRoom(h'[e], West) == HasRoom(h[e], West))
  {
    var h' := UnlinkHeap(h, x);
    assert ShapeOk(h[x.west]) && ShapeOk(h[x.east]) && ShapeOk(h'[x.west]) && ShapeOk(h'[x.east]);
    var s, t := h[x.west].Store(East), h[x.east].Store(West);
    LinkedMeansRoom(h[x.west], s, x.wi);
    LinkedMeansRoom(h[x.east], t, x.ei);
    FreeMeansRoom(h'[x.west], East, x.wi);
    FreeMeansRoom(h'[x.east], West, x.ei);
  }

  /** The heap without the link in an east slot of `w`. */
  ghost function CutHeap(h: Heap, w: Id, i: nat): Heap
    requires w in h && h[w].Get(h[w].Store(East), i).link.To?
  {
    var x := WireAt(h, w, h[w].Store(East), i);
    if HasWire(h, x) && HasWireEast(h, x) then UnlinkHeap(h, x) else h
  }

  /** `c` cuts the first link between its two bricks, which is `x`. */
  ghost predicate CutOf(h: Heap, x: Wire, c: Cut) {
    && IsCut(c) && HasWire(h, x) && !HasWire(c.cut, x) && Joins(x, c.w, c.e) && OneMore(c.cut, h, x) && c.cut.Keys == h.Keys
    && (x.west == c.w || h[c.w].kind.Monopole?)
    && FirstLink(h, c.w, c.e, c.slot) && c.cut == CutHeap(h, c.w, c.slot)
  }

  ghost predicate IsNewQueue(h: Heap, q: Id, name: string) {
    q in h && h[q].name == name && h[q].kind.Monopole? && h[q].isQueue && h[q].polls && h[q].friend.Null?
  }

  /** Linking leaves the other bricks alone. */
  lemma LinkElsewhere(h: Heap, x: Wire)
    requires Linkable(h, x)
    ensures LinkHeap(h, x).Keys == h.Keys
    ensures forall id :: id in h && id != x.west && id != x.east ==> LinkHeap(h, x)[id] == h[id]
  {
  }

  /** A brick whose link has just been broken can be linked again at the same place. */
  lemma CutRoom(h: Heap, w: Id, e: Id, i: nat, x: Wire)
    requires Valid(h) && w in h && e in h && h[w].Get(h[w].Store(East), i).link == To(e)
    requires x == WireAt(h, w, h[w].Store(East), i) && HasWire(h, x) && HasWireEast(h, x) && Valid(UnlinkHeap(h, x))
    ensures x.west != x.east && Joins(x, w, e) && (x.west == w || h[w].kind.Monopole?)
    ensures w in UnlinkHeap(h, x) && e in UnlinkHeap(h, x) && HasRoom(UnlinkHeap(h, x)[w], East)
    ensures HasRoom(UnlinkHeap(h, x)[e], West) <==> CanCut(h, w, e)
  {
    WireBothEnds(h, x);
    RoomAfterUnlink(h, x, w, e);
  }

  lemma ExtendsMore(h1: Heap, h2: Heap, h3: Heap)
    requires Extends(h1, h2) && Extends(h2, h3)
    ensures Extends(h1, h3)
  {
  }

  lemma QueueKept(h: Heap, h': Heap, q: Id, name: string)
    requires IsNewQueue(h, q, name) && Extends(h, h')
    ensures IsNewQueue(h', q, name)
  {
    assert SameNode(h[q], h'[q]);
  }

  /** Two queues of the default size. */
  method AddQueues(world: World, westQueue: string, eastQueue: string) returns (qw: Id, qe: Id)
    requires world.Ok()
    modifies world
    ensures world.Ok() && SameWires(old(world.heap), world.heap) && Extends(old(world.heap), world.heap)
    ensures qw !in old(world.heap) && qe !in old(world.heap) && qw != qe
    ensures world.heap.Keys == old(world.heap).Keys + {qw, qe}
    ensures forall id :: id in old(world.heap) ==> world.heap[id] == old(world.heap)[id]
    ensures IsNewQueue(world.heap, qw, westQueue) && IsNewQueue(world.heap, qe, eastQueue)
    ensures HasRoom(world.heap[qw], West) && HasRoom(world.heap[qe], East)
  {
    hide Valid, HasWire;
    var newWest := world.New(westQueue, Monopole, 1, 1, true, true);
    var newEast := world.New(eastQueue, Monopole, 1, 1, true, true);
    qw, qe := newWest.id, newEast.id;
  }

  method LinkQueues(world: World, w: Id, e: Id, qw: Id, qe: Id) returns (ok: bool, ghost half: Heap, ghost wx: Wire, ghost qx: Wire)
    requires world.Ok() && w in world.heap && e in world.heap && qw in world.heap && qe in world.heap
    requires w != e && w != qw && e != qw && w != qe && e != qe && qw != qe
    requires HasRoom(world.heap[w], East) && HasRoom(world.heap[qw], West) && HasRoom(world.heap[qe], East)
    modifies world
    ensures world.Ok() && SameNodes(old(world.heap), world.heap)
    ensures ok <==> HasRoom(old(world.heap)[e], West)
    ensures ok ==> OneMore(old(world.heap), half, wx) && wx.west == w && wx.east == qw
    ensures ok ==> OneMore(half, world.heap, qx) && qx.west == qe && qx.east == e && half.Keys == old(world.heap).Keys
  {
    hide Valid, HasWire, LinkHeap, Linkable, FirstFree, HasRoom, SameNode;
    ghost var grown := world.heap;
    ok, wx := world.Link(To(w), To(qw));
    LinkElsewhere(grown, wx);
    LinkSameNodes(grown, wx);
    half := world.heap;
    ok, qx := world.Link(To(qe), To(e));
    if ok {
      LinkElsewhere(half, qx);
      LinkSameNodes(half, qx);
      SameNodesMore(grown, half, world.heap);
    }
  }

  lemma SameNodesMore(h1: Heap, h2: Heap, h3: Heap)
    requires SameNodes(h1, h2) && SameNodes(h2, h3)
    ensures SameNodes(h1, h3)
  {
  }

  /** Takes the link out and puts the two queues in. */
  method CutLink(world: World, west: Link, east: Link, westQueue: string, eastQueue: string)
    returns (ok: bool, qw: Id, qe: Id, ghost x: Wire, ghost c: Cut)
    requires world.Ok() && (west.To? ==> west.id in world.heap) && (east.To? ==> east.id in world.heap)
    modifies world
    ensures world.Ok() && Extends(old(world.heap), world.heap)
    ensures ok <==> west.To? && east.To? && CanCut(old(world.heap), west.id, east.id)
    ensures ok ==> IsCut(c) && c.w == west.id && c.e == east.id && c.qw == qw && c.qe == qe
    ensures ok ==> CutOf(old(world.heap), x, c)
    ensures ok ==> c.whole == world.heap && Extends(c.cut, world.heap)
    ensures ok ==> world.heap.Keys == old(world.heap).Keys + {qw, qe} && qw !in old(world.heap) && qe !in old(world.heap)
    ensures ok ==> IsNewQueue(world.heap, qw, westQueue) && IsNewQueue(world.heap, qe, eastQueue)
  {
    hide Valid, HasWire, HasWireEast, UnlinkHeap, CanCut, SameNodes, SameStance, Extends, HasRoom, IsNewQueue, Joins,
         SameWires, OneMore, IsCut, CutOf;
    ghost var h := world.heap;
    ghost var i;
    ok, i, x := world.UnlinkEdge(west, east);
    qw, qe := 0, 0;
    c := Cut(0, 0, 0, 0, 0, map[], map[], map[], map[], x, x);
    if !ok {
      NoCut(h, west, east);
      SameExtends(h, world.heap);
      return;
    }
    ghost var cut := world.heap;
    CutRoom(h, west.id, east.id, i, x);
    SameExtends(h, cut);
    qw, qe := AddQueues(world, westQueue, eastQueue);
    ghost var grown := world.heap;
    ghost var half, wx, qx;
    ok, half, wx, qx := LinkQueues(world, west.id, east.id, qw, qe);
    SameExtends(grown, world.heap);
    QueueKept(grown, world.heap, qw, westQueue);
    QueueKept(grown, world.heap, qe, eastQueue);
    ExtendsMore(h, cut, grown);
    ExtendsMore(h, grown, world.heap);
    ExtendsMore(cut, grown, world.heap);
    if ok {
      c := Cut(west.id, east.id, i, qw, qe, cut, grown, half, world.heap, wx, qx);
      CutMade(h, x, c);
    }
  }

  lemma SameExtends(h: Heap, h': Heap)
    requires SameNodes(h, h')
    ensures Extends(h, h') && h.Keys == h'.Keys
  {
  }

  /** The steps of a cut, put together. */
  lemma CutMade(h: Heap, x: Wire, c: Cut)
    requires Valid(h) && Valid(c.cut) && c.w in h && c.e in h && FirstLink(h, c.w, c.e, c.slot)
    requires x == WireAt(h, c.w, h[c.w].Store(East), c.slot) && HasWire(h, x) && HasWireEast(h, x)
    requires c.cut == UnlinkHeap(h, x) && c.cut.Keys == h.Keys && forall y :: HasWire(c.cut, y) <==> HasWire(h, y) && y != x
    requires x.west != x.east && Joins(x, c.w, c.e) && (x.west == c.w || h[c.w].kind.Monopole?)
    requires SameWires(c.cut, c.grown) && c.qw !in c.cut && c.qe !in c.cut && c.qw != c.qe
    requires c.grown.Keys == c.cut.Keys + {c.qw, c.qe} && c.grown.Keys == c.half.Keys == c.whole.Keys
    requires OneMore(c.grown, c.half, c.wx) && c.wx.west == c.w && c.wx.east == c.qw
    requires OneMore(c.half, c.whole, c.qx) && c.qx.west == c.qe && c.qx.east == c.e
    ensures IsCut(c) && CutOf(h, x, c)
  {
    hide Valid, HasWire, HasWireEast, UnlinkHeap;
  }

  lemma NoCut(h: Heap, west: Link, east: Link)
    requires west.Null? || east.Null? || (west.id in h && !exists k: nat :: h[west.id].Get(h[west.id].Store(East), k).link == east)
    ensures west.To? && east.To? ==> !CanCut(h, west.id, east.id)
  {
  }

  /** The two queues are friends on the finished cut. */
  ghost predicate Finished(c: Cut, h: Heap) {
    && SameWires(c.whole, h) && h.Keys == c.whole.Keys && Extends(c.cut, h)
    && c.qw in h && c.qe in h && h[c.qw].friend == To(c.qe) && h[c.qe].friend == To(c.qw)
    && h[c.qw].isQueue && h[c.qe].isQueue && h[c.qw].polls && h[c.qe].polls
  }

  /**
   pg_graph_split: cuts the first link between the two named bricks.  If that
   link was a bridge, the two graphs share no brick and together hold the old
   component and the two queues; otherwise both hold all of it.
   */
  method Split(world: World, g: Graph, eastName: string, westBrick: string, eastBrick: string,
               westQueue: string, eastQueue: string)
    returns (r: Graph?, ghost done: bool, ghost x: Wire, ghost c: Cut)
    requires world.Ok() && g.Ok(world.heap)
    modifies world, g
    ensures world.Ok() && g.Ok(world.heap) && Extends(old(world.heap), world.heap)
    ensures done <==> westBrick in old(g.all) && eastBrick in old(g.all)
                      && CanCut(old(world.heap), old(g.all)[westBrick], old(g.all)[eastBrick])
    ensures done ==> c.w == old(g.all)[westBrick] && c.e == old(g.all)[eastBrick]
    ensures done ==> CutOf(old(world.heap), x, c) && Finished(c, world.heap)
    ensures done ==> world.heap[c.qw].name == westQueue && world.heap[c.qe].name == eastQueue
    ensures r != null <==> done && UniqueNames(world.heap, c.qw) && UniqueNames(world.heap, c.qe)
    ensures r != null ==> fresh(r) && r.Holds(world.heap, c.qe) && g.Holds(world.heap, c.qw) && r.name == eastName
  {
    hide Valid, CutOf, Finished, CanCut, UniqueNames, Extends, Reaches, Graph.Ok;
    done := false;
    var wb := g.Get(westBrick);
    var eb := g.Get(eastBrick);
    GraphHas(g, world.heap, westBrick);
    GraphHas(g, world.heap, eastBrick);
    var ok, qw, qe;
    ok, qw, qe, x, c := CutAndBefriend(world, g, wb, eb, westQueue, eastQueue);
    done := ok;
    if !ok {
      return null, done, x, c;
    }
    ghost var from;
    ok, from := g.Explore(world.heap, To(qw));
    if !ok {
      return null, done, x, c;
    }
    r := new Graph(eastName);
    EmptyOk(r, world.heap);
    ok, from := r.Explore(world.heap, To(qe));
    if !ok {
      r := null;
    }
  }

  lemma GraphHas(g: Graph, h: Heap, n: string)
    requires g.Ok(h)
    ensures n in g.all ==> g.all[n] in h
  {
  }

  lemma EmptyOk(g: Graph, h: Heap)
    requires g.all == map[] && g.pollable == []
    ensures g.Ok(h)
  {
  }

  /** The part of a split that comes before exploration. */
  method CutAndBefriend(world: World, g: Graph, west: Link, east: Link, westQueue: string, eastQueue: string)
    returns (ok: bool, qw: Id, qe: Id, ghost x: Wire, ghost c: Cut)
    requires world.Ok() && g.Ok(world.heap) && (west.To? ==> west.id in world.heap) && (east.To? ==> east.id in world.heap)
    modifies world
    ensures world.Ok() && Extends(old(world.heap), world.heap) && g.Ok(world.heap)
    ensures ok <==> west.To? && east.To? && CanCut(old(world.heap), west.id, east.id)
    ensures ok ==> c.w == west.id && c.e == east.id && c.qw == qw && c.qe == qe && qw in world.heap && qe in world.heap
    ensures ok ==> CutOf(old(world.heap), x, c) && Finished(c, world.heap)
    ensures ok ==> world.heap[c.qw].name == westQueue && world.heap[c.qe].name == eastQueue
  {
    hide Valid, HasWire, IsCut, CutOf, Finished, CanCut, Extends, Befriended, Graph.Ok;
    ghost var h := world.heap;
    ok, qw, qe, x, c := CutLink(world, west, east, westQueue, eastQueue);
    if ok {
      ghost var whole := world.heap;
      var _ := world.Friend(qw, qe);
      FriendsFinish(h, x, c, whole, qw, qe);
    }
    GraphKept(g, h, world.heap);
  }

  lemma FriendsFinish(h: Heap, x: Wire, c: Cut, whole: Heap, qw: Id, qe: Id)
    requires CutOf(h, x, c) && c.whole == whole && c.qw == qw && c.qe == qe
    requires Extends(h, whole) && Extends(c.cut, whole) && qw in whole && qe in whole
    requires whole[qw].isQueue && whole[qe].isQueue && whole[qw].polls && whole[qe].polls
    requires whole[qw].friend.Null? && whole[qe].friend.Null?
    ensures Finished(c, Befriended(whole, qw, qe)) && Extends(h, Befriended(whole, qw, qe))
    ensures qw in Befriended(whole, qw, qe) && qe in Befriended(whole, qw, qe)
    ensures Befriended(whole, qw, qe)[qw].name == whole[qw].name && Befriended(whole, qw, qe)[qe].name == whole[qe].name
  {
    hide CutHeap, Valid, HasWire, FirstLink, Joins;
    BefriendKeepsValid(whole, qw, qe);
    BefriendElsewhere(whole, qw, qe);
    hide Befriended, SameNode;
    StillExtends(h, whole, Befriended(whole, qw, qe));
    StillExtends(c.cut, whole, Befriended(whole, qw, qe));
  }

  lemma BefriendElsewhere(h: Heap, q1: Id, q2: Id)
    requires q1 in h && q2 in h && q1 != q2
    ensures var h' := Befriended(h, q1, q2);
            && h'.Keys == h.Keys && (forall id :: id in h && id != q1 && id != q2 ==> h'[id] == h[id])
            && h'[q1] == h[q1].(friend := To(q2)) && h'[q2] == h[q2].(friend := To(q1))
  {
  }

  lemma StillExtends(h: Heap, h1: Heap, h2: Heap)
    requires Extends(h, h1) && h.Keys <= h2.Keys && forall id :: id in h ==> h2[id] == h1[id]
    ensures Extends(h, h2)
  {
    hide SameNode;
  }

  // ----- what a split leaves

  /** The component before the cut is what both ends reach after it. */
  lemma BeforeCut(h: Heap, x: Wire, c: Cut, k: Id)
    requires CutOf(h, x, c)
    ensures Reaches(h, c.w, k) <==> Reaches(c.cut, c.w, k) || Reaches(c.cut, c.e, k)
  {
    ReachOneMore(c.cut, h, x, k);
    ReachSelf(c.cut, x.east);
    ReachOneMore(c.cut, h, x, x.east);
    SameComponent(h, x.west, x.east, k);
  }

  /**
   The two graphs after a split cover the old component and the queues; they are
   disjoint exactly if the link was a bridge, and equal otherwise.
   */
  lemma SplitComponents(h: Heap, x: Wire, c: Cut, h': Heap, k: Id)
    requires CutOf(h, x, c) && Finished(c, h')
    ensures Reaches(h', c.qw, k) || Reaches(h', c.qe, k) <==> k == c.qw || k == c.qe || Reaches(h, c.w, k)
    ensures Bridge(c) ==> !(Reaches(h', c.qw, k) && Reaches(h', c.qe, k))
    ensures !Bridge(c) ==> (Reaches(h', c.qw, k) <==> Reaches(h', c.qe, k))
    ensures Bridge(c) ==> (Reaches(h', c.qw, k) <==> k == c.qw || Reaches(c.cut, c.w, k))
    ensures Bridge(c) ==> (Reaches(h', c.qe, k) <==> k == c.qe || Reaches(c.cut, c.e, k))
  {
    hide Reaches, Valid;
    ReachSameWires(c.whole, h', c.qw, k);
    ReachSameWires(c.whole, h', c.qe, k);
    CutComponents(c, k);
    BeforeCut(h, x, c, k);
    NotInCut(c, c.w, c.qe);
    NotInCut(c, c.e, c.qw);
    if Bridge(c) {
      if Reaches(c.cut, c.w, k) && Reaches(c.cut, c.e, k) {
        SameComponent(c.cut, c.e, k, c.w);
        SameComponent(c.cut, c.w, k, c.e);
        ReachSymmetric(c.cut, c.e, k);
      }
    } else {
      SameComponent(c.cut, c.w, c.e, k);
    }
  }

  /** Fresh queue names keep the names of both graphs apart. */
  lemma SplitNames(h: Heap, x: Wire, c: Cut, h': Heap)
    requires CutOf(h, x, c) && Finished(c, h') && Bridge(c) && UniqueNames(h, c.w) && Extends(h, h')
    requires forall k :: k in h && Reaches(h, c.w, k) ==> h[k].name != h'[c.qw].name && h[k].name != h'[c.qe].name
    ensures UniqueNames(h', c.qw) && UniqueNames(h', c.qe)
  {
    hide Reaches, Valid, CutOf, Finished, Bridge;
    CutParts(h, x, c, h');
    forall a, b, q: Id | (q == c.qw || q == c.qe) && a in h' && b in h' && Reaches(h', q, a) && Reaches(h', q, b) && h'[a].name == h'[b].name
      ensures a == b
    {
      SplitComponents(h, x, c, h', a);
      SplitComponents(h, x, c, h', b);
      InOld(h, c.w, a);
      InOld(h, c.w, b);
    }
  }

  lemma CutParts(h: Heap, x: Wire, c: Cut, h': Heap)
    requires CutOf(h, x, c) && Finished(c, h')
    ensures Valid(h) && Valid(h') && c.qw in h' && c.qe in h' && c.qw !in h && c.qe !in h && c.w in h && c.e in h
  {
  }

  lemma InOld(h: Heap, a: Id, k: Id)
    requires Valid(h)
    ensures Reaches(h, a, k) ==> k in h
  {
    if Reaches(h, a, k) { ReachSymmetric(h, a, k); }
  }
}
