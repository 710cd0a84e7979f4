/**
 Laws of the brick heap: references, undoing a link, neighbours and paths.
 */
module BrickReach {

  import opened Bricks
  import opened BrickLinks
  import opened Cardinality

  // ----- reference counts

  datatype Slot = Slot(brick: Id, side: SideName, index: nat)

  /** The slots, anywhere in the heap, that point at `id`. */
  ghost function References(h: Heap, id: Id): set<Slot> {
    set k, s, i | k in h && 0 <= i < |h[k].Raw(s).edges| && h[k].Raw(s).edges[i].link == To(id) :: Slot(k, s, i)
  }

  ghost function OccupiedOn(edges: seq<Edge>): set<nat> {
    set i | 0 <= i < |edges| && edges[i].link.To?
  }

  lemma {:induction false} CountIsSize(edges: seq<Edge>)
    ensures |OccupiedOn(edges)| == Count(edges)
  {
    if edges != [] {
      var n := |edges| - 1;
      var rest := edges[..n];
      CountIsSize(rest);
      assert OccupiedOn(edges) == OccupiedOn(rest) + if edges[n].link.To? then {n} else {};
    }
  }

  /** The slot at the other end of the link in a slot of `id`. */
  ghost function Peer(h: Heap, id: Id, s: SideName, i: nat): Slot
    requires Valid(h) && id in h && h[id].Get(s, i).link.To?
  {
    var e := h[id].Get(s, i);
    assert SlotOk(h, id, s, i);
    Slot(e.link.id, h[e.link.id].Store(h[id].Real(s).Flip()), e.pair)
  }

  /** Going to the other end twice leads back. */
  lemma PeerOfPeer(h: Heap, id: Id, s: SideName, i: nat)
    requires Valid(h) && id in h && h[id].Get(s, i).link.To?
    ensures var q := Peer(h, id, s, i);
            q.brick in h && h[q.brick].Get(q.side, q.index).link == To(id) && Peer(h, q.brick, q.side, q.index) == Slot(id, s, i)
  {
    assert SlotOk(h, id, s, i);
    StoredOnce(h, id, s, i);
  }

  ghost function OwnSlots(h: Heap, id: Id): set<Slot>
    requires id in h
  {
    (set i | i in OccupiedOn(h[id].west.edges) :: Slot(id, West, i)) + (set i | i in OccupiedOn(h[id].east.edges) :: Slot(id, East, i))
  }

  lemma OwnSlotsSize(h: Heap, id: Id)
    requires id in h
    ensures |OwnSlots(h, id)| == Count(h[id].west.edges) + Count(h[id].east.edges)
  {
    var w, e := OccupiedOn(h[id].west.edges), OccupiedOn(h[id].east.edges);
    var mw := map i | i in w :: Slot(id, West, i);
    var me := map i | i in e :: Slot(id, East, i);
    SameSize(mw);
    SameSize(me);
    assert mw.Keys == w && me.Keys == e;
    assert mw.Values == (set i | i in w :: Slot(id, West, i));
    assert me.Values == (set i | i in e :: Slot(id, East, i));
    CountIsSize(h[id].west.edges);
    CountIsSize(h[id].east.edges);
  }

  lemma OwnSlotsHave(h: Heap, id: Id, q: Slot)
    requires id in h
    ensures q in OwnSlots(h, id) <==> q.brick == id && h[id].Get(q.side, q.index).link.To?
  {
    if q.brick == id && h[id].Get(q.side, q.index).link.To? {
      assert q.side.West? ==> q.index in OccupiedOn(h[id].west.edges);
      assert q.side.East? ==> q.index in OccupiedOn(h[id].east.edges);
    }
  }

  lemma ReferencesHave(h: Heap, id: Id, q: Slot)
    ensures q in References(h, id) <==> q.brick in h && h[q.brick].Get(q.side, q.index).link == To(id)
  {
  }

  /** The slots of a brick and the slots that point at it match up. */
  lemma PeersMatch(h: Heap, id: Id)
    requires Valid(h) && id in h
    ensures |References(h, id)| == |OwnSlots(h, id)|
  {
    hide Valid, References, OwnSlots, Peer, Brick.Get;
    var own, refs := OwnSlots(h, id), References(h, id);
    forall q | q in own ensures q.brick == id && h[id].Get(q.side, q.index).link.To? { OwnSlotsHave(h, id, q); }
    var m := map q | q in own :: Peer(h, id, q.side, q.index);
    forall q | q in own ensures m[q] in refs {
      PeerOfPeer(h, id, q.side, q.index);
      ReferencesHave(h, id, m[q]);
    }
    forall a, b | a in m && b in m && m[a] == m[b] ensures a == b {
      PeerOfPeer(h, id, a.side, a.index);
      PeerOfPeer(h, id, b.side, b.index);
    }
    forall r | r in refs ensures r in m.Values {
      ReferencesHave(h, id, r);
      var q := Peer(h, r.brick, r.side, r.index);
      PeerOfPeer(h, r.brick, r.side, r.index);
      PeerBrick(h, r.brick, r.side, r.index);
      OwnSlotsHave(h, id, q);
      assert q in m && m[q] == r;
    }
    assert m.Values == refs && m.Keys == own;
    SameSize(m);
  }

  lemma PeerBrick(h: Heap, id: Id, s: SideName, i: nat)
    requires Valid(h) && id in h && h[id].Get(s, i).link.To?
    ensures Peer(h, id, s, i).brick == h[id].Get(s, i).link.id
  {
  }

  /** A brick's reference count is one for its owner plus the slots that point at it. */
  lemma RefcountExact(h: Heap, id: Id)
    requires Valid(h) && id in h
    ensures h[id].refcount == 1 + |References(h, id)|
  {
    PeersMatch(h, id);
    OwnSlotsSize(h, id);
    assert ShapeOk(h[id]);
  }

  // ----- undoing a link

  /** Breaking the link just made restores every brick but the stance of monopoles. */
  lemma UnlinkAfterLink(h: Heap, x: Wire)
    requires Valid(h) && Linkable(h, x)
    ensures HasWire(LinkHeap(h, x), x) && HasWireEast(LinkHeap(h, x), x)
    ensures var h' := UnlinkHeap(LinkHeap(h, x), x);
            h'.Keys == h.Keys && forall id :: id in h ==> h'[id] == h[id].(at := h'[id].at)
  {
    LinkEnds(h, x);
    DetachAttach(h[x.west], East, x.wi, Edge(To(x.east), x.ei));
    DetachAttach(h[x.east], West, x.ei, Edge(To(x.west), x.wi));
  }

  lemma DetachAttach(b: Brick, s: SideName, i: nat, e: Edge)
    requires i < |b.Raw(b.Store(s)).edges| && b.Get(b.Store(s), i) == NO_EDGE
    ensures var c := Attach(b, s, i, e);
            c.Store(s) == b.Store(s) && i < |c.Raw(b.Store(s)).edges| && Detach(c, b.Store(s), i) == b.(at := c.at)
  {
    var edges := b.Raw(b.Store(s)).edges;
    assert edges[i := e][i := NO_EDGE] == edges;
  }

  /**
   pg_brick_unlink_edge breaks the first link between the two bricks: it undoes
   the last pg_brick_link exactly when no lower slot already led to the same
   brick.
   */
  lemma UnlinkEdgeUndoes(h: Heap, x: Wire, i: nat)
    requires Valid(h) && Linkable(h, x) && FirstFree(h[x.west], East, x.wi)
    requires var b := LinkHeap(h, x)[x.west];
             && b.Get(b.Store(East), i).link == To(x.east)
             && forall k: nat :: k < i ==> b.Get(b.Store(East), k).link != To(x.east)
    ensures i == x.wi <==> forall k: nat :: k < x.wi ==> h[x.west].Get(h[x.west].Store(East), k).link != To(x.east)
    ensures WireAt(LinkHeap(h, x), x.west, LinkHeap(h, x)[x.west].Store(East), i) == x <==> i == x.wi
  {
    var b := h[x.west];
    LinkEnds(h, x);
    forall k: nat ensures LinkHeap(h, x)[x.west].Get(b.Store(East), k) == if k == x.wi then Edge(To(x.east), x.ei) else b.Get(b.Store(East), k) {
      LinkGet(h, x, x.west, b.Store(East), k);
    }
    LinkGet(h, x, x.west, b.Store(East), i);
  }

  // ----- neighbours and paths

  ghost predicate Adjacent(h: Heap, a: Id, b: Id) {
    a in h && exists s: SideName, i: nat :: h[a].Get(s, i).link == To(b)
  }

  /** Neighbours are the bricks a link connects. */
  lemma AdjacentByWire(h: Heap, a: Id, b: Id) returns (x: Wire)
    requires Valid(h) && Adjacent(h, a, b)
    ensures HasWire(h, x) && ((x.west == a && x.east == b) || (x.west == b && x.east == a))
  {
    var s: SideName, i: nat :| h[a].Get(s, i).link == To(b);
    x := WireAt(h, a, s, i);
    SlotHasWire(h, a, s, i);
  }

  lemma WireMakesAdjacent(h: Heap, x: Wire)
    requires Valid(h) && HasWire(h, x)
    ensures Adjacent(h, x.west, x.east) && Adjacent(h, x.east, x.west) && x.west != x.east
  {
    WireBothEnds(h, x);
    var b, c := h[x.west], h[x.east];
    assert b.Get(b.Store(East), x.wi).link == To(x.east) && c.Get(c.Store(West), x.ei).link == To(x.west);
  }

  lemma AdjacentSymmetric(h: Heap, a: Id, b: Id)
    requires Valid(h) && Adjacent(h, a, b)
    ensures Adjacent(h, b, a) && b in h
  {
    var x := AdjacentByWire(h, a, b);
    WireMakesAdjacent(h, x);
  }

  ghost predicate Path(h: Heap, p: seq<Id>) {
    |p| > 0 && p[0] in h && forall k :: 0 <= k < |p| - 1 ==> Adjacent(h, p[k], p[k + 1])
  }

  /** `b` is in the connected component of `a`. */
  ghost predicate Reaches(h: Heap, a: Id, b: Id) {
    exists p :: Path(h, p) && p[0] == a && p[|p| - 1] == b
  }

  lemma ReachSelf(h: Heap, a: Id)
    requires a in h
    ensures Reaches(h, a, a)
  {
    assert Path(h, [a]);
  }

  lemma ReachStep(h: Heap, a: Id, b: Id, c: Id)
    requires Reaches(h, a, b) && Adjacent(h, b, c)
    ensures Reaches(h, a, c)
  {
    var p :| Path(h, p) && p[0] == a && p[|p| - 1] == b;
    assert Path(h, p + [c]);
  }

  /** Nothing outside a set closed under neighbours is reached from inside. */
  lemma {:induction false} ClosedPath(h: Heap, inside: iset<Id>, p: seq<Id>)
    requires Path(h, p) && p[0] in inside
    requires forall a, b :: a in inside && Adjacent(h, a, b) ==> b in inside
    ensures p[|p| - 1] in inside
    decreases |p|
  {
    if |p| > 1 {
      var q := p[..|p| - 1];
      assert Path(h, q) by {
        forall k | 0 <= k < |q| - 1 ensures Adjacent(h, q[k], q[k + 1]) { assert Adjacent(h, p[k], p[k + 1]); }
      }
      ClosedPath(h, inside, q);
      assert Adjacent(h, p[|p| - 2], p[|p| - 2 + 1]);
    }
  }

  lemma ClosedReach(h: Heap, inside: iset<Id>, a: Id, b: Id)
    requires Reaches(h, a, b) && a in inside
    requires forall c, d :: c in inside && Adjacent(h, c, d) ==> d in inside
    ensures b in inside
  {
    var p :| Path(h, p) && p[0] == a && p[|p| - 1] == b;
    ClosedPath(h, inside, p);
  }

  lemma ReachTransitive(h: Heap, a: Id, b: Id, c: Id)
    requires Reaches(h, a, b) && Reaches(h, b, c)
    ensures Reaches(h, a, c)
  {
    var inside := iset d | Reaches(h, a, d);
    forall d, e | d in inside && Adjacent(h, d, e) ensures e in inside { ReachStep(h, a, d, e); }
    ClosedReach(h, inside, b, c);
  }

  lemma ReachSymmetric(h: Heap, a: Id, b: Id)
    requires Valid(h) && Reaches(h, a, b)
    ensures Reaches(h, b, a) && b in h && a in h
  {
    var inside := iset d | d in h && Reaches(h, d, a);
    ReachSelf(h, a);
    forall d, e | d in inside && Adjacent(h, d, e) ensures e in inside {
      AdjacentSymmetric(h, d, e);
      ReachSelf(h, e);
      ReachStep(h, e, e, d);
      ReachTransitive(h, e, d, a);
    }
    ClosedReach(h, inside, a, b);
  }
}
