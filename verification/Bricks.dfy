/**
 Bricks and the links between them.

 A brick has a west and an east side of edge slots; a slot is empty or names
 the brick it is linked to and the slot of that brick which points back.  A
 multipole brick has a slot array on either side, a dipole one slot on either
 side, and a monopole one slot in all, which stands for the side it was last
 linked on.  Pointers to bricks are identifiers into a heap.
 */
module Bricks {

  type Id = nat

  datatype Link = Null | To(id: Id)

  datatype SideName = West | East {
    function Flip(): SideName { if West? then East else West }
  }

  datatype Kind = Multipole | Dipole | Monopole

  datatype Edge = Edge(link: Link, pair: nat)

  const NO_EDGE := Edge(Null, 0)

  datatype Side = Side(max: nat, nb: int, edges: seq<Edge>)

  /** `at` is the side a monopole stands on; `friend` is meaningful for queues. */
  datatype Brick = Brick(name: string, kind: Kind, polls: bool, isQueue: bool, at: SideName, friend: Link,
                         west: Side, east: Side, refcount: int) {
    /** The side record stored under a name. */
    function Raw(s: SideName): Side { if s.West? then west else east }

    function WithRaw(s: SideName, side: Side): Brick {
      if s.West? then this.(west := side) else this.(east := side)
    }

    /** A stored slot; there is nothing in slots that do not exist. */
    function Get(s: SideName, i: nat): Edge { if i < |Raw(s).edges| then Raw(s).edges[i] else NO_EDGE }

    /** Where the slots of a side are stored: a monopole has one record. */
    function Store(s: SideName): SideName { if kind.Monopole? then West else s }

    /** The side that a stored record stands for. */
    function Real(s: SideName): SideName { if kind.Monopole? then at else s }
  }

  type Heap = map<Id, Brick>

  /** A link seen from the graph: an east slot of `west` paired with a west slot of `east`. */
  datatype Wire = Wire(west: Id, wi: nat, east: Id, ei: nat)

  // ----- counting occupied slots

  function Count(edges: seq<Edge>): nat {
    if edges == [] then 0 else Count(edges[..|edges| - 1]) + (if edges[|edges| - 1].link.To? then 1 else 0)
  }

  lemma {:induction false} CountUpdate(edges: seq<Edge>, i: nat, e: Edge)
    requires i < |edges|
    ensures Count(edges[i := e]) ==
            Count(edges) - (if edges[i].link.To? then 1 else 0) + (if e.link.To? then 1 else 0)
  {
    var n := |edges| - 1;
    if i == n {
      assert edges[i := e][..n] == edges[..n];
    } else {
      CountUpdate(edges[..n], i, e);
      assert edges[i := e][..n] == edges[..n][i := e];
    }
  }

  lemma {:induction false} CountFull(edges: seq<Edge>)
    ensures Count(edges) <= |edges|
    ensures Count(edges) == |edges| <==> forall i :: 0 <= i < |edges| ==> edges[i].link.To?
    ensures Count(edges) == 0 <==> forall i :: 0 <= i < |edges| ==> edges[i].link.Null?
  {
    if edges != [] {
      var n := |edges| - 1;
      CountFull(edges[..n]);
      assert forall i :: 0 <= i < n ==> edges[..n][i] == edges[i];
      assert edges[n].link.To? || edges[n].link.Null?;
    }
  }

  // ----- the invariant

  /** Slot arrays of the right length, with an exact count of the occupied ones. */
  ghost predicate SidesOk(b: Brick) {
    && (b.kind.Multipole? ==> |b.west.edges| == b.west.max && |b.east.edges| == b.east.max)
    && (b.kind.Dipole? ==> |b.west.edges| == 1 && |b.east.edges| == 1 && b.west.max <= 1 && b.east.max <= 1)
    && (b.kind.Monopole? ==> |b.west.edges| == 1 && b.east.edges == [] && b.west.max <= 1)
    && (b.isQueue ==> b.kind.Monopole? && b.polls)
    && b.west.nb == Count(b.west.edges) <= b.west.max
    && b.east.nb == Count(b.east.edges) <= b.east.max
  }

  /** A brick taken alone: one reference for its owner and one for every link. */
  ghost predicate ShapeOk(b: Brick) {
    && SidesOk(b)
    && b.refcount == 1 + b.west.nb + b.east.nb
  }

  /** A slot and its peer point at each other, on opposite sides; empty slots are reset. */
  ghost predicate SlotOk(h: Heap, id: Id, s: SideName, i: nat)
    requires id in h
  {
    var e := h[id].Get(s, i);
    if e.link.Null? then e.pair == 0 else PeerOk(h, id, h[id].Real(s), i, e)
  }

  /** The peer of an occupied slot on side `s` of `id`. */
  ghost predicate PeerOk(h: Heap, id: Id, s: SideName, i: nat, e: Edge)
    requires e.link.To?
  {
    var p, t := e.link.id, s.Flip();
    && p in h && p != id
    && h[p].Real(h[p].Store(t)) == t
    && h[p].Get(h[p].Store(t), e.pair) == Edge(To(id), i)
  }

  ghost predicate FriendOk(h: Heap, id: Id)
    requires id in h
  {
    h[id].friend.To? ==> h[id].isQueue && var q := h[id].friend.id; q in h && h[q].friend == To(id)
  }

  ghost predicate Valid(h: Heap) {
    && (forall id {:trigger ShapeOk(h[id])} :: id in h ==> ShapeOk(h[id]))
    && (forall id, s, i: nat {:trigger SlotOk(h, id, s, i)} :: id in h ==> SlotOk(h, id, s, i))
    && (forall id {:trigger FriendOk(h, id)} :: id in h ==> FriendOk(h, id))
  }

  /** The links of the heap, as a relation. */
  ghost predicate HasWire(h: Heap, x: Wire) {
    && x.west in h
    && var b := h[x.west];
       b.Real(b.Store(East)) == East && b.Get(b.Store(East), x.wi) == Edge(To(x.east), x.ei)
  }

  /** Seen from its east end. */
  ghost predicate HasWireEast(h: Heap, x: Wire) {
    && x.east in h
    && var b := h[x.east];
       b.Real(b.Store(West)) == West && b.Get(b.Store(West), x.ei) == Edge(To(x.west), x.wi)
  }

  /** Every link can be followed from both ends. */
  lemma WireBothEnds(h: Heap, x: Wire)
    requires Valid(h)
    ensures HasWire(h, x) <==> HasWireEast(h, x)
    ensures HasWire(h, x) ==> x.west != x.east
  {
    if HasWire(h, x) {
      assert ShapeOk(h[x.west]);
      assert SlotOk(h, x.west, h[x.west].Store(East), x.wi);
    }
    if HasWireEast(h, x) {
      assert ShapeOk(h[x.east]);
      assert SlotOk(h, x.east, h[x.east].Store(West), x.ei);
    }
  }

  /** The link a stored slot belongs to. */
  ghost function WireAt(h: Heap, id: Id, s: SideName, i: nat): Wire
    requires id in h && h[id].Get(s, i).link.To?
  {
    var e := h[id].Get(s, i);
    if h[id].Real(s).East? then Wire(id, i, e.link.id, e.pair) else Wire(e.link.id, e.pair, id, i)
  }

  /** Occupied slots and links are in agreement. */
  lemma SlotHasWire(h: Heap, id: Id, s: SideName, i: nat)
    requires Valid(h) && id in h && h[id].Get(s, i).link.To?
    ensures HasWire(h, WireAt(h, id, s, i))
  {
    assert ShapeOk(h[id]);
    assert SlotOk(h, id, s, i);
    WireBothEnds(h, WireAt(h, id, s, i));
  }

  // ----- linking and unlinking as changes to single bricks

  /** `b` with slot `i` of side `s` linked. */
  function Attach(b: Brick, s: SideName, i: nat, e: Edge): Brick
    requires i < |b.Raw(b.Store(s)).edges|
  {
    var r := b.Raw(b.Store(s));
    b.WithRaw(b.Store(s), r.(nb := r.nb + 1, edges := r.edges[i := e]))
     .(refcount := b.refcount + 1, at := if b.kind.Monopole? then s else b.at)
  }

  /** `b` with stored slot `i` emptied. */
  function Detach(b: Brick, s: SideName, i: nat): Brick
    requires i < |b.Raw(s).edges|
  {
    var r := b.Raw(s);
    b.WithRaw(s, r.(nb := r.nb - 1, edges := r.edges[i := NO_EDGE])).(refcount := b.refcount - 1)
  }

  lemma AttachShape(b: Brick, s: SideName, i: nat, e: Edge)
    requires ShapeOk(b) && i < |b.Raw(b.Store(s)).edges| && e.link.To?
    requires b.Raw(b.Store(s)).edges[i].link.Null? && b.Raw(b.Store(s)).nb < b.Raw(b.Store(s)).max
    ensures ShapeOk(Attach(b, s, i, e))
  {
    CountUpdate(b.Raw(b.Store(s)).edges, i, e);
  }

  lemma DetachShape(b: Brick, s: SideName, i: nat)
    requires ShapeOk(b) && i < |b.Raw(s).edges| && b.Raw(s).edges[i].link.To?
    ensures ShapeOk(Detach(b, s, i)) && b.refcount >= 2
  {
    CountUpdate(b.Raw(s).edges, i, NO_EDGE);
  }

  /** The heap after linking free slots `wi` and `ei`. */
  function LinkHeap(h: Heap, x: Wire): Heap
    requires x.west in h && x.wi < |h[x.west].Raw(h[x.west].Store(East)).edges|
    requires x.east in h && x.ei < |h[x.east].Raw(h[x.east].Store(West)).edges|
  {
    h[x.west := Attach(h[x.west], East, x.wi, Edge(To(x.east), x.ei))]
     [x.east := Attach(h[x.east], West, x.ei, Edge(To(x.west), x.wi))]
  }

  /** Both ends of a link that can be made: two different bricks with room. */
  ghost predicate Linkable(h: Heap, x: Wire) {
    && x.west in h && x.east in h && x.west != x.east
    && FreeSlot(h[x.west], East, x.wi) && FreeSlot(h[x.east], West, x.ei)
  }

  ghost predicate FreeSlot(b: Brick, s: SideName, i: nat) {
    var r := b.Raw(b.Store(s));
    r.nb < r.max && i < |r.edges| && r.edges[i].link.Null?
  }

  lemma AttachGet(b: Brick, s: SideName, i: nat, e: Edge, t: SideName, j: nat)
    requires i < |b.Raw(b.Store(s)).edges|
    ensures Attach(b, s, i, e).kind == b.kind
    ensures Attach(b, s, i, e).Get(t, j) == if t == b.Store(s) && j == i then e else b.Get(t, j)
    ensures Attach(b, s, i, e).Real(t) == if b.kind.Monopole? then s else t
  {
  }

  lemma DetachGet(b: Brick, s: SideName, i: nat, t: SideName, j: nat)
    requires i < |b.Raw(s).edges|
    ensures Detach(b, s, i).kind == b.kind
    ensures Detach(b, s, i).Get(t, j) == if t == s && j == i then NO_EDGE else b.Get(t, j)
    ensures Detach(b, s, i).Real(t) == b.Real(t)
  {
  }

  /** What linking `x` does to a slot. */
  lemma LinkGet(h: Heap, x: Wire, id: Id, s: SideName, i: nat)
    requires Valid(h) && Linkable(h, x) && id in h
    ensures var b, b' := h[id], LinkHeap(h, x)[id];
            && b'.kind == b.kind
            && b'.Get(s, i) == (if id == x.west && s == b.Store(East) && i == x.wi then Edge(To(x.east), x.ei)
                                else if id == x.east && s == b.Store(West) && i == x.ei then Edge(To(x.west), x.wi)
                                else b.Get(s, i))
            && b'.Real(s) == (if b.kind.Monopole? && id == x.west then East
                              else if b.kind.Monopole? && id == x.east then West else b.Real(s))
            && (b.kind.Monopole? && (id == x.west || id == x.east) ==> b.Get(s, i).link.Null?)
  {
    hide Attach;
    AttachGet(h[x.west], East, x.wi, Edge(To(x.east), x.ei), s, i);
    AttachGet(h[x.east], West, x.ei, Edge(To(x.west), x.wi), s, i);
    assert ShapeOk(h[id]);
  }

  lemma LinkSlotOk(h: Heap, x: Wire, id: Id, s: SideName, i: nat)
    requires Valid(h) && Linkable(h, x) && id in h
    ensures SlotOk(LinkHeap(h, x), id, s, i)
  {
    hide LinkHeap, Linkable, ShapeOk, FriendOk, Brick.Get;
    LinkGet(h, x, id, s, i);
    LinkEnds(h, x);
    var e := h[id].Get(s, i);
    assert SlotOk(h, id, s, i);
    if e.link.To? {
      var p, t := e.link.id, h[id].Real(s).Flip();
      LinkGet(h, x, p, h[p].Store(t), e.pair);
    }
  }

  lemma LinkEnds(h: Heap, x: Wire)
    requires Valid(h) && Linkable(h, x)
    ensures LinkHeap(h, x).Keys == h.Keys && x.west in h && x.east in h && x.west != x.east
    ensures h[x.west].Get(h[x.west].Store(East), x.wi) == NO_EDGE && h[x.east].Get(h[x.east].Store(West), x.ei) == NO_EDGE
    ensures HasWire(LinkHeap(h, x), x) && HasWireEast(LinkHeap(h, x), x)
  {
    var b, c := h[x.west], h[x.east];
    LinkGet(h, x, x.west, b.Store(East), x.wi);
    LinkGet(h, x, x.east, c.Store(West), x.ei);
    assert SlotOk(h, x.west, b.Store(East), x.wi) && SlotOk(h, x.east, c.Store(West), x.ei);
  }

  lemma LinkKeepsValid(h: Heap, x: Wire)
    requires Valid(h) && Linkable(h, x)
    ensures Valid(LinkHeap(h, x))
  {
    var h' := LinkHeap(h, x);
    forall id | id in h' ensures ShapeOk(h'[id]) {
      assert ShapeOk(h[id]);
      if id == x.west { AttachShape(h[id], East, x.wi, Edge(To(x.east), x.ei)); }
      if id == x.east { AttachShape(h[id], West, x.ei, Edge(To(x.west), x.wi)); }
    }
    forall id, s, i: nat | id in h' ensures SlotOk(h', id, s, i) {
      LinkSlotOk(h, x, id, s, i);
    }
    FriendsKept(h, h');
  }

  lemma FriendsKept(h: Heap, h': Heap)
    requires h.Keys == h'.Keys
    requires forall id :: id in h ==> FriendOk(h, id) && h'[id].friend == h[id].friend && h'[id].isQueue == h[id].isQueue
    ensures forall id :: id in h' ==> FriendOk(h', id)
  {
    forall id | id in h' ensures FriendOk(h', id) { assert FriendOk(h, id); }
  }

  lemma LinkAddsWire(h: Heap, x: Wire, y: Wire)
    requires Valid(h) && Linkable(h, x)
    ensures HasWire(LinkHeap(h, x), y) <==> HasWire(h, y) || y == x
  {
    hide LinkHeap, Linkable, Valid, Brick.Get;
    LinkEnds(h, x);
    if y.west in h {
      LinkGet(h, x, y.west, h[y.west].Store(East), y.wi);
    }
  }

  /** The heap after the link of a stored slot has been broken. */
  function UnlinkHeap(h: Heap, x: Wire): Heap
    requires x.west in h && x.wi < |h[x.west].Raw(h[x.west].Store(East)).edges|
    requires x.east in h && x.ei < |h[x.east].Raw(h[x.east].Store(West)).edges|
  {
    h[x.west := Detach(h[x.west], h[x.west].Store(East), x.wi)]
     [x.east := Detach(h[x.east], h[x.east].Store(West), x.ei)]
  }

  /** What breaking `x` does to a slot. */
  lemma UnlinkGet(h: Heap, x: Wire, id: Id, s: SideName, i: nat)
    requires HasWire(h, x) && HasWireEast(h, x) && x.west != x.east && id in h
    ensures var b, b' := h[id], UnlinkHeap(h, x)[id];
            && b'.kind == b.kind && b'.Real(s) == b.Real(s)
            && b'.Get(s, i) == (if (id == x.west && s == b.Store(East) && i == x.wi) ||
                                   (id == x.east && s == b.Store(West) && i == x.ei) then NO_EDGE
                                else b.Get(s, i))
  {
    hide Detach;
    DetachGet(h[x.west], h[x.west].Store(East), x.wi, s, i);
    DetachGet(h[x.east], h[x.east].Store(West), x.ei, s, i);
  }

  lemma UnlinkSlotOk(h: Heap, x: Wire, id: Id, s: SideName, i: nat)
    requires Valid(h) && HasWire(h, x) && HasWireEast(h, x) && x.west != x.east && id in h
    ensures SlotOk(UnlinkHeap(h, x), id, s, i)
  {
    hide FriendOk, Brick.Get, ShapeOk;
    UnlinkGet(h, x, id, s, i);
    var e := h[id].Get(s, i);
    assert SlotOk(h, id, s, i);
    if e.link.To? {
      var p, t := e.link.id, h[id].Real(s).Flip();
      UnlinkGet(h, x, p, h[p].Store(t), e.pair);
      StoredOnce(h, id, s, i);
    }
  }

  /** An occupied slot is stored where its side is stored. */
  lemma StoredOnce(h: Heap, id: Id, s: SideName, i: nat)
    requires Valid(h) && id in h && h[id].Get(s, i).link.To?
    ensures h[id].Store(h[id].Real(s)) == s
  {
    assert ShapeOk(h[id]);
  }

  lemma UnlinkShapes(h: Heap, x: Wire)
    requires Valid(h) && HasWire(h, x) && HasWireEast(h, x) && x.west != x.east
    ensures forall id :: id in h ==> ShapeOk(UnlinkHeap(h, x)[id])
    ensures h[x.west].refcount >= 2 && h[x.east].refcount >= 2
  {
    hide SlotOk, FriendOk;
    assert ShapeOk(h[x.west]) && ShapeOk(h[x.east]);
    DetachShape(h[x.west], h[x.west].Store(East), x.wi);
    DetachShape(h[x.east], h[x.east].Store(West), x.ei);
    hide ShapeOk, Detach;
    forall id | id in h ensures ShapeOk(UnlinkHeap(h, x)[id]) { assert ShapeOk(h[id]); }
  }

  lemma UnlinkKeepsValid(h: Heap, x: Wire)
    requires Valid(h) && HasWire(h, x)
    ensures HasWireEast(h, x) && x.west != x.east && Valid(UnlinkHeap(h, x))
    ensures h[x.west].refcount >= 2 && h[x.east].refcount >= 2
  {
    WireBothEnds(h, x);
    UnlinkShapes(h, x);
    var h' := UnlinkHeap(h, x);
    hide SlotOk, ShapeOk, FriendOk, HasWire, HasWireEast;
    FriendsKept(h, h');
    forall id, s, i: nat | id in h' ensures SlotOk(h', id, s, i) {
      UnlinkSlotOk(h, x, id, s, i);
    }
  }

  lemma UnlinkRemovesWire(h: Heap, x: Wire, y: Wire)
    requires Valid(h) && HasWire(h, x) && HasWireEast(h, x) && x.west != x.east
    ensures HasWire(UnlinkHeap(h, x), y) <==> HasWire(h, y) && y != x
  {
    assert UnlinkHeap(h, x).Keys == h.Keys;
    hide Valid, Brick.Get, UnlinkHeap;
    WireBothEnds(h, y);
    if y.west in h {
      UnlinkGet(h, x, y.west, h[y.west].Store(East), y.wi);
    }
  }
}
