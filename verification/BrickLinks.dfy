/**
 The operations on bricks: creation, linking, unlinking, destruction, and the
 iterator over a brick's occupied slots.
 */
module BrickLinks {

  import opened Bricks

  /** Sides in iteration order. */
  function SideAt(n: nat): SideName { if n == 0 then West else East }

  function Rank(s: SideName): nat { if s.West? then 0 else 1 }

  /** Position (s, i) comes before (t, j) in iteration order. */
  predicate Before(s: nat, i: nat, t: nat, j: nat) { s < t || (s == t && i < j) }

  predicate Occupied(b: Brick, s: nat, i: nat) { s < 2 && b.Get(SideAt(s), i).link.To? }

  /** Everything about the bricks that linking and unlinking leave alone. */
  ghost predicate SameNode(b: Brick, c: Brick) {
    && c.name == b.name && c.kind == b.kind && c.polls == b.polls && c.isQueue == b.isQueue && c.friend == b.friend
    && c.west.max == b.west.max && c.east.max == b.east.max
  }

  ghost predicate SameNodes(h: Heap, h': Heap) {
    h.Keys == h'.Keys && forall id :: id in h ==> SameNode(h[id], h'[id])
  }

  /** No monopole changed sides. */
  ghost predicate SameStance(h: Heap, h': Heap) {
    h.Keys == h'.Keys && forall id :: id in h ==> h'[id].at == h[id].at
  }

  /** Room for one more link on a side. */
  predicate HasRoom(b: Brick, s: SideName) {
    b.Raw(b.Store(s)).nb < b.Raw(b.Store(s)).max
  }

  predicate FirstFree(b: Brick, s: SideName, i: nat) {
    && i < |b.Raw(b.Store(s)).edges| && b.Raw(b.Store(s)).edges[i].link.Null?
    && forall k :: 0 <= k < i ==> b.Raw(b.Store(s)).edges[k].link.To?
  }

  ghost predicate Touches(x: Wire, id: Id) { x.west == id || x.east == id }

  /** The stored slot that pg_brick_get_edge selects. */
  function SlotIndex(b: Brick, i: nat): nat { if b.kind.Multipole? then i else 0 }

  /** An empty slot on a side that may hold links leaves room. */
  lemma FreeMeansRoom(b: Brick, s: SideName, i: nat)
    requires ShapeOk(b) && i < |b.Raw(b.Store(s)).edges| && b.Get(b.Store(s), i).link.Null? && b.Raw(b.Store(s)).max > 0
    ensures HasRoom(b, s)
  {
    CountFull(b.Raw(b.Store(s)).edges);
  }

  lemma RoomMeansFree(b: Brick, s: SideName)
    requires SidesOk(b) && HasRoom(b, s)
    ensures exists i :: 0 <= i < |b.Raw(b.Store(s)).edges| && b.Raw(b.Store(s)).edges[i].link.Null?
  {
    CountFull(b.Raw(b.Store(s)).edges);
  }

  lemma LinkedMeansRoom(b: Brick, s: SideName, i: nat)
    requires ShapeOk(b) && b.Get(s, i).link.To?
    ensures b.Raw(s).max > 0
  {
    CountFull(b.Raw(s).edges);
  }

  lemma UnlinkSameNodes(h: Heap, x: Wire)
    requires HasWire(h, x) && HasWireEast(h, x) && x.west != x.east
    ensures SameNodes(h, UnlinkHeap(h, x)) && SameStance(h, UnlinkHeap(h, x))
  {
  }

  lemma LinkSameNodes(h: Heap, x: Wire)
    requires Linkable(h, x)
    ensures SameNodes(h, LinkHeap(h, x))
  {
  }

  /** A new brick without links or friends changes nothing for the others. */
  lemma AddKeepsValid(h: Heap, h': Heap, id: Id)
    requires Valid(h) && id !in h && id in h' && h' == h[id := h'[id]]
    requires ShapeOk(h'[id]) && h'[id].friend == Null && forall s, i: nat :: h'[id].Get(s, i) == NO_EDGE
    ensures Valid(h')
    ensures forall y :: HasWire(h', y) <==> HasWire(h, y)
  {
    forall k | k in h' ensures ShapeOk(h'[k]) && FriendOk(h', k) {
      assert k != id ==> ShapeOk(h[k]) && FriendOk(h, k);
    }
    forall k, s, i: nat | k in h' ensures SlotOk(h', k, s, i) {
      assert k != id ==> SlotOk(h, k, s, i);
    }
  }

  // The steps of linking one end.

  function Inserted(b: Brick, s: SideName, i: nat, to: Id): Brick
    requires i < |b.Raw(b.Store(s)).edges|
  {
    var r := b.Raw(b.Store(s));
    b.WithRaw(b.Store(s), r.(nb := r.nb + 1, edges := r.edges[i := r.edges[i].(link := To(to))]))
  }

  function Notified(b: Brick, s: SideName): Brick {
    if b.kind.Monopole? then b.(at := s) else b
  }

  function Paired(b: Brick, s: SideName, i: nat, pair: nat): Brick
    requires i < |b.Raw(b.Store(s)).edges|
  {
    var r := b.Raw(b.Store(s));
    b.WithRaw(b.Store(s), r.(edges := r.edges[i := r.edges[i].(pair := pair)]))
  }

  function Held(b: Brick): Brick { b.(refcount := b.refcount + 1) }

  /** The steps add up to attaching, whenever the other end takes its reference. */
  lemma StepsAttach(b: Brick, s: SideName, i: nat, to: Id, pair: nat)
    requires i < |b.Raw(b.Store(s)).edges|
    ensures Held(b).Store(s) == b.Store(s) && Held(b).Raw(b.Store(s)) == b.Raw(b.Store(s))
    ensures var n := Notified(Inserted(Held(b), s, i, to), s);
            && i < |n.Raw(n.Store(s)).edges|
            && Paired(n, s, i, pair) == Attach(b, s, i, Edge(To(to), pair))
            && n == Held(Notified(Inserted(b, s, i, to), s))
  {
    var edges := b.Raw(b.Store(s)).edges;
    var first := edges[i := edges[i].(link := To(to))];
    assert first[i := first[i].(pair := pair)] == edges[i := Edge(To(to), pair)];
  }

  /** A brick whose slot has been taken still has that slot. */
  lemma StillThere(b: Brick, s: SideName, i: nat, to: Id)
    requires i < |b.Raw(b.Store(s)).edges|
    ensures var n := Notified(Inserted(b, s, i, to), s); i < |n.Raw(n.Store(s)).edges|
    ensures var n := Held(Notified(Inserted(b, s, i, to), s)); i < |n.Raw(n.Store(s)).edges|
  {
  }

  /** The steps of linking, in the order they are taken. */
  lemma ConnectSteps(h: Heap, x: Wire)
    requires Linkable(h, x)
    ensures
      var w, e := x.west, x.east;
      var h1 := h[w := Held(h[w])][e := Inserted(h[e], West, x.ei, w)];
      var h2 := h1[e := Notified(h1[e], West)];
      && x.wi < |h2[w].Raw(h2[w].Store(East)).edges|
      && var h3 := h2[e := Held(h2[e])][w := Inserted(h2[w], East, x.wi, e)];
      var h4 := h3[w := Notified(h3[w], East)];
      && x.ei < |h4[e].Raw(h4[e].Store(West)).edges|
      && var h5 := h4[e := Paired(h4[e], West, x.ei, x.wi)];
      && x.wi < |h5[w].Raw(h5[w].Store(East)).edges|
      && h5[w := Paired(h5[w], East, x.wi, x.ei)] == LinkHeap(h, x)
  {
    StepsAttach(h[x.east], West, x.ei, x.west, x.wi);
    StepsAttach(h[x.west], East, x.wi, x.east, x.ei);
    hide Inserted, Notified, Held, Paired, Attach;
  }

  lemma HeldShape(b: Brick)
    requires SidesOk(b)
    ensures SidesOk(Held(b)) && HasRoom(Held(b), East) == HasRoom(b, East)
    ensures forall i: nat :: FirstFree(Held(b), East, i) == FirstFree(b, East, i) && FreeSlot(Held(b), East, i) == FreeSlot(b, East, i)
  {
  }

  // ----- friends and the end of a brick

  /** A queue's friend, if it has one, exists. */
  ghost predicate Friendly(h: Heap, id: Id)
    requires id in h
  {
    h[id].friend.To? ==> h[id].friend.id in h
  }

  ghost function Befriended(h: Heap, q1: Id, q2: Id): Heap
    requires q1 in h && q2 in h
  {
    var h1 := h[q1 := h[q1].(friend := To(q2))];
    h1[q2 := h1[q2].(friend := To(q1))]
  }

  ghost function Unfriended(h: Heap, q: Id): Heap
    requires q in h && Friendly(h, q)
  {
    if h[q].friend.Null? then h
    else
      var f := h[q].friend.id;
      var h1 := h[f := h[f].(friend := Null)];
      h1[q := h1[q].(friend := Null)]
  }

  function Dropped(b: Brick): Brick { b.(refcount := b.refcount - 1) }

  /** The heap without a brick; its friend forgets it. */
  ghost function Freed(h: Heap, id: Id): Heap
    requires id in h && Friendly(h, id)
  {
    (if h[id].friend.Null? then h else h[h[id].friend.id := h[h[id].friend.id].(friend := Null)]) - {id}
  }

  function Cleared(b: Brick, s: SideName, i: nat): Brick
    requires i < |b.Raw(s).edges|
  {
    var r := b.Raw(s);
    b.WithRaw(s, r.(nb := r.nb - 1, edges := r.edges[i := NO_EDGE]))
  }

  /** Friendship does not show in slots, counters or links. */
  lemma FriendsOnly(h: Heap, h': Heap)
    requires Valid(h) && h.Keys == h'.Keys
    requires forall id :: id in h ==> h'[id] == h[id].(friend := h'[id].friend)
    requires forall id :: id in h' ==> FriendOk(h', id)
    ensures Valid(h')
    ensures forall y :: HasWire(h', y) <==> HasWire(h, y)
  {
    forall id | id in h' ensures ShapeOk(h'[id]) { assert ShapeOk(h[id]); }
    forall id, s, i: nat | id in h' ensures SlotOk(h', id, s, i) { FriendSlot(h, h', id, s, i); }
  }

  lemma FriendSlot(h: Heap, h': Heap, id: Id, s: SideName, i: nat)
    requires Valid(h) && h.Keys == h'.Keys && id in h
    requires forall k :: k in h ==> h'[k] == h[k].(friend := h'[k].friend)
    ensures SlotOk(h', id, s, i)
  {
    hide ShapeOk, FriendOk, Brick.Get;
    assert SlotOk(h, id, s, i);
    SameSlots(h[id], h'[id].friend);
    var e := h[id].Get(s, i);
    if e.link.To? {
      SameSlots(h[e.link.id], h'[e.link.id].friend);
    }
  }

  lemma SameSlots(b: Brick, f: Link)
    ensures var c := b.(friend := f); forall s, i: nat :: c.Get(s, i) == b.Get(s, i)
  {
  }

  lemma BefriendKeepsValid(h: Heap, q1: Id, q2: Id)
    requires Valid(h) && q1 in h && q2 in h && h[q1].isQueue && h[q2].isQueue
    requires h[q1].friend.Null? && h[q2].friend.Null?
    ensures Valid(Befriended(h, q1, q2))
    ensures forall y :: HasWire(Befriended(h, q1, q2), y) <==> HasWire(h, y)
  {
    var h' := Befriended(h, q1, q2);
    forall id | id in h' ensures FriendOk(h', id) { assert FriendOk(h, id); }
    FriendsOnly(h, h');
  }

  lemma UnfriendKeepsValid(h: Heap, q: Id)
    requires Valid(h) && q in h
    ensures Friendly(h, q) && Valid(Unfriended(h, q))
    ensures forall y :: HasWire(Unfriended(h, q), y) <==> HasWire(h, y)
  {
    assert FriendOk(h, q);
    var h' := Unfriended(h, q);
    forall id | id in h' ensures FriendOk(h', id) { assert FriendOk(h, id); }
    FriendsOnly(h, h');
  }

  lemma FreeSlotOk(h: Heap, h': Heap, id: Id, k: Id, s: SideName, i: nat)
    requires Valid(h) && id in h && (forall s, i: nat :: h[id].Get(s, i) == NO_EDGE) && h'.Keys == h.Keys - {id} && k in h'
    requires forall k :: k in h && k in h' ==> h'[k] == h[k].(friend := h'[k].friend)
    ensures SlotOk(h', k, s, i)
  {
    hide ShapeOk, FriendOk, Brick.Get;
    assert SlotOk(h, k, s, i);
    SameSlots(h[k], h'[k].friend);
    var e := h[k].Get(s, i);
    if e.link.To? {
      SameSlots(h[e.link.id], h'[e.link.id].friend);
    }
  }

  lemma FreeKeepsValid(h: Heap, id: Id)
    requires Valid(h) && id in h && forall s, i: nat :: h[id].Get(s, i) == NO_EDGE
    ensures Friendly(h, id) && Valid(Freed(h, id))
    ensures forall y :: HasWire(Freed(h, id), y) <==> HasWire(h, y)
    ensures forall k :: k in h && k != id ==>
              k in Freed(h, id) && Freed(h, id)[k] == h[k].(friend := if h[k].friend == To(id) then Null else h[k].friend)
  {
    assert FriendOk(h, id);
    var h' := Freed(h, id);
    forall k | k in h' ensures ShapeOk(h'[k]) && FriendOk(h', k) {
      assert ShapeOk(h[k]) && FriendOk(h, k);
    }
    hide ShapeOk, FriendOk;
    forall k, s, i: nat | k in h' ensures SlotOk(h', k, s, i) {
      FreeSlotOk(h, h', id, k, s, i);
    }
    forall y ensures HasWire(h', y) <==> HasWire(h, y) {
      WireBothEnds(h, y);
    }
  }

  // ----- what unlinking needs

  lemma InBrick(h: Heap, id: Id)
    requires Valid(h) && id in h
    ensures ShapeOk(h[id]) && h[id].refcount >= 1
  {
    assert ShapeOk(h[id]);
  }

  /** An occupied position is a slot that pg_brick_get_edge finds. */
  lemma OccupiedSlot(b: Brick, s: nat, i: nat)
    requires ShapeOk(b) && Occupied(b, s, i)
    ensures b.kind.Multipole? ==> i < |b.Raw(SideAt(s)).edges|
    ensures SlotIndex(b, i) == i && b.Store(SideAt(s)) == SideAt(s)
  {
  }

  lemma DetachSteps(b: Brick, s: SideName, i: nat)
    requires i < |b.Raw(s).edges|
    ensures Dropped(b).Raw(s) == b.Raw(s) && Dropped(b).friend == b.friend && Cleared(Dropped(b), s, i) == Detach(b, s, i)
  {
  }

  /** Breaking a link at both ends is unlinking it, from whichever end one comes. */
  lemma UnlinkSteps(h: Heap, x: Wire, id: Id, s: SideName, i: nat, p: Id, t: SideName, j: nat)
    requires Valid(h) && id in h && h[id].Get(s, i) == Edge(To(p), j) && x == WireAt(h, id, s, i)
    requires p in h && t == h[p].Store(h[id].Real(s).Flip()) && HasWire(h, x) && HasWireEast(h, x) && id != p
    ensures i < |h[id].Raw(s).edges| && j < |h[p].Raw(t).edges|
    ensures h[id := Detach(h[id], s, i)][p := Detach(h[p], t, j)] == UnlinkHeap(h, x)
  {
    hide Detach;
    assert ShapeOk(h[id]);
    StoredOnce(h, id, s, i);
  }

  /** A slot that has been unlinked is the only one of its brick that changed. */
  lemma AfterUnlink(h: Heap, h': Heap, x: Wire, id: Id, s: nat, i: nat)
    requires Valid(h) && id in h && Occupied(h[id], s, i) && x == WireAt(h, id, SideAt(s), i)
    requires HasWire(h, x) && HasWireEast(h, x) && x.west != x.east && h' == UnlinkHeap(h, x)
    ensures id in h' && h'[id].refcount == h[id].refcount - 1
    ensures forall t: nat, j: nat :: Occupied(h'[id], t, j) <==> Occupied(h[id], t, j) && !(t == s && j == i)
  {
    StoredOnce(h, id, SideAt(s), i);
    forall t: nat, j: nat ensures Occupied(h'[id], t, j) <==> Occupied(h[id], t, j) && !(t == s && j == i) {
      if t < 2 {
        UnlinkGet(h, x, id, SideAt(t), j);
      }
    }
  }

  /** A brick without occupied slots has no links and one reference. */
  lemma AllEmpty(h: Heap, id: Id)
    requires Valid(h) && id in h && forall s: nat, i: nat :: !Occupied(h[id], s, i)
    ensures h[id].refcount == 1 && forall s, i: nat :: h[id].Get(s, i) == NO_EDGE
  {
    var b := h[id];
    assert ShapeOk(b);
    forall s, i: nat ensures b.Get(s, i) == NO_EDGE {
      assert !Occupied(b, Rank(s), i) && SlotOk(h, id, s, i);
    }
    forall i | 0 <= i < |b.west.edges| ensures b.west.edges[i].link.Null? { assert b.Get(West, i) == NO_EDGE; }
    forall i | 0 <= i < |b.east.edges| ensures b.east.edges[i].link.Null? { assert b.Get(East, i) == NO_EDGE; }
    CountFull(b.west.edges);
    CountFull(b.east.edges);
  }

  lemma NoWire(h: Heap, id: Id, y: Wire)
    requires Valid(h) && id in h && forall s, i: nat :: h[id].Get(s, i) == NO_EDGE
    ensures HasWire(h, y) ==> !Touches(y, id)
  {
    WireBothEnds(h, y);
  }

  /** There are no links beyond the declared size of a side. */
  lemma NotBeyondMax(b: Brick, to: Link)
    requires ShapeOk(b) && to.To?
    requires forall k: nat :: k < b.Raw(b.Store(East)).max ==> b.Get(b.Store(East), k).link != to
    ensures forall k: nat :: b.Get(b.Store(East), k).link != to
  {
    CountFull(b.Raw(b.Store(East)).edges);
  }

  /** The iterator over the occupied slots of a brick. */
  class EdgeIterator {
    const brick: Id
    var edge: nat
    var side: nat
    var end: bool

    ghost predicate Sane()
      reads this
    {
      !end ==> side < 2
    }

    /** The iterator stands on the first occupied slot from the given position on. */
    ghost predicate AtFirstFrom(b: Brick, s: nat, i: nat)
      reads this
    {
      && Sane()
      && (!end ==> Occupied(b, side, edge) && !Before(side, edge, s, i)
                   && forall t: nat, j: nat :: Occupied(b, t, j) && !Before(t, j, s, i) ==> !Before(t, j, side, edge))
      && (end ==> forall t: nat, j: nat :: Occupied(b, t, j) ==> Before(t, j, s, i))
    }

    constructor (id: Id, h: Heap)
      requires id in h && ShapeOk(h[id])
      ensures brick == id && AtFirstFrom(h[id], 0, 0)
    {
      brick, edge, side, end := id, 0, 0, false;
      new;
      if h[id].Get(SideAt(0), 0).link.Null? {
        Next(h);
      }
    }

    /** Moves to the next occupied slot, or to the end. */
    method Next(h: Heap)
      requires brick in h && ShapeOk(h[brick]) && Sane()
      modifies this
      ensures old(end) ==> end
      ensures !old(end) ==> AtFirstFrom(h[brick], old(side), old(edge) + 1)
      decreases if end then 0 else 2 - side, if edge < h[brick].Raw(SideAt(side)).max then h[brick].Raw(SideAt(side)).max - edge else 0
    {
      if end {
        return;
      }
      var b := h[brick];
      if b.kind.Monopole? {
        end := true;
        return;
      }
      edge := edge + 1;
      if edge >= b.Raw(SideAt(side)).max {
        side, edge := side + 1, 0;
      }
      if side == 2 {
        end := true;
        return;
      }
      if b.Get(SideAt(side), edge).link.Null? {
        Next(h);
      }
    }
  }

  class World {
    var heap: Heap
    var next: Id

    ghost predicate Ok()
      reads this
    {
      Valid(heap) && forall id :: id in heap ==> id < next
    }

    constructor ()
      ensures Ok() && heap == map[]
    {
      heap, next := map[], 0;
    }

    /** pg_brick_new: refused when a side cannot have that many edges. */
    method New(name: string, kind: Kind, westMax: nat, eastMax: nat, polls: bool, isQueue: bool) returns (b: Link)
      requires Ok() && westMax <= 0xffff && eastMax <= 0xffff && (isQueue ==> kind.Monopole? && polls)
      modifies this
      ensures Ok()
      ensures b.Null? <==> if kind.Multipole? then westMax == 0xffff || eastMax == 0xffff || westMax + eastMax == 0
                           else westMax > 1 || eastMax > 1
      ensures b.Null? ==> heap == old(heap)
      ensures b.To? ==> b.id !in old(heap) && b.id in heap && heap == old(heap)[b.id := heap[b.id]]
      ensures b.To? ==> var n := heap[b.id];
                && n.name == name && n.kind == kind && n.polls == polls && n.isQueue == isQueue && n.friend == Null
                && n.west.max == westMax && n.east.max == eastMax && n.refcount == 1 && n.west.nb == n.east.nb == 0
      ensures forall y :: HasWire(heap, y) <==> HasWire(old(heap), y)
    {
      hide SlotOk;
      if kind.Multipole? && (westMax >= 0xffff || eastMax >= 0xffff) {
        return Null;
      } else if !kind.Multipole? && (westMax > 1 || eastMax > 1) {
        return Null;
      } else if kind.Multipole? && westMax == 0 && eastMax == 0 {
        return Null;
      }
      var ws := seq(if kind.Multipole? then westMax else 1, _ => NO_EDGE);
      var es := seq(if kind.Multipole? then eastMax else if kind.Dipole? then 1 else 0, _ => NO_EDGE);
      CountFull(ws);
      CountFull(es);
      b := To(next);
      heap := heap[next := Brick(name, kind, polls, isQueue, West, Null, Side(westMax, 0, ws), Side(eastMax, 0, es), 1)];
      next := next + 1;
      AddKeepsValid(old(heap), heap, b.id);
    }

    /** insert_link: takes the first free slot; the peer slot is filled in later. */
    method InsertLink(from: Id, to: Id, s: SideName) returns (i: nat)
      requires from in heap && to in heap && from != to && SidesOk(heap[from]) && HasRoom(heap[from], s)
      modifies this`heap
      ensures FirstFree(old(heap)[from], s, i) && FreeSlot(old(heap)[from], s, i)
      ensures heap == old(heap)[to := Held(old(heap)[to])][from := Inserted(old(heap)[from], s, i, to)]
    {
      var b := heap[from];
      var r := b.Raw(b.Store(s));
      RoomMeansFree(b, s);
      i := 0;
      if b.kind.Multipole? {
        while i < r.max && r.edges[i].link.To?
          invariant i <= r.max && forall k :: 0 <= k < i ==> r.edges[k].link.To?
        {
          i := i + 1;
        }
        // the source panics when no slot is found
        assert i < r.max;
      }
      r := r.(nb := r.nb + 1, edges := r.edges[i := r.edges[i].(link := To(to))]);
      heap := heap[to := heap[to].(refcount := heap[to].refcount + 1)];
      heap := heap[from := b.WithRaw(b.Store(s), r)];
    }

    /** What the monopole bricks do when they are told of a new link. */
    method LinkNotify(id: Id, s: SideName)
      requires id in heap
      modifies this`heap
      ensures heap == old(heap)[id := Notified(old(heap)[id], s)]
    {
      if heap[id].kind.Monopole? {
        heap := heap[id := heap[id].(at := s)];
      }
    }

    method SetEdge(id: Id, s: SideName, i: nat, pair: nat)
      requires id in heap && i < |heap[id].Raw(heap[id].Store(s)).edges|
      modifies this`heap
      ensures heap == old(heap)[id := Paired(old(heap)[id], s, i, pair)]
    {
      var b := heap[id];
      var r := b.Raw(b.Store(s));
      heap := heap[id := b.WithRaw(b.Store(s), r.(edges := r.edges[i := r.edges[i].(pair := pair)]))];
    }

    /**
     pg_brick_link: succeeds exactly when both bricks exist, differ and have
     room; then one link is added, between the first free slots.
     */
    method Link(west: Link, east: Link) returns (ok: bool, ghost x: Wire)
      requires Ok() && (west.To? ==> west.id in heap) && (east.To? ==> east.id in heap)
      modifies this`heap
      ensures Ok()
      ensures ok <==> west.To? && east.To? && west != east
                      && HasRoom(old(heap)[east.id], West) && HasRoom(old(heap)[west.id], East)
      ensures !ok ==> heap == old(heap)
      ensures ok ==> x.west == west.id && x.east == east.id && Linkable(old(heap), x) && heap == LinkHeap(old(heap), x)
      ensures ok ==> FirstFree(old(heap)[west.id], East, x.wi) && FirstFree(old(heap)[east.id], West, x.ei)
      ensures ok ==> forall y :: HasWire(heap, y) <==> HasWire(old(heap), y) || y == x
    {
      x := Wire(0, 0, 0, 0);
      if west.Null? || east.Null? || west == east {
        return false, x;
      }
      var w, e := west.id, east.id;
      if !HasRoom(heap[e], West) {
        return false, x;
      }
      if !HasRoom(heap[w], East) {
        return false, x;
      }
      ghost var h := heap;
      x := Connect(w, e);
      LinkKeepsValid(h, x);
      forall y ensures HasWire(LinkHeap(h, x), y) <==> HasWire(h, y) || y == x { LinkAddsWire(h, x, y); }
      ok := true;
    }

    /** Fills both ends of a new link, east end first. */
    method Connect(w: Id, e: Id) returns (ghost x: Wire)
      requires Ok() && w in heap && e in heap && w != e && HasRoom(heap[w], East) && HasRoom(heap[e], West)
      modifies this`heap
      ensures x.west == w && x.east == e && Linkable(old(heap), x) && heap == LinkHeap(old(heap), x)
      ensures FirstFree(old(heap)[w], East, x.wi) && FirstFree(old(heap)[e], West, x.ei)
    {
      ghost var h := heap;
      assert ShapeOk(h[w]) && ShapeOk(h[e]);
      HeldShape(h[w]);
      hide Valid, ShapeOk, SidesOk, HasRoom, FreeSlot, FirstFree, Inserted, Notified, Held, Paired, Attach, LinkHeap;
      var ei := InsertLink(e, w, West);
      StillThere(h[e], West, ei, w);
      LinkNotify(e, West);
      var wi := InsertLink(w, e, East);
      StillThere(Held(h[w]), East, wi, e);
      LinkNotify(w, East);
      x := Wire(w, wi, e, ei);
      ConnectSteps(h, x);
      SetEdge(e, West, ei, wi);
      SetEdge(w, East, wi, ei);
    }

    /** pg_queue_friend */
    method Friend(q1: Id, q2: Id) returns (ok: bool)
      requires Ok() && q1 in heap && q2 in heap && heap[q1].isQueue && heap[q2].isQueue
      modifies this`heap
      ensures Ok()
      ensures ok <==> old(heap)[q1].friend.Null? && old(heap)[q2].friend.Null?
      ensures heap == if ok then Befriended(old(heap), q1, q2) else old(heap)
      ensures forall y :: HasWire(heap, y) <==> HasWire(old(heap), y)
    {
      if heap[q1].friend.To? {
        return false;
      }
      if heap[q2].friend.To? {
        return false;
      }
      heap := heap[q1 := heap[q1].(friend := To(q2))];
      heap := heap[q2 := heap[q2].(friend := To(q1))];
      BefriendKeepsValid(old(heap), q1, q2);
      ok := true;
    }

    /** Both queues forget each other. */
    method Unfriend(q: Id)
      requires Ok() && q in heap
      modifies this`heap
      ensures Ok() && Friendly(old(heap), q) && heap == Unfriended(old(heap), q)
      ensures forall y :: HasWire(heap, y) <==> HasWire(old(heap), y)
    {
      assert FriendOk(heap, q);
      UnfriendKeepsValid(heap, q);
      if heap[q].friend.Null? {
        return;
      }
      var f := heap[q].friend.id;
      heap := heap[f := heap[f].(friend := Null)];
      heap := heap[q := heap[q].(friend := Null)];
    }

    /** pg_brick_decref: the last reference frees the brick. */
    method Decref(id: Id) returns (r: Link)
      requires id in heap && Friendly(heap, id)
      modifies this`heap
      ensures old(heap)[id].refcount > 1 ==> r == To(id) && heap == old(heap)[id := Dropped(old(heap)[id])]
      ensures old(heap)[id].refcount <= 1 ==> r == Null && heap == Freed(old(heap), id)
    {
      heap := heap[id := Dropped(heap[id])];
      if heap[id].refcount > 0 {
        return To(id);
      }
      // the queue's destructor
      if heap[id].friend.To? {
        var f := heap[id].friend.id;
        heap := heap[f := heap[f].(friend := Null)];
      }
      heap := heap - {id};
      r := Null;
      assert heap == Freed(old(heap), id);
    }

    /** Empties a stored slot and takes it off the count. */
    method ResetEdge(id: Id, s: SideName, i: nat)
      requires id in heap && i < |heap[id].Raw(s).edges|
      modifies this`heap
      ensures heap == old(heap)[id := Cleared(old(heap)[id], s, i)]
    {
      var r := heap[id].Raw(s);
      heap := heap[id := heap[id].WithRaw(s, r.(nb := r.nb - 1, edges := r.edges[i := NO_EDGE]))];
    }

    /**
     do_unlink: breaks the link of one slot at both ends.  Neither brick loses
     its last reference.
     */
    method DoUnlink(id: Id, s: SideName, i: nat) returns (ghost x: Wire)
      requires Ok() && id in heap && (heap[id].kind.Multipole? ==> i < |heap[id].Raw(s).edges|)
      modifies this`heap
      ensures Ok()
      ensures var b := old(heap)[id]; var k := SlotIndex(b, i);
              if b.Get(b.Store(s), k).link.Null? then heap == old(heap)
              else x == WireAt(old(heap), id, b.Store(s), k) && HasWire(old(heap), x) && HasWireEast(old(heap), x) && x.west != x.east
                   && heap == UnlinkHeap(old(heap), x) && SameNodes(old(heap), heap) && SameStance(old(heap), heap)
                   && forall y :: HasWire(heap, y) <==> HasWire(old(heap), y) && y != x
    {
      x := Wire(0, 0, 0, 0);
      ghost var h := heap;
      var b := heap[id];
      assert ShapeOk(b);
      var raw, k := b.Store(s), SlotIndex(b, i);
      var edge := b.Raw(raw).edges[k];
      if edge.link.Null? {
        return;
      }
      var p, t := edge.link.id, b.Real(raw).Flip();
      assert SlotOk(h, id, raw, k) && ShapeOk(h[p]) && FriendOk(h, id) && FriendOk(h, p);
      var pair := SlotIndex(heap[p], edge.pair);
      assert pair == edge.pair;
      x := WireAt(h, id, raw, k);
      SlotHasWire(h, id, raw, k);
      UnlinkKeepsValid(h, x);
      UnlinkSameNodes(h, x);
      var store := heap[p].Store(t);
      UnlinkSteps(h, x, id, raw, k, p, store, pair);
      hide Valid, ShapeOk, SidesOk, HasWire, HasWireEast, UnlinkHeap, SameNodes, SameStance;
      forall y ensures HasWire(UnlinkHeap(h, x), y) <==> HasWire(h, y) && y != x { UnlinkRemovesWire(h, x, y); }
      var _ := Break(id, raw, k, p, store, pair);
    }

    /** The steps of do_unlink once both ends are known. */
    method Break(id: Id, s: SideName, i: nat, p: Id, t: SideName, j: nat) returns (r: Link)
      requires id in heap && i < |heap[id].Raw(s).edges| && heap[id].refcount > 1 && Friendly(heap, id)
      requires p in heap && j < |heap[p].Raw(t).edges| && heap[p].refcount > 1 && Friendly(heap, p) && p != id
      modifies this`heap
      ensures heap == old(heap)[id := Detach(old(heap)[id], s, i)][p := Detach(old(heap)[p], t, j)]
    {
      DetachSteps(heap[id], s, i);
      DetachSteps(heap[p], t, j);
      hide Dropped, Cleared, Detach;
      r := Decref(id);
      r := Decref(p);
      ResetEdge(p, t, j);
      ResetEdge(id, s, i);
    }

    /** pg_brick_unlink: exactly the links of the brick go away. */
    method Unlink(id: Id)
      requires Ok() && id in heap
      modifies this`heap
      ensures Ok() && SameNodes(old(heap), heap) && SameStance(old(heap), heap)
      ensures forall y :: HasWire(heap, y) <==> HasWire(old(heap), y) && !Touches(y, id)
      ensures heap[id].refcount == 1 && forall s, i: nat :: heap[id].Get(s, i) == NO_EDGE
    {
      hide SlotOk, ShapeOk, FriendOk, HasWire, HasWireEast, UnlinkHeap, Valid, Brick.Get;
      InBrick(heap, id);
      var it := new EdgeIterator(id, heap);
      while !it.end
        invariant Ok() && it.brick == id && it.Sane() && id in heap
        invariant SameNodes(old(heap), heap) && SameStance(old(heap), heap)
        invariant forall y :: HasWire(heap, y) ==> HasWire(old(heap), y)
        invariant forall y :: HasWire(old(heap), y) && !Touches(y, id) ==> HasWire(heap, y)
        invariant !it.end ==> Occupied(heap[id], it.side, it.edge)
        invariant forall s: nat, i: nat :: Occupied(heap[id], s, i) ==> !it.end && !Before(s, i, it.side, it.edge)
        invariant heap[id].refcount >= 1
        decreases heap[id].refcount
      {
        ghost var h := heap;
        InBrick(h, id);
        OccupiedSlot(h[id], it.side, it.edge);
        ghost var x := DoUnlink(id, SideAt(it.side), it.edge);
        InBrick(heap, id);
        AfterUnlink(h, heap, x, id, it.side, it.edge);
        it.Next(heap);
      }
      AllEmpty(heap, id);
      forall y ensures HasWire(heap, y) ==> !Touches(y, id) { NoWire(heap, id, y); }
    }

    /** pg_brick_unlink_edge: breaks the first link of `west` that leads to `east`. */
    method UnlinkEdge(west: Link, east: Link) returns (ok: bool, ghost i: nat, ghost x: Wire)
      requires Ok() && (west.To? ==> west.id in heap) && (east.To? ==> east.id in heap)
      modifies this`heap
      ensures Ok() && SameNodes(old(heap), heap) && SameStance(old(heap), heap)
      ensures ok <==> west.To? && east.To? && var b := old(heap)[west.id]; exists k: nat :: b.Get(b.Store(East), k).link == east
      ensures !ok ==> heap == old(heap)
      ensures ok ==> var b := old(heap)[west.id];
                && b.Get(b.Store(East), i).link == east && (forall k: nat :: k < i ==> b.Get(b.Store(East), k).link != east)
                && x == WireAt(old(heap), west.id, b.Store(East), i) && HasWire(old(heap), x) && HasWireEast(old(heap), x)
                && heap == UnlinkHeap(old(heap), x)
                && forall y :: HasWire(heap, y) <==> HasWire(old(heap), y) && y != x
    {
      x := Wire(0, 0, 0, 0);
      i := 0;
      if west.Null? || east.Null? {
        return false, i, x;
      }
      var w := west.id;
      var b := heap[w];
      assert ShapeOk(b);
      var ws := b.Raw(b.Store(East));
      var k := 0;
      while k < ws.max && b.Get(b.Store(East), SlotIndex(b, k)).link != east
        invariant k <= ws.max && forall j :: 0 <= j < k ==> b.Get(b.Store(East), j).link != east
      {
        k := k + 1;
      }
      if k == ws.max {
        NotBeyondMax(b, east);
        return false, i, x;
      }
      i := k;
      x := DoUnlink(w, East, k);
      ok := true;
    }

    /** pg_brick_destroy: the brick is unlinked and, having no other owner, freed. */
    method Destroy(id: Id)
      requires Ok() && id in heap
      modifies this`heap
      ensures Ok() && heap.Keys == old(heap).Keys - {id}
      ensures forall k :: k in heap ==> SameNode(old(heap)[k], heap[k].(friend := old(heap)[k].friend)) && heap[k].at == old(heap)[k].at
      ensures forall k :: k in heap ==> heap[k].friend == if old(heap)[k].friend == To(id) then Null else old(heap)[k].friend
      ensures forall y :: HasWire(heap, y) <==> HasWire(old(heap), y) && !Touches(y, id)
    {
      Unlink(id);
      ghost var h := heap;
      assert FriendOk(h, id);
      FreeKeepsValid(h, id);
      var _ := Decref(id);
    }
  }
}
