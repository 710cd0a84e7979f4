/**
 Graphs on which an operation does not undo another one.
 */
module GraphExamples {

  import opened Bricks
  import opened BrickLinks
  import opened BrickReach
  import opened BrickGraph
  import opened GraphSplit
  import opened GraphRoundTrip

  // ----- two links between the same bricks

  /** Unlinking after linking twice breaks the first of the two links. */
  method LinkTwiceUnlink(world: World, w: Id, e: Id) returns (ghost first: Wire, ghost second: Wire)
    requires world.Ok() && w in world.heap && e in world.heap && w != e
    requires world.heap[w].kind.Multipole? && world.heap[w].east.nb + 1 < world.heap[w].east.max
    requires world.heap[e].kind.Multipole? && world.heap[e].west.nb + 1 < world.heap[e].west.max
    requires forall k: nat :: world.heap[w].Get(East, k).link != To(e)
    modifies world`heap
    ensures world.Ok() && first != second && first.west == second.west == w && first.east == second.east == e
    ensures forall y :: HasWire(world.heap, y) <==> HasWire(old(world.heap), y) || y == second
    ensures !HasWire(world.heap, first)
  {
    hide Valid, HasWire, Linkable, FirstFree, LinkHeap;
    var ok;
    ghost var h0 := world.heap;
    ok, first := world.Link(To(w), To(e));
    ghost var h1 := world.heap;
    MoreRoom(h0, first);
    ok, second := world.Link(To(w), To(e));
    ghost var h2 := world.heap;
    NextSlot(h0, first, second);
    LinkEnds(h1, second);
    ghost var i, x;
    OnlyTheTwo(h0, first, second);
    ok, i, x := world.UnlinkEdge(To(w), To(e));
    FirstIsBroken(h2, first, second, i);
    NotYetThere(h0, first);
  }

  /** What is left of the room after a link between two multipole bricks. */
  lemma MoreRoom(h: Heap, x: Wire)
    requires Valid(h) && Linkable(h, x) && h[x.west].kind.Multipole? && h[x.east].kind.Multipole?
    ensures var h' := LinkHeap(h, x);
            && x.west in h' && x.east in h' && h'[x.west].kind.Multipole? && h'[x.east].kind.Multipole?
            && h'[x.west].east.nb == h[x.west].east.nb + 1 && h'[x.west].east.max == h[x.west].east.max
            && h'[x.east].west.nb == h[x.east].west.nb + 1 && h'[x.east].west.max == h[x.east].west.max
  {
  }

  lemma NextSlot(h: Heap, x: Wire, y: Wire)
    requires Valid(h) && Linkable(h, x) && x.west == y.west && h[x.west].kind.Multipole?
    requires FirstFree(h[x.west], East, x.wi) && FirstFree(LinkHeap(h, x)[x.west], East, y.wi)
    ensures x.wi < y.wi
  {
    LinkEnds(h, x);
    LinkGet(h, x, x.west, East, y.wi);
    LinkGet(h, x, x.west, East, x.wi);
  }

  lemma NotYetThere(h: Heap, x: Wire)
    requires Valid(h) && Linkable(h, x)
    ensures !HasWire(h, x)
  {
    LinkEnds(h, x);
  }

  lemma OnlyTheTwo(h: Heap, x: Wire, y: Wire)
    requires Valid(h) && Linkable(h, x) && Valid(LinkHeap(h, x)) && Linkable(LinkHeap(h, x), y)
    requires x.west == y.west && x.east == y.east && h[x.west].kind.Multipole? && x.wi < y.wi
    requires forall k: nat :: h[x.west].Get(East, k).link != To(x.east)
    ensures var b := LinkHeap(LinkHeap(h, x), y)[x.west];
            && b.kind.Multipole? && b.Get(East, x.wi) == Edge(To(x.east), x.ei)
            && forall k: nat :: b.Get(East, k).link == To(x.east) ==> k == x.wi || k == y.wi
  {
    hide Valid, LinkHeap;
    LinkEnds(h, x);
    var h' := LinkHeap(h, x);
    LinkEnds(h', y);
    forall k: nat
      ensures h'[x.west].Get(East, k) == if k == x.wi then Edge(To(x.east), x.ei) else h[x.west].Get(East, k)
      ensures h'[x.west].kind == h[x.west].kind == LinkHeap(h', y)[x.west].kind
      ensures LinkHeap(h', y)[x.west].Get(East, k) == if k == y.wi then Edge(To(y.east), y.ei) else h'[x.west].Get(East, k)
    {
      LinkGet(h, x, x.west, East, k);
      LinkGet(h', y, x.west, East, k);
    }
    assert LinkHeap(h', y)[x.west].Get(East, x.wi) == Edge(To(x.east), x.ei);
  }

  lemma FirstIsBroken(h: Heap, x: Wire, y: Wire, i: nat)
    requires x.west in h && h[x.west].kind.Multipole? && x.wi < y.wi && h[x.west].Get(East, x.wi) == Edge(To(x.east), x.ei)
    requires forall k: nat :: h[x.west].Get(East, k).link == To(x.east) ==> k == x.wi || k == y.wi
    requires h[x.west].Get(East, i).link == To(x.east) && forall k: nat :: k < i ==> h[x.west].Get(East, k).link != To(x.east)
    ensures i == x.wi && WireAt(h, x.west, East, i) == x
  {
  }

  // ----- friends on both sides of a bridge

  /** Two bricks joined by a link and, beside it, by a pair of friends. */
  ghost predicate Across(h: Heap, a: Id, b: Id, q1: Id, q2: Id, x0: Wire, x1: Wire, x2: Wire) {
    && Valid(h) && h.Keys == {a, b, q1, q2} && a != b && q1 != a && q1 != b && q2 != a && q2 != b && q1 != q2
    && h[a].kind.Multipole? && h[a].friend == Null && h[b].friend == Null
    && h[q1].friend == To(q2) && h[q2].friend == To(q1)
    && x0.west == a && x0.east == b && x1.west == a && x1.east == q1 && x2.west == q2 && x2.east == b
    && forall y :: HasWire(h, y) <==> y == x0 || y == x1 || y == x2
  }

  /** The cut at the only link between `a` and `b`. */
  lemma AcrossCut(h: Heap, a: Id, b: Id, q1: Id, q2: Id, x0: Wire, x1: Wire, x2: Wire, i: nat)
    requires Across(h, a, b, q1, q2, x0, x1, x2)
    ensures CanCut(h, a, b)
    ensures FirstLink(h, a, b, i) <==> i == x0.wi
    ensures FirstLink(h, a, b, i) ==> var cut := CutHeap(h, a, i);
              Valid(cut) && cut.Keys == h.Keys && forall y :: HasWire(cut, y) <==> y == x1 || y == x2
  {
    assert HasWire(h, x0);
    assert h[a].Get(East, x0.wi) == Edge(To(b), x0.ei);
    hide Valid;
    forall k: nat ensures h[a].Get(East, k).link == To(b) <==> k == x0.wi {
      if h[a].Get(East, k).link == To(b) {
        SlotHasWire(h, a, East, k);
        assert WireAt(h, a, East, k) == x0;
      }
    }
    if i == x0.wi {
      UnlinkKeepsValid(h, x0);
      assert CutHeap(h, a, i) == UnlinkHeap(h, x0);
      forall y ensures HasWire(CutHeap(h, a, i), y) <==> y == x1 || y == x2 { UnlinkRemovesWire(h, x0, y); }
    }
  }

  lemma AcrossReach(cut: Heap, a: Id, b: Id, q1: Id, q2: Id, x1: Wire, x2: Wire, k: Id)
    requires Valid(cut) && cut.Keys == {a, b, q1, q2} && a != b && q1 != a && q1 != b && q2 != a && q2 != b && q1 != q2
    requires x1.west == a && x1.east == q1 && x2.west == q2 && x2.east == b
    requires forall y :: HasWire(cut, y) <==> y == x1 || y == x2
    ensures Reaches(cut, a, k) <==> k == a || k == q1
    ensures Reaches(cut, b, k) <==> k == b || k == q2
  {
    hide Valid, HasWire, Reaches, Adjacent;
    forall c, d ensures Adjacent(cut, c, d) <==> Joins(x1, c, d) || Joins(x2, c, d) { AdjacentIffWire(cut, c, d); }
    ReachSelf(cut, a);
    ReachSelf(cut, b);
    ReachStep(cut, a, a, q1);
    ReachStep(cut, b, b, q2);
    if Reaches(cut, a, k) { ClosedReach(cut, iset{a, q1}, a, k); }
    if Reaches(cut, b, k) { ClosedReach(cut, iset{b, q2}, b, k); }
  }

  /** The link is a bridge, and the friends stand between the bricks that it joins. */
  lemma AcrossSeparates(h: Heap, a: Id, b: Id, q1: Id, q2: Id, x0: Wire, x1: Wire, x2: Wire)
    requires Across(h, a, b, q1, q2, x0, x1, x2)
    ensures IsBridge(h, a, b) && AllUpright(h, a, b) && SeparatesFriends(h, a, b)
    ensures forall q :: Lost(h, a, b, q) <==> q == q1 || q == q2
  {
    hide Valid, HasWire, Reaches, CutHeap, CanCut;
    forall i: nat
      ensures FirstLink(h, a, b, i) <==> i == x0.wi
      ensures FirstLink(h, a, b, i) ==> !Reaches(CutHeap(h, a, i), a, b)
    {
      AcrossCut(h, a, b, q1, q2, x0, x1, x2, i);
      if i == x0.wi { AcrossReach(CutHeap(h, a, i), a, b, q1, q2, x1, x2, b); }
    }
    AcrossCut(h, a, b, q1, q2, x0, x1, x2, x0.wi);
    var cut := CutHeap(h, a, x0.wi);
    forall p1, p2 ensures FriendsApart(h, a, b, p1, p2) <==> p1 == q1 && p2 == q2 {
      AcrossReach(cut, a, b, q1, q2, x1, x2, p1);
      AcrossReach(cut, a, b, q1, q2, x1, x2, p2);
    }
    assert FriendsApart(h, a, b, q1, q2);
    assert HasWire(h, x1) && HasWire(h, x2);
    assert !Lost(h, a, b, x1.west) && !Lost(h, a, b, x2.east);
    assert Upright(h, a, b, q1, q2);
  }

  /** Four bricks without links. */
  method FourBricks(world: World) returns (a: Id, b: Id, q1: Id, q2: Id)
    requires world.Ok() && world.heap == map[]
    modifies world
    ensures world.Ok() && world.heap.Keys == {a, b, q1, q2} && a != b && q1 != a && q1 != b && q2 != a && q2 != b && q1 != q2
    ensures Unlinked(world.heap[a], "a", Multipole, false, 0, 2) && Unlinked(world.heap[b], "b", Multipole, false, 2, 0)
    ensures Unlinked(world.heap[q1], "q1", Monopole, true, 1, 1) && Unlinked(world.heap[q2], "q2", Monopole, true, 1, 1)
    ensures forall y :: !HasWire(world.heap, y)
  {
    hide Valid;
    assert forall y :: !HasWire(world.heap, y);
    hide HasWire;
    var l := world.New("a", Multipole, 0, 2, false, false);
    a := l.id;
    l := world.New("b", Multipole, 2, 0, false, false);
    b := l.id;
    l := world.New("q1", Monopole, 1, 1, true, true);
    q1 := l.id;
    l := world.New("q2", Monopole, 1, 1, true, true);
    q2 := l.id;
  }

  ghost predicate Unlinked(b: Brick, name: string, kind: Kind, isQueue: bool, westMax: nat, eastMax: nat) {
    && b.name == name && b.kind == kind && b.isQueue == isQueue && b.friend == Null
    && b.west.max == westMax && b.east.max == eastMax && b.west.nb == b.east.nb == 0
  }

  /** Builds two bricks with a link and a pair of friends between them. */
  method BuildAcross(world: World) returns (a: Id, b: Id, q1: Id, q2: Id, ghost x0: Wire, ghost x1: Wire, ghost x2: Wire)
    requires world.Ok() && world.heap == map[]
    modifies world
    ensures world.Ok() && Across(world.heap, a, b, q1, q2, x0, x1, x2)
    ensures world.heap[a].name == "a" && world.heap[b].name == "b" && world.heap[q1].name == "q1" && world.heap[q2].name == "q2"
  {
    hide Valid, HasWire, Linkable, FirstFree, LinkHeap;
    a, b, q1, q2 := FourBricks(world);
    x0, x1, x2 := LinkAll(world, a, b, q1, q2);
    var ok := world.Friend(q1, q2);
  }

  method LinkAll(world: World, a: Id, b: Id, q1: Id, q2: Id) returns (ghost x0: Wire, ghost x1: Wire, ghost x2: Wire)
    requires world.Ok() && world.heap.Keys == {a, b, q1, q2} && a != b && q1 != a && q1 != b && q2 != a && q2 != b && q1 != q2
    requires Unlinked(world.heap[a], "a", Multipole, false, 0, 2) && Unlinked(world.heap[b], "b", Multipole, false, 2, 0)
    requires Unlinked(world.heap[q1], "q1", Monopole, true, 1, 1) && Unlinked(world.heap[q2], "q2", Monopole, true, 1, 1)
    requires forall y :: !HasWire(world.heap, y)
    modifies world`heap
    ensures world.Ok() && SameNodes(old(world.heap), world.heap)
    ensures x0.west == a && x0.east == b && x1.west == a && x1.east == q1 && x2.west == q2 && x2.east == b
    ensures forall y :: HasWire(world.heap, y) <==> y == x0 || y == x1 || y == x2
  {
    hide Valid, HasWire, Linkable, FirstFree, LinkHeap;
    ghost var h0 := world.heap;
    var ok;
    ok, x0 := world.Link(To(a), To(b));
    ghost var h1 := world.heap;
    LinkLeaves(h0, x0);
    ok, x1 := world.Link(To(a), To(q1));
    ghost var h2 := world.heap;
    LinkLeaves(h1, x1);
    ok, x2 := world.Link(To(q2), To(b));
    LinkLeaves(h2, x2);
  }

  /** What a link changes of the two bricks, and that it changes no other. */
  lemma LinkLeaves(h: Heap, x: Wire)
    requires Valid(h) && Linkable(h, x)
    ensures var h' := LinkHeap(h, x);
            && SameNodes(h, h')
            && (forall id :: id in h && id != x.west && id != x.east ==> h'[id] == h[id])
            && h'[x.west].Raw(h[x.west].Store(East)).nb == h[x.west].Raw(h[x.west].Store(East)).nb + 1
            && h'[x.east].Raw(h[x.east].Store(West)).nb == h[x.east].Raw(h[x.east].Store(West)).nb + 1
            && h'[x.west].Raw(h[x.west].Store(East).Flip()) == h[x.west].Raw(h[x.west].Store(East).Flip())
            && h'[x.east].Raw(h[x.east].Store(West).Flip()) == h[x.east].Raw(h[x.east].Store(West).Flip())
  {
    LinkSameNodes(h, x);
  }

  /** Split at the link and merged again, only the two bricks are left. */
  method FriendsLost() returns (world: World, ok: bool, a: Id, b: Id, q1: Id, q2: Id, ghost before: Heap)
    ensures q1 in before && before[q1].friend == To(q2) && q2 in before
    ensures IsBridge(before, a, b) && SeparatesFriends(before, a, b)
    ensures ok && world.heap.Keys == {a, b} && a in before && b in before
  {
    hide IsBridge, AllUpright, SeparatesFriends, Lost, Valid, HasWire, Reaches, Graph.Member, SameNodes, Adjacent;
    world := new World();
    ghost var x0, x1, x2;
    a, b, q1, q2, x0, x1, x2 := BuildAcross(world);
    before := world.heap;
    AcrossSeparates(before, a, b, q1, q2, x0, x1, x2);
    var g := new Graph("g");
    ghost var start;
    EmptyOk(g, before);
    AcrossNames(before, a, b, q1, q2, x0, x1, x2);
    ok, start := g.Explore(world.heap, To(a));
    AcrossKnown(g, before, a, b, q1, q2, x0, x1, x2);
    ok := SplitThenMerge(world, g, "east", "a", "b", "west queue", "east queue");
    assert forall q :: q in world.heap <==> q in {a, b};
  }

  lemma AcrossNames(h: Heap, a: Id, b: Id, q1: Id, q2: Id, x0: Wire, x1: Wire, x2: Wire)
    requires Across(h, a, b, q1, q2, x0, x1, x2)
    requires h[a].name == "a" && h[b].name == "b" && h[q1].name == "q1" && h[q2].name == "q2"
    ensures UniqueNames(h, a)
  {
    hide Valid, HasWire, Reaches;
    assert h[a].name[0] == 'a' && h[b].name[0] == 'b' && h[q1].name[1] == '1' && h[q2].name[1] == '2';
  }

  lemma AcrossKnown(g: Graph, h: Heap, a: Id, b: Id, q1: Id, q2: Id, x0: Wire, x1: Wire, x2: Wire)
    requires Across(h, a, b, q1, q2, x0, x1, x2) && g.Holds(h, a)
    requires h[a].name == "a" && h[b].name == "b" && h[q1].name == "q1" && h[q2].name == "q2"
    ensures "a" in g.all && g.all["a"] == a && "b" in g.all && g.all["b"] == b
    ensures "west queue" !in g.all && "east queue" !in g.all
  {
    hide Valid, HasWire, Reaches, Adjacent;
    ReachSelf(h, a);
    assert HasWire(h, x0);
    AdjacentIffWire(h, a, b);
    ReachStep(h, a, a, b);
    assert g.Member(a) && g.Member(b);
    assert |"west queue"| != 1 && |"west queue"| != 2 && |"east queue"| != 1 && |"east queue"| != 2;
  }
}
