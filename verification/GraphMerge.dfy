/**
 Joining two graphs where their queues are friends.
 */
module GraphMerge {

  import opened Bricks
  import opened BrickLinks
  import opened BrickGraph
  import opened GraphSplit

  /** The brick a queue is linked to. */
  function Neighbour(b: Brick): Link { b.Get(West, 0).link }

  /** `h'` is `h` with the queues `q1` and `q2` unlinked and no longer friends. */
  ghost predicate Separated(h: Heap, h': Heap, q1: Id, q2: Id) {
    && Valid(h') && h'.Keys == h.Keys
    && (forall id :: id in h ==> h'[id].at == h[id].at && SameNode(h[id], h'[id].(friend := h[id].friend)))
    && (forall id :: id in h ==> h'[id].friend == if id == q1 || id == q2 then Null else h[id].friend)
    && (forall y :: HasWire(h', y) <==> HasWire(h, y) && !Touches(y, q1) && !Touches(y, q2))
  }

  /** The neighbours of two queues are to be linked to each other. */
  ghost predicate ToJoin(h: Heap, q1: Id, q2: Id) {
    q1 in h && q2 in h && Neighbour(h[q1]).To? && Neighbour(h[q2]).To?
  }

  /** The heap after two queues have been taken out from between their neighbours. */
  ghost predicate Joined(h: Heap, mid: Heap, h': Heap, q1: Id, q2: Id, x: Wire) {
    && Separated(h, mid, q1, q2)
    && if ToJoin(h, q1, q2) then
         OneMore(mid, h', x) && SameNodes(mid, h') && x.west == Neighbour(h[q1]).id && x.east == Neighbour(h[q2]).id
       else h' == mid
  }

  /** Nothing is wrong with linking the neighbours. */
  ghost predicate CanJoin(h: Heap, mid: Heap, q1: Id, q2: Id) {
    ToJoin(h, q1, q2) ==>
      var n1, n2 := Neighbour(h[q1]).id, Neighbour(h[q2]).id;
      n1 != n2 && n1 in mid && n2 in mid && HasRoom(mid[n2], West) && HasRoom(mid[n1], East)
  }

  lemma NeighbourExists(h: Heap, q: Id)
    requires Valid(h) && q in h
    ensures Neighbour(h[q]).To? ==> Neighbour(h[q]).id in h
  {
    assert SlotOk(h, q, West, 0);
  }

  /** A queue without a neighbour has no links. */
  lemma NoNeighbour(h: Heap, q: Id, y: Wire)
    requires Valid(h) && q in h && h[q].isQueue && Neighbour(h[q]).Null? && HasWire(h, y)
    ensures !Touches(y, q)
  {
    assert ShapeOk(h[q]);
    WireBothEnds(h, y);
  }

  /** merge_queues */
  method MergeQueues(world: World, q1: Id, q2: Id) returns (ok: bool, ghost mid: Heap, ghost x: Wire)
    requires world.Ok() && q1 in world.heap && q2 in world.heap && q1 != q2
    requires world.heap[q1].isQueue && world.heap[q2].isQueue && world.heap[q1].friend == To(q2)
    modifies world
    ensures world.Ok()
    ensures Separated(old(world.heap), mid, q1, q2)
    ensures ok <==> CanJoin(old(world.heap), mid, q1, q2)
    ensures ok ==> Joined(old(world.heap), mid, world.heap, q1, q2, x)
  {
    hide Valid, HasWire, HasRoom, LinkHeap, Linkable, FirstFree, SameNode;
    ghost var h := world.heap;
    var n1, n2 := Neighbour(world.heap[q1]), Neighbour(world.heap[q2]);
    NeighbourExists(h, q1);
    NeighbourExists(h, q2);
    Separate(world, q1, q2, n1.To?, n2.To?);
    mid := world.heap;
    x := Wire(0, 0, 0, 0);
    if n1.To? && n2.To? {
      ok, x := world.Link(n1, n2);
      if ok {
        LinkSameNodes(mid, x);
      }
    } else {
      ok := true;
    }
  }

  method Separate(world: World, q1: Id, q2: Id, linked1: bool, linked2: bool)
    requires world.Ok() && q1 in world.heap && q2 in world.heap && q1 != q2
    requires world.heap[q1].isQueue && world.heap[q2].isQueue && world.heap[q1].friend == To(q2)
    requires linked1 == Neighbour(world.heap[q1]).To? && linked2 == Neighbour(world.heap[q2]).To?
    modifies world
    ensures world.Ok() && Separated(old(world.heap), world.heap, q1, q2)
  {
    ghost var h := world.heap;
    UnfriendedBoth(h, q1, q2);
    hide Valid, HasWire, Brick.Get, SameNode, Unfriended;
    world.Unfriend(q1);
    ghost var h0 := world.heap;
    UnlinkIf(world, q1, linked1);
    ghost var h1 := world.heap;
    QueueStays(h0, h1, q1, q2);
    UnlinkIf(world, q2, linked2);
    SeparateSteps(h, h0, h1, world.heap, q1, q2);
  }

  /** A linked queue is unlinked; one without a neighbour has nothing to unlink. */
  method UnlinkIf(world: World, q: Id, linked: bool)
    requires world.Ok() && q in world.heap && world.heap[q].isQueue && (Neighbour(world.heap[q]).To? ==> linked)
    modifies world`heap
    ensures world.Ok() && SameNodes(old(world.heap), world.heap) && SameStance(old(world.heap), world.heap)
    ensures forall y :: HasWire(world.heap, y) <==> HasWire(old(world.heap), y) && !Touches(y, q)
  {
    hide Valid, HasWire, Brick.Get;
    Unlinked(world.heap, q);
    if linked {
      world.Unlink(q);
    }
  }

  /** Unlinking one queue gives the other no new neighbour. */
  lemma QueueStays(h: Heap, h': Heap, q1: Id, q2: Id)
    requires Valid(h) && Valid(h') && SameNodes(h, h') && q2 in h && h[q2].isQueue && q1 != q2
    requires forall y :: HasWire(h', y) ==> HasWire(h, y)
    ensures h'[q2].isQueue && (Neighbour(h'[q2]).To? ==> Neighbour(h[q2]).To?)
  {
    assert SameNode(h[q2], h'[q2]);
    if Neighbour(h'[q2]).To? {
      var y := WireAt(h', q2, West, 0);
      SlotHasWire(h', q2, West, 0);
      if Neighbour(h[q2]).Null? { NoNeighbour(h, q2, y); }
    }
  }

  lemma SeparateSteps(h: Heap, h0: Heap, h1: Heap, h2: Heap, q1: Id, q2: Id)
    requires Valid(h2) && h0.Keys == h.Keys && SameNodes(h0, h1) && SameNodes(h1, h2) && SameStance(h0, h1) && SameStance(h1, h2)
    requires forall id :: id in h ==> h0[id] == h[id].(friend := if id == q1 || id == q2 then Null else h[id].friend)
    requires forall y :: HasWire(h0, y) <==> HasWire(h, y)
    requires forall y :: HasWire(h1, y) <==> HasWire(h0, y) && !Touches(y, q1)
    requires forall y :: HasWire(h2, y) <==> HasWire(h1, y) && !Touches(y, q2)
    ensures Separated(h, h2, q1, q2)
  {
    hide HasWire, Valid;
    forall id | id in h
      ensures h2[id].at == h[id].at && SameNode(h[id], h2[id].(friend := h[id].friend))
      ensures h2[id].friend == if id == q1 || id == q2 then Null else h[id].friend
    {
      assert SameNode(h0[id], h1[id]) && SameNode(h1[id], h2[id]);
    }
    hide SameNode, Touches;
  }

  lemma Unlinked(h: Heap, q: Id)
    requires Valid(h) && q in h && h[q].isQueue
    ensures Neighbour(h[q]).Null? ==> forall y :: HasWire(h, y) ==> !Touches(y, q)
  {
    if Neighbour(h[q]).Null? {
      forall y | HasWire(h, y) ensures !Touches(y, q) { NoNeighbour(h, q, y); }
    }
  }

  lemma UnfriendedBoth(h: Heap, q1: Id, q2: Id)
    requires Valid(h) && q1 in h && q2 in h && h[q1].friend == To(q2) && q1 != q2
    ensures Friendly(h, q1) && var h' := Unfriended(h, q1);
            h'.Keys == h.Keys && forall id :: id in h ==> h'[id] == h[id].(friend := if id == q1 || id == q2 then Null else h[id].friend)
  {
    assert FriendOk(h, q1);
  }

  /** The queues of a graph, last listed first. */
  method AllQueues(h: Heap, g: Graph) returns (qs: seq<Id>)
    requires g.Ok(h)
    ensures NoDuplicates(qs)
    ensures forall id :: id in qs <==> id in g.pollable && h[id].isQueue
  {
    qs := [];
    for k := 0 to |g.pollable|
      invariant NoDuplicates(qs)
      invariant forall id :: id in qs <==> id in g.pollable[..k] && h[id].isQueue
    {
      assert g.pollable[k] in g.pollable;
      if h[g.pollable[k]].isQueue {
        qs := [g.pollable[k]] + qs;
      }
    }
    assert g.pollable[..|g.pollable|] == g.pollable;
  }

  /** `q1` of the first list has its friend `q2` on the second. */
  ghost predicate Matched(h: Heap, west: seq<Id>, east: seq<Id>, q1: Id, q2: Id) {
    q1 in west && q2 in east && q1 in h && h[q1].friend == To(q2)
  }

  /** Only friends among the merged queues have changed; links elsewhere are kept. */
  ghost predicate MergedSoFar(h: Heap, h': Heap, dw: seq<Id>, de: seq<Id>) {
    && h'.Keys == h.Keys
    && (forall id :: id in h ==> SameNode(h[id], h'[id].(friend := h[id].friend)))
    && (forall id :: id in h ==> h'[id].friend == if id in dw || id in de then Null else h[id].friend)
    && (forall y :: HasWire(h, y) && (forall q :: Touches(y, q) ==> q !in dw && q !in de) ==> HasWire(h', y))
  }

  ghost predicate AllMerged(h: Heap, west: seq<Id>, east: seq<Id>, dw: seq<Id>, de: seq<Id>) {
    forall q1, q2 {:trigger Matched(h, west, east, q1, q2)} :: Matched(h, west, east, q1, q2) ==> q1 in dw && q2 in de
  }

  /** The lists of merged queues go together. */
  ghost predicate Couples(h: Heap, west: seq<Id>, east: seq<Id>, dw: seq<Id>, de: seq<Id>) {
    && |dw| == |de| && NoDuplicates(dw) && NoDuplicates(de)
    && forall k {:trigger dw[k]} {:trigger de[k]} :: 0 <= k < |dw| ==> Matched(h, west, east, dw[k], de[k])
  }

  /** One merged pair: the heap before it, the heap with both queues taken out, and the link made instead. */
  datatype Join = Join(before: Heap, mid: Heap, x: Wire)

  /** The pairs merged one after the other, the last one first. */
  ghost predicate Chain(h: Heap, h': Heap, dw: seq<Id>, de: seq<Id>, joins: seq<Join>)
    decreases |dw|
  {
    && |dw| == |de| == |joins|
    && if dw == [] then h' == h
       else Chain(h, joins[0].before, dw[1..], de[1..], joins[1..]) && Joined(joins[0].before, joins[0].mid, h', dw[0], de[0], joins[0].x)
  }

  /** A pair could not be merged: in `now`, with the pairs of `dw` and `de` merged, its neighbours cannot be linked. */
  ghost predicate Stuck(h: Heap, now: Heap, west: seq<Id>, east: seq<Id>, dw: seq<Id>, de: seq<Id>, mid: Heap) {
    && Valid(now) && MergedSoFar(h, now, dw, de) && (dw == [] ==> now == h)
    && exists q1, q2 ::
         Matched(h, west, east, q1, q2) && q1 !in dw && Separated(now, mid, q1, q2) && !CanJoin(now, mid, q1, q2)
  }

  lemma FoundStuck(h: Heap, now: Heap, west: seq<Id>, east: seq<Id>, dw: seq<Id>, de: seq<Id>, joins: seq<Join>, mid': Heap, q1: Id, q2: Id)
    requires Matched(h, west, east, q1, q2) && q1 !in dw && Separated(now, mid', q1, q2) && !CanJoin(now, mid', q1, q2)
    requires Valid(now) && MergedSoFar(h, now, dw, de) && Chain(h, now, dw, de, joins)
    ensures Stuck(h, now, west, east, dw, de, mid')
  {
    hide MergedSoFar, Valid, Separated, CanJoin;
    assert dw == [] ==> now == h;
  }

  /** Takes every pair of friends between the two lists out. */
  method MergeAll(world: World, west: seq<Id>, east: seq<Id>)
    returns (ok: bool, dw: seq<Id>, de: seq<Id>, ghost mid: Heap, ghost joins: seq<Join>, ghost now: Heap)
    requires world.Ok() && NoDuplicates(west) && NoDuplicates(east)
    requires forall q :: q in west ==> q in world.heap && world.heap[q].isQueue && q !in east
    requires forall q :: q in east ==> q in world.heap && world.heap[q].isQueue
    modifies world
    ensures world.Ok() && Couples(old(world.heap), west, east, dw, de)
    ensures ok ==> MergedSoFar(old(world.heap), world.heap, dw, de) && Chain(old(world.heap), world.heap, dw, de, joins)
    ensures ok ==> AllMerged(old(world.heap), west, east, dw, de)
    ensures if ok then now == world.heap else Stuck(old(world.heap), now, west, east, dw, de, mid)
  {
    hide Couples, MergedSoFar, Chain, AllMerged, Stuck, NoDuplicates, Valid;
    ghost var h := world.heap;
    dw, de, ok := [], [], true;
    mid, joins, now := h, [], h;
    NothingMerged(h, west, east);
    var i := 0;
    while i < |west|
      invariant 0 <= i <= |west| && world.Ok() && Couples(h, west, east, dw, de)
      invariant MergedSoFar(h, world.heap, dw, de) && Chain(h, world.heap, dw, de, joins)
      invariant forall q :: q in dw ==> q in west[..i]
      invariant AllMerged(h, west[..i], east, dw, de) && now == world.heap
    {
      ok, dw, de, mid, joins := MergeOne(world, h, west, east, i, dw, de, joins);
      now := if ok then world.heap else now;
      if !ok {
        return;
      }
      i := i + 1;
    }
    assert west[..i] == west;
  }

  lemma NothingMerged(h: Heap, west: seq<Id>, east: seq<Id>)
    ensures Couples(h, west, east, [], []) && MergedSoFar(h, h, [], []) && Chain(h, h, [], [], [])
    ensures AllMerged(h, west[..0], east, [], [])
  {
  }

  /** One round of the outer loop: looks for the friend of a queue and merges the two. */
  method MergeOne(world: World, ghost h: Heap, west: seq<Id>, east: seq<Id>, i: nat,
                  dw: seq<Id>, de: seq<Id>, ghost joins: seq<Join>)
    returns (ok: bool, dw': seq<Id>, de': seq<Id>, ghost mid': Heap, ghost joins': seq<Join>)
    requires i < |west| && world.Ok() && Valid(h) && NoDuplicates(west) && NoDuplicates(east)
    requires forall q :: q in west ==> q in h && h[q].isQueue && q !in east
    requires forall q :: q in east ==> q in h && h[q].isQueue
    requires Couples(h, west, east, dw, de) && MergedSoFar(h, world.heap, dw, de) && Chain(h, world.heap, dw, de, joins)
    requires forall q :: q in dw ==> q in west[..i]
    requires AllMerged(h, west[..i], east, dw, de)
    modifies world
    ensures world.Ok() && Couples(h, west, east, dw', de')
    ensures ok ==> MergedSoFar(h, world.heap, dw', de') && Chain(h, world.heap, dw', de', joins')
    ensures ok ==> forall q :: q in dw' ==> q in west[..i + 1]
    ensures ok ==> AllMerged(h, west[..i + 1], east, dw', de')
    ensures !ok ==> Stuck(h, old(world.heap), west, east, dw', de', mid')
  {
    hide Valid, HasWire, SameNode, Joined, CanJoin, NoDuplicates, Couples, Chain;
    dw', de', mid', joins' := dw, de, h, joins;
    var q1 := west[i];
    assert q1 in west;
    NotYet(west, i, dw);
    NotOther(h, west, east, dw, de, q1);
    var j := FriendAmong(world.heap, q1, east);
    if j == |east| {
      ok := true;
      RoundDone(h, west, east, i, dw, de, dw, de);
      return;
    }
    var q2 := east[j];
    assert q2 in east && Matched(h, west, east, q1, q2);
    ghost var before := world.heap;
    StillQueues(h, before, dw, de, q1, q2);
    NewCouple(h, west, east, dw, de, q1, q2);
    hide MergedSoFar;
    ghost var x;
    ok, mid', x := MergeQueues(world, q1, q2);
    if !ok {
      FoundStuck(h, before, west, east, dw, de, joins, mid', q1, q2);
      return;
    }
    dw', de' := [q1] + dw, [q2] + de;
    joins' := [Join(before, mid', x)] + joins;
    JoinedKeeps(h, before, mid', world.heap, dw, de, q1, q2, x);
    RoundDone(h, west, east, i, dw, de, dw', de');
    ChainMore(h, before, world.heap, dw, de, joins, q1, q2, mid', x);
  }

  /** Where the friend of a queue stands in a list. */
  method FriendAmong(h: Heap, q: Id, east: seq<Id>) returns (j: nat)
    requires q in h
    ensures j <= |east| && (j < |east| ==> h[q].friend == To(east[j]))
    ensures j == |east| ==> forall q2 :: q2 in east ==> h[q].friend != To(q2)
  {
    j := 0;
    while j < |east| && h[q].friend != To(east[j])
      invariant 0 <= j <= |east| && forall k :: 0 <= k < j ==> h[q].friend != To(east[k])
    {
      j := j + 1;
    }
  }

  lemma ChainMore(h: Heap, now: Heap, h': Heap, dw: seq<Id>, de: seq<Id>, joins: seq<Join>, q1: Id, q2: Id, mid: Heap, x: Wire)
    requires Chain(h, now, dw, de, joins) && Joined(now, mid, h', q1, q2, x)
    ensures Chain(h, h', [q1] + dw, [q2] + de, [Join(now, mid, x)] + joins)
  {
    hide Joined;
    var more := [Join(now, mid, x)] + joins;
    assert ([q1] + dw)[1..] == dw && ([q2] + de)[1..] == de && more[1..] == joins;
  }

  lemma RoundDone(h: Heap, west: seq<Id>, east: seq<Id>, i: nat, dw: seq<Id>, de: seq<Id>, dw': seq<Id>, de': seq<Id>)
    requires i < |west|
    requires AllMerged(h, west[..i], east, dw, de)
    requires forall q :: q in dw ==> q in west[..i]
    requires forall q2 :: Matched(h, west, east, west[i], q2) ==> west[i] in dw' && q2 in de'
    requires forall q :: q in dw ==> q in dw'
    requires forall q :: q in de ==> q in de'
    requires forall q :: q in dw' ==> q in dw || q == west[i]
    ensures AllMerged(h, west[..i + 1], east, dw', de')
    ensures forall q :: q in dw' ==> q in west[..i + 1]
  {
    var more := west[..i + 1];
    assert more == west[..i] + [west[i]];
    forall q1, q2 | Matched(h, more, east, q1, q2) ensures q1 in dw' && q2 in de' {
      if q1 in west[..i] {
        assert Matched(h, west[..i], east, q1, q2);
      } else {
        assert Matched(h, west, east, west[i], q2);
      }
    }
  }

  /** The queue at hand has not been merged as a first of a pair. */
  lemma NotYet(west: seq<Id>, i: nat, dw: seq<Id>)
    requires i < |west| && NoDuplicates(west) && forall q :: q in dw ==> q in west[..i]
    ensures west[i] !in dw
  {
  }

  lemma NotOther(h: Heap, west: seq<Id>, east: seq<Id>, dw: seq<Id>, de: seq<Id>, q: Id)
    requires Couples(h, west, east, dw, de) && q in west && q !in east
    ensures q !in de
  {
  }

  lemma StillQueues(h: Heap, now: Heap, dw: seq<Id>, de: seq<Id>, q1: Id, q2: Id)
    requires MergedSoFar(h, now, dw, de) && q1 in h && q2 in h && h[q1].isQueue && h[q2].isQueue
    ensures q1 in now && q2 in now && now[q1].isQueue && now[q2].isQueue
  {
    assert SameNode(h[q1], now[q1].(friend := h[q1].friend)) && SameNode(h[q2], now[q2].(friend := h[q2].friend));
  }

  /** Friends are exclusive: the new pair shares no queue with the earlier ones. */
  lemma NewCouple(h: Heap, west: seq<Id>, east: seq<Id>, dw: seq<Id>, de: seq<Id>, q1: Id, q2: Id)
    requires Valid(h) && Couples(h, west, east, dw, de) && Matched(h, west, east, q1, q2) && q1 !in dw
    ensures Couples(h, west, east, [q1] + dw, [q2] + de)
  {
    assert FriendOk(h, q1);
    forall k | 0 <= k < |de| ensures de[k] != q2 {
      assert Matched(h, west, east, dw[k], de[k]) && dw[k] in dw;
      assert FriendOk(h, dw[k]);
    }
  }

  /** Merging one more pair keeps what has been said of the earlier ones. */
  lemma JoinedKeeps(h: Heap, now: Heap, mid: Heap, h': Heap, dw: seq<Id>, de: seq<Id>, q1: Id, q2: Id, x: Wire)
    requires MergedSoFar(h, now, dw, de) && Joined(now, mid, h', q1, q2, x)
    ensures MergedSoFar(h, h', [q1] + dw, [q2] + de)
  {
    hide HasWire, Valid, SameNode;
    var dw', de' := [q1] + dw, [q2] + de;
    forall id | id in h ensures SameNode(h[id], h'[id].(friend := h[id].friend)) && h'[id].friend == mid[id].friend {
      JoinedNode(h[id], now[id], mid[id], h'[id]);
    }
    forall y | HasWire(h, y) && (forall q :: Touches(y, q) ==> q !in dw' && q !in de') ensures HasWire(h', y) {
      assert forall q :: Touches(y, q) ==> q !in dw && q !in de;
      assert HasWire(now, y);
      assert !Touches(y, q1) && !Touches(y, q2);
    }
  }

  lemma JoinedNode(a: Brick, b: Brick, c: Brick, d: Brick)
    requires SameNode(a, b.(friend := a.friend)) && SameNode(b, c.(friend := b.friend)) && (d == c || SameNode(c, d))
    ensures SameNode(a, d.(friend := a.friend)) && d.friend == c.friend
  {
  }

  // ----- getting rid of merged queues

  ghost function Elements(s: seq<Id>): set<Id> { set a | a in s }

  /** `h'` is `h` without the bricks `gone` and their links. */
  ghost predicate Shrunk(h: Heap, h': Heap, gone: set<Id>) {
    && h'.Keys == h.Keys - gone
    && (forall id :: id in h' ==> SameNode(h[id], h'[id]))
    && (forall y :: HasWire(h', y) <==> HasWire(h, y) && y.west !in gone && y.east !in gone)
  }

  lemma GraphShrunk(g: Graph, h: Heap, h': Heap, gone: set<Id>)
    requires g.Ok(h) && Shrunk(h, h', gone) && forall id :: id in gone ==> !g.Member(id)
    ensures g.Ok(h')
  {
    forall n | n in g.all ensures g.all[n] in h' && h'[g.all[n]].name == n {
      assert g.Member(g.all[n]);
    }
  }

  lemma ShrunkMore(h1: Heap, h2: Heap, h3: Heap, gone: set<Id>, q: Id)
    requires Shrunk(h1, h2, gone) && Shrunk(h2, h3, {q})
    ensures Shrunk(h1, h3, gone + {q})
  {
  }

  /** Pops the queues from their graph and destroys them; the other graph is left alone. */
  method DestroyAll(world: World, g: Graph, o: Graph, qs: seq<Id>)
    requires world.Ok() && g != o && g.Ok(world.heap) && o.Ok(world.heap) && NoDuplicates(qs)
    requires forall q :: q in qs ==> g.Member(q) && !o.Member(q) && q in world.heap
    requires forall k :: k in world.heap && world.heap[k].friend.To? ==> world.heap[k].friend.id !in qs
    modifies world, g
    ensures world.Ok() && g.Ok(world.heap) && o.Ok(world.heap)
    ensures Shrunk(old(world.heap), world.heap, Elements(qs))
    ensures forall k :: g.Member(k) <==> old(g.Member(k)) && k !in qs
    ensures g.name == old(g.name)
  {
    hide Valid, HasWire, SameNode, Graph.Ok, Shrunk, Elements, Touches;
    ghost var h := world.heap;
    var i := 0;
    ghost var gone: set<Id> := {};
    ShrunkNot(h);
    while i < |qs|
      invariant 0 <= i <= |qs| && world.Ok() && g.Ok(world.heap) && o.Ok(world.heap) && g.name == old(g.name)
      invariant Shrunk(h, world.heap, gone) && (forall q :: q in gone <==> q in qs[..i])
      invariant forall k :: g.Member(k) <==> old(g.Member(k)) && k !in gone
      invariant forall k :: k in world.heap && world.heap[k].friend.To? ==> world.heap[k].friend.id !in qs
    {
      var q := qs[i];
      NotDone(h, world.heap, gone, qs, i);
      ghost var before := world.heap;
      g.Pop(world.heap, q);
      world.Destroy(q);
      DestroyShrinks(before, world.heap, q, qs);
      GraphShrunk(g, before, world.heap, {q});
      GraphShrunk(o, before, world.heap, {q});
      ShrunkMore(h, before, world.heap, gone, q);
      gone := gone + {q};
      i := i + 1;
    }
    assert qs[..i] == qs;
    AllDone(gone, qs);
  }

  lemma NotDone(h: Heap, now: Heap, gone: set<Id>, qs: seq<Id>, i: nat)
    requires i < |qs| && NoDuplicates(qs) && Shrunk(h, now, gone) && (forall q :: q in gone <==> q in qs[..i])
    ensures qs[i] in qs && qs[i] !in gone && (qs[i] in h ==> qs[i] in now)
    ensures forall q :: q in qs[..i + 1] <==> q in gone || q == qs[i]
  {
    assert qs[..i + 1] == qs[..i] + [qs[i]];
  }

  lemma AllDone(gone: set<Id>, qs: seq<Id>)
    requires forall q :: q in gone <==> q in qs
    ensures gone == Elements(qs)
  {
  }

  lemma ShrunkNot(h: Heap)
    ensures Shrunk(h, h, {})
  {
  }

  lemma DestroyShrinks(h: Heap, h': Heap, q: Id, qs: seq<Id>)
    requires q in qs && h'.Keys == h.Keys - {q}
    requires forall k :: k in h && h[k].friend.To? ==> h[k].friend.id !in qs
    requires forall k :: k in h' ==> SameNode(h[k], h'[k].(friend := h[k].friend))
    requires forall k :: k in h' ==> h'[k].friend == if h[k].friend == To(q) then Null else h[k].friend
    requires forall y :: HasWire(h', y) <==> HasWire(h, y) && !Touches(y, q)
    ensures Shrunk(h, h', {q})
    ensures forall k :: k in h' && h'[k].friend.To? ==> h'[k].friend.id !in qs
  {
    hide HasWire;
    forall k | k in h' ensures SameNode(h[k], h'[k]) && (h'[k].friend.To? ==> h'[k].friend.id !in qs) {
      assert SameNode(h[k], h'[k].(friend := h[k].friend));
    }
  }

  // ----- merge

  /** Nobody is a friend of a merged queue any more. */
  lemma NoFriendsLeft(h: Heap, now: Heap, west: seq<Id>, east: seq<Id>, dw: seq<Id>, de: seq<Id>, k: Id)
    requires Valid(h) && Couples(h, west, east, dw, de) && MergedSoFar(h, now, dw, de) && k in now && now[k].friend.To?
    ensures now[k].friend.id !in dw && now[k].friend.id !in de
  {
    var f := now[k].friend.id;
    assert h[k].friend == To(f) && FriendOk(h, k);
    forall j | 0 <= j < |dw| ensures dw[j] != f && de[j] != f {
      assert Matched(h, west, east, dw[j], de[j]) && FriendOk(h, dw[j]);
      assert dw[j] in dw && de[j] in de;
    }
  }

  lemma GraphSame(g: Graph, h: Heap, h': Heap)
    requires g.Ok(h) && h.Keys == h'.Keys && forall id :: id in h ==> SameNode(h[id], h'[id].(friend := h[id].friend))
    ensures g.Ok(h')
  {
    forall id | id in h ensures h'[id].name == h[id].name && h'[id].polls == h[id].polls {
      assert SameNode(h[id], h'[id].(friend := h[id].friend));
    }
  }

  /** All and only the bricks of `gone` are gone; links elsewhere are as they were, or new. */
  ghost predicate WithoutQueues(h: Heap, h': Heap, gone: set<Id>) {
    && h'.Keys == h.Keys - gone
    && (forall id :: id in h' ==> SameNode(h[id], h'[id].(friend := h[id].friend)))
    && (forall id :: id in h' ==> h'[id].friend == h[id].friend)
    && (forall y :: HasWire(h, y) && y.west !in gone && y.east !in gone ==> HasWire(h', y))
  }

  /** What is left of the links when some bricks are gone. */
  ghost predicate WiresLeft(h: Heap, h': Heap, gone: set<Id>) {
    forall y :: HasWire(h', y) <==> HasWire(h, y) && y.west !in gone && y.east !in gone
  }

  lemma LeftOver(h1: Heap, h2: Heap, h3: Heap, gone: set<Id>, more: set<Id>)
    requires Shrunk(h1, h2, gone) && Shrunk(h2, h3, more)
    ensures WiresLeft(h1, h3, gone + more)
  {
    hide HasWire, SameNode;
  }

  /** The exact outcome when one pair of queues has been merged. */
  ghost predicate PairMerged(h: Heap, h': Heap, q1: Id, q2: Id, x: Wire) {
    && q1 in h && q2 in h
    && (forall y :: HasWire(h', y) <==>
          !Touches(y, q1) && !Touches(y, q2) && (HasWire(h, y) || (ToJoin(h, q1, q2) && y == x)))
    && (ToJoin(h, q1, q2) ==> x.west == Neighbour(h[q1]).id && x.east == Neighbour(h[q2]).id)
  }

  lemma NodesGone(h: Heap, h1: Heap, h2: Heap, h3: Heap, dw: seq<Id>, de: seq<Id>, id: Id)
    requires MergedSoFar(h, h1, dw, de) && Shrunk(h1, h2, Elements(dw)) && Shrunk(h2, h3, Elements(de)) && id in h3
    ensures id in h && SameNode(h[id], h3[id].(friend := h[id].friend)) && h3[id].friend == h[id].friend
  {
    hide HasWire;
    assert SameNode(h1[id], h2[id]) && SameNode(h2[id], h3[id]) && SameNode(h[id], h1[id].(friend := h[id].friend));
  }

  lemma WireStays(h: Heap, h1: Heap, h2: Heap, h3: Heap, dw: seq<Id>, de: seq<Id>, y: Wire)
    requires MergedSoFar(h, h1, dw, de) && Shrunk(h1, h2, Elements(dw)) && Shrunk(h2, h3, Elements(de))
    requires HasWire(h, y) && y.west !in dw && y.west !in de && y.east !in dw && y.east !in de
    ensures HasWire(h3, y)
  {
    hide HasWire, SameNode;
    assert forall q :: Touches(y, q) ==> q !in dw && q !in de;
  }

  lemma AllGone(h: Heap, h1: Heap, h2: Heap, h3: Heap, dw: seq<Id>, de: seq<Id>)
    requires MergedSoFar(h, h1, dw, de) && Shrunk(h1, h2, Elements(dw)) && Shrunk(h2, h3, Elements(de))
    ensures WithoutQueues(h, h3, Elements(dw) + Elements(de))
  {
    assert h3.Keys == h.Keys - (Elements(dw) + Elements(de));
    hide HasWire, SameNode, MergedSoFar, Shrunk;
    forall id | id in h3 ensures SameNode(h[id], h3[id].(friend := h[id].friend)) && h3[id].friend == h[id].friend {
      NodesGone(h, h1, h2, h3, dw, de, id);
    }
    var gone := Elements(dw) + Elements(de);
    forall y | HasWire(h, y) && y.west !in gone && y.east !in gone ensures HasWire(h3, y) {
      WireStays(h, h1, h2, h3, dw, de, y);
    }
  }

  lemma PairGone(h: Heap, h1: Heap, h2: Heap, h3: Heap, q1: Id, q2: Id, mid: Heap, x: Wire)
    requires Joined(h, mid, h1, q1, q2, x) && Shrunk(h1, h2, {q1}) && Shrunk(h2, h3, {q2}) && q1 in h && q2 in h
    ensures PairMerged(h, h3, q1, q2, x)
  {
    hide HasWire, SameNode, Valid, Neighbour;
    forall y ensures HasWire(h3, y) <==>
        !Touches(y, q1) && !Touches(y, q2) && (HasWire(h, y) || (ToJoin(h, q1, q2) && y == x)) {
      assert HasWire(mid, y) <==> HasWire(h, y) && !Touches(y, q1) && !Touches(y, q2);
    }
  }

  /** Destroys the merged queues of both graphs. */
  method DestroyMerged(world: World, gw: Graph, ge: Graph, ghost h: Heap, ghost west: seq<Id>, ghost east: seq<Id>,
                       dw: seq<Id>, de: seq<Id>, ghost joins: seq<Join>)
    requires world.Ok() && gw != ge && gw.Ok(h) && ge.Ok(h) && Valid(h)
    requires Couples(h, west, east, dw, de) && MergedSoFar(h, world.heap, dw, de) && Chain(h, world.heap, dw, de, joins)
    requires forall q :: q in dw ==> gw.Member(q) && !ge.Member(q) && q in h
    requires forall q :: q in de ==> ge.Member(q) && !gw.Member(q) && q in h
    modifies world, gw, ge
    ensures world.Ok() && gw.Ok(world.heap)
    ensures WithoutQueues(h, world.heap, Elements(dw) + Elements(de))
    ensures WiresLeft(old(world.heap), world.heap, Elements(dw) + Elements(de))
    ensures |dw| == 1 ==> PairMerged(h, world.heap, dw[0], de[0], joins[0].x)
    ensures forall k :: gw.Member(k) <==> old(gw.Member(k)) && k !in dw
  {
    hide Valid, Graph.Ok, Couples, NoDuplicates, Graph.Member, PairMerged, WithoutQueues, Joined, Elements, MergedSoFar, Chain, Shrunk, WiresLeft;
    ghost var h1 := world.heap;
    MergedParts(h, h1, west, east, dw, de, joins);
    GraphSame(gw, h, h1);
    GraphSame(ge, h, h1);
    DestroyAll(world, gw, ge, dw);
    ghost var h2 := world.heap;
    StillIn(h1, h2, dw, de);
    ShrunkFriends(h1, h2, dw, de);
    DestroyAll(world, ge, gw, de);
    AllGone(h, h1, h2, world.heap, dw, de);
    LeftOver(h1, h2, world.heap, Elements(dw), Elements(de));
    if |dw| == 1 {
      PairGone(h, h1, h2, world.heap, dw[0], de[0], joins[0].mid, joins[0].x);
    }
  }

  /** What the destruction of the merged queues needs to know. */
  lemma MergedParts(h: Heap, h1: Heap, west: seq<Id>, east: seq<Id>, dw: seq<Id>, de: seq<Id>, joins: seq<Join>)
    requires Valid(h) && Couples(h, west, east, dw, de) && MergedSoFar(h, h1, dw, de) && Chain(h, h1, dw, de, joins)
    ensures h1.Keys == h.Keys && |dw| == |de| == |joins| && NoDuplicates(dw) && NoDuplicates(de)
    ensures forall id :: id in h ==> SameNode(h[id], h1[id].(friend := h[id].friend))
    ensures forall k :: k in h1 && h1[k].friend.To? ==> h1[k].friend.id !in dw && h1[k].friend.id !in de
    ensures |dw| == 1 ==> Elements(dw) == {dw[0]} && Elements(de) == {de[0]} && dw[0] in dw && de[0] in de
    ensures |dw| == 1 ==> Joined(h, joins[0].mid, h1, dw[0], de[0], joins[0].x)
  {
    hide Valid, HasWire, SameNode, Joined;
    forall k | k in h1 && h1[k].friend.To? ensures h1[k].friend.id !in dw && h1[k].friend.id !in de {
      NoFriendsLeft(h, h1, west, east, dw, de, k);
    }
    if |dw| == 1 {
      OneElement(dw);
      OneElement(de);
    }
  }

  lemma OneElement(s: seq<Id>)
    requires |s| == 1
    ensures Elements(s) == {s[0]} && s[0] in s
  {
  }

  lemma StillIn(h: Heap, h': Heap, dw: seq<Id>, de: seq<Id>)
    requires Shrunk(h, h', Elements(dw)) && forall q :: q in de ==> q in h && q !in dw
    ensures forall q :: q in de ==> q in h'
  {
  }

  /**
   What a merge has done: the queues of both graphs, the merged ones with the
   links that replaced them, the heap after the last merge, whether a pair could
   not be merged, and where exploration started.
   */
  datatype MergeLog = MergeLog(west: seq<Id>, east: seq<Id>, dw: seq<Id>, de: seq<Id>, joins: seq<Join>, joined: Heap,
                               mid: Heap, x: Wire, stuck: bool, start: Link)

  ghost predicate MergeDone(h: Heap, h': Heap, m: MergeLog) {
    && |m.dw| == |m.de|
    && AllMerged(h, m.west, m.east, m.dw, m.de)
    && WithoutQueues(h, h', Elements(m.dw) + Elements(m.de))
    && Chain(h, m.joined, m.dw, m.de, m.joins) && WiresLeft(m.joined, h', Elements(m.dw) + Elements(m.de))
    && (|m.dw| == 1 ==> PairMerged(h, h', m.dw[0], m.de[0], m.x))
  }

  /**
   pg_graph_merge: every queue of one graph whose friend is in the other
   disappears together with it, and their neighbours are linked instead.  What
   remains is explored from a brick of the west graph.
   */
  method Merge(world: World, gw: Graph, ge: Graph)
    returns (ok: bool, ghost m: MergeLog)
    requires world.Ok() && gw != ge && gw.Ok(world.heap) && ge.Ok(world.heap)
    requires forall k :: gw.Member(k) ==> !ge.Member(k)
    modifies world, gw, ge
    ensures world.Ok()
    ensures forall q :: q in m.west <==> q in old(gw.pollable) && old(world.heap)[q].isQueue
    ensures forall q :: q in m.east <==> q in old(ge.pollable) && old(world.heap)[q].isQueue
    ensures Couples(old(world.heap), m.west, m.east, m.dw, m.de)
    ensures m.stuck ==> !ok && Stuck(old(world.heap), m.joined, m.west, m.east, m.dw, m.de, m.mid)
    ensures !m.stuck ==> MergeDone(old(world.heap), world.heap, m) && gw.Ok(world.heap)
    ensures !m.stuck && m.start.To? ==>
              && old(gw.Member(m.start.id)) && m.start.id !in m.dw && m.start.id in world.heap
              && (ok <==> UniqueNames(world.heap, m.start.id)) && (ok ==> gw.Holds(world.heap, m.start.id))
    ensures !m.stuck && m.start.Null? ==> ok && gw.all == map[] && forall k :: old(gw.Member(k)) ==> k in m.dw
  {
    hide Valid, Graph.Ok, Couples, UniqueNames, MergeDone, Stuck, Graph.Holds, Graph.Member;
    ok, m := MergeAndDestroy(world, gw, ge);
    if !ok {
      return;
    }
    ge.Empty();
    NoMembers(gw);
    ghost var start;
    ok, start := gw.Explore(world.heap, Null);
    m := m.(start := start);
  }

  /** A merge up to the exploration of what is left. */
  method MergeAndDestroy(world: World, gw: Graph, ge: Graph) returns (ok: bool, ghost m: MergeLog)
    requires world.Ok() && gw != ge && gw.Ok(world.heap) && ge.Ok(world.heap)
    requires forall k :: gw.Member(k) ==> !ge.Member(k)
    modifies world, gw, ge
    ensures world.Ok() && ok == !m.stuck
    ensures forall q :: q in m.west <==> q in old(gw.pollable) && old(world.heap)[q].isQueue
    ensures forall q :: q in m.east <==> q in old(ge.pollable) && old(world.heap)[q].isQueue
    ensures Couples(old(world.heap), m.west, m.east, m.dw, m.de)
    ensures !ok ==> Stuck(old(world.heap), m.joined, m.west, m.east, m.dw, m.de, m.mid)
    ensures ok ==> gw.Ok(world.heap) && forall start :: MergeDone(old(world.heap), world.heap, m.(start := start))
    ensures ok ==> forall k :: gw.Member(k) <==> old(gw.Member(k)) && k !in m.dw
  {
    hide PairMerged, WithoutQueues, AllMerged, WiresLeft, Valid, Graph.Ok, Couples, Chain, MergedSoFar, NoDuplicates, MergeDone, Elements, Stuck, Graph.Member;
    ghost var h := world.heap;
    var qw := AllQueues(world.heap, gw);
    var qe := AllQueues(world.heap, ge);
    QueuesApart(gw, ge, h, qw, qe);
    var lw, le;
    ghost var mid, joins, now;
    ok, lw, le, mid, joins, now := MergeAll(world, qw, qe);
    ghost var x := if joins != [] then joins[0].x else Wire(0, 0, 0, 0);
    m := MergeLog(qw, qe, lw, le, joins, now, mid, x, !ok, Null);
    if ok {
      CouplesParts(h, qw, qe, lw, le);
      ChainLength(h, world.heap, lw, le, joins);
      DestroyMerged(world, gw, ge, h, qw, qe, lw, le, joins);
      MergeIsDone(h, world.heap, m);
    }
  }

  /** The queues of two graphs without a common brick. */
  lemma QueuesApart(gw: Graph, ge: Graph, h: Heap, qw: seq<Id>, qe: seq<Id>)
    requires gw.Ok(h) && ge.Ok(h) && forall k :: gw.Member(k) ==> !ge.Member(k)
    requires forall q :: q in qw ==> q in gw.pollable
    requires forall q :: q in qe ==> q in ge.pollable
    ensures forall q :: q in qw ==> gw.Member(q) && !ge.Member(q) && q in h && q !in qe
    ensures forall q :: q in qe ==> ge.Member(q) && !gw.Member(q) && q in h
  {
    forall q | q in qw ensures gw.Member(q) && q in h { assert q in gw.pollable; }
    forall q | q in qe ensures ge.Member(q) && q in h { assert q in ge.pollable; }
  }

  lemma ChainLength(h: Heap, h': Heap, dw: seq<Id>, de: seq<Id>, joins: seq<Join>)
    requires Chain(h, h', dw, de, joins)
    ensures |dw| == |de| == |joins|
  {
  }

  lemma MergeIsDone(h: Heap, h': Heap, m: MergeLog)
    requires |m.dw| == |m.de| && AllMerged(h, m.west, m.east, m.dw, m.de)
    requires WithoutQueues(h, h', Elements(m.dw) + Elements(m.de))
    requires |m.dw| == 1 ==> PairMerged(h, h', m.dw[0], m.de[0], m.x)
    requires Chain(h, m.joined, m.dw, m.de, m.joins) && WiresLeft(m.joined, h', Elements(m.dw) + Elements(m.de))
    ensures forall s :: MergeDone(h, h', m.(start := s))
  {
  }

  lemma NoMembers(g: Graph)
    ensures g.all == map[] ==> forall k :: !g.Member(k)
  {
  }

  lemma CouplesParts(h: Heap, west: seq<Id>, east: seq<Id>, dw: seq<Id>, de: seq<Id>)
    requires Couples(h, west, east, dw, de)
    ensures |dw| == |de| && NoDuplicates(dw) && NoDuplicates(de)
    ensures forall q :: q in dw ==> q in west
    ensures forall q :: q in de ==> q in east
  {
    forall q | q in dw ensures q in west {
      var k :| 0 <= k < |dw| && dw[k] == q;
      assert Matched(h, west, east, dw[k], de[k]);
    }
    forall q | q in de ensures q in east {
      var k :| 0 <= k < |de| && de[k] == q;
      assert Matched(h, west, east, dw[k], de[k]);
    }
  }

  lemma ShrunkFriends(h: Heap, h': Heap, lw: seq<Id>, le: seq<Id>)
    requires Shrunk(h, h', Elements(lw))
    requires forall k :: k in h && h[k].friend.To? ==> h[k].friend.id !in le
    ensures forall k :: k in h' && h'[k].friend.To? ==> h'[k].friend.id !in le
  {
    forall k | k in h' && h'[k].friend.To? ensures h'[k].friend.id !in le {
      assert SameNode(h[k], h'[k]);
    }
  }
}
