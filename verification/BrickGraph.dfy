/**
 Graphs of bricks: a table of bricks by name with the list of those to poll,
 filled by exploring the links from one brick.
 */
module BrickGraph {

  import opened Bricks
  import opened BrickLinks
  import opened BrickReach

  ghost predicate NoDuplicates(s: seq<Id>) {
    forall i, j :: 0 <= i < j < |s| ==> s[i] != s[j]
  }

  /** A sequence of distinct bricks of the heap is no longer than the heap. */
  lemma {:induction false} DistinctFit(s: seq<Id>, h: set<Id>)
    requires NoDuplicates(s) && forall a :: a in s ==> a in h
    ensures |s| <= |h|
    decreases |s|
  {
    if s != [] {
      var last := s[|s| - 1];
      forall a | a in s[..|s| - 1] ensures a in h - {last} {
        var i :| 0 <= i < |s| - 1 && s[i] == a;
      }
      DistinctFit(s[..|s| - 1], h - {last});
    }
  }

  /** The unseen neighbours of a brick, in front of the list. */
  method AddNeighbours(todo: seq<Id>, done: seq<Id>, h: Heap, b: Id) returns (more: seq<Id>)
    requires Valid(h) && b in h && NoDuplicates(todo) && forall a :: a in todo ==> a in h && a !in done
    ensures NoDuplicates(more)
    ensures forall a :: a in more <==> a in todo || (Adjacent(h, b, a) && a !in done)
    ensures forall a :: a in more ==> a in h && a !in done
  {
    hide SlotOk, ShapeOk, FriendOk, Brick.Get;
    more := todo;
    InBrick(h, b);
    var it := new EdgeIterator(b, h);
    while !it.end
      invariant it.brick == b && it.Sane()
      invariant !it.end ==> Occupied(h[b], it.side, it.edge)
      invariant NoDuplicates(more)
      invariant forall a :: a in todo ==> a in more
      invariant forall a :: a in more ==> a in todo || (Adjacent(h, b, a) && a in h && a !in done)
      invariant forall s: nat, i: nat :: Occupied(h[b], s, i) && (it.end || Before(s, i, it.side, it.edge)) ==>
                  h[b].Get(SideAt(s), i).link.id in more || h[b].Get(SideAt(s), i).link.id in done
      decreases !it.end, 2 - it.side, if it.side < 2 then |h[b].Raw(SideAt(it.side)).edges| - it.edge else 0
    {
      var n := h[b].Get(SideAt(it.side), it.edge).link.id;
      assert Adjacent(h, b, n);
      AdjacentSymmetric(h, b, n);
      if n !in more && n !in done {
        more := [n] + more;
      }
      ghost var s, i := it.side, it.edge;
      it.Next(h);
      InRange(h[b], it.side, it.edge);
    }
    forall a | Adjacent(h, b, a) ensures a in more || a in done {
      var s: SideName, i: nat :| h[b].Get(s, i).link == To(a);
      assert Occupied(h[b], Rank(s), i);
    }
  }

  lemma InRange(b: Brick, s: nat, i: nat)
    ensures Occupied(b, s, i) ==> i < |b.Raw(SideAt(s)).edges|
  {
  }

  /**
   The worklist of pg_graph_explore_ptr: the result is the connected component
   of the start brick, each brick once.  The start brick is only found through
   its neighbours.
   */
  method Component(h: Heap, start: Id) returns (done: seq<Id>)
    requires Valid(h) && start in h
    ensures NoDuplicates(done)
    ensures forall a :: a in done <==> Reaches(h, start, a)
  {
    hide Valid, Adjacent, Reaches;
    done := [];
    var todo := AddNeighbours([], done, h, start);
    ReachSelf(h, start);
    if todo == [] {
      done := [start];
      forall a | Reaches(h, start, a) ensures a in done {
        ClosedReach(h, iset{start}, start, a);
      }
      return;
    }
    ghost var first := todo[0];
    assert first in todo;
    AdjacentSymmetric(h, start, first);
    forall a | a in todo ensures Reaches(h, start, a) { ReachStep(h, start, start, a); }
    while todo != []
      invariant NoDuplicates(todo) && NoDuplicates(done)
      invariant forall a :: a in todo ==> a in h && a !in done
      invariant forall a :: a in done ==> a in h
      invariant forall a :: a in todo || a in done ==> Reaches(h, start, a)
      invariant forall a, b :: a in done && Adjacent(h, a, b) ==> b in done || b in todo
      invariant first in todo || first in done
      invariant |done| <= |h|
      decreases |h| - |done|
    {
      var b := todo[0];
      assert b in todo;
      ghost var seen := done;
      var rest := todo[1..];
      assert forall a :: a in todo <==> a == b || a in rest;
      done := [b] + done;
      DistinctFit(done, h.Keys);
      forall a | Adjacent(h, b, a) ensures Reaches(h, start, a) { ReachStep(h, start, b, a); }
      todo := AddNeighbours(rest, done, h, b);
    }
    assert start in done;
    forall a | Reaches(h, start, a) ensures a in done {
      ClosedReach(h, (iset c | c in done), start, a);
    }
  }

  class Graph {
    var name: string
    var all: map<string, Id>
    var pollable: seq<Id>

    ghost predicate Member(id: Id)
      reads this
    {
      exists n :: n in all && all[n] == id
    }

    /** Bricks are filed under their own name, and the pollable ones are listed once. */
    ghost predicate Ok(h: Heap)
      reads this
    {
      && (forall n :: n in all ==> all[n] in h && h[all[n]].name == n)
      && NoDuplicates(pollable)
      && (forall id :: id in pollable <==> id in h && h[id].polls && h[id].name in all && all[h[id].name] == id)
    }

    /** The graph holds exactly the connected component of `id`. */
    ghost predicate Holds(h: Heap, id: Id)
      reads this
    {
      Ok(h) && forall k :: Member(k) <==> Reaches(h, id, k)
    }

    constructor (name: string)
      ensures this.name == name && all == map[] && pollable == []
    {
      this.name, all, pollable := name, map[], [];
    }

    method Empty()
      modifies this
      ensures all == map[] && pollable == [] && name == old(name)
    {
      all, pollable := map[], [];
    }

    method Get(n: string) returns (b: Link)
      ensures b == if n in all then To(all[n]) else Null
    {
      b := if n in all then To(all[n]) else Null;
    }

    method Push(h: Heap, id: Id) returns (ok: bool)
      requires Ok(h) && id in h
      modifies this
      ensures Ok(h) && name == old(name)
      ensures ok <==> h[id].name !in old(all)
      ensures all == if ok then old(all)[h[id].name := id] else old(all)
    {
      if h[id].name in all {
        return false;
      }
      all := all[h[id].name := id];
      if h[id].polls {
        assert id !in pollable;
        pollable := [id] + pollable;
      }
      ok := true;
    }

    method Pop(h: Heap, id: Id)
      requires Ok(h) && Member(id)
      modifies this
      ensures Ok(h) && name == old(name) && all == old(all) - {h[id].name}
      ensures forall k :: Member(k) <==> old(Member(k)) && k != id
    {
      all := all - {h[id].name};
      if h[id].polls {
        pollable := Removed(pollable, id);
      }
      forall k ensures Member(k) <==> old(Member(k)) && k != id {
        assert old(Member(k)) && k != id ==> h[k].name in all && all[h[k].name] == k;
      }
    }

    /** get_any_brick: the first brick to poll, else any brick. */
    method AnyBrick() returns (b: Link)
      requires forall id :: id in pollable ==> Member(id)
      ensures b.Null? <==> all == map[]
      ensures b.To? ==> Member(b.id)
    {
      if pollable != [] {
        assert pollable[0] in pollable;
        b := To(pollable[0]);
      } else if all != map[] {
        assert all.Keys != {};
        var n :| n in all.Keys;
        b := To(all[n]);
      } else {
        b := Null;
      }
    }

    /**
     pg_graph_explore_ptr: on success the graph holds exactly the connected
     component of the start brick.  It fails only if two bricks of the
     component share a name.
     */
    method Explore(h: Heap, brick: Link) returns (ok: bool, ghost start: Link)
      requires Valid(h) && Ok(h) && (brick.To? ==> brick.id in h)
      modifies this
      ensures Ok(h) && name == old(name)
      ensures start == brick || (brick.Null? && start.To? && old(Member(start.id)))
      ensures start.Null? <==> brick.Null? && old(all) == map[]
      ensures start.Null? ==> ok && all == map[]
      ensures start.To? ==> start.id in h
      ensures start.To? ==> (ok <==> UniqueNames(h, start.id))
      ensures start.To? && ok ==> Holds(h, start.id)
    {
      hide Valid, Reaches;
      var from := brick;
      if from.Null? {
        from := AnyBrick();
        if from.Null? {
          return true, Null;
        }
      }
      start := from;
      Empty();
      var done := Component(h, from.id);
      ReachedExist(h, from.id);
      ok := PushAll(h, done, from.id);
    }

    /** Adds the bricks of a component in order, up to the first name clash. */
    method PushAll(h: Heap, done: seq<Id>, ghost start: Id) returns (ok: bool)
      requires all == map[] && pollable == [] && NoDuplicates(done)
      requires forall a :: a in done ==> a in h
      requires forall a :: a in done <==> Reaches(h, start, a)
      modifies this
      ensures Ok(h) && name == old(name)
      ensures ok <==> UniqueNames(h, start)
      ensures ok ==> Holds(h, start)
    {
      hide Reaches;
      var k := 0;
      while k < |done|
        invariant 0 <= k <= |done| && Ok(h) && name == old(name)
        invariant forall n :: n in all ==> all[n] in done[..k]
        invariant forall a :: a in done[..k] ==> h[a].name in all && all[h[a].name] == a
      {
        assert done[k] in done;
        ok := Push(h, done[k]);
        if !ok {
          Clash(h, done, k, all[h[done[k]].name]);
          assert Reaches(h, start, done[k]) && Reaches(h, start, all[h[done[k]].name]);
          return;
        }
        k := k + 1;
      }
      assert done[..k] == done;
      forall a, b | Reaches(h, start, a) && Reaches(h, start, b) && h[a].name == h[b].name ensures a == b {
        assert a in done && b in done;
      }
      forall a ensures Member(a) <==> Reaches(h, start, a) {
        assert a in done ==> h[a].name in all && all[h[a].name] == a;
      }
      ok := true;
    }
  }

  /** No two bricks of the component share a name. */
  ghost predicate UniqueNames(h: Heap, start: Id) {
    forall a, b {:trigger Reaches(h, start, a), Reaches(h, start, b)} ::
      a in h && b in h && Reaches(h, start, a) && Reaches(h, start, b) && h[a].name == h[b].name ==> a == b
  }

  lemma Clash(h: Heap, done: seq<Id>, k: nat, other: Id)
    requires k < |done| && NoDuplicates(done) && other in done[..k]
    ensures other in done && other != done[k]
  {
    var i :| 0 <= i < k && done[..k][i] == other;
    assert done[i] == other;
  }

  lemma ReachedExist(h: Heap, start: Id)
    requires Valid(h)
    ensures forall a :: Reaches(h, start, a) ==> a in h
  {
    forall a | Reaches(h, start, a) ensures a in h { ReachSymmetric(h, start, a); }
  }

  /** A list without one of its elements. */
  function Removed(s: seq<Id>, id: Id): (r: seq<Id>)
    ensures NoDuplicates(s) ==> NoDuplicates(r) && forall a :: a in r <==> a in s && a != id
  {
    if s == [] then []
    else if s[0] == id then
      assert NoDuplicates(s) ==> forall a :: a in s[1..] ==> a != id;
      s[1..]
    else
      assert NoDuplicates(s) ==> NoDuplicates(s[1..]) && forall a :: a in s[1..] ==> a != s[0];
      var rest := Removed(s[1..], id);
      assert forall i :: 0 <= i < |rest| ==> rest[i] in rest;
      [s[0]] + rest
  }
}
