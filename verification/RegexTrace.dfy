/**
 trace_transitions: the cells reachable from a matched cell without consuming
 a character, each with the largest id met on a way there.

 The walk goes forward as long as it improves the recorded value of a cell and
 otherwise backtracks to the other target of a pending branch.
 */
module RegexTrace {
  import opened RegexSyntax
  import opened RegexGenerator

  /** Cells where a walk stops because they are states of the matcher (their search state is not negative). */
  predicate Stops(c: Tr) {
    c.Tok? && (c.t.Begin? || c.t.End? || c.t.Chr? || c.t.RngStart? || c.t.RngEnd?)
  }

  function Successors(prog: seq<Tr>, n: nat): set<nat>
    requires n < |prog|
  {
    match prog[n]
    case Branch(to) => {n + 1, to}
    case Jump(to) => {to}
    case Tok(_) => if Stops(prog[n]) then {} else {n + 1}
  }

  function IdOf(c: Tr): nat { if c.Tok? && c.t.Id? then c.t.id else 0 }

  function Max(a: nat, b: nat): nat { if a < b then b else a }

  /** No walk leaves the array. */
  predicate Closed(prog: seq<Tr>) {
    forall n :: 0 <= n < |prog| ==> forall m :: m in Successors(prog, n) ==> m < |prog|
  }

  /** A walk of `k` steps from `s` to `n` on which `w` is the largest id. */
  ghost predicate Walk(prog: seq<Tr>, s: nat, n: nat, w: nat, k: nat)
    requires s < |prog|
    decreases k
  {
    if k == 0 then n == s && w == IdOf(prog[s])
    else exists m: nat, v: nat :: WalkStep(prog, m, v, n, w) && Walk(prog, s, m, v, k - 1)
  }

  predicate WalkStep(prog: seq<Tr>, m: nat, v: nat, n: nat, w: nat) {
    m < |prog| && n < |prog| && n in Successors(prog, m) && w == Max(v, IdOf(prog[n]))
  }

  /** Some walk from `s` reaches `n` with largest id `w`. */
  ghost predicate Attained(prog: seq<Tr>, s: nat, n: nat, w: nat)
    requires s < |prog|
  {
    exists k: nat :: Walk(prog, s, n, w, k)
  }

  lemma AttainedStep(prog: seq<Tr>, s: nat, m: nat, v: nat, n: nat, w: nat)
    requires s < |prog| && Attained(prog, s, m, v) && WalkStep(prog, m, v, n, w)
    ensures Attained(prog, s, n, w)
  {
    var k: nat :| Walk(prog, s, m, v, k);
    assert Walk(prog, s, n, w, k + 1);
  }

  /** A branch whose other target has still to be walked, and the id it was passed with. */
  datatype Detour = Detour(id: nat, at: nat)

  // ----- invariants of the walk; `at` and `id` are the cell arrived at and the largest id so far

  /** An arrival at `at` with `id` is justified by a walk. */
  ghost predicate Arrived(prog: seq<Tr>, s: nat, at: nat, id: nat)
    requires s < |prog|
  {
    at < |prog| && Attained(prog, s, at, Max(id, IdOf(prog[at])))
  }

  ghost predicate Sound(prog: seq<Tr>, s: nat, val: seq<int>)
    requires s < |prog|
  {
    |val| == |prog| && forall n :: 0 <= n < |val| ==> val[n] >= -1 && (val[n] >= 0 ==> Attained(prog, s, n, val[n]))
  }

  ghost predicate DepthSound(prog: seq<Tr>, s: nat, depth: seq<Detour>)
    requires s < |prog|
  {
    forall k :: 0 <= k < |depth| ==>
      var e := depth[k]; e.at < |prog| && prog[e.at].Branch? && Attained(prog, s, e.at, e.id)
  }

  /** `n` has received what flows into it from a cell of value `v`. */
  predicate Received(prog: seq<Tr>, val: seq<int>, v: int, n: nat)
    requires |val| == |prog|
  {
    n < |val| && v <= val[n] && IdOf(prog[n]) <= val[n]
  }

  /** The other target of the branch at `m` is still on the depth stack with at least the value of `m`. */
  predicate Postponed(prog: seq<Tr>, depth: seq<Detour>, v: int, m: nat, n: nat)
    requires m < |prog|
  {
    prog[m].Branch? && n == prog[m].to && exists k :: 0 <= k < |depth| && depth[k].at == m && depth[k].id >= v
  }

  /** Every marked cell has passed its value on, except where the walk stands or has postponed a branch. */
  ghost predicate Complete(prog: seq<Tr>, s: nat, val: seq<int>, depth: seq<Detour>, walking: bool, at: nat, id: nat)
    requires |val| == |prog|
  {
    && (Received(prog, val, 0, s) || (walking && at == s))
    && forall m, n :: 0 <= m < |val| && val[m] >= 0 && n in Successors(prog, m) ==>
         Received(prog, val, val[m], n) || (walking && n == at && id >= val[m]) || Postponed(prog, depth, val[m], m, n)
  }

  /** The cells pushed for the code generator: each marked cell once. */
  ghost predicate PushedOnce(val: seq<int>, pushed: seq<nat>) {
    && (forall i, j :: 0 <= i < j < |pushed| ==> pushed[i] != pushed[j])
    && (forall n: nat :: n in pushed <==> n < |val| && val[n] >= 0)
  }

  // ----- termination: values only grow and stay below the largest id

  function Room(val: seq<int>, bound: int): int {
    if val == [] then 0 else Room(val[..|val| - 1], bound) + (bound - val[|val| - 1])
  }

  lemma {:induction false} RoomSet(val: seq<int>, bound: int, n: nat, v: int)
    requires n < |val|
    ensures Room(val[n := v], bound) == Room(val, bound) - (v - val[n])
    decreases |val|
  {
    var front := val[..|val| - 1];
    if n == |val| - 1 {
      assert val[n := v][..|val| - 1] == front;
    } else {
      assert val[n := v][..|val| - 1] == front[n := v];
      RoomSet(front, bound, n, v);
    }
  }

  lemma {:induction false} RoomNonNegative(val: seq<int>, bound: int)
    requires forall n :: 0 <= n < |val| ==> val[n] <= bound
    ensures Room(val, bound) >= 0
  {
    if val != [] {
      RoomNonNegative(val[..|val| - 1], bound);
    }
  }

  function MaxId(prog: seq<Tr>): nat {
    if prog == [] then 0 else Max(MaxId(prog[..|prog| - 1]), IdOf(prog[|prog| - 1]))
  }

  lemma {:induction false} MaxIdBounds(prog: seq<Tr>, n: nat)
    requires n < |prog|
    ensures IdOf(prog[n]) <= MaxId(prog)
  {
    if n < |prog| - 1 {
      MaxIdBounds(prog[..|prog| - 1], n);
    }
  }

  // ----- the steps of the walk

  lemma MarkSound(prog: seq<Tr>, s: nat, val: seq<int>, at: nat, id: nat)
    requires s < |prog| && Sound(prog, s, val) && at < |prog| && Attained(prog, s, at, id)
    ensures Sound(prog, s, val[at := id])
  {
    hide Attained;
  }

  /** A cell that already has the value absorbs the arrival. */
  lemma Absorbed(prog: seq<Tr>, s: nat, val: seq<int>, depth: seq<Detour>, at: nat, id: nat)
    requires |val| == |prog| && at < |prog| && Complete(prog, s, val, depth, true, at, id)
    requires val[at] >= id && val[at] >= IdOf(prog[at])
    ensures Complete(prog, s, val, depth, false, 0, 0)
  {
    hide Postponed, Successors;
  }

  /** Marking a cell satisfies all its predecessors and leaves only its own successors open. */
  lemma Marked(prog: seq<Tr>, s: nat, val: seq<int>, depth: seq<Detour>, at: nat, id: nat,
               depth': seq<Detour>, walking: bool, at': nat)
    requires |val| == |prog| && at < |prog| && Complete(prog, s, val, depth, true, at, id)
    requires val[at] < id && IdOf(prog[at]) <= id
    requires depth' == depth || depth' == depth + [Detour(id, at)]
    requires forall n :: n in Successors(prog, at) ==>
               (walking && n == at') || (depth' == depth + [Detour(id, at)] && prog[at].Branch? && n == prog[at].to)
    ensures Complete(prog, s, val[at := id], depth', walking, at', id)
  {
    hide Successors;
    var val' := val[at := id];
    forall m, n | 0 <= m < |val'| && val'[m] >= 0 && n in Successors(prog, m)
      ensures Received(prog, val', val'[m], n) || (walking && n == at' && id >= val'[m]) || Postponed(prog, depth', val'[m], m, n)
    {
      if m == at {
        if !(walking && n == at') {
          assert depth'[|depth|] == Detour(id, at);
        }
      } else if Postponed(prog, depth, val[m], m, n) {
        var k :| 0 <= k < |depth| && depth[k].at == m && depth[k].id >= val[m];
        assert depth'[k] == depth[k];
      }
    }
  }

  lemma Backtracked(prog: seq<Tr>, s: nat, val: seq<int>, depth: seq<Detour>)
    requires |val| == |prog| && depth != [] && Complete(prog, s, val, depth, false, 0, 0)
    requires depth[|depth| - 1].at < |prog| && prog[depth[|depth| - 1].at].Branch?
    ensures var e := depth[|depth| - 1];
            Complete(prog, s, val, depth[..|depth| - 1], true, prog[e.at].to, e.id)
  {
    hide Successors;
    var e, front := depth[|depth| - 1], depth[..|depth| - 1];
    forall m, n | 0 <= m < |val| && val[m] >= 0 && n in Successors(prog, m)
      ensures Received(prog, val, val[m], n) || (n == prog[e.at].to && e.id >= val[m]) || Postponed(prog, front, val[m], m, n)
    {
      if Postponed(prog, depth, val[m], m, n) {
        var k :| 0 <= k < |depth| && depth[k].at == m && depth[k].id >= val[m];
        if k < |depth| - 1 {
          assert front[k] == depth[k];
        }
      }
    }
  }

  /** With nothing left open, every walk is accounted for. */
  lemma {:induction false} CompleteCovers(prog: seq<Tr>, s: nat, val: seq<int>, n: nat, w: nat, k: nat)
    requires |val| == |prog| && s < |prog| && Complete(prog, s, val, [], false, 0, 0)
    requires Walk(prog, s, n, w, k)
    ensures n < |val| && w <= val[n]
    decreases k
  {
    if k > 0 {
      var m: nat, v: nat :| WalkStep(prog, m, v, n, w) && Walk(prog, s, m, v, k - 1);
      CompleteCovers(prog, s, val, m, v, k - 1);
      assert !Postponed(prog, [], val[m], m, n);
      assert Received(prog, val, val[m], n);
    }
  }

  /** The cell and id with which the walk goes on from a branch, a jump or a passive cell. */
  function Onward(prog: seq<Tr>, at: nat): nat
    requires at < |prog|
  {
    if prog[at].Jump? then prog[at].to else at + 1
  }

  lemma OnwardArrives(prog: seq<Tr>, s: nat, at: nat, id: nat, to: nat)
    requires s < |prog| && at < |prog| && Closed(prog) && to in Successors(prog, at)
    requires Attained(prog, s, at, id)
    ensures Arrived(prog, s, to, id)
  {
    hide Attained;
    AttainedStep(prog, s, at, id, to, Max(id, IdOf(prog[to])));
  }

  lemma PushMarked(val: seq<int>, pushed: seq<nat>, at: nat, id: nat)
    requires PushedOnce(val, pushed) && at < |val|
    ensures PushedOnce(val[at := id], if val[at] < 0 then pushed + [at] else pushed)
  {
    var pushed' := if val[at] < 0 then pushed + [at] else pushed;
    forall n: nat ensures n in pushed' <==> n < |val| && val[at := id][n] >= 0 {
      assert n in pushed <==> n < |val| && val[n] >= 0;
      assert val[at] < 0 ==> (n in pushed' <==> n in pushed || n == at);
    }
  }

  /** The state of the loop. */
  ghost predicate Inv(prog: seq<Tr>, s: nat, val: seq<int>, depth: seq<Detour>, at: nat, id: nat, pushed: seq<nat>) {
    && s < |prog|
    && Sound(prog, s, val)
    && DepthSound(prog, s, depth)
    && Arrived(prog, s, at, id)
    && Complete(prog, s, val, depth, true, at, id)
    && PushedOnce(val, pushed)
    && Bounded(prog, val, depth, id)
  }

  predicate Bounded(prog: seq<Tr>, val: seq<int>, depth: seq<Detour>, id: nat) {
    && id <= MaxId(prog)
    && (forall n :: 0 <= n < |val| ==> val[n] <= MaxId(prog))
    && (forall k :: 0 <= k < |depth| ==> depth[k].id <= MaxId(prog))
  }

  /** What the trace establishes: exactly the closure, with the largest ids, each cell pushed once. */
  ghost predicate Traced(prog: seq<Tr>, s: nat, val: seq<int>, pushed: seq<nat>) {
    && s < |prog| && |val| == |prog|
    && (forall n, w: nat :: 0 <= n < |prog| && Attained(prog, s, n, w) ==> w <= val[n])
    && (forall n :: 0 <= n < |prog| && val[n] >= 0 ==> Attained(prog, s, n, val[n]))
    && PushedOnce(val, pushed)
  }

  lemma TraceDone(prog: seq<Tr>, s: nat, val: seq<int>, pushed: seq<nat>)
    requires s < |prog| && Sound(prog, s, val) && PushedOnce(val, pushed)
    requires Complete(prog, s, val, [], false, 0, 0)
    ensures Traced(prog, s, val, pushed)
  {
    hide Complete;
    forall n, w: nat | 0 <= n < |prog| && Attained(prog, s, n, w) ensures w <= val[n] {
      var k: nat :| Walk(prog, s, n, w, k);
      CompleteCovers(prog, s, val, n, w, k);
    }
  }

  lemma StartInv(prog: seq<Tr>, s: nat, val: seq<int>)
    requires |val| == |prog| && s < |prog| && forall n :: 0 <= n < |val| ==> val[n] == -1
    ensures Inv(prog, s, val, [], s, 0, [])
  {
    assert Walk(prog, s, s, IdOf(prog[s]), 0);
  }

  lemma RoomOk(prog: seq<Tr>, val: seq<int>, depth: seq<Detour>, id: nat)
    requires Bounded(prog, val, depth, id)
    ensures Room(val, MaxId(prog)) >= 0
  {
    RoomNonNegative(val, MaxId(prog));
  }

  /** Taking the id of the cell arrived at into account. */
  lemma IdKept(prog: seq<Tr>, s: nat, val: seq<int>, depth: seq<Detour>, at: nat, id: nat, pushed: seq<nat>)
    requires Inv(prog, s, val, depth, at, id, pushed)
    ensures var id' := Max(id, IdOf(prog[at]));
            Inv(prog, s, val, depth, at, id', pushed) && Attained(prog, s, at, id') && id' <= MaxId(prog)
  {
    hide Attained, Successors, Postponed, PushedOnce, MaxId;
    MaxIdBounds(prog, at);
  }

  lemma Forward(prog: seq<Tr>, s: nat, val: seq<int>, depth: seq<Detour>, at: nat, id: nat, pushed: seq<nat>)
    requires Inv(prog, s, val, depth, at, id, pushed) && Attained(prog, s, at, id) && Closed(prog)
    requires val[at] < id && IdOf(prog[at]) <= id && !Stops(prog[at])
    ensures var depth' := if prog[at].Branch? then depth + [Detour(id, at)] else depth;
            var pushed' := if val[at] == -1 then pushed + [at] else pushed;
            Inv(prog, s, val[at := id], depth', Onward(prog, at), id, pushed')
  {
    hide Attained, Complete, PushedOnce, MaxId, Closed;
    var depth' := if prog[at].Branch? then depth + [Detour(id, at)] else depth;
    MarkSound(prog, s, val, at, id);
    Marked(prog, s, val, depth, at, id, depth', true, Onward(prog, at));
    OnwardArrives(prog, s, at, id, Onward(prog, at));
    PushMarked(val, pushed, at, id);
  }

  /** A cell of the matcher: the walk stops there. */
  lemma Halted(prog: seq<Tr>, s: nat, val: seq<int>, depth: seq<Detour>, at: nat, id: nat, pushed: seq<nat>)
    requires Inv(prog, s, val, depth, at, id, pushed) && Attained(prog, s, at, id)
    requires val[at] < id && IdOf(prog[at]) <= id && Stops(prog[at])
    ensures var pushed' := if val[at] == -1 then pushed + [at] else pushed;
            && Sound(prog, s, val[at := id])
            && Complete(prog, s, val[at := id], depth, false, 0, 0)
            && PushedOnce(val[at := id], pushed')
            && Bounded(prog, val[at := id], depth, id)
  {
    hide Attained, Complete, PushedOnce, MaxId;
    MarkSound(prog, s, val, at, id);
    Marked(prog, s, val, depth, at, id, depth, false, 0);
    StillComplete(prog, s, val[at := id], depth, id);
    PushMarked(val, pushed, at, id);
  }

  lemma StillComplete(prog: seq<Tr>, s: nat, val: seq<int>, depth: seq<Detour>, id: nat)
    requires |val| == |prog| && Complete(prog, s, val, depth, false, 0, id)
    ensures Complete(prog, s, val, depth, false, 0, 0)
  {
    hide Successors, Postponed, Received;
  }

  lemma Back(prog: seq<Tr>, s: nat, val: seq<int>, depth: seq<Detour>, pushed: seq<nat>, id: nat)
    requires s < |prog| && depth != [] && Closed(prog)
    requires Sound(prog, s, val) && DepthSound(prog, s, depth) && PushedOnce(val, pushed) && Bounded(prog, val, depth, id)
    requires Complete(prog, s, val, depth, false, 0, 0)
    ensures var e := depth[|depth| - 1];
            && e.at < |prog| && prog[e.at].Branch?
            && Inv(prog, s, val, depth[..|depth| - 1], prog[e.at].to, e.id, pushed)
  {
    hide Attained, Complete, PushedOnce, MaxId, Closed;
    var e := depth[|depth| - 1];
    Backtracked(prog, s, val, depth);
    OnwardArrives(prog, s, e.at, e.id, prog[e.at].to);
  }

  /**
   Terminates on every closed graph of branches and jumps, loops included; the
   cells with a value are then exactly those some walk reaches, and the value is
   the maximum over all walks of the largest id met.
   */
  method TraceTransitions(prog: seq<Tr>, from: nat, val: array<int>) returns (pushed: seq<nat>)
    requires val.Length == |prog| && from + 1 < |prog| && Closed(prog)
    requires forall n :: 0 <= n < val.Length ==> val[n] == -1
    modifies val
    ensures Traced(prog, from + 1, val[..], pushed)
  {
    hide Attained, Complete, Sound, DepthSound, Successors, PushedOnce, Closed, Traced, MaxId, Room, Bounded;
    var at: nat, id: nat := from + 1, 0;
    ghost var s: nat := from + 1;
    var depth: seq<Detour> := [];
    pushed := [];
    StartInv(prog, s, val[..]);
    while true
      invariant Inv(prog, s, val[..], depth, at, id, pushed)
      decreases Room(val[..], MaxId(prog)), |depth|
    {
      ghost var v0, pushed0 := val[..], pushed;
      RoomOk(prog, v0, depth, id);
      IdKept(prog, s, v0, depth, at, id, pushed);
      id := Max(id, IdOf(prog[at]));
      if val[at] < id {
        if val[at] == -1 {
          pushed := pushed + [at];
        }
        val[at] := id;
        assert val[..] == v0[at := id];
        RoomSet(v0, MaxId(prog), at, id);
        if !Stops(prog[at]) {
          var at' := Onward(prog, at);
          var depth' := if prog[at].Branch? then depth + [Detour(id, at)] else depth;
          Forward(prog, s, v0, depth, at, id, pushed0);
          at, depth := at', depth';
          continue;
        }
        Halted(prog, s, v0, depth, at, id, pushed0);
      } else {
        Absorbed(prog, s, v0, depth, at, id);
      }
      if depth == [] {
        TraceDone(prog, s, val[..], pushed);
        return;
      }
      var e := depth[|depth| - 1];
      Back(prog, s, val[..], depth, pushed, id);
      at, id, depth := prog[e.at].to, e.id, depth[..|depth| - 1];
    }
  }

  // ----- generated programs are closed

  /** Every branch and jump of `block` stays at or below `limit`. */
  predicate TargetsUpTo(block: seq<Tr>, limit: nat) {
    forall k :: 0 <= k < |block| ==> (block[k].Branch? || block[k].Jump? ==> block[k].to <= limit)
  }

  lemma {:induction false} ItemTargets(x: Item, q: nat)
    ensures TargetsUpTo(EmitItem(x, q), q)
    decreases x
  {
    match x
    case Group(y) => AltTargets(y, q);
    case Opt(i) => ItemTargets(i, q);
    case Plus(i) => ItemTargets(i, Prev(q));
    case Star(i) => ItemTargets(i, Prev(q));
    case Mark(i, _) => ItemTargets(i, Prev(q));
    case Repeat(i, _, _) => ItemTargets(i, q);
    case _ =>
  }

  lemma {:induction false} CatTargets(x: Cat, q: nat)
    ensures TargetsUpTo(EmitCat(x, q), q)
    decreases x
  {
    if x.Snoc? {
      ItemTargets(x.last, q);
      CatTargets(x.front, Start(EmitItem(x.last, q), q));
    }
  }

  lemma {:induction false} AltTargets(x: Alt, q: nat)
    ensures TargetsUpTo(EmitAlt(x, q), q) && TargetsUpTo(EmitChoice(x, q), q)
    decreases x
  {
    if x.One? {
      CatTargets(x.c, q);
    } else {
      var r := EmitAlt(x.rest, q);
      AltTargets(x.rest, q);
      CatTargets(x.c, Prev(Start(r, q)));
      assert ExitOf(x.rest, q) <= q;
      assert EmitChoice(x, q) == EmitCat(x.c, Prev(Start(r, q))) + [Jump(ExitOf(x.rest, q))] + r;
      assert TargetsUpTo(EmitChoice(x, q), q);
      assert EmitAlt(x, q) == [Branch(Start(r, q))] + EmitChoice(x, q);
    }
  }

  /** Every generated program can be traced from each of its cells. */
  lemma ProgramClosed(x: Alt, size: nat)
    requires |EmitProgram(x, size)| == size
    ensures Closed(EmitProgram(x, size))
  {
    var prog := EmitProgram(x, size);
    AltTargets(x, Prev(size));
    forall n | 0 <= n < |prog| ensures forall m :: m in Successors(prog, n) ==> m < |prog| {
      if n == |prog| - 1 {
        assert Stops(prog[n]);
      } else if n > 0 {
        assert prog[n] == EmitAlt(x, Prev(size))[n - 1];
      }
    }
  }
}
