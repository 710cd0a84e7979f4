/**
 The three optimizer passes of bpfjit over the per-instruction data array.

   1. reachability, jump lists and use-before-initialisation analysis (forward)
   2. hoisting of array bounds checks (backward)
   3. removal of redundant bounds checks (forward)

 Each pass is a loop that updates the array in place.  What a pass guarantees
 is stated as a predicate over the finished array; BpfJit draws the
 conclusions about executions.
 */
module BpfOptimizer {
  import opened Bpf

  const BPF_MEMWORDS: nat := 16

  /** Largest length the bounds-check analysis distinguishes (width is at most 4). */
  const MAX_ABC_LENGTH: nat := UINT32_MAX + 4

  /** `extwords` is 0 when memory words live on the stack of the generated function. */
  datatype Config = Config(extwords: nat, preinited: set<nat>) {
    function Memwords(): nat { if extwords != 0 then extwords else BPF_MEMWORDS }
  }

  /** A register or memory word whose initialisation is tracked. */
  datatype Cell = A | X | M(k: nat)

  datatype InsnData = InsnData(
    bjumps: seq<nat>,        // reachable jump instructions that lead here
    abcLength: nat,          // jumps and packet reads, set by pass 2
    checkedLength: nat,      // jumps, set by pass 3
    checkLength: nat,        // packet reads, set by pass 3; 0 means no check
    invalid: set<Cell>,
    unreachable: bool)

  function AllCells(memwords: nat): set<Cell> {
    {A, X} + set k | 0 <= k < memwords :: M(k)
  }

  /** Cells an instruction reads, as the analysis sees it. */
  function Uses(i: Insn): set<Cell> {
    match i
    case LdMem(k) => {M(k)}
    case LdInd(_, _) => {X}
    case LdxMem(k) => {M(k)}
    case St(_) => {A}
    case Stx(_) => {X}
    case Alu(_, src, _) => if src == FromX then {A, X} else {A}
    case Neg => {A}
    case Ja(_) => {A}
    case Jmp(_, src, _, _, _) => if src == FromX then {A, X} else {A}
    case RetA => {A}
    case Tax => {A}
    case Txa => {X}
    case _ => {}
  }

  /** Cells an instruction overwrites. */
  function Defines(i: Insn): set<Cell> {
    match i
    case LdImm(_) => {A}
    case LdMem(_) => {A}
    case LdLen => {A}
    case LdAbs(_, _) => {A}
    case LdInd(_, _) => {A}
    case LdxImm(_) => {X}
    case LdxMem(_) => {X}
    case LdxLen => {X}
    case LdxMsh(_) => {X}
    case St(k) => {M(k)}
    case Stx(k) => {M(k)}
    case Alu(_, _, _) => {A}
    case Neg => {A}
    case Tax => {X}
    case Txa => {A}
    case _ => {}
  }

  predicate TooWide(i: Insn) { i.ReadsPacket() && i.SafeLength() > UINT32_MAX }

  /** Where control can go after instruction `i`; a read beyond 2^32 always returns. */
  function Successors(prog: Program, i: nat): (t: set<nat>)
    requires i < |prog|
    ensures forall j :: j in t ==> i < j
  {
    var insn := prog[i];
    if insn.IsRet() || TooWide(insn) then {}
    else if insn.IsJump() then {i + 1 + insn.JumpTrue(), i + 1 + insn.JumpFalse()}
    else {i + 1}
  }

  /** Some path of successors leads from instruction 0 to `i`. */
  ghost predicate HasPath(prog: Program, i: nat)
    requires i < |prog|
  {
    i == 0 || exists r: nat :: r < i && i in Successors(prog, r) && HasPath(prog, r)
  }

  // ----- what the passes establish

  predicate Live(d: seq<InsnData>, i: nat) { i < |d| && !d[i].unreachable }

  ghost predicate JumpsInRange(prog: Program, d: seq<InsnData>)
    requires |d| == |prog|
  {
    forall i :: 0 <= i < |prog| && Live(d, i) && prog[i].IsJump() ==>
      i + 1 + prog[i].JumpTrue() < |prog| && i + 1 + prog[i].JumpFalse() < |prog|
  }

  predicate IsJumpTo(prog: Program, d: seq<InsnData>, r: nat, j: nat)
    requires |d| == |prog|
  {
    r < |prog| && Live(d, r) && prog[r].IsJump() && j in Successors(prog, r)
  }

  /** Jump lists hold exactly the reachable jumps to each instruction. */
  ghost predicate JumpListsExact(prog: Program, d: seq<InsnData>)
    requires |d| == |prog|
  {
    forall j, r: nat :: 0 <= j < |prog| ==> (r in d[j].bjumps <==> IsJumpTo(prog, d, r, j))
  }

  ghost predicate ReachabilityExact(prog: Program, d: seq<InsnData>)
    requires |d| == |prog|
  {
    forall i :: 0 <= i < |prog| ==> (Live(d, i) <==> HasPath(prog, i))
  }

  /** `inv[i]` over-approximates the cells not yet written when control reaches `i`. */
  ghost predicate InitFlow(cfg: Config, prog: Program, d: seq<InsnData>, inv: seq<set<Cell>>, initmask: set<Cell>)
    requires |d| == |prog|
  {
    && |inv| == |prog|
    && (|prog| > 0 ==> AllCells(cfg.Memwords()) <= inv[0])
    && (forall i :: 0 <= i < |prog| && Live(d, i) ==> Uses(prog[i]) * inv[i] <= initmask)
    && (forall i, j :: 0 <= i < |prog| && Live(d, i) && j in Successors(prog, i) && j < |prog| ==>
          inv[i] - Defines(prog[i]) <= inv[j])
  }

  ghost predicate Pass1Done(cfg: Config, prog: Program, d: seq<InsnData>, initmask: set<Cell>)
  {
    && |d| == |prog|
    && JumpsInRange(prog, d)
    && JumpListsExact(prog, d)
    && ReachabilityExact(prog, d)
    && exists inv :: InitFlow(cfg, prog, d, inv, initmask)
  }

  // ----- optimize_init

  method OptimizeInit(dat: array<InsnData>)
    modifies dat
    ensures forall i :: 0 <= i < dat.Length ==> dat[i].bjumps == [] && dat[i].invalid == {}
  {
    for i := 0 to dat.Length
      invariant forall j :: 0 <= j < i ==> dat[j].bjumps == [] && dat[j].invalid == {}
    {
      dat[i] := dat[i].(bjumps := [], invalid := {});
    }
  }

  // ----- optimize_pass1

  /** The jump lists hold exactly the reachable jumps among the first `i` instructions. */
  ghost predicate ListsBefore(prog: Program, d: seq<InsnData>, i: nat)
    requires |d| == |prog|
  {
    forall j, r: nat :: 0 <= j < |prog| ==> (r in d[j].bjumps <==> r < i && IsJumpTo(prog, d, r, j))
  }

  /** The cells uninitialised after a finished instruction are accounted for at its successors. */
  ghost predicate FlowBefore(prog: Program, d: seq<InsnData>, i: nat, inv: seq<set<Cell>>)
    requires |d| == |prog| == |inv| && i <= |prog|
  {
    && (forall r, j :: 0 <= r < i && Live(d, r) && j in Successors(prog, r) && j < i ==>
          inv[r] - Defines(prog[r]) <= inv[j])
    && (forall r, j :: 0 <= r < i && Live(d, r) && prog[r].IsJump() && j in Successors(prog, r) && i <= j < |prog| ==>
          inv[r] <= d[j].invalid)
  }

  /** How control and the variables `invalid` and `unreachable` arrive at `i`. */
  ghost predicate Carried(cfg: Config, prog: Program, d: seq<InsnData>, i: nat,
                          inv: seq<set<Cell>>, invalid: set<Cell>, unreachable: bool)
    requires |d| == |prog| == |inv| && i <= |prog|
  {
    if i == 0 then !unreachable && AllCells(cfg.Memwords()) <= invalid
    else
      && AllCells(cfg.Memwords()) <= inv[0]
      && (Live(d, i - 1) && !prog[i - 1].IsJump() && i in Successors(prog, i - 1) ==>
            !unreachable && inv[i - 1] - Defines(prog[i - 1]) <= invalid)
      && (!unreachable ==> Live(d, i - 1) && i in Successors(prog, i - 1))
  }

  /** The finished marks are exact, finished jumps stay inside, and their uses are recorded. */
  ghost predicate MarksBefore(prog: Program, d: seq<InsnData>, i: nat, inv: seq<set<Cell>>, initmask: set<Cell>)
    requires |d| == |prog| == |inv| && i <= |prog|
  {
    && (forall r :: 0 <= r < i && Live(d, r) ==> Uses(prog[r]) * inv[r] <= initmask)
    && (forall r :: 0 <= r < i && Live(d, r) && prog[r].IsJump() ==>
          r + 1 + prog[r].JumpTrue() < |prog| && r + 1 + prog[r].JumpFalse() < |prog|)
    && (forall r :: 0 <= r < i ==> (Live(d, r) <==> HasPath(prog, r)))
  }

  /** Everything pass 1 knows about the instructions before `i`. */
  ghost predicate Pass1Before(cfg: Config, prog: Program, d: seq<InsnData>, i: nat,
                              inv: seq<set<Cell>>, initmask: set<Cell>, invalid: set<Cell>, unreachable: bool)
  {
    && |d| == |prog| == |inv| && i <= |prog|
    && MarksBefore(prog, d, i, inv, initmask)
    && ListsBefore(prog, d, i)
    && FlowBefore(prog, d, i, inv)
    && Carried(cfg, prog, d, i, inv, invalid, unreachable)
  }

  /** A reachable predecessor of `i` is on its jump list or falls through into it. */
  lemma Arrives(cfg: Config, prog: Program, d: seq<InsnData>, i: nat,
                inv: seq<set<Cell>>, initmask: set<Cell>, invalid: set<Cell>, unreachable: bool, r: nat)
    requires r < i < |prog|
    requires Pass1Before(cfg, prog, d, i, inv, initmask, invalid, unreachable)
    requires Live(d, r) && i in Successors(prog, r)
    ensures !unreachable || d[i].bjumps != []
    ensures inv[r] - Defines(prog[r]) <= invalid + d[i].invalid
  {
    if prog[r].IsJump() {
      assert IsJumpTo(prog, d, r, i);
      assert r in d[i].bjumps;
    } else {
      assert r == i - 1;
    }
  }

  /** What is known before `i` also decides whether `i` is reachable. */
  lemma Pass1Here(cfg: Config, prog: Program, d: seq<InsnData>, i: nat,
                  inv: seq<set<Cell>>, initmask: set<Cell>, invalid: set<Cell>, unreachable: bool)
    requires i < |prog|
    requires Pass1Before(cfg, prog, d, i, inv, initmask, invalid, unreachable)
    ensures HasPath(prog, i) <==> !unreachable || d[i].bjumps != []
    ensures forall r :: 0 <= r < i && Live(d, r) && i in Successors(prog, r) ==>
              inv[r] - Defines(prog[r]) <= invalid + d[i].invalid
  {
    forall r | 0 <= r < i && Live(d, r) && i in Successors(prog, r)
      ensures !unreachable || d[i].bjumps != []
      ensures inv[r] - Defines(prog[r]) <= invalid + d[i].invalid
    {
      Arrives(cfg, prog, d, i, inv, initmask, invalid, unreachable, r);
    }
    if unreachable && d[i].bjumps == [] {
      forall r: nat | r < i && i in Successors(prog, r) ensures !HasPath(prog, r) {}
    } else if d[i].bjumps != [] {
      var r := d[i].bjumps[0];
      assert r in d[i].bjumps;
      assert IsJumpTo(prog, d, r, i) && HasPath(prog, r);
    } else if i > 0 {
      assert HasPath(prog, i - 1);
    }
  }

  lemma Pass1Skip(cfg: Config, prog: Program, d: seq<InsnData>, i: nat,
                  inv: seq<set<Cell>>, initmask: set<Cell>, invalid: set<Cell>)
    requires i < |prog|
    requires Pass1Before(cfg, prog, d, i, inv, initmask, invalid, true)
    requires d[i].bjumps == []
    ensures Pass1Before(cfg, prog, d[i := d[i].(unreachable := true)], i + 1, inv, initmask, invalid, true)
  {
    var d' := d[i := d[i].(unreachable := true)];
    Pass1Here(cfg, prog, d, i, inv, initmask, invalid, true);
    forall r | 0 <= r < i ensures Live(d', r) == Live(d, r) {}
    forall r | 0 <= r < i && Live(d, r) ensures i !in Successors(prog, r) {
      assert HasPath(prog, r);
    }
    MarkLists(prog, d, i, true);
  }

  /** Marking `i` changes no jump list, and a plain instruction adds to none. */
  lemma MarkLists(prog: Program, d: seq<InsnData>, i: nat, mark: bool)
    requires |d| == |prog| && i < |prog|
    requires mark || !prog[i].IsJump()
    requires ListsBefore(prog, d, i)
    ensures ListsBefore(prog, d[i := d[i].(unreachable := mark)], i + 1)
  {
    var d' := d[i := d[i].(unreachable := mark)];
    forall j, r: nat | 0 <= j < |prog|
      ensures r in d'[j].bjumps <==> r < i + 1 && IsJumpTo(prog, d', r, j)
    {
      assert r < i ==> IsJumpTo(prog, d', r, j) == IsJumpTo(prog, d, r, j);
    }
  }

  lemma PlainFlow(prog: Program, d: seq<InsnData>, i: nat, inv: seq<set<Cell>>, now: set<Cell>)
    requires |d| == |prog| == |inv| && i < |prog| && !prog[i].IsJump()
    requires FlowBefore(prog, d, i, inv)
    requires forall r :: 0 <= r < i && Live(d, r) && i in Successors(prog, r) ==> inv[r] - Defines(prog[r]) <= now
    ensures FlowBefore(prog, d[i := d[i].(unreachable := false)], i + 1, inv[i := now])
  {
    var d' := d[i := d[i].(unreachable := false)];
    forall r | 0 <= r < i ensures Live(d', r) == Live(d, r) {}
  }

  lemma NextMark(prog: Program, d: seq<InsnData>, d': seq<InsnData>, i: nat, inv: seq<set<Cell>>, initmask: set<Cell>, now: set<Cell>)
    requires |d| == |prog| == |inv| == |d'| && i < |prog|
    requires MarksBefore(prog, d, i, inv, initmask)
    requires forall r :: 0 <= r < i ==> d'[r].unreachable == d[r].unreachable
    requires HasPath(prog, i) && !d'[i].unreachable
    requires prog[i].IsJump() ==> i + 1 + prog[i].JumpTrue() < |prog| && i + 1 + prog[i].JumpFalse() < |prog|
    ensures MarksBefore(prog, d', i + 1, inv[i := now], initmask + Uses(prog[i]) * now)
  {
    hide HasPath, Uses;
    forall r | 0 <= r < i + 1
      ensures Live(d', r) <==> HasPath(prog, r)
      ensures Live(d', r) ==> Uses(prog[r]) * inv[i := now][r] <= initmask + Uses(prog[i]) * now
      ensures Live(d', r) && prog[r].IsJump() ==>
                r + 1 + prog[r].JumpTrue() < |prog| && r + 1 + prog[r].JumpFalse() < |prog|
    {
      if r < i {
        assert Live(d', r) == Live(d, r);
      }
    }
  }

  lemma Pass1Plain(cfg: Config, prog: Program, d: seq<InsnData>, i: nat,
                   inv: seq<set<Cell>>, initmask: set<Cell>, invalid: set<Cell>, unreachable: bool)
    requires i < |prog| && !prog[i].IsJump()
    requires Pass1Before(cfg, prog, d, i, inv, initmask, invalid, unreachable)
    requires !unreachable || d[i].bjumps != []
    ensures var now := invalid + d[i].invalid;
            Pass1Before(cfg, prog, d[i := d[i].(unreachable := false)], i + 1, inv[i := now],
                        initmask + Uses(prog[i]) * now, now - Defines(prog[i]),
                        prog[i].IsRet() || TooWide(prog[i]))
  {
    var d', now := d[i := d[i].(unreachable := false)], invalid + d[i].invalid;
    Pass1Here(cfg, prog, d, i, inv, initmask, invalid, unreachable);
    MarkLists(prog, d, i, false);
    PlainFlow(prog, d, i, inv, now);
    NextMark(prog, d, d', i, inv, initmask, now);
    assert Carried(cfg, prog, d', i + 1, inv[i := now], now - Defines(prog[i]), prog[i].IsRet() || TooWide(prog[i]));
  }

  /** `d'` is `d` after a jump at `i` has put itself on the lists of its targets. */
  ghost predicate JumpAdded(d: seq<InsnData>, d': seq<InsnData>, i: nat, jt: nat, jf: nat, invalid: set<Cell>)
  {
    && |d'| == |d| && i < jt < |d| && i < jf < |d|
    && (forall j :: 0 <= j < |d| && j != i ==> d'[j].unreachable == d[j].unreachable && d'[j].abcLength == d[j].abcLength)
    && !d'[i].unreachable && d'[i].abcLength == MAX_ABC_LENGTH
    && (forall j :: 0 <= j < |d| ==> d'[j].bjumps == if j == jt || j == jf then [i] + d[j].bjumps else d[j].bjumps)
    && (forall j :: 0 <= j < |d| ==> d'[j].invalid == if j == jt || j == jf then d[j].invalid + invalid else d[j].invalid)
  }

  lemma JumpListsGrow(prog: Program, d: seq<InsnData>, d': seq<InsnData>, i: nat, jt: nat, jf: nat, invalid: set<Cell>)
    requires |d| == |prog| && JumpAdded(d, d', i, jt, jf, invalid)
    requires prog[i].IsJump() && Successors(prog, i) == {jt, jf}
    requires ListsBefore(prog, d, i)
    ensures ListsBefore(prog, d', i + 1)
  {
    forall j, r: nat | 0 <= j < |prog|
      ensures r in d'[j].bjumps <==> r < i + 1 && IsJumpTo(prog, d', r, j)
    {
      assert r < i ==> IsJumpTo(prog, d', r, j) == IsJumpTo(prog, d, r, j);
      assert IsJumpTo(prog, d', i, j) <==> j == jt || j == jf;
    }
  }

  lemma JumpFlow(prog: Program, d: seq<InsnData>, d': seq<InsnData>, i: nat, inv: seq<set<Cell>>,
                 jt: nat, jf: nat, now: set<Cell>)
    requires |d| == |prog| == |inv| && JumpAdded(d, d', i, jt, jf, now)
    requires prog[i].IsJump() && Successors(prog, i) == {jt, jf}
    requires FlowBefore(prog, d, i, inv)
    requires forall r :: 0 <= r < i && Live(d, r) && i in Successors(prog, r) ==> inv[r] - Defines(prog[r]) <= now
    ensures FlowBefore(prog, d', i + 1, inv[i := now])
  {
    forall r | 0 <= r < i ensures Live(d', r) == Live(d, r) {}
  }

  lemma Pass1Jump(cfg: Config, prog: Program, d: seq<InsnData>, d': seq<InsnData>, i: nat,
                  inv: seq<set<Cell>>, initmask: set<Cell>, invalid: set<Cell>, unreachable: bool, jt: nat, jf: nat)
    requires i < |prog| && prog[i].IsJump() && Successors(prog, i) == {jt, jf}
    requires jt == i + 1 + prog[i].JumpTrue() < |prog| && jf == i + 1 + prog[i].JumpFalse() < |prog|
    requires Pass1Before(cfg, prog, d, i, inv, initmask, invalid, unreachable)
    requires !unreachable || d[i].bjumps != []
    requires JumpAdded(d, d', i, jt, jf, invalid + d[i].invalid)
    ensures var now := invalid + d[i].invalid;
            Pass1Before(cfg, prog, d', i + 1, inv[i := now],
                        initmask + Uses(prog[i]) * now, {}, jt > i + 1 && jf > i + 1)
  {
    hide HasPath, Uses;
    var now := invalid + d[i].invalid;
    Pass1Here(cfg, prog, d, i, inv, initmask, invalid, unreachable);
    JumpListsGrow(prog, d, d', i, jt, jf, now);
    JumpFlow(prog, d, d', i, inv, jt, jf, now);
    NextMark(prog, d, d', i, inv, initmask, now);
    assert Carried(cfg, prog, d', i + 1, inv[i := now], {}, jt > i + 1 && jf > i + 1);
  }

  lemma Pass1Start(cfg: Config, prog: Program, d: seq<InsnData>, inv: seq<set<Cell>>)
    requires |d| == |prog| == |inv|
    requires forall i :: 0 <= i < |d| ==> d[i].bjumps == [] && d[i].invalid == {}
    ensures Pass1Before(cfg, prog, d, 0, inv, {}, AllCells(cfg.Memwords()), false)
    ensures AbcPrimed(prog, d, 0)
  {
  }

  lemma Pass1End(cfg: Config, prog: Program, d: seq<InsnData>,
                 inv: seq<set<Cell>>, initmask: set<Cell>, invalid: set<Cell>, unreachable: bool)
    requires Pass1Before(cfg, prog, d, |prog|, inv, initmask, invalid, unreachable)
    ensures Pass1Done(cfg, prog, d, initmask)
    ensures !JumpsOut(prog)
  {
    forall j, r: nat | 0 <= j < |prog| ensures r in d[j].bjumps <==> IsJumpTo(prog, d, r, j) {}
    assert InitFlow(cfg, prog, d, inv, initmask);
    forall i | 0 <= i < |prog| && HasPath(prog, i) && prog[i].IsJump()
      ensures i + 1 + prog[i].JumpTrue() < |prog| && i + 1 + prog[i].JumpFalse() < |prog|
    {
      assert Live(d, i);
    }
  }

  /** Some instruction control can reach jumps outside the program. */
  ghost predicate JumpsOut(prog: Program) {
    exists i :: 0 <= i < |prog| && HasPath(prog, i) && prog[i].IsJump() &&
      (i + 1 + prog[i].JumpTrue() >= |prog| || i + 1 + prog[i].JumpFalse() >= |prog|)
  }

  // ----- the initialisation mask

  /** The walk of pass 1 hands what is unwritten after `r` on to `i`: over a jump, or in program order
      past instructions control cannot reach, a return included. */
  ghost predicate Feeds(prog: Program, r: nat, i: nat)
    requires r < i < |prog|
  {
    if prog[r].IsJump() then i in Successors(prog, r) else Adjoins(prog, r, i)
  }

  /** Control reaches no instruction between `r` and `i`. */
  ghost predicate Adjoins(prog: Program, r: nat, i: nat)
    requires r < i <= |prog|
  {
    forall k: nat :: r < k < i ==> !HasPath(prog, k)
  }

  /** The walk still counts `c` as unwritten when it comes to the reachable instruction `i`. */
  ghost predicate Pending(prog: Program, i: nat, c: Cell)
    requires i < |prog|
    decreases i, 0
  {
    HasPath(prog, i) && (i == 0 || exists r: nat :: r < i && Feeds(prog, r, i) && PendingAfter(prog, r, c))
  }

  ghost predicate PendingAfter(prog: Program, r: nat, c: Cell)
    requires r < |prog|
    decreases r, 1
  {
    c !in Defines(prog[r]) && Pending(prog, r, c)
  }

  /** Some path of successors leads from instruction 0 to `i` and writes `c` nowhere. */
  ghost predicate Unwritten(prog: Program, i: nat, c: Cell)
    requires i < |prog|
  {
    i == 0 || exists r: nat :: r < i && i in Successors(prog, r) && c !in Defines(prog[r]) && Unwritten(prog, r, c)
  }

  /** An instruction before `n` reads `c` while it is pending. */
  ghost predicate ReadPending(prog: Program, n: nat, c: Cell) {
    exists r: nat :: r < n && r < |prog| && c in Uses(prog[r]) && Pending(prog, r, c)
  }

  /** `initmask` holds exactly the cells that some instruction before `n` reads while they are pending. */
  ghost predicate MaskExact(cfg: Config, prog: Program, n: nat, initmask: set<Cell>) {
    forall c :: c in initmask <==> c in AllCells(cfg.Memwords()) && ReadPending(prog, n, c)
  }

  ghost predicate JumpBrings(prog: Program, n: nat, j: nat, c: Cell) {
    exists r: nat :: r < n && r < |prog| && prog[r].IsJump() && j in Successors(prog, r) && Pending(prog, r, c)
  }

  ghost predicate WalkBrings(prog: Program, i: nat, c: Cell)
    requires i <= |prog|
  {
    i == 0 || exists r: nat :: r < i && !prog[r].IsJump() && Adjoins(prog, r, i) && PendingAfter(prog, r, c)
  }

  /** The variable `invalid` and the sets left at jump targets, in terms of what is pending. */
  ghost predicate BroughtBefore(cfg: Config, prog: Program, d: seq<InsnData>, i: nat, invalid: set<Cell>)
    requires |d| == |prog| && i <= |prog|
  {
    && (forall c :: c in invalid <==> c in AllCells(cfg.Memwords()) && WalkBrings(prog, i, c))
    && (forall j, c :: i <= j < |prog| ==> (c in d[j].invalid <==> c in AllCells(cfg.Memwords()) && JumpBrings(prog, i, j, c)))
  }

  ghost predicate PendingBefore(cfg: Config, prog: Program, d: seq<InsnData>, i: nat, initmask: set<Cell>, invalid: set<Cell>) {
    && |d| == |prog| && i <= |prog|
    && BroughtBefore(cfg, prog, d, i, invalid)
    && MaskExact(cfg, prog, i, initmask)
  }

  /** What the walk brings to a reachable instruction is what is pending there. */
  lemma PendingHere(cfg: Config, prog: Program, d: seq<InsnData>, i: nat, invalid: set<Cell>, c: Cell)
    requires |d| == |prog| && i < |prog| && HasPath(prog, i)
    requires BroughtBefore(cfg, prog, d, i, invalid)
    ensures c in invalid + d[i].invalid <==> c in AllCells(cfg.Memwords()) && Pending(prog, i, c)
  {
    hide HasPath, Adjoins, Successors, Defines;
    if JumpBrings(prog, i, i, c) {
      var r: nat :| r < i && prog[r].IsJump() && i in Successors(prog, r) && Pending(prog, r, c);
      JumpDefinesNothing(prog, r);
      assert Feeds(prog, r, i) && PendingAfter(prog, r, c);
    }
    if WalkBrings(prog, i, c) && i > 0 {
      var r: nat :| r < i && !prog[r].IsJump() && Adjoins(prog, r, i) && PendingAfter(prog, r, c);
      assert Feeds(prog, r, i);
    }
    if Pending(prog, i, c) && i > 0 {
      var r: nat :| r < i && Feeds(prog, r, i) && PendingAfter(prog, r, c);
      assert if prog[r].IsJump() then JumpBrings(prog, i, i, c) else WalkBrings(prog, i, c);
    }
  }

  lemma JumpDefinesNothing(prog: Program, r: nat)
    requires r < |prog| && prog[r].IsJump()
    ensures Defines(prog[r]) == {}
  {
  }

  /** Recording what `i` reads keeps the mask exact. */
  lemma MaskGrows(cfg: Config, prog: Program, d: seq<InsnData>, i: nat, initmask: set<Cell>, invalid: set<Cell>)
    requires i < |prog| && HasPath(prog, i) && PendingBefore(cfg, prog, d, i, initmask, invalid)
    ensures MaskExact(cfg, prog, i + 1, initmask + Uses(prog[i]) * (invalid + d[i].invalid))
  {
    hide HasPath, Uses, Pending, AllCells, BroughtBefore;
    var now := invalid + d[i].invalid;
    forall c ensures c in initmask + Uses(prog[i]) * now <==> c in AllCells(cfg.Memwords()) && ReadPending(prog, i + 1, c) {
      PendingHere(cfg, prog, d, i, invalid, c);
      assert ReadPending(prog, i + 1, c) <==> ReadPending(prog, i, c) || (c in Uses(prog[i]) && Pending(prog, i, c));
    }
  }

  lemma WalkStart(cfg: Config, prog: Program, d: seq<InsnData>)
    requires |d| == |prog|
    requires forall i :: 0 <= i < |d| ==> d[i].invalid == {}
    ensures PendingBefore(cfg, prog, d, 0, {}, AllCells(cfg.Memwords()))
  {
  }

  /** The walk passes an instruction control cannot reach without noticing. */
  lemma WalkPasses(prog: Program, i: nat, c: Cell)
    requires i < |prog| && !HasPath(prog, i)
    ensures WalkBrings(prog, i + 1, c) <==> WalkBrings(prog, i, c)
    ensures forall j :: JumpBrings(prog, i + 1, j, c) <==> JumpBrings(prog, i, j, c)
    ensures ReadPending(prog, i + 1, c) <==> ReadPending(prog, i, c)
  {
    hide HasPath, Pending, PendingAfter, Successors, Uses;
    NotPending(prog, i, c);
    forall r: nat, n: nat | r < i && n == i + 1 ensures Adjoins(prog, r, n) <==> Adjoins(prog, r, i) {}
  }

  lemma NotPending(prog: Program, i: nat, c: Cell)
    requires i < |prog| && !HasPath(prog, i)
    ensures i > 0 && !Pending(prog, i, c) && !PendingAfter(prog, i, c)
  {
  }

  lemma WalkSkip(cfg: Config, prog: Program, d: seq<InsnData>, i: nat, initmask: set<Cell>, invalid: set<Cell>)
    requires i < |prog| && !HasPath(prog, i) && PendingBefore(cfg, prog, d, i, initmask, invalid)
    ensures PendingBefore(cfg, prog, d[i := d[i].(unreachable := true)], i + 1, initmask, invalid)
  {
    hide HasPath, WalkBrings, JumpBrings, ReadPending, AllCells;
    forall c
      ensures WalkBrings(prog, i + 1, c) <==> WalkBrings(prog, i, c)
      ensures forall j :: JumpBrings(prog, i + 1, j, c) <==> JumpBrings(prog, i, j, c)
      ensures ReadPending(prog, i + 1, c) <==> ReadPending(prog, i, c)
    {
      WalkPasses(prog, i, c);
    }
  }

  /** Nothing before the reachable instruction `i` is handed past it. */
  lemma WalkStops(prog: Program, i: nat, c: Cell)
    requires i < |prog| && HasPath(prog, i)
    ensures WalkBrings(prog, i + 1, c) <==> !prog[i].IsJump() && PendingAfter(prog, i, c)
  {
    var n := i + 1;
    forall r: nat | r < i ensures !Adjoins(prog, r, n) {}
    assert Adjoins(prog, i, n);
  }

  lemma WalkPlain(cfg: Config, prog: Program, d: seq<InsnData>, i: nat, initmask: set<Cell>, invalid: set<Cell>)
    requires i < |prog| && !prog[i].IsJump() && HasPath(prog, i) && PendingBefore(cfg, prog, d, i, initmask, invalid)
    ensures var now := invalid + d[i].invalid;
            PendingBefore(cfg, prog, d[i := d[i].(unreachable := false)], i + 1, initmask + Uses(prog[i]) * now, now - Defines(prog[i]))
  {
    hide HasPath, Uses, Pending, Defines, Successors, AllCells, WalkBrings, MaskExact;
    MaskGrows(cfg, prog, d, i, initmask, invalid);
    forall c ensures c in invalid + d[i].invalid - Defines(prog[i]) <==> c in AllCells(cfg.Memwords()) && WalkBrings(prog, i + 1, c) {
      PendingHere(cfg, prog, d, i, invalid, c);
      WalkStops(prog, i, c);
    }
    forall j, c ensures JumpBrings(prog, i + 1, j, c) <==> JumpBrings(prog, i, j, c) {}
  }

  lemma WalkJump(cfg: Config, prog: Program, d: seq<InsnData>, d': seq<InsnData>, i: nat,
                    initmask: set<Cell>, invalid: set<Cell>, jt: nat, jf: nat)
    requires i < |prog| && prog[i].IsJump() && Successors(prog, i) == {jt, jf} && HasPath(prog, i)
    requires PendingBefore(cfg, prog, d, i, initmask, invalid)
    requires JumpAdded(d, d', i, jt, jf, invalid + d[i].invalid)
    ensures PendingBefore(cfg, prog, d', i + 1, initmask + Uses(prog[i]) * (invalid + d[i].invalid), {})
  {
    hide HasPath, Uses, Pending, Successors, AllCells, WalkBrings, MaskExact;
    MaskGrows(cfg, prog, d, i, initmask, invalid);
    var n := i + 1;
    forall c ensures !WalkBrings(prog, n, c) {
      WalkStops(prog, i, c);
    }
    forall j, c | i < j < |prog|
      ensures c in d'[j].invalid <==> c in AllCells(cfg.Memwords()) && JumpBrings(prog, i + 1, j, c)
    {
      PendingHere(cfg, prog, d, i, invalid, c);
      assert JumpBrings(prog, i + 1, j, c) <==> JumpBrings(prog, i, j, c) || (j in {jt, jf} && Pending(prog, i, c));
    }
  }

  /** A cell that some path leaves unwritten is pending, so reading it puts it into the mask. */
  lemma {:induction false} UnwrittenIsPending(prog: Program, i: nat, c: Cell)
    requires i < |prog| && Unwritten(prog, i, c)
    ensures Pending(prog, i, c)
    decreases i
  {
    if i > 0 {
      var r: nat :| r < i && i in Successors(prog, r) && c !in Defines(prog[r]) && Unwritten(prog, r, c);
      UnwrittenIsPending(prog, r, c);
      assert Feeds(prog, r, i) && PendingAfter(prog, r, c);
    }
  }

  /** Control stops at `r` and yet reaches a later instruction. */
  ghost predicate CodeAfterStop(prog: Program) {
    exists r: nat, i: nat :: r < i < |prog| && Successors(prog, r) == {} && HasPath(prog, r) && HasPath(prog, i)
  }

  /** With no code after a return the two notions agree. */
  lemma {:induction false} PendingIsUnwritten(prog: Program, i: nat, c: Cell)
    requires i < |prog| && Pending(prog, i, c) && !CodeAfterStop(prog)
    ensures Unwritten(prog, i, c)
    decreases i
  {
    hide HasPath, Pending, PendingAfter, Defines;
    if i > 0 {
      var r := PendingFrom(prog, i, c);
      assert Successors(prog, r) != {};
      if !prog[r].IsJump() && r + 1 < i {
        PathStep(prog, r, r + 1);
      }
      PendingIsUnwritten(prog, r, c);
    }
  }

  lemma PendingFrom(prog: Program, i: nat, c: Cell) returns (r: nat)
    requires 0 < i < |prog| && Pending(prog, i, c)
    ensures r < i && Feeds(prog, r, i) && c !in Defines(prog[r]) && Pending(prog, r, c)
    ensures HasPath(prog, r) && HasPath(prog, i)
  {
    r :| r < i && Feeds(prog, r, i) && PendingAfter(prog, r, c);
    assert Pending(prog, r, c);
  }

  /** Writes word 0 before a jump over a return. */
  function WrittenThenRead(): Program {
    [Jmp(Jeq, FromK, 0, 2, 0), St(0), Ja(1), RetK(0), LdMem(0), RetA]
  }

  lemma WrittenThenReadFlow()
    ensures var prog := WrittenThenRead();
            && Successors(prog, 0) == {3, 1} && Successors(prog, 1) == {2} && Successors(prog, 2) == {4}
            && Successors(prog, 3) == {}
            && HasPath(prog, 0) && HasPath(prog, 1) && HasPath(prog, 2) && HasPath(prog, 3) && HasPath(prog, 4)
  {
    hide HasPath;
    var prog := WrittenThenRead();
    PathStep(prog, 0, 1);
    PathStep(prog, 1, 2);
    PathStep(prog, 0, 3);
    PathStep(prog, 2, 4);
  }

  lemma PathStep(prog: Program, r: nat, i: nat)
    requires r < i < |prog| && i in Successors(prog, r)
    requires r == 0 || HasPath(prog, r)
    ensures HasPath(prog, r) && HasPath(prog, i)
  {
  }

  lemma PendingStep(prog: Program, r: nat, i: nat, c: Cell)
    requires r < i < |prog| && HasPath(prog, i) && Feeds(prog, r, i) && PendingAfter(prog, r, c)
    ensures Pending(prog, i, c)
  {
  }

  /** Past a return they can differ: word 0 is written on the only path to instruction 4, and still put into the mask. */
  lemma KeptPastReturn()
    ensures var prog := WrittenThenRead();
            Pending(prog, 4, M(0)) && !Unwritten(prog, 4, M(0)) && M(0) in Uses(prog[4]) && CodeAfterStop(prog)
  {
    hide HasPath, Successors, Pending, Unwritten;
    var prog := WrittenThenRead();
    WrittenThenReadFlow();
    assert Pending(prog, 0, M(0)) by {
      FirstPending(prog, M(0));
    }
    PendingStep(prog, 0, 3, M(0));
    PendingStep(prog, 3, 4, M(0));
    OnlyAfterStore(prog);
  }

  lemma FirstPending(prog: Program, c: Cell)
    requires |prog| > 0
    ensures Pending(prog, 0, c)
  {
  }

  lemma OnlyAfterStore(prog: Program)
    requires prog == WrittenThenRead()
    ensures !Unwritten(prog, 4, M(0))
  {
    assert forall r: nat :: r < 2 && 2 in Successors(prog, r) ==> r == 1;
    assert forall r: nat :: r < 4 && 4 in Successors(prog, r) ==> r == 2;
    assert !Unwritten(prog, 2, M(0));
  }

  /** The part of the loop body for a reachable instruction that is not a jump. */
  method VisitPlain(cfg: Config, prog: Program, dat: array<InsnData>, i: nat, initmask: set<Cell>, invalid: set<Cell>,
                    ghost inv: seq<set<Cell>>, ghost unreachable: bool)
    returns (initmask': set<Cell>, invalid': set<Cell>, unreachable': bool, ghost inv': seq<set<Cell>>)
    requires dat.Length == |prog| && i < |prog| && !prog[i].IsJump()
    requires !unreachable || dat[i].bjumps != []
    requires Pass1Before(cfg, prog, dat[..], i, inv, initmask, invalid, unreachable)
    requires PendingBefore(cfg, prog, dat[..], i, initmask, invalid)
    modifies dat
    ensures Pass1Before(cfg, prog, dat[..], i + 1, inv', initmask', invalid', unreachable')
    ensures PendingBefore(cfg, prog, dat[..], i + 1, initmask', invalid')
    ensures AbcPrimed(prog, old(dat[..]), i) ==> AbcPrimed(prog, dat[..], i + 1)
  {
    hide HasPath, PendingBefore;
    Pass1Plain(cfg, prog, dat[..], i, inv, initmask, invalid, unreachable);
    Pass1Here(cfg, prog, dat[..], i, inv, initmask, invalid, unreachable);
    WalkPlain(cfg, prog, dat[..], i, initmask, invalid);
    inv' := inv[i := invalid + dat[i].invalid];
    dat[i] := dat[i].(unreachable := false);
    assert dat[..] == old(dat[..])[i := old(dat[i]).(unreachable := false)];
    unreachable' := prog[i].IsRet() || TooWide(prog[i]);
    invalid' := invalid + dat[i].invalid;
    initmask' := initmask + Uses(prog[i]) * invalid';
    invalid' := invalid' - Defines(prog[i]);
  }

  /** The part of the loop body for a reachable jump whose targets are in range. */
  method VisitJump(cfg: Config, prog: Program, dat: array<InsnData>, i: nat, initmask: set<Cell>, invalid: set<Cell>,
                   jt: nat, jf: nat, ghost inv: seq<set<Cell>>, ghost unreachable: bool)
    returns (initmask': set<Cell>, invalid': set<Cell>, unreachable': bool, ghost inv': seq<set<Cell>>)
    requires dat.Length == |prog| && i < |prog| && prog[i].IsJump()
    requires jt == i + 1 + prog[i].JumpTrue() < |prog| && jf == i + 1 + prog[i].JumpFalse() < |prog|
    requires !unreachable || dat[i].bjumps != []
    requires Pass1Before(cfg, prog, dat[..], i, inv, initmask, invalid, unreachable)
    requires PendingBefore(cfg, prog, dat[..], i, initmask, invalid)
    modifies dat
    ensures Pass1Before(cfg, prog, dat[..], i + 1, inv', initmask', invalid', unreachable')
    ensures PendingBefore(cfg, prog, dat[..], i + 1, initmask', invalid')
    ensures AbcPrimed(prog, old(dat[..]), i) ==> AbcPrimed(prog, dat[..], i + 1)
  {
    hide HasPath, PendingBefore;
    var now := invalid + dat[i].invalid;
    inv' := inv[i := now];
    Pass1Here(cfg, prog, dat[..], i, inv, initmask, invalid, unreachable);
    RecordJump(dat, i, jt, jf, now);
    Pass1Jump(cfg, prog, old(dat[..]), dat[..], i, inv, initmask, invalid, unreachable, jt, jf);
    WalkJump(cfg, prog, old(dat[..]), dat[..], i, initmask, invalid, jt, jf);
    initmask', invalid', unreachable' := initmask + Uses(prog[i]) * now, {}, jt > i + 1 && jf > i + 1;
  }

  /** Puts the reachable jump at `i` on the lists of its two targets. */
  method RecordJump(dat: array<InsnData>, i: nat, jt: nat, jf: nat, invalid: set<Cell>)
    requires i < jt < dat.Length && i < jf < dat.Length
    modifies dat
    ensures JumpAdded(old(dat[..]), dat[..], i, jt, jf, invalid)
  {
    dat[i] := dat[i].(unreachable := false, abcLength := MAX_ABC_LENGTH);
    dat[jt] := dat[jt].(bjumps := [i] + dat[jt].bjumps);
    if jf != jt {
      dat[jf] := dat[jf].(bjumps := [i] + dat[jf].bjumps);
    }
    dat[jf] := dat[jf].(invalid := dat[jf].invalid + invalid);
    dat[jt] := dat[jt].(invalid := dat[jt].invalid + invalid);
  }

  /** The part of the loop body for an instruction control cannot reach. */
  method VisitUnreachable(cfg: Config, prog: Program, dat: array<InsnData>, i: nat, ghost initmask: set<Cell>, ghost invalid: set<Cell>,
                          ghost inv: seq<set<Cell>>)
    requires dat.Length == |prog| && i < |prog| && dat[i].bjumps == []
    requires Pass1Before(cfg, prog, dat[..], i, inv, initmask, invalid, true)
    requires PendingBefore(cfg, prog, dat[..], i, initmask, invalid)
    modifies dat
    ensures Pass1Before(cfg, prog, dat[..], i + 1, inv, initmask, invalid, true)
    ensures PendingBefore(cfg, prog, dat[..], i + 1, initmask, invalid)
    ensures AbcPrimed(prog, old(dat[..]), i) ==> AbcPrimed(prog, dat[..], i + 1)
  {
    hide HasPath, PendingBefore;
    Pass1Skip(cfg, prog, dat[..], i, inv, initmask, invalid);
    Pass1Here(cfg, prog, dat[..], i, inv, initmask, invalid, true);
    WalkSkip(cfg, prog, dat[..], i, initmask, invalid);
    dat[i] := dat[i].(unreachable := true);
    assert dat[..] == old(dat[..])[i := old(dat[i]).(unreachable := true)];
  }

  /** One turn of the loop; fails at a reachable jump out of the program. */
  method VisitInsn(cfg: Config, prog: Program, dat: array<InsnData>, i: nat, initmask: set<Cell>, invalid: set<Cell>,
                   unreachable: bool, ghost inv: seq<set<Cell>>)
    returns (ok: bool, initmask': set<Cell>, invalid': set<Cell>, unreachable': bool, ghost inv': seq<set<Cell>>)
    requires dat.Length == |prog| && i < |prog|
    requires Pass1Before(cfg, prog, dat[..], i, inv, initmask, invalid, unreachable)
    requires PendingBefore(cfg, prog, dat[..], i, initmask, invalid)
    modifies dat
    ensures ok ==> Pass1Before(cfg, prog, dat[..], i + 1, inv', initmask', invalid', unreachable')
    ensures ok ==> PendingBefore(cfg, prog, dat[..], i + 1, initmask', invalid')
    ensures ok && AbcPrimed(prog, old(dat[..]), i) ==> AbcPrimed(prog, dat[..], i + 1)
    ensures !ok ==> JumpsOut(prog)
  {
    ok, initmask', invalid', unreachable', inv' := true, initmask, invalid, unreachable, inv;
    if unreachable && dat[i].bjumps == [] {
      VisitUnreachable(cfg, prog, dat, i, initmask, invalid, inv);
      return;
    }
    if !prog[i].IsJump() {
      initmask', invalid', unreachable', inv' := VisitPlain(cfg, prog, dat, i, initmask, invalid, inv, unreachable);
      return;
    }
    var jt, jf := prog[i].JumpTrue(), prog[i].JumpFalse();
    if jt >= |prog| - (i + 1) || jf >= |prog| - (i + 1) {
      Pass1Here(cfg, prog, dat[..], i, inv, initmask, invalid, unreachable);
      ok := false;
      return;
    }
    initmask', invalid', unreachable', inv' :=
      VisitJump(cfg, prog, dat, i, initmask, invalid, i + 1 + jt, i + 1 + jf, inv, unreachable);
  }

  /** Fails exactly when a reachable jump leaves the program. */
  method OptimizePass1(cfg: Config, prog: Program, dat: array<InsnData>) returns (ok: bool, initmask: set<Cell>)
    requires dat.Length == |prog|
    requires forall i :: 0 <= i < |prog| ==> dat[i].bjumps == [] && dat[i].invalid == {}
    modifies dat
    ensures ok <==> !JumpsOut(prog)
    ensures ok ==> Pass1Done(cfg, prog, dat[..], initmask) && MaskExact(cfg, prog, |prog|, initmask)
    ensures ok ==> AbcPrimed(prog, dat[..], |prog|)
  {
    hide MarksBefore, ListsBefore, FlowBefore, AbcPrimed, Pass1Done, BroughtBefore, MaskExact;
    ok, initmask := true, {};
    var unreachable := false;
    var invalid := AllCells(cfg.Memwords());
    ghost var inv := seq(|prog|, _ => {});
    Pass1Start(cfg, prog, dat[..], inv);
    WalkStart(cfg, prog, dat[..]);
    for i := 0 to |prog|
      invariant ok
      invariant Pass1Before(cfg, prog, dat[..], i, inv, initmask, invalid, unreachable)
      invariant PendingBefore(cfg, prog, dat[..], i, initmask, invalid)
      invariant AbcPrimed(prog, dat[..], i)
    {
      ok, initmask, invalid, unreachable, inv := VisitInsn(cfg, prog, dat, i, initmask, invalid, unreachable, inv);
      if !ok {
        return;
      }
    }
    Pass1End(cfg, prog, dat[..], inv, initmask, invalid, unreachable);
  }

  /** Pass 1 leaves the reachable jumps ready for the minimum that pass 2 computes. */
  ghost predicate AbcPrimed(prog: Program, d: seq<InsnData>, n: nat)
    requires |d| == |prog|
  {
    forall i :: 0 <= i < |prog| && i < n && Live(d, i) && prog[i].IsJump() ==> d[i].abcLength == MAX_ABC_LENGTH
  }

  // ----- optimize_pass2

  function Min(a: nat, b: nat): nat { if a < b then a else b }

  function Max(a: nat, b: nat): nat { if a < b then b else a }

  /** Passes 2 and 3 leave marks, jump lists and initialisation data alone. */
  ghost predicate SameGraph(d: seq<InsnData>, d': seq<InsnData>) {
    && |d'| == |d|
    && forall i :: 0 <= i < |d| ==>
         d'[i].bjumps == d[i].bjumps && d'[i].unreachable == d[i].unreachable
  }

  lemma SameGraphKeepsPass1(cfg: Config, prog: Program, d: seq<InsnData>, d': seq<InsnData>, initmask: set<Cell>)
    requires Pass1Done(cfg, prog, d, initmask) && SameGraph(d, d')
    ensures Pass1Done(cfg, prog, d', initmask)
  {
    forall i: nat ensures Live(d', i) == Live(d, i) {}
    forall r: nat, j: nat ensures IsJumpTo(prog, d', r, j) == IsJumpTo(prog, d, r, j) {}
    var inv :| InitFlow(cfg, prog, d, inv, initmask);
    assert InitFlow(cfg, prog, d', inv, initmask);
  }

  /** The hoisted length just after `i`, 0 beyond the end. */
  function After(abc: seq<nat>, i: nat): nat { if i + 1 < |abc| then abc[i + 1] else 0 }

  /** What `abc[i]` is, from the hoisted lengths of the successors of `i`. */
  ghost predicate AbcAt(cfg: Config, prog: Program, abc: seq<nat>, i: nat)
    requires |abc| == |prog| && i < |prog|
  {
    var insn := prog[i];
    if insn.IsRet() then abc[i] == if insn == RetK(0) then MAX_ABC_LENGTH else 0
    else if insn.IsStore() && cfg.extwords != 0 then abc[i] == 0
    else if insn.IsJump() then
      var jt, jf := i + 1 + insn.JumpTrue(), i + 1 + insn.JumpFalse();
      jt < |abc| && jf < |abc| && abc[i] == Min(abc[jt], abc[jf])
    else if TooWide(insn) then abc[i] >= insn.SafeLength()
    else if insn.ReadsPacket() then abc[i] == Max(After(abc, i), insn.SafeLength())
    else abc[i] == After(abc, i)
  }

  /** Pass 2 has computed the hoisted length `abc[i]` of every reachable instruction. */
  ghost predicate AbcFlow(cfg: Config, prog: Program, d: seq<InsnData>, abc: seq<nat>)
    requires |d| == |prog|
  {
    && |abc| == |prog|
    && forall i :: 0 <= i < |prog| && Live(d, i) ==>
         && abc[i] <= MAX_ABC_LENGTH
         && AbcAt(cfg, prog, abc, i)
         && (prog[i].IsJump() || prog[i].ReadsPacket() ==> d[i].abcLength == abc[i])
  }

  /** Lowers the hoisted length of every jump that leads to `i`. */
  method LowerJumps(dat: array<InsnData>, i: nat, length: nat)
    requires i < dat.Length
    requires forall r :: r in dat[i].bjumps ==> r < dat.Length
    modifies dat
    ensures SameGraph(old(dat[..]), dat[..])
    ensures forall r :: 0 <= r < dat.Length ==>
              dat[r] == if r in old(dat[i].bjumps) then old(dat[r]).(abcLength := Min(old(dat[r].abcLength), length)) else old(dat[r])
  {
    var list := dat[i].bjumps;
    for k := 0 to |list|
      invariant forall r :: 0 <= r < dat.Length ==>
                  dat[r] == if r in list[..k] then old(dat[r]).(abcLength := Min(old(dat[r].abcLength), length)) else old(dat[r])
    {
      var jmp := list[k];
      assert jmp in list;
      if dat[jmp].abcLength > length {
        dat[jmp] := dat[jmp].(abcLength := length);
      }
      assert list[..k + 1] == list[..k] + [jmp];
    }
    assert list[..|list|] == list;
  }

  /** What pass 2 knows once the instructions from `i` on are done; `now` is its running length. */
  ghost predicate Pass2From(cfg: Config, prog: Program, d: seq<InsnData>, abc: seq<nat>, i: nat, now: nat)
    requires |d| == |prog|
  {
    && |abc| == |prog| && i <= |prog| && now <= MAX_ABC_LENGTH
    && (i == |prog| ==> now == 0)
    && (i < |prog| && Live(d, i) ==> now == abc[i])
    && (forall j :: i <= j < |prog| && Live(d, j) ==>
          && abc[j] <= MAX_ABC_LENGTH
          && AbcAt(cfg, prog, abc, j)
          && (prog[j].IsJump() || prog[j].ReadsPacket() ==> d[j].abcLength == abc[j]))
    && (forall r :: 0 <= r < i && Live(d, r) && prog[r].IsJump() ==> PendingJump(prog, d, abc, i, r))
  }

  /** The jump at `r` has seen its targets from `i` on. */
  ghost predicate PendingJump(prog: Program, d: seq<InsnData>, abc: seq<nat>, i: nat, r: nat)
    requires r < |prog| == |d| == |abc| && prog[r].IsJump()
  {
    var jt, jf := r + 1 + prog[r].JumpTrue(), r + 1 + prog[r].JumpFalse();
    && jt < |prog| && jf < |prog|
    && d[r].abcLength == Min(if i <= jt then abc[jt] else MAX_ABC_LENGTH, if i <= jf then abc[jf] else MAX_ABC_LENGTH)
  }

  /** The running length at instruction `i`, given the length just after it. */
  function AbcHere(cfg: Config, insn: Insn, d: InsnData, now: nat): nat {
    if insn.IsRet() then if insn == RetK(0) then MAX_ABC_LENGTH else 0
    else if insn.IsStore() then if cfg.extwords != 0 then 0 else now
    else if insn.IsJump() then d.abcLength
    else if insn.ReadsPacket() then Max(now, insn.SafeLength())
    else now
  }

  /** The successor that falls through is reachable. */
  lemma FallThroughLive(prog: Program, d: seq<InsnData>, i: nat)
    requires |d| == |prog| && i + 1 < |prog| && Live(d, i)
    requires ReachabilityExact(prog, d)
    requires i + 1 in Successors(prog, i)
    ensures Live(d, i + 1)
  {
    assert HasPath(prog, i);
  }

  /** Instruction `i` satisfies its equation. */
  lemma AbcHereIsAbc(cfg: Config, prog: Program, d: seq<InsnData>, abc: seq<nat>, i: nat, now: nat)
    requires |d| == |prog| && i < |prog| && Live(d, i)
    requires ReachabilityExact(prog, d)
    requires Pass2From(cfg, prog, d, abc, i + 1, now)
    ensures var h := AbcHere(cfg, prog[i], d[i], now);
            h <= MAX_ABC_LENGTH && AbcAt(cfg, prog, abc[i := h], i)
  {
    var insn := prog[i];
    if insn.IsJump() {
      assert PendingJump(prog, d, abc, i + 1, i);
    } else if !insn.IsRet() && !TooWide(insn) && i + 1 < |prog| {
      assert i + 1 in Successors(prog, i);
      FallThroughLive(prog, d, i);
    }
  }

  /** Setting entries before `j` does not disturb the equation at `j`. */
  lemma AbcAtStable(cfg: Config, prog: Program, abc: seq<nat>, i: nat, h: nat, j: nat)
    requires |abc| == |prog| && i < j < |prog|
    ensures AbcAt(cfg, prog, abc[i := h], j) == AbcAt(cfg, prog, abc, j)
  {
  }

  /** How the array changes when the length `h` at `i` is passed on to the jumps leading there. */
  ghost predicate Lowered(d: seq<InsnData>, d': seq<InsnData>, i: nat, h: nat)
    requires i < |d|
  {
    && SameGraph(d, d')
    && forall r :: 0 <= r < |d| && r != i ==>
         d'[r].abcLength == if r in d[i].bjumps then Min(d[r].abcLength, h) else d[r].abcLength
  }

  lemma LoweredPending(prog: Program, d: seq<InsnData>, d': seq<InsnData>, abc: seq<nat>, i: nat, h: nat, r: nat)
    requires |d| == |prog| == |abc| && r < i < |prog|
    requires JumpListsExact(prog, d) && Lowered(d, d', i, h)
    requires Live(d, r) && prog[r].IsJump() && PendingJump(prog, d, abc, i + 1, r)
    requires h <= MAX_ABC_LENGTH
    ensures PendingJump(prog, d', abc[i := h], i, r)
  {
    assert r in d[i].bjumps <==> IsJumpTo(prog, d, r, i);
    assert IsJumpTo(prog, d, r, i) <==> r + 1 + prog[r].JumpTrue() == i || r + 1 + prog[r].JumpFalse() == i;
  }

  lemma LoweredKeepsLater(prog: Program, d: seq<InsnData>, d': seq<InsnData>, i: nat, h: nat, j: nat)
    requires |d| == |prog| && i < j < |prog|
    requires JumpListsExact(prog, d) && Lowered(d, d', i, h)
    ensures d'[j].abcLength == d[j].abcLength && Live(d', j) == Live(d, j)
  {
    assert !IsJumpTo(prog, d, j, i);
  }

  lemma Pass2Step(cfg: Config, prog: Program, d: seq<InsnData>, d': seq<InsnData>, abc: seq<nat>, i: nat, now: nat, h: nat)
    requires |d| == |prog| && i < |prog| && Live(d, i)
    requires ReachabilityExact(prog, d) && JumpListsExact(prog, d)
    requires Pass2From(cfg, prog, d, abc, i + 1, now)
    requires h == AbcHere(cfg, prog[i], d[i], now)
    requires Lowered(d, d', i, h)
    requires prog[i].IsJump() || prog[i].ReadsPacket() ==> d'[i].abcLength == h
    ensures Pass2From(cfg, prog, d', abc[i := h], i, h)
  {
    var abc' := abc[i := h];
    AbcHereIsAbc(cfg, prog, d, abc, i, now);
    forall j | i <= j < |prog| && Live(d', j)
      ensures abc'[j] <= MAX_ABC_LENGTH && AbcAt(cfg, prog, abc', j)
      ensures prog[j].IsJump() || prog[j].ReadsPacket() ==> d'[j].abcLength == abc'[j]
    {
      if j > i {
        AbcAtStable(cfg, prog, abc, i, h, j);
        LoweredKeepsLater(prog, d, d', i, h, j);
      }
    }
    forall r | 0 <= r < i && Live(d', r) && prog[r].IsJump()
      ensures PendingJump(prog, d', abc', i, r)
    {
      assert Live(d, r);
      LoweredPending(prog, d, d', abc, i, h, r);
    }
  }

  /** An unreachable instruction changes nothing. */
  lemma Pass2Skip(cfg: Config, prog: Program, d: seq<InsnData>, abc: seq<nat>, i: nat, now: nat)
    requires |d| == |prog| && i < |prog| && !Live(d, i)
    requires JumpListsExact(prog, d) && ReachabilityExact(prog, d)
    requires Pass2From(cfg, prog, d, abc, i + 1, now)
    ensures Pass2From(cfg, prog, d, abc[i := now], i, now)
  {
    var abc' := abc[i := now];
    forall j | i <= j < |prog| && Live(d, j)
      ensures AbcAt(cfg, prog, abc', j)
    {
      AbcAtStable(cfg, prog, abc, i, now, j);
    }
    forall r | 0 <= r < i && Live(d, r) && prog[r].IsJump()
      ensures PendingJump(prog, d, abc', i, r)
    {
      assert PendingJump(prog, d, abc, i + 1, r);
      assert HasPath(prog, r);
      assert i !in Successors(prog, r);
    }
  }

  method OptimizePass2(cfg: Config, prog: Program, dat: array<InsnData>) returns (ghost abc: seq<nat>)
    requires dat.Length == |prog|
    requires JumpsInRange(prog, dat[..]) && JumpListsExact(prog, dat[..]) && ReachabilityExact(prog, dat[..])
    requires AbcPrimed(prog, dat[..], |prog|)
    modifies dat
    ensures SameGraph(old(dat[..]), dat[..])
    ensures AbcFlow(cfg, prog, dat[..], abc)
  {
    var length: nat := 0;
    abc := seq(|prog|, _ => 0);
    var i := |prog|;
    while i != 0
      invariant 0 <= i <= |prog|
      invariant SameGraph(old(dat[..]), dat[..])
      invariant Pass2From(cfg, prog, dat[..], abc, i, length)
    {
      i := i - 1;
      length, abc := VisitBackwards(cfg, prog, dat, i, length, abc);
    }
  }

  /** One turn of the backward loop. */
  method VisitBackwards(cfg: Config, prog: Program, dat: array<InsnData>, i: nat, length: nat, ghost abc: seq<nat>)
    returns (length': nat, ghost abc': seq<nat>)
    requires dat.Length == |prog| && i < |prog|
    requires JumpListsExact(prog, dat[..]) && ReachabilityExact(prog, dat[..])
    requires Pass2From(cfg, prog, dat[..], abc, i + 1, length)
    modifies dat
    ensures SameGraph(old(dat[..]), dat[..])
    ensures Pass2From(cfg, prog, dat[..], abc', i, length')
  {
    length' := length;
    if dat[i].unreachable {
      abc' := abc[i := length];
      Pass2Skip(cfg, prog, dat[..], abc, i, length);
      return;
    }
    length' := AbcHere(cfg, prog[i], dat[i], length);
    if prog[i].ReadsPacket() {
      dat[i] := dat[i].(abcLength := length');
    }
    abc' := abc[i := length'];
    LowerJumps(dat, i, length');
    Pass2Step(cfg, prog, old(dat[..]), dat[..], abc, i, length, length');
  }

  // ----- optimize_pass3

  /** The length known to be available after instruction `i` when `c` is known before it. */
  function CheckedAfter(insn: Insn, d: InsnData, c: nat): nat {
    if insn.ReadsPacket() then Max(c, d.abcLength) else c
  }

  /**
   Pass 3 has found, for every reachable instruction, a length `checked[i]` that
   all paths leading there have already checked; a read carries a check only if
   its hoisted length exceeds it.
   */
  ghost predicate CheckedFlow(prog: Program, d: seq<InsnData>, checked: seq<nat>)
    requires |d| == |prog|
  {
    && |checked| == |prog|
    && (|prog| > 0 ==> checked[0] == 0)
    && (forall i :: 0 <= i < |prog| && Live(d, i) && prog[i].ReadsPacket() ==>
          d[i].checkLength == if checked[i] < d[i].abcLength then d[i].abcLength else 0)
    && (forall i, j :: 0 <= i < |prog| && Live(d, i) && j in Successors(prog, i) && j < |prog| ==>
          checked[j] <= CheckedAfter(prog[i], d[i], checked[i]))
  }

  /** What pass 3 knows about the instructions before `i`; `now` is its running length. */
  ghost predicate Pass3Before(prog: Program, d: seq<InsnData>, checked: seq<nat>, i: nat, now: nat)
    requires |d| == |prog|
  {
    && |checked| == |prog| && i <= |prog|
    && (if i == 0 then now == 0 else checked[0] == 0)
    && (forall r :: 0 <= r < i && Live(d, r) && prog[r].ReadsPacket() ==>
          d[r].checkLength == if checked[r] < d[r].abcLength then d[r].abcLength else 0)
    && (forall r :: 0 <= r < i && Live(d, r) && prog[r].IsJump() ==> d[r].checkedLength == checked[r])
    && (forall r, j :: 0 <= r < i && Live(d, r) && j in Successors(prog, r) && j < i ==>
          checked[j] <= CheckedAfter(prog[r], d[r], checked[r]))
    && (0 < i && Live(d, i - 1) && i in Successors(prog, i - 1) ==>
          now <= CheckedAfter(prog[i - 1], d[i - 1], checked[i - 1]))
  }

  /** The smallest length checked by the jumps on the list of `i`, and at most `length`. */
  method LowestChecked(dat: array<InsnData>, i: nat, length: nat) returns (low: nat)
    requires i < dat.Length
    requires forall r :: r in dat[i].bjumps ==> r < dat.Length
    ensures low <= length
    ensures forall r :: r in dat[i].bjumps ==> low <= dat[r].checkedLength
    ensures low == length || exists r :: r in dat[i].bjumps && low == dat[r].checkedLength
  {
    low := length;
    var list := dat[i].bjumps;
    assert forall m :: 0 <= m < |list| ==> list[m] in list;
    for k := 0 to |list|
      invariant low <= length
      invariant forall m :: 0 <= m < k ==> low <= dat[list[m]].checkedLength
      invariant low == length || exists m :: 0 <= m < k && low == dat[list[m]].checkedLength
    {
      if dat[list[k]].checkedLength < low {
        low := dat[list[k]].checkedLength;
      }
    }
  }

  /** The equations at `i` once its length `low` is settled. */
  lemma Pass3Step(prog: Program, d: seq<InsnData>, d': seq<InsnData>, checked: seq<nat>, i: nat, now: nat, low: nat)
    requires |d| == |prog| && i < |prog| && Live(d, i)
    requires JumpListsExact(prog, d)
    requires Pass3Before(prog, d, checked, i, now)
    requires low <= now && forall r :: r in d[i].bjumps ==> r < |d| && low <= d[r].checkedLength
    requires |d'| == |d| && SameGraph(d, d')
    requires forall j :: 0 <= j < |d| && j != i ==> d'[j] == d[j]
    requires d'[i].abcLength == d[i].abcLength
    requires prog[i].IsJump() ==> d'[i].checkedLength == low
    requires prog[i].ReadsPacket() ==> d'[i].checkLength == if low < d[i].abcLength then d[i].abcLength else 0
    ensures Pass3Before(prog, d', checked[i := low], i + 1, CheckedAfter(prog[i], d[i], low))
  {
    forall r | 0 <= r < i && Live(d, r) && i in Successors(prog, r)
      ensures low <= CheckedAfter(prog[r], d[r], checked[r])
    {
      if prog[r].IsJump() {
        assert IsJumpTo(prog, d, r, i);
        assert r in d[i].bjumps;
      } else {
        assert r == i - 1;
      }
    }
    forall r | 0 <= r < |d| ensures Live(d', r) == Live(d, r) {}
  }

  lemma Pass3Skip(prog: Program, d: seq<InsnData>, checked: seq<nat>, i: nat, now: nat)
    requires |d| == |prog| && 0 < i < |prog| && !Live(d, i)
    requires ReachabilityExact(prog, d)
    requires Pass3Before(prog, d, checked, i, now)
    ensures Pass3Before(prog, d, checked, i + 1, now)
  {
    forall r | 0 <= r < i && Live(d, r) ensures i !in Successors(prog, r) {
      assert HasPath(prog, r);
    }
  }

  /** One turn of the forward loop. */
  method VisitForwards(prog: Program, dat: array<InsnData>, i: nat, length: nat, ghost checked: seq<nat>)
    returns (length': nat, ghost checked': seq<nat>)
    requires dat.Length == |prog| && i < |prog|
    requires JumpListsExact(prog, dat[..]) && ReachabilityExact(prog, dat[..])
    requires Pass3Before(prog, dat[..], checked, i, length)
    modifies dat
    ensures SameGraph(old(dat[..]), dat[..])
    ensures forall j :: 0 <= j < dat.Length ==> dat[j].abcLength == old(dat[j].abcLength)
    ensures Pass3Before(prog, dat[..], checked', i + 1, length')
  {
    length', checked' := length, checked;
    if dat[i].unreachable {
      assert HasPath(prog, 0);
      Pass3Skip(prog, dat[..], checked, i, length);
      return;
    }
    forall r | r in dat[i].bjumps ensures r < dat.Length {
      assert IsJumpTo(prog, dat[..], r, i);
    }
    length' := LowestChecked(dat, i, length);
    ghost var low := length';
    checked' := checked[i := low];
    if prog[i].IsJump() {
      dat[i] := dat[i].(checkedLength := length');
    } else if prog[i].ReadsPacket() {
      dat[i] := dat[i].(checkLength := 0);
      if length' < dat[i].abcLength {
        length' := dat[i].abcLength;
        dat[i] := dat[i].(checkLength := length');
      }
    }
    Pass3Step(prog, old(dat[..]), dat[..], checked, i, length, low);
  }

  method OptimizePass3(prog: Program, dat: array<InsnData>) returns (ghost checked: seq<nat>)
    requires dat.Length == |prog|
    requires JumpListsExact(prog, dat[..]) && ReachabilityExact(prog, dat[..])
    modifies dat
    ensures SameGraph(old(dat[..]), dat[..])
    ensures forall j :: 0 <= j < dat.Length ==> dat[j].abcLength == old(dat[j].abcLength)
    ensures CheckedFlow(prog, dat[..], checked)
  {
    hide HasPath, Successors, IsJumpTo;
    var length: nat := 0;
    checked := seq(|prog|, _ => 0);
    for i := 0 to |prog|
      invariant SameGraph(old(dat[..]), dat[..])
      invariant JumpListsExact(prog, dat[..]) && ReachabilityExact(prog, dat[..])
      invariant forall j :: 0 <= j < dat.Length ==> dat[j].abcLength == old(dat[j].abcLength)
      invariant Pass3Before(prog, dat[..], checked, i, length)
    {
      ghost var d := dat[..];
      length, checked := VisitForwards(prog, dat, i, length, checked);
      SameGraphKeepsLists(prog, d, dat[..]);
    }
  }

  lemma SameGraphKeepsLists(prog: Program, d: seq<InsnData>, d': seq<InsnData>)
    requires |d| == |prog| && SameGraph(d, d')
    requires JumpListsExact(prog, d) && ReachabilityExact(prog, d)
    ensures JumpListsExact(prog, d') && ReachabilityExact(prog, d')
  {
    forall i: nat ensures Live(d', i) == Live(d, i) {}
    forall r: nat, j: nat ensures IsJumpTo(prog, d', r, j) == IsJumpTo(prog, d, r, j) {}
  }

  // ----- optimize

  /** Everything the three passes establish together. */
  ghost predicate Optimized(cfg: Config, prog: Program, d: seq<InsnData>, initmask: set<Cell>) {
    && Pass1Done(cfg, prog, d, initmask)
    && (exists abc :: AbcFlow(cfg, prog, d, abc))
    && (exists checked :: CheckedFlow(prog, d, checked))
  }

  method Optimize(cfg: Config, prog: Program, dat: array<InsnData>) returns (ok: bool, initmask: set<Cell>)
    requires dat.Length == |prog|
    modifies dat
    ensures ok <==> !JumpsOut(prog)
    ensures ok ==> Optimized(cfg, prog, dat[..], initmask) && MaskExact(cfg, prog, |prog|, initmask)
  {
    OptimizeInit(dat);
    ok, initmask := OptimizePass1(cfg, prog, dat);
    if !ok {
      return;
    }
    ghost var d1 := dat[..];
    ghost var abc := OptimizePass2(cfg, prog, dat);
    ghost var d2 := dat[..];
    SameGraphKeepsPass1(cfg, prog, d1, d2, initmask);
    ghost var checked := OptimizePass3(prog, dat);
    SameGraphKeepsPass1(cfg, prog, d2, dat[..], initmask);
    SameGraphKeepsAbc(cfg, prog, d2, dat[..], abc);
  }

  lemma SameGraphKeepsAbc(cfg: Config, prog: Program, d: seq<InsnData>, d': seq<InsnData>, abc: seq<nat>)
    requires |d| == |prog| && SameGraph(d, d') && AbcFlow(cfg, prog, d, abc)
    requires forall j :: 0 <= j < |d| ==> d'[j].abcLength == d[j].abcLength
    ensures AbcFlow(cfg, prog, d', abc)
  {
    forall i: nat ensures Live(d', i) == Live(d, i) {}
  }
}
