/**
 The correctness of bpfjit as a whole.

 The generated code is one block of machine operations per BPF instruction, in
 emission order; instructions marked unreachable get no code.  Running it
 reports a fault for a faulting operation and for a jump whose label was never
 set, so the absence of both is part of the main theorem.
 */
module BpfJit {
  import opened Options
  import opened Bpf
  import opened BpfOptimizer
  import opened BpfMachine
  import opened BpfBlocks

  // ----- running the generated code

  datatype Result = Done(value: Word, final: Machine) | Fault

  /** The instruction whose label resolves jump slot 0 (true target) or 1 (false target) of `i`. */
  function Label(prog: Program, d: seq<InsnData>, i: nat, slot: nat): (t: Option<nat>)
    requires |d| == |prog| && i < |prog|
    ensures t.Some? ==> i < t.value
  {
    if !prog[i].IsJump() then None
    else
      var jt, jf := i + 1 + prog[i].JumpTrue(), i + 1 + prog[i].JumpFalse();
      var t := if slot == 0 then jt else jf;
      if (slot == 0 || jf != jt) && Live(d, t) && i in d[t].bjumps then Some(t) else None
  }

  /** Runs the generated code from block `i`; after the last block stands "return 0". */
  function Exec(prog: Program, d: seq<InsnData>, code: Code, i: nat, m: Machine, pkt: Packet): Result
    requires |code| == |d| == |prog|
    decreases |code| - i
  {
    if i >= |code| then Done(0, m)
    else
      match RunBlock(code[i], m, pkt)
      case Fall(m') => Exec(prog, d, code, i + 1, m', pkt)
      case Ret(v, m') => Done(v, m')
      case Crash => Fault
      case To(slot, m') =>
        var t := Label(prog, d, i, slot);
        if t.Some? then Exec(prog, d, code, t.value, m', pkt) else Fault
  }

  ghost predicate Generated(cfg: Config, prog: Program, d: seq<InsnData>, code: Code) {
    && |code| == |d| == |prog|
    && forall i :: 0 <= i < |prog| ==>
         if Live(d, i) then !Unsupported(cfg, prog[i]) && code[i] == Emit(prog[i], d[i]) else code[i] == []
  }

  // ----- pass 1 is sound for executions

  lemma StepFollowsSuccessors(prog: Program, i: nat, s: State, pkt: Packet)
    requires i < |prog| && pkt.Length() <= UINT32_MAX
    ensures var f := Step(prog[i], i, s, pkt);
            f.Goto? ==> f.pc in Successors(prog, i)
  {
  }

  /** An instruction marked unreachable is executed by no run. */
  lemma {:induction false} UnreachableNeverRuns(cfg: Config, prog: Program, d: seq<InsnData>, initmask: set<Cell>,
                                                i: nat, s: State, pkt: Packet)
    requires Pass1Done(cfg, prog, d, initmask)
    requires pkt.Length() <= UINT32_MAX
    requires i < |prog| ==> Live(d, i)
    ensures forall j :: j in Visited(prog, i, s, pkt) ==> Live(d, j)
    decreases |prog| - i
  {
    if i < |prog| {
      match Step(prog[i], i, s, pkt)
      case Stop(_) =>
      case Goto(pc', s') =>
        StepFollowsSuccessors(prog, i, s, pkt);
        SuccessorLive(cfg, prog, d, initmask, i, pc');
        UnreachableNeverRuns(cfg, prog, d, initmask, pc', s', pkt);
    }
  }

  lemma SuccessorLive(cfg: Config, prog: Program, d: seq<InsnData>, initmask: set<Cell>, i: nat, j: nat)
    requires Pass1Done(cfg, prog, d, initmask)
    requires i < |prog| && Live(d, i) && j in Successors(prog, i)
    ensures j < |prog| ==> Live(d, j)
  {
    assert HasPath(prog, i);
  }

  /** The value of a cell. */
  function CellValue(s: State, c: Cell): Word {
    match c case A => s.a case X => s.x case M(k) => if k < |s.m| then s.m[k] else 0
  }

  /** The two states differ at most in the cells of `u`, none of them written by the run. */
  ghost predicate AgreeExcept(s: State, t: State, u: set<Cell>) {
    && |s.m| == |t.m| && s.written == t.written
    && (forall c: Cell :: c !in u ==> CellValue(s, c) == CellValue(t, c))
    && (forall k :: k in s.written ==> CellValue(s, M(k)) == CellValue(t, M(k)))
  }

  lemma SetAgree(s: State, t: State, u: set<Cell>, v: Word)
    requires AgreeExcept(s, t, u)
    ensures AgreeExcept(s.(a := v), t.(a := v), u - {A})
    ensures AgreeExcept(s.(x := v), t.(x := v), u - {X})
    ensures AgreeExcept(s, t, u - {})
  {
    forall c: Cell | c !in u ensures CellValue(s, c) == CellValue(t, c) {}
    assert u - {} == u;
    forall k | k in s.written ensures CellValue(s, M(k)) == CellValue(t, M(k)) {}
  }

  lemma UsedAgree(s: State, t: State, u: set<Cell>, insn: Insn)
    requires AgreeExcept(s, t, u) && Uses(insn) !! u
    ensures |s.m| == |t.m| && s.written == t.written
    ensures A in Uses(insn) ==> s.a == t.a
    ensures X in Uses(insn) ==> s.x == t.x
    ensures forall k: nat :: M(k) in Uses(insn) && k < |s.m| ==> s.m[k] == t.m[k]
  {
    assert A !in u ==> CellValue(s, A) == CellValue(t, A);
    assert X !in u ==> CellValue(s, X) == CellValue(t, X);
    forall k: nat | M(k) in Uses(insn) && k < |s.m| ensures s.m[k] == t.m[k] {
      assert CellValue(s, M(k)) == CellValue(t, M(k));
    }
  }

  lemma StepAgree(insn: Insn, pc: nat, s: State, t: State, u: set<Cell>, pkt: Packet)
    requires AgreeExcept(s, t, u) && Uses(insn) !! u
    ensures var f, g := Step(insn, pc, s, pkt), Step(insn, pc, t, pkt);
            if f.Stop? then f == g else g.Goto? && f.pc == g.pc && AgreeExcept(f.s, g.s, u - Defines(insn))
  {
    hide BigEndian, AluValue, Holds, AgreeExcept, Store;
    UsedAgree(s, t, u, insn);
    var f := Step(insn, pc, s, pkt);
    if f.Goto? {
      if insn.St? || insn.Stx? {
        StoreAgree(s, t, u, insn.k, if insn.St? then s.a else s.x);
      } else {
        SetAgree(s, t, u, if A in Defines(insn) then f.s.a else f.s.x);
      }
    }
  }

  lemma StoreAgree(s: State, t: State, u: set<Cell>, k: Word, v: Word)
    requires AgreeExcept(s, t, u) && s.HasWord(k)
    ensures AgreeExcept(Store(s, k, v), Store(t, k, v), u - {M(k)})
  {
    var s', t' := Store(s, k, v), Store(t, k, v);
    forall c: Cell | c !in u - {M(k)} ensures CellValue(s', c) == CellValue(t', c) {
      assert c != M(k) ==> CellValue(s, c) == CellValue(t, c);
    }
    forall j | j in s'.written ensures CellValue(s', M(j)) == CellValue(t', M(j)) {
      assert j != k ==> CellValue(s, M(j)) == CellValue(t, M(j));
    }
  }

  /**
   Pass 1 finds every cell that some path reads before writing it: runs from
   states that differ only outside the initialised cells cannot be told apart.
   */
  lemma {:induction false} RunAgree(cfg: Config, prog: Program, d: seq<InsnData>, inv: seq<set<Cell>>, initmask: set<Cell>,
                                    i: nat, s: State, t: State, pkt: Packet)
    requires Pass1Done(cfg, prog, d, initmask) && InitFlow(cfg, prog, d, inv, initmask)
    requires pkt.Length() <= UINT32_MAX
    requires i < |prog| ==> Live(d, i) && AgreeExcept(s, t, inv[i] - initmask)
    requires exists u :: AgreeExcept(s, t, u)
    ensures var o, p := Run(prog, i, s, pkt), Run(prog, i, t, pkt);
            o.value == p.value && exists u :: AgreeExcept(o.final, p.final, u)
    decreases |prog| - i
  {
    if i < |prog| {
      var u := inv[i] - initmask;
      assert Uses(prog[i]) !! u;
      StepAgree(prog[i], i, s, t, u, pkt);
      match Step(prog[i], i, s, pkt)
      case Stop(_) =>
      case Goto(j, s') =>
        var t' := Step(prog[i], i, t, pkt).s;
        StepFollowsSuccessors(prog, i, s, pkt);
        SuccessorLive(cfg, prog, d, initmask, i, j);
        if j < |prog| {
          assert u - Defines(prog[i]) <= inv[j] - initmask;
          assert AgreeExcept(s', t', inv[j] - initmask);
        }
        RunAgree(cfg, prog, d, inv, initmask, j, s', t', pkt);
    }
  }

  /** A run changes only the memory words it records as written. */
  lemma {:induction false} UnwrittenWordsKept(prog: Program, i: nat, s: State, pkt: Packet, k: nat)
    requires k < |s.m|
    ensures var o := Run(prog, i, s, pkt).final;
            s.written <= o.written && (k !in o.written ==> o.m[k] == s.m[k])
    decreases |prog| - i
  {
    if i < |prog| {
      match Step(prog[i], i, s, pkt)
      case Stop(_) =>
      case Goto(j, s') => UnwrittenWordsKept(prog, j, s', pkt, k);
    }
  }

  // ----- pass 2 is sound for executions

  /** What a caller of the generated function can observe. */
  ghost predicate SameVisible(cfg: Config, o: Outcome, p: Outcome) {
    && o.value == p.value
    && (cfg.extwords != 0 ==> o.final.m == p.final.m && o.final.written == p.final.written)
  }

  lemma StepOnShortPacket(cfg: Config, prog: Program, abc: seq<nat>, i: nat, s: State, pkt: Packet)
    requires |abc| == |prog| && i < |prog| && AbcAt(cfg, prog, abc, i)
    requires pkt.Length() < abc[i] && pkt.Length() <= UINT32_MAX
    ensures match Step(prog[i], i, s, pkt)
            case Stop(v) => v == 0
            case Goto(j, s') =>
              && j < |prog| && pkt.Length() < abc[j]
              && (cfg.extwords != 0 ==> s'.m == s.m && s'.written == s.written)
  {
    hide BigEndian, AluValue, Holds, Store, Operand;
    var insn := prog[i];
    if insn.ReadsPacket() {
      assert pkt.Length() < insn.SafeLength() || pkt.Length() < After(abc, i);
    }
  }

  /** A packet shorter than the hoisted length of `i` makes the rest return 0 with no visible effect. */
  lemma {:induction false} ShortPacketReturnsZero(cfg: Config, prog: Program, d: seq<InsnData>, initmask: set<Cell>, abc: seq<nat>,
                                                  i: nat, s: State, pkt: Packet)
    requires Pass1Done(cfg, prog, d, initmask) && AbcFlow(cfg, prog, d, abc)
    requires i < |prog| && Live(d, i)
    requires pkt.Length() < abc[i] && pkt.Length() <= UINT32_MAX
    ensures SameVisible(cfg, Run(prog, i, s, pkt), Outcome(0, s))
    decreases |prog| - i
  {
    StepOnShortPacket(cfg, prog, abc, i, s, pkt);
    match Step(prog[i], i, s, pkt)
    case Stop(_) =>
    case Goto(j, s') =>
      StepFollowsSuccessors(prog, i, s, pkt);
      SuccessorLive(cfg, prog, d, initmask, i, j);
      ShortPacketReturnsZero(cfg, prog, d, initmask, abc, j, s', pkt);
  }

  // ----- jumps

  /** Every label a reachable jump needs is set. */
  lemma LabelsResolve(prog: Program, d: seq<InsnData>, i: nat)
    requires |d| == |prog| && i < |prog| && prog[i].IsJump() && Live(d, i)
    requires JumpsInRange(prog, d) && JumpListsExact(prog, d) && ReachabilityExact(prog, d)
    ensures var jt, jf := i + 1 + prog[i].JumpTrue(), i + 1 + prog[i].JumpFalse();
            Label(prog, d, i, 0) == Some(jt) && (jf != jt ==> Label(prog, d, i, 1) == Some(jf))
  {
    var jt, jf := i + 1 + prog[i].JumpTrue(), i + 1 + prog[i].JumpFalse();
    assert HasPath(prog, i);
    assert IsJumpTo(prog, d, i, jt) && IsJumpTo(prog, d, i, jf);
  }

  /** Where the end of a block at `i` leads. */
  ghost predicate LeadsTo(prog: Program, d: seq<InsnData>, i: nat, b: BlockEnd, f: Flow)
    requires |d| == |prog| && i < |prog|
  {
    f.Goto? ==> (b.Fall? && f.pc == i + 1) || (b.To? && Label(prog, d, i, b.slot) == Some(f.pc))
  }

  lemma JumpBlock(prog: Program, d: seq<InsnData>, i: nat, m: Machine, s: State, pkt: Packet)
    requires |d| == |prog| && i < |prog| && prog[i].IsJump() && Live(d, i) && Shows(m, s)
    requires JumpsInRange(prog, d) && JumpListsExact(prog, d) && ReachabilityExact(prog, d)
    ensures var b, f := RunBlock(Emit(prog[i], d[i]), m, pkt), Step(prog[i], i, s, pkt);
            Ends(prog[i], b, m, s, f) && LeadsTo(prog, d, i, b, f)
  {
    hide JumpsInRange, JumpListsExact, ReachabilityExact, RunBlock, JumpOps, Label, Holds, Low;
    LabelsResolve(prog, d, i);
    JumpOpsRun(prog[i], m, s, pkt);
  }

  // ----- the generated code as a whole

  /** The data array and the code come from the optimizer and the generator. */
  ghost predicate Compiled(cfg: Config, prog: Program, d: seq<InsnData>, initmask: set<Cell>, inv: seq<set<Cell>>,
                           abc: seq<nat>, checked: seq<nat>, code: Code) {
    && Pass1Done(cfg, prog, d, initmask)
    && InitFlow(cfg, prog, d, inv, initmask)
    && AbcFlow(cfg, prog, d, abc)
    && CheckedFlow(prog, d, checked)
    && Generated(cfg, prog, d, code)
  }

  /** X has no upper half, or is written before it is read. */
  ghost predicate CleanAt(inv: seq<set<Cell>>, initmask: set<Cell>, i: nat, m: Machine) {
    i < |inv| ==> Clean(m) || X in inv[i] - initmask
  }

  lemma CleanWhereUsed(cfg: Config, prog: Program, d: seq<InsnData>, inv: seq<set<Cell>>, initmask: set<Cell>, i: nat, m: Machine)
    requires |d| == |prog| && InitFlow(cfg, prog, d, inv, initmask) && i < |prog| && Live(d, i) && CleanAt(inv, initmask, i, m)
    ensures X in Uses(prog[i]) ==> Clean(m)
  {
    assert Uses(prog[i]) * inv[i] <= initmask;
    if X in Uses(prog[i]) && X in inv[i] {
      assert X in Uses(prog[i]) * inv[i];
    }
  }

  lemma CleanNext(cfg: Config, prog: Program, d: seq<InsnData>, inv: seq<set<Cell>>, initmask: set<Cell>, i: nat, j: nat, m: Machine, m': Machine)
    requires |d| == |prog| && InitFlow(cfg, prog, d, inv, initmask) && i < |prog| && Live(d, i) && j in Successors(prog, i)
    requires CleanAt(inv, initmask, i, m) && ((Clean(m) || X in Defines(prog[i])) ==> Clean(m'))
    ensures CleanAt(inv, initmask, j, m')
  {
    if j < |prog| {
      assert inv[i] - Defines(prog[i]) <= inv[j];
    }
  }

  /** One block, given that `checked[i]` bytes are known to be there. */
  lemma LiveBlock(cfg: Config, prog: Program, d: seq<InsnData>, initmask: set<Cell>, inv: seq<set<Cell>>, abc: seq<nat>, checked: seq<nat>,
                  code: Code, i: nat, m: Machine, s: State, pkt: Packet)
    requires Compiled(cfg, prog, d, initmask, inv, abc, checked, code) && Shows(m, s) && CleanAt(inv, initmask, i, m)
    requires i < |prog| && Live(d, i) && checked[i] <= pkt.Length() <= UINT32_MAX
    requires |s.m| == cfg.Memwords()
    ensures var b, f := RunBlock(code[i], m, pkt), Step(prog[i], i, s, pkt);
            || (pkt.Length() < abc[i] && b == Ret(0, m))
            || (&& Ends(prog[i], b, m, s, f) && LeadsTo(prog, d, i, b, f)
                && CheckedAfter(prog[i], d[i], checked[i]) <= pkt.Length())
  {
    hide RunBlock, Emit, HasPath, Successors, InitFlow, Shows, Uses, Defines, BigEndian, AluValue, Holds, CleanAt, Clean, Step;
    assert code[i] == Emit(prog[i], d[i]);
    assert AbcAt(cfg, prog, abc, i);
    CleanWhereUsed(cfg, prog, d, inv, initmask, i, m);
    if prog[i].ReadsPacket() {
      if pkt.Length() < d[i].checkLength {
        FailedCheckBlock(prog[i], d[i], m, pkt);
      } else {
        ReadBlock(prog[i], d[i], m, s, pkt);
        DoesHere(prog, d, i, RunBlock(code[i], m, pkt), m, s, pkt);
      }
    } else if prog[i].IsJump() {
      JumpBlock(prog, d, i, m, s, pkt);
    } else {
      PlainBlock(cfg, prog[i], d[i], m, s, pkt);
      DoesHere(prog, d, i, RunBlock(code[i], m, pkt), m, s, pkt);
    }
  }

  lemma DoesHere(prog: Program, d: seq<InsnData>, i: nat, b: BlockEnd, m: Machine, s: State, pkt: Packet)
    requires |d| == |prog| && i < |prog| && !prog[i].IsJump() && Does(prog[i], b, m, s, pkt)
    ensures Ends(prog[i], b, m, s, Step(prog[i], i, s, pkt)) && LeadsTo(prog, d, i, b, Step(prog[i], i, s, pkt))
  {
    hide Shows, Clean, BigEndian, AluValue, Holds, Label;
  }

  /** How execution proceeds from a block that matches its instruction. */
  lemma MatchedExec(prog: Program, d: seq<InsnData>, code: Code, i: nat, m: Machine, s: State, pkt: Packet)
    requires |code| == |d| == |prog| && i < |prog|
    requires var b, f := RunBlock(code[i], m, pkt), Step(prog[i], i, s, pkt);
             Ends(prog[i], b, m, s, f) && LeadsTo(prog, d, i, b, f)
    ensures var b, f := RunBlock(code[i], m, pkt), Step(prog[i], i, s, pkt);
            Exec(prog, d, code, i, m, pkt) == if f.Stop? then Done(f.value, b.s) else Exec(prog, d, code, f.pc, b.s, pkt)
  {
    hide Step, RunBlock, Shows, Clean, Defines, Label;
  }

  /** What is known on arrival at the next instruction. */
  lemma Arrival(cfg: Config, prog: Program, d: seq<InsnData>, initmask: set<Cell>, checked: seq<nat>, i: nat, s: State, pkt: Packet)
    requires Pass1Done(cfg, prog, d, initmask) && CheckedFlow(prog, d, checked)
    requires i < |prog| && Live(d, i) && pkt.Length() <= UINT32_MAX
    requires CheckedAfter(prog[i], d[i], checked[i]) <= pkt.Length()
    ensures var f := Step(prog[i], i, s, pkt);
            f.Goto? ==> f.pc in Successors(prog, i) && (f.pc < |prog| ==> Live(d, f.pc) && checked[f.pc] <= pkt.Length())
  {
    var f := Step(prog[i], i, s, pkt);
    if f.Goto? {
      StepFollowsSuccessors(prog, i, s, pkt);
      SuccessorLive(cfg, prog, d, initmask, i, f.pc);
    }
  }

  /** What a caller of the generated function can observe, on the machine. */
  ghost predicate SameSeen(cfg: Config, r: Result, o: Outcome) {
    r.Done? && r.value == o.value && (cfg.extwords != 0 ==> r.final.m == o.final.m && r.final.written == o.final.written)
  }

  /** Hoisted checks and upper halves change nothing a caller can see, and no block ever faults. */
  lemma {:induction false} ExecMatchesRun(cfg: Config, prog: Program, d: seq<InsnData>, initmask: set<Cell>, inv: seq<set<Cell>>,
                                          abc: seq<nat>, checked: seq<nat>, code: Code, i: nat, m: Machine, s: State, pkt: Packet)
    requires Compiled(cfg, prog, d, initmask, inv, abc, checked, code) && Shows(m, s) && CleanAt(inv, initmask, i, m)
    requires pkt.Length() <= UINT32_MAX && |s.m| == cfg.Memwords()
    requires i < |prog| ==> Live(d, i) && checked[i] <= pkt.Length()
    ensures SameSeen(cfg, Exec(prog, d, code, i, m, pkt), Run(prog, i, s, pkt))
    decreases |prog| - i
  {
    hide Step, RunBlock, CheckedAfter, CleanAt, Clean, Defines, Successors, Low, LeadsTo, HasPath, AbcAt, CheckedFlow, InitFlow, Pass1Done, Label;
    if i < |prog| {
      LiveBlock(cfg, prog, d, initmask, inv, abc, checked, code, i, m, s, pkt);
      if pkt.Length() < abc[i] && RunBlock(code[i], m, pkt) == Ret(0, m) {
        ShortPacketReturnsZero(cfg, prog, d, initmask, abc, i, s, pkt);
      } else {
        MatchedExec(prog, d, code, i, m, s, pkt);
        Arrival(cfg, prog, d, initmask, checked, i, s, pkt);
        var f, b := Step(prog[i], i, s, pkt), RunBlock(code[i], m, pkt);
        if f.Goto? {
          CleanNext(cfg, prog, d, inv, initmask, i, f.pc, m, b.s);
          ExecMatchesRun(cfg, prog, d, initmask, inv, abc, checked, code, f.pc, b.s, f.s, pkt);
        }
      }
    }
  }

  /** Cells the generated function sets to zero on entry. */
  function ZeroedCells(cfg: Config, initmask: set<Cell>): set<Cell> {
    initmask - (if cfg.extwords != 0 then set k | k in cfg.preinited :: M(k) else {})
  }

  /** The machine after the prologue, from whatever the registers and memory held before. */
  function Prologue(cfg: Config, initmask: set<Cell>, g: Machine): Machine {
    var z := ZeroedCells(cfg, initmask);
    Machine(if A in z then 0 else g.a, if X in z then 0 else g.x, g.t,
            seq(|g.m|, k requires 0 <= k < |g.m| => if M(k) in z then 0 else g.m[k]), {})
  }

  /** The reference state that a machine state represents. */
  function View(m: Machine): State { State(Low(m.a), Low(m.x), m.m, m.written) }

  /** The initial state of the reference run: all zero but for pre-initialised external words. */
  function CleanState(cfg: Config, g: Machine): State {
    State(0, 0, seq(|g.m|, k requires 0 <= k < |g.m| => if cfg.extwords != 0 && k in cfg.preinited then g.m[k] else 0), {})
  }

  /**
   The generated code `code` implements `prog`: on every packet and whatever the
   64-bit registers and memory words held on entry, it runs without fault, returns what
   the reference interpreter returns from a clean state and, with external
   memory, stores the same values in the same words and leaves the others as the
   prologue left them.
   */
  ghost predicate Implements(cfg: Config, prog: Program, d: seq<InsnData>, initmask: set<Cell>, code: Code)
    requires |code| == |d| == |prog|
  {
    forall g: Machine, pkt: Packet :: |g.m| == cfg.Memwords() && pkt.Length() <= UINT32_MAX ==>
      Correct(cfg, prog, d, initmask, code, g, pkt)
  }

  ghost predicate Correct(cfg: Config, prog: Program, d: seq<InsnData>, initmask: set<Cell>, code: Code, g: Machine, pkt: Packet)
    requires |code| == |d| == |prog|
  {
    var start := Prologue(cfg, initmask, g);
    var r := Exec(prog, d, code, 0, start, pkt);
    var ref := Run(prog, 0, CleanState(cfg, g), pkt);
    && r.Done?
    && r.value == ref.value
    && |r.final.m| == |start.m| == |ref.final.m|
    && (cfg.extwords != 0 ==>
          forall k :: 0 <= k < |start.m| ==>
            r.final.m[k] == if k in ref.final.written then ref.final.m[k] else start.m[k])
  }

  lemma PrologueAgrees(cfg: Config, initmask: set<Cell>, g: Machine, u: set<Cell>)
    requires |g.m| == cfg.Memwords() && AllCells(cfg.Memwords()) <= u
    ensures AgreeExcept(View(Prologue(cfg, initmask, g)), CleanState(cfg, g), u - initmask)
    ensures Clean(Prologue(cfg, initmask, g)) || X in u - initmask
  {
    var p, c := View(Prologue(cfg, initmask, g)), CleanState(cfg, g);
    forall cell: Cell | cell !in u - initmask ensures CellValue(p, cell) == CellValue(c, cell) {
      assert cell in AllCells(cfg.Memwords()) ==> cell in initmask;
      match cell
      case A =>
      case X =>
      case M(k) => assert k < |g.m| ==> M(k) in AllCells(cfg.Memwords());
    }
  }

  lemma Conclude(cfg: Config, prog: Program, d: seq<InsnData>, initmask: set<Cell>, code: Code, g: Machine, pkt: Packet)
    requires |code| == |d| == |prog|
    requires var start, clean := Prologue(cfg, initmask, g), CleanState(cfg, g);
             var r := Exec(prog, d, code, 0, start, pkt);
             var o, p := Run(prog, 0, View(start), pkt), Run(prog, 0, clean, pkt);
             && SameSeen(cfg, r, o) && |r.final.m| == |start.m|
             && o.value == p.value && exists u :: AgreeExcept(o.final, p.final, u)
    ensures Correct(cfg, prog, d, initmask, code, g, pkt)
  {
    WordsAfter(prog, View(Prologue(cfg, initmask, g)), CleanState(cfg, g), pkt);
  }

  lemma OneRunCorrect(cfg: Config, prog: Program, d: seq<InsnData>, initmask: set<Cell>, inv: seq<set<Cell>>,
                      abc: seq<nat>, checked: seq<nat>, code: Code, g: Machine, pkt: Packet)
    requires |prog| > 0 && Compiled(cfg, prog, d, initmask, inv, abc, checked, code)
    requires |g.m| == cfg.Memwords() && pkt.Length() <= UINT32_MAX
    ensures Correct(cfg, prog, d, initmask, code, g, pkt)
  {
    var start, clean := Prologue(cfg, initmask, g), CleanState(cfg, g);
    assert HasPath(prog, 0);
    PrologueAgrees(cfg, initmask, g, inv[0]);
    ExecMatchesRun(cfg, prog, d, initmask, inv, abc, checked, code, 0, start, View(start), pkt);
    ExecKeepsSize(prog, d, code, 0, start, pkt);
    RunAgree(cfg, prog, d, inv, initmask, 0, View(start), clean, pkt);
    Conclude(cfg, prog, d, initmask, code, g, pkt);
  }

  /** The main theorem about bpfjit. */
  lemma OptimizedCodeImplements(cfg: Config, prog: Program, d: seq<InsnData>, initmask: set<Cell>, code: Code)
    requires Optimized(cfg, prog, d, initmask) && Generated(cfg, prog, d, code) && |prog| > 0
    ensures Implements(cfg, prog, d, initmask, code)
  {
    var inv :| InitFlow(cfg, prog, d, inv, initmask);
    var abc :| AbcFlow(cfg, prog, d, abc);
    var checked :| CheckedFlow(prog, d, checked);
    assert Compiled(cfg, prog, d, initmask, inv, abc, checked, code);
    forall g: Machine, pkt: Packet | |g.m| == cfg.Memwords() && pkt.Length() <= UINT32_MAX
      ensures Correct(cfg, prog, d, initmask, code, g, pkt)
    {
      OneRunCorrect(cfg, prog, d, initmask, inv, abc, checked, code, g, pkt);
    }
  }

  lemma {:induction false} BlockKeepsSize(ops: seq<Op>, m: Machine, pkt: Packet)
    ensures var b := RunBlock(ops, m, pkt);
            !b.Crash? ==> |b.s.m| == |m.m|
  {
    hide Calculate, Compare;
    if ops != [] {
      var r := RunOp(ops[0], m, pkt);
      if r.Next? {
        BlockKeepsSize(ops[1..], r.s, pkt);
      }
    }
  }

  lemma {:induction false} ExecKeepsSize(prog: Program, d: seq<InsnData>, code: Code, i: nat, m: Machine, pkt: Packet)
    requires |code| == |d| == |prog|
    ensures var r := Exec(prog, d, code, i, m, pkt);
            r.Done? ==> |r.final.m| == |m.m|
    decreases |code| - i
  {
    if i < |code| {
      BlockKeepsSize(code[i], m, pkt);
      match RunBlock(code[i], m, pkt)
      case Fall(m') => ExecKeepsSize(prog, d, code, i + 1, m', pkt);
      case Ret(_, _) =>
      case Crash =>
      case To(slot, m') =>
        var t := Label(prog, d, i, slot);
        if t.Some? {
          ExecKeepsSize(prog, d, code, t.value, m', pkt);
        }
    }
  }

  lemma WordsAfter(prog: Program, start: State, clean: State, pkt: Packet)
    requires |start.m| == |clean.m|
    requires exists u :: AgreeExcept(Run(prog, 0, start, pkt).final, Run(prog, 0, clean, pkt).final, u)
    ensures var o, p := Run(prog, 0, start, pkt).final, Run(prog, 0, clean, pkt).final;
            forall k :: 0 <= k < |start.m| ==> o.m[k] == if k in p.written then p.m[k] else start.m[k]
  {
    var o, p := Run(prog, 0, start, pkt).final, Run(prog, 0, clean, pkt).final;
    forall k | 0 <= k < |start.m| ensures o.m[k] == if k in p.written then p.m[k] else start.m[k] {
      UnwrittenWordsKept(prog, 0, start, pkt, k);
      assert k in o.written ==> CellValue(o, M(k)) == CellValue(p, M(k));
    }
  }

  /** Some instruction that control can reach is refused by the generator. */
  ghost predicate Refused(cfg: Config, prog: Program) {
    exists i :: 0 <= i < |prog| && HasPath(prog, i) && Unsupported(cfg, prog[i])
  }

  method GenerateInsnCode(cfg: Config, prog: Program, dat: array<InsnData>) returns (code: Option<Code>)
    requires dat.Length == |prog|
    requires ReachabilityExact(prog, dat[..])
    ensures code.Some? ==> Generated(cfg, prog, dat[..], code.value)
    ensures code.None? <==> Refused(cfg, prog)
  {
    hide HasPath, Emit, Unsupported;
    var out: Code := [];
    for i := 0 to |prog|
      invariant |out| == i
      invariant forall j :: 0 <= j < i ==>
                  if Live(dat[..], j) then !Unsupported(cfg, prog[j]) && out[j] == Emit(prog[j], dat[j]) else out[j] == []
    {
      assert Live(dat[..], i) == HasPath(prog, i);
      if dat[i].unreachable {
        out := out + [[]];
      } else if Unsupported(cfg, prog[i]) {
        return None;
      } else {
        var ops := EmitInsn(prog[i], dat[i]);
        out := out + [ops];
      }
    }
    assert forall j :: 0 <= j < |prog| && HasPath(prog, j) ==> Live(dat[..], j);
    code := Some(out);
  }

  /** Compiles exactly the programs whose reachable part is well formed, and compiles them correctly. */
  method GenerateCode(cfg: Config, prog: Program)
    returns (code: Option<Code>, initmask: set<Cell>, dat: array<InsnData>)
    ensures code.None? <==> cfg.Memwords() > BPF_MEMWORDS || |prog| == 0 || JumpsOut(prog) || Refused(cfg, prog)
    ensures code.Some? ==> |code.value| == dat.Length == |prog| && Implements(cfg, prog, dat[..], initmask, code.value)
    ensures code.Some? ==> MaskExact(cfg, prog, |prog|, initmask)
  {
    hide MaskExact, Implements, JumpsOut, Refused;
    dat := new InsnData[|prog|](_ => InsnData([], 0, 0, 0, {}, false));
    code, initmask := None, {};
    if cfg.Memwords() > BPF_MEMWORDS || |prog| == 0 {
      return;
    }
    var ok;
    ok, initmask := Optimize(cfg, prog, dat);
    if !ok {
      return;
    }
    code := GenerateInsnCode(cfg, prog, dat);
    if code.Some? {
      OptimizedCodeImplements(cfg, prog, dat[..], initmask, code.value);
    }
  }
}
