/**
 The machine that bpfjit generates code for, and the code it generates.

 Registers are 64 bits wide.  Plain operations work on all of them, operations
 marked "int" on the low halves only, so the upper half of A is whatever the
 last operations left there.  The machine reports a fault for an out-of-bounds
 packet access, for a subtraction from the packet length that would wrap around
 and for a division by zero.
 */
module BpfMachine {
  import opened Bpf
  import opened BpfOptimizer

  const TWO64: int := 0x1_0000_0000_0000_0000

  type Wide = x: int | 0 <= x < 0x1_0000_0000_0000_0000

  function Low(v: Wide): Word { v % TWO32 }

  /** A, X and the scratch register. */
  datatype Reg = RegA | RegX | RegT

  datatype Arg = Imm(k: Word) | In(r: Reg)

  datatype Calc = MAdd | MSub | MMulInt | MOr | MXor | MAnd | MShl | MShrInt

  datatype Cmp = Less | GreaterEqual | Greater | LessEqual | Equal | NotEqual

  datatype Machine = Machine(a: Wide, x: Wide, t: Wide, m: seq<Word>, written: set<nat>) {
    function Get(r: Reg): Wide { match r case RegA => a case RegX => x case RegT => t }

    function Set(r: Reg, v: Wide): Machine {
      match r case RegA => this.(a := v) case RegX => this.(x := v) case RegT => this.(t := v)
    }

    function Value(arg: Arg): Wide { match arg case Imm(k) => k case In(r) => Get(r) }
  }

  datatype Op =
    | RetIfShort(length: nat)                          // if (buflen < length) return 0
    | RetZero                                          // return 0
    | Mov(dst: Reg, src: Arg)
    | MovInt(dst: Reg, from: Reg)                      // the low half, zero-extended
    | MovLength(dst: Reg)                              // dst = wirelen
    | LoadMem(dst: Reg, k: Word)
    | StoreMem(from: Reg, k: Word)
    | SubLength(n: Word)                               // T = buflen - n
    | LoadByte(dst: Reg, off: nat, indexed: bool)      // dst = buf[k] or buf[X + k], unchecked
    | Compute(how: Calc, dst: Reg, left: Reg, right: Arg)
    | Negate                                           // A = -A
    | DivideByT(quotient: bool)                        // A = A / T or A % T, on low halves
    | RetIfTBelowX                                     // if (T < X) return 0
    | RetIfXZero                                       // if (X == 0) return 0, on low halves
    | Branch(cmp: Cmp, left: Reg, right: Arg, slot: nat)   // on low halves
    | Jump(slot: nat)
    | Return(src: Arg)                                 // the low half

  type Code = seq<seq<Op>>

  datatype BlockEnd = Fall(s: Machine) | To(slot: nat, s: Machine) | Ret(value: Word, s: Machine) | Crash

  datatype OpEnd = Next(s: Machine) | End(b: BlockEnd)

  // ----- what the operations compute

  datatype Connective = Conj | Disj | Excl {
    predicate Of(p: bool, q: bool) { match this case Conj => p && q case Disj => p || q case Excl => p != q }
  }

  predicate Odd(v: nat) { v % 2 == 1 }

  /** The number whose `n` bits are the bits of `a` and `b`, joined one by one. */
  function Bitwise(c: Connective, a: nat, b: nat, n: nat): (r: nat)
    ensures r < Pow2(n)
  {
    if n == 0 then 0 else (if c.Of(Odd(a), Odd(b)) then 1 else 0) + 2 * Bitwise(c, a / 2, b / 2, n - 1)
  }

  /** `n` times doubled in 64 bits. */
  function Doubled(v: Wide, n: nat): Wide { if n == 0 then v else 2 * Doubled(v, n - 1) % TWO64 }

  function Halved(v: Word, n: nat): Word { if n == 0 then v else Halved(v, n - 1) / 2 }

  function Wide64(c: Connective, l: Wide, r: Wide): Wide {
    SixtyFour();
    Bitwise(c, l, r, 64)
  }

  lemma SixtyFour()
    ensures Pow2(32) == TWO32 && Pow2(64) == TWO64
  {
    hide Pow2;
    Sixteen();
    PowAdd(4, 4);
    PowAdd(8, 8);
    PowAdd(16, 16);
    PowAdd(32, 32);
  }

  lemma Sixteen()
    ensures Pow2(4) == 16
  {
    assert Pow2(2) == 4;
  }

  lemma {:induction false} PowAdd(n: nat, m: nat)
    ensures Pow2(n + m) == Pow2(n) * Pow2(m)
    decreases n
  {
    if n > 0 {
      PowAdd(n - 1, m);
      assert 2 * (Pow2(n - 1) * Pow2(m)) == (2 * Pow2(n - 1)) * Pow2(m);
    }
  }

  function Calculate(how: Calc, l: Wide, r: Wide): Wide {
    match how
    case MAdd => (l + r) % TWO64
    case MSub => (l - r) % TWO64
    case MMulInt => (Low(l) * Low(r)) % TWO32
    case MOr => Wide64(Disj, l, r)
    case MXor => Wide64(Excl, l, r)
    case MAnd => Wide64(Conj, l, r)
    case MShl => Doubled(l, r)
    case MShrInt => Halved(Low(l), Low(r))
  }

  predicate Compare(cmp: Cmp, l: Wide, r: Wide) {
    match cmp
    case Less => l < r
    case GreaterEqual => r <= l
    case Greater => r < l
    case LessEqual => l <= r
    case Equal => l == r
    case NotEqual => l != r
  }

  function RunOp(op: Op, s: Machine, pkt: Packet): OpEnd {
    match op
    case RetIfShort(n) => if pkt.Length() < n then End(Ret(0, s)) else Next(s)
    case RetZero => End(Ret(0, s))
    case Mov(dst, src) => Next(s.Set(dst, s.Value(src)))
    case MovInt(dst, src) => Next(s.Set(dst, Low(s.Get(src))))
    case MovLength(dst) => Next(s.Set(dst, pkt.wirelen))
    case LoadMem(dst, k) => if k < |s.m| then Next(s.Set(dst, s.m[k])) else End(Crash)
    case StoreMem(src, k) =>
      if k < |s.m| then Next(s.(m := s.m[k := Low(s.Get(src))], written := s.written + {k})) else End(Crash)
    case SubLength(n) => if n <= pkt.Length() < TWO64 then Next(s.(t := pkt.Length() - n)) else End(Crash)
    case LoadByte(dst, k, indexed) =>
      var at := (if indexed then s.x else 0) + k;
      if at < pkt.Length() then Next(s.Set(dst, pkt.bytes[at])) else End(Crash)
    case Compute(how, dst, left, right) => Next(s.Set(dst, Calculate(how, s.Get(left), s.Value(right))))
    case Negate => Next(s.(a := (TWO64 - s.a) % TWO64))
    case DivideByT(quotient) =>
      if Low(s.t) == 0 then End(Crash)
      else Next(s.(a := if quotient then Low(s.a) / Low(s.t) else Low(s.a) % Low(s.t)))
    case RetIfTBelowX => if s.t < s.x then End(Ret(0, s)) else Next(s)
    case RetIfXZero => if Low(s.x) == 0 then End(Ret(0, s)) else Next(s)
    case Branch(cmp, left, right, slot) =>
      if Compare(cmp, Low(s.Get(left)), Low(s.Value(right))) then End(To(slot, s)) else Next(s)
    case Jump(slot) => End(To(slot, s))
    case Return(src) => End(Ret(Low(s.Value(src)), s))
  }

  /** Runs the operations of a block in order. */
  function RunBlock(ops: seq<Op>, s: Machine, pkt: Packet): BlockEnd {
    if ops == [] then Fall(s)
    else
      match RunOp(ops[0], s, pkt)
      case Next(s') => RunBlock(ops[1..], s', pkt)
      case End(b) => b
  }

  lemma RunCons(op: Op, rest: seq<Op>, s: Machine, pkt: Packet)
    ensures RunBlock([op] + rest, s, pkt) ==
            var r := RunOp(op, s, pkt);
            if r.End? then r.b else RunBlock(rest, r.s, pkt)
  {
    assert ([op] + rest)[1..] == rest;
  }

  lemma RunOne(op: Op, s: Machine, pkt: Packet)
    ensures RunBlock([op], s, pkt) ==
            var r := RunOp(op, s, pkt);
            if r.End? then r.b else Fall(r.s)
  {
    assert [op][1..] == [];
  }

  // ----- the generator

  function Log2(k: nat): (r: nat)
    requires k > 0
    ensures r < k
  {
    if k == 1 then 0 else 1 + Log2(k / 2)
  }

  predicate IsPow2(k: nat) { k > 0 && BitAnd(k, k - 1) == 0 }

  /** kx_to_reg */
  function Source(src: Src, k: Word): Arg { match src case FromK => Imm(k) case FromX => In(RegX) }

  /** Instructions the generator refuses. */
  predicate Unsupported(cfg: Config, insn: Insn) {
    match insn
    case LdMem(k) => k >= cfg.Memwords()
    case LdxMem(k) => k >= cfg.Memwords()
    case St(k) => k >= cfg.Memwords()
    case Stx(k) => k >= cfg.Memwords()
    case Alu(op, _, k) => (op.Lsh? || op.Rsh?) && k > 31
    case _ => false
  }

  /** The bounds check in front of a packet read. */
  function CheckOps(d: InsnData): seq<Op> {
    if d.checkLength > UINT32_MAX then [RetZero]
    else if d.checkLength > 0 then [RetIfShort(d.checkLength)]
    else []
  }

  /** One more byte of a big-endian number. */
  function NextByte(k: nat, indexed: bool): seq<Op> {
    [LoadByte(RegT, k, indexed), Compute(MShl, RegA, RegA, Imm(8)), Compute(MAdd, RegA, RegA, In(RegT))]
  }

  /** emit_read8, emit_read16 and emit_read32 */
  function ReadBytes(w: Width, k: nat, indexed: bool): seq<Op> {
    [LoadByte(RegA, k, indexed)] +
    (match w
     case B => []
     case H => NextByte(k + 1, indexed)
     case W => NextByte(k + 1, indexed) + (NextByte(k + 2, indexed) + NextByte(k + 3, indexed)))
  }

  /** `k + width` is computed in 32 bits, and a wrapped-around read is not emitted. */
  function ReadOps(insn: Insn): seq<Op>
    requires insn.ReadsPacket()
  {
    match insn
    case LdxMsh(k) => [LoadByte(RegT, k, false), Compute(MAnd, RegT, RegT, Imm(0xf)), Compute(MShl, RegX, RegT, Imm(2))]
    case LdAbs(w, k) => if k <= UINT32_MAX - w.Bytes() + 1 then ReadBytes(w, k, false) else []
    case LdInd(w, k) =>
      [SubLength((k + w.Bytes()) % TWO32), RetIfTBelowX] +
      (if k <= UINT32_MAX - w.Bytes() + 1 then ReadBytes(w, k, true) else [])
  }

  /** emit_moddiv, emit_pow2_moddiv and the test for zero in front of them */
  function DivideOps(op: AluOp, src: Src, k: Word): seq<Op>
    requires op.Div? || op.Mod?
  {
    if src == FromX then [RetIfXZero, Mov(RegT, In(RegX)), DivideByT(op.Div?)]
    else if k == 0 then [RetZero]
    else if !IsPow2(k) then [Mov(RegT, Imm(k)), DivideByT(op.Div?)]
    else if op.Mod? then [Compute(MAnd, RegA, RegA, Imm(k - 1))]
    else if Log2(k) != 0 then [Compute(MShrInt, RegA, RegA, Imm(Log2(k)))]
    else []
  }

  /** bpf_alu_to_sljit_op */
  function CalcOf(op: AluOp): Calc
    requires !op.Div? && !op.Mod?
  {
    match op
    case Add => MAdd
    case Sub => MSub
    case Mul => MMulInt
    case Or => MOr
    case Xor => MXor
    case And => MAnd
    case Lsh => MShl
    case Rsh => MShrInt
  }

  /** bpf_jmp_to_sljit_cond */
  function CmpOf(c: Cond, negate: bool): Cmp {
    match c
    case Jgt => if negate then LessEqual else Greater
    case Jge => if negate then Less else GreaterEqual
    case Jeq => if negate then NotEqual else Equal
    case Jset => if negate then Equal else NotEqual
  }

  function BranchOps(c: Cond, src: Src, k: Word, negate: bool): seq<Op> {
    var slot := if negate then 1 else 0;
    if c.Jset? then [Compute(MAnd, RegT, RegA, Source(src, k)), Branch(CmpOf(c, negate), RegT, Imm(0), slot)]
    else [Branch(CmpOf(c, negate), RegA, Source(src, k), slot)]
  }

  function JumpOps(insn: Insn): seq<Op>
    requires insn.IsJump()
  {
    var jt, jf := insn.JumpTrue(), insn.JumpFalse();
    var branching := jt != jf;
    (if branching && insn.Jmp? then BranchOps(insn.cond, insn.src, insn.k, jt == 0) else []) +
    (if !branching || (jt != 0 && jf != 0) then [Jump(if branching then 1 else 0)] else [])
  }

  /** The block generated for one reachable instruction. */
  function Emit(insn: Insn, d: InsnData): seq<Op> {
    if insn.ReadsPacket() then
      CheckOps(d) + (if d.checkLength > UINT32_MAX then [] else ReadOps(insn))
    else if insn.IsJump() then JumpOps(insn)
    else
      match insn
      case LdImm(k) => [Mov(RegA, Imm(k))]
      case LdMem(k) => [LoadMem(RegA, k)]
      case LdLen => [MovLength(RegA)]
      case LdxImm(k) => [Mov(RegX, Imm(k))]
      case LdxMem(k) => [LoadMem(RegX, k)]
      case LdxLen => [MovLength(RegX)]
      case St(k) => [StoreMem(RegA, k)]
      case Stx(k) => [StoreMem(RegX, k)]
      case Alu(op, src, k) =>
        if op.Div? || op.Mod? then DivideOps(op, src, k)
        else [Compute(CalcOf(op), RegA, RegA, Source(src, k))]
      case Neg => [Negate]
      case RetK(k) => [Return(Imm(k))]
      case RetA => [Return(In(RegA))]
      case Tax => [MovInt(RegX, RegA)]
      case Txa => [Mov(RegA, In(RegX))]
  }

  /** The shift that divides by a power of two, found by halving. */
  method ShiftFor(k: nat) returns (shift: nat)
    requires k > 0
    ensures shift == Log2(k)
  {
    shift := 0;
    var n := k;
    while n > 1
      invariant n >= 1 && shift + Log2(n) == Log2(k)
    {
      n := n / 2;
      shift := shift + 1;
    }
  }

  /** emit_pow2_moddiv */
  method EmitPow2ModDiv(op: AluOp, k: Word) returns (ops: seq<Op>)
    requires IsPow2(k) && (op.Div? || op.Mod?)
    ensures ops == DivideOps(op, FromK, k)
  {
    if op.Mod? {
      return [Compute(MAnd, RegA, RegA, Imm(k - 1))];
    }
    var shift := ShiftFor(k);
    ops := if shift != 0 then [Compute(MShrInt, RegA, RegA, Imm(shift))] else [];
  }

  method EmitInsn(insn: Insn, d: InsnData) returns (ops: seq<Op>)
    ensures ops == Emit(insn, d)
  {
    hide IsPow2;
    if insn.Alu? && (insn.op.Div? || insn.op.Mod?) && insn.src == FromK && IsPow2(insn.k) {
      ops := EmitPow2ModDiv(insn.op, insn.k);
    } else {
      ops := Emit(insn, d);
    }
  }
}
