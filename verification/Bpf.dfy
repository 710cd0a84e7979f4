/**
 The BPF virtual machine as bpfjit understands it: instructions, machine
 state, and a reference interpreter that checks the bounds of every single
 packet read and returns 0 as soon as one check fails.

 Words are 32 bits wide; co-processor calls are not part of the language.
 */
module Bpf {

  const TWO32: int := 0x1_0000_0000
  const UINT32_MAX: int := 0xffff_ffff

  type Word = x: int | 0 <= x < 0x1_0000_0000
  type Byte = x: int | 0 <= x < 256

  datatype Src = FromK | FromX

  datatype AluOp = Add | Sub | Mul | Or | Xor | And | Lsh | Rsh | Div | Mod

  datatype Cond = Jgt | Jge | Jeq | Jset

  datatype Width = W | H | B {
    function Bytes(): (n: nat)
      ensures 1 <= n <= 4
    {
      match this case W => 4 case H => 2 case B => 1
    }
  }

  datatype Insn =
    | LdImm(k: Word)
    | LdMem(k: Word)
    | LdLen
    | LdAbs(w: Width, k: Word)
    | LdInd(w: Width, k: Word)
    | LdxImm(k: Word)
    | LdxMem(k: Word)
    | LdxLen
    | LdxMsh(k: Word)
    | St(k: Word)
    | Stx(k: Word)
    | Alu(op: AluOp, src: Src, k: Word)
    | Neg
    | Ja(k: Word)
    | Jmp(cond: Cond, src: Src, k: Word, jt: nat, jf: nat)
    | RetK(k: Word)
    | RetA
    | Tax
    | Txa
  {
    predicate IsJump() { Ja? || Jmp? }

    predicate IsRet() { RetK? || RetA? }

    predicate IsStore() { St? || Stx? }

    /** Does the instruction read the packet? */
    predicate ReadsPacket() { LdAbs? || LdInd? || LdxMsh? }

    /** The packet length below which a packet read cannot succeed. */
    function SafeLength(): (n: nat)
      requires ReadsPacket()
      ensures k + 1 <= n <= k + 4
    {
      if LdxMsh? then k + 1 else k + w.Bytes()
    }

    function JumpTrue(): nat requires IsJump() { if Ja? then k else jt }

    function JumpFalse(): nat requires IsJump() { if Ja? then k else jf }
  }

  type Program = seq<Insn>

  datatype Packet = Packet(bytes: seq<Byte>, wirelen: Word) {
    function Length(): nat { |bytes| }
  }

  /** `written` records which memory words the run has stored to so far. */
  datatype State = State(a: Word, x: Word, m: seq<Word>, written: set<nat>) {
    predicate HasWord(k: int) { 0 <= k < |m| }
  }

  datatype Outcome = Outcome(value: Word, final: State)

  datatype Flow = Goto(pc: nat, s: State) | Stop(value: Word)

  // ----- arithmetic

  function BitAnd(a: nat, b: nat): (r: nat)
    ensures r <= a && r <= b
  {
    if a == 0 || b == 0 then 0 else (a % 2) * (b % 2) + 2 * BitAnd(a / 2, b / 2)
  }

  function Pow2(n: nat): (r: nat)
    ensures r >= 1
  {
    if n == 0 then 1 else 2 * Pow2(n - 1)
  }

  /** The value of an ALU operation, or none when a divisor is zero. */
  function AluValue(op: AluOp, a: Word, b: Word): (r: seq<Word>)
    ensures |r| <= 1
    ensures r == [] <==> (op.Div? || op.Mod?) && b == 0
  {
    match op
    case Add => [(a + b) % TWO32]
    case Sub => [(a - b) % TWO32]
    case Mul => [(a * b) % TWO32]
    case And => [BitAnd(a, b)]
    case Or => [(a + b - BitAnd(a, b)) % TWO32]
    case Xor => [(a + b - 2 * BitAnd(a, b)) % TWO32]
    case Lsh => [if b < 32 then (a * Pow2(b)) % TWO32 else 0]
    case Rsh => [if b < 32 then (a / Pow2(b)) % TWO32 else 0]
    case Div => if b == 0 then [] else [(a / b) % TWO32]
    case Mod => if b == 0 then [] else [a % b]
  }

  predicate Holds(c: Cond, a: Word, b: Word) {
    match c
    case Jgt => a > b
    case Jge => a >= b
    case Jeq => a == b
    case Jset => BitAnd(a, b) != 0
  }

  function Operand(src: Src, k: Word, s: State): Word {
    match src case FromK => k case FromX => s.x
  }

  /** Big-endian value of `n` packet bytes starting at `off`. */
  function BigEndian(bytes: seq<Byte>, off: nat, n: nat): (r: Word)
    requires n <= 4
    requires off + n <= |bytes|
    ensures n == 1 ==> r < 256
    ensures n == 2 ==> r < 0x10000
    ensures n == 3 ==> r < 0x100_0000
  {
    var at := (i: int) requires 0 <= i < n => bytes[off + i] as int;
    if n == 0 then 0
    else if n == 1 then at(0)
    else if n == 2 then at(0) * 0x100 + at(1)
    else if n == 3 then at(0) * 0x10000 + at(1) * 0x100 + at(2)
    else at(0) * 0x100_0000 + at(1) * 0x10000 + at(2) * 0x100 + at(3)
  }

  // ----- reference interpreter

  function Store(s: State, k: Word, v: Word): State
    requires s.HasWord(k)
  {
    s.(m := s.m[k := v], written := s.written + {k})
  }

  /** One instruction, with a bounds check on every packet read. */
  function Step(i: Insn, pc: nat, s: State, pkt: Packet): (f: Flow)
    ensures f.Goto? ==> pc < f.pc && |f.s.m| == |s.m|
  {
    match i
    case LdImm(k) => Goto(pc + 1, s.(a := k))
    case LdMem(k) => if s.HasWord(k) then Goto(pc + 1, s.(a := s.m[k])) else Stop(0)
    case LdLen => Goto(pc + 1, s.(a := pkt.wirelen))
    case LdAbs(w, k) =>
      if k + w.Bytes() <= pkt.Length()
      then Goto(pc + 1, s.(a := BigEndian(pkt.bytes, k, w.Bytes())))
      else Stop(0)
    case LdInd(w, k) =>
      if s.x + k + w.Bytes() <= pkt.Length()
      then Goto(pc + 1, s.(a := BigEndian(pkt.bytes, s.x + k, w.Bytes())))
      else Stop(0)
    case LdxImm(k) => Goto(pc + 1, s.(x := k))
    case LdxMem(k) => if s.HasWord(k) then Goto(pc + 1, s.(x := s.m[k])) else Stop(0)
    case LdxLen => Goto(pc + 1, s.(x := pkt.wirelen))
    case LdxMsh(k) =>
      if k + 1 <= pkt.Length()
      then Goto(pc + 1, s.(x := 4 * (pkt.bytes[k] % 16)))
      else Stop(0)
    case St(k) => if s.HasWord(k) then Goto(pc + 1, Store(s, k, s.a)) else Stop(0)
    case Stx(k) => if s.HasWord(k) then Goto(pc + 1, Store(s, k, s.x)) else Stop(0)
    case Alu(op, src, k) =>
      var r := AluValue(op, s.a, Operand(src, k, s));
      if r == [] then Stop(0) else Goto(pc + 1, s.(a := r[0]))
    case Neg => Goto(pc + 1, s.(a := (TWO32 - s.a) % TWO32))
    case Ja(k) => Goto(pc + 1 + k, s)
    case Jmp(c, src, k, jt, jf) =>
      Goto(pc + 1 + (if Holds(c, s.a, Operand(src, k, s)) then jt else jf), s)
    case RetK(k) => Stop(k)
    case RetA => Stop(s.a)
    case Tax => Goto(pc + 1, s.(x := s.a))
    case Txa => Goto(pc + 1, s.(a := s.x))
  }

  /** Runs from `pc`; leaving the program returns 0. */
  function Run(prog: Program, pc: nat, s: State, pkt: Packet): (o: Outcome)
    ensures |o.final.m| == |s.m|
    decreases |prog| - pc
  {
    if pc >= |prog| then Outcome(0, s)
    else
      match Step(prog[pc], pc, s, pkt)
      case Stop(v) => Outcome(v, s)
      case Goto(pc', s') => Run(prog, pc', s', pkt)
  }

  /** The instructions a run executes. */
  function Visited(prog: Program, pc: nat, s: State, pkt: Packet): set<nat>
    decreases |prog| - pc
  {
    if pc >= |prog| then {}
    else
      match Step(prog[pc], pc, s, pkt)
      case Stop(_) => {pc}
      case Goto(pc', s') => {pc} + Visited(prog, pc', s', pkt)
  }

  // ----- arithmetic facts used by the code generator

  /** Masking with 2^n - 1 is the remainder modulo 2^n. */
  lemma {:induction false} MaskIsMod(a: nat, n: nat)
    ensures BitAnd(a, Pow2(n) - 1) == a % Pow2(n)
    decreases n
  {
    if n == 0 {
    } else if a == 0 {
      assert 0 % Pow2(n) == 0;
    } else {
      var p := Pow2(n - 1);
      MaskIsMod(a / 2, n - 1);
      assert (2 * p - 1) % 2 == 1 && (2 * p - 1) / 2 == p - 1;
      ModDouble(a, p);
    }
  }

  lemma ModDouble(a: nat, p: nat)
    requires p >= 1
    ensures a % (2 * p) == a % 2 + 2 * ((a / 2) % p)
  {
    var q, r := (a / 2) / p, (a / 2) % p;
    assert a == 2 * (q * p + r) + a % 2;
    assert a == q * (2 * p) + (2 * r + a % 2) by {
      assert 2 * (q * p + r) == q * (2 * p) + 2 * r;
    }
    RemainderUnique(a, 2 * p, q, 2 * r + a % 2);
  }

  lemma RemainderUnique(a: int, d: int, q: int, r: int)
    requires 0 < d && 0 <= r < d
    requires a == q * d + r
    ensures a % d == r && a / d == q
  {
    var q', r' := a / d, a % d;
    assert a == d * q' + r';
    assert (q - q') * d == r' - r by { assert (q - q') * d == q * d - d * q'; }
    if q > q' {
      MulAtLeast(q - q', d);
    } else if q < q' {
      MulAtLeast(q' - q, d);
    }
  }

  lemma MulAtLeast(x: int, d: int)
    requires x >= 1 && d > 0
    ensures x * d >= d
  {
  }
}
