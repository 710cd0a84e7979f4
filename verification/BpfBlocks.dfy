/**
 Every generated block does on the 64-bit machine what its instruction does on
 32-bit words: the low half of A and all of X follow the reference, whatever the
 upper half of A holds.
 */
module BpfBlocks {
  import opened Bpf
  import opened BpfOptimizer
  import opened BpfMachine

  // ----- arithmetic on low halves

  lemma RemainderOf(v: int, q: int)
    ensures (q * TWO32 + v) % TWO32 == v % TWO32
  {
  }

  lemma ModMod(v: int)
    ensures v % TWO64 % TWO32 == v % TWO32
  {
    var q, r := v / TWO64, v % TWO64;
    assert v == (q * TWO32) * TWO32 + r;
    RemainderOf(r, q * TWO32);
  }

  lemma SumMod(a: int, b: int)
    ensures (a + b) % TWO32 == (a % TWO32 + b % TWO32) % TWO32
    ensures (a - b) % TWO32 == (a % TWO32 - b % TWO32) % TWO32
  {
    var p, q := a / TWO32, b / TWO32;
    assert a + b == (p + q) * TWO32 + (a % TWO32 + b % TWO32);
    assert a - b == (p - q) * TWO32 + (a % TWO32 - b % TWO32);
    RemainderOf(a % TWO32 + b % TWO32, p + q);
    RemainderOf(a % TWO32 - b % TWO32, p - q);
  }

  lemma LowSum(l: Wide, r: Wide)
    ensures Low((l + r) % TWO64) == (Low(l) + Low(r)) % TWO32
    ensures Low((l - r) % TWO64) == (Low(l) - Low(r)) % TWO32
  {
    ModMod(l + r);
    ModMod(l - r);
    SumMod(l, r);
  }

  lemma LowNegated(l: Wide)
    ensures Low((TWO64 - l) % TWO64) == (TWO32 - Low(l)) % TWO32
  {
    ModMod(TWO64 - l);
    SumMod(TWO64, l);
    var v: int := Low(l);
    RemainderOf(-v, 1);
  }

  lemma BitStep(c: Connective, a: nat, b: nat, n: nat)
    ensures Bitwise(c, a, b, n + 1) == (if c.Of(Odd(a), Odd(b)) then 1 else 0) + 2 * Bitwise(c, a / 2, b / 2, n)
    ensures Pow2(n + 1) == 2 * Pow2(n)
  {
  }

  /** The low bits of a bitwise result depend on the low bits only. */
  lemma {:induction false} BitwiseLow(c: Connective, a: nat, b: nat, n: nat, m: nat)
    ensures Bitwise(c, a, b, n + m) % Pow2(n) == Bitwise(c, a % Pow2(n), b % Pow2(n), n)
    decreases n
  {
    if n > 0 {
      BitwiseLowStep(c, a, b, n - 1, m);
    }
  }

  lemma BitwiseLowStep(c: Connective, a: nat, b: nat, n: nat, m: nat)
    ensures Bitwise(c, a, b, n + 1 + m) % Pow2(n + 1) == Bitwise(c, a % Pow2(n + 1), b % Pow2(n + 1), n + 1)
    decreases n + 1, 0
  {
    hide Bitwise, Pow2;
    var p := Pow2(n);
    BitwiseLow(c, a / 2, b / 2, n, m);
    LowBit(a, p);
    LowBit(b, p);
    var r, r' := Bitwise(c, a / 2, b / 2, n + m), Bitwise(c, a / 2 % p, b / 2 % p, n);
    var bit := if c.Of(Odd(a), Odd(b)) then 1 else 0;
    BitStep(c, a, b, n + m);
    BitStep(c, a % (2 * p), b % (2 * p), n);
    DoubledMod(bit, r, p);
  }

  lemma DoubledMod(bit: nat, r: nat, p: nat)
    requires bit < 2 && p >= 1
    ensures (bit + 2 * r) % (2 * p) == bit + 2 * (r % p)
  {
    ModDouble(bit + 2 * r, p);
  }

  lemma LowBit(a: nat, p: nat)
    requires p >= 1
    ensures a % (2 * p) / 2 == a / 2 % p && Odd(a % (2 * p)) == Odd(a)
  {
    ModDouble(a, p);
  }

  /** Joining bits, as arithmetic. */
  lemma {:induction false} BitwiseIs(a: nat, b: nat, n: nat)
    requires a < Pow2(n) && b < Pow2(n)
    ensures Bitwise(Conj, a, b, n) == BitAnd(a, b)
    ensures Bitwise(Disj, a, b, n) == a + b - BitAnd(a, b)
    ensures Bitwise(Excl, a, b, n) == a + b - 2 * BitAnd(a, b)
    decreases n
  {
    if n > 0 {
      BitwiseIs(a / 2, b / 2, n - 1);
      AndStep(a, b);
    }
  }

  lemma AndStep(a: nat, b: nat)
    ensures BitAnd(a, b) == (if Odd(a) && Odd(b) then 1 else 0) + 2 * BitAnd(a / 2, b / 2)
  {
    hide BitAnd;
    AndUnfold(a, b);
    if a % 2 == 0 {
      assert (a % 2) * (b % 2) == 0;
    } else {
      assert (a % 2) * (b % 2) == b % 2;
    }
  }

  lemma AndUnfold(a: nat, b: nat)
    ensures BitAnd(a, b) == (a % 2) * (b % 2) + 2 * BitAnd(a / 2, b / 2)
  {
    if a == 0 || b == 0 {
      assert BitAnd(a, b) == 0 && BitAnd(a / 2, b / 2) == 0;
      assert (a % 2) * (b % 2) == 0;
    }
  }

  lemma WideLow(c: Connective, l: Wide, r: Wide)
    ensures Low(Wide64(c, l, r)) == Bitwise(c, Low(l), Low(r), 32)
    ensures Low(l) < Pow2(32) && Low(r) < Pow2(32)
  {
    hide Bitwise, Pow2;
    SixtyFour();
    BitwiseLow(c, l, r, 32, 32);
  }

  lemma LowLogic(l: Wide, r: Wide)
    ensures Low(Wide64(Conj, l, r)) == BitAnd(Low(l), Low(r))
    ensures Low(Wide64(Disj, l, r)) == (Low(l) + Low(r) - BitAnd(Low(l), Low(r))) % TWO32
    ensures Low(Wide64(Excl, l, r)) == (Low(l) + Low(r) - 2 * BitAnd(Low(l), Low(r))) % TWO32
  {
    hide Bitwise, Wide64, BitAnd, Pow2;
    SixtyFour();
    WideLow(Conj, l, r);
    WideLow(Disj, l, r);
    WideLow(Excl, l, r);
    BitwiseIs(Low(l), Low(r), 32);
  }

  lemma ProductLow(v: int, p: int)
    ensures (v % TWO32 * p) % TWO32 == (v * p) % TWO32
  {
    var q := v / TWO32;
    assert v == q * TWO32 + v % TWO32;
    assert v * p == (q * p) * TWO32 + v % TWO32 * p;
    RemainderOf(v % TWO32 * p, q * p);
  }

  lemma {:induction false} DoubledLow(v: Wide, n: nat)
    ensures Low(Doubled(v, n)) == (Low(v) * Pow2(n)) % TWO32
  {
    if n > 0 {
      DoubledLow(v, n - 1);
      DoubleLow(Doubled(v, n - 1), Low(v), Pow2(n - 1));
    }
  }

  lemma DoubleLow(d: Wide, v: Word, p: nat)
    requires Low(d) == (v * p) % TWO32
    ensures Low(2 * d % TWO64) == (v * (2 * p)) % TWO32
  {
    ModMod(2 * d);
    ProductLow(d, 2);
    ProductLow(v * p, 2);
    assert v * (2 * p) == v * p * 2;
  }

  lemma {:induction false} HalvedIs(v: Word, n: nat)
    ensures Halved(v, n) == v / Pow2(n)
  {
    if n > 0 {
      HalvedIs(v, n - 1);
      DivTwice(v, Pow2(n - 1));
    }
  }

  lemma DivTwice(v: nat, p: nat)
    requires p >= 1
    ensures v / p / 2 == v / (2 * p)
  {
    var q := v / p / 2;
    var r := v - q * (2 * p);
    assert v == p * (v / p) + v % p && v / p == 2 * q + v / p % 2;
    assert p * (2 * q + v / p % 2) == q * (2 * p) + p * (v / p % 2);
    assert p * (v / p % 2) == 0 || p * (v / p % 2) == p;
    RemainderUnique(v, 2 * p, q, r);
  }

  /** Shifting by 32 or more leaves nothing of a word. */
  lemma ShiftedOut(v: Word, n: nat)
    requires n >= 32
    ensures (v * Pow2(n)) % TWO32 == 0 && v / Pow2(n) == 0
  {
    hide Pow2;
    SixtyFour();
    PowAdd(32, n - 32);
    var p := Pow2(n - 32);
    assert v * (TWO32 * p) == (v * p) * TWO32 + 0;
    RemainderOf(0, v * p);
    assert TWO32 * p >= TWO32;
    RemainderUnique(v, TWO32 * p, 0, v);
  }

  /** The machine's arithmetic is the language's. */
  lemma CalculateLow(op: AluOp, l: Wide, r: Word)
    requires !op.Div? && !op.Mod?
    ensures [Low(Calculate(CalcOf(op), l, r))] == AluValue(op, Low(l), r)
  {
    hide Wide64, BitAnd, Doubled, Halved, Pow2, Low;
    match op
    case Add => LowSum(l, r); LowWord(r);
    case Sub => LowSum(l, r); LowWord(r);
    case Mul => LowWord(r); LowWord((Low(l) * r) % TWO32);
    case Lsh => ShiftLeftLow(l, r);
    case Rsh => ShiftRightLow(l, r); LowWord(r);
    case And => LowLogic(l, r); LowWord(r);
    case Or => LowLogic(l, r); LowWord(r);
    case Xor => LowLogic(l, r); LowWord(r);
  }

  lemma LowWord(r: Word)
    ensures Low(r) == r
  {
  }

  lemma ShiftLeftLow(l: Wide, r: Word)
    ensures Low(Doubled(l, r)) == if r < 32 then (Low(l) * Pow2(r)) % TWO32 else 0
  {
    hide Doubled, Pow2, Low;
    DoubledLow(l, r);
    if r >= 32 { ShiftedOut(Low(l), r); }
  }

  lemma ShiftRightLow(l: Wide, r: Word)
    ensures Low(Halved(Low(l), r)) == if r < 32 then (Low(l) / Pow2(r)) % TWO32 else 0
  {
    hide Halved, Pow2;
    HalvedIs(Low(l), r);
    if r >= 32 { ShiftedOut(Low(l), r); }
  }

  // ----- states

  /** The machine state represents the reference state. */
  ghost predicate Shows(m: Machine, s: State) {
    Low(m.a) == s.a && Low(m.x) == s.x && m.m == s.m && m.written == s.written
  }

  /** X has no upper half. */
  predicate Clean(m: Machine) { m.x < TWO32 }

  /** The block ends as the flow says; X is clean if it was, or has been set. */
  ghost predicate Ends(insn: Insn, b: BlockEnd, m: Machine, s: State, f: Flow) {
    match f
    case Stop(v) => b.Ret? && b.value == v && Shows(b.s, s)
    case Goto(_, s') => (b.Fall? || b.To?) && Shows(b.s, s') && ((Clean(m) || X in Defines(insn)) ==> Clean(b.s))
  }

  /** The block falls through, or returns. */
  ghost predicate Does(insn: Insn, b: BlockEnd, m: Machine, s: State, pkt: Packet) {
    Ends(insn, b, m, s, Step(insn, 0, s, pkt)) && !b.To?
  }

  // ----- packet reads

  lemma EightTimes(v: Wide)
    requires v < 0x100_0000
    ensures Calculate(MShl, v, 8) == v * 256
    ensures v < 16 ==> Calculate(MShl, v, 2) == v * 4
  {
    assert Doubled(v, 1) == v * 2;
    assert Doubled(v, 2) == v * 4;
    assert Doubled(v, 3) == v * 8;
    assert Doubled(v, 4) == v * 16;
    assert Doubled(v, 5) == v * 32;
    assert Doubled(v, 6) == v * 64;
    assert Doubled(v, 7) == v * 128;
  }

  /** Reading one more byte shifts what has been read. */
  lemma NextByteRuns(k: nat, indexed: bool, rest: seq<Op>, m: Machine, pkt: Packet)
    requires var at := (if indexed then m.x else 0) + k; at < pkt.Length()
    requires m.a < 0x100_0000
    ensures var byte := pkt.bytes[(if indexed then m.x else 0) + k];
            RunBlock(NextByte(k, indexed) + rest, m, pkt) == RunBlock(rest, m.(a := m.a * 256 + byte, t := byte), pkt)
  {
    hide RunBlock, Calculate;
    var load, shift, add := LoadByte(RegT, k, indexed), Compute(MShl, RegA, RegA, Imm(8)), Compute(MAdd, RegA, RegA, In(RegT));
    var byte := pkt.bytes[(if indexed then m.x else 0) + k];
    var m1 := m.(t := byte);
    EightTimes(m.a);
    var m2 := m1.(a := m.a * 256);
    assert RunOp(load, m, pkt) == Next(m1) && RunOp(shift, m1, pkt) == Next(m2);
    assert NextByte(k, indexed) + rest == [load] + ([shift] + ([add] + rest));
    RunCons(load, [shift] + ([add] + rest), m, pkt);
    RunCons(shift, [add] + rest, m1, pkt);
    RunCons(add, rest, m2, pkt);
    SumFits(m2.a, m2.t);
  }

  lemma SumFits(l: Wide, r: Wide)
    ensures l + r < TWO64 ==> Calculate(MAdd, l, r) == l + r
  {
  }

  /** The bytes of a packet read, one by one, make the big-endian number. */
  lemma ReadBytesRuns(w: Width, k: nat, indexed: bool, m: Machine, pkt: Packet)
    requires (if indexed then m.x else 0) + k + w.Bytes() <= pkt.Length()
    ensures var b := RunBlock(ReadBytes(w, k, indexed), m, pkt);
            b.Fall? && b.s == m.(a := BigEndian(pkt.bytes, (if indexed then m.x else 0) + k, w.Bytes()), t := b.s.t)
  {
    hide RunBlock, NextByte, BigEndian, RunOp;
    var load := LoadByte(RegA, k, indexed);
    var at := (if indexed then m.x else 0) + k;
    var m1 := m.(a := pkt.bytes[at]);
    FirstByte(k, indexed, m, pkt);
    RunNone(m1, pkt);
    BytesJoin(w, pkt.bytes, at);
    match w
    case B =>
      RunCons(load, [], m, pkt);
    case H =>
      RunCons(load, NextByte(k + 1, indexed), m, pkt);
      assert NextByte(k + 1, indexed) + [] == NextByte(k + 1, indexed);
      NextByteRuns(k + 1, indexed, [], m1, pkt);
      RunNone(m1.(a := m1.a * 256 + pkt.bytes[at + 1], t := pkt.bytes[at + 1]), pkt);
    case W =>
      RunCons(load, NextByte(k + 1, indexed) + (NextByte(k + 2, indexed) + NextByte(k + 3, indexed)), m, pkt);
      ThreeMore(k, indexed, m1, pkt);
  }

  lemma FirstByte(k: nat, indexed: bool, m: Machine, pkt: Packet)
    requires (if indexed then m.x else 0) + k < pkt.Length()
    ensures RunOp(LoadByte(RegA, k, indexed), m, pkt) == Next(m.(a := pkt.bytes[(if indexed then m.x else 0) + k]))
  {
  }

  /** The big-endian number, digit by digit in base 256. */
  lemma BytesJoin(w: Width, bytes: seq<Byte>, at: nat)
    requires at + w.Bytes() <= |bytes|
    ensures w.B? ==> BigEndian(bytes, at, 1) == bytes[at]
    ensures w.H? ==> BigEndian(bytes, at, 2) == (bytes[at] as int) * 256 + bytes[at + 1]
    ensures w.W? ==> BigEndian(bytes, at, 4) == (((bytes[at] as int) * 256 + bytes[at + 1]) * 256 + bytes[at + 2]) * 256 + bytes[at + 3]
  {
  }

  lemma RunNone(m: Machine, pkt: Packet)
    ensures RunBlock([], m, pkt) == Fall(m)
  {
  }

  lemma ThreeMore(k: nat, indexed: bool, m: Machine, pkt: Packet)
    requires (if indexed then m.x else 0) + k + 4 <= pkt.Length() && m.a < 256
    ensures var b := RunBlock(NextByte(k + 1, indexed) + (NextByte(k + 2, indexed) + NextByte(k + 3, indexed)), m, pkt);
            var at := (if indexed then m.x else 0) + k;
            && b.Fall?
            && b.s == m.(a := ((m.a * 256 + pkt.bytes[at + 1]) * 256 + pkt.bytes[at + 2]) * 256 + pkt.bytes[at + 3], t := b.s.t)
  {
    hide RunBlock, NextByte;
    var at := (if indexed then m.x else 0) + k;
    var m1 := m.(a := m.a * 256 + pkt.bytes[at + 1], t := pkt.bytes[at + 1]);
    var m2 := m1.(a := m1.a * 256 + pkt.bytes[at + 2], t := pkt.bytes[at + 2]);
    var m3 := m2.(a := m2.a * 256 + pkt.bytes[at + 3], t := pkt.bytes[at + 3]);
    NextByteRuns(k + 1, indexed, NextByte(k + 2, indexed) + NextByte(k + 3, indexed), m, pkt);
    NextByteRuns(k + 2, indexed, NextByte(k + 3, indexed), m1, pkt);
    assert NextByte(k + 3, indexed) + [] == NextByte(k + 3, indexed);
    NextByteRuns(k + 3, indexed, [], m2, pkt);
    RunNone(m3, pkt);
  }

  /** X = 4 * (byte & 0xf) */
  lemma MshRuns(k: Word, m: Machine, s: State, pkt: Packet)
    requires Shows(m, s) && k < pkt.Length()
    ensures Does(LdxMsh(k), RunBlock(ReadOps(LdxMsh(k)), m, pkt), m, s, pkt)
  {
    hide RunBlock, Calculate;
    var load, mask, shift := LoadByte(RegT, k, false), Compute(MAnd, RegT, RegT, Imm(0xf)), Compute(MShl, RegX, RegT, Imm(2));
    var m1 := RunOp(load, m, pkt).s;
    var m2 := RunOp(mask, m1, pkt).s;
    assert ReadOps(LdxMsh(k)) == [load] + ([mask] + [shift]);
    RunCons(load, [mask] + [shift], m, pkt);
    RunCons(mask, [shift], m1, pkt);
    RunOne(shift, m2, pkt);
    NibbleMask(pkt.bytes[k]);
    EightTimes(m2.t);
  }

  lemma NibbleMask(v: Byte)
    ensures Calculate(MAnd, v, 0xf) == v % 16
  {
    hide Bitwise, Pow2;
    SixtyFour();
    BitwiseIs(v, 0xf, 64);
    Sixteen();
    MaskIsMod(v, 4);
  }

  lemma AbsRuns(w: Width, k: Word, m: Machine, s: State, pkt: Packet)
    requires Shows(m, s) && k + w.Bytes() <= pkt.Length() <= UINT32_MAX
    ensures Does(LdAbs(w, k), RunBlock(ReadOps(LdAbs(w, k)), m, pkt), m, s, pkt)
  {
    hide RunBlock, BigEndian, ReadBytes;
    ReadBytesRuns(w, k, false, m, pkt);
  }

  /** The subtraction does not wrap around and the test against X decides whether the read is in bounds. */
  lemma IndexedReadRuns(w: Width, k: Word, m: Machine, s: State, pkt: Packet)
    requires Shows(m, s) && Clean(m) && k + w.Bytes() <= pkt.Length() <= UINT32_MAX
    ensures Does(LdInd(w, k), RunBlock(ReadOps(LdInd(w, k)), m, pkt), m, s, pkt)
  {
    hide RunBlock, BigEndian, ReadBytes, Low;
    var sub, test := SubLength(k + w.Bytes()), RetIfTBelowX;
    assert (k + w.Bytes()) % TWO32 == k + w.Bytes();
    LowWord(m.x);
    var m1 := m.(t := pkt.Length() - (k + w.Bytes()));
    assert RunOp(sub, m, pkt) == Next(m1);
    assert ReadOps(LdInd(w, k)) == [sub] + ([test] + ReadBytes(w, k, true));
    RunCons(sub, [test] + ReadBytes(w, k, true), m, pkt);
    RunCons(test, ReadBytes(w, k, true), m1, pkt);
    if m.x + k + w.Bytes() <= pkt.Length() {
      ReadBytesRuns(w, k, true, m1, pkt);
      LowWord(BigEndian(pkt.bytes, m.x + k, w.Bytes()));
    }
  }

  /** Reads are reached only with `buflen >= k + width`, so loads are in bounds and nothing wraps. */
  lemma ReadBlock(insn: Insn, d: InsnData, m: Machine, s: State, pkt: Packet)
    requires insn.ReadsPacket() && Shows(m, s) && (X in Uses(insn) ==> Clean(m))
    requires insn.SafeLength() <= pkt.Length() <= UINT32_MAX && d.checkLength <= pkt.Length()
    ensures Does(insn, RunBlock(Emit(insn, d), m, pkt), m, s, pkt)
  {
    hide RunBlock, BigEndian, ReadOps, Does;
    match insn {
      case LdxMsh(k) => MshRuns(k, m, s, pkt);
      case LdAbs(w, k) => AbsRuns(w, k, m, s, pkt);
      case LdInd(w, k) => IndexedReadRuns(w, k, m, s, pkt);
    }
    var ops := ReadOps(insn);
    if d.checkLength == 0 {
      assert Emit(insn, d) == ops;
    } else {
      assert Emit(insn, d) == [RetIfShort(d.checkLength)] + ops;
      RunCons(RetIfShort(d.checkLength), ops, m, pkt);
    }
  }

  /** A failed check returns 0 and leaves the state alone. */
  lemma FailedCheckBlock(insn: Insn, d: InsnData, m: Machine, pkt: Packet)
    requires insn.ReadsPacket() && pkt.Length() < d.checkLength && pkt.Length() <= UINT32_MAX
    ensures RunBlock(Emit(insn, d), m, pkt) == Ret(0, m)
  {
    var ops := if d.checkLength > UINT32_MAX then [] else ReadOps(insn);
    RunCons(CheckOps(d)[0], ops, m, pkt);
  }

  // ----- jumps

  lemma OperandShown(src: Src, k: Word, m: Machine, s: State)
    requires Shows(m, s)
    ensures Low(m.Value(Source(src, k))) == Operand(src, k, s)
    ensures (src == FromX && !Clean(m)) || m.Value(Source(src, k)) == Operand(src, k, s)
  {
  }

  /** The branch is taken exactly if the condition holds, or fails when it is negated. */
  lemma BranchRuns(c: Cond, src: Src, k: Word, negate: bool, rest: seq<Op>, m: Machine, s: State, pkt: Packet)
    requires Shows(m, s)
    ensures var b := RunBlock(BranchOps(c, src, k, negate) + rest, m, pkt);
            exists m' :: Shows(m', s) && m'.x == m.x &&
              b == if Holds(c, s.a, Operand(src, k, s)) != negate then To(if negate then 1 else 0, m') else RunBlock(rest, m', pkt)
  {
    hide RunBlock, BitAnd, Calculate;
    OperandShown(src, k, m, s);
    var slot := if negate then 1 else 0;
    if c.Jset? {
      var mask, br := Compute(MAnd, RegT, RegA, Source(src, k)), Branch(CmpOf(c, negate), RegT, Imm(0), slot);
      var m' := RunOp(mask, m, pkt).s;
      assert BranchOps(c, src, k, negate) + rest == [mask] + ([br] + rest);
      RunCons(mask, [br] + rest, m, pkt);
      RunCons(br, rest, m', pkt);
      MaskLow(m.a, m.Value(Source(src, k)));
      assert Shows(m', s);
    } else {
      var br := Branch(CmpOf(c, negate), RegA, Source(src, k), slot);
      RunCons(br, rest, m, pkt);
    }
  }

  lemma MaskLow(l: Wide, r: Wide)
    ensures Low(Calculate(MAnd, l, r)) == BitAnd(Low(l), Low(r))
  {
    LowLogic(l, r);
  }

  /** Which way a jump block goes: fall through, slot 0 or slot 1. */
  lemma JumpOpsRun(insn: Insn, m: Machine, s: State, pkt: Packet)
    requires insn.IsJump() && Shows(m, s)
    ensures var taken := insn.Ja? || Holds(insn.cond, s.a, Operand(insn.src, insn.k, s));
            var b := RunBlock(JumpOps(insn), m, pkt);
            && (b.Fall? || b.To?) && Shows(b.s, s) && b.s.x == m.x
            && if insn.JumpTrue() == insn.JumpFalse() then b.To? && b.slot == 0
               else if taken then (if insn.JumpTrue() == 0 then b.Fall? else b.To? && b.slot == 0)
               else if insn.JumpFalse() == 0 then b.Fall? else b.To? && b.slot == 1
  {
    hide RunBlock, Holds, BranchOps;
    var jt, jf := insn.JumpTrue(), insn.JumpFalse();
    if jt == jf {
      assert JumpOps(insn) == [Jump(0)];
      RunOne(Jump(0), m, pkt);
    } else {
      var rest := if jt != 0 && jf != 0 then [Jump(1)] else [];
      assert JumpOps(insn) == BranchOps(insn.cond, insn.src, insn.k, jt == 0) + rest;
      BranchRuns(insn.cond, insn.src, insn.k, jt == 0, rest, m, s, pkt);
      var m' :| Shows(m', s) && m'.x == m.x &&
        RunBlock(JumpOps(insn), m, pkt) == if Holds(insn.cond, s.a, Operand(insn.src, insn.k, s)) != (jt == 0) then To(if jt == 0 then 1 else 0, m') else RunBlock(rest, m', pkt);
      RunOne(Jump(1), m', pkt);
      RunNone(m', pkt);
    }
  }

  // ----- all other instructions

  lemma PlainBlock(cfg: Config, insn: Insn, d: InsnData, m: Machine, s: State, pkt: Packet)
    requires !insn.IsJump() && !insn.ReadsPacket() && !Unsupported(cfg, insn) && |s.m| == cfg.Memwords()
    requires Shows(m, s) && (X in Uses(insn) ==> Clean(m))
    ensures Does(insn, RunBlock(Emit(insn, d), m, pkt), m, s, pkt)
  {
    if insn.Alu? && (insn.op.Div? || insn.op.Mod?) {
      DivideBlock(insn.op, insn.src, insn.k, m, s, pkt);
    } else if insn.Alu? {
      ArithmeticBlock(insn.op, insn.src, insn.k, d, m, s, pkt);
    } else {
      MoveBlock(cfg, insn, d, m, s, pkt);
    }
  }

  lemma MoveBlock(cfg: Config, insn: Insn, d: InsnData, m: Machine, s: State, pkt: Packet)
    requires !insn.IsJump() && !insn.ReadsPacket() && !insn.Alu? && !Unsupported(cfg, insn) && |s.m| == cfg.Memwords()
    requires Shows(m, s) && (X in Uses(insn) ==> Clean(m))
    ensures Does(insn, RunBlock(Emit(insn, d), m, pkt), m, s, pkt)
  {
    hide RunBlock, Low, CheckOps, ReadOps, JumpOps, DivideOps, AluValue, BigEndian;
    var op := Emit(insn, d)[0];
    assert Emit(insn, d) == [op];
    RunOne(op, m, pkt);
    LowNegated(m.a);
    LowWord(s.a);
    LowWord(pkt.wirelen);
    match insn
    case LdImm(k) => LowWord(k);
    case LdMem(k) => LowWord(s.m[k]);
    case LdxImm(k) => LowWord(k);
    case LdxMem(k) => LowWord(s.m[k]);
    case RetK(k) => LowWord(k);
    case _ =>
  }

  lemma ArithmeticBlock(op: AluOp, src: Src, k: Word, d: InsnData, m: Machine, s: State, pkt: Packet)
    requires !op.Div? && !op.Mod? && Shows(m, s) && (src == FromX ==> Clean(m))
    ensures Does(Alu(op, src, k), RunBlock(Emit(Alu(op, src, k), d), m, pkt), m, s, pkt)
  {
    hide RunBlock, Calculate, AluValue;
    OperandShown(src, k, m, s);
    CalculateLow(op, m.a, Operand(src, k, s));
    RunOne(Compute(CalcOf(op), RegA, RegA, Source(src, k)), m, pkt);
  }

  lemma DivideBlock(op: AluOp, src: Src, k: Word, m: Machine, s: State, pkt: Packet)
    requires (op.Div? || op.Mod?) && Shows(m, s) && (src == FromX ==> Clean(m))
    ensures Does(Alu(op, src, k), RunBlock(DivideOps(op, src, k), m, pkt), m, s, pkt)
  {
    hide RunBlock, IsPow2, Low, Does;
    OperandShown(src, k, m, s);
    if src == FromX {
      var mov := Mov(RegT, In(RegX));
      assert DivideOps(op, src, k) == [RetIfXZero] + ([mov] + [DivideByT(op.Div?)]);
      RunCons(RetIfXZero, [mov] + [DivideByT(op.Div?)], m, pkt);
      DivideRuns(op, src, k, In(RegX), m, s, pkt);
      if s.x == 0 { ReturnsZero(op, src, k, m, s, pkt); }
    } else if k == 0 {
      RunOne(RetZero, m, pkt);
      ReturnsZero(op, src, k, m, s, pkt);
    } else if IsPow2(k) {
      PowerOfTwoBlock(op, k, m, s, pkt);
    } else {
      assert DivideOps(op, src, k) == [Mov(RegT, Imm(k))] + [DivideByT(op.Div?)];
      DivideRuns(op, src, k, Imm(k), m, s, pkt);
    }
  }

  lemma ReturnsZero(op: AluOp, src: Src, k: Word, m: Machine, s: State, pkt: Packet)
    requires (op.Div? || op.Mod?) && Shows(m, s) && Operand(src, k, s) == 0
    ensures Does(Alu(op, src, k), Ret(0, m), m, s, pkt)
  {
    hide Low;
  }

  /** The division itself, for a divisor that is not zero. */
  lemma DivideRuns(op: AluOp, src: Src, k: Word, arg: Arg, m: Machine, s: State, pkt: Packet)
    requires (op.Div? || op.Mod?) && Shows(m, s) && m.Value(arg) == Operand(src, k, s)
    ensures Operand(src, k, s) != 0 ==>
              Does(Alu(op, src, k), RunBlock([Mov(RegT, arg)] + [DivideByT(op.Div?)], m, pkt), m, s, pkt)
  {
    hide RunBlock, Low;
    var b := Operand(src, k, s);
    if b != 0 {
      var mov, divide := Mov(RegT, arg), DivideByT(op.Div?);
      RunCons(mov, [divide], m, pkt);
      RunOne(divide, m.(t := b), pkt);
      QuotientFits(s.a, b);
      LowWord(b);
      LowWord(s.a / b);
      LowWord(s.a % b);
    }
  }

  lemma QuotientFits(a: Word, b: Word)
    ensures b != 0 ==> 0 <= a / b < TWO32 && 0 <= a % b < TWO32
  {
    if b != 0 {
      assert a == b * (a / b) + a % b;
    }
  }

  /** Division and remainder by a power of two as a shift and a mask. */
  lemma PowerOfTwoBlock(op: AluOp, k: Word, m: Machine, s: State, pkt: Packet)
    requires (op.Div? || op.Mod?) && k != 0 && IsPow2(k) && Shows(m, s)
    ensures Does(Alu(op, FromK, k), RunBlock(DivideOps(op, FromK, k), m, pkt), m, s, pkt)
  {
    hide RunBlock, IsPow2, BitAnd, Calculate, Low, Log2;
    QuotientFits(s.a, k);
    LowWord(s.a / k);
    LowWord(s.a % k);
    if op.Mod? {
      MaskIsRemainder(k, s.a);
      MaskLow(m.a, k - 1);
      LowWord(k - 1);
      RunOne(Compute(MAnd, RegA, RegA, Imm(k - 1)), m, pkt);
    } else {
      ShiftIsQuotient(k, m.a);
      if Log2(k) == 0 {
        RunNone(m, pkt);
      } else {
        RunOne(Compute(MShrInt, RegA, RegA, Imm(Log2(k))), m, pkt);
      }
    }
  }

  lemma MaskIsRemainder(k: Word, a: Word)
    requires k != 0 && IsPow2(k)
    ensures BitAnd(a, k - 1) == a % k
  {
    PowerOfTwo(k);
    MaskIsMod(a, Log2(k));
  }

  lemma ShiftIsQuotient(k: Word, a: Wide)
    requires k != 0 && IsPow2(k)
    ensures Calculate(MShrInt, a, Log2(k)) == Low(a) / k
    ensures Log2(k) == 0 ==> Low(a) / k == Low(a)
  {
    hide IsPow2, Halved, Pow2;
    PowerOfTwo(k);
    LowWord(Log2(k));
    HalvedIs(Low(a), Log2(k));
    assert Log2(k) == 0 ==> k == 1 by { assert Pow2(0) == 1 by { PowZero(); } }
  }

  lemma PowZero()
    ensures Pow2(0) == 1
  {
  }

  /** A number with no bit in common with its predecessor is a power of two. */
  lemma {:induction false} PowerOfTwo(k: nat)
    requires IsPow2(k)
    ensures k == Pow2(Log2(k))
  {
    if k > 1 {
      if k % 2 == 1 {
        assert BitAnd(k / 2, (k - 1) / 2) == 0;
        assert k / 2 == (k - 1) / 2 >= 1;
        SelfAnd(k / 2);
      } else {
        assert (k - 1) / 2 == k / 2 - 1;
        PowerOfTwo(k / 2);
      }
    }
  }

  lemma {:induction false} SelfAnd(k: nat)
    ensures BitAnd(k, k) == k
  {
    if k > 0 {
      SelfAnd(k / 2);
    }
  }
}
