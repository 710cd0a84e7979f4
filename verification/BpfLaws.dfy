/**
 What the operations and conditions of the BPF language mean, without naming how
 they are computed.
 */
module BpfLaws {
  import opened Bpf
  import opened BpfOptimizer
  import opened BpfMachine
  import opened BpfBlocks

  /** Bit `i` of a number. */
  predicate Bit(v: nat, i: nat) { v / Pow2(i) % 2 == 1 }

  // ----- sums and differences

  /** Addition and subtraction are exact while they fit, and undo each other always. */
  lemma AddSub(a: Word, b: Word)
    ensures AluValue(Sub, AluValue(Add, a, b)[0], b) == [a]
    ensures AluValue(Add, AluValue(Sub, a, b)[0], b) == [a]
    ensures a + b < TWO32 ==> AluValue(Add, a, b) == [a + b]
    ensures b <= a ==> AluValue(Sub, a, b) == [a - b]
    ensures b > a ==> AluValue(Sub, a, b) == [a - b + TWO32]
    ensures AluValue(Add, a, b) == AluValue(Add, b, a)
  {
  }

  /** Negation is subtraction from zero. */
  lemma NegIsSub(s: State, pc: nat, pkt: Packet)
    ensures Step(Neg, pc, s, pkt) == Goto(pc + 1, s.(a := AluValue(Sub, 0, s.a)[0]))
  {
  }

  // ----- products

  /** Multiplication is repeated addition. */
  lemma MulStep(a: Word, b: Word)
    ensures AluValue(Mul, a, 0) == [0] && AluValue(Mul, a, 1) == [a]
    ensures b + 1 < TWO32 ==> AluValue(Mul, a, b + 1) == AluValue(Add, AluValue(Mul, a, b)[0], a)
  {
    hide BitAnd, Pow2;
    var p: int := a * b;
    assert a * (b + 1) == p + a;
    assert a * 0 == 0 && a * 1 == a;
    SumMod(p, a);
    LowWord(a);
  }

  /** Quotient and remainder are those of the division of natural numbers. */
  lemma DivModLaw(a: Word, b: Word)
    ensures b == 0 ==> AluValue(Div, a, b) == AluValue(Mod, a, b) == []
    ensures b != 0 ==> var q, r := AluValue(Div, a, b)[0], AluValue(Mod, a, b)[0]; a == q * b + r && r < b
  {
    QuotientFits(a, b);
    if b != 0 {
      assert a == b * (a / b) + a % b;
    }
  }

  // ----- bits

  lemma BitShift(v: nat, i: nat)
    ensures Bit(v, 0) == Odd(v) && Bit(v, i + 1) == Bit(v / 2, i)
  {
    PowZero();
    assert Pow2(i + 1) == 2 * Pow2(i);
    DivHalf(v, Pow2(i));
  }

  lemma DivHalf(v: nat, p: nat)
    requires p >= 1
    ensures v / (2 * p) == v / 2 / p
  {
    var q, r := v / 2 / p, v / 2 % p;
    assert v / 2 == p * q + r;
    assert v == q * (2 * p) + (2 * r + v % 2) by { assert 2 * (p * q) == q * (2 * p); }
    RemainderUnique(v, 2 * p, q, 2 * r + v % 2);
  }

  /** Every bit of a bitwise result comes from the bits at the same place. */
  lemma {:induction false} BitwiseBit(c: Connective, a: nat, b: nat, n: nat, i: nat)
    requires i < n
    ensures Bit(Bitwise(c, a, b, n), i) <==> c.Of(Bit(a, i), Bit(b, i))
    decreases n
  {
    hide Bit, Pow2;
    var r := Bitwise(c, a / 2, b / 2, n - 1);
    var bit := if c.Of(Odd(a), Odd(b)) then 1 else 0;
    assert Bitwise(c, a, b, n) == bit + 2 * r;
    assert (bit + 2 * r) / 2 == r && Odd(bit + 2 * r) == (bit == 1);
    if i == 0 {
      BitShift(bit + 2 * r, 0);
      BitShift(a, 0);
      BitShift(b, 0);
    } else {
      BitShift(bit + 2 * r, i - 1);
      BitShift(a, i - 1);
      BitShift(b, i - 1);
      BitwiseBit(c, a / 2, b / 2, n - 1, i - 1);
    }
  }

  /** And, Or and Xor work bit by bit. */
  lemma LogicBits(a: Word, b: Word, i: nat)
    requires i < 32
    ensures Bit(AluValue(And, a, b)[0], i) <==> Bit(a, i) && Bit(b, i)
    ensures Bit(AluValue(Or, a, b)[0], i) <==> Bit(a, i) || Bit(b, i)
    ensures Bit(AluValue(Xor, a, b)[0], i) <==> Bit(a, i) != Bit(b, i)
  {
    hide Bit, Bitwise, BitAnd, Pow2;
    LogicIsBitwise(a, b);
    BitwiseBit(Conj, a, b, 32, i);
    BitwiseBit(Disj, a, b, 32, i);
    BitwiseBit(Excl, a, b, 32, i);
  }

  lemma LogicIsBitwise(a: Word, b: Word)
    ensures AluValue(And, a, b) == [Bitwise(Conj, a, b, 32)]
    ensures AluValue(Or, a, b) == [Bitwise(Disj, a, b, 32)]
    ensures AluValue(Xor, a, b) == [Bitwise(Excl, a, b, 32)]
  {
    hide Bitwise, BitAnd, Pow2;
    SixtyFour();
    BitwiseIs(a, b, 32);
    assert Bitwise(Disj, a, b, 32) < TWO32 && Bitwise(Excl, a, b, 32) < TWO32;
  }

  /** A number that is not zero has a bit. */
  lemma {:induction false} SomeBit(v: nat, n: nat)
    requires v < Pow2(n)
    ensures v != 0 <==> exists i: nat :: i < n && Bit(v, i)
    decreases n
  {
    hide Bit;
    if n > 0 {
      SomeBit(v / 2, n - 1);
      BitShift(v, 0);
      if v / 2 != 0 {
        var i: nat :| i < n - 1 && Bit(v / 2, i);
        BitShift(v, i);
        assert Bit(v, i + 1);
      } else if v != 0 {
        assert Bit(v, 0);
      }
      if v == 0 {
        forall i: nat | i < n ensures !Bit(v, i) { ZeroBit(i); }
      }
    }
  }

  lemma ZeroBit(i: nat)
    ensures !Bit(0, i)
  {
    RemainderUnique(0, Pow2(i), 0, 0);
  }

  // ----- shifts

  /** A shift by one more place is one more doubling, or halving. */
  lemma ShiftStep(a: Word, n: Word)
    requires n + 1 < TWO32
    ensures AluValue(Lsh, a, 0) == [a] && AluValue(Rsh, a, 0) == [a]
    ensures var l := AluValue(Lsh, a, n)[0]; AluValue(Lsh, a, n + 1) == AluValue(Add, l, l)
    ensures var r := AluValue(Rsh, a, n)[0]; AluValue(Rsh, a, n + 1) == [r / 2]
  {
    hide Doubled, Halved, Pow2, Low;
    LowWord(a);
    ShiftLeftLow(a, 0);
    ShiftRightLow(a, 0);
    ShiftLeftLow(a, n);
    ShiftLeftLow(a, n + 1);
    ShiftRightLow(a, n);
    ShiftRightLow(a, n + 1);
    OneMore(a, n);
    LowWord(Halved(a, n));
    LowWord(Halved(a, n + 1));
    LowWord(Halved(a, 0));
    LowSum(Doubled(a, n), Doubled(a, n));
  }

  lemma OneMore(a: Word, n: nat)
    ensures Doubled(a, 0) == a && Halved(a, 0) == a
    ensures Doubled(a, n + 1) == (Doubled(a, n) + Doubled(a, n)) % TWO64 && Halved(a, n + 1) == Halved(a, n) / 2
  {
  }

  // ----- what the generator refuses

  /** Memory words are refused exactly if there is no such word; constant shifts exactly if nothing would be left of any word. */
  lemma RefusedMeans(cfg: Config, k: Word, src: Src)
    ensures Unsupported(cfg, LdMem(k)) <==> forall s: State :: |s.m| == cfg.Memwords() ==> !s.HasWord(k)
    ensures Unsupported(cfg, LdxMem(k)) <==> Unsupported(cfg, LdMem(k))
    ensures Unsupported(cfg, St(k)) <==> Unsupported(cfg, LdMem(k))
    ensures Unsupported(cfg, Stx(k)) <==> Unsupported(cfg, LdMem(k))
    ensures Unsupported(cfg, Alu(Lsh, src, k)) <==> forall a: Word :: AluValue(Lsh, a, k) == [0]
    ensures Unsupported(cfg, Alu(Rsh, src, k)) <==> forall a: Word :: AluValue(Rsh, a, k) == [0]
  {
    hide Pow2;
    var m: seq<Word> := seq(cfg.Memwords(), _ => 0);
    var s := State(0, 0, m, {});
    assert s.HasWord(k) <==> k < cfg.Memwords();
    if k < 32 {
      SmallShift(k);
      assert AluValue(Lsh, 1, k) != [0] && AluValue(Rsh, UINT32_MAX, k) != [0];
    }
  }

  lemma SmallShift(k: nat)
    requires k < 32
    ensures (1 * Pow2(k)) % TWO32 != 0 && (UINT32_MAX / Pow2(k)) % TWO32 != 0
  {
    hide Pow2;
    SixtyFour();
    PowAdd(k, 32 - k);
    PowTwo(32 - k);
    HalfAtMost(Pow2(k), Pow2(32 - k));
    SmallDivisor(Pow2(k));
  }

  lemma HalfAtMost(p: nat, q: nat)
    requires q >= 2 && p * q == TWO32
    ensures 1 <= p <= 0x8000_0000
  {
    assert p * 2 <= p * q;
  }

  lemma SmallDivisor(p: nat)
    requires 1 <= p <= 0x8000_0000
    ensures (1 * p) % TWO32 != 0 && (UINT32_MAX / p) % TWO32 != 0
  {
    QuotientFits(UINT32_MAX, p);
    var q := UINT32_MAX / p;
    assert UINT32_MAX == p * q + UINT32_MAX % p;
    assert q != 0;
  }

  lemma PowTwo(n: nat)
    requires n >= 1
    ensures Pow2(n) >= 2
  {
  }

  // ----- conditions

  /** Exactly one of the three cases holds; the first operand is greater if their difference is not zero and did not wrap around. */
  lemma Trichotomy(a: Word, b: Word)
    ensures var d := AluValue(Sub, a, b)[0]; Holds(Jgt, a, b) <==> d != 0 && d + b == a
    ensures Holds(Jge, a, b) <==> !Holds(Jgt, b, a)
    ensures Holds(Jeq, a, b) <==> !Holds(Jgt, a, b) && !Holds(Jgt, b, a)
    ensures !(Holds(Jgt, a, b) && Holds(Jgt, b, a))
  {
    AddSub(a, b);
  }

  /** The operands have a bit in common. */
  lemma JsetCommonBit(a: Word, b: Word)
    ensures Holds(Jset, a, b) <==> exists i: nat :: i < 32 && Bit(a, i) && Bit(b, i)
  {
    hide Bit, BitAnd, Pow2;
    SixtyFour();
    SomeBit(BitAnd(a, b), 32);
    forall i: nat | i < 32 ensures Bit(BitAnd(a, b), i) <==> Bit(a, i) && Bit(b, i) { LogicBits(a, b, i); }
  }

  // ----- the flow graph

  /** Some run goes on from `i` to `j`. */
  ghost predicate CanGo(prog: Program, i: nat, j: nat)
    requires i < |prog|
  {
    exists s: State, pkt: Packet :: pkt.Length() <= UINT32_MAX && Goes(prog[i], i, s, pkt, j)
  }

  predicate Goes(insn: Insn, i: nat, s: State, pkt: Packet, j: nat) {
    var f := Step(insn, i, s, pkt); f.Goto? && f.pc == j
  }

  /** The instruction can go only one way, whatever the registers hold. */
  predicate Decided(insn: Insn) {
    match insn
    case Alu(op, src, k) => (op.Div? || op.Mod?) && src == FromK && k == 0
    case Jmp(c, src, k, jt, jf) =>
      jt != jf && src == FromK && if c.Jgt? then k == UINT32_MAX else !c.Jeq? && k == 0
    case _ => false
  }

  /** The flow graph has an edge exactly where some run can go, except after a decided instruction. */
  lemma SuccessorsTight(prog: Program, i: nat)
    requires i < |prog|
    ensures (forall j :: j in Successors(prog, i) <==> CanGo(prog, i, j)) <==> !Decided(prog[i])
    ensures forall j :: CanGo(prog, i, j) ==> j in Successors(prog, i)
  {
    hide AluValue, Holds, Step, Decided, Successors;
    forall j | CanGo(prog, i, j) ensures j in Successors(prog, i) {
      var s: State, pkt: Packet :| pkt.Length() <= UINT32_MAX && Goes(prog[i], i, s, pkt, j);
      EdgeTaken(prog, i, s, pkt);
    }
    if Decided(prog[i]) {
      EdgeNotTaken(prog, i);
    } else {
      forall j | j in Successors(prog, i) ensures CanGo(prog, i, j) {
        if prog[i].Jmp? { JumpEdge(prog, i, j); } else { PlainEdge(prog, i, j); }
      }
    }
  }

  lemma EdgeTaken(prog: Program, i: nat, s: State, pkt: Packet)
    requires i < |prog| && pkt.Length() <= UINT32_MAX
    ensures var f := Step(prog[i], i, s, pkt); f.Goto? ==> f.pc in Successors(prog, i)
  {
    hide AluValue, Holds;
  }

  lemma EdgeNotTaken(prog: Program, i: nat)
    requires i < |prog| && Decided(prog[i])
    ensures exists j :: j in Successors(prog, i) && !CanGo(prog, i, j)
  {
    hide BitAnd, Pow2;
    var insn := prog[i];
    var j := if insn.Alu? then i + 1 else if insn.cond.Jge? then i + 1 + insn.jf else i + 1 + insn.jt;
    assert j in Successors(prog, i);
    forall s: State, pkt: Packet ensures !Goes(insn, i, s, pkt, j) {}
  }

  lemma PlainEdge(prog: Program, i: nat, j: nat)
    requires i < |prog| && j in Successors(prog, i) && !prog[i].Jmp? && !Decided(prog[i])
    ensures CanGo(prog, i, j)
  {
    hide Pow2, BitAnd;
    var insn := prog[i];
    var n := if insn.ReadsPacket() then insn.SafeLength() else 0;
    var pkt := Packet(seq(n, _ => 0), 0);
    var words := match insn case LdMem(k) => k + 1 case LdxMem(k) => k + 1 case St(k) => k + 1 case Stx(k) => k + 1 case _ => 0;
    var zeros: seq<Word> := seq(words, _ => 0);
    var s := State(0, if insn.LdInd? then 0 else 1, zeros, {});
    assert Goes(insn, i, s, pkt, j);
  }

  lemma JumpEdge(prog: Program, i: nat, j: nat)
    requires i < |prog| && j in Successors(prog, i) && prog[i].Jmp? && !Decided(prog[i])
    ensures CanGo(prog, i, j)
  {
    var insn := prog[i];
    var yes := j == i + 1 + insn.jt;
    var k := if insn.src == FromX then 1 else insn.k;
    var a := Deciding(insn.cond, k, yes);
    if insn.jt == insn.jf {
      assert Goes(insn, i, State(0, 0, [], {}), Packet([], 0), j);
    } else {
      hide Holds;
      assert Goes(insn, i, State(a, 1, [], {}), Packet([], 0), j);
    }
  }

  /** A value that makes the comparison with `k` come out as wanted, if there is one. */
  lemma Deciding(c: Cond, k: Word, yes: bool) returns (a: Word)
    ensures (c.Jgt? && yes ==> k < UINT32_MAX) && (c.Jge? && !yes ==> k > 0) && (c.Jset? && yes ==> k > 0) ==> Holds(c, a, k) == yes
  {
    hide BitAnd;
    SelfAnd(k);
    assert BitAnd(0, k) == 0;
    if c.Jgt? { a := if yes && k < UINT32_MAX then k + 1 else 0; }
    else if c.Jeq? && !yes { a := if k == 0 then 1 else 0; }
    else { a := if yes then k else 0; }
  }
}
