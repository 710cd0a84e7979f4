/**
 From the token stack to the linear transition array.

 The generator pops tokens from the right and fills the array from its end
 through a moving pointer; a depth stack remembers open brackets, choices and
 pending iteration operators.  `EmitAlt` gives the same code by recursion over
 the syntax tree, and the lemmas show that the pass computes exactly that.
 */
module RegexGenerator {
  import opened Options
  import opened RegexSyntax

  /** A cell of the transition array. */
  datatype Tr = Tok(t: Token) | Branch(to: nat) | Jump(to: nat)

  datatype Kind = Bracket | Choice | Loop | Again | Maybe {
    predicate Iterative() { Loop? || Again? || Maybe? }
  }

  datatype Pending = Pending(kind: Kind, value: nat)

  /** The filled end of the array and the depth stack. */
  datatype Gen = Gen(code: seq<Tr>, depth: seq<Pending>)

  // ----- code by recursion over the tree; `q` is the index just behind the block

  function Start(block: seq<Tr>, q: nat): nat { if |block| <= q then q - |block| else 0 }

  function TokenCode(ts: seq<Token>): seq<Tr> {
    seq(|ts|, k requires 0 <= k < |ts| => Tok(ts[k]))
  }

  function EmitItem(x: Item, q: nat): seq<Tr>
    decreases x
  {
    match x
    case Lit(c) => [Tok(Chr(c))]
    case Range(invert, members) => TokenCode(RangeTokens(invert, members))
    case Lead(id) => [Tok(Id(id))]
    case Group(y) => EmitAlt(y, q)
    case Opt(i) => [Branch(q)] + EmitItem(i, q)
    case Plus(i) => var body := EmitItem(i, Prev(q)); body + [Branch(Start(body, Prev(q)))]
    case Star(i) => var body := EmitItem(i, Prev(q)); [Branch(q)] + body + [Branch(Start(body, Prev(q)))]
    case Mark(i, id) => EmitItem(i, Prev(q)) + [Tok(Id(id))]
    case Repeat(i, _, _) => EmitItem(i, q)
  }

  function Prev(q: nat): nat { if q == 0 then 0 else q - 1 }

  function EmitCat(x: Cat, q: nat): seq<Tr>
    decreases x
  {
    match x
    case Nil => []
    case Snoc(front, last) => var e := EmitItem(last, q); EmitCat(front, Start(e, q)) + e
  }

  /** The alternatives without the branch in front of them. */
  function EmitChoice(x: Alt, q: nat): seq<Tr>
    decreases x, 0
  {
    match x
    case One(c) => EmitCat(c, q)
    case Or(c, rest) =>
      var r := EmitAlt(rest, q);
      EmitCat(c, Prev(Start(r, q))) + [Jump(ExitOf(rest, q))] + r
  }

  function EmitAlt(x: Alt, q: nat): seq<Tr>
    decreases x, 1
  {
    if x.One? then EmitChoice(x, q)
    else [Branch(Start(EmitAlt(x.rest, q), q))] + EmitChoice(x, q)
  }

  /** Where the alternative before `x` jumps to: the exit, or the jump that leads there. */
  function ExitOf(x: Alt, q: nat): nat
    decreases x, 2
  {
    match x
    case One(_) => q
    case Or(_, rest) => Prev(Start(EmitAlt(rest, q), q))
  }

  function EmitProgram(x: Alt, size: nat): seq<Tr> {
    [Tok(Begin)] + EmitAlt(x, Prev(size)) + [Tok(End)]
  }

  // ----- the size counted while parsing

  function Weight(t: Token): nat {
    match t
    case Begin => 1 case End => 1
    case Asterisk => 2 case Select => 2
    case OpenBr => 0 case CloseBr => 0
    case _ => 1
  }

  function Weights(ts: seq<Token>): nat {
    if ts == [] then 0 else Weights(ts[..|ts| - 1]) + Weight(ts[|ts| - 1])
  }

  lemma {:induction false} WeightsAppend(a: seq<Token>, b: seq<Token>)
    ensures Weights(a + b) == Weights(a) + Weights(b)
    decreases |b|
  {
    if b == [] {
      assert a + b == a;
    } else {
      assert (a + b)[..|a + b| - 1] == a + b[..|b| - 1];
      WeightsAppend(a, b[..|b| - 1]);
    }
  }

  lemma WeightOne(t: Token)
    ensures Weights([t]) == Weight(t)
  {
    assert [t][..0] == [];
  }

  lemma WeightSnoc(ts: seq<Token>, t: Token)
    ensures Weights(ts + [t]) == Weights(ts) + Weight(t)
  {
    assert (ts + [t])[..|ts|] == ts;
  }

  lemma BracketWeights(ts: seq<Token>)
    ensures Weights([OpenBr] + ts + [CloseBr]) == Weights(ts)
  {
    WeightSnoc([OpenBr] + ts, CloseBr);
    WeightsAppend([OpenBr], ts);
    WeightOne(OpenBr);
  }

  lemma {:induction false} MemberWeights(ms: seq<Member>)
    ensures Weights(MemberTokens(ms)) == |MemberTokens(ms)|
  {
    if ms != [] {
      var front, last := ms[..|ms| - 1], ms[|ms| - 1];
      MemberWeights(front);
      var ts: seq<Token> := match last case Single(c) => [RngChar(c)] case Span(l, r) => [RngLeft(l), RngRight(r)];
      WeightsAppend(MemberTokens(front), ts);
      if last.Single? {
        WeightOne(ts[0]);
      } else {
        assert ts == [ts[0]] + [ts[1]];
        WeightsAppend([ts[0]], [ts[1]]);
        WeightOne(ts[0]);
        WeightOne(ts[1]);
      }
    }
  }

  lemma RangeWeights(invert: bool, ms: seq<Member>)
    ensures Weights(RangeTokens(invert, ms)) == |RangeTokens(invert, ms)|
  {
    MemberWeights(ms);
    WeightsAppend([RngStart(invert)] + MemberTokens(ms), [RngEnd]);
    WeightsAppend([RngStart(invert)], MemberTokens(ms));
    WeightOne(RngStart(invert));
    WeightOne(RngEnd);
  }

  /** An item emits exactly the cells counted for its tokens. */
  lemma {:induction false} ItemSize(x: Item, q: nat)
    requires CoreItem(x)
    ensures |EmitItem(x, q)| == Weights(RenderItem(x))
    decreases x
  {
    hide Weights, EmitAlt, RenderAlt, RangeTokens;
    match x
    case Lit(c) => WeightOne(Chr(c));
    case Range(invert, members) => RangeWeights(invert, members);
    case Lead(id) => WeightOne(Id(id));
    case Group(y) => AltSize(y, q); BracketWeights(RenderAlt(y));
    case Opt(i) => ItemSize(i, q); WeightSnoc(RenderItem(i), QuestionMark);
    case Plus(i) => ItemSize(i, Prev(q)); WeightSnoc(RenderItem(i), PlusSign);
    case Star(i) => ItemSize(i, Prev(q)); WeightSnoc(RenderItem(i), Asterisk);
    case Mark(i, id) => ItemSize(i, Prev(q)); WeightSnoc(RenderItem(i), Id(id));
  }

  lemma {:induction false} CatSize(x: Cat, q: nat)
    requires CoreCat(x)
    ensures |EmitCat(x, q)| == Weights(RenderCat(x))
    decreases x
  {
    if x.Snoc? {
      ItemSize(x.last, q);
      CatSize(x.front, Start(EmitItem(x.last, q), q));
      WeightsAppend(RenderCat(x.front), RenderItem(x.last));
    }
  }

  lemma {:induction false} AltSize(x: Alt, q: nat)
    requires CoreAlt(x)
    ensures |EmitAlt(x, q)| == Weights(RenderAlt(x))
    ensures |EmitChoice(x, q)| == Weights(RenderAlt(x)) - (if x.Or? then 1 else 0)
    decreases x
  {
    if x.One? {
      CatSize(x.c, q);
    } else {
      AltSize(x.rest, q);
      CatSize(x.c, Prev(Start(EmitAlt(x.rest, q), q)));
      WeightsAppend(RenderCat(x.c) + [Select], RenderAlt(x.rest));
      WeightsAppend(RenderCat(x.c), [Select]);
      WeightOne(Select);
    }
  }

  /** The tokens the parser leaves on its stack for a pattern. */
  function PatternTokens(x: Alt): seq<Token> { [Begin] + RenderAlt(x) + [End] }

  lemma ProgramSize(x: Alt)
    requires CoreAlt(x)
    ensures var size := Weights(PatternTokens(x));
            size >= 2 && |EmitProgram(x, size)| == size
  {
    WeightsAppend([Begin] + RenderAlt(x), [End]);
    WeightsAppend([Begin], RenderAlt(x));
    WeightOne(Begin);
    WeightOne(End);
    AltSize(x, Prev(Weights(PatternTokens(x))));
  }

  // ----- the right-to-left pass

  /** Index of the first filled cell. */
  function Ptr(g: Gen, size: nat): int { size - |g.code| }

  function Put(g: Gen, t: Tr): Gen { g.(code := [t] + g.code) }

  function Push(g: Gen, k: Kind, v: nat): Gen { g.(depth := g.depth + [Pending(k, v)]) }

  function Pop(g: Gen): Gen
    requires g.depth != []
  {
    g.(depth := g.depth[..|g.depth| - 1])
  }

  function Top(g: Gen): Pending
    requires g.depth != []
  {
    g.depth[|g.depth| - 1]
  }

  /** The cell at absolute index `at` is a branch whose target is still to be set. */
  predicate BranchAt(g: Gen, size: nat, at: nat) {
    0 <= Ptr(g, size) <= at < size && g.code[at - Ptr(g, size)].Branch?
  }

  function Patch(g: Gen, size: nat, at: nat, to: nat): Gen
    requires BranchAt(g, size, at)
  {
    g.(code := g.code[at - Ptr(g, size) := Branch(to)])
  }

  /** Completes the iteration operator on top of the depth stack; None is a failed assertion. */
  function CompleteTop(g: Gen, size: nat): (r: Option<Gen>)
    requires g.depth != [] && Top(g).kind.Iterative()
    ensures r.Some? ==> |r.value.depth| < |g.depth|
  {
    var p := Top(g);
    if Ptr(g, size) < 0 then None
    else if p.kind.Maybe? then
      if Ptr(g, size) == 0 then None else Some(Pop(Put(g, Branch(p.value))))
    else if !BranchAt(g, size, p.value) then None
    else if p.kind.Again? then Some(Pop(Patch(g, size, p.value, Ptr(g, size))))
    else if Ptr(g, size) == 0 then None
    else Some(Pop(Put(Patch(g, size, p.value, Ptr(g, size)), Branch(p.value + 1))))
  }

  /** Completes all iteration operators waiting on top of the depth stack. */
  function HandleIteratives(g: Gen, size: nat): Option<Gen>
    decreases |g.depth|
  {
    if g.depth == [] || Ptr(g, size) < 0 then None
    else if !Top(g).kind.Iterative() then Some(g)
    else
      var r := CompleteTop(g, size);
      if r.None? then None else HandleIteratives(r.value, size)
  }

  /** Processes one popped token; `bottom` says that the token stack is then empty. */
  function GenToken(g: Gen, t: Token, size: nat, bottom: bool): Option<Gen> {
    if Ptr(g, size) < 0 then None
    else if t.Begin? || t.OpenBr? then
      if g.depth == [] || Top(g).kind.Iterative() || (Top(g).kind.Choice? && Ptr(g, size) == 0) then None
      else
        var g1 := if Top(g).kind.Choice? then Pop(Put(g, Branch(Top(g).value + 1))) else Pop(g);
        if bottom then if Ptr(g1, size) == 0 then None else Some(Put(g1, Tok(Begin)))
        else HandleIteratives(g1, size)
    else if t.CloseBr? then Some(Push(g, Bracket, Ptr(g, size)))
    else if t.QuestionMark? then Some(Push(g, Maybe, Ptr(g, size)))
    else if Ptr(g, size) == 0 then None
    else if t.End? then Some(Push(Put(g, Tok(End)), Bracket, Ptr(g, size) - 1))
    else if t.Asterisk? then Some(Push(Put(g, Branch(0)), Loop, Ptr(g, size) - 1))
    else if t.PlusSign? then Some(Push(Put(g, Branch(0)), Again, Ptr(g, size) - 1))
    else if t.Select? then
      if g.depth == [] || Top(g).kind.Iterative() then None
      else if Top(g).kind.Choice? then
        if Ptr(g, size) < 2 then None
        else Some(Push(Pop(Put(Put(g, Branch(Top(g).value + 1)), Jump(Top(g).value))), Choice, Ptr(g, size) - 2))
      else Some(Push(Pop(Put(g, Jump(Top(g).value))), Choice, Ptr(g, size) - 1))
    else if t.Chr? || t.RngStart? then HandleIteratives(Put(g, Tok(t)), size)
    else Some(Put(g, Tok(t)))
  }

  /** Processes the tokens `ts` from the right, with `below` tokens underneath them. */
  function GenAll(ts: seq<Token>, below: nat, g: Gen, size: nat): Option<Gen>
    decreases |ts|
  {
    if ts == [] then Some(g)
    else
      var r := GenToken(g, ts[|ts| - 1], size, below + |ts| == 1);
      if r.None? then None else GenAll(ts[..|ts| - 1], below, r.value, size)
  }

  lemma {:induction false} GenAppend(a: seq<Token>, b: seq<Token>, below: nat, g: Gen, size: nat)
    ensures var r := GenAll(b, below + |a|, g, size);
            GenAll(a + b, below, g, size) == if r.None? then None else GenAll(a, below, r.value, size)
    decreases |b|
  {
    if b == [] {
      assert a + b == a;
    } else {
      var t := b[|b| - 1];
      assert (a + b)[|a + b| - 1] == t && (a + b)[..|a + b| - 1] == a + b[..|b| - 1];
      var r := GenToken(g, t, size, below + |a| + |b| == 1);
      if r.Some? {
        GenAppend(a, b[..|b| - 1], below, r.value, size);
      }
    }
  }

  lemma GenOne(t: Token, below: nat, g: Gen, size: nat)
    ensures GenAll([t], below, g, size) == GenToken(g, t, size, below == 0)
  {
    assert [t][..0] == [];
    var r := GenToken(g, t, size, below == 0);
    if r.Some? {
      assert GenAll([], below, r.value, size) == r;
    }
  }

  lemma GenSnoc(a: seq<Token>, t: Token, below: nat, g: Gen, size: nat)
    ensures var r := GenToken(g, t, size, below + |a| == 0);
            GenAll(a + [t], below, g, size) == if r.None? then None else GenAll(a, below, r.value, size)
  {
    GenOne(t, below + |a|, g, size);
    GenAppend(a, [t], below, g, size);
  }

  // ----- the pass emits the recursive code

  /** Range tokens are copied one by one; the last of them, the start, ends the item. */
  lemma {:induction false} GenPlainTokens(ts: seq<Token>, below: nat, g: Gen, size: nat)
    requires forall k :: 0 <= k < |ts| ==> ts[k].RngChar? || ts[k].RngLeft? || ts[k].RngRight? || ts[k].RngEnd?
    requires |ts| <= Ptr(g, size)
    ensures GenAll(ts, below, g, size) == Some(g.(code := TokenCode(ts) + g.code))
    decreases |ts|
  {
    if ts == [] {
      assert TokenCode(ts) + g.code == g.code;
    } else {
      var front, t := ts[..|ts| - 1], ts[|ts| - 1];
      var g1 := Put(g, Tok(t));
      GenPlainTokens(front, below, g1, size);
      assert TokenCode(front) + g1.code == TokenCode(ts) + g.code;
    }
  }

  lemma {:induction false} MembersPlain(ms: seq<Member>)
    ensures forall k :: 0 <= k < |MemberTokens(ms)| ==>
              var t := MemberTokens(ms)[k]; t.RngChar? || t.RngLeft? || t.RngRight?
  {
    if ms != [] {
      MembersPlain(ms[..|ms| - 1]);
    }
  }

  lemma GenRange(invert: bool, ms: seq<Member>, below: nat, g: Gen, size: nat)
    requires |RangeTokens(invert, ms)| <= Ptr(g, size)
    ensures GenAll(RangeTokens(invert, ms), below, g, size) ==
            HandleIteratives(g.(code := TokenCode(RangeTokens(invert, ms)) + g.code), size)
  {
    var s: seq<Token> := [RngStart(invert)];
    var plain := MemberTokens(ms) + [RngEnd];
    MembersPlain(ms);
    assert RangeTokens(invert, ms) == s + plain;
    GenAppend(s, plain, below, g, size);
    GenPlainTokens(plain, below + 1, g, size);
    var g1 := g.(code := TokenCode(plain) + g.code);
    GenOne(RngStart(invert), below, g1, size);
    assert [Tok(RngStart(invert))] + g1.code == TokenCode(s + plain) + g.code;
  }

  /** The state after a block of code has been emitted in front of `g`. */
  function Emitted(g: Gen, block: seq<Tr>): Gen { g.(code := block + g.code) }

  /** Tokens of an item: emit its code, then complete whatever waits for the item. */
  lemma {:induction false} GenItem(x: Item, below: nat, g: Gen, size: nat)
    requires CoreItem(x) && below > 0 && g.depth != []
    requires Top(g).kind.Iterative() ==> Solid(x)
    requires 0 <= Ptr(g, size) && |EmitItem(x, Ptr(g, size))| <= Ptr(g, size)
    ensures ItemDone(x, below, g, size)
    decreases x
  {
    var q := Ptr(g, size);
    match x
    case Lit(c) => GenOne(Chr(c), below, g, size);
    case Range(invert, members) => GenRange(invert, members, below, g, size);
    case Lead(id) => GenOne(Id(id), below, g, size);
    case Group(y) => GenGroup(y, below, g, size);
    case Opt(i) => GenItem(i, below, Push(g, Maybe, q), size); GenOpt(i, below, g, size);
    case Mark(i, id) => GenItem(i, below, Put(g, Tok(Id(id))), size); GenMark(i, id, below, g, size);
    case Plus(i) => GenItem(i, below, Push(Put(g, Branch(0)), Again, q - 1), size); GenPlus(i, below, g, size);
    case Star(i) => GenItem(i, below, Push(Put(g, Branch(0)), Loop, q - 1), size); GenStar(i, below, g, size);
  }

  /** What processing the tokens of `i` from state `g` should give. */
  ghost predicate ItemDone(i: Item, below: nat, g: Gen, size: nat)
    requires 0 <= Ptr(g, size)
  {
    GenAll(RenderItem(i), below, g, size) == HandleIteratives(Emitted(g, EmitItem(i, Ptr(g, size))), size)
  }

  lemma GenOpt(i: Item, below: nat, g: Gen, size: nat)
    requires 0 <= Ptr(g, size) && |EmitItem(Opt(i), Ptr(g, size))| <= Ptr(g, size)
    requires ItemDone(i, below, Push(g, Maybe, Ptr(g, size)), size)
    ensures ItemDone(Opt(i), below, g, size)
  {
    hide HandleIteratives, GenAll;
    GenSnoc(RenderItem(i), QuestionMark, below, g, size);
    MaybeClosed(g, EmitItem(i, Ptr(g, size)), size);
  }

  lemma GenMark(i: Item, id: nat, below: nat, g: Gen, size: nat)
    requires 0 <= Ptr(g, size) && |EmitItem(Mark(i, id), Ptr(g, size))| <= Ptr(g, size)
    requires ItemDone(i, below, Put(g, Tok(Id(id))), size)
    ensures ItemDone(Mark(i, id), below, g, size)
  {
    hide HandleIteratives, GenAll;
    GenSnoc(RenderItem(i), Id(id), below, g, size);
    EmittedTwice(g, EmitItem(i, Ptr(g, size) - 1), [Tok(Id(id))]);
  }

  lemma GenPlus(i: Item, below: nat, g: Gen, size: nat)
    requires 0 <= Ptr(g, size) && |EmitItem(Plus(i), Ptr(g, size))| <= Ptr(g, size)
    requires ItemDone(i, below, Push(Put(g, Branch(0)), Again, Ptr(g, size) - 1), size)
    ensures ItemDone(Plus(i), below, g, size)
  {
    hide HandleIteratives, GenAll;
    GenSnoc(RenderItem(i), PlusSign, below, g, size);
    LoopClosed(g, EmitItem(i, Ptr(g, size) - 1), Again, size);
  }

  lemma GenStar(i: Item, below: nat, g: Gen, size: nat)
    requires 0 <= Ptr(g, size) && |EmitItem(Star(i), Ptr(g, size))| <= Ptr(g, size)
    requires ItemDone(i, below, Push(Put(g, Branch(0)), Loop, Ptr(g, size) - 1), size)
    ensures ItemDone(Star(i), below, g, size)
  {
    hide HandleIteratives, GenAll;
    var q := Ptr(g, size);
    var body := EmitItem(i, q - 1);
    GenSnoc(RenderItem(i), Asterisk, below, g, size);
    LoopClosed(g, body, Loop, size);
    assert EmitItem(Star(i), q) == [Branch(q)] + (body + [Branch(q - 1 - |body|)]);
  }

  lemma EmittedTwice(g: Gen, a: seq<Tr>, b: seq<Tr>)
    ensures Emitted(Emitted(g, b), a) == Emitted(g, a + b)
  {
    assert a + (b + g.code) == (a + b) + g.code;
  }

  /** Completing a question mark puts a branch around the body. */
  lemma MaybeClosed(g: Gen, body: seq<Tr>, size: nat)
    requires |body| + 1 <= Ptr(g, size)
    ensures var q := Ptr(g, size);
            HandleIteratives(Emitted(Push(g, Maybe, q), body), size) == HandleIteratives(Emitted(g, [Branch(q)] + body), size)
  {
    var q := Ptr(g, size);
    var h := Emitted(Push(g, Maybe, q), body);
    assert Pop(h).depth == g.depth;
    assert [Branch(q)] + (body + g.code) == ([Branch(q)] + body) + g.code;
    assert Pop(Put(h, Branch(q))) == Emitted(g, [Branch(q)] + body);
    assert CompleteTop(h, size) == Some(Emitted(g, [Branch(q)] + body));
  }

  /** Completing a star or plus patches the branch behind the body back to its start. */
  lemma LoopClosed(g: Gen, body: seq<Tr>, k: Kind, size: nat)
    requires k.Loop? || k.Again?
    requires |body| + (if k.Loop? then 2 else 1) <= Ptr(g, size)
    ensures var q := Ptr(g, size);
            var back := body + [Branch(q - 1 - |body|)];
            HandleIteratives(Emitted(Push(Put(g, Branch(0)), k, q - 1), body), size) ==
            HandleIteratives(Emitted(g, if k.Loop? then [Branch(q)] + back else back), size)
  {
    var q := Ptr(g, size);
    var h := Emitted(Push(Put(g, Branch(0)), k, q - 1), body);
    LoopPatched(g, body, k, size);
    assert Top(h) == Pending(k, q - 1);
    assert CompleteTop(h, size).Some?;
  }

  lemma LoopPatched(g: Gen, body: seq<Tr>, k: Kind, size: nat)
    requires |body| + 1 <= Ptr(g, size)
    ensures var q := Ptr(g, size);
            var back := body + [Branch(q - 1 - |body|)];
            var h := Emitted(Push(Put(g, Branch(0)), k, q - 1), body);
            && BranchAt(h, size, q - 1)
            && var p := Patch(h, size, q - 1, Ptr(h, size));
               Pop(p) == Emitted(g, back) && Pop(Put(p, Branch(q))) == Emitted(g, [Branch(q)] + back)
  {
    hide HandleIteratives;
    var q := Ptr(g, size);
    var back := body + [Branch(q - 1 - |body|)];
    var h := Emitted(Push(Put(g, Branch(0)), k, q - 1), body);
    assert h.code[|body|] == Branch(0);
    var p := Patch(h, size, q - 1, Ptr(h, size));
    assert p.code == back + g.code;
    assert [Branch(q)] + (back + g.code) == ([Branch(q)] + back) + g.code;
    assert Pop(p).depth == g.depth;
  }

  lemma {:induction false} GenCat(x: Cat, below: nat, g: Gen, size: nat)
    requires CoreCat(x) && below > 0 && g.depth != [] && !Top(g).kind.Iterative()
    requires 0 <= Ptr(g, size) && |EmitCat(x, Ptr(g, size))| <= Ptr(g, size)
    ensures GenAll(RenderCat(x), below, g, size) == Some(Emitted(g, EmitCat(x, Ptr(g, size))))
    decreases x
  {
    var q := Ptr(g, size);
    if x.Nil? {
      assert [] + g.code == g.code;
    } else {
      var e := EmitItem(x.last, q);
      GenAppend(RenderCat(x.front), RenderItem(x.last), below, g, size);
      GenItem(x.last, below + |RenderCat(x.front)|, g, size);
      var g1 := Emitted(g, e);
      assert HandleIteratives(g1, size) == Some(g1);
      GenCat(x.front, below, g1, size);
      assert EmitCat(x.front, q - |e|) + (e + g.code) == (EmitCat(x.front, q - |e|) + e) + g.code;
    }
  }

  /** What the top of the depth stack says after the alternatives `x` that end at `q`. */
  function AltTop(x: Alt, q: nat): Pending {
    Pending(if x.One? then Bracket else Choice, ExitOf(x, q))
  }

  /** The state after the tokens of `x`, whose leading branch is still to be emitted. */
  function AfterAlt(g: Gen, x: Alt, q: nat): Gen
    requires g.depth != []
  {
    Gen(EmitChoice(x, q) + g.code, g.depth[..|g.depth| - 1] + [AltTop(x, q)])
  }

  lemma {:induction false} GenAlt(x: Alt, below: nat, g: Gen, size: nat)
    requires CoreAlt(x) && below > 0 && g.depth != [] && 0 <= Ptr(g, size)
    requires Top(g) == Pending(Bracket, Ptr(g, size))
    requires |EmitAlt(x, Ptr(g, size))| <= Ptr(g, size)
    ensures GenAll(RenderAlt(x), below, g, size) == Some(AfterAlt(g, x, Ptr(g, size)))
    decreases x, 1
  {
    var q := Ptr(g, size);
    if x.One? {
      GenCat(x.c, below, g, size);
      assert g.depth[..|g.depth| - 1] + [Top(g)] == g.depth;
    } else {
      var below' := below + |RenderCat(x.c)| + 1;
      GenAlt(x.rest, below', g, size);
      GenSelect(g, x, q, size);
      GenThree(RenderCat(x.c), RenderAlt(x.rest), below, g, AfterAlt(g, x.rest, q), BeforeFirst(g, x, q), size);
      GenFirst(x, below, g, size);
    }
  }

  /** The state when only the first alternative of `x` is left. */
  function BeforeFirst(g: Gen, x: Alt, q: nat): Gen
    requires x.Or? && g.depth != []
  {
    Gen([Jump(ExitOf(x.rest, q))] + (EmitAlt(x.rest, q) + g.code),
        g.depth[..|g.depth| - 1] + [Pending(Choice, ExitOf(x, q))])
  }

  lemma GenThree(cat: seq<Token>, rest: seq<Token>, below: nat, g: Gen, g1: Gen, g2: Gen, size: nat)
    requires below > 0
    requires GenAll(rest, below + |cat| + 1, g, size) == Some(g1)
    requires GenToken(g1, Select, size, false) == Some(g2)
    ensures GenAll(cat + [Select] + rest, below, g, size) == GenAll(cat, below, g2, size)
  {
    GenAppend(cat + [Select], rest, below, g, size);
    GenSnoc(cat, Select, below, g1, size);
  }

  lemma {:induction false} GenFirst(x: Alt, below: nat, g: Gen, size: nat)
    requires x.Or? && CoreAlt(x) && below > 0 && g.depth != [] && 0 <= Ptr(g, size)
    requires |EmitAlt(x, Ptr(g, size))| <= Ptr(g, size)
    ensures GenAll(RenderCat(x.c), below, BeforeFirst(g, x, Ptr(g, size)), size) == Some(AfterAlt(g, x, Ptr(g, size)))
    decreases x, 0
  {
    var q := Ptr(g, size);
    var r := EmitAlt(x.rest, q);
    var g2 := BeforeFirst(g, x, q);
    assert Ptr(g2, size) == q - |r| - 1;
    assert Prev(Start(r, q)) == q - |r| - 1;
    GenCat(x.c, below, g2, size);
    var c := EmitCat(x.c, q - |r| - 1);
    var j: seq<Tr> := [Jump(ExitOf(x.rest, q))];
    assert c + (j + (r + g.code)) == (c + j + r) + g.code;
  }

  /** The select between two alternatives. */
  lemma GenSelect(g: Gen, x: Alt, q: nat, size: nat)
    requires x.Or? && g.depth != [] && q == Ptr(g, size)
    requires |EmitAlt(x, q)| <= q
    ensures GenToken(AfterAlt(g, x.rest, q), Select, size, false) ==
            Some(BeforeFirst(g, x, q))
  {
    var g1 := AfterAlt(g, x.rest, q);
    var base := g.depth[..|g.depth| - 1];
    assert Top(g1) == AltTop(x.rest, q) && g1.depth[..|g1.depth| - 1] == base;
    if x.rest.Or? {
      var b := Branch(Start(EmitAlt(x.rest.rest, q), q));
      assert b == Branch(Top(g1).value + 1);
      assert [b] + (EmitChoice(x.rest, q) + g.code) == EmitAlt(x.rest, q) + g.code;
    }
  }

  lemma {:induction false} GenGroup(y: Alt, below: nat, g: Gen, size: nat)
    requires CoreAlt(y) && below > 0 && g.depth != []
    requires 0 <= Ptr(g, size) && |EmitAlt(y, Ptr(g, size))| <= Ptr(g, size)
    ensures GenAll([OpenBr] + RenderAlt(y) + [CloseBr], below, g, size) ==
            HandleIteratives(Emitted(g, EmitAlt(y, Ptr(g, size))), size)
    decreases y, 2
  {
    var q := Ptr(g, size);
    var open: seq<Token> := [OpenBr];
    GenSnoc(open + RenderAlt(y), CloseBr, below, g, size);
    var g1 := Push(g, Bracket, q);
    GenAppend(open, RenderAlt(y), below, g1, size);
    GenAlt(y, below + 1, g1, size);
    GenOne(OpenBr, below, AfterAlt(g1, y, q), size);
    AltClosed(g, y, q, size);
  }

  /** The open bracket emits the branch in front of two or more alternatives. */
  lemma AltClosed(g: Gen, y: Alt, q: nat, size: nat)
    requires g.depth != [] && q == Ptr(g, size)
    requires |EmitAlt(y, q)| <= q
    ensures GenToken(AfterAlt(Push(g, Bracket, q), y, q), OpenBr, size, false) ==
            HandleIteratives(Emitted(g, EmitAlt(y, q)), size)
  {
    var h := AfterAlt(Push(g, Bracket, q), y, q);
    assert Push(g, Bracket, q).depth[..|g.depth|] == g.depth;
    assert Top(h) == AltTop(y, q) && Pop(h).depth == g.depth;
    if y.Or? {
      var b := Branch(Start(EmitAlt(y.rest, q), q));
      assert b == Branch(Top(h).value + 1);
      assert [b] + (EmitChoice(y, q) + g.code) == EmitAlt(y, q) + g.code;
      assert Pop(Put(h, b)) == Emitted(g, EmitAlt(y, q));
    } else {
      assert Pop(h) == Emitted(g, EmitAlt(y, q));
    }
  }

  /** The begin token emits the outermost branch, if any, and the first cell. */
  lemma BeginClosed(x: Alt, g: Gen, q: nat, size: nat)
    requires g.depth == [Pending(Bracket, q)] && q == Ptr(g, size)
    requires |EmitAlt(x, q)| + 1 == q
    ensures GenToken(AfterAlt(g, x, q), Begin, size, true) == Some(Gen([Tok(Begin)] + (EmitAlt(x, q) + g.code), []))
  {
    var h := AfterAlt(g, x, q);
    assert g.depth[..0] == [];
    assert Top(h) == AltTop(x, q) && Pop(h).depth == [];
    if x.Or? {
      var b := Branch(Start(EmitAlt(x.rest, q), q));
      assert b == Branch(Top(h).value + 1);
      assert [b] + (EmitChoice(x, q) + g.code) == EmitAlt(x, q) + g.code;
    }
  }

  /** The end token starts the array and opens the outermost bracket. */
  lemma GenFromEnd(ts: seq<Token>, size: nat)
    requires size >= 1 && |ts| > 0
    ensures GenAll(ts + [End], 0, Gen([], []), size) == GenAll(ts, 0, Gen([Tok(End)], [Pending(Bracket, size - 1)]), size)
  {
    GenSnoc(ts, End, 0, Gen([], []), size);
    assert Push(Put(Gen([], []), Tok(End)), Bracket, size - 1) == Gen([Tok(End)], [Pending(Bracket, size - 1)]);
  }

  /** The pass over a whole pattern fills the array to its first cell and empties the depth stack. */
  lemma GenProgram(x: Alt)
    requires CoreAlt(x)
    ensures var size := Weights(PatternTokens(x));
            GenAll(PatternTokens(x), 0, Gen([], []), size) == Some(Gen(EmitProgram(x, size), []))
  {
    ProgramSize(x);
    var size := Weights(PatternTokens(x));
    GenFromEnd([Begin] + RenderAlt(x), size);
    GenToBegin(x, size);
  }

  lemma GenToBegin(x: Alt, size: nat)
    requires CoreAlt(x) && size >= 2 && |EmitProgram(x, size)| == size
    ensures GenAll([Begin] + RenderAlt(x), 0, Gen([Tok(End)], [Pending(Bracket, size - 1)]), size) ==
            Some(Gen(EmitProgram(x, size), []))
  {
    var q := size - 1;
    var g := Gen([Tok(End)], [Pending(Bracket, q)]);
    GenAppend([Begin], RenderAlt(x), 0, g, size);
    GenAlt(x, 1, g, size);
    GenOne(Begin, 0, AfterAlt(g, x, q), size);
    BeginClosed(x, g, q, size);
    assert [Tok(Begin)] + (EmitAlt(x, q) + [Tok(End)]) == EmitProgram(x, size);
  }
}
