/**
 The transition array as a nondeterministic program, and the proof that it
 accepts exactly what the pattern matches.

 A path runs from one cell to another while the position in the text moves
 from `a` to `b`; `n` counts the cells passed.
 */
module RegexNfa {
  import opened RegexSyntax
  import opened RegexExpansion
  import opened RegexGenerator

  /** Does the cell sequence of a range, starting behind its start cell, contain `c`? */
  predicate RangeHas(prog: seq<Tr>, at: nat, c: char)
    decreases |prog| - at
  {
    if at >= |prog| || !prog[at].Tok? then false
    else
      match prog[at].t
      case RngChar(d) => c == d || RangeHas(prog, at + 1, c)
      case RngLeft(l) =>
        if at + 1 < |prog| && prog[at + 1].Tok? && prog[at + 1].t.RngRight?
        then l <= c <= prog[at + 1].t.c || RangeHas(prog, at + 2, c)
        else false
      case _ => false
  }

  /** Index of the range end at or behind `at`. */
  function RangeEnd(prog: seq<Tr>, at: nat): (e: nat)
    ensures e >= at
    decreases |prog| - at
  {
    if at >= |prog| || prog[at] == Tok(RngEnd) then at else RangeEnd(prog, at + 1)
  }

  /** A path of `n` cells from `p` to `q` that consumes `text[a..b]`. */
  predicate Path(prog: seq<Tr>, text: string, p: nat, a: nat, q: nat, b: nat, n: nat)
    decreases n
  {
    if n == 0 then p == q && a == b
    else if p >= |prog| then false
    else
      match prog[p]
      case Branch(to) => Path(prog, text, p + 1, a, q, b, n - 1) || Path(prog, text, to, a, q, b, n - 1)
      case Jump(to) => Path(prog, text, to, a, q, b, n - 1)
      case Tok(t) =>
        match t
        case Begin => Path(prog, text, p + 1, a, q, b, n - 1)
        case Id(_) => Path(prog, text, p + 1, a, q, b, n - 1)
        case Chr(c) => a < |text| && text[a] == c && Path(prog, text, p + 1, a + 1, q, b, n - 1)
        case RngStart(invert) =>
          a < |text| && RangeHas(prog, p + 1, text[a]) != invert &&
          Path(prog, text, RangeEnd(prog, p + 1) + 1, a + 1, q, b, n - 1)
        case _ => false
  }

  ghost predicate Reaches(prog: seq<Tr>, text: string, p: nat, a: nat, q: nat, b: nat) {
    exists n: nat :: Path(prog, text, p, a, q, b, n)
  }

  /** The program accepts the text: some path leads from the first cell to the end cell. */
  ghost predicate Accepts(prog: seq<Tr>, text: string) {
    |prog| > 0 && Reaches(prog, text, 0, 0, |prog| - 1, |text|)
  }

  lemma {:induction false} PathJoin(prog: seq<Tr>, text: string, p: nat, a: nat, m: nat, c: nat, q: nat, b: nat, n: nat, k: nat)
    requires Path(prog, text, p, a, m, c, n) && Path(prog, text, m, c, q, b, k)
    ensures Path(prog, text, p, a, q, b, n + k)
    decreases n
  {
    if n > 0 {
      match prog[p]
      case Branch(to) =>
        if Path(prog, text, p + 1, a, m, c, n - 1) {
          PathJoin(prog, text, p + 1, a, m, c, q, b, n - 1, k);
        } else {
          PathJoin(prog, text, to, a, m, c, q, b, n - 1, k);
        }
      case Jump(to) => PathJoin(prog, text, to, a, m, c, q, b, n - 1, k);
      case Tok(t) =>
        match t
        case Begin => PathJoin(prog, text, p + 1, a, m, c, q, b, n - 1, k);
        case Id(_) => PathJoin(prog, text, p + 1, a, m, c, q, b, n - 1, k);
        case Chr(_) => PathJoin(prog, text, p + 1, a + 1, m, c, q, b, n - 1, k);
        case RngStart(_) => PathJoin(prog, text, RangeEnd(prog, p + 1) + 1, a + 1, m, c, q, b, n - 1, k);
        case _ =>
    }
  }

  // ----- blocks of code inside a program

  predicate At(prog: seq<Tr>, p: nat, block: seq<Tr>) {
    p + |block| <= |prog| && prog[p..p + |block|] == block
  }

  lemma AtSplit(prog: seq<Tr>, p: nat, x: seq<Tr>, y: seq<Tr>)
    requires At(prog, p, x + y)
    ensures At(prog, p, x) && At(prog, p + |x|, y)
  {
    assert prog[p..p + |x + y|][..|x|] == prog[p..p + |x|];
    assert prog[p..p + |x + y|][|x|..] == prog[p + |x|..p + |x| + |y|];
  }

  lemma AtCell(prog: seq<Tr>, p: nat, block: seq<Tr>, k: nat)
    requires At(prog, p, block) && k < |block|
    ensures p + k < |prog| && prog[p + k] == block[k]
  {
    assert prog[p..p + |block|][k] == prog[p + k];
  }

  // ----- character ranges

  function OneMember(m: Member): seq<Token> {
    match m case Single(c) => [RngChar(c)] case Span(l, r) => [RngLeft(l), RngRight(r)]
  }

  lemma {:induction false} MemberTokensCons(ms: seq<Member>)
    requires ms != []
    ensures MemberTokens(ms) == OneMember(ms[0]) + MemberTokens(ms[1..])
  {
    if |ms| == 1 {
      assert ms[1..] == [] && ms[..0] == [];
    } else {
      var front, last := ms[..|ms| - 1], ms[|ms| - 1];
      MemberTokensCons(front);
      assert ms[1..][..|ms| - 2] == front[1..];
      assert OneMember(ms[0]) + MemberTokens(front[1..]) + OneMember(last) ==
             OneMember(ms[0]) + (MemberTokens(front[1..]) + OneMember(last));
    }
  }

  lemma FirstMember(prog: seq<Tr>, at: nat, m: Member, c: char)
    requires At(prog, at, TokenCode(OneMember(m)))
    ensures RangeHas(prog, at, c) <==> InMember(m, c) || RangeHas(prog, at + |OneMember(m)|, c)
    ensures RangeEnd(prog, at) == RangeEnd(prog, at + |OneMember(m)|)
  {
    var block := TokenCode(OneMember(m));
    AtCell(prog, at, block, 0);
    if m.Span? {
      AtCell(prog, at, block, 1);
      assert RangeEnd(prog, at) == RangeEnd(prog, at + 1);
    }
  }

  predicate InSome(ms: seq<Member>, c: char) {
    exists k :: 0 <= k < |ms| && InMember(ms[k], c)
  }

  lemma InSomeCons(ms: seq<Member>, c: char)
    requires ms != []
    ensures InSome(ms, c) <==> InMember(ms[0], c) || InSome(ms[1..], c)
  {
    if k :| 0 <= k < |ms| && InMember(ms[k], c) && k > 0 {
      assert ms[1..][k - 1] == ms[k];
    }
    if k :| 0 <= k < |ms[1..]| && InMember(ms[1..][k], c) {
      assert ms[1..][k] == ms[k + 1];
    }
  }

  /** The cells of a range contain exactly the characters of its members. */
  lemma {:induction false} MembersHave(prog: seq<Tr>, at: nat, ms: seq<Member>, c: char)
    requires At(prog, at, TokenCode(MemberTokens(ms) + [RngEnd]))
    ensures RangeHas(prog, at, c) <==> InSome(ms, c)
    ensures RangeEnd(prog, at) == at + |MemberTokens(ms)|
    decreases |ms|
  {
    if ms == [] {
      assert MemberTokens(ms) + [RngEnd] == [RngEnd];
      AtCell(prog, at, TokenCode([RngEnd]), 0);
    } else {
      SplitMembers(prog, at, ms);
      FirstMember(prog, at, ms[0], c);
      MembersHave(prog, at + |OneMember(ms[0])|, ms[1..], c);
      InSomeCons(ms, c);
    }
  }

  lemma TokenCodeAppend(a: seq<Token>, b: seq<Token>)
    ensures TokenCode(a + b) == TokenCode(a) + TokenCode(b)
    ensures |TokenCode(a)| == |a|
  {
  }

  lemma SplitMembers(prog: seq<Tr>, at: nat, ms: seq<Member>)
    requires ms != [] && At(prog, at, TokenCode(MemberTokens(ms) + [RngEnd]))
    ensures At(prog, at, TokenCode(OneMember(ms[0])))
    ensures At(prog, at + |OneMember(ms[0])|, TokenCode(MemberTokens(ms[1..]) + [RngEnd]))
    ensures |MemberTokens(ms)| == |OneMember(ms[0])| + |MemberTokens(ms[1..])|
  {
    hide MemberTokens, OneMember, TokenCode, At;
    MemberTokensCons(ms);
    var one, rest := OneMember(ms[0]), MemberTokens(ms[1..]);
    assert MemberTokens(ms) + [RngEnd] == one + (rest + [RngEnd]);
    TokenCodeAppend(one, rest + [RngEnd]);
    AtSplit(prog, at, TokenCode(one), TokenCode(rest + [RngEnd]));
  }

  lemma RangeBlock(prog: seq<Tr>, p: nat, invert: bool, ms: seq<Member>, c: char)
    requires At(prog, p, TokenCode(RangeTokens(invert, ms)))
    ensures p < |prog| && prog[p] == Tok(RngStart(invert))
    ensures (RangeHas(prog, p + 1, c) != invert) == InRange(invert, ms, c)
    ensures RangeEnd(prog, p + 1) + 1 == p + |RangeTokens(invert, ms)|
  {
    var start, rest := TokenCode([RngStart(invert)]), MemberTokens(ms) + [RngEnd];
    assert RangeTokens(invert, ms) == [RngStart(invert)] + rest;
    assert TokenCode(RangeTokens(invert, ms)) == start + TokenCode(rest);
    AtSplit(prog, p, start, TokenCode(rest));
    AtCell(prog, p, start, 0);
    MembersHave(prog, p + 1, ms, c);
  }

  // ----- what matches is accepted

  /** The code of `x` ends just before `q` in the program. */
  predicate ItemAt(prog: seq<Tr>, x: Item, q: nat) {
    var e := EmitItem(x, q);
    |e| <= q && At(prog, q - |e|, e)
  }

  predicate CatAt(prog: seq<Tr>, x: Cat, q: nat) {
    var e := EmitCat(x, q);
    |e| <= q && At(prog, q - |e|, e)
  }

  predicate AltAt(prog: seq<Tr>, x: Alt, q: nat) {
    var e := EmitAlt(x, q);
    |e| <= q && At(prog, q - |e|, e)
  }

  /** The parts of the code of an item. */
  lemma ItemParts(prog: seq<Tr>, x: Item, q: nat)
    requires ItemAt(prog, x, q)
    ensures x.Opt? ==> ItemAt(prog, x.i, q) && 1 <= q - |EmitItem(x.i, q)| <= |prog|
    ensures x.Opt? ==> prog[q - |EmitItem(x.i, q)| - 1] == Branch(q)
    ensures x.Mark? || x.Plus? || x.Star? ==> q >= 1 && ItemAt(prog, x.i, q - 1) && q - 1 < |prog|
    ensures x.Mark? ==> prog[q - 1] == Tok(Id(x.id))
    ensures x.Plus? || x.Star? ==> prog[q - 1] == Branch(q - 1 - |EmitItem(x.i, q - 1)|)
    ensures x.Star? ==> var s := q - 1 - |EmitItem(x.i, q - 1)|; s >= 1 && prog[s - 1] == Branch(q)
  {
    if x.Opt? || x.Mark? {
      WrapperParts(prog, x, q);
    } else if x.Plus? || x.Star? {
      LoopParts(prog, x, q);
    }
  }

  lemma WrapperParts(prog: seq<Tr>, x: Item, q: nat)
    requires (x.Opt? || x.Mark?) && ItemAt(prog, x, q)
    ensures x.Opt? ==> ItemAt(prog, x.i, q) && 1 <= q - |EmitItem(x.i, q)| <= |prog|
    ensures x.Opt? ==> prog[q - |EmitItem(x.i, q)| - 1] == Branch(q)
    ensures x.Mark? ==> q >= 1 && ItemAt(prog, x.i, q - 1) && q - 1 < |prog| && prog[q - 1] == Tok(Id(x.id))
  {
    hide At;
    var e := EmitItem(x, q);
    var p := q - |e|;
    if x.Opt? {
      AtCell(prog, p, e, 0);
      AtSplit(prog, p, [Branch(q)], EmitItem(x.i, q));
    } else {
      AtCell(prog, p, e, |e| - 1);
      AtSplit(prog, p, EmitItem(x.i, q - 1), [Tok(Id(x.id))]);
    }
  }

  lemma {:induction false} LoopParts(prog: seq<Tr>, x: Item, q: nat)
    requires (x.Plus? || x.Star?) && ItemAt(prog, x, q)
    ensures q >= 1 && ItemAt(prog, x.i, q - 1) && q - 1 < |prog|
    ensures prog[q - 1] == Branch(q - 1 - |EmitItem(x.i, q - 1)|)
    ensures x.Star? ==> var s := q - 1 - |EmitItem(x.i, q - 1)|; s >= 1 && prog[s - 1] == Branch(q)
  {
    hide At;
    var e := EmitItem(x, q);
    var p := q - |e|;
    var body := EmitItem(x.i, q - 1);
    var back: seq<Tr> := [Branch(q - 1 - |body|)];
    AtCell(prog, p, e, |e| - 1);
    if x.Plus? {
      assert e == body + back;
      AtSplit(prog, p, body, back);
    } else {
      assert e == [Branch(q)] + body + back;
      AtCell(prog, p, e, 0);
      AtSplit(prog, p, [Branch(q)] + body, back);
      AtSplit(prog, p, [Branch(q)], body);
    }
  }

  lemma ItemLength(x: Item, q: nat)
    ensures x.Opt? ==> |EmitItem(x, q)| == |EmitItem(x.i, q)| + 1
    ensures q >= 1 && (x.Mark? || x.Plus?) ==> |EmitItem(x, q)| == |EmitItem(x.i, q - 1)| + 1
    ensures q >= 1 && x.Star? ==> |EmitItem(x, q)| == |EmitItem(x.i, q - 1)| + 2
  {
  }

  lemma GroupParts(prog: seq<Tr>, y: Alt, q: nat)
    requires ItemAt(prog, Group(y), q)
    ensures AltAt(prog, y, q) && |EmitItem(Group(y), q)| == |EmitAlt(y, q)|
  {
  }

  lemma CatParts(prog: seq<Tr>, x: Cat, q: nat)
    requires x.Snoc? && CatAt(prog, x, q)
    ensures var e := EmitItem(x.last, q); ItemAt(prog, x.last, q) && CatAt(prog, x.front, q - |e|)
  {
    var e := EmitItem(x.last, q);
    AtSplit(prog, q - |EmitCat(x, q)|, EmitCat(x.front, q - |e|), e);
  }

  lemma EmitAltShape(x: Alt, q: nat)
    ensures x.One? ==> EmitAlt(x, q) == EmitCat(x.c, q)
    ensures x.Or? ==>
              var r := EmitAlt(x.rest, q);
              EmitAlt(x, q) == [Branch(Start(r, q))] + (EmitCat(x.c, Prev(Start(r, q))) + ([Jump(ExitOf(x.rest, q))] + r))
  {
    if x.Or? {
      var r := EmitAlt(x.rest, q);
      var c, j := EmitCat(x.c, Prev(Start(r, q))), [Jump(ExitOf(x.rest, q))];
      assert c + j + r == c + (j + r);
    }
  }

  /** The parts of the code of two or more alternatives; `j` is the jump behind the first one. */
  lemma AltParts(prog: seq<Tr>, x: Alt, q: nat) returns (j: nat)
    requires x.Or? && AltAt(prog, x, q)
    ensures AltAt(prog, x.rest, q)
    ensures j == q - |EmitAlt(x.rest, q)| - 1 == ExitOf(x, q) && j < |prog| && prog[j] == Jump(ExitOf(x.rest, q))
    ensures CatAt(prog, x.c, j)
    ensures q - |EmitAlt(x, q)| == j - |EmitCat(x.c, j)| - 1 < |prog|
    ensures prog[q - |EmitAlt(x, q)|] == Branch(j + 1)
  {
    hide At, EmitCat;
    EmitAltShape(x, q);
    var e, r := EmitAlt(x, q), EmitAlt(x.rest, q);
    j := q - |r| - 1;
    var c := EmitCat(x.c, j);
    var tail: seq<Tr> := [Jump(ExitOf(x.rest, q))] + r;
    var p := q - |e|;
    AtCell(prog, p, e, 0);
    AtSplit(prog, p, [Branch(j + 1)], c + tail);
    AtSplit(prog, p + 1, c, tail);
    AtCell(prog, p + 1 + |c|, tail, 0);
    AtSplit(prog, p + 1 + |c|, [Jump(ExitOf(x.rest, q))], r);
  }

  lemma AtomPath(x: Item, prog: seq<Tr>, q: nat, text: string, a: nat, b: nat)
    requires x.Lit? || x.Range? || x.Lead?
    requires ItemAt(prog, x, q) && MatchItem(x, text, a, b)
    ensures Path(prog, text, q - |EmitItem(x, q)|, a, q, b, 1)
  {
    var p := q - |EmitItem(x, q)|;
    assert Path(prog, text, q, b, q, b, 0);
    if x.Range? {
      RangeBlock(prog, p, x.invert, x.members, text[a]);
    } else {
      AtCell(prog, p, EmitItem(x, q), 0);
    }
  }

  /** A path through the body of an item, extended over the cells around it. */
  lemma WrapPath(x: Item, prog: seq<Tr>, q: nat, text: string, a: nat, b: nat, n: nat)
    requires x.Opt? || x.Mark? || x.Plus? || x.Star?
    requires ItemAt(prog, x, q)
    requires var e := if x.Opt? then q else q - 1;
             e >= 0 && ItemAt(prog, x.i, e) && Path(prog, text, e - |EmitItem(x.i, e)|, a, e, b, n)
    ensures Path(prog, text, q - |EmitItem(x, q)|, a, q, b, if x.Star? then n + 2 else n + 1)
  {
    hide EmitItem, ItemAt, At;
    ItemParts(prog, x, q);
    ItemLength(x, q);
    if !x.Opt? {
      assert Path(prog, text, q, b, q, b, 0);
      assert Path(prog, text, q - 1, b, q, b, 1);
      PathJoin(prog, text, q - 1 - |EmitItem(x.i, q - 1)|, a, q - 1, b, q, b, n, 1);
    }
  }

  /** The path around an item that is skipped. */
  lemma SkipPath(x: Item, prog: seq<Tr>, q: nat, text: string, a: nat)
    requires x.Opt? || x.Star?
    requires ItemAt(prog, x, q)
    ensures Path(prog, text, q - |EmitItem(x, q)|, a, q, a, 1)
  {
    ItemParts(prog, x, q);
    assert Path(prog, text, q, a, q, a, 0);
  }

  lemma {:induction false} ItemPath(x: Item, prog: seq<Tr>, q: nat, text: string, a: nat, b: nat) returns (n: nat)
    requires CoreItem(x) && ItemAt(prog, x, q) && MatchItem(x, text, a, b)
    ensures Path(prog, text, q - |EmitItem(x, q)|, a, q, b, n)
    decreases x, 0
  {
    hide Path, MatchTimes, EmitItem, ItemAt, At;
    ItemParts(prog, x, q);
    match x
    case Lit(_) => AtomPath(x, prog, q, text, a, b); n := 1;
    case Range(_, _) => AtomPath(x, prog, q, text, a, b); n := 1;
    case Lead(_) => AtomPath(x, prog, q, text, a, b); n := 1;
    case Group(y) => GroupParts(prog, y, q); n := AltPath(y, prog, q, text, a, b);
    case Opt(i) =>
      if a == b {
        SkipPath(x, prog, q, text, a);
        n := 1;
      } else {
        n := ItemPath(i, prog, q, text, a, b);
        WrapPath(x, prog, q, text, a, b, n);
        n := n + 1;
      }
    case Mark(i, id) =>
      n := ItemPath(i, prog, q - 1, text, a, b);
      WrapPath(x, prog, q, text, a, b, n);
      n := n + 1;
    case Plus(_) => n := LoopPath(x, prog, q, text, a, b);
    case Star(_) => n := LoopPath(x, prog, q, text, a, b);
  }

  lemma {:induction false} LoopPath(x: Item, prog: seq<Tr>, q: nat, text: string, a: nat, b: nat) returns (n: nat)
    requires x.Plus? || x.Star?
    requires CoreItem(x) && ItemAt(prog, x, q) && MatchItem(x, text, a, b)
    ensures Path(prog, text, q - |EmitItem(x, q)|, a, q, b, n)
    decreases x.i, 2
  {
    hide Path, ItemAt, EmitItem, MatchItem, MatchTimes;
    ItemParts(prog, x, q);
    var t: nat;
    if x.Plus? {
      t := PlusCount(x.i, text, a, b);
    } else {
      t := StarCount(x.i, text, a, b);
    }
    if t == 0 {
      SkipPath(x, prog, q, text, a);
      n := 1;
    } else {
      n := TimesPath(x.i, t, prog, q - 1, text, a, b);
      WrapPath(x, prog, q, text, a, b, n);
      n := if x.Plus? then n + 1 else n + 2;
    }
  }

  /** Going around a loop body that ends at `q`, where a branch leads back to its start. */
  lemma {:induction false} TimesPath(i: Item, t: nat, prog: seq<Tr>, q: nat, text: string, a: nat, b: nat) returns (n: nat)
    requires CoreItem(i) && ItemAt(prog, i, q) && t >= 1 && MatchTimes(i, t, text, a, b)
    requires q < |prog| && prog[q] == Branch(q - |EmitItem(i, q)|)
    ensures Path(prog, text, q - |EmitItem(i, q)|, a, q, b, n)
    decreases i, 1, t
  {
    var s := q - |EmitItem(i, q)|;
    var m := LastTime(i, t, text, a, b);
    var k := ItemPath(i, prog, q, text, m, b);
    if t == 1 {
      n := k;
    } else {
      n := TimesPath(i, t - 1, prog, q, text, a, m);
      PathJoin(prog, text, s, a, q, m, s, m, n, 1);
      PathJoin(prog, text, s, a, s, m, q, b, n + 1, k);
      n := n + 1 + k;
    }
  }

  lemma {:induction false} CatPath(x: Cat, prog: seq<Tr>, q: nat, text: string, a: nat, b: nat) returns (n: nat)
    requires CoreCat(x) && CatAt(prog, x, q) && MatchCat(x, text, a, b)
    ensures Path(prog, text, q - |EmitCat(x, q)|, a, q, b, n)
    decreases x
  {
    n := 0;
    if x.Snoc? {
      CatParts(prog, x, q);
      var e := EmitItem(x.last, q);
      var m := LastItem(x, text, a, b);
      var k := ItemPath(x.last, prog, q, text, m, b);
      n := CatPath(x.front, prog, q - |e|, text, a, m);
      PathJoin(prog, text, q - |EmitCat(x, q)|, a, q - |e|, m, q, b, n, k);
      n := n + k;
    }
  }

  /** The chain of jumps behind the alternatives leads to the exit. */
  lemma {:induction false} ExitPath(x: Alt, prog: seq<Tr>, q: nat, text: string, a: nat) returns (n: nat)
    requires AltAt(prog, x, q)
    ensures Path(prog, text, ExitOf(x, q), a, q, a, n)
    decreases x
  {
    n := 0;
    if x.Or? {
      var j := AltParts(prog, x, q);
      n := ExitPath(x.rest, prog, q, text, a);
      n := n + 1;
    }
  }

  lemma BranchPath(prog: seq<Tr>, text: string, p: nat, to: nat, a: nat, q: nat, b: nat, n: nat)
    requires p < |prog| && prog[p] == Branch(to) && Path(prog, text, to, a, q, b, n)
    ensures Path(prog, text, p, a, q, b, n + 1)
  {
  }

  /** Into the first alternative, through it to the jump at `j`, and on to the exit. */
  lemma FirstPath(prog: seq<Tr>, text: string, p: nat, j: nat, exit: nat, q: nat, a: nat, b: nat, n: nat, k: nat)
    requires p < |prog| && prog[p].Branch? && j < |prog| && prog[j] == Jump(exit)
    requires Path(prog, text, p + 1, a, j, b, n) && Path(prog, text, exit, b, q, b, k)
    ensures Path(prog, text, p, a, q, b, n + k + 2)
  {
    assert Path(prog, text, j, b, q, b, k + 1);
    PathJoin(prog, text, p + 1, a, j, b, q, b, n, k + 1);
  }

  lemma {:induction false} AltPath(x: Alt, prog: seq<Tr>, q: nat, text: string, a: nat, b: nat) returns (n: nat)
    requires CoreAlt(x) && AltAt(prog, x, q) && MatchAlt(x, text, a, b)
    ensures Path(prog, text, q - |EmitAlt(x, q)|, a, q, b, n)
    decreases x
  {
    hide Path, At, MatchCat, EmitCat;
    if x.One? {
      EmitAltShape(x, q);
      n := CatPath(x.c, prog, q, text, a, b);
    } else {
      var j := AltParts(prog, x, q);
      var p := q - |EmitAlt(x, q)|;
      if MatchCat(x.c, text, a, b) {
        n := CatPath(x.c, prog, j, text, a, b);
        var k := ExitPath(x.rest, prog, q, text, b);
        FirstPath(prog, text, p, j, ExitOf(x.rest, q), q, a, b, n, k);
        n := n + k + 2;
      } else {
        n := AltPath(x.rest, prog, q, text, a, b);
        BranchPath(prog, text, p, j + 1, a, q, b, n);
        n := n + 1;
      }
    }
  }

  // ----- what is accepted matches

  /** A path that has left the block `p..q` behind: it continues at `q` from position `m`. */
  ghost predicate Leaves(prog: seq<Tr>, text: string, q: nat, m: nat, f: nat, b: nat, k: nat, n: nat) {
    k <= n && Path(prog, text, q, m, f, b, k)
  }

  lemma JumpSplit(prog: seq<Tr>, text: string, p: nat, a: nat, f: nat, b: nat, n: nat)
    requires p < |prog| && prog[p].Jump? && p != f && Path(prog, text, p, a, f, b, n)
    ensures n >= 1 && Path(prog, text, prog[p].to, a, f, b, n - 1)
  {
  }

  lemma BranchSplit(prog: seq<Tr>, text: string, p: nat, a: nat, f: nat, b: nat, n: nat)
    requires p < |prog| && prog[p].Branch? && p != f && Path(prog, text, p, a, f, b, n)
    ensures n >= 1
    ensures Path(prog, text, p + 1, a, f, b, n - 1) || Path(prog, text, prog[p].to, a, f, b, n - 1)
  {
  }

  lemma AtomSplit(x: Item, prog: seq<Tr>, q: nat, text: string, a: nat, f: nat, b: nat, n: nat) returns (m: nat)
    requires x.Lit? || x.Range? || x.Lead?
    requires ItemAt(prog, x, q) && q - |EmitItem(x, q)| != f
    requires Path(prog, text, q - |EmitItem(x, q)|, a, f, b, n)
    ensures n >= 1 && MatchItem(x, text, a, m) && Path(prog, text, q, m, f, b, n - 1)
  {
    var p := q - |EmitItem(x, q)|;
    m := if x.Lead? then a else a + 1;
    if x.Range? {
      AtCell(prog, p, EmitItem(x, q), 0);
      if a < |text| {
        RangeBlock(prog, p, x.invert, x.members, text[a]);
      }
    } else {
      AtCell(prog, p, EmitItem(x, q), 0);
    }
  }

  lemma MarkSplit(prog: seq<Tr>, text: string, p: nat, a: nat, f: nat, b: nat, n: nat)
    requires p < |prog| && prog[p].Tok? && prog[p].t.Id? && p != f && Path(prog, text, p, a, f, b, n)
    ensures n >= 1 && Path(prog, text, p + 1, a, f, b, n - 1)
  {
  }

  lemma {:induction false} ItemSplit(x: Item, prog: seq<Tr>, q: nat, text: string, a: nat, f: nat, b: nat, n: nat)
    returns (m: nat, k: nat)
    requires CoreItem(x) && ItemAt(prog, x, q)
    requires f < q - |EmitItem(x, q)| || q <= f
    requires Path(prog, text, q - |EmitItem(x, q)|, a, f, b, n)
    ensures MatchItem(x, text, a, m) && Leaves(prog, text, q, m, f, b, k, n)
    decreases x, n, 0
  {
    hide Path, EmitItem, ItemAt, At, MatchTimes;
    ItemParts(prog, x, q);
    ItemLength(x, q);
    var p := q - |EmitItem(x, q)|;
    match x
    case Lit(_) => AtomLength(x, q); m := AtomSplit(x, prog, q, text, a, f, b, n); k := n - 1;
    case Range(_, _) => AtomLength(x, q); m := AtomSplit(x, prog, q, text, a, f, b, n); k := n - 1;
    case Lead(_) => AtomLength(x, q); m := AtomSplit(x, prog, q, text, a, f, b, n); k := n - 1;
    case Group(y) => GroupParts(prog, y, q); m, k := AltSplit(y, prog, q, text, a, f, b, n);
    case Opt(i) =>
      BranchSplit(prog, text, p, a, f, b, n);
      if Path(prog, text, p + 1, a, f, b, n - 1) {
        m, k := ItemSplit(i, prog, q, text, a, f, b, n - 1);
      } else {
        m, k := a, n - 1;
      }
    case Mark(i, _) =>
      m, k := ItemSplit(i, prog, q - 1, text, a, f, b, n);
      MarkSplit(prog, text, q - 1, m, f, b, k);
      k := k - 1;
    case Plus(i) =>
      var t;
      m, t, k := TimesSplitPath(i, prog, q - 1, text, a, f, b, n);
      PlusMade(i, t, text, a, m);
    case Star(i) =>
      BranchSplit(prog, text, p, a, f, b, n);
      if Path(prog, text, p + 1, a, f, b, n - 1) {
        var t;
        m, t, k := TimesSplitPath(i, prog, q - 1, text, a, f, b, n - 1);
        StarMade(i, t, text, a, m);
      } else {
        m, k := a, n - 1;
        NoTimes(i, text, a);
        StarMade(i, 0, text, a, a);
      }
  }

  lemma AtomLength(x: Item, q: nat)
    requires x.Lit? || x.Range? || x.Lead?
    ensures |EmitItem(x, q)| >= 1
  {
  }

  lemma NoTimes(i: Item, text: string, a: nat)
    ensures MatchTimes(i, 0, text, a, a)
  {
  }

  /** A path through a loop body that ends at `q`, where a branch leads back to its start. */
  lemma {:induction false} TimesSplitPath(i: Item, prog: seq<Tr>, q: nat, text: string, a: nat, f: nat, b: nat, n: nat)
    returns (m: nat, t: nat, k: nat)
    requires CoreItem(i) && ItemAt(prog, i, q)
    requires q < |prog| && prog[q] == Branch(q - |EmitItem(i, q)|)
    requires f < q - |EmitItem(i, q)| || q + 1 <= f
    requires Path(prog, text, q - |EmitItem(i, q)|, a, f, b, n)
    ensures t >= 1 && MatchTimes(i, t, text, a, m) && Leaves(prog, text, q + 1, m, f, b, k, n)
    decreases i, n, 1
  {
    hide Path, EmitItem, ItemAt, MatchItem, MatchTimes, CoreItem;
    m, k := ItemSplit(i, prog, q, text, a, f, b, n);
    OneTime(i, text, a, m);
    t := 1;
    BranchSplit(prog, text, q, m, f, b, k);
    if Path(prog, text, q + 1, m, f, b, k - 1) {
      k := k - 1;
    } else {
      var m1, t1 := m, t;
      m, t, k := TimesSplitPath(i, prog, q, text, m1, f, b, k - 1);
      TimesAppend(i, 1, t, text, a, m1, m);
      t := t + 1;
    }
  }

  lemma {:induction false} CatSplit(x: Cat, prog: seq<Tr>, q: nat, text: string, a: nat, f: nat, b: nat, n: nat)
    returns (m: nat, k: nat)
    requires CoreCat(x) && CatAt(prog, x, q)
    requires f < q - |EmitCat(x, q)| || q <= f
    requires Path(prog, text, q - |EmitCat(x, q)|, a, f, b, n)
    ensures MatchCat(x, text, a, m) && Leaves(prog, text, q, m, f, b, k, n)
    decreases x, n
  {
    hide Path, EmitItem, MatchItem, At;
    if x.Nil? {
      m, k := a, n;
    } else {
      CatParts(prog, x, q);
      var e := EmitItem(x.last, q);
      var m1;
      m1, k := CatSplit(x.front, prog, q - |e|, text, a, f, b, n);
      m, k := ItemSplit(x.last, prog, q, text, m1, f, b, k);
      OneMoreItem(x.front, x.last, text, a, m1, m);
    }
  }

  lemma {:induction false} ExitSplit(x: Alt, prog: seq<Tr>, q: nat, text: string, a: nat, f: nat, b: nat, n: nat)
    returns (k: nat)
    requires AltAt(prog, x, q)
    requires f < q - |EmitAlt(x, q)| || q <= f
    requires Path(prog, text, ExitOf(x, q), a, f, b, n)
    ensures Leaves(prog, text, q, a, f, b, k, n)
    decreases x
  {
    hide Path, EmitCat, At;
    k := n;
    if x.Or? {
      var j := AltParts(prog, x, q);
      JumpSplit(prog, text, j, a, f, b, n);
      k := ExitSplit(x.rest, prog, q, text, a, f, b, n - 1);
    }
  }

  lemma {:induction false} AltSplit(x: Alt, prog: seq<Tr>, q: nat, text: string, a: nat, f: nat, b: nat, n: nat)
    returns (m: nat, k: nat)
    requires CoreAlt(x) && AltAt(prog, x, q)
    requires f < q - |EmitAlt(x, q)| || q <= f
    requires Path(prog, text, q - |EmitAlt(x, q)|, a, f, b, n)
    ensures MatchAlt(x, text, a, m) && Leaves(prog, text, q, m, f, b, k, n)
    decreases x, n
  {
    hide Path, EmitCat, At, MatchCat;
    if x.One? {
      EmitAltShape(x, q);
      m, k := CatSplit(x.c, prog, q, text, a, f, b, n);
    } else {
      var j := AltParts(prog, x, q);
      var p := q - |EmitAlt(x, q)|;
      BranchSplit(prog, text, p, a, f, b, n);
      if Path(prog, text, p + 1, a, f, b, n - 1) {
        m, k := CatSplit(x.c, prog, j, text, a, f, b, n - 1);
        JumpSplit(prog, text, j, m, f, b, k);
        k := ExitSplit(x.rest, prog, q, text, m, f, b, k - 1);
      } else {
        m, k := AltSplit(x.rest, prog, q, text, a, f, b, n - 1);
      }
    }
  }

  // ----- the language of a pattern

  lemma {:induction false} ProgramParts(x: Alt, size: nat)
    requires size >= 2 && |EmitProgram(x, size)| == size
    ensures var prog := EmitProgram(x, size);
            && AltAt(prog, x, size - 1) && size - 1 - |EmitAlt(x, size - 1)| == 1
            && prog[0] == Tok(Begin) && prog[size - 1] == Tok(End)
  {
    hide EmitAlt;
    var prog, e := EmitProgram(x, size), EmitAlt(x, size - 1);
    assert prog[1..1 + |e|] == e;
  }

  /** The generated program accepts exactly the texts the pattern matches. */
  lemma ProgramAccepts(x: Alt, size: nat, text: string)
    requires CoreAlt(x) && size >= 2 && |EmitProgram(x, size)| == size
    ensures Accepts(EmitProgram(x, size), text) <==> MatchAlt(x, text, 0, |text|)
  {
    hide EmitAlt, EmitProgram, At, MatchAlt, CoreAlt;
    var prog := EmitProgram(x, size);
    ProgramParts(x, size);
    if MatchAlt(x, text, 0, |text|) {
      var n := AltPath(x, prog, size - 1, text, 0, |text|);
      assert Path(prog, text, 0, 0, size - 1, |text|, n + 1);
    }
    if Accepts(prog, text) {
      var n: nat :| Path(prog, text, 0, 0, size - 1, |text|, n);
      assert n >= 1 && Path(prog, text, 1, 0, size - 1, |text|, n - 1);
      var m, k := AltSplit(x, prog, size - 1, text, 0, size - 1, |text|, n - 1);
      assert k == 0;
    }
  }
}
