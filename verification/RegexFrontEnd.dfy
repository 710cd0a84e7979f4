/**
 The front end as the program runs it: loops over the pattern text that push
 tokens, duplicate the tokens of the last item for an iterator, and finally
 generate the transition array.
 */
module RegexFrontEnd {
  import opened Options
  import opened RegexSyntax
  import opened RegexExpansion
  import opened RegexGenerator
  import opened RegexParser
  import opened RegexTransitions
  import opened RegexNfa
  import opened RegexStack
  import RegexNotation

  // ----- the token stack of a partly read pattern

  function DoneTokens(done: seq<Cat>): seq<Token> {
    if done == [] then []
    else DoneTokens(done[..|done| - 1]) + (RenderCat(ElabCat(done[|done| - 1])) + [Select])
  }

  function FrameTokens(f: Frame): seq<Token> { DoneTokens(f.done) + RenderCat(ElabCat(f.cat)) }

  /** Open groups are separated by their open brackets. */
  function FramesTokens(fs: seq<Frame>): seq<Token> {
    if fs == [] then []
    else if |fs| == 1 then [Begin] + FrameTokens(fs[0])
    else FramesTokens(fs[..|fs| - 1]) + [OpenBr] + FrameTokens(fs[|fs| - 1])
  }

  function Under(fs: seq<Frame>): seq<Token> {
    if |fs| <= 1 then [Begin] else FramesTokens(fs[..|fs| - 1]) + [OpenBr]
  }

  lemma TopTokens(fs: seq<Frame>, f: Frame)
    ensures FramesTokens(fs + [f]) == Under(fs + [f]) + FrameTokens(f)
    ensures Under(fs + [f]) == if fs == [] then [Begin] else FramesTokens(fs) + [OpenBr]
  {
    assert (fs + [f])[..|fs|] == fs;
  }

  lemma AddItemTokens(st: Reading, x: Item)
    requires st.frames != []
    ensures FramesTokens(AddItem(st, x).frames) == FramesTokens(st.frames) + RenderItem(ElabItem(x))
  {
    hide RenderItem, ElabItem;
    var fs, f := st.frames[..|st.frames| - 1], st.Top();
    var g := f.(cat := Snoc(f.cat, x));
    assert fs + [f] == st.frames;
    TopTokens(fs, f);
    TopTokens(fs, g);
    assert FrameTokens(g) == FrameTokens(f) + RenderItem(ElabItem(x));
  }

  /** The tokens below the last item. */
  function BaseTokens(st: Reading): seq<Token>
    requires st.frames != [] && st.Top().cat.Snoc?
  {
    FramesTokens(st.SetTop(st.Top().(cat := st.Top().cat.front)).frames)
  }

  lemma LastItemTokens(st: Reading, x: Item)
    requires st.frames != [] && st.Top().cat.Snoc?
    ensures FramesTokens(st.frames) == BaseTokens(st) + RenderItem(ElabItem(ItemBefore(st)))
    ensures FramesTokens(SetLast(st, x).frames) == BaseTokens(st) + RenderItem(ElabItem(x))
  {
    hide RenderItem, ElabItem, FramesTokens;
    var fs, f := st.frames[..|st.frames| - 1], st.Top();
    var base := st.SetTop(f.(cat := f.cat.front));
    assert AddItem(base, ItemBefore(st)).frames == st.frames;
    assert AddItem(base, x).frames == SetLast(st, x).frames;
    AddItemTokens(base, ItemBefore(st));
    AddItemTokens(base, x);
  }

  lemma {:induction false} FrameAltTokens(f: Frame)
    ensures RenderAlt(ElabAlt(FrameAlt(f))) == FrameTokens(f)
    decreases |f.done|
  {
    if f.done == [] {
      assert DoneTokens([]) == [];
    } else {
      FrameAltTokens(Frame(f.done[1..], f.cat));
      DoneCons(f.done);
    }
  }

  lemma {:induction false} DoneCons(done: seq<Cat>)
    requires done != []
    ensures DoneTokens(done) == RenderCat(ElabCat(done[0])) + [Select] + DoneTokens(done[1..])
  {
    hide RenderCat, ElabCat, DoneTokens;
    DoneSnoc(done);
    if |done| == 1 {
      assert done[..0] == [] && done[1..] == [];
    } else {
      var front := done[..|done| - 1];
      DoneCons(front);
      DoneSnoc(done[1..]);
      assert front[1..] == done[1..][..|done| - 2];
      var h, l := RenderCat(ElabCat(done[0])) + [Select], RenderCat(ElabCat(done[|done| - 1])) + [Select];
      assert (h + DoneTokens(front[1..])) + l == h + (DoneTokens(front[1..]) + l);
    }
  }

  lemma DoneSnoc(done: seq<Cat>)
    requires done != []
    ensures DoneTokens(done) == DoneTokens(done[..|done| - 1]) + (RenderCat(ElabCat(done[|done| - 1])) + [Select])
    ensures DoneTokens([]) == []
  {
  }

  lemma OpenTokens(st: Reading)
    requires st.frames != []
    ensures FramesTokens(st.frames + [Frame([], Nil)]) == FramesTokens(st.frames) + [OpenBr]
  {
    TopTokens(st.frames, Frame([], Nil));
    assert FrameTokens(Frame([], Nil)) == [];
  }

  lemma CloseTokens(st: Reading)
    requires |st.frames| > 1
    ensures FramesTokens(CloseGroup(st).frames) == FramesTokens(st.frames) + [CloseBr]
  {
    hide RenderAlt, FrameTokens, FramesTokens, RenderItem, ElabItem, FrameAlt, ElabAlt, Under;
    var fs, f := st.frames[..|st.frames| - 1], st.Top();
    assert fs + [f] == st.frames;
    TopTokens(fs, f);
    AddItemTokens(Reading(fs, false), Group(FrameAlt(f)));
    FrameAltTokens(f);
    GroupItemTokens(FrameAlt(f));
    assert (FramesTokens(fs) + [OpenBr]) + FrameTokens(f) + [CloseBr] == FramesTokens(fs) + ([OpenBr] + FrameTokens(f) + [CloseBr]);
  }

  lemma GroupItemTokens(a: Alt)
    ensures RenderItem(ElabItem(Group(a))) == [OpenBr] + RenderAlt(ElabAlt(a)) + [CloseBr]
  {
    hide RenderAlt, ElabAlt;
  }

  lemma SelectTokens(st: Reading)
    requires st.frames != []
    ensures FramesTokens(st.SetTop(Frame(st.Top().done + [st.Top().cat], Nil)).frames) == FramesTokens(st.frames) + [Select]
  {
    hide RenderCat, ElabCat;
    var fs, f := st.frames[..|st.frames| - 1], st.Top();
    var g := Frame(f.done + [f.cat], Nil);
    assert fs + [f] == st.frames;
    TopTokens(fs, f);
    TopTokens(fs, g);
    SelectFrame(f);
  }

  lemma SelectFrame(f: Frame)
    ensures FrameTokens(Frame(f.done + [f.cat], Nil)) == FrameTokens(f) + [Select]
  {
    assert (f.done + [f.cat])[..|f.done|] == f.done;
  }

  // ----- iterate: finding and copying the last item

  datatype Scanned = Underflow | Scanned(count: nat, len: nat)

  /** Pops tokens until the last item is complete; `count` tokens remain below it. */
  function Scan(s: seq<Token>, depth: nat, len: nat): Scanned
    decreases |s|
  {
    if s == [] then Underflow
    else
      var t, rest := s[|s| - 1], s[..|s| - 1];
      match t
      case Begin => Underflow
      case End => Underflow
      case CloseBr => Scan(rest, depth + 1, len)
      case OpenBr =>
        if depth == 0 then Underflow
        else if depth == 1 then Scanned(|rest|, len)
        else Scan(rest, depth - 1, len)
      case Select => if depth == 0 then Underflow else Scan(rest, depth, len + 2)
      case Asterisk => Scan(rest, depth, len + 2)
      case Chr(_) => if depth == 0 then Scanned(|rest|, len + 1) else Scan(rest, depth, len + 1)
      case RngStart(_) => if depth == 0 then Scanned(|rest|, len + 1) else Scan(rest, depth, len + 1)
      case _ => Scan(rest, depth, len + 1)
  }

  lemma ScanSnoc(s: seq<Token>, t: Token, depth: nat, len: nat)
    requires depth > 0 || t.Id? || t.Asterisk? || t.PlusSign? || t.QuestionMark? || t.RngEnd? || t.RngChar? || t.RngLeft? || t.RngRight?
    requires !t.Begin? && !t.End? && !t.OpenBr? && !t.CloseBr?
    ensures Scan(s + [t], depth, len) == Scan(s, depth, len + Weight(t))
  {
    assert (s + [t])[..|s|] == s;
  }

  lemma {:induction false} ScanPlain(s: seq<Token>, ts: seq<Token>, depth: nat, len: nat)
    requires forall k :: 0 <= k < |ts| ==> ts[k].RngChar? || ts[k].RngLeft? || ts[k].RngRight? || ts[k].RngEnd?
    ensures Scan(s + ts, depth, len) == Scan(s, depth, len + |ts|)
    decreases |ts|
  {
    if ts == [] {
      assert s + ts == s;
    } else {
      var front, t := ts[..|ts| - 1], ts[|ts| - 1];
      assert s + ts == (s + front) + [t];
      ScanSnoc(s + front, t, depth, len);
      ScanPlain(s, front, depth, len + 1);
    }
  }

  /** Inside brackets an item is passed over, and its weight added. */
  lemma {:induction false} ScanInside(s: seq<Token>, x: Item, depth: nat, len: nat)
    requires CoreItem(x) && depth > 0
    ensures Scan(s + RenderItem(x), depth, len) == Scan(s, depth, len + Weights(RenderItem(x)))
    decreases x
  {
    hide Scan, Weights;
    match x
    case Lit(c) => ScanSnoc(s, Chr(c), depth, len); WeightOne(Chr(c));
    case Lead(id) => ScanSnoc(s, Id(id), depth, len); WeightOne(Id(id));
    case Range(invert, ms) => ScanRange(s, invert, ms, depth, len);
    case Group(y) => ScanGroup(s, y, depth, len);
    case Star(i) => ScanPostfix(s, i, Asterisk, depth, len); ScanInside(s, i, depth, len + 2);
    case Plus(i) => ScanPostfix(s, i, PlusSign, depth, len); ScanInside(s, i, depth, len + 1);
    case Opt(i) => ScanPostfix(s, i, QuestionMark, depth, len); ScanInside(s, i, depth, len + 1);
    case Mark(i, id) => ScanPostfix(s, i, Id(id), depth, len); ScanInside(s, i, depth, len + 1);
  }

  lemma ScanPostfix(s: seq<Token>, i: Item, t: Token, depth: nat, len: nat)
    requires t.Id? || t.Asterisk? || t.PlusSign? || t.QuestionMark?
    ensures Scan(s + (RenderItem(i) + [t]), depth, len) == Scan(s + RenderItem(i), depth, len + Weight(t))
    ensures Weights(RenderItem(i) + [t]) == Weights(RenderItem(i)) + Weight(t)
  {
    hide RenderItem;
    assert s + (RenderItem(i) + [t]) == (s + RenderItem(i)) + [t];
    ScanSnoc(s + RenderItem(i), t, depth, len);
    WeightSnoc(RenderItem(i), t);
  }

  lemma ScanRange(s: seq<Token>, invert: bool, ms: seq<Member>, depth: nat, len: nat)
    ensures var ts := RangeTokens(invert, ms);
            Scan(s + ts, depth, len) == if depth == 0 then Scanned(|s|, len + Weights(ts)) else Scan(s, depth, len + Weights(ts))
  {
    hide Weights;
    var plain := MemberTokens(ms) + [RngEnd];
    var s1 := s + [RngStart(invert)];
    assert s + RangeTokens(invert, ms) == s1 + plain;
    MembersPlain(ms);
    ScanPlain(s1, plain, depth, len);
    RangeWeights(invert, ms);
    assert s1[..|s|] == s;
  }

  lemma {:induction false} ScanGroup(s: seq<Token>, y: Alt, depth: nat, len: nat)
    requires CoreAlt(y)
    ensures var ts := [OpenBr] + RenderAlt(y) + [CloseBr];
            Scan(s + ts, depth, len) == if depth == 0 then Scanned(|s|, len + Weights(ts)) else Scan(s, depth, len + Weights(ts))
    decreases y, 1
  {
    var body := RenderAlt(y);
    var ts := [OpenBr] + body + [CloseBr];
    var s1 := s + [OpenBr];
    assert s + ts == (s1 + body) + [CloseBr];
    assert (s + ts)[..|s + ts| - 1] == s1 + body;
    ScanAlt(s1, y, depth + 1, len);
    BracketWeights(body);
    assert s1[..|s|] == s;
  }

  lemma {:induction false} ScanAlt(s: seq<Token>, y: Alt, depth: nat, len: nat)
    requires CoreAlt(y) && depth > 0
    ensures Scan(s + RenderAlt(y), depth, len) == Scan(s, depth, len + Weights(RenderAlt(y)))
    decreases y, 0
  {
    hide Scan, Weights, RenderCat;
    if y.One? {
      ScanCat(s, y.c, depth, len);
    } else {
      var c, r := RenderCat(y.c), RenderAlt(y.rest);
      assert s + (c + [Select] + r) == (s + c + [Select]) + r;
      ScanAlt(s + c + [Select], y.rest, depth, len);
      ScanSnoc(s + c, Select, depth, len + Weights(r));
      ScanCat(s, y.c, depth, len + Weights(r) + 2);
      WeightsAppend(c + [Select], r);
      WeightSnoc(c, Select);
    }
  }

  lemma NoWeight()
    ensures Weights([]) == 0
  {
  }

  lemma {:induction false} ScanCat(s: seq<Token>, x: Cat, depth: nat, len: nat)
    requires CoreCat(x) && depth > 0
    ensures Scan(s + RenderCat(x), depth, len) == Scan(s, depth, len + Weights(RenderCat(x)))
    decreases x
  {
    hide Scan, Weights, RenderItem;
    if x.Nil? {
      assert s + [] == s;
      assert Weights([]) == 0 by { NoWeight(); }
    } else {
      var f, i := RenderCat(x.front), RenderItem(x.last);
      assert s + (f + i) == (s + f) + i;
      ScanInside(s + f, x.last, depth, len);
      ScanCat(s, x.front, depth, len + Weights(i));
      WeightsAppend(f, i);
    }
  }

  lemma ScanChar(s: seq<Token>, c: char, len: nat)
    ensures Scan(s + [Chr(c)], 0, len) == Scanned(|s|, len + 1)
  {
    assert (s + [Chr(c)])[..|s|] == s;
  }

  /** The scan finds exactly the tokens of the last item, operators and id marks included. */
  lemma {:induction false} ScanLast(s: seq<Token>, x: Item, len: nat)
    requires CoreItem(x) && Solid(x)
    ensures Scan(s + RenderItem(x), 0, len) == Scanned(|s|, len + Weights(RenderItem(x)))
    decreases x
  {
    hide Scan, Weights;
    match x
    case Lit(c) => ScanChar(s, c, len); WeightOne(Chr(c));
    case Range(invert, ms) => ScanRange(s, invert, ms, 0, len);
    case Group(y) => ScanGroup(s, y, 0, len);
    case Star(i) => ScanPostfix(s, i, Asterisk, 0, len); ScanLast(s, i, len + 2);
    case Plus(i) => ScanPostfix(s, i, PlusSign, 0, len); ScanLast(s, i, len + 1);
    case Opt(i) => ScanPostfix(s, i, QuestionMark, 0, len); ScanLast(s, i, len + 1);
    case Mark(i, id) => ScanPostfix(s, i, Id(id), 0, len); ScanLast(s, i, len + 1);
  }

  /** `n` copies of `ts` in a row. */
  function Times(ts: seq<Token>, n: nat): seq<Token> {
    if n == 0 then [] else Times(ts, n - 1) + ts
  }

  lemma {:induction false} CopiesTokens(front: Cat, x: Item, n: nat)
    ensures RenderCat(Copies(front, x, n)) == RenderCat(front) + Times(RenderItem(x), n)
    decreases n
  {
    hide RenderItem;
    if n == 0 {
      assert RenderCat(front) + [] == RenderCat(front);
    } else {
      CopiesTokens(front, x, n - 1);
      assert RenderCat(front) + Times(RenderItem(x), n - 1) + RenderItem(x) ==
             RenderCat(front) + (Times(RenderItem(x), n - 1) + RenderItem(x));
    }
  }

  lemma {:induction false} TimesWeight(ts: seq<Token>, n: nat)
    ensures Weights(Times(ts, n)) == n * Weights(ts)
    decreases n
  {
    hide Weights;
    if n == 0 {
      NoWeight();
    } else {
      TimesWeight(ts, n - 1);
      WeightsAppend(Times(ts, n - 1), ts);
      assert (n - 1) * Weights(ts) + Weights(ts) == n * Weights(ts);
    }
  }

  lemma {:induction false} TimesShift(ts: seq<Token>, n: nat)
    ensures ts + Times(ts, n) == Times(ts, n) + ts
    decreases n
  {
    if n == 0 {
      assert ts + [] == [] + ts;
    } else {
      TimesShift(ts, n - 1);
      assert ts + (Times(ts, n - 1) + ts) == (ts + Times(ts, n - 1)) + ts;
    }
  }

  lemma TimesNext(ts: seq<Token>, n: nat)
    ensures ts + Times(ts, n) == Times(ts, n + 1)
    ensures Times(ts, n) + ts == Times(ts, n + 1)
    ensures Times(ts, 0) == []
  {
    TimesShift(ts, n);
  }

  /** Copies the last item once. */
  method CopyLast(stack: Stack<Token>, count: nat, ghost base: seq<Token>, ghost ts: seq<Token>)
    requires stack.Valid() && stack.Contents() == base + ts && |ts| == count > 0
    modifies stack, stack.frags
    ensures stack.Valid() && stack.Extends(old(stack.frags)) && stack.Contents() == (base + ts) + ts
  {
    hide Stack<Token>.Linked, Stack<Token>.Places, Stack<Token>.PointsAt, Stack<Token>.Valid, Stack<Token>.Contents;
    assert (base + ts)[|base + ts| - count..] == ts;
    stack.PushCopy(count, count);
  }

  /** Copies the last item `n` more times. */
  method AppendCopies(stack: Stack<Token>, count: nat, n: nat, ghost base: seq<Token>, ghost ts: seq<Token>)
    requires stack.Valid() && stack.Contents() == base + ts && |ts| == count > 0
    modifies stack, stack.frags
    ensures stack.Valid() && stack.Extends(old(stack.frags)) && stack.Contents() == base + (ts + Times(ts, n))
  {
    hide Times, Stack<Token>.Linked, Stack<Token>.Places, Stack<Token>.PointsAt, Stack<Token>.Valid, Stack<Token>.Contents;
    var left := n;
    TimesNext(ts, 0);
    assert base + [] == base;
    while left > 0
      invariant 0 <= left <= n && stack.Valid() && stack.Extends(old(stack.frags))
      invariant stack.Contents() == (base + Times(ts, n - left)) + ts
    {
      ghost var front := base + Times(ts, n - left);
      CopyLast(stack, count, front, ts);
      TimesNext(ts, n - left);
      assert front + ts == base + (Times(ts, n - left) + ts);
      left := left - 1;
    }
    TimesShift(ts, n);
    assert (base + Times(ts, n)) + ts == base + (Times(ts, n) + ts);
  }

  /** Pops the last item off a clone of the stack; returns the size of its code. */
  method FindLastItem(it: Stack<Token>, ghost base: seq<Token>, ghost x: Item) returns (len: nat)
    requires CoreItem(x) && Solid(x) && it.Valid() && it.Contents() == base + RenderItem(x)
    modifies it
    ensures it.Valid() && it.frags == old(it.frags) && it.Contents() == base && len == Weights(RenderItem(x))
  {
    hide Weights, RenderItem, CoreItem, Solid, Stack<Token>.Linked, Stack<Token>.Places, Stack<Token>.PointsAt, Stack<Token>.Valid, Stack<Token>.Contents;
    var depth: nat := 0;
    len := 0;
    ScanLast(base, x, 0);
    ghost var all := it.Contents();
    while true
      invariant it.Valid() && it.frags == old(it.frags) && it.Contents() <= all
      invariant Scan(it.Contents(), depth, len) == Scanned(|base|, Weights(RenderItem(x)))
      decreases it.count
    {
      assert it.Contents() != [];
      var item := it.Pop();
      match item {
        case CloseBr => depth := depth + 1;
        case OpenBr =>
          depth := depth - 1;
          if depth == 0 {
            return;
          }
        case Select => len := len + 2;
        case Asterisk => len := len + 2;
        case Chr(_) =>
          len := len + 1;
          if depth == 0 {
            return;
          }
        case RngStart(_) =>
          len := len + 1;
          if depth == 0 {
            return;
          }
        case Id(_) => len := len + 1;
        case RngEnd => len := len + 1;
        case RngChar(_) => len := len + 1;
        case RngLeft(_) => len := len + 1;
        case RngRight(_) => len := len + 1;
        case PlusSign => len := len + 1;
        case QuestionMark => len := len + 1;
      }
    }
  }

  // ----- the expansion built on the stack

  /** Puts the last item under a question mark and copies it so that there are `n` of them. */
  method OptionalTail(stack: Stack<Token>, count: nat, n: nat, ghost base: seq<Token>, ghost ts: seq<Token>)
    requires stack.Valid() && stack.Contents() == base + ts && |ts| == count > 0 && n >= 1
    modifies stack, stack.frags
    ensures stack.Valid() && stack.Extends(old(stack.frags)) && stack.Contents() == base + Times(ts + [QuestionMark], n)
  {
    hide Times, Stack<Token>.Linked, Stack<Token>.Places, Stack<Token>.PointsAt, Stack<Token>.Valid, Stack<Token>.Contents;
    ghost var opt := ts + [QuestionMark];
    stack.Push(QuestionMark);
    assert (base + ts) + [QuestionMark] == base + opt;
    AppendCopies(stack, count + 1, n - 1, base, opt);
    TimesNext(opt, n - 1);
  }

  /** X{min,max}: the first copy of X is already there, behind the new open bracket. */
  method BuildBounded(stack: Stack<Token>, count: nat, min: nat, max: nat, ghost base: seq<Token>, ghost ts: seq<Token>)
    requires stack.Valid() && stack.Contents() == base + ts && |ts| == count > 0 && min <= max && max >= 1
    modifies stack, stack.frags
    ensures stack.Valid() && stack.Extends(old(stack.frags))
    ensures stack.Contents() == base + (Times(ts, min) + Times(ts + [QuestionMark], max - min))
  {
    hide Times, Stack<Token>.Linked, Stack<Token>.Places, Stack<Token>.PointsAt, Stack<Token>.Valid, Stack<Token>.Contents;
    TimesNext(ts, 0);
    TimesNext(ts + [QuestionMark], 0);
    if min == 0 {
      OptionalTail(stack, count, max, base, ts);
      assert [] + Times(ts + [QuestionMark], max) == Times(ts + [QuestionMark], max);
      return;
    }
    AppendCopies(stack, count, min - 1, base, ts);
    TimesNext(ts, min - 1);
    if max > min {
      assert base + (Times(ts, min - 1) + ts) == (base + Times(ts, min - 1)) + ts;
      CopyLast(stack, count, base + Times(ts, min - 1), ts);
      OptionalTail(stack, count, max - min, base + Times(ts, min), ts);
      assert (base + Times(ts, min)) + Times(ts + [QuestionMark], max - min) == base + (Times(ts, min) + Times(ts + [QuestionMark], max - min));
    } else {
      assert Times(ts, min) + [] == Times(ts, min);
    }
  }

  /** X{min,}: `min` copies, the last one under a plus. */
  method BuildOpen(stack: Stack<Token>, count: nat, min: nat, ghost base: seq<Token>, ghost ts: seq<Token>)
    requires stack.Valid() && stack.Contents() == base + ts && |ts| == count > 0 && min >= 1
    modifies stack, stack.frags
    ensures stack.Valid() && stack.Extends(old(stack.frags))
    ensures stack.Contents() == base + (Times(ts, min - 1) + (ts + [PlusSign]))
  {
    hide Times, Stack<Token>.Linked, Stack<Token>.Places, Stack<Token>.PointsAt, Stack<Token>.Valid, Stack<Token>.Contents;
    AppendCopies(stack, count, min - 1, base, ts);
    TimesShift(ts, min - 1);
    stack.Push(PlusSign);
    assert base + (Times(ts, min - 1) + ts) + [PlusSign] == base + (Times(ts, min - 1) + (ts + [PlusSign]));
  }

  function UpperBound(max: nat): Option<nat> { if max == 0 then None else Some(max) }

  /** The copies between the brackets of an expansion. */
  function Body(ts: seq<Token>, min: nat, max: nat): seq<Token>
    requires (max >= 2 && min <= max) || (max == 0 && min >= 2)
  {
    if max > 0 then Times(ts, min) + Times(ts + [QuestionMark], max - min) else Times(ts, min - 1) + (ts + [PlusSign])
  }

  lemma ExpandTokens(x: Item, min: nat, max: nat)
    requires (max >= 2 && min <= max) || (max == 0 && min >= 2)
    ensures var ts := RenderItem(x);
            RenderItem(Expand(x, min, UpperBound(max))) == [OpenBr] + Body(ts, min, max) + [CloseBr]
  {
    hide RenderItem, RenderCat, Times;
    if max > 0 {
      CopiesTokens(Nil, x, min);
      CopiesTokens(Copies(Nil, x, min), Opt(x), max - min);
      GroupTokens(Copies(Copies(Nil, x, min), Opt(x), max - min), x);
      assert [] + Times(RenderItem(x), min) == Times(RenderItem(x), min);
    } else {
      CopiesTokens(Nil, x, min - 1);
      GroupTokens(Snoc(Copies(Nil, x, min - 1), Plus(x)), x);
      assert [] + Times(RenderItem(x), min - 1) == Times(RenderItem(x), min - 1);
    }
  }

  lemma GroupTokens(c: Cat, x: Item)
    ensures RenderItem(Group(One(c))) == [OpenBr] + RenderCat(c) + [CloseBr]
    ensures RenderItem(Opt(x)) == RenderItem(x) + [QuestionMark]
    ensures RenderItem(Plus(x)) == RenderItem(x) + [PlusSign]
    ensures RenderCat(Nil) == []
    ensures c.Snoc? ==> RenderCat(c) == RenderCat(c.front) + RenderItem(c.last)
  {
    assert RenderAlt(One(c)) == RenderCat(c);
  }

  /** The growth of the code that iterate reports. */
  function Growth(len: nat, min: nat, max: nat): nat
    requires (max >= 2 && min <= max) || (max == 0 && min >= 2)
  {
    if max > 0 then len * (max - 1) + (max - min) else len * (min - 1) + 1
  }

  lemma GrowthSum(len: nat, min: nat, max: nat)
    requires min <= max && max >= 1
    ensures min * len + (max - min) * (len + 1) == len + (len * (max - 1) + (max - min))
  {
    assert (max - min) * (len + 1) == (max - min) * len + (max - min);
    assert min * len + (max - min) * len == max * len;
    assert max * len == len + len * (max - 1);
  }

  lemma GrowthIsExact(x: Item, min: nat, max: nat)
    requires (max >= 2 && min <= max) || (max == 0 && min >= 2)
    ensures var len := Weights(RenderItem(x));
            Weights(RenderItem(Expand(x, min, UpperBound(max)))) == len + Growth(len, min, max)
  {
    hide RenderItem, Weights, Expand, Times;
    var ts := RenderItem(x);
    var len := Weights(ts);
    ExpandTokens(x, min, max);
    if max > 0 {
      var body := Times(ts, min) + Times(ts + [QuestionMark], max - min);
      BracketWeights(body);
      WeightsAppend(Times(ts, min), Times(ts + [QuestionMark], max - min));
      TimesWeight(ts, min);
      TimesWeight(ts + [QuestionMark], max - min);
      WeightSnoc(ts, QuestionMark);
      GrowthSum(len, min, max);
    } else {
      var body := Times(ts, min - 1) + (ts + [PlusSign]);
      BracketWeights(body);
      WeightsAppend(Times(ts, min - 1), ts + [PlusSign]);
      TimesWeight(ts, min - 1);
      WeightSnoc(ts, PlusSign);
    }
  }

  lemma ItemHasTokens(x: Item)
    requires CoreItem(x)
    ensures |RenderItem(x)| > 0
  {
  }

  /** {0,0}: the item is replaced by an empty group; returns the size of the deleted code. */
  method Delete(stack: Stack<Token>, ghost base: seq<Token>, ghost x: Item) returns (len: nat)
    requires CoreItem(x) && Solid(x) && stack.Valid() && stack.Contents() == base + RenderItem(x)
    modifies stack, stack.frags
    ensures stack.Valid() && stack.Extends(old(stack.frags)) && stack.Contents() == base + RenderItem(Expand(x, 0, Some(0)))
    ensures Weights(stack.Contents()) + len == Weights(old(stack.Contents()))
  {
    hide Weights, CoreItem, Solid, Stack<Token>.Linked, Stack<Token>.Places, Stack<Token>.PointsAt, Stack<Token>.Valid, Stack<Token>.Contents;
    var it := new Stack.Clone(stack);
    len := FindLastItem(it, base, x);
    stack.Become(it);
    stack.Push(OpenBr);
    stack.Push(CloseBr);
    assert (base + [OpenBr]) + [CloseBr] == base + ([OpenBr] + [] + [CloseBr]);
    BracketWeights([]);
    NoWeight();
    WeightsAppend(base, [OpenBr] + [] + [CloseBr]);
    WeightsAppend(base, RenderItem(x));
  }

  /** Puts an open bracket below the last item; returns the size of its code and how many tokens it has. */
  method OpenBelow(stack: Stack<Token>, ghost base: seq<Token>, ghost x: Item) returns (len: nat, length: nat)
    requires CoreItem(x) && Solid(x) && stack.Valid() && stack.Contents() == base + RenderItem(x)
    modifies stack, stack.frags
    ensures stack.Valid() && stack.Extends(old(stack.frags)) && stack.Contents() == (base + [OpenBr]) + RenderItem(x)
    ensures len == Weights(RenderItem(x)) && length == |RenderItem(x)|
  {
    hide RenderItem, Weights, CoreItem, Solid, Stack<Token>.Linked, Stack<Token>.Places, Stack<Token>.PointsAt, Stack<Token>.Valid, Stack<Token>.Contents;
    ghost var ts := RenderItem(x);
    ItemHasTokens(x);
    var it := new Stack.Clone(stack);
    len := FindLastItem(it, base, x);
    length := stack.count - it.count;
    assert (base + ts)[..|base|] == base && (base + ts)[|base|..] == ts;
    PushBelow(stack, it, length, OpenBr);
  }

  method BuildBody(stack: Stack<Token>, count: nat, min: nat, max: nat, ghost base: seq<Token>, ghost ts: seq<Token>)
    requires stack.Valid() && stack.Contents() == base + ts && |ts| == count > 0
    requires (max >= 2 && min <= max) || (max == 0 && min >= 2)
    modifies stack, stack.frags
    ensures stack.Valid() && stack.Extends(old(stack.frags)) && stack.Contents() == base + Body(ts, min, max)
  {
    hide Times, Stack<Token>.Linked, Stack<Token>.Places, Stack<Token>.PointsAt, Stack<Token>.Valid, Stack<Token>.Contents;
    if max > 0 {
      BuildBounded(stack, count, min, max, base, ts);
    } else {
      BuildOpen(stack, count, min, base, ts);
    }
  }

  /** Expands the last item; returns the growth of the code. */
  method Iterate(stack: Stack<Token>, min: nat, max: nat, ghost base: seq<Token>, ghost x: Item) returns (len: nat)
    requires CoreItem(x) && Solid(x) && stack.Valid() && stack.Contents() == base + RenderItem(x)
    requires (max >= 2 && min <= max) || (max == 0 && min >= 2)
    modifies stack, stack.frags
    ensures stack.Valid() && stack.Extends(old(stack.frags)) && stack.Contents() == base + RenderItem(Expand(x, min, UpperBound(max)))
    ensures Weights(stack.Contents()) == Weights(old(stack.Contents())) + len
  {
    hide RenderItem, Weights, Expand, CoreItem, Solid, Times, Body, Stack<Token>.Linked, Stack<Token>.Places, Stack<Token>.PointsAt, Stack<Token>.Valid, Stack<Token>.Contents;
    ghost var ts, base', body := RenderItem(x), base + [OpenBr], Body(RenderItem(x), min, max);
    ItemHasTokens(x);
    GrowthIsExact(x, min, max);
    ExpandTokens(x, min, max);
    var length;
    len, length := OpenBelow(stack, base, x);
    BuildBody(stack, length, min, max, base', ts);
    len := Growth(len, min, max);
    stack.Push(CloseBr);
    assert (base' + body) + [CloseBr] == base + ([OpenBr] + body + [CloseBr]);
    WeightsAppend(base, ts);
    WeightsAppend(base, [OpenBr] + body + [CloseBr]);
  }

  // ----- parse_iterator

  method DecodeNumber(p: string, i: nat) returns (value: nat, end: nat)
    requires i <= |p|
    ensures Number(value, end) == ReadNumber(p, i, 0)
  {
    value, end := 0, i;
    while end < |p| && IsDigit(p[end])
      invariant i <= end <= |p|
      invariant ReadNumber(p, end, value) == ReadNumber(p, i, 0)
    {
      value := value * 10 + (p[end] as int - '0' as int);
      end := end + 1;
    }
  }

  /** How the program holds bounds in two integers: no upper bound is 0, {0,0} is -1 and 0. */
  predicate Encodes(val1: int, val2: int, min: nat, max: Option<nat>) {
    match max
    case None => val1 == min && val2 == 0
    case Some(m) => if m == 0 then min == 0 && val1 == -1 && val2 == 0 else val1 == min && val2 == m
  }

  datatype Decoded = Rejected | AnId(id: nat, end: nat) | TwoValues(val1: int, val2: int, end: nat)

  predicate Represents(d: Decoded, it: Iterator) {
    match it
    case NotIterator => d.Rejected?
    case IdMark(id, end) => d == AnId(id, end)
    case Bounds(min, max, end) => d.TwoValues? && d.end == end && Encodes(d.val1, d.val2, min, max)
  }

  /** The right value of an iterator whose left value is `min`. */
  method DecodeUpper(p: string, j: nat, min: nat) returns (d: Decoded)
    requires j <= |p|
    ensures Represents(d, ReadUpper(p, j, min))
  {
    if j == |p| {
      return Rejected;
    }
    if p[j] == '}' {
      return TwoValues(min, 0, j);
    }
    if !IsDigit(p[j]) {
      return Rejected;
    }
    var val2, end := DecodeNumber(p, j);
    if end == |p| || p[end] != '}' || val2 < min {
      return Rejected;
    }
    d := TwoValues(if val2 == 0 then -1 else min, val2, end);
  }

  method DecodeIterator(p: string, i: nat) returns (d: Decoded)
    requires i < |p|
    ensures Represents(d, ReadIterator(p, i))
  {
    hide ReadNumber, ReadUpper;
    var j := i + 1;
    if j == |p| {
      return Rejected;
    }
    if p[j] == ',' {
      d := DecodeUpper(p, j + 1, 0);
      return;
    }
    if !IsDigit(p[j]) {
      return Rejected;
    }
    var val1, end := DecodeNumber(p, j);
    if end == |p| {
      return Rejected;
    }
    if p[end] == '}' {
      return TwoValues(if val1 == 0 then -1 else val1, val1, end);
    }
    if |p| - end >= 2 && p[end] == '!' && p[end + 1] == '}' {
      return AnId(val1, end + 1);
    }
    if p[end] != ',' {
      return Rejected;
    }
    d := DecodeUpper(p, end + 1, val1);
  }

  /** Applies bounds to the last item: the fast cases push one token, the others iterate or delete. */
  method ApplyBounds(stack: Stack<Token>, dfaSize: nat, val1: int, val2: int,
                     ghost base: seq<Token>, ghost x: Item, ghost min: nat, ghost max: Option<nat>) returns (dfaSize': int)
    requires CoreItem(x) && Solid(x) && stack.Valid() && stack.Contents() == base + RenderItem(x)
    requires Encodes(val1, val2, min, max) && (max.Some? ==> min <= max.value)
    modifies stack, stack.frags
    ensures stack.Valid() && stack.Extends(old(stack.frags)) && stack.Contents() == base + RenderItem(Expand(x, min, max))
    ensures dfaSize' - dfaSize == Weights(stack.Contents()) - Weights(old(stack.Contents()))
  {
    hide CoreItem, Solid, Weights, Stack<Token>.Linked, Stack<Token>.Places, Stack<Token>.PointsAt, Stack<Token>.Valid, Stack<Token>.Contents;
    dfaSize' := dfaSize;
    ghost var was := stack.Contents();
    var len;
    if val1 > 1 || val2 > 1 {
      len := Iterate(stack, val1, val2, base, x);
      dfaSize' := dfaSize + len;
    } else if val1 == 0 && val2 == 0 {
      stack.Push(Asterisk);
      dfaSize' := dfaSize + 2;
      WeightSnoc(was, Asterisk);
    } else if val1 == 1 && val2 == 0 {
      stack.Push(PlusSign);
      dfaSize' := dfaSize + 1;
      WeightSnoc(was, PlusSign);
    } else if val1 == 0 && val2 == 1 {
      stack.Push(QuestionMark);
      dfaSize' := dfaSize + 1;
      WeightSnoc(was, QuestionMark);
    } else if val1 == -1 {
      len := Delete(stack, base, x);
      dfaSize' := dfaSize - len;
    }
  }

  // ----- parse_char_range

  method ParseCharRange(p: string, i: nat, stack: Stack<Token>, dfaSize: nat) returns (ok: bool, dfaSize': nat, end: nat)
    requires i < |p| && stack.Valid()
    modifies stack, stack.frags
    ensures stack.Valid() && stack.Extends(old(stack.frags))
    ensures ok == ReadRange(p, i).RangeText?
    ensures ok ==> var r := ReadRange(p, i);
                   end == r.end && stack.Contents() == old(stack.Contents()) + RangeTokens(r.invert, r.members) &&
                   dfaSize' == dfaSize + |RangeTokens(r.invert, r.members)|
  {
    hide Stack<Token>.Linked, Stack<Token>.Places, Stack<Token>.PointsAt, Stack<Token>.Valid, Stack<Token>.Contents, MemberTokens, ReadMembers, RangeTokens;
    ok, dfaSize', end := false, dfaSize, i + 1;
    ghost var was := stack.Contents();
    if end == |p| {
      return;
    }
    var invert := p[end] == '^';
    if invert {
      end := end + 1;
      if end == |p| {
        return;
      }
    }
    stack.Push(RngStart(invert));
    dfaSize' := dfaSize + 2;
    ghost var base, ms: seq<Member> := was + [RngStart(invert)], [];
    FirstMembers(base);
    if p[end] == ']' {
      end := end + 1;
      stack.Push(RngChar(']'));
      dfaSize' := dfaSize' + 1;
      ms := [Single(']')];
    }
    ok, dfaSize', end, ms := ParseMembers(p, end, stack, dfaSize', ms, base);
    if !ok {
      return;
    }
    stack.Push(RngEnd);
    RangeEnds(was, invert, ms);
  }

  lemma FirstMembers(base: seq<Token>)
    ensures base + MemberTokens([]) == base
    ensures base + MemberTokens([Single(']')]) == base + [RngChar(']')]
  {
    assert [Single(']')][..0] == [];
  }

  lemma RangeEnds(was: seq<Token>, invert: bool, ms: seq<Member>)
    ensures ((was + [RngStart(invert)]) + MemberTokens(ms)) + [RngEnd] == was + RangeTokens(invert, ms)
  {
  }

  method ParseMembers(p: string, j: nat, stack: Stack<Token>, dfaSize: nat, ghost ms: seq<Member>, ghost base: seq<Token>)
    returns (ok: bool, dfaSize': nat, end: nat, ghost ms': seq<Member>)
    requires j <= |p| && stack.Valid() && stack.Contents() == base + MemberTokens(ms)
    modifies stack, stack.frags
    ensures stack.Valid() && stack.Extends(old(stack.frags))
    ensures ok == ReadMembers(p, j, ms).Some?
    ensures ok ==> ReadMembers(p, j, ms).value == (ms', end)
    ensures stack.Contents() == base + MemberTokens(ms')
    ensures dfaSize' == dfaSize + stack.count - old(stack.count)
  {
    hide MemberTokens, ReadRangeChar, Stack<Token>.Linked, Stack<Token>.Places, Stack<Token>.PointsAt, Stack<Token>.Valid, Stack<Token>.Contents;
    ok, dfaSize', end, ms' := false, dfaSize, j, ms;
    while true
      invariant !ok && j <= end <= |p| && stack.Valid() && stack.Extends(old(stack.frags))
      invariant ReadMembers(p, end, ms') == ReadMembers(p, j, ms)
      invariant stack.Contents() == base + MemberTokens(ms')
      invariant dfaSize' == dfaSize + stack.count - old(stack.count)
      decreases |p| - end
    {
      if end == |p| {
        return;
      }
      if p[end] == ']' {
        ok := true;
        return;
      }
      var left := ReadRangeChar(p, end);
      if left.None? {
        return;
      }
      end := left.value.1;
      if SpanFollows(p, end) {
        var right := ReadRangeChar(p, end + 1);
        if right.None? {
          return;
        }
        end := right.value.1;
        var l, r := left.value.0, right.value.0;
        if l > r {
          l, r := r, l;
        }
        stack.Push(RngLeft(l));
        stack.Push(RngRight(r));
        dfaSize' := dfaSize' + 2;
        MemberAdded(base, ms', Span(l, r));
        ms' := ms' + [Span(l, r)];
      } else {
        stack.Push(RngChar(left.value.0));
        dfaSize' := dfaSize' + 1;
        MemberAdded(base, ms', Single(left.value.0));
        ms' := ms' + [Single(left.value.0)];
      }
    }
  }

  lemma MemberAdded(base: seq<Token>, ms: seq<Member>, m: Member)
    ensures MemberTokens(ms + [m]) == MemberTokens(ms) + OneMember(m)
    ensures base + MemberTokens(ms + [m]) == (base + MemberTokens(ms)) + OneMember(m)
    ensures m.Span? ==> base + MemberTokens(ms + [m]) == ((base + MemberTokens(ms)) + [RngLeft(m.left)]) + [RngRight(m.right)]
  {
    assert (ms + [m])[..|ms|] == ms;
  }

  // ----- parse

  /** The parser's variables represent the reading `st`; the size counts the end cell in advance. */
  ghost predicate Parsed(st: Reading, stack: seq<Token>, dfaSize: int, depth: int, begin: bool) {
    && st.Ok()
    && begin == st.begin
    && depth == |st.frames| - 1
    && stack == FramesTokens(st.frames)
    && dfaSize == Weights(stack) + 1
  }

  /** Pushing the token of a simple item. */
  lemma PushedItem(st: Reading, x: Item, t: Token, stack: seq<Token>, dfaSize: int, depth: int, begin: bool)
    requires Parsed(st, stack, dfaSize, depth, begin)
    requires RenderItem(ElabItem(x)) == [t] && Weight(t) == 1 && WfItem(x)
    requires begin || Solid(x)
    ensures Parsed(AddItem(st, x), stack + [t], dfaSize + 1, depth, begin)
    ensures Solid(x) ==> Parsed(AddItem(st, x).(begin := false), stack + [t], dfaSize + 1, depth, false)
  {
    hide FramesTokens, Weights;
    AddItemOk(st, x);
    AddItemTokens(st, x);
    WeightSnoc(stack, t);
  }

  lemma PushedRange(st: Reading, invert: bool, ms: seq<Member>, stack: seq<Token>, dfaSize: int, depth: int, begin: bool)
    requires Parsed(st, stack, dfaSize, depth, begin)
    ensures Parsed(AddItem(st, Range(invert, ms)).(begin := false), stack + RangeTokens(invert, ms),
                   dfaSize + |RangeTokens(invert, ms)|, depth, false)
  {
    hide FramesTokens, Weights, RangeTokens;
    AddItemOk(st, Range(invert, ms));
    AddItemTokens(st, Range(invert, ms));
    WeightsAppend(stack, RangeTokens(invert, ms));
    RangeWeights(invert, ms);
  }

  /** Pushing a postfix operator. */
  lemma PushedPostfix(st: Reading, x: Item, t: Token, stack: seq<Token>, dfaSize: int, depth: int)
    requires Parsed(st, stack, dfaSize, depth, false)
    requires WfItem(x) && Solid(x)
    requires RenderItem(ElabItem(x)) == RenderItem(ElabItem(ItemBefore(st))) + [t]
    ensures Parsed(SetLast(st, x), stack + [t], dfaSize + Weight(t), depth, false)
  {
    hide FramesTokens, Weights, RenderItem, ElabItem, BaseTokens;
    SetLastOk(st, x);
    LastItemTokens(st, x);
    WeightSnoc(stack, t);
  }

  /** '{' : an id mark, bounds for the last item, or an ordinary character. */
  method ParseIterator(p: string, i: nat, stack: Stack<Token>, dfaSize: nat, ghost depth: int, begin: bool, ghost st: Reading)
    returns (i': nat, dfaSize': int, ghost st': Reading)
    requires i < |p| && p[i] == '{' && stack.Valid() && Parsed(st, stack.Contents(), dfaSize, depth, begin)
    modifies stack, stack.frags
    ensures stack.Valid() && stack.Extends(old(stack.frags))
    ensures RefStep(p, i, st) == Next(st', i')
    ensures Parsed(st', stack.Contents(), dfaSize', depth, begin)
  {
    hide FramesTokens, Weights, ReadIterator, BaseTokens, Stack<Token>.Linked, Stack<Token>.Places, Stack<Token>.PointsAt, Stack<Token>.Valid, Stack<Token>.Contents;
    var d := DecodeIterator(p, i);
    ghost var it, was := ReadIterator(p, i), stack.Contents();
    if d.AnId? {
      i', dfaSize' := d.end + 1, dfaSize + 1;
      stack.Push(Id(d.id));
      if begin {
        PushedItem(st, Lead(d.id), Id(d.id), was, dfaSize, depth, begin);
        st' := AddItem(st, Lead(d.id));
      } else {
        st' := SetLast(st, Mark(ItemBefore(st), d.id));
        PushedPostfix(st, Mark(ItemBefore(st), d.id), Id(d.id), was, dfaSize, depth);
      }
    } else if d.TwoValues? && !begin {
      ghost var x := ItemBefore(st);
      LastItemTokens(st, Repeat(x, it.min, it.max));
      ElabItemIsCore(x);
      dfaSize' := ApplyBounds(stack, dfaSize, d.val1, d.val2, BaseTokens(st), ElabItem(x), it.min, it.max);
      st' := SetLast(st, Repeat(x, it.min, it.max));
      SetLastOk(st, Repeat(x, it.min, it.max));
      i' := d.end + 1;
    } else {
      i', dfaSize' := i + 1, dfaSize + 1;
      stack.Push(Chr('{'));
      st' := AddItem(st, Lit('{'));
      PushedItem(st, Lit('{'), Chr('{'), was, dfaSize, depth, begin);
    }
  }

  /** ')' : closes the innermost group. */
  lemma Closed(st: Reading, stack: seq<Token>, dfaSize: int, depth: int, begin: bool)
    requires Parsed(st, stack, dfaSize, depth, begin) && depth > 0
    ensures Parsed(CloseGroup(st), stack + [CloseBr], dfaSize, depth - 1, false)
  {
    hide FramesTokens, Weights, FrameAlt;
    CloseGroupOk(st);
    CloseTokens(st);
    WeightSnoc(stack, CloseBr);
  }

  lemma Opened(st: Reading, stack: seq<Token>, dfaSize: int, depth: int, begin: bool)
    requires Parsed(st, stack, dfaSize, depth, begin)
    ensures Parsed(Reading(st.frames + [Frame([], Nil)], true), stack + [OpenBr], dfaSize, depth + 1, true)
  {
    hide FramesTokens, Weights;
    OpenTokens(st);
    WeightSnoc(stack, OpenBr);
  }

  lemma Selected(st: Reading, stack: seq<Token>, dfaSize: int, depth: int, begin: bool)
    requires Parsed(st, stack, dfaSize, depth, begin)
    ensures Parsed(st.SetTop(Frame(st.Top().done + [st.Top().cat], Nil)).(begin := true), stack + [Select], dfaSize + 2, depth, true)
  {
    hide FramesTokens, Weights;
    SetTopOk(st, Frame(st.Top().done + [st.Top().cat], Nil));
    SelectTokens(st);
    WeightSnoc(stack, Select);
  }

  /** One turn of the parser's loop. */
  method ParseElement(p: string, i: nat, stack: Stack<Token>, dfaSize: nat, depth: nat, begin: bool, ghost st: Reading)
    returns (ok: bool, i': nat, dfaSize': int, depth': nat, begin': bool, ghost st': Reading)
    requires i < |p| && stack.Valid() && Parsed(st, stack.Contents(), dfaSize, depth, begin)
    modifies stack, stack.frags
    ensures stack.Valid() && stack.Extends(old(stack.frags))
    ensures ok == RefStep(p, i, st).Next?
    ensures ok ==> RefStep(p, i, st) == Next(st', i') && Parsed(st', stack.Contents(), dfaSize', depth', begin')
  {
    hide FramesTokens, Weights, ReadIterator, ReadRange, RangeTokens, Reading.Ok, Stack<Token>.Linked, Stack<Token>.Places, Stack<Token>.PointsAt, Stack<Token>.Valid, Stack<Token>.Contents;
    ok, i', dfaSize', depth', begin', st' := true, i + 1, dfaSize, depth, begin, st;
    var c := p[i];
    ghost var was := stack.Contents();
    if c == '\\' {
      if i + 1 == |p| {
        ok := false;
        return;
      }
      PushedItem(st, Lit(p[i + 1]), Chr(p[i + 1]), was, dfaSize, depth, begin);
      stack.Push(Chr(p[i + 1]));
      i', dfaSize', begin' := i + 2, dfaSize + 1, false;
      st' := AddItem(st, Lit(p[i + 1])).(begin := false);
    } else if c == '.' {
      PushedRange(st, true, [], was, dfaSize, depth, begin);
      AnyTokens(was);
      stack.Push(RngStart(true));
      stack.Push(RngEnd);
      dfaSize', begin' := dfaSize + 2, false;
      st' := AddItem(st, Range(true, [])).(begin := false);
    } else if c == '(' {
      Opened(st, was, dfaSize, depth, begin);
      stack.Push(OpenBr);
      depth', begin' := depth + 1, true;
      st' := Reading(st.frames + [Frame([], Nil)], true);
    } else if c == ')' {
      if depth == 0 {
        ok := false;
        return;
      }
      Closed(st, was, dfaSize, depth, begin);
      stack.Push(CloseBr);
      depth', begin' := depth - 1, false;
      st' := CloseGroup(st);
    } else if c == '|' {
      Selected(st, was, dfaSize, depth, begin);
      stack.Push(Select);
      dfaSize', begin' := dfaSize + 2, true;
      st' := st.SetTop(Frame(st.Top().done + [st.Top().cat], Nil)).(begin := true);
    } else if c == '*' || c == '+' || c == '?' {
      ok, dfaSize', st' := ParsePostfix(c, stack, dfaSize, depth, begin, st);
    } else if c == '{' {
      i', dfaSize', st' := ParseIterator(p, i, stack, dfaSize, depth, begin, st);
    } else if c == '[' {
      ok, dfaSize', i' := ParseCharRange(p, i, stack, dfaSize);
      if !ok {
        return;
      }
      ghost var r := ReadRange(p, i);
      PushedRange(st, r.invert, r.members, was, dfaSize, depth, begin);
      i', begin' := i' + 1, false;
      st' := AddItem(st, Range(r.invert, r.members)).(begin := false);
    } else if !(c == '$' && i == |p| - 1) {
      PushedItem(st, Lit(c), Chr(c), was, dfaSize, depth, begin);
      stack.Push(Chr(c));
      dfaSize', begin' := dfaSize + 1, false;
      st' := AddItem(st, Lit(c)).(begin := false);
    }
  }

  lemma AnyTokens(s: seq<Token>)
    ensures RangeTokens(true, []) == [RngStart(true), RngEnd]
    ensures s + RangeTokens(true, []) == (s + [RngStart(true)]) + [RngEnd]
  {
  }

  method ParsePostfix(c: char, stack: Stack<Token>, dfaSize: nat, ghost depth: int, begin: bool, ghost st: Reading)
    returns (ok: bool, dfaSize': int, ghost st': Reading)
    requires c == '*' || c == '+' || c == '?'
    requires stack.Valid() && Parsed(st, stack.Contents(), dfaSize, depth, begin)
    modifies stack, stack.frags
    ensures stack.Valid() && stack.Extends(old(stack.frags))
    ensures ok == !begin
    ensures ok ==> st.Ok() && !st.begin && var x := ItemBefore(st);
                   st' == SetLast(st, if c == '*' then Star(x) else if c == '+' then Plus(x) else Opt(x)) &&
                   Parsed(st', stack.Contents(), dfaSize', depth, begin)
  {
    hide FramesTokens, Weights, Stack<Token>.Linked, Stack<Token>.Places, Stack<Token>.PointsAt, Stack<Token>.Valid, Stack<Token>.Contents;
    ok, dfaSize', st' := !begin, dfaSize, st;
    if ok {
      ghost var x := ItemBefore(st);
      ghost var y := if c == '*' then Star(x) else if c == '+' then Plus(x) else Opt(x);
      var t := if c == '*' then Asterisk else if c == '+' then PlusSign else QuestionMark;
      PushedPostfix(st, y, t, stack.Contents(), dfaSize, depth);
      stack.Push(t);
      dfaSize' := dfaSize + if c == '*' then 2 else 1;
      st' := SetLast(st, y);
    }
  }

  /**
   Accepts the patterns the reference accepts, leaves the tokens of the expanded
   tree on the stack and counts exactly the cells of their code.
   */
  method Parse(p: string) returns (ok: bool, stack: Stack<Token>, dfaSize: int)
    ensures fresh(stack) && stack.Valid() && forall j {:trigger stack.frags[j]} :: 0 <= j < |stack.frags| ==> fresh(stack.frags[j])
    ensures ok == RefParse(p).Some?
    ensures ok ==> stack.Contents() == PatternTokens(ElabAlt(RefParse(p).value)) && dfaSize == Weights(stack.Contents())
  {
    hide RefStep, Weights, Stack<Token>.Linked, Stack<Token>.Places, Stack<Token>.PointsAt, Stack<Token>.Valid, Stack<Token>.Contents;
    stack := new Stack<Token>();
    stack.Push(Begin);
    assert [] + [Begin] == [Begin];
    dfaSize := 2;
    var i := BodyStart(p);
    var depth, begin := 0, true;
    ghost var st := START;
    StartParsed();
    ok := true;
    while i < |p|
      invariant ok && i <= |p| && fresh(stack) && stack.Valid()
      invariant forall j {:trigger stack.frags[j]} :: 0 <= j < |stack.frags| ==> fresh(stack.frags[j])
      invariant Parsed(st, stack.Contents(), dfaSize, depth, begin)
      invariant RefRun(p, i, st) == RefParse(p)
      decreases |p| - i
    {
      StepOk(p, i, st);
      ok, i, dfaSize, depth, begin, st := ParseElement(p, i, stack, dfaSize, depth, begin, st);
      if !ok {
        return;
      }
    }
    if depth != 0 {
      ok := false;
      return;
    }
    Finished(st, stack.Contents(), dfaSize, begin);
    stack.Push(End);
  }

  lemma StartParsed()
    ensures Parsed(START, [Begin], 2, 0, true)
  {
    WeightOne(Begin);
    assert FrameTokens(Frame([], Nil)) == [];
    assert [Begin] + [] == [Begin];
  }

  lemma Finished(st: Reading, stack: seq<Token>, dfaSize: int, begin: bool)
    requires Parsed(st, stack, dfaSize, 0, begin)
    ensures stack + [End] == PatternTokens(ElabAlt(FrameAlt(st.Top())))
    ensures dfaSize == Weights(stack + [End])
  {
    hide FrameTokens, Weights, FrameAlt;
    FrameAltTokens(st.Top());
    WeightSnoc(stack, End);
  }

  /**
   From a pattern to its program: fails on the patterns the reference rejects;
   otherwise the array holds exactly as many cells as were counted and accepts
   exactly the texts that the pattern, iterators included, matches.
   */
  method Compile(p: string) returns (ok: bool, tr: array<Tr>)
    ensures ok == RefParse(p).Some?
    ensures ok ==> forall text: string :: Accepts(tr[..], text) <==> MatchAlt(RefParse(p).value, text, 0, |text|)
  {
    hide RefParse, Weights, MatchAlt, Accepts, EmitProgram, PatternTokens, ElabAlt;
    var stack, dfaSize;
    ok, stack, dfaSize := Parse(p);
    tr := new Tr[0];
    if !ok {
      return;
    }
    ghost var x := RefParse(p).value;
    RefParseWf(p);
    ElabAltIsCore(x);
    tr := GenerateTransitions(stack, dfaSize, ElabAlt(x));
    ProgramSize(ElabAlt(x));
    forall text: string ensures Accepts(tr[..], text) <==> MatchAlt(x, text, 0, |text|) {
      ProgramAccepts(ElabAlt(x), dfaSize, text);
      ElabAltMatches(x, text, 0, |text|);
    }
  }

  /** The text of a tree compiles, to a program for exactly that tree. */
  method CompileShown(x: Alt) returns (tr: array<Tr>)
    requires RegexNotation.WritableAlt(x)
    ensures forall text: string :: Accepts(tr[..], text) <==> MatchAlt(x, text, 0, |text|)
  {
    hide RefParse, MatchAlt, Accepts, RegexNotation.ShowAlt, RegexNotation.WritableAlt;
    RegexNotation.ShowParse(x);
    var ok;
    ok, tr := Compile(RegexNotation.ShowAlt(x));
  }

  lemma RefParseWf(p: string)
    ensures RefParse(p).Some? ==> WfAlt(RefParse(p).value)
  {
    RefRunWf(p, BodyStart(p), START);
  }
}
