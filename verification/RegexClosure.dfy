/**
 What a trace finds, in terms of the paths of the program: the cells that are
 reached without consuming a character, and the ids on the way.
 */
module RegexClosure {
  import opened RegexSyntax
  import opened RegexGenerator
  import opened RegexNfa
  import T = RegexTrace

  /** A cell between the start and the end of a range. */
  predicate Interior(c: Tr) { c.Tok? && (c.t.RngChar? || c.t.RngLeft? || c.t.RngRight?) }

  /** A cell that control can stand on. */
  predicate Active(c: Tr) { c.Tok? ==> c.t.Id? || c.t.Chr? || c.t.RngStart? || c.t.RngEnd? || c.t.End? }

  predicate Outside(prog: seq<Tr>, n: nat) { 0 < n < |prog| && Active(prog[n]) }

  /** From a cell outside of ranges control stays outside of them, unless a range starts there. */
  predicate Leads(prog: seq<Tr>, n: nat) {
    n < |prog| && (Active(prog[n]) || prog[n].t.Begin?) && !(prog[n].Tok? && (prog[n].t.RngStart? || prog[n].t.End?)) ==>
      (prog[n].Jump? || Outside(prog, n + 1)) && (prog[n].Tok? || Outside(prog, prog[n].to))
  }

  ghost predicate Tidy(prog: seq<Tr>) { forall n: nat :: Leads(prog, n) }

  // ----- walks and paths

  /** The position in the text never decreases. */
  lemma {:induction false} PathForward(prog: seq<Tr>, text: string, p: nat, a: nat, q: nat, b: nat, n: nat)
    requires Path(prog, text, p, a, q, b, n)
    ensures a <= b
    decreases n
  {
    if n > 0 {
      match prog[p]
      case Branch(to) =>
        if Path(prog, text, p + 1, a, q, b, n - 1) { PathForward(prog, text, p + 1, a, q, b, n - 1); }
        else { PathForward(prog, text, to, a, q, b, n - 1); }
      case Jump(to) => PathForward(prog, text, to, a, q, b, n - 1);
      case Tok(t) =>
        match t
        case Begin => PathForward(prog, text, p + 1, a, q, b, n - 1);
        case Id(_) => PathForward(prog, text, p + 1, a, q, b, n - 1);
        case Chr(_) => PathForward(prog, text, p + 1, a + 1, q, b, n - 1);
        case RngStart(_) => PathForward(prog, text, RangeEnd(prog, p + 1) + 1, a + 1, q, b, n - 1);
        case _ =>
    }
  }

  /** The steps of a walk are the steps of a path that consume nothing. */
  lemma StepIsPath(prog: seq<Tr>, text: string, m: nat, n: nat, a: nat)
    requires Outside(prog, m)
    ensures n in T.Successors(prog, m) <==> Path(prog, text, m, a, n, a, 1)
  {
    if Path(prog, text, m, a, n, a, 1) {
      var p := FirstStep(prog, text, m, n, a, 0);
    }
    NoPath(prog, text, n, a);
  }

  /** The first step of a path that consumes nothing. */
  lemma FirstStep(prog: seq<Tr>, text: string, p: nat, n: nat, a: nat, k: nat) returns (m: nat)
    requires Outside(prog, p) && Path(prog, text, p, a, n, a, k + 1)
    ensures m in T.Successors(prog, p) && Path(prog, text, m, a, n, a, k)
  {
    match prog[p]
    case Branch(to) => m := if Path(prog, text, p + 1, a, n, a, k) then p + 1 else to;
    case Jump(to) => m := to;
    case Tok(t) =>
      if t.Chr? {
        PathForward(prog, text, p + 1, a + 1, n, a, k);
      } else if t.RngStart? {
        PathForward(prog, text, RangeEnd(prog, p + 1) + 1, a + 1, n, a, k);
      }
      m := p + 1;
  }

  lemma StaysOutside(prog: seq<Tr>, m: nat, n: nat)
    requires Tidy(prog) && Outside(prog, m) && n in T.Successors(prog, m)
    ensures Outside(prog, n)
  {
    assert Leads(prog, m);
  }

  /** Every walk is a path, and its value is the id of a cell on the way. */
  lemma {:induction false} WalkIsPath(prog: seq<Tr>, text: string, s: nat, n: nat, w: nat, k: nat, a: nat)
    requires Tidy(prog) && Outside(prog, s) && T.Walk(prog, s, n, w, k)
    ensures Outside(prog, n) && Path(prog, text, s, a, n, a, k)
    ensures w == 0 || OnTheWay(prog, text, s, n, a, w)
    ensures T.IdOf(prog[n]) <= w
    decreases k
  {
    hide Path, Outside;
    InRangeOf(prog, s, s);
    if k == 0 {
      NoPath(prog, text, s, a);
      if w != 0 { assert Between(prog, text, s, s, n, a, 0, 0) && prog[s] == Tok(Id(w)); }
    } else {
      var m: nat, v: nat :| T.WalkStep(prog, m, v, n, w) && T.Walk(prog, s, m, v, k - 1);
      WalkIsPath(prog, text, s, m, v, k - 1, a);
      StaysOutside(prog, m, n);
      StepIsPath(prog, text, m, n, a);
      PathJoin(prog, text, s, a, m, a, n, a, k - 1, 1);
      NoPath(prog, text, n, a);
      if w != 0 {
        if w == v {
          WayOn(prog, text, s, m, n, a, w);
        } else {
          assert Between(prog, text, s, n, n, a, k, 0);
        }
      }
    }
  }

  lemma NoPath(prog: seq<Tr>, text: string, s: nat, a: nat)
    ensures Path(prog, text, s, a, s, a, 0)
  {
  }

  /** `m` lies on a path from `s` to `n` that consumes nothing. */
  ghost predicate Between(prog: seq<Tr>, text: string, s: nat, m: nat, n: nat, a: nat, i: nat, j: nat) {
    Path(prog, text, s, a, m, a, i) && Path(prog, text, m, a, n, a, j)
  }

  /** An id cell with value `w` lies on such a path. */
  ghost predicate OnTheWay(prog: seq<Tr>, text: string, s: nat, n: nat, a: nat, w: nat) {
    exists m: nat, i: nat, j: nat :: Between(prog, text, s, m, n, a, i, j) && m < |prog| && prog[m] == Tok(Id(w))
  }

  lemma WayOn(prog: seq<Tr>, text: string, s: nat, m: nat, n: nat, a: nat, w: nat)
    requires OnTheWay(prog, text, s, m, a, w) && Path(prog, text, m, a, n, a, 1)
    ensures OnTheWay(prog, text, s, n, a, w)
  {
    hide Path;
    var c: nat, i: nat, j: nat :| Between(prog, text, s, c, m, a, i, j) && c < |prog| && prog[c] == Tok(Id(w));
    PathJoin(prog, text, c, a, m, a, n, a, j, 1);
    assert Between(prog, text, s, c, n, a, i, j + 1);
  }

  /** Every path that consumes nothing continues a walk, with a value that is no smaller. */
  lemma {:induction false} PathIsWalk(prog: seq<Tr>, text: string, s: nat, p: nat, v: nat, n: nat, a: nat, k: nat) returns (w: nat)
    requires Tidy(prog) && Outside(prog, p) && s < |prog| && T.Attained(prog, s, p, v) && Path(prog, text, p, a, n, a, k)
    ensures v <= w && T.Attained(prog, s, n, w)
    decreases k
  {
    hide T.Attained, Outside;
    if k == 0 {
      w := v;
    } else {
      var m := FirstStep(prog, text, p, n, a, k - 1);
      StaysOutside(prog, p, m);
      InRangeOf(prog, p, m);
      var u := T.Max(v, T.IdOf(prog[m]));
      T.AttainedStep(prog, s, p, v, m, u);
      w := PathIsWalk(prog, text, s, m, u, n, a, k - 1);
    }
  }

  lemma InRangeOf(prog: seq<Tr>, p: nat, m: nat)
    requires Outside(prog, p) && Outside(prog, m)
    ensures p < |prog| && m < |prog|
  {
  }

  lemma StartAttained(prog: seq<Tr>, s: nat)
    requires s < |prog|
    ensures T.Attained(prog, s, s, T.IdOf(prog[s]))
  {
    assert T.Walk(prog, s, s, T.IdOf(prog[s]), 0);
  }

  /** Walks reach exactly what is reached without consuming a character. */
  lemma AttainedIffPath(prog: seq<Tr>, text: string, s: nat, n: nat, a: nat)
    requires Tidy(prog) && Outside(prog, s)
    ensures (exists w: nat :: T.Attained(prog, s, n, w)) <==> Reaches(prog, text, s, a, n, a)
  {
    hide Path;
    InRangeOf(prog, s, s);
    if exists w: nat :: T.Attained(prog, s, n, w) {
      var w: nat :| T.Attained(prog, s, n, w);
      var k: nat :| T.Walk(prog, s, n, w, k);
      WalkIsPath(prog, text, s, n, w, k, a);
    }
    if Reaches(prog, text, s, a, n, a) {
      var k: nat :| Path(prog, text, s, a, n, a, k);
      StartAttained(prog, s);
      var w := PathIsWalk(prog, text, s, s, T.IdOf(prog[s]), n, a, k);
    }
  }

  /** Inside of a range the two part ways, so a trace is not started there. */
  lemma InteriorDiffers(prog: seq<Tr>, text: string, s: nat, a: nat)
    requires s + 1 < |prog| && Interior(prog[s])
    ensures var n := s + 1; (exists w: nat :: T.Attained(prog, s, n, w)) && !Reaches(prog, text, s, a, n, a)
  {
    StartAttained(prog, s);
    var v := T.IdOf(prog[s]);
    T.AttainedStep(prog, s, s, v, s + 1, T.Max(v, T.IdOf(prog[s + 1])));
  }

  /** No id on the way exceeds what some walk has met. */
  lemma WayAttained(prog: seq<Tr>, text: string, s: nat, n: nat, a: nat, v: nat) returns (w: nat)
    requires Tidy(prog) && Outside(prog, s) && OnTheWay(prog, text, s, n, a, v)
    ensures s < |prog| && v <= w && T.Attained(prog, s, n, w)
  {
    hide Path, T.Attained;
    InRangeOf(prog, s, s);
    var m: nat, i: nat, j: nat :| Between(prog, text, s, m, n, a, i, j) && m < |prog| && prog[m] == Tok(Id(v));
    StartAttained(prog, s);
    var u := PathIsWalk(prog, text, s, s, T.IdOf(prog[s]), m, a, i);
    MetThere(prog, text, s, m, u, a);
    w := PathIsWalk(prog, text, s, m, u, n, a, j);
  }

  lemma MetThere(prog: seq<Tr>, text: string, s: nat, m: nat, u: nat, a: nat)
    requires Tidy(prog) && Outside(prog, s) && T.Attained(prog, s, m, u)
    ensures Outside(prog, m) && T.IdOf(prog[m]) <= u
  {
    var k: nat :| T.Walk(prog, s, m, u, k);
    WalkIsPath(prog, text, s, m, u, k, a);
  }

  // ----- what a trace has found

  /**
   The cells with a value are those reached from `s` without consuming a
   character, at any place of any text; the value is the largest id on any way
   there, and 0 if there is none.
   */
  ghost predicate Found(prog: seq<Tr>, text: string, s: nat, a: nat, val: seq<int>, n: nat)
    requires n < |val|
  {
    && (val[n] >= 0 <==> Reaches(prog, text, s, a, n, a))
    && (forall v: nat :: OnTheWay(prog, text, s, n, a, v) ==> v <= val[n])
    && (val[n] > 0 ==> OnTheWay(prog, text, s, n, a, val[n]))
  }

  lemma TracedFinds(prog: seq<Tr>, text: string, s: nat, a: nat, val: seq<int>, pushed: seq<nat>, n: nat)
    requires Tidy(prog) && Outside(prog, s) && T.Traced(prog, s, val, pushed) && n < |prog|
    ensures Found(prog, text, s, a, val, n)
    ensures n in pushed <==> Reaches(prog, text, s, a, n, a)
  {
    hide Path, T.Attained, OnTheWay;
    AttainedIffPath(prog, text, s, n, a);
    if exists w: nat :: T.Attained(prog, s, n, w) {
      var w: nat :| T.Attained(prog, s, n, w);
      assert w <= val[n];
    }
    if val[n] >= 0 { ValueMet(prog, text, s, n, val[n], a); }
    forall v: nat | OnTheWay(prog, text, s, n, a, v) ensures v <= val[n] {
      var w := WayAttained(prog, text, s, n, a, v);
    }
  }

  lemma ValueMet(prog: seq<Tr>, text: string, s: nat, n: nat, w: nat, a: nat)
    requires Tidy(prog) && Outside(prog, s) && T.Attained(prog, s, n, w)
    ensures w > 0 ==> OnTheWay(prog, text, s, n, a, w)
  {
    var k: nat :| T.Walk(prog, s, n, w, k);
    WalkIsPath(prog, text, s, n, w, k, a);
  }

  // ----- generated programs are tidy

  /** The cells from `from` up to `q` lead outside. */
  ghost predicate Block(prog: seq<Tr>, from: nat, q: nat) { forall n: nat :: from <= n < q ==> Leads(prog, n) }

  /** Code that ends before a cell outside of ranges starts with one, and leads outside. */
  lemma {:induction false} ItemTidy(prog: seq<Tr>, x: Item, q: nat)
    requires CoreItem(x) && ItemAt(prog, x, q) && Outside(prog, q) && q - |EmitItem(x, q)| > 0
    ensures Block(prog, q - |EmitItem(x, q)|, q) && Outside(prog, q - |EmitItem(x, q)|)
    decreases x
  {
    hide At, EmitItem, Leads, Outside;
    ItemLength(x, q);
    match x
    case Lit(c) => OneCell(prog, x, q);
    case Lead(_) => OneCell(prog, x, q);
    case Range(invert, ms) => RangeTidy(prog, x, q);
    case Group(y) =>
      GroupParts(prog, y, q);
      AltTidy(prog, y, q);
    case Opt(i) =>
      ItemParts(prog, x, q);
      ItemTidy(prog, i, q);
      BranchTidy(prog, q - |EmitItem(i, q)| - 1, q);
    case Mark(i, id) =>
      ItemParts(prog, x, q);
      CellTidy(prog, q - 1, q);
      ItemTidy(prog, i, q - 1);
    case Plus(i) => LoopTidy(prog, x, q);
    case Star(i) => LoopTidy(prog, x, q);
    case Repeat(_, _, _) =>
  }

  lemma OneCell(prog: seq<Tr>, x: Item, q: nat)
    requires (x.Lit? || x.Lead?) && ItemAt(prog, x, q) && Outside(prog, q) && q - |EmitItem(x, q)| > 0
    ensures Block(prog, q - |EmitItem(x, q)|, q) && Outside(prog, q - |EmitItem(x, q)|)
  {
    AtCell(prog, q - 1, EmitItem(x, q), 0);
  }

  lemma CellTidy(prog: seq<Tr>, n: nat, q: nat)
    requires n + 1 == q && Outside(prog, q) && n > 0 && prog[n].Tok? && prog[n].t.Id?
    ensures Leads(prog, n) && Outside(prog, n)
  {
  }

  lemma BranchTidy(prog: seq<Tr>, n: nat, to: nat)
    requires 0 < n < |prog| && prog[n] == Branch(to) && Outside(prog, to) && Outside(prog, n + 1)
    ensures Leads(prog, n) && Outside(prog, n)
  {
  }

  lemma {:induction false} LoopTidy(prog: seq<Tr>, x: Item, q: nat)
    requires (x.Plus? || x.Star?) && CoreItem(x) && ItemAt(prog, x, q) && Outside(prog, q) && q - |EmitItem(x, q)| > 0
    ensures Block(prog, q - |EmitItem(x, q)|, q) && Outside(prog, q - |EmitItem(x, q)|)
    decreases x, 0
  {
    hide At, EmitItem, Leads, Outside;
    ItemLength(x, q);
    ItemParts(prog, x, q);
    var s := q - 1 - |EmitItem(x.i, q - 1)|;
    BranchOutside(prog, q - 1, s);
    ItemTidy(prog, x.i, q - 1);
    BranchTidy(prog, q - 1, s);
    if x.Star? { BranchTidy(prog, s - 1, q); }
  }

  lemma BranchOutside(prog: seq<Tr>, n: nat, to: nat)
    requires 0 < n < |prog| && prog[n] == Branch(to)
    ensures Outside(prog, n)
  {
  }

  lemma RangeTidy(prog: seq<Tr>, x: Item, q: nat)
    requires x.Range? && ItemAt(prog, x, q) && Outside(prog, q) && q - |EmitItem(x, q)| > 0
    ensures Block(prog, q - |EmitItem(x, q)|, q) && Outside(prog, q - |EmitItem(x, q)|)
  {
    hide At, MemberTokens;
    var e := EmitItem(x, q);
    var p := q - |e|;
    AtCell(prog, p, e, 0);
    forall n: nat | p <= n < q ensures Leads(prog, n) {
      AtCell(prog, p, e, n - p);
      if p < n < q - 1 { MemberCells(x.members, n - p - 1); }
    }
  }

  lemma {:induction false} MemberCells(ms: seq<Member>, k: nat)
    requires k < |MemberTokens(ms)|
    ensures Interior(Tok(MemberTokens(ms)[k]))
    decreases |ms|
  {
    var front := MemberTokens(ms[..|ms| - 1]);
    if k < |front| { MemberCells(ms[..|ms| - 1], k); }
  }

  lemma {:induction false} CatTidy(prog: seq<Tr>, x: Cat, q: nat)
    requires CoreCat(x) && CatAt(prog, x, q) && Outside(prog, q) && q - |EmitCat(x, q)| > 0
    ensures Block(prog, q - |EmitCat(x, q)|, q) && Outside(prog, q - |EmitCat(x, q)|)
    decreases x
  {
    hide At, EmitItem, Leads, Outside;
    if x.Snoc? {
      CatParts(prog, x, q);
      var e := EmitItem(x.last, q);
      ItemTidy(prog, x.last, q);
      CatTidy(prog, x.front, q - |e|);
    }
  }

  lemma {:induction false} AltTidy(prog: seq<Tr>, x: Alt, q: nat)
    requires CoreAlt(x) && AltAt(prog, x, q) && Outside(prog, q) && q - |EmitAlt(x, q)| > 0
    ensures Block(prog, q - |EmitAlt(x, q)|, q) && Outside(prog, q - |EmitAlt(x, q)|) && Outside(prog, ExitOf(x, q))
    decreases x
  {
    hide At, EmitCat, EmitAlt, Leads, Outside;
    if x.One? {
      OneAlt(prog, x, q);
      CatTidy(prog, x.c, q);
    } else {
      var j := AltParts(prog, x, q);
      AltTidy(prog, x.rest, q);
      JumpTidy(prog, j, ExitOf(x.rest, q));
      CatTidy(prog, x.c, j);
      BranchTidy(prog, q - |EmitAlt(x, q)|, j + 1);
    }
  }

  lemma OneAlt(prog: seq<Tr>, x: Alt, q: nat)
    requires x.One? && AltAt(prog, x, q)
    ensures CatAt(prog, x.c, q) && EmitAlt(x, q) == EmitCat(x.c, q) && ExitOf(x, q) == q
  {
  }

  lemma JumpTidy(prog: seq<Tr>, n: nat, to: nat)
    requires 0 < n < |prog| && prog[n] == Jump(to) && Outside(prog, to)
    ensures Leads(prog, n) && Outside(prog, n)
  {
  }

  lemma ProgramTidy(x: Alt, size: nat)
    requires CoreAlt(x) && size >= 2 && |EmitProgram(x, size)| == size
    ensures Tidy(EmitProgram(x, size))
  {
    hide At, EmitAlt, Block;
    var prog := EmitProgram(x, size);
    ProgramParts(x, size);
    var q := size - 1;
    assert prog[q] == Tok(End) && prog[0] == Tok(Begin);
    AltTidy(prog, x, q);
    forall n: nat ensures Leads(prog, n) {
      if 0 < n < q { BlockCell(prog, 1, q, n); }
    }
  }

  lemma BlockCell(prog: seq<Tr>, from: nat, q: nat, n: nat)
    requires Block(prog, from, q) && from <= n < q
    ensures Leads(prog, n)
  {
  }

  /**
   Tracing a generated program behind its start, a character or the end of a
   range marks exactly the cells reached from there without consuming a
   character, wherever the matcher stands, with the largest id on any way; each
   of them is pushed once.
   */
  method TraceProgram(x: Alt, prog: seq<Tr>, from: nat, val: array<int>) returns (pushed: seq<nat>)
    requires CoreAlt(x) && |prog| >= 2 && prog == EmitProgram(x, |prog|)
    requires from + 1 < |prog| && val.Length == |prog| && forall n :: 0 <= n < val.Length ==> val[n] == -1
    requires prog[from].Tok? && (prog[from].t.Begin? || prog[from].t.Chr? || prog[from].t.RngEnd?)
    modifies val
    ensures var s := from + 1; forall text: string, a: nat, n: nat :: n < |prog| ==> Found(prog, text, s, a, val[..], n)
    ensures forall i, j :: 0 <= i < j < |pushed| ==> pushed[i] != pushed[j]
    ensures var s := from + 1; forall text: string, a: nat, n: nat :: n < |prog| ==> (n in pushed <==> Reaches(prog, text, s, a, n, a))
  {
    hide EmitProgram, CoreAlt, T.Closed, T.Attained, Path, OnTheWay;
    T.ProgramClosed(x, |prog|);
    ProgramTidy(x, |prog|);
    assert Leads(prog, from);
    pushed := T.TraceTransitions(prog, from, val);
    ghost var s := from + 1;
    forall text: string, a: nat, n: nat | n < |prog|
      ensures Found(prog, text, s, a, val[..], n)
      ensures n in pushed <==> Reaches(prog, text, s, a, n, a)
    {
      TracedFinds(prog, text, s, a, val[..], pushed, n);
    }
  }
}
