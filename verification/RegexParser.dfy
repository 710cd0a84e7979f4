/**
 The pattern parser: it pushes tokens on a stack, expands {n,m} iterators by
 copying stack items, and counts the size of the transition array on the way.

 `RefParse` reads a pattern as a syntax tree and is the reference: the parser
 accepts the same patterns, leaves the tokens of the expanded tree and counts
 exactly their weight.
 */
module RegexParser {
  import opened Options
  import opened RegexSyntax

  // ----- numbers, iterators and ranges in the pattern text

  predicate IsDigit(c: char) { '0' <= c <= '9' }

  datatype Number = Number(value: nat, end: nat)

  function ReadNumber(p: string, i: nat, acc: nat): (n: Number)
    requires i <= |p|
    ensures i <= n.end <= |p|
    decreases |p| - i
  {
    if i < |p| && IsDigit(p[i]) then ReadNumber(p, i + 1, acc * 10 + (p[i] as int - '0' as int)) else Number(acc, i)
  }

  /** What stands at a '{'; `end` is the index of the closing brace. */
  datatype Iterator = NotIterator | IdMark(id: nat, end: nat) | Bounds(min: nat, max: Option<nat>, end: nat)

  function ReadUpper(p: string, j: nat, min: nat): (r: Iterator)
    requires j <= |p|
    ensures r.Bounds? ==> j <= r.end < |p| && r.min == min && (r.max.Some? ==> min <= r.max.value)
    ensures !r.IdMark?
  {
    if j == |p| then NotIterator
    else if p[j] == '}' then Bounds(min, None, j)
    else if !IsDigit(p[j]) then NotIterator
    else
      var n := ReadNumber(p, j, 0);
      if n.end == |p| || p[n.end] != '}' || n.value < min then NotIterator else Bounds(min, Some(n.value), n.end)
  }

  function ReadIterator(p: string, i: nat): (r: Iterator)
    requires i < |p|
    ensures !r.NotIterator? ==> i < r.end < |p|
    ensures r.Bounds? && r.max.Some? ==> r.min <= r.max.value
  {
    var j := i + 1;
    if j == |p| then NotIterator
    else if p[j] == ',' then ReadUpper(p, j + 1, 0)
    else if !IsDigit(p[j]) then NotIterator
    else
      var n := ReadNumber(p, j, 0);
      if n.end == |p| then NotIterator
      else if p[n.end] == '}' then Bounds(n.value, Some(n.value), n.end)
      else if p[n.end] == '!' && n.end + 1 < |p| && p[n.end + 1] == '}' then IdMark(n.value, n.end + 1)
      else if p[n.end] != ',' then NotIterator
      else ReadUpper(p, n.end + 1, n.value)
  }

  /** One possibly escaped character of a range: the character and the index behind it. */
  function ReadRangeChar(p: string, j: nat): (r: Option<(char, nat)>)
    requires j < |p|
    ensures r.Some? ==> j < r.value.1 <= |p|
  {
    if p[j] != '\\' then Some((p[j], j + 1))
    else if j + 1 == |p| then None
    else Some((p[j + 1], j + 2))
  }

  predicate SpanFollows(p: string, j: nat) {
    j + 3 <= |p| && p[j] == '-' && p[j + 1] != ']'
  }

  function MakeSpan(l: char, r: char): Member { if l > r then Span(r, l) else Span(l, r) }

  /** The members from `j` up to the closing bracket, and its index. */
  function ReadMembers(p: string, j: nat, ms: seq<Member>): (r: Option<(seq<Member>, nat)>)
    requires j <= |p|
    ensures r.Some? ==> j <= r.value.1 < |p|
    decreases |p| - j
  {
    if j == |p| then None
    else if p[j] == ']' then Some((ms, j))
    else
      var left := ReadRangeChar(p, j);
      if left.None? then None
      else if !SpanFollows(p, left.value.1) then ReadMembers(p, left.value.1, ms + [Single(left.value.0)])
      else
        var right := ReadRangeChar(p, left.value.1 + 1);
        if right.None? then None
        else ReadMembers(p, right.value.1, ms + [MakeSpan(left.value.0, right.value.0)])
  }

  datatype RangeText = NoRange | RangeText(invert: bool, members: seq<Member>, end: nat)

  function ReadRange(p: string, i: nat): (r: RangeText)
    requires i < |p|
    ensures r.RangeText? ==> i < r.end < |p|
  {
    var j := i + 1;
    if j == |p| then NoRange
    else
      var invert := p[j] == '^';
      var k := if invert then j + 1 else j;
      if k == |p| then NoRange
      else
        var r := if p[k] == ']' then ReadMembers(p, k + 1, [Single(']')]) else ReadMembers(p, k, []);
        if r.None? then NoRange else RangeText(invert, r.value.0, r.value.1)
  }

  // ----- the reference: patterns as syntax trees

  /** An open group: its finished alternatives and the one being read. */
  datatype Frame = Frame(done: seq<Cat>, cat: Cat)

  /** `begin` says that no item has been read yet that an operator could follow. */
  datatype Reading = Reading(frames: seq<Frame>, begin: bool) {
    predicate Ok() {
      && frames != []
      && (forall k :: 0 <= k < |frames| ==> WfFrame(frames[k]))
      && (!begin ==> Top().cat.Snoc? && Solid(Top().cat.last))
    }
    function Top(): Frame requires frames != [] { frames[|frames| - 1] }
    function SetTop(f: Frame): Reading requires frames != [] { this.(frames := frames[..|frames| - 1] + [f]) }
  }

  predicate WfFrame(f: Frame) {
    (forall k :: 0 <= k < |f.done| ==> WfCat(f.done[k])) && WfCat(f.cat)
  }

  function ToAlt(done: seq<Cat>, last: Cat): Alt {
    if done == [] then One(last) else Or(done[0], ToAlt(done[1..], last))
  }

  function FrameAlt(f: Frame): Alt { ToAlt(f.done, f.cat) }

  function AddItem(st: Reading, x: Item): Reading
    requires st.frames != []
  {
    st.SetTop(st.Top().(cat := Snoc(st.Top().cat, x)))
  }

  function ItemBefore(st: Reading): Item
    requires st.frames != [] && st.Top().cat.Snoc?
  {
    st.Top().cat.last
  }

  /** Replaces the last item read. */
  function SetLast(st: Reading, x: Item): Reading
    requires st.frames != [] && st.Top().cat.Snoc?
  {
    st.SetTop(st.Top().(cat := Snoc(st.Top().cat.front, x)))
  }

  function CloseGroup(st: Reading): Reading
    requires |st.frames| > 1
  {
    AddItem(Reading(st.frames[..|st.frames| - 1], false), Group(FrameAlt(st.Top())))
  }

  datatype Next = Invalid | Next(st: Reading, i: nat)

  /** Reads the pattern element at `i`. */
  function RefStep(p: string, i: nat, st: Reading): (n: Next)
    requires i < |p| && st.Ok()
    ensures n.Next? ==> i < n.i <= |p| && n.st.frames != []
  {
    var c := p[i];
    if c == '\\' then
      if i + 1 == |p| then Invalid else Next(AddItem(st, Lit(p[i + 1])).(begin := false), i + 2)
    else if c == '.' then Next(AddItem(st, Range(true, [])).(begin := false), i + 1)
    else if c == '(' then Next(Reading(st.frames + [Frame([], Nil)], true), i + 1)
    else if c == ')' then if |st.frames| == 1 then Invalid else Next(CloseGroup(st), i + 1)
    else if c == '|' then Next(st.SetTop(Frame(st.Top().done + [st.Top().cat], Nil)).(begin := true), i + 1)
    else if c == '*' then if st.begin then Invalid else Next(SetLast(st, Star(ItemBefore(st))), i + 1)
    else if c == '+' then if st.begin then Invalid else Next(SetLast(st, Plus(ItemBefore(st))), i + 1)
    else if c == '?' then if st.begin then Invalid else Next(SetLast(st, Opt(ItemBefore(st))), i + 1)
    else if c == '{' then
      match ReadIterator(p, i)
      case IdMark(id, end) =>
        Next(if st.begin then AddItem(st, Lead(id)) else SetLast(st, Mark(ItemBefore(st), id)), end + 1)
      case Bounds(min, max, end) =>
        if st.begin then Next(AddItem(st, Lit('{')), i + 1)
        else Next(SetLast(st, Repeat(ItemBefore(st), min, max)), end + 1)
      case NotIterator => Next(AddItem(st, Lit('{')), i + 1)
    else if c == '[' then
      var r := ReadRange(p, i);
      if r.NoRange? then Invalid else Next(AddItem(st, Range(r.invert, r.members)).(begin := false), r.end + 1)
    else if c == '$' && i == |p| - 1 then Next(st, i + 1)
    else Next(AddItem(st, Lit(c)).(begin := false), i + 1)
  }

  lemma SetTopOk(st: Reading, f: Frame)
    requires st.Ok() && WfFrame(f)
    ensures var r := st.SetTop(f);
            r.frames != [] && r.Top() == f && forall k :: 0 <= k < |r.frames| ==> WfFrame(r.frames[k])
  {
  }

  lemma AddItemOk(st: Reading, x: Item)
    requires st.Ok() && WfItem(x)
    ensures st.begin || Solid(x) ==> AddItem(st, x).Ok()
    ensures Solid(x) ==> AddItem(st, x).(begin := false).Ok()
  {
    SetTopOk(st, st.Top().(cat := Snoc(st.Top().cat, x)));
  }

  lemma SetLastOk(st: Reading, x: Item)
    requires st.Ok() && !st.begin && WfItem(x) && Solid(x)
    ensures SetLast(st, x).Ok()
  {
    SetTopOk(st, st.Top().(cat := Snoc(st.Top().cat.front, x)));
  }

  lemma CloseGroupOk(st: Reading)
    requires st.Ok() && |st.frames| > 1
    ensures CloseGroup(st).Ok()
  {
    ToAltWf(st.Top());
    var outer := Reading(st.frames[..|st.frames| - 1], true);
    assert outer.Ok();
    AddItemOk(outer, Group(FrameAlt(st.Top())));
  }

  lemma StepOk(p: string, i: nat, st: Reading)
    requires i < |p| && st.Ok()
    ensures var n := RefStep(p, i, st); n.Next? ==> n.st.Ok()
  {
    hide ReadIterator, ReadRange;
    var c := p[i];
    if c == '\\' {
      if i + 1 < |p| {
        AddItemOk(st, Lit(p[i + 1]));
      }
    } else if c == '.' {
      AddItemOk(st, Range(true, []));
    } else if c == '(' {
    } else if c == ')' {
      if |st.frames| > 1 {
        CloseGroupOk(st);
      }
    } else if c == '|' {
      SetTopOk(st, Frame(st.Top().done + [st.Top().cat], Nil));
    } else if c == '*' || c == '+' || c == '?' {
      if !st.begin {
        var x := ItemBefore(st);
        SetLastOk(st, if c == '*' then Star(x) else if c == '+' then Plus(x) else Opt(x));
      }
    } else if c == '{' {
      IteratorOk(p, i, st);
    } else if c == '[' {
      var r := ReadRange(p, i);
      if r.RangeText? {
        AddItemOk(st, Range(r.invert, r.members));
      }
    } else {
      AddItemOk(st, Lit(c));
    }
  }

  lemma IteratorOk(p: string, i: nat, st: Reading)
    requires i < |p| && st.Ok() && p[i] == '{'
    ensures var n := RefStep(p, i, st); n.Next? && n.st.Ok()
  {
    hide ReadIterator, ReadRange;
    AddItemOk(st, Lit('{'));
    match ReadIterator(p, i)
    case NotIterator =>
    case IdMark(id, _) =>
      if st.begin {
        AddItemOk(st, Lead(id));
      } else {
        SetLastOk(st, Mark(ItemBefore(st), id));
      }
    case Bounds(min, max, _) =>
      if !st.begin {
        SetLastOk(st, Repeat(ItemBefore(st), min, max));
      }
  }

  lemma {:induction false} ToAltWf(f: Frame)
    requires WfFrame(f)
    ensures WfAlt(FrameAlt(f))
    decreases |f.done|
  {
    if f.done != [] {
      ToAltWf(Frame(f.done[1..], f.cat));
    }
  }

  /** The rest of the pattern from `i`. */
  function RefRun(p: string, i: nat, st: Reading): Option<Alt>
    requires i <= |p| && st.Ok()
    decreases |p| - i
  {
    if i == |p| then if |st.frames| == 1 then Some(FrameAlt(st.Top())) else None
    else
      var n := RefStep(p, i, st);
      StepOk(p, i, st);
      if n.Invalid? then None else RefRun(p, n.i, n.st)
  }

  const START := Reading([Frame([], Nil)], true)

  function BodyStart(p: string): nat { if |p| > 0 && p[0] == '^' then 1 else 0 }

  /** The syntax tree of a pattern; leading '^' and final '$' are anchors, not items. */
  function RefParse(p: string): Option<Alt> {
    RefRun(p, BodyStart(p), START)
  }

  lemma {:induction false} RefRunWf(p: string, i: nat, st: Reading)
    requires i <= |p| && st.Ok()
    ensures RefRun(p, i, st).Some? ==> WfAlt(RefRun(p, i, st).value)
    decreases |p| - i
  {
    if i == |p| {
      ToAltWf(st.Top());
    } else {
      var n := RefStep(p, i, st);
      StepOk(p, i, st);
      if n.Next? {
        RefRunWf(p, n.i, n.st);
      }
    }
  }
}
