/**
 Patterns as text: every tree that the parser can produce is written down and
 read back.
 */
module RegexNotation {
  import opened Options
  import opened RegexSyntax
  import opened RegexParser

  // ----- writing

  function Digit(d: nat): char
    requires d < 10
  {
    ('0' as int + d) as char
  }

  /** A number in decimal notation. */
  function Decimal(n: nat): (s: string)
    ensures s != []
  {
    if n < 10 then [Digit(n)] else Decimal(n / 10) + [Digit(n % 10)]
  }

  /** Characters that mean something outside of a range. */
  predicate Special(c: char) { c in "\\.()|*+?{[^$" }

  /** Characters that mean something in a range. */
  predicate RangeSpecial(c: char) { c in "\\]^-" }

  function ShowRangeChar(c: char): (s: string)
    ensures s != []
  {
    if RangeSpecial(c) then ['\\', c] else [c]
  }

  function ShowMember(m: Member): (s: string)
    ensures s != []
  {
    match m case Single(c) => ShowRangeChar(c) case Span(l, r) => ShowRangeChar(l) + "-" + ShowRangeChar(r)
  }

  function ShowMembers(ms: seq<Member>): string {
    if ms == [] then "" else ShowMember(ms[0]) + ShowMembers(ms[1..])
  }

  function ShowBounds(min: nat, max: Option<nat>): string {
    "{" + Decimal(min) + "," + (if max.Some? then Decimal(max.value) else "") + "}"
  }

  function ShowId(id: nat): string { "{" + Decimal(id) + "!}" }

  function ShowItem(x: Item): string
    decreases x
  {
    match x
    case Lit(c) => if Special(c) then ['\\', c] else [c]
    case Range(invert, ms) => if ms == [] then "." else (if invert then "[^" else "[") + ShowMembers(ms) + "]"
    case Lead(id) => ShowId(id)
    case Group(a) => "(" + ShowAlt(a) + ")"
    case Star(i) => ShowItem(i) + "*"
    case Plus(i) => ShowItem(i) + "+"
    case Opt(i) => ShowItem(i) + "?"
    case Mark(i, id) => ShowItem(i) + ShowId(id)
    case Repeat(i, min, max) => ShowItem(i) + ShowBounds(min, max)
  }

  /** With `open`, an id mark follows that is to stand alone, so a '{' in front of it is not escaped. */
  function ShowCat(x: Cat, open: bool): string
    decreases x
  {
    match x
    case Nil => ""
    case Snoc(front, last) =>
      if last.Lead? then ShowCat(front, true) + ShowId(last.id)
      else if open then ShowCat(front, true) + "{"
      else ShowCat(front, false) + ShowItem(last)
  }

  function ShowAlt(x: Alt): string
    decreases x
  {
    match x
    case One(c) => ShowCat(c, false)
    case Or(c, rest) => ShowCat(c, false) + "|" + ShowAlt(rest)
  }

  // ----- the trees that can be written

  predicate WritableMember(m: Member) { m.Span? ==> m.left <= m.right }

  predicate WritableItem(x: Item)
    decreases x
  {
    match x
    case Lit(_) => true
    case Range(invert, ms) => (ms != [] || invert) && forall k :: 0 <= k < |ms| ==> WritableMember(ms[k])
    case Lead(_) => false
    case Group(a) => WritableAlt(a)
    case Star(i) => WritableItem(i)
    case Plus(i) => WritableItem(i)
    case Opt(i) => WritableItem(i)
    case Mark(i, _) => WritableItem(i)
    case Repeat(i, min, max) => WritableItem(i) && (max.Some? ==> min <= max.value)
  }

  /** Lone id marks stand at the front, with nothing but '{' between them. */
  predicate WritableCat(x: Cat, open: bool)
    decreases x
  {
    match x
    case Nil => true
    case Snoc(front, last) =>
      if last.Lead? then WritableCat(front, true)
      else if open then last == Lit('{') && WritableCat(front, true)
      else WritableItem(last) && WritableCat(front, false)
  }

  predicate WritableAlt(x: Alt)
    decreases x
  {
    match x case One(c) => WritableCat(c, false) case Or(c, rest) => WritableCat(c, false) && WritableAlt(rest)
  }

  // ----- text at a place

  /** `s` stands at place `i` of `p`. */
  predicate At(p: string, i: nat, s: string) { i + |s| <= |p| && p[i..i + |s|] == s }

  lemma AtBoth(p: string, i: nat, s: string, t: string)
    ensures At(p, i, s + t) <==> At(p, i, s) && At(p, i + |s|, t)
  {
    if i + |s| + |t| <= |p| {
      assert p[i..i + |s + t|] == p[i..i + |s|] + p[i + |s|..i + |s| + |t|];
    }
    if At(p, i, s + t) {
      assert p[i..i + |s|] == (s + t)[..|s|];
      assert p[i + |s|..i + |s| + |t|] == (s + t)[|s|..];
    }
  }

  lemma AtChar(p: string, i: nat, c: char)
    ensures At(p, i, [c]) <==> i < |p| && p[i] == c
  {
  }

  // ----- numbers

  function Power10(n: nat): nat { if n == 0 then 1 else 10 * Power10(n - 1) }

  lemma DigitRead(d: nat)
    requires d < 10
    ensures IsDigit(Digit(d)) && Digit(d) as int - '0' as int == d
  {
  }

  /** Digits are read into the number they stand for. */
  lemma {:induction false} ReadDigits(p: string, i: nat, n: nat, acc: nat)
    requires i <= |p| && At(p, i, Decimal(n))
    ensures ReadNumber(p, i, acc) == ReadNumber(p, i + |Decimal(n)|, acc * Power10(|Decimal(n)|) + n)
    decreases n
  {
    hide ReadNumber, At, Digit;
    if n < 10 {
      ReadDigit(p, i, acc, n);
      assert Power10(1) == 10;
    } else {
      var front, d := Decimal(n / 10), n % 10;
      AtBoth(p, i, front, [Digit(d)]);
      ReadDigits(p, i, n / 10, acc);
      var q := Power10(|front|);
      AtEnd(p, i, front);
      ReadDigit(p, i + |front|, acc * q + n / 10, d);
      MoreDigits(acc, q, n);
      assert Power10(|front| + 1) == 10 * q;
    }
  }

  lemma AtEnd(p: string, i: nat, s: string)
    requires At(p, i, s)
    ensures i + |s| <= |p|
  {
  }

  lemma MoreDigits(acc: nat, q: nat, n: nat)
    ensures (acc * q + n / 10) * 10 + n % 10 == acc * (10 * q) + n
  {
    assert acc * q * 10 == acc * (10 * q);
  }

  lemma ReadDigit(p: string, i: nat, acc: nat, d: nat)
    requires d < 10 && At(p, i, [Digit(d)])
    ensures i < |p| && ReadNumber(p, i, acc) == ReadNumber(p, i + 1, acc * 10 + d)
  {
    AtChar(p, i, Digit(d));
    DigitRead(d);
  }

  /** Decimal notation is read back. */
  lemma NumberRead(p: string, i: nat, n: nat)
    requires i <= |p| && At(p, i, Decimal(n)) && (i + |Decimal(n)| < |p| ==> !IsDigit(p[i + |Decimal(n)|]))
    ensures ReadNumber(p, i, 0) == Number(n, i + |Decimal(n)|) && IsDigit(p[i])
  {
    ReadDigits(p, i, n, 0);
    FirstDigit(n);
    assert p[i] == p[i..i + |Decimal(n)|][0];
  }

  lemma {:induction false} FirstDigit(n: nat)
    ensures IsDigit(Decimal(n)[0])
  {
    if n >= 10 { FirstDigit(n / 10); }
  }

  // ----- what stands in braces

  lemma IdRead(p: string, i: nat, id: nat)
    requires At(p, i, ShowId(id))
    ensures i < |p| && p[i] == '{' && ReadIterator(p, i) == IdMark(id, i + |ShowId(id)| - 1)
  {
    hide Decimal, ReadNumber;
    var d := Decimal(id);
    assert ShowId(id) == ['{'] + (d + (['!'] + ['}']));
    AtBoth(p, i, ['{'], d + (['!'] + ['}']));
    AtBoth(p, i + 1, d, ['!'] + ['}']);
    AtBoth(p, i + 1 + |d|, ['!'], ['}']);
    AtChar(p, i, '{');
    AtChar(p, i + 1 + |d|, '!');
    AtChar(p, i + 2 + |d|, '}');
    NumberRead(p, i + 1, id);
  }

  lemma BoundsRead(p: string, i: nat, min: nat, max: Option<nat>)
    requires At(p, i, ShowBounds(min, max)) && (max.Some? ==> min <= max.value)
    ensures i < |p| && p[i] == '{' && ReadIterator(p, i) == Bounds(min, max, i + |ShowBounds(min, max)| - 1)
  {
    hide Decimal, ReadNumber, ReadUpper, At;
    var d, e := Decimal(min), if max.Some? then Decimal(max.value) else "";
    BoundsText(p, i, d, e);
    NumberRead(p, i + 1, min);
    UpperRead(p, i + 2 + |d|, min, max);
  }

  lemma BoundsText(p: string, i: nat, d: string, e: string)
    requires At(p, i, "{" + d + "," + e + "}")
    ensures At(p, i + 1, d) && At(p, i + 2 + |d|, e) && At(p, i + 2 + |d| + |e|, ['}'])
    ensures i + 2 + |d| + |e| < |p| && p[i] == '{' && p[i + 1 + |d|] == ',' && p[i + 2 + |d| + |e|] == '}'
  {
    hide At;
    assert "{" + d + "," + e + "}" == ['{'] + (d + ([','] + (e + ['}'])));
    AtBoth(p, i, ['{'], d + ([','] + (e + ['}'])));
    AtBoth(p, i + 1, d, [','] + (e + ['}']));
    AtBoth(p, i + 1 + |d|, [','], e + ['}']);
    AtBoth(p, i + 2 + |d|, e, ['}']);
    AtChar(p, i, '{');
    AtChar(p, i + 1 + |d|, ',');
    AtChar(p, i + 2 + |d| + |e|, '}');
  }

  lemma UpperRead(p: string, j: nat, min: nat, max: Option<nat>)
    requires max.Some? ==> min <= max.value && At(p, j, Decimal(max.value))
    requires var e := if max.Some? then Decimal(max.value) else ""; At(p, j + |e|, ['}'])
    ensures var e := if max.Some? then Decimal(max.value) else ""; ReadUpper(p, j, min) == Bounds(min, max, j + |e|)
  {
    hide Decimal, ReadNumber;
    if max.Some? {
      NumberRead(p, j, max.value);
    } else {
      AtChar(p, j, '}');
    }
  }

  /** The short forms {n} and {,m} stand for {n,n} and {0,m}. */
  lemma ShortBounds(p: string, i: nat, n: nat)
    ensures At(p, i, "{" + Decimal(n) + "}") ==> ReadIterator(p, i) == Bounds(n, Some(n), i + |Decimal(n)| + 1)
    ensures At(p, i, "{," + Decimal(n) + "}") ==> ReadIterator(p, i) == Bounds(0, Some(n), i + |Decimal(n)| + 2)
  {
    hide Decimal, ReadNumber, ReadUpper;
    var d := Decimal(n);
    if At(p, i, "{" + d + "}") {
      assert "{" + d + "}" == ['{'] + (d + ['}']);
      AtBoth(p, i, ['{'], d + ['}']);
      AtBoth(p, i + 1, d, ['}']);
      AtChar(p, i, '{');
      AtChar(p, i + 1 + |d|, '}');
      NumberRead(p, i + 1, n);
    }
    if At(p, i, "{," + d + "}") {
      assert "{," + d + "}" == ['{'] + ([','] + (d + ['}']));
      AtBoth(p, i, ['{'], [','] + (d + ['}']));
      AtBoth(p, i + 1, [','], d + ['}']);
      AtBoth(p, i + 2, d, ['}']);
      AtChar(p, i, '{');
      AtChar(p, i + 1, ',');
      AtChar(p, i + 2 + |d|, '}');
      UpperRead(p, i + 2, 0, Some(n));
    }
  }

  // ----- ranges

  lemma RangeCharRead(p: string, j: nat, c: char)
    requires At(p, j, ShowRangeChar(c))
    ensures j < |p| && p[j] != ']' && p[j] != '^' && p[j] != '-'
    ensures ReadRangeChar(p, j) == Some((c, j + |ShowRangeChar(c)|))
  {
    if RangeSpecial(c) {
      assert ShowRangeChar(c) == ['\\'] + [c];
      AtBoth(p, j, ['\\'], [c]);
      AtChar(p, j, '\\');
      AtChar(p, j + 1, c);
    } else {
      AtChar(p, j, c);
    }
  }

  /** The texts of the members, one after the other, and the closing bracket. */
  lemma MembersAt(p: string, j: nat, ms: seq<Member>)
    requires ms != [] && At(p, j, ShowMembers(ms) + "]")
    ensures At(p, j, ShowMember(ms[0])) && At(p, j + |ShowMember(ms[0])|, ShowMembers(ms[1..]) + "]")
  {
    hide At, ShowMember;
    assert ShowMembers(ms) + "]" == ShowMember(ms[0]) + (ShowMembers(ms[1..]) + "]");
    AtBoth(p, j, ShowMember(ms[0]), ShowMembers(ms[1..]) + "]");
  }

  lemma SpanAt(p: string, j: nat, l: char, r: char)
    requires At(p, j, ShowMember(Span(l, r)))
    ensures var k := j + |ShowRangeChar(l)|; At(p, j, ShowRangeChar(l)) && At(p, k, ['-']) && At(p, k + 1, ShowRangeChar(r))
  {
    hide At, ShowRangeChar;
    var a, b := ShowRangeChar(l), ShowRangeChar(r);
    assert ShowMember(Span(l, r)) == a + (['-'] + b);
    AtBoth(p, j, a, ['-'] + b);
    AtBoth(p, j + |a|, ['-'], b);
  }

  /** What follows a member is neither a dash nor the end of the text. */
  lemma AfterMember(p: string, j: nat, ms: seq<Member>)
    requires At(p, j, ShowMembers(ms) + "]")
    ensures j < |p| && p[j] != '-' && p[j] != '^' && (p[j] == ']' <==> ms == [])
  {
    hide At, ShowRangeChar, ReadRangeChar;
    if ms == [] {
      assert ShowMembers(ms) + "]" == [']'];
      AtChar(p, j, ']');
    } else {
      MembersAt(p, j, ms);
      match ms[0]
      case Single(c) => RangeCharRead(p, j, c);
      case Span(l, r) => SpanAt(p, j, l, r); RangeCharRead(p, j, l);
    }
  }

  lemma {:induction false} MembersRead(p: string, j: nat, ms: seq<Member>, acc: seq<Member>)
    requires At(p, j, ShowMembers(ms) + "]") && forall k :: 0 <= k < |ms| ==> WritableMember(ms[k])
    ensures j <= |p| && ReadMembers(p, j, acc) == Some((acc + ms, j + |ShowMembers(ms)|))
    decreases |ms|
  {
    hide At, ShowMember, ReadRangeChar;
    AfterMember(p, j, ms);
    if ms == [] {
      assert acc + ms == acc;
    } else {
      MembersAt(p, j, ms);
      var j' := j + |ShowMember(ms[0])|;
      assert WritableMember(ms[0]);
      AfterMember(p, j', ms[1..]);
      MemberRead(p, j, ms[0], acc);
      MembersRead(p, j', ms[1..], acc + [ms[0]]);
      assert (acc + [ms[0]]) + ms[1..] == acc + ms;
    }
  }

  lemma MemberRead(p: string, j: nat, m: Member, acc: seq<Member>)
    requires At(p, j, ShowMember(m)) && WritableMember(m)
    requires var j' := j + |ShowMember(m)|; j' < |p| && p[j'] != '-'
    ensures j < |p| && p[j] != ']' && ReadMembers(p, j, acc) == ReadMembers(p, j + |ShowMember(m)|, acc + [m])
  {
    hide At, ShowRangeChar, ReadRangeChar;
    match m
    case Single(c) => RangeCharRead(p, j, c);
    case Span(l, r) =>
      SpanAt(p, j, l, r);
      RangeCharRead(p, j, l);
      var k := j + |ShowRangeChar(l)|;
      AtChar(p, k, '-');
      RangeCharRead(p, k + 1, r);
  }

  lemma RangeRead(p: string, i: nat, invert: bool, ms: seq<Member>)
    requires ms != [] && WritableItem(Range(invert, ms)) && At(p, i, ShowItem(Range(invert, ms)))
    ensures i < |p| && p[i] == '[' && ReadRange(p, i) == RangeText(invert, ms, i + |ShowItem(Range(invert, ms))| - 1)
  {
    hide At, ShowMembers, ReadMembers;
    var body := ShowMembers(ms) + "]";
    var head := if invert then ['[', '^'] else ['['];
    assert ShowItem(Range(invert, ms)) == head + body;
    AtBoth(p, i, head, body);
    if invert { assert head == ['['] + ['^']; AtBoth(p, i, ['['], ['^']); AtChar(p, i + 1, '^'); }
    AtChar(p, i, '[');
    AfterMember(p, i + |head|, ms);
    MembersRead(p, i + |head|, ms, []);
    assert [] + ms == ms;
  }

  // ----- reading items

  lemma {:induction false} WritableWf(x: Item)
    requires WritableItem(x)
    ensures WfItem(x) && Solid(x)
    decreases x
  {
    match x
    case Group(a) => WritableAltWf(a);
    case Star(i) => WritableWf(i);
    case Plus(i) => WritableWf(i);
    case Opt(i) => WritableWf(i);
    case Mark(i, _) => WritableWf(i);
    case Repeat(i, _, _) => WritableWf(i);
    case _ =>
  }

  lemma {:induction false} WritableCatWf(x: Cat, open: bool)
    requires WritableCat(x, open)
    ensures WfCat(x)
    decreases x
  {
    if x.Snoc? {
      WritableCatWf(x.front, x.last.Lead? || open);
      if WritableItem(x.last) { WritableWf(x.last); }
    }
  }

  lemma {:induction false} WritableAltWf(x: Alt)
    requires WritableAlt(x)
    ensures WfAlt(x)
    decreases x
  {
    WritableCatWf(x.c, false);
    if x.Or? { WritableAltWf(x.rest); }
  }

  /** Reading goes on at `j` with `st'`. */
  predicate Reads(p: string, i: nat, st: Reading, j: nat, st': Reading) {
    i <= |p| && j <= |p| && st.Ok() && st'.Ok() && RefRun(p, i, st) == RefRun(p, j, st')
  }

  lemma OneStep(p: string, i: nat, st: Reading, j: nat, st': Reading)
    requires i < |p| && st.Ok() && RefStep(p, i, st) == Next(st', j)
    ensures Reads(p, i, st, j, st')
  {
    StepOk(p, i, st);
  }

  lemma LitRead(p: string, i: nat, c: char, st: Reading)
    requires st.Ok() && At(p, i, ShowItem(Lit(c)))
    ensures Reads(p, i, st, i + |ShowItem(Lit(c))|, AddItem(st, Lit(c)).(begin := false))
  {
    hide RefRun;
    var st' := AddItem(st, Lit(c)).(begin := false);
    if Special(c) {
      assert ShowItem(Lit(c)) == ['\\'] + [c];
      AtBoth(p, i, ['\\'], [c]);
      AtChar(p, i, '\\');
      AtChar(p, i + 1, c);
      OneStep(p, i, st, i + 2, st');
    } else {
      AtChar(p, i, c);
      PlainStep(p, i, st);
      OneStep(p, i, st, i + 1, st');
    }
  }

  lemma PlainStep(p: string, i: nat, st: Reading)
    requires i < |p| && st.Ok() && !Special(p[i])
    ensures RefStep(p, i, st) == Next(AddItem(st, Lit(p[i])).(begin := false), i + 1)
  {
    var c := p[i];
    assert c != '\\' && c != '.' && c != '(' && c != ')' && c != '|' && c != '*' && c != '+' && c != '?' && c != '{' && c != '[' && c != '$';
  }

  lemma RangeItemRead(p: string, i: nat, x: Item, st: Reading)
    requires st.Ok() && x.Range? && WritableItem(x) && At(p, i, ShowItem(x))
    ensures Reads(p, i, st, i + |ShowItem(x)|, AddItem(st, x).(begin := false))
  {
    hide RefRun, At, ReadRange;
    var st' := AddItem(st, x).(begin := false);
    if x.members == [] {
      assert ShowItem(x) == ['.'];
      AtChar(p, i, '.');
      OneStep(p, i, st, i + 1, st');
    } else {
      RangeRead(p, i, x.invert, x.members);
      OneStep(p, i, st, i + |ShowItem(x)|, st');
    }
  }

  /** An operator after an item. */
  lemma PostfixRead(p: string, i: nat, x: Item, y: Item, c: char, st: Reading)
    requires st.Ok() && Solid(x) && AddItem(st, x).(begin := false).Ok() && At(p, i, [c])
    requires (c == '*' && y == Star(x)) || (c == '+' && y == Plus(x)) || (c == '?' && y == Opt(x))
    ensures Reads(p, i, AddItem(st, x).(begin := false), i + 1, AddItem(st, y).(begin := false))
  {
    hide RefRun;
    var mid := AddItem(st, x).(begin := false);
    AtChar(p, i, c);
    Replaced(st, x, y);
    assert RefStep(p, i, mid) == Next(AddItem(st, y).(begin := false), i + 1);
    OneStep(p, i, mid, i + 1, AddItem(st, y).(begin := false));
  }

  lemma Replaced(st: Reading, x: Item, y: Item)
    requires st.frames != []
    ensures var mid := AddItem(st, x).(begin := false);
            && mid.frames != [] && mid.Top().cat == Snoc(st.Top().cat, x) && ItemBefore(mid) == x
            && SetLast(mid, y) == AddItem(st, y).(begin := false)
  {
    var mid := AddItem(st, x).(begin := false);
    assert mid.frames[..|mid.frames| - 1] == st.frames[..|st.frames| - 1];
  }

  /** Braces after an item. */
  lemma BracesRead(p: string, i: nat, x: Item, y: Item, s: string, st: Reading)
    requires st.Ok() && Solid(x) && AddItem(st, x).(begin := false).Ok() && At(p, i, s)
    requires (y.Mark? && y.i == x && s == ShowId(y.id))
          || (y.Repeat? && y.i == x && s == ShowBounds(y.min, y.max) && (y.max.Some? ==> y.min <= y.max.value))
    ensures Reads(p, i, AddItem(st, x).(begin := false), i + |s|, AddItem(st, y).(begin := false))
  {
    hide RefRun, At, ReadIterator, ShowId, ShowBounds;
    var mid := AddItem(st, x).(begin := false);
    Replaced(st, x, y);
    if y.Mark? {
      IdRead(p, i, y.id);
    } else {
      BoundsRead(p, i, y.min, y.max);
    }
    assert RefStep(p, i, mid) == Next(AddItem(st, y).(begin := false), i + |s|);
    OneStep(p, i, mid, i + |s|, AddItem(st, y).(begin := false));
  }

  lemma Chained(p: string, i: nat, st: Reading, j: nat, mid: Reading, k: nat, st': Reading)
    requires Reads(p, i, st, j, mid) && Reads(p, j, mid, k, st')
    ensures Reads(p, i, st, k, st')
  {
  }

  /** Where operators are written. */
  function Postfix(x: Item): (r: (Item, string))
    requires x.Star? || x.Plus? || x.Opt? || x.Mark? || x.Repeat?
    ensures r.0 < x && ShowItem(x) == ShowItem(r.0) + r.1 && (WritableItem(x) ==> WritableItem(r.0))
  {
    match x
    case Star(i) => (i, "*")
    case Plus(i) => (i, "+")
    case Opt(i) => (i, "?")
    case Mark(i, id) => (i, ShowId(id))
    case Repeat(i, min, max) => (i, ShowBounds(min, max))
  }

  /** Every item is read back from where it is written. */
  lemma {:induction false} ItemRead(p: string, i: nat, x: Item, st: Reading)
    requires st.Ok() && WritableItem(x) && At(p, i, ShowItem(x))
    ensures Reads(p, i, st, i + |ShowItem(x)|, AddItem(st, x).(begin := false))
    decreases x, 0
  {
    hide At, Reads, WritableItem, ShowItem;
    match x
    case Lit(c) => LitRead(p, i, c, st);
    case Range(_, _) => RangeItemRead(p, i, x, st);
    case Lead(_) => NoLead(x);
    case Group(a) => GroupRead(p, i, a, st);
    case _ =>
      var (y, s) := Postfix(x);
      AtBoth(p, i, ShowItem(y), s);
      ItemRead(p, i, y, st);
      var j := i + |ShowItem(y)|;
      PostfixOk(p, j, y, x, s, st);
      Chained(p, i, st, j, AddItem(st, y).(begin := false), j + |s|, AddItem(st, x).(begin := false));
  }

  lemma NoLead(x: Item)
    requires x.Lead?
    ensures !WritableItem(x)
  {
  }

  lemma PostfixOk(p: string, j: nat, y: Item, x: Item, s: string, st: Reading)
    requires st.Ok() && (x.Star? || x.Plus? || x.Opt? || x.Mark? || x.Repeat?) && WritableItem(x) && (y, s) == Postfix(x) && At(p, j, s)
    ensures Reads(p, j, AddItem(st, y).(begin := false), j + |s|, AddItem(st, x).(begin := false))
  {
    hide Reads, At, Reading.Ok;
    WritableWf(y);
    AddItemOk(st, y);
    match x
    case Star(_) => PostfixRead(p, j, y, x, '*', st);
    case Plus(_) => PostfixRead(p, j, y, x, '+', st);
    case Opt(_) => PostfixRead(p, j, y, x, '?', st);
    case Mark(_, _) => BracesRead(p, j, y, x, s, st);
    case Repeat(_, _, _) => BracesRead(p, j, y, x, s, st);
  }

  /** A group is read on top of the frames of what surrounds it. */
  lemma {:induction false} GroupRead(p: string, i: nat, a: Alt, st: Reading)
    requires st.Ok() && WritableItem(Group(a)) && At(p, i, ShowItem(Group(a)))
    ensures Reads(p, i, st, i + |ShowItem(Group(a))|, AddItem(st, Group(a)).(begin := false))
    decreases a, 2
  {
    hide RefRun, At, Reads, ShowAlt, RefStep;
    var s := ShowAlt(a);
    assert ShowItem(Group(a)) == ['('] + (s + [')']);
    AtBoth(p, i, ['('], s + [')']);
    AtBoth(p, i + 1, s, [')']);
    var inner := Reading(st.frames + [Frame([], Nil)], true);
    OpenRead(p, i, st);
    AltRead(p, i + 1, a, inner, []);
    var full := AltDone(inner, [], a);
    ReadsOk(p, i + 1, inner, i + 1 + |s|, full);
    Chained(p, i, st, i + 1, inner, i + 1 + |s|, full);
    CloseRead(p, i + 1 + |s|, st, a, full);
    Chained(p, i, st, i + 1 + |s|, full, i + 2 + |s|, AddItem(st, Group(a)).(begin := false));
  }

  lemma OpenRead(p: string, i: nat, st: Reading)
    requires st.Ok() && At(p, i, ['('])
    ensures Reads(p, i, st, i + 1, Reading(st.frames + [Frame([], Nil)], true))
  {
    hide RefRun;
    AtChar(p, i, '(');
    OneStep(p, i, st, i + 1, Reading(st.frames + [Frame([], Nil)], true));
  }

  lemma CloseRead(p: string, i: nat, st: Reading, a: Alt, full: Reading)
    requires st.Ok() && full.Ok() && At(p, i, [')']) && full == AltDone(Reading(st.frames + [Frame([], Nil)], true), [], a)
    ensures Reads(p, i, full, i + 1, AddItem(st, Group(a)).(begin := false))
  {
    hide RefRun;
    AtChar(p, i, ')');
    var inner := Reading(st.frames + [Frame([], Nil)], true);
    assert full.frames[..|full.frames| - 1] == st.frames;
    CatsJoin(a);
    assert [] + CatsOf(a) == CatsOf(a);
    assert CloseGroup(full) == AddItem(st, Group(a)).(begin := false);
    OneStep(p, i, full, i + 1, CloseGroup(full));
  }

  // ----- reading alternatives

  function CatsOf(x: Alt): seq<Cat> { match x case One(_) => [] case Or(c, rest) => [c] + CatsOf(rest) }

  function LastOf(x: Alt): Cat { match x case One(c) => c case Or(_, rest) => LastOf(rest) }

  lemma {:induction false} CatsJoin(x: Alt)
    ensures ToAlt(CatsOf(x), LastOf(x)) == x
    decreases x
  {
    if x.Or? {
      CatsJoin(x.rest);
      assert ([x.c] + CatsOf(x.rest))[1..] == CatsOf(x.rest);
    }
  }

  /** No item has been read yet that an operator could follow. */
  predicate Begins(x: Cat, open: bool) { x.Nil? || x.last.Lead? || open }

  function CatDone(st: Reading, x: Cat, open: bool): Reading
    requires st.frames != []
  {
    st.SetTop(st.Top().(cat := x)).(begin := Begins(x, open))
  }

  function AltDone(st: Reading, done: seq<Cat>, x: Alt): Reading
    requires st.frames != []
  {
    st.SetTop(Frame(done + CatsOf(x), LastOf(x))).(begin := Begins(LastOf(x), false))
  }

  lemma {:induction false} AltRead(p: string, i: nat, x: Alt, st: Reading, done: seq<Cat>)
    requires st.Ok() && st.begin && st.Top() == Frame(done, Nil) && WritableAlt(x) && At(p, i, ShowAlt(x))
    ensures Reads(p, i, st, i + |ShowAlt(x)|, AltDone(st, done, x))
    decreases x, 1
  {
    hide At, Reads, ShowCat;
    if x.One? {
      CatRead(p, i, x.c, false, st);
      assert done + [] == done;
    } else {
      var s, t := ShowCat(x.c, false), ShowAlt(x.rest);
      assert ShowAlt(x) == s + (['|'] + t);
      AtBoth(p, i, s, ['|'] + t);
      AtBoth(p, i + |s|, ['|'], t);
      CatRead(p, i, x.c, false, st);
      var mid, next := CatDone(st, x.c, false), st.SetTop(Frame(done + [x.c], Nil));
      ReadsOk(p, i, st, i + |s|, mid);
      SelectRead(p, i + |s|, st, x.c, done);
      Chained(p, i, st, i + |s|, mid, i + |s| + 1, next);
      ReadsOk(p, i, st, i + |s| + 1, next);
      AltRead(p, i + |s| + 1, x.rest, next, done + [x.c]);
      AltDoneMore(st, done, x);
      Chained(p, i, st, i + |s| + 1, next, i + |ShowAlt(x)|, AltDone(st, done, x));
    }
  }

  lemma ReadsOk(p: string, i: nat, st: Reading, j: nat, st': Reading)
    requires Reads(p, i, st, j, st')
    ensures st'.Ok()
  {
  }

  lemma AltDoneMore(st: Reading, done: seq<Cat>, x: Alt)
    requires st.frames != [] && x.Or?
    ensures AltDone(st.SetTop(Frame(done + [x.c], Nil)), done + [x.c], x.rest) == AltDone(st, done, x)
  {
    var next := st.SetTop(Frame(done + [x.c], Nil));
    assert next.frames[..|next.frames| - 1] == st.frames[..|st.frames| - 1];
    assert (done + [x.c]) + CatsOf(x.rest) == done + ([x.c] + CatsOf(x.rest));
  }

  lemma SelectRead(p: string, i: nat, st: Reading, c: Cat, done: seq<Cat>)
    requires st.Ok() && st.begin && st.Top() == Frame(done, Nil) && CatDone(st, c, false).Ok() && At(p, i, ['|'])
    ensures Reads(p, i, CatDone(st, c, false), i + 1, st.SetTop(Frame(done + [c], Nil)))
  {
    hide RefRun;
    AtChar(p, i, '|');
    var mid := CatDone(st, c, false);
    assert mid.frames[..|mid.frames| - 1] == st.frames[..|st.frames| - 1];
    OneStep(p, i, mid, i + 1, st.SetTop(Frame(done + [c], Nil)));
  }

  // ----- reading concatenations

  /** With `open`, a '{' has to follow. */
  lemma {:induction false} CatRead(p: string, i: nat, x: Cat, open: bool, st: Reading)
    requires st.Ok() && st.begin && st.Top().cat == Nil && WritableCat(x, open) && At(p, i, ShowCat(x, open))
    requires open ==> i + |ShowCat(x, open)| < |p| && p[i + |ShowCat(x, open)|] == '{'
    ensures Reads(p, i, st, i + |ShowCat(x, open)|, CatDone(st, x, open))
    decreases x, 2
  {
    hide At, Reads, ShowItem, ShowId, WritableItem;
    if x.Nil? {
      NothingRead(p, i, st, open);
    } else {
      var next := x.last.Lead? || open;
      var s, t := ShowCat(x.front, next), if x.last.Lead? then ShowId(x.last.id) else if open then "{" else ShowItem(x.last);
      assert ShowCat(x, open) == s + t;
      AtBoth(p, i, s, t);
      var j, mid := i + |s|, CatDone(st, x.front, next);
      if next { BraceFirst(p, j, t, x.last); }
      CatRead(p, i, x.front, next, st);
      ReadsOk(p, i, st, j, mid);
      LastRead(p, j, x, open, st, mid, t);
      Chained(p, i, st, j, mid, j + |t|, CatDone(st, x, open));
    }
  }

  lemma NothingRead(p: string, i: nat, st: Reading, open: bool)
    requires st.Ok() && st.begin && st.Top().cat == Nil && At(p, i, "")
    ensures Reads(p, i, st, i, CatDone(st, Nil, open))
  {
    assert CatDone(st, Nil, open) == st;
  }

  lemma BraceFirst(p: string, j: nat, t: string, x: Item)
    requires At(p, j, t) && (t == "{" || (x.Lead? && t == ShowId(x.id)))
    ensures j < |p| && p[j] == '{'
  {
    if x.Lead? && t == ShowId(x.id) {
      IdRead(p, j, x.id);
    } else {
      AtChar(p, j, '{');
    }
  }

  lemma LastRead(p: string, j: nat, x: Cat, open: bool, st: Reading, mid: Reading, t: string)
    requires st.Ok() && mid.Ok() && x.Snoc? && WritableCat(x, open) && At(p, j, t)
    requires mid == CatDone(st, x.front, x.last.Lead? || open)
    requires t == if x.last.Lead? then ShowId(x.last.id) else if open then "{" else ShowItem(x.last)
    requires open ==> j + |t| < |p| && p[j + |t|] == '{'
    ensures Reads(p, j, mid, j + |t|, CatDone(st, x, open))
    decreases x, 1
  {
    hide At, Reads, ShowItem, ShowId, WritableItem, RefRun;
    CatMore(st, x, open);
    if x.last.Lead? {
      LeadRead(p, j, x.last.id, mid);
    } else if open {
      BraceRead(p, j, mid);
    } else {
      ItemRead(p, j, x.last, mid);
    }
  }

  lemma CatMore(st: Reading, x: Cat, open: bool)
    requires st.frames != [] && x.Snoc?
    ensures var mid := CatDone(st, x.front, x.last.Lead? || open);
            && (x.last.Lead? || open ==> mid.begin && AddItem(mid, x.last) == CatDone(st, x, open))
            && (!x.last.Lead? && !open ==> AddItem(mid, x.last).(begin := false) == CatDone(st, x, open))
  {
    var mid := CatDone(st, x.front, x.last.Lead? || open);
    assert mid.frames[..|mid.frames| - 1] == st.frames[..|st.frames| - 1];
  }

  lemma LeadRead(p: string, j: nat, id: nat, st: Reading)
    requires st.Ok() && st.begin && At(p, j, ShowId(id))
    ensures Reads(p, j, st, j + |ShowId(id)|, AddItem(st, Lead(id)))
  {
    hide RefRun, At, ReadIterator, ShowId;
    IdRead(p, j, id);
    OneStep(p, j, st, j + |ShowId(id)|, AddItem(st, Lead(id)));
  }

  /** A brace in front of another one is a character. */
  lemma BraceRead(p: string, j: nat, st: Reading)
    requires st.Ok() && st.begin && At(p, j, "{") && j + 1 < |p| && p[j + 1] == '{'
    ensures Reads(p, j, st, j + 1, AddItem(st, Lit('{')))
  {
    hide RefRun;
    AtChar(p, j, '{');
    OneStep(p, j, st, j + 1, AddItem(st, Lit('{')));
  }

  // ----- the round trip

  /** No text starts with an anchor. */
  lemma {:induction false} NoAnchor(x: Item)
    requires WritableItem(x)
    ensures ShowItem(x) != [] && ShowItem(x)[0] != '^'
    decreases x
  {
    match x
    case Lit(c) => assert !Special(c) ==> c != '^';
    case Star(i) => NoAnchor(i);
    case Plus(i) => NoAnchor(i);
    case Opt(i) => NoAnchor(i);
    case Mark(i, _) => NoAnchor(i);
    case Repeat(i, _, _) => NoAnchor(i);
    case _ =>
  }

  lemma {:induction false} NoAnchorCat(x: Cat, open: bool)
    requires WritableCat(x, open)
    ensures ShowCat(x, open) != [] ==> ShowCat(x, open)[0] != '^'
    decreases x
  {
    if x.Snoc? {
      NoAnchorCat(x.front, x.last.Lead? || open);
      if WritableItem(x.last) { NoAnchor(x.last); }
    }
  }

  lemma NoAnchorAlt(x: Alt)
    requires WritableAlt(x)
    ensures ShowAlt(x) != [] ==> ShowAlt(x)[0] != '^'
  {
    NoAnchorCat(x.c, false);
  }

  /** At the end of the text the tree is there. */
  lemma TreeAtEnd(p: string, x: Alt)
    requires AltDone(START, [], x).Ok()
    ensures RefRun(p, |p|, AltDone(START, [], x)) == Some(x)
  {
    hide RefStep, Reading.Ok, WfFrame;
    CatsJoin(x);
    assert [] + CatsOf(x) == CatsOf(x);
  }

  /** Reading all of the text of a tree. */
  lemma WholeRead(p: string, i: nat, x: Alt)
    requires WritableAlt(x) && At(p, i, ShowAlt(x)) && i + |ShowAlt(x)| == |p|
    ensures RefRun(p, i, START) == Some(x)
  {
    hide At, ShowAlt, RefRun;
    AltRead(p, i, x, START, []);
    TreeAtEnd(p, x);
  }

  /** A final '$' is not an item. */
  lemma EndRead(p: string, i: nat, x: Alt)
    requires WritableAlt(x) && At(p, i, ShowAlt(x)) && i + |ShowAlt(x)| + 1 == |p| && p[|p| - 1] == '$'
    ensures RefRun(p, i, START) == Some(x)
  {
    hide At, ShowAlt, RefRun;
    AltRead(p, i, x, START, []);
    var st := AltDone(START, [], x);
    OneStep(p, |p| - 1, st, |p|, st);
    TreeAtEnd(p, x);
  }

  /** Every tree that can be written is what its text is read as, with or without anchors. */
  lemma ShowParse(x: Alt)
    requires WritableAlt(x)
    ensures RefParse(ShowAlt(x)) == Some(x)
    ensures RefParse("^" + ShowAlt(x)) == Some(x)
    ensures RefParse(ShowAlt(x) + "$") == Some(x)
  {
    hide RefRun, ShowAlt, WritableAlt;
    var s := ShowAlt(x);
    NoAnchorAlt(x);
    assert At(s, 0, s);
    WholeRead(s, 0, x);
    assert ("^" + s)[1..1 + |s|] == s;
    WholeRead("^" + s, 1, x);
    assert (s + "$")[0..|s|] == s;
    EndRead(s + "$", 0, x);
    assert s == [] ==> s + "$" == "$";
  }

  // ----- and no other trees are read

  /** What has been read so far can be written. */
  ghost predicate Neat(st: Reading) {
    && st.Ok() && WritableCat(st.Top().cat, st.begin)
    && forall k :: 0 <= k < |st.frames| ==> NeatFrame(st.frames[k])
  }

  ghost predicate NeatFrame(f: Frame) {
    (forall k :: 0 <= k < |f.done| ==> WritableCat(f.done[k], false)) && WritableCat(f.cat, false)
  }

  lemma {:induction false} OpenIsMore(x: Cat)
    requires WritableCat(x, true)
    ensures WritableCat(x, false)
    decreases x
  {
    if x.Snoc? { OpenIsMore(x.front); }
  }

  lemma SetTopNeat(st: Reading, f: Frame, begin: bool)
    requires Neat(st) && NeatFrame(f) && WritableCat(f.cat, begin) && st.SetTop(f).(begin := begin).Ok()
    ensures Neat(st.SetTop(f).(begin := begin))
  {
    hide WritableCat, WfFrame;
  }

  lemma AddNeat(st: Reading, x: Item)
    requires Neat(st) && WritableItem(x)
    ensures Neat(AddItem(st, x).(begin := false))
    ensures x == Lit('{') || !st.begin ==> Neat(AddItem(st, x))
  {
    WritableWf(x);
    AddItemOk(st, x);
    var f := st.Top().(cat := Snoc(st.Top().cat, x));
    SetTopNeat(st, f, false);
    if x == Lit('{') || !st.begin { SetTopNeat(st, f, st.begin); }
  }

  lemma AddLeadNeat(st: Reading, id: nat)
    requires Neat(st) && st.begin
    ensures Neat(AddItem(st, Lead(id)))
  {
    AddItemOk(st, Lead(id));
    SetTopNeat(st, st.Top().(cat := Snoc(st.Top().cat, Lead(id))), true);
  }

  lemma SetLastNeat(st: Reading, x: Item)
    requires Neat(st) && !st.begin && (WritableItem(ItemBefore(st)) ==> WritableItem(x))
    ensures Neat(SetLast(st, x))
  {
    WritableWf(x);
    SetLastOk(st, x);
    SetTopNeat(st, st.Top().(cat := Snoc(st.Top().cat.front, x)), false);
  }

  lemma {:induction false} ToAltWritable(done: seq<Cat>, last: Cat)
    requires NeatFrame(Frame(done, last))
    ensures WritableAlt(ToAlt(done, last))
    decreases |done|
  {
    if done != [] {
      assert forall k :: 0 <= k < |done| - 1 ==> done[1..][k] == done[k + 1];
      ToAltWritable(done[1..], last);
    }
  }

  lemma CloseNeat(st: Reading)
    requires Neat(st) && |st.frames| > 1
    ensures Neat(CloseGroup(st))
  {
    var outer := Reading(st.frames[..|st.frames| - 1], false);
    var f := st.Top();
    assert NeatFrame(f) && NeatFrame(outer.Top());
    ToAltWritable(f.done, f.cat);
    CloseGroupOk(st);
    var g := outer.Top().(cat := Snoc(outer.Top().cat, Group(FrameAlt(f))));
    assert NeatFrame(g);
    forall k | 0 <= k < |CloseGroup(st).frames| ensures NeatFrame(CloseGroup(st).frames[k]) {
      assert k < |st.frames| - 2 ==> CloseGroup(st).frames[k] == st.frames[k];
    }
  }

  lemma OpenNeat(st: Reading)
    requires Neat(st)
    ensures Neat(Reading(st.frames + [Frame([], Nil)], true))
    ensures Neat(st.SetTop(Frame(st.Top().done + [st.Top().cat], Nil)).(begin := true))
  {
    assert NeatFrame(Frame([], Nil));
    var f := Frame(st.Top().done + [st.Top().cat], Nil);
    assert NeatFrame(st.Top());
    assert NeatFrame(f);
    SetTopOk(st, f);
    SetTopNeat(st, f, true);
  }

  /** The members of a range that has been read are ordered, and there are some. */
  lemma {:induction false} MembersNeat(p: string, j: nat, ms: seq<Member>)
    requires j <= |p| && forall k :: 0 <= k < |ms| ==> WritableMember(ms[k])
    ensures var r := ReadMembers(p, j, ms);
            r.Some? ==> |r.value.0| >= |ms| && (forall k :: 0 <= k < |r.value.0| ==> WritableMember(r.value.0[k]))
                        && (p[j] != ']' ==> |r.value.0| > |ms|)
    decreases |p| - j
  {
    hide ReadRangeChar;
    if j < |p| && p[j] != ']' {
      var left := ReadRangeChar(p, j);
      if left.Some? {
        if !SpanFollows(p, left.value.1) {
          MembersNeat(p, left.value.1, ms + [Single(left.value.0)]);
        } else {
          var right := ReadRangeChar(p, left.value.1 + 1);
          if right.Some? {
            MembersNeat(p, right.value.1, ms + [MakeSpan(left.value.0, right.value.0)]);
          }
        }
      }
    }
  }

  lemma RangeNeat(p: string, i: nat)
    requires i < |p|
    ensures var r := ReadRange(p, i); r.RangeText? ==> WritableItem(Range(r.invert, r.members))
  {
    hide ReadMembers;
    if i + 1 < |p| {
      var k := if p[i + 1] == '^' then i + 2 else i + 1;
      if k < |p| {
        if p[k] == ']' { MembersNeat(p, k + 1, [Single(']')]); } else { MembersNeat(p, k, []); }
      }
    }
  }

  lemma StepNeat(p: string, i: nat, st: Reading)
    requires i < |p| && Neat(st)
    ensures var n := RefStep(p, i, st); n.Next? ==> Neat(n.st)
  {
    hide ReadIterator, ReadRange, Neat, WritableCat;
    var c := p[i];
    NeatParts(st);
    if c == '\\' {
      if i + 1 < |p| { AddNeat(st, Lit(p[i + 1])); }
    } else if c == '.' {
      AddNeat(st, Range(true, []));
    } else if c == '(' || c == '|' {
      OpenNeat(st);
    } else if c == ')' {
      if |st.frames| > 1 { CloseNeat(st); }
    } else if c == '*' || c == '+' || c == '?' {
      if !st.begin {
        var x := ItemBefore(st);
        SetLastNeat(st, if c == '*' then Star(x) else if c == '+' then Plus(x) else Opt(x));
      }
    } else if c == '{' {
      BracesNeat(p, i, st);
    } else if c == '[' {
      RangeNeat(p, i);
      var r := ReadRange(p, i);
      if r.RangeText? { AddNeat(st, Range(r.invert, r.members)); }
    } else {
      AddNeat(st, Lit(c));
    }
  }

  lemma NeatParts(st: Reading)
    requires Neat(st)
    ensures st.Ok()
  {
  }

  lemma BracesNeat(p: string, i: nat, st: Reading)
    requires i < |p| && Neat(st) && p[i] == '{'
    ensures var n := RefStep(p, i, st); n.Next? ==> Neat(n.st)
  {
    hide ReadIterator, ReadRange, Neat, WritableCat;
    NeatParts(st);
    AddNeat(st, Lit('{'));
    match ReadIterator(p, i)
    case NotIterator =>
    case IdMark(id, _) =>
      if st.begin { AddLeadNeat(st, id); } else { SetLastNeat(st, Mark(ItemBefore(st), id)); }
    case Bounds(min, max, _) =>
      if !st.begin { SetLastNeat(st, Repeat(ItemBefore(st), min, max)); }
  }

  lemma {:induction false} RunNeat(p: string, i: nat, st: Reading)
    requires i <= |p| && Neat(st)
    ensures RefRun(p, i, st).Some? ==> WritableAlt(RefRun(p, i, st).value)
    decreases |p| - i
  {
    hide RefStep, WritableCat;
    if i == |p| {
      assert NeatFrame(st.Top());
      ToAltWritable(st.Top().done, st.Top().cat);
    } else {
      StepOk(p, i, st);
      StepNeat(p, i, st);
      var n := RefStep(p, i, st);
      if n.Next? { RunNeat(p, n.i, n.st); }
    }
  }

  /** The trees that patterns are read as are exactly those that can be written. */
  lemma ParsedIsWritable(x: Alt)
    ensures WritableAlt(x) <==> exists p: string :: RefParse(p) == Some(x)
  {
    if WritableAlt(x) {
      ShowParse(x);
    }
    if exists p: string :: RefParse(p) == Some(x) {
      var p: string :| RefParse(p) == Some(x);
      assert NeatFrame(Frame([], Nil));
      RunNeat(p, BodyStart(p), START);
    }
  }

  // ----- texts that are refused

  lemma Continues(p: string, x: Alt)
    requires WritableAlt(x) && At(p, 0, ShowAlt(x)) && |ShowAlt(x)| < |p|
    ensures AltDone(START, [], x).Ok() && RefRun(p, 0, START) == RefRun(p, |ShowAlt(x)|, AltDone(START, [], x))
  {
    hide At, ShowAlt, RefRun;
    AltRead(p, 0, x, START, []);
  }

  /** A bracket too many, a bracket too few, an operator without an item and an unfinished escape or range are errors. */
  lemma Refused(x: Alt)
    requires WritableAlt(x)
    ensures RefParse(ShowAlt(x) + ")") == None
    ensures RefParse(ShowAlt(x) + "(") == None
    ensures RefParse(ShowAlt(x) + "\\") == None
    ensures RefParse(ShowAlt(x) + "[") == None
    ensures RefParse(ShowAlt(x) + "|*") == RefParse(ShowAlt(x) + "|+") == RefParse(ShowAlt(x) + "|?") == None
  {
    hide RefRun, ShowAlt, WritableAlt;
    var s := ShowAlt(x);
    LastStep(x, ')');
    LastStep(x, '(');
    LastStep(x, '\\');
    LastStep(x, '[');
    NoItem(x, '*');
    NoItem(x, '+');
    NoItem(x, '?');
    assert "|*" == ['|', '*'] && "|+" == ['|', '+'] && "|?" == ['|', '?'];
  }

  lemma LastStep(x: Alt, c: char)
    requires WritableAlt(x) && (c == ')' || c == '(' || c == '\\' || c == '[')
    ensures RefParse(ShowAlt(x) + [c]) == None
  {
    hide ShowAlt, WritableAlt, Reading.Ok;
    var s := ShowAlt(x);
    var p := s + [c];
    NoAnchorAlt(x);
    assert p[0..|s|] == s;
    Continues(p, x);
    var st := AltDone(START, [], x);
    if c == '(' {
      AtChar(p, |s|, '(');
      OpenRead(p, |s|, st);
    }
  }

  lemma NoItem(x: Alt, c: char)
    requires WritableAlt(x) && (c == '*' || c == '+' || c == '?')
    ensures RefParse(ShowAlt(x) + ['|', c]) == None
  {
    hide ShowAlt, WritableAlt, Reading.Ok;
    var s := ShowAlt(x);
    var p := s + ['|', c];
    NoAnchorAlt(x);
    assert p[0..|s|] == s;
    Continues(p, x);
    var st := AltDone(START, [], x);
    var st' := st.SetTop(Frame(st.Top().done + [st.Top().cat], Nil)).(begin := true);
    OneStep(p, |s|, st, |s| + 1, st');
  }
}
