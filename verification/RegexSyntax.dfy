/**
 Tokens and syntax trees of regexJIT patterns, and what they match.

 A pattern is a choice of concatenations of items.  Matching is defined on
 positions of a fixed text: an item matches from `a` to `b` when it can consume
 exactly the characters `text[a..b]`.
 */
module RegexSyntax {

  import opened Options

  /** Items of the parser's token stack. */
  datatype Token =
    | Begin
    | End
    | Chr(c: char)
    | Id(id: nat)
    | RngStart(invert: bool)
    | RngEnd
    | RngChar(c: char)
    | RngLeft(c: char)
    | RngRight(c: char)
    | OpenBr
    | CloseBr
    | Select
    | Asterisk
    | PlusSign
    | QuestionMark

  /** One member of a character range. */
  datatype Member = Single(c: char) | Span(left: char, right: char)

  datatype Alt = One(c: Cat) | Or(c: Cat, rest: Alt)

  datatype Cat = Nil | Snoc(front: Cat, last: Item)

  /**
   `Lead` is an id mark with no item before it, `Mark` an id mark after an item.
   `Repeat` is the iterator {min,max}; without an upper bound `max` is None.
   */
  datatype Item =
    | Lit(c: char)
    | Range(invert: bool, members: seq<Member>)
    | Lead(id: nat)
    | Group(a: Alt)
    | Star(i: Item)
    | Plus(i: Item)
    | Opt(i: Item)
    | Mark(i: Item, id: nat)
    | Repeat(i: Item, min: nat, max: Option<nat>)

  // ----- matching

  predicate InMember(m: Member, c: char) {
    match m case Single(d) => c == d case Span(l, r) => l <= c <= r
  }

  predicate InRange(invert: bool, members: seq<Member>, c: char) {
    (exists k :: 0 <= k < |members| && InMember(members[k], c)) != invert
  }

  ghost predicate MatchAlt(x: Alt, text: string, a: nat, b: nat)
    decreases x
  {
    match x
    case One(c) => MatchCat(c, text, a, b)
    case Or(c, rest) => MatchCat(c, text, a, b) || MatchAlt(rest, text, a, b)
  }

  ghost predicate MatchCat(x: Cat, text: string, a: nat, b: nat)
    decreases x
  {
    match x
    case Nil => a == b
    case Snoc(front, last) => exists m: nat :: MatchCat(front, text, a, m) && MatchItem(last, text, m, b)
  }

  ghost predicate MatchItem(x: Item, text: string, a: nat, b: nat)
    decreases x, 0
  {
    match x
    case Lit(c) => a < |text| && b == a + 1 && text[a] == c
    case Range(invert, members) => a < |text| && b == a + 1 && InRange(invert, members, text[a])
    case Lead(_) => a == b
    case Group(y) => MatchAlt(y, text, a, b)
    case Star(i) => exists n: nat :: MatchTimes(i, n, text, a, b)
    case Plus(i) => exists n: nat :: n >= 1 && MatchTimes(i, n, text, a, b)
    case Opt(i) => a == b || MatchItem(i, text, a, b)
    case Mark(i, _) => MatchItem(i, text, a, b)
    case Repeat(i, min, max) =>
      exists n: nat :: min <= n && (max.Some? ==> n <= max.value) && MatchTimes(i, n, text, a, b)
  }

  /** `n` matches of `x` in a row. */
  ghost predicate MatchTimes(x: Item, n: nat, text: string, a: nat, b: nat)
    decreases x, 1, n
  {
    if n == 0 then a == b
    else exists m: nat :: MatchTimes(x, n - 1, text, a, m) && MatchItem(x, text, m, b)
  }

  // ----- from syntax trees to tokens

  function MemberTokens(ms: seq<Member>): seq<Token> {
    if ms == [] then []
    else
      MemberTokens(ms[..|ms| - 1]) +
      (match ms[|ms| - 1] case Single(c) => [RngChar(c)] case Span(l, r) => [RngLeft(l), RngRight(r)])
  }

  function RangeTokens(invert: bool, ms: seq<Member>): seq<Token> {
    [RngStart(invert)] + MemberTokens(ms) + [RngEnd]
  }

  function RenderAlt(x: Alt): seq<Token> {
    match x
    case One(c) => RenderCat(c)
    case Or(c, rest) => RenderCat(c) + [Select] + RenderAlt(rest)
  }

  function RenderCat(x: Cat): seq<Token> {
    match x
    case Nil => []
    case Snoc(front, last) => RenderCat(front) + RenderItem(last)
  }

  /** Tokens of an item without iterators; those are expanded first. */
  function RenderItem(x: Item): seq<Token> {
    match x
    case Lit(c) => [Chr(c)]
    case Range(invert, members) => RangeTokens(invert, members)
    case Lead(id) => [Id(id)]
    case Group(y) => [OpenBr] + RenderAlt(y) + [CloseBr]
    case Star(i) => RenderItem(i) + [Asterisk]
    case Plus(i) => RenderItem(i) + [PlusSign]
    case Opt(i) => RenderItem(i) + [QuestionMark]
    case Mark(i, id) => RenderItem(i) + [Id(id)]
    case Repeat(i, _, _) => RenderItem(i)
  }

  // ----- expansion of iterators

  /** Appends `n` copies of `i`. */
  function Copies(front: Cat, i: Item, n: nat): Cat {
    if n == 0 then front else Snoc(Copies(front, i, n - 1), i)
  }

  /** X{min,max} as a group: `min` copies of X and `max - min` optional ones, or a final plus. */
  function Expand(i: Item, min: nat, max: Option<nat>): Item {
    if max.Some? && max.value < min then i
    else if max == Some(0) then Group(One(Nil))
    else if min == 0 && max == None then Star(i)
    else if min == 1 && max == None then Plus(i)
    else if min == 0 && max == Some(1) then Opt(i)
    else if min == 1 && max == Some(1) then i
    else if max == None then Group(One(Snoc(Copies(Nil, i, min - 1), Plus(i))))
    else Group(One(Copies(Copies(Nil, i, min), Opt(i), max.value - min)))
  }

  function ElabAlt(x: Alt): Alt {
    match x
    case One(c) => One(ElabCat(c))
    case Or(c, rest) => Or(ElabCat(c), ElabAlt(rest))
  }

  function ElabCat(x: Cat): Cat {
    match x
    case Nil => Nil
    case Snoc(front, last) => Snoc(ElabCat(front), ElabItem(last))
  }

  /** Replaces every iterator, innermost first, by its expansion. */
  function ElabItem(x: Item): Item {
    match x
    case Group(y) => Group(ElabAlt(y))
    case Star(i) => Star(ElabItem(i))
    case Plus(i) => Plus(ElabItem(i))
    case Opt(i) => Opt(ElabItem(i))
    case Mark(i, id) => Mark(ElabItem(i), id)
    case Repeat(i, min, max) => Expand(ElabItem(i), min, max)
    case _ => x
  }

  // ----- well-formed trees

  /** Items a postfix operator may follow: a bare id mark is not one. */
  predicate Solid(x: Item) {
    match x
    case Lead(_) => false
    case Star(i) => Solid(i)
    case Plus(i) => Solid(i)
    case Opt(i) => Solid(i)
    case Mark(i, _) => Solid(i)
    case Repeat(i, _, _) => Solid(i)
    case _ => true
  }

  predicate WfAlt(x: Alt) {
    match x case One(c) => WfCat(c) case Or(c, rest) => WfCat(c) && WfAlt(rest)
  }

  predicate WfCat(x: Cat) {
    match x case Nil => true case Snoc(front, last) => WfCat(front) && WfItem(last)
  }

  /** Operators follow solid items, and iterator bounds are ordered. */
  predicate WfItem(x: Item) {
    match x
    case Group(y) => WfAlt(y)
    case Star(i) => Solid(i) && WfItem(i)
    case Plus(i) => Solid(i) && WfItem(i)
    case Opt(i) => Solid(i) && WfItem(i)
    case Mark(i, _) => Solid(i) && WfItem(i)
    case Repeat(i, min, max) => Solid(i) && WfItem(i) && (max.Some? ==> min <= max.value)
    case _ => true
  }

  predicate CoreAlt(x: Alt) {
    match x case One(c) => CoreCat(c) case Or(c, rest) => CoreCat(c) && CoreAlt(rest)
  }

  predicate CoreCat(x: Cat) {
    match x case Nil => true case Snoc(front, last) => CoreCat(front) && CoreItem(last)
  }

  /** Well formed and free of iterators: what the token stack can represent. */
  predicate CoreItem(x: Item) {
    match x
    case Group(y) => CoreAlt(y)
    case Star(i) => Solid(i) && CoreItem(i)
    case Plus(i) => Solid(i) && CoreItem(i)
    case Opt(i) => Solid(i) && CoreItem(i)
    case Mark(i, _) => Solid(i) && CoreItem(i)
    case Repeat(_, _, _) => false
    case _ => true
  }
}
