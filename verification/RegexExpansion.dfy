/**
 Expanding the iterators X{n,m} preserves what a pattern matches.
 */
module RegexExpansion {
  import opened Options
  import opened RegexSyntax

  // ----- taking matches apart and putting them together

  lemma LastTime(x: Item, n: nat, text: string, a: nat, b: nat) returns (m: nat)
    requires n > 0 && MatchTimes(x, n, text, a, b)
    ensures MatchTimes(x, n - 1, text, a, m) && MatchItem(x, text, m, b)
  {
    m :| MatchTimes(x, n - 1, text, a, m) && MatchItem(x, text, m, b);
  }

  lemma OneMoreTime(x: Item, n: nat, text: string, a: nat, m: nat, b: nat)
    requires MatchTimes(x, n, text, a, m) && MatchItem(x, text, m, b)
    ensures MatchTimes(x, n + 1, text, a, b)
  {
  }

  lemma LastItem(x: Cat, text: string, a: nat, b: nat) returns (m: nat)
    requires x.Snoc? && MatchCat(x, text, a, b)
    ensures MatchCat(x.front, text, a, m) && MatchItem(x.last, text, m, b)
  {
    m :| MatchCat(x.front, text, a, m) && MatchItem(x.last, text, m, b);
  }

  lemma OneMoreItem(front: Cat, last: Item, text: string, a: nat, m: nat, b: nat)
    requires MatchCat(front, text, a, m) && MatchItem(last, text, m, b)
    ensures MatchCat(Snoc(front, last), text, a, b)
  {
  }

  // ----- runs of matches

  lemma {:induction false} TimesAppend(x: Item, n: nat, k: nat, text: string, a: nat, m: nat, b: nat)
    requires MatchTimes(x, n, text, a, m) && MatchTimes(x, k, text, m, b)
    ensures MatchTimes(x, n + k, text, a, b)
    decreases k
  {
    if k > 0 {
      var m' := LastTime(x, k, text, m, b);
      TimesAppend(x, n, k - 1, text, a, m, m');
      OneMoreTime(x, n + k - 1, text, a, m', b);
    }
  }

  lemma {:induction false} TimesSplit(x: Item, n: nat, k: nat, text: string, a: nat, b: nat) returns (m: nat)
    requires MatchTimes(x, n + k, text, a, b)
    ensures MatchTimes(x, n, text, a, m) && MatchTimes(x, k, text, m, b)
    decreases k
  {
    if k == 0 {
      m := b;
    } else {
      var m' := LastTime(x, n + k, text, a, b);
      m := TimesSplit(x, n, k - 1, text, a, m');
      OneMoreTime(x, k - 1, text, m, m', b);
    }
  }

  lemma {:induction false} TimesSame(x: Item, y: Item, n: nat, text: string, a: nat, b: nat)
    requires forall c: nat, d: nat :: MatchItem(x, text, c, d) == MatchItem(y, text, c, d)
    requires MatchTimes(x, n, text, a, b)
    ensures MatchTimes(y, n, text, a, b)
    decreases n
  {
    if n > 0 {
      var m := LastTime(x, n, text, a, b);
      TimesSame(x, y, n - 1, text, a, m);
      OneMoreTime(y, n - 1, text, a, m, b);
    }
  }

  /** `k` optional copies match what at most `k` copies match. */
  lemma {:induction false} OptionalToTimes(x: Item, k: nat, text: string, a: nat, b: nat) returns (n: nat)
    requires MatchTimes(Opt(x), k, text, a, b)
    ensures n <= k && MatchTimes(x, n, text, a, b)
    decreases k
  {
    if k == 0 {
      n := 0;
    } else {
      var m := LastTime(Opt(x), k, text, a, b);
      n := OptionalToTimes(x, k - 1, text, a, m);
      if m != b {
        OneMoreTime(x, n, text, a, m, b);
        n := n + 1;
      }
    }
  }

  lemma {:induction false} TimesToOptional(x: Item, n: nat, k: nat, text: string, a: nat, b: nat)
    requires n <= k && MatchTimes(x, n, text, a, b)
    ensures MatchTimes(Opt(x), k, text, a, b)
    decreases k
  {
    if k > n {
      TimesToOptional(x, n, k - 1, text, a, b);
      OneMoreTime(Opt(x), k - 1, text, a, b, b);
    } else if k > 0 {
      var m := LastTime(x, n, text, a, b);
      TimesToOptional(x, n - 1, k - 1, text, a, m);
      OneMoreTime(Opt(x), k - 1, text, a, m, b);
    }
  }

  lemma {:induction false} CopiesToTimes(front: Cat, x: Item, n: nat, text: string, a: nat, b: nat) returns (m: nat)
    requires MatchCat(Copies(front, x, n), text, a, b)
    ensures MatchCat(front, text, a, m) && MatchTimes(x, n, text, m, b)
    decreases n
  {
    if n == 0 {
      m := b;
    } else {
      var c := LastItem(Copies(front, x, n), text, a, b);
      m := CopiesToTimes(front, x, n - 1, text, a, c);
      OneMoreTime(x, n - 1, text, m, c, b);
    }
  }

  lemma {:induction false} TimesToCopies(front: Cat, x: Item, n: nat, text: string, a: nat, m: nat, b: nat)
    requires MatchCat(front, text, a, m) && MatchTimes(x, n, text, m, b)
    ensures MatchCat(Copies(front, x, n), text, a, b)
    decreases n
  {
    if n > 0 {
      var c := LastTime(x, n, text, m, b);
      TimesToCopies(front, x, n - 1, text, a, m, c);
      OneMoreItem(Copies(front, x, n - 1), x, text, a, c, b);
    }
  }

  // ----- one iterator

  /** {min,max} with a bound: `min` copies followed by `max - min` optional ones. */
  lemma BoundedCopies(x: Item, min: nat, max: nat, text: string, a: nat, b: nat)
    requires min <= max
    ensures MatchCat(Copies(Copies(Nil, x, min), Opt(x), max - min), text, a, b) ==
            MatchItem(Repeat(x, min, Some(max)), text, a, b)
  {
    var must := Copies(Nil, x, min);
    if MatchCat(Copies(must, Opt(x), max - min), text, a, b) {
      var m := CopiesToTimes(must, Opt(x), max - min, text, a, b);
      var _ := CopiesToTimes(Nil, x, min, text, a, m);
      var k := OptionalToTimes(x, max - min, text, m, b);
      TimesAppend(x, min, k, text, a, m, b);
      RepeatMade(x, min, Some(max), min + k, text, a, b);
    }
    if MatchItem(Repeat(x, min, Some(max)), text, a, b) {
      var n := RepeatCount(x, min, Some(max), text, a, b);
      var m := TimesSplit(x, min, n - min, text, a, b);
      TimesToCopies(Nil, x, min, text, a, a, m);
      TimesToOptional(x, n - min, max - min, text, m, b);
      TimesToCopies(must, Opt(x), max - min, text, a, m, b);
    }
  }

  /** {min,} : `min - 1` copies and a last one under a plus. */
  lemma OpenCopies(x: Item, min: nat, text: string, a: nat, b: nat)
    requires min >= 1
    ensures MatchCat(Snoc(Copies(Nil, x, min - 1), Plus(x)), text, a, b) ==
            MatchItem(Repeat(x, min, None), text, a, b)
  {
    var must := Copies(Nil, x, min - 1);
    if MatchCat(Snoc(must, Plus(x)), text, a, b) {
      var m := LastItem(Snoc(must, Plus(x)), text, a, b);
      var _ := CopiesToTimes(Nil, x, min - 1, text, a, m);
      var k := PlusCount(x, text, m, b);
      TimesAppend(x, min - 1, k, text, a, m, b);
      RepeatMade(x, min, None, min - 1 + k, text, a, b);
    }
    if MatchItem(Repeat(x, min, None), text, a, b) {
      var n := RepeatCount(x, min, None, text, a, b);
      var m := TimesSplit(x, min - 1, n - (min - 1), text, a, b);
      TimesToCopies(Nil, x, min - 1, text, a, a, m);
      PlusMade(x, n - (min - 1), text, m, b);
      OneMoreItem(must, Plus(x), text, a, m, b);
    }
  }

  lemma RepeatCount(x: Item, min: nat, max: Option<nat>, text: string, a: nat, b: nat) returns (n: nat)
    requires MatchItem(Repeat(x, min, max), text, a, b)
    ensures min <= n && (max.Some? ==> n <= max.value) && MatchTimes(x, n, text, a, b)
  {
    n :| min <= n && (max.Some? ==> n <= max.value) && MatchTimes(x, n, text, a, b);
  }

  lemma RepeatMade(x: Item, min: nat, max: Option<nat>, n: nat, text: string, a: nat, b: nat)
    requires min <= n && (max.Some? ==> n <= max.value) && MatchTimes(x, n, text, a, b)
    ensures MatchItem(Repeat(x, min, max), text, a, b)
  {
  }

  lemma PlusCount(x: Item, text: string, a: nat, b: nat) returns (n: nat)
    requires MatchItem(Plus(x), text, a, b)
    ensures n >= 1 && MatchTimes(x, n, text, a, b)
  {
    n :| n >= 1 && MatchTimes(x, n, text, a, b);
  }

  lemma StarCount(x: Item, text: string, a: nat, b: nat) returns (n: nat)
    requires MatchItem(Star(x), text, a, b)
    ensures MatchTimes(x, n, text, a, b)
  {
    n :| MatchTimes(x, n, text, a, b);
  }

  lemma StarMade(x: Item, n: nat, text: string, a: nat, b: nat)
    requires MatchTimes(x, n, text, a, b)
    ensures MatchItem(Star(x), text, a, b)
  {
  }

  lemma PlusMade(x: Item, n: nat, text: string, a: nat, b: nat)
    requires n >= 1 && MatchTimes(x, n, text, a, b)
    ensures MatchItem(Plus(x), text, a, b)
  {
  }

  lemma OneTime(x: Item, text: string, a: nat, b: nat)
    ensures MatchTimes(x, 1, text, a, b) == MatchItem(x, text, a, b)
  {
    if MatchTimes(x, 1, text, a, b) {
      var m := LastTime(x, 1, text, a, b);
    }
    if MatchItem(x, text, a, b) {
      OneMoreTime(x, 0, text, a, a, b);
    }
  }

  /** The expansion of X{min,max} matches between `min` and `max` copies of X, and nothing else. */
  lemma ExpandMatches(x: Item, min: nat, max: Option<nat>, text: string, a: nat, b: nat)
    requires max.Some? ==> min <= max.value
    ensures MatchItem(Expand(x, min, max), text, a, b) == MatchItem(Repeat(x, min, max), text, a, b)
  {
    OneTime(x, text, a, b);
    var r := Repeat(x, min, max);
    if max == Some(0) || (max == Some(1) && min <= 1) {
      if MatchItem(r, text, a, b) {
        var n := RepeatCount(x, min, max, text, a, b);
      }
      if max == Some(0) || (min == 0 && a == b) {
        assert a == b ==> MatchTimes(x, 0, text, a, b);
      }
      if max == Some(1) && MatchTimes(x, 1, text, a, b) {
        RepeatMade(x, min, max, 1, text, a, b);
      }
    } else if max.Some? {
      BoundedCopies(x, min, max.value, text, a, b);
      GroupOne(Copies(Copies(Nil, x, min), Opt(x), max.value - min), text, a, b);
    } else if min >= 2 {
      OpenCopies(x, min, text, a, b);
      GroupOne(Snoc(Copies(Nil, x, min - 1), Plus(x)), text, a, b);
    }
  }

  lemma GroupOne(c: Cat, text: string, a: nat, b: nat)
    ensures MatchItem(Group(One(c)), text, a, b) == MatchCat(c, text, a, b)
  {
    assert MatchAlt(One(c), text, a, b) == MatchCat(c, text, a, b);
  }

  // ----- whole patterns

  lemma {:induction false} ElabAltMatches(x: Alt, text: string, a: nat, b: nat)
    requires WfAlt(x)
    ensures MatchAlt(ElabAlt(x), text, a, b) == MatchAlt(x, text, a, b)
    decreases x
  {
    ElabCatMatches(x.c, text, a, b);
    if x.Or? {
      ElabAltMatches(x.rest, text, a, b);
    }
  }

  lemma {:induction false} ElabCatMatches(x: Cat, text: string, a: nat, b: nat)
    requires WfCat(x)
    ensures MatchCat(ElabCat(x), text, a, b) == MatchCat(x, text, a, b)
    decreases x
  {
    if x.Snoc? {
      forall m: nat
        ensures MatchCat(ElabCat(x.front), text, a, m) == MatchCat(x.front, text, a, m)
        ensures MatchItem(ElabItem(x.last), text, m, b) == MatchItem(x.last, text, m, b)
      {
        ElabCatMatches(x.front, text, a, m);
        ElabItemMatches(x.last, text, m, b);
      }
    }
  }

  lemma {:induction false} ElabItemMatches(x: Item, text: string, a: nat, b: nat)
    requires WfItem(x)
    ensures MatchItem(ElabItem(x), text, a, b) == MatchItem(x, text, a, b)
    decreases x, 0
  {
    match x
    case Lit(_) => case Range(_, _) => case Lead(_) =>
    case Group(y) => ElabAltMatches(y, text, a, b);
    case Opt(i) => ElabItemMatches(i, text, a, b);
    case Mark(i, _) => ElabItemMatches(i, text, a, b);
    case Star(i) => ElabTimesMatches(i, text, a, b);
    case Plus(i) => ElabTimesMatches(i, text, a, b);
    case Repeat(i, min, max) =>
      ElabTimesMatches(i, text, a, b);
      ExpandMatches(ElabItem(i), min, max, text, a, b);
  }

  lemma {:induction false} ElabTimesMatches(i: Item, text: string, a: nat, b: nat)
    requires WfItem(i)
    ensures forall n: nat :: MatchTimes(ElabItem(i), n, text, a, b) == MatchTimes(i, n, text, a, b)
    decreases i, 1
  {
    var e := ElabItem(i);
    forall c: nat, d: nat ensures MatchItem(e, text, c, d) == MatchItem(i, text, c, d) {
      ElabItemMatches(i, text, c, d);
    }
    forall n: nat ensures MatchTimes(e, n, text, a, b) == MatchTimes(i, n, text, a, b) {
      if MatchTimes(e, n, text, a, b) {
        TimesSame(e, i, n, text, a, b);
      }
      if MatchTimes(i, n, text, a, b) {
        TimesSame(i, e, n, text, a, b);
      }
    }
  }

  // ----- expansion yields trees the token stack can represent

  lemma {:induction false} ExpandIsCore(x: Item, min: nat, max: Option<nat>)
    requires CoreItem(x) && Solid(x)
    ensures CoreItem(Expand(x, min, max)) && Solid(Expand(x, min, max))
  {
    CopiesCore(Nil, x, min);
    if min > 0 {
      CopiesCore(Nil, x, min - 1);
    }
    if max.Some? && min <= max.value {
      CopiesCore(Copies(Nil, x, min), Opt(x), max.value - min);
    }
    var e := Expand(x, min, max);
    if e.Group? {
      assert CoreCat(e.a.c);
      assert CoreAlt(e.a);
    }
  }

  lemma {:induction false} CopiesCore(front: Cat, x: Item, n: nat)
    requires CoreCat(front) && CoreItem(x)
    ensures CoreCat(Copies(front, x, n))
    decreases n
  {
    if n > 0 {
      CopiesCore(front, x, n - 1);
    }
  }

  lemma {:induction false} ElabAltIsCore(x: Alt)
    requires WfAlt(x)
    ensures CoreAlt(ElabAlt(x))
  {
    ElabCatIsCore(x.c);
    if x.Or? {
      ElabAltIsCore(x.rest);
    }
  }

  lemma {:induction false} ElabCatIsCore(x: Cat)
    requires WfCat(x)
    ensures CoreCat(ElabCat(x))
  {
    if x.Snoc? {
      ElabCatIsCore(x.front);
      ElabItemIsCore(x.last);
    }
  }

  lemma {:induction false} ElabItemIsCore(x: Item)
    requires WfItem(x)
    ensures CoreItem(ElabItem(x)) && (Solid(x) ==> Solid(ElabItem(x)))
  {
    match x
    case Lit(_) => case Range(_, _) => case Lead(_) =>
    case Group(y) => ElabAltIsCore(y);
    case Star(i) => ElabItemIsCore(i);
    case Plus(i) => ElabItemIsCore(i);
    case Opt(i) => ElabItemIsCore(i);
    case Mark(i, _) => ElabItemIsCore(i);
    case Repeat(i, min, max) =>
      ElabItemIsCore(i);
      ExpandIsCore(ElabItem(i), min, max);
  }
}
