/**
 The iterator over a MAC table: two nested scans for set bits, resumed from
 copies of the mask words it stopped in.
 */
module MacIterator {

  import opened Options
  import opened MacTable

  const END: nat := 0xffffffff

  /** Position (a, b) comes before (c, d). */
  predicate Less(a: nat, b: nat, c: nat, d: nat) { a < c || (a == c && b < d) }

  /** The bits of a word from position `n` on. */
  predicate IsSuffix(m: Word, w: Word, n: nat) { forall k :: 0 <= k < 64 ==> (m[k] <==> w[k] && n <= k) }

  /** The first present sub-table from `p` on. */
  ghost function FirstSub(mask: seq<Word>, p: nat): (r: nat)
    requires p <= HALF
    ensures p <= r <= HALF && (r < HALF ==> Has(mask, r)) && forall q :: p <= q < r ==> !Has(mask, q)
    decreases HALF - p
  {
    if p == HALF || Has(mask, p) then p else FirstSub(mask, p + 1)
  }

  /** The entry of the first sub-table that an iteration starts from. */
  ghost function StartEntry(mask: seq<Word>): (r: nat)
    ensures r <= 64
  {
    if Has(mask, 0) then 0 else 64
  }

  class Iterator<V(0)> {
    const tbl: Table<V>
    var i: nat
    var j: nat
    var mi: nat
    var mj: nat
    var m0: Word
    var m1: Word
    var value: Option<V>
    /** The iterator goes on from entry `lo` of sub-table `cur`. */
    ghost var cur: nat
    ghost var lo: nat

    /** A present key that is still to come. */
    ghost predicate Pending(q1: nat, q2: nat)
      requires tbl.Shape()
      reads this, tbl, tbl.mask, tbl.subs, tbl.repr
    {
      q1 < HALF && q2 < HALF && tbl.Present(q1, q2) && !Less(q1, q2, cur, lo)
    }

    /** The saved words agree with the table from (`cur`, `lo`) on. */
    ghost predicate Synced()
      reads this, tbl, tbl.mask, tbl.subs, tbl.repr
    {
      && tbl.Shape() && this !in tbl.repr && i < WORDS && j < WORDS && i * 64 <= cur <= HALF
      && IsSuffix(m0, tbl.mask[i], cur - i * 64)
      && (forall p :: i * 64 + 64 <= p < cur ==> !Has(tbl.mask[..], p))
      && j * 64 <= lo <= j * 64 + 64
      && (cur < HALF ==> Has(tbl.mask[..], cur) && tbl.SubOk(cur) && IsSuffix(m1, tbl.subs[cur].mask[j], lo - j * 64))
    }

    /**
     The first position, from mask word 0 on.  Unless sub-table 0 is present,
     the scan of the first sub-table starts with an empty word instead of its
     word 0.
     */
    constructor (tbl: Table<V>)
      requires tbl.Valid()
      ensures this.tbl == tbl && MovedFrom(FirstSub(tbl.mask[..], 0), StartEntry(tbl.mask[..])) && this !in tbl.repr
    {
      this.tbl := tbl;
      i, j, mi, mj, value := 0, 0, 0, 0, None;
      m0 := tbl.mask[0];
      m1 := ZERO;
      cur := FirstSub(tbl.mask[..], 0);
      lo := StartEntry(tbl.mask[..]);
      new;
      hide *;
      Start();
    }

    /** The rest of the initialisation. */
    method Start()
      requires tbl.Valid() && this !in tbl.repr && i == j == 0 && m0 == tbl.mask[0] && m1 == ZERO
      requires cur == FirstSub(tbl.mask[..], 0) && lo == StartEntry(tbl.mask[..])
      modifies this
      ensures MovedFrom(old(cur), old(lo))
    {
      hide FirstSub, StartEntry, Synced, MovedFrom, Pending, Table.Present, Table.EntryOk, Lowest, Less, IsSuffix;
      StartsThere();
      if m0[0] {
        m1 := tbl.subs[0].mask[0];
        FirstSynced();
        if m1[0] {
          FirstKey();
          Yield(0, 0, m0, m1, 0);
          return;
        }
      }
      Next();
    }

    lemma StartsThere()
      requires tbl.Valid() && this !in tbl.repr && i == j == 0 && m0 == tbl.mask[0] && m1 == ZERO
      requires cur == FirstSub(tbl.mask[..], 0) && lo == StartEntry(tbl.mask[..])
      ensures m0[0] ==> cur == lo == 0 && Has(tbl.mask[..], 0) && tbl.SubOk(0)
      ensures !m0[0] ==> Synced()
    {
      assert tbl.mask[..][0] == tbl.mask[0];
      if !m0[0] {
        assert cur < HALF ==> tbl.SubOk(cur);
        forall k | 0 <= k < 64 && k < cur ensures !m0[k] { assert !Has(tbl.mask[..], k); }
      }
    }

    lemma FirstSynced()
      requires tbl.Valid() && this !in tbl.repr && i == j == 0 && m0 == tbl.mask[0] && cur == lo == 0
      requires Has(tbl.mask[..], 0) && tbl.SubOk(0) && m1 == tbl.subs[0].mask[0]
      ensures Synced()
    {
    }

    lemma FirstKey()
      requires tbl.Valid() && i == j == 0 && m0 == tbl.mask[0] && m0[0] && cur == lo == 0
      requires Has(tbl.mask[..], 0) && tbl.SubOk(0) && m1 == tbl.subs[0].mask[0] && m1[0]
      ensures !Empty(m0) && !Empty(m1) && Lowest(m0) == 0 && Lowest(m1) == 0 && Pending(0, 0)
      ensures forall a: nat, b: nat :: Pending(a, b) ==> !Less(a, b, 0, 0)
    {
      assert tbl.subs[0].mask[..][0] == m1;
    }

    predicate IsEnd()
      reads this
    {
      i == END
    }

    /** Looks for a bit in the words of sub-table `p` from word `at` on. */
    method ScanSub(p: nat, at: nat, first: Word, been: bool) returns (found: bool, jj: nat, w: Word, out: bool)
      requires tbl.Shape() && p < HALF && Has(tbl.mask[..], p) && tbl.SubOk(p) && at < WORDS
      requires !been ==> p == cur && at * 64 <= lo <= at * 64 + 64 && IsSuffix(first, tbl.subs[p].mask[at], lo - at * 64)
      requires been ==> at == 0 && p > cur
      ensures found ==> jj < WORDS && !Empty(w) && var q2 := jj * 64 + Lowest(w);
                && Pending(p, q2) && (forall b: nat :: Pending(p, b) ==> q2 <= b)
                && (forall k :: Lowest(w) <= k < 64 ==> (w[k] <==> tbl.subs[p].mask[jj][k]))
      ensures !found ==> out && forall b: nat :: !Pending(p, b)
    {
      var sub := tbl.subs[p];
      jj, w, out := at, first, been;
      while jj < WORDS
        invariant at <= jj <= WORDS
        invariant !out ==> jj == at && w == first && !been
        invariant out ==> p > cur || (p == cur && lo <= jj * 64)
        invariant forall b: nat :: Pending(p, b) ==> (if out then jj * 64 else lo) <= b
        invariant jj == WORDS ==> out
      {
        if out {
          w := sub.mask[jj];
        }
        if !Empty(w) {
          found := true;
          FoundIn(p, jj, w, out);
          return;
        }
        NotIn(p, jj, w, out);
        out := true;
        jj := jj + 1;
      }
      found := false;
    }

    lemma FoundIn(p: nat, jj: nat, w: Word, out: bool)
      requires tbl.Shape() && p < HALF && Has(tbl.mask[..], p) && tbl.SubOk(p) && jj < WORDS && !Empty(w)
      requires out ==> w == tbl.subs[p].mask[jj] && (p > cur || (p == cur && lo <= jj * 64))
      requires !out ==> p == cur && jj * 64 <= lo <= jj * 64 + 64 && IsSuffix(w, tbl.subs[p].mask[jj], lo - jj * 64)
      requires forall b: nat :: Pending(p, b) ==> (if out then jj * 64 else lo) <= b
      ensures Pending(p, jj * 64 + Lowest(w)) && forall b: nat :: Pending(p, b) ==> jj * 64 + Lowest(w) <= b
    {
      var q2 := jj * 64 + Lowest(w);
      assert q2 / 64 == jj && q2 % 64 == Lowest(w) && tbl.subs[p].mask[..][jj] == tbl.subs[p].mask[jj];
      forall b: nat | Pending(p, b) ensures q2 <= b {
        assert b / 64 == jj ==> w[b % 64];
      }
    }

    lemma NotIn(p: nat, jj: nat, w: Word, out: bool)
      requires tbl.Shape() && p < HALF && Has(tbl.mask[..], p) && tbl.SubOk(p) && jj < WORDS && Empty(w)
      requires out ==> w == tbl.subs[p].mask[jj]
      requires !out ==> p == cur && jj * 64 <= lo <= jj * 64 + 64 && IsSuffix(w, tbl.subs[p].mask[jj], lo - jj * 64)
      requires forall b: nat :: Pending(p, b) ==> (if out then jj * 64 else lo) <= b
      ensures forall b: nat :: Pending(p, b) ==> (jj + 1) * 64 <= b
    {
      assert tbl.subs[p].mask[..][jj] == tbl.subs[p].mask[jj];
      forall b: nat | Pending(p, b) ensures (jj + 1) * 64 <= b {
        assert Has(tbl.subs[p].mask[..], b);
      }
    }

    /**
     The outcome of moving on from entry `l` of sub-table `c`: the first key from
     there on, with the iterator ready to go on behind it, or the end.
     */
    ghost predicate MovedFrom(c: nat, l: nat)
      reads this, tbl, tbl.mask, tbl.subs, tbl.repr
    {
      && tbl.Shape()
      && (IsEnd() ==> forall a, b :: 0 <= a < HALF && 0 <= b < HALF && tbl.Present(a, b) ==> Less(a, b, c, l))
      && (!IsEnd() ==>
            var q1, q2 := i * 64 + mi, j * 64 + mj;
            && Synced() && mi < 64 && mj < 64 && q1 < HALF && q2 < HALF && cur == q1 && lo == q2 + 1
            && tbl.Present(q1, q2) && !Less(q1, q2, c, l) && value == Some(tbl.subs[q1].entries[q2].value)
            && forall a, b :: 0 <= a < HALF && 0 <= b < HALF && tbl.Present(a, b) && !Less(a, b, c, l) ==> !Less(a, b, q1, q2))
    }

    /** Stores a position that has been found. */
    method Yield(ii: nat, jj: nat, n0: Word, n1: Word, p: nat)
      requires tbl.Shape() && this !in tbl.repr && ii < WORDS && jj < WORDS && !Empty(n0) && !Empty(n1)
      requires p == ii * 64 + Lowest(n0) && p < HALF && Has(tbl.mask[..], p) && tbl.SubOk(p)
      requires forall k :: Lowest(n0) <= k < 64 ==> (n0[k] <==> tbl.mask[ii][k])
      requires Pending(p, jj * 64 + Lowest(n1))
      requires forall a: nat, b: nat :: Pending(a, b) ==> !Less(a, b, p, jj * 64 + Lowest(n1))
      requires forall k :: Lowest(n1) <= k < 64 ==> (n1[k] <==> tbl.subs[p].mask[jj][k])
      modifies this
      ensures MovedFrom(old(cur), old(lo)) && !IsEnd()
    {
      hide Table.Shape, Table.Present, Has, Less, Lowest, Empty, Synced;
      ghost var q2 := jj * 64 + Lowest(n1);
      forall a, b | 0 <= a < HALF && 0 <= b < HALF && tbl.Present(a, b) && !Less(a, b, cur, lo) ensures !Less(a, b, p, q2) {
        assert Pending(a, b);
      }
      assert !Less(p, q2, cur, lo) && tbl.Present(p, q2) && q2 < HALF;
      mi, mj := Lowest(n0), Lowest(n1);
      i, j, m0, m1 := ii, jj, n0, n1[mj := false];
      value := Some(tbl.subs[p].entries[j * 64 + mj].value);
      cur, lo := p, q2 + 1;
      SyncedHere(n0, n1);
    }

    /** Right after a key has been found the saved words are up to date. */
    lemma SyncedHere(n0: Word, n1: Word)
      requires tbl.Shape() && this !in tbl.repr && i < WORDS && j < WORDS && !Empty(n0) && !Empty(n1) && mi == Lowest(n0) && mj == Lowest(n1)
      requires m0 == n0 && m1 == n1[mj := false] && cur == i * 64 + mi && lo == j * 64 + mj + 1
      requires cur < HALF && Has(tbl.mask[..], cur) && tbl.SubOk(cur)
      requires forall k :: Lowest(n0) <= k < 64 ==> (n0[k] <==> tbl.mask[i][k])
      requires forall k :: Lowest(n1) <= k < 64 ==> (n1[k] <==> tbl.subs[cur].mask[j][k])
      ensures Synced()
    {
      hide Table.Shape, Table.SubOk, Has;
    }

    /** Moves to the next key; the first word it looks at is not loaded again. */
    method Next()
      requires Synced()
      modifies this
      ensures MovedFrom(old(cur), old(lo))
    {
      hide Table.Shape, Table.Present, Table.SubOk, Has, Less, Lowest, Empty, Ahead, IsSuffix, MovedFrom, Pending;
      var ii, jj, n0, n1, out := i, j, m0, m1, false;
      StartAhead();
      while ii < WORDS
        invariant 0 <= ii <= WORDS && unchanged(this)
        invariant ii < WORDS ==> Ahead(ii, n0, out)
        invariant ii == WORDS ==> forall a: nat, b: nat :: !Pending(a, b)
        invariant !out ==> jj == j && n1 == m1
        invariant out ==> jj == 0
      {
        var found, p;
        found, jj, n0, n1, out, p := ScanWord(ii, jj, n0, n1, out);
        if found {
          Yield(ii, jj, n0, n1, p);
          return;
        }
        WordPassed(ii, n0, out);
        ii := ii + 1;
        if ii < WORDS {
          n0 := tbl.mask[ii];
        }
      }
      NoneLeft();
      i := END;
      AtEnd(old(cur), old(lo));
    }

    lemma StartAhead()
      requires Synced()
      ensures Ahead(i, m0, false)
    {
      forall a: nat, b: nat | Pending(a, b) ensures a >= i * 64 && (a < i * 64 + 64 ==> m0[a - i * 64]) {
        assert tbl.mask[..][a / 64] == tbl.mask[a / 64];
      }
    }

    lemma NoneLeft()
      requires tbl.Shape() && forall a: nat, b: nat :: !Pending(a, b)
      ensures forall a, b :: 0 <= a < HALF && 0 <= b < HALF && tbl.Present(a, b) ==> Less(a, b, cur, lo)
    {
      hide Table.Shape, Table.Present, Less;
      forall a, b | 0 <= a < HALF && 0 <= b < HALF && tbl.Present(a, b) ensures Less(a, b, cur, lo) {
        assert !Pending(a, b);
      }
    }

    lemma AtEnd(c: nat, l: nat)
      requires tbl.Shape() && IsEnd()
      requires forall a, b :: 0 <= a < HALF && 0 <= b < HALF && tbl.Present(a, b) ==> Less(a, b, c, l)
      ensures MovedFrom(c, l)
    {
      hide Table.Shape, Table.Present, Less;
    }

    /** What is still to come lies in the sub-tables of `n0` and behind word `ii`. */
    ghost predicate Ahead(ii: nat, n0: Word, out: bool)
      requires tbl.Shape() && ii < WORDS
      reads this, tbl, tbl.mask, tbl.subs, tbl.repr
    {
      && (forall a: nat, b: nat :: Pending(a, b) ==> a >= ii * 64 && (a < ii * 64 + 64 ==> n0[a - ii * 64]))
      && (forall k, m :: 0 <= k <= m < 64 && n0[k] ==> (n0[m] <==> tbl.mask[ii][m]))
      && (out ==> forall k :: 0 <= k < 64 && n0[k] ==> ii * 64 + k > cur)
      && (!out ==> ii * 64 <= cur && Synced() && IsSuffix(n0, tbl.mask[ii], cur - ii * 64) && forall p :: ii * 64 + 64 <= p < cur ==> !Has(tbl.mask[..], p))
      && (out ==> cur < (ii + 1) * 64)
    }

    /** Looks for a bit in the sub-tables of one word of the mask. */
    method ScanWord(ii: nat, at: nat, rest: Word, first: Word, been: bool)
      returns (found: bool, jj: nat, n0: Word, n1: Word, out: bool, p: nat)
      requires tbl.Shape() && ii < WORDS && Ahead(ii, rest, been)
      requires !been ==> at == j && first == m1
      requires been ==> at == 0
      ensures found ==>
                && jj < WORDS && !Empty(n0) && !Empty(n1)
                && p == ii * 64 + Lowest(n0) && p < HALF && Has(tbl.mask[..], p) && tbl.SubOk(p)
                && (forall k :: Lowest(n0) <= k < 64 ==> (n0[k] <==> tbl.mask[ii][k]))
                && Pending(p, jj * 64 + Lowest(n1))
                && (forall a: nat, b: nat :: Pending(a, b) ==> !Less(a, b, p, jj * 64 + Lowest(n1)))
                && (forall k :: Lowest(n1) <= k < 64 ==> (n1[k] <==> tbl.subs[p].mask[jj][k]))
      ensures !found ==> Empty(n0) && Ahead(ii, n0, out) && (!out ==> jj == j && n1 == m1) && (out ==> jj == 0)
    {
      hide Has, Table.Shape, Table.SubOk, Ahead, Pending, Lowest, Empty, IsSuffix;
      jj, n0, n1, out, p, found := at, rest, first, been, 0, false;
      ghost var bits := 64;
      while !Empty(n0)
        invariant Ahead(ii, n0, out) && (!out ==> jj == j && n1 == m1) && (out ==> jj == 0)
        invariant 0 <= bits <= 64 && forall k :: 0 <= k < 64 - bits ==> !n0[k]
        decreases bits
      {
        var bit := Lowest(n0);
        p := ii * 64 + bit;
        SubAhead(ii, n0, out);
        ghost var been' := out;
        found, jj, n1, out := ScanSub(p, jj, n1, out);
        if found {
          NothingBefore(ii, n0, p, been');
          return;
        }
        SubPassed(ii, n0, p, been');
        jj, n0, bits := 0, n0[bit := false], 63 - bit;
      }
    }

    lemma SubAhead(ii: nat, n0: Word, out: bool)
      requires tbl.Shape() && ii < WORDS && Ahead(ii, n0, out) && !Empty(n0)
      ensures var p := ii * 64 + Lowest(n0); p < HALF && Has(tbl.mask[..], p) && tbl.SubOk(p) && (if out then p > cur else p == cur)
      ensures !out ==> j < WORDS && j * 64 <= lo <= j * 64 + 64 && IsSuffix(m1, tbl.subs[cur].mask[j], lo - j * 64)
    {
      var p := ii * 64 + Lowest(n0);
      assert p / 64 == ii && p % 64 == Lowest(n0) && tbl.mask[..][ii] == tbl.mask[ii];
      assert Has(tbl.mask[..], p) && tbl.SubOk(p);
      if !out && cur < HALF {
        assert cur / 64 < WORDS && tbl.mask[..][cur / 64] == tbl.mask[cur / 64];
      }
    }

    lemma NothingBefore(ii: nat, n0: Word, p: nat, out: bool)
      requires tbl.Shape() && ii < WORDS && !Empty(n0) && p == ii * 64 + Lowest(n0) && Ahead(ii, n0, out)
      ensures forall a: nat, b: nat :: Pending(a, b) ==> a >= p
      ensures forall k :: Lowest(n0) <= k < 64 ==> (n0[k] <==> tbl.mask[ii][k])
    {
      forall a: nat, b: nat | Pending(a, b) ensures a >= p {
        assert a < ii * 64 + 64 ==> n0[a - ii * 64];
      }
    }

    lemma SubPassed(ii: nat, n0: Word, p: nat, out: bool)
      requires tbl.Shape() && ii < WORDS && !Empty(n0) && p == ii * 64 + Lowest(n0) && p >= cur
      requires Ahead(ii, n0, out)
      requires forall b: nat :: !Pending(p, b)
      ensures Ahead(ii, n0[Lowest(n0) := false], true)
    {
      var bit := Lowest(n0);
      var n := n0[bit := false];
      forall a: nat, b: nat | Pending(a, b) ensures a >= ii * 64 && (a < ii * 64 + 64 ==> n[a - ii * 64]) {
        assert a != p;
      }
    }

    lemma WordPassed(ii: nat, n0: Word, out: bool)
      requires tbl.Shape() && ii < WORDS && Ahead(ii, n0, out) && Empty(n0)
      ensures ii + 1 < WORDS ==> Ahead(ii + 1, tbl.mask[ii + 1], out)
      ensures ii + 1 == WORDS ==> forall a: nat, b: nat :: !Pending(a, b)
      ensures tbl.mask.Length == WORDS
    {
      if !out && cur < HALF {
        assert tbl.mask[..][cur / 64] == tbl.mask[cur / 64] && Has(tbl.mask[..], cur);
      }
      if ii + 1 < WORDS {
        forall a: nat, b: nat | Pending(a, b) ensures a >= (ii + 1) * 64 && (a < (ii + 1) * 64 + 64 ==> tbl.mask[ii + 1][a - (ii + 1) * 64]) {
          assert a / 64 < WORDS && tbl.mask[..][a / 64] == tbl.mask[a / 64];
        }
        if !out {
          var next := tbl.mask[ii + 1];
          forall k | 0 <= k < 64 && k < cur - (ii + 1) * 64 ensures !next[k] {
            var p := (ii + 1) * 64 + k;
            assert p / 64 == ii + 1 && p % 64 == k && tbl.mask[..][ii + 1] == tbl.mask[ii + 1];
            assert !Has(tbl.mask[..], p);
          }
        }
      }
    }
  }

  // ----- whole iterations

  /** Keys that an iteration does not visit: those in word 0 of a first sub-table other than sub-table 0. */
  ghost predicate Skipped(mask: seq<Word>, k: nat) {
    !Has(mask, 0) && Part1(k) == FirstSub(mask, 0) && Part2(k) < 64
  }

  /** Unsetting a key that an iterator has passed, or stands on, does not disturb it. */
  twostate lemma UnsetKeepsSynced<V(0)>(it: Iterator<V>, new p1: nat, new p2: nat)
    requires old(it.Synced()) && unchanged(it) && it !in it.tbl.repr
    requires Less(p1, p2, it.cur, it.lo) && it.tbl.OnlyBit(p1, p2, false)
    ensures it.Synced()
  {
    var tbl := it.tbl;
    assert tbl.mask[it.i] == tbl.mask[..][it.i] == old(tbl.mask[..])[it.i] == old(tbl.mask[it.i]);
    if it.cur < HALF {
      assert tbl.SubOk(it.cur);
      assert tbl.subs[it.cur] == tbl.subs[..][it.cur] == old(tbl.subs[..])[it.cur] == old(tbl.subs[it.cur]);
      var w := tbl.subs[it.cur].mask[it.j];
    }
  }

  /** Key `k` comes before position (c, l). */
  ghost predicate Below(k: nat, c: nat, l: nat) { Less(Part1(k), Part2(k), c, l) }

  /** What a move says about the keys of the table. */
  lemma MovedKeys<V(0)>(it: Iterator<V>, c: nat, l: nat)
    requires it.tbl.Valid() && it.MovedFrom(c, l)
    ensures it.IsEnd() ==> forall k :: k in it.tbl.contents ==> Below(k, c, l)
    ensures !it.IsEnd() ==>
              && it.Synced() && 0 < it.lo <= HALF && it.cur < HALF && it.j * 64 < it.lo
              && it.cur == it.i * 64 + it.mi && it.lo - 1 == it.j * 64 + it.mj
              && var key := MakeKey(it.cur, it.lo - 1);
                 && key in it.tbl.contents && it.value == Some(it.tbl.contents[key]) && key % KEYS == key
                 && Part1(key) == it.cur && Part2(key) == it.lo - 1 && !Below(key, c, l)
                 && forall k :: k in it.tbl.contents && !Below(k, c, l) ==> k == key || !Below(k, it.cur, it.lo)
  {
    var tbl := it.tbl;
    forall k | k in tbl.contents
      ensures tbl.Present(Part1(k), Part2(k)) && MakeKey(Part1(k), Part2(k)) == k
    {
      HalvesIdentify(k);
      assert k % KEYS == k;
      assert tbl.EntryOk(Part1(k), Part2(k));
    }
    if !it.IsEnd() {
      var q1, q2 := it.cur, it.lo - 1;
      assert tbl.EntryOk(q1, q2);
      KeyHasHalves(q1, q2);
      HalvesIdentify(MakeKey(q1, q2));
    }
  }

  /** Everything below the start of an iteration is skipped. */
  lemma BelowStart<V(0)>(tbl: Table<V>, k: nat)
    requires tbl.Valid() && k in tbl.contents
    ensures Below(k, FirstSub(tbl.mask[..], 0), StartEntry(tbl.mask[..])) <==> Skipped(tbl.mask[..], k)
  {
    HalvesIdentify(k);
    assert k % KEYS == k;
    assert tbl.EntryOk(Part1(k), Part2(k));
    assert Has(tbl.mask[..], Part1(k));
    assert Has(tbl.mask[..], 0) ==> FirstSub(tbl.mask[..], 0) == 0;
  }

  /**
   The loop of switch_unlink_notify: unsets, while iterating, every key with the
   given value that the iteration visits.
   */
  method RemoveMatching<V(0, ==)>(tbl: Table<V>, v: V)
    requires tbl.Valid()
    modifies tbl.repr
    ensures tbl.Valid() && tbl.repr == old(tbl.repr)
    ensures forall k :: k in tbl.contents <==> k in old(tbl.contents) && (old(tbl.contents)[k] != v || Skipped(old(tbl.mask[..]), k))
    ensures forall k :: k in tbl.contents ==> tbl.contents[k] == old(tbl.contents)[k]
  {
    hide Table.Valid, Iterator.Synced, Iterator.MovedFrom, Less, Below, FirstSub, StartEntry, Skipped, Part1, Part2, MakeKey, Table.OnlyBit;
    ghost var was, masks := tbl.contents, tbl.mask[..];
    ghost var c: nat, l: nat := FirstSub(masks, 0), StartEntry(masks);
    var it := new Iterator<V>(tbl);
    MovedKeys(it, c, l);
    forall k | k in was ensures Below(k, c, l) <==> Skipped(masks, k) { BelowStart(tbl, k); }
    while !it.IsEnd()
      invariant tbl.Valid() && tbl.repr == old(tbl.repr) && it.tbl == tbl && tbl.mask[..] == masks && it !in tbl.repr && fresh(it)
      invariant it.MovedFrom(c, l)
      invariant RemovedBelow(was, tbl.contents, masks, v, c, l)
      invariant forall k :: k in was && Skipped(masks, k) ==> Below(k, c, l)
      invariant c <= HALF && l <= HALF
      decreases !it.IsEnd(), HALF - c, HALF - l
    {
      MovedKeys(it, c, l);
      ghost var key, now := MakeKey(it.cur, it.lo - 1), tbl.contents;
      Advances(key, c, l);
      OnlyThatKey(tbl, key);
      if it.value == Some(v) {
        var mac := MakeKey(it.i * 64 + it.mi, it.j * 64 + it.mj);
        PassedNow(key);
        UnsetPassed(it, mac);
      }
      RemoveStep(was, now, tbl.contents, masks, v, key, c, l);
      c, l := it.cur, it.lo;
      it.Next();
    }
    MovedKeys(it, c, l);
  }

  lemma PassedNow(key: nat)
    ensures Below(key, Part1(key), Part2(key) + 1)
  {
  }

  /** The matching keys below a position are gone, unless skipped; all others are kept. */
  ghost predicate RemovedBelow<V>(was: map<nat, V>, now: map<nat, V>, masks: seq<Word>, v: V, c: nat, l: nat) {
    && (forall k :: k in now <==> k in was && (was[k] != v || Skipped(masks, k) || !Below(k, c, l)))
    && (forall k :: k in now ==> now[k] == was[k])
  }

  lemma RemoveStep<V>(was: map<nat, V>, now: map<nat, V>, now': map<nat, V>, masks: seq<Word>, v: V, key: nat, c: nat, l: nat)
    requires RemovedBelow(was, now, masks, v, c, l) && key in now && !Below(key, c, l)
    requires forall k :: k in was && Skipped(masks, k) ==> Below(k, c, l)
    requires forall k :: k in now && !Below(k, c, l) ==> k == key || !Below(k, Part1(key), Part2(key) + 1)
    requires now' == if now[key] == v then now - {key} else now
    ensures RemovedBelow(was, now', masks, v, Part1(key), Part2(key) + 1)
  {
    Advances(key, c, l);
    hide Less, Skipped, Below, Part1, Part2;
  }

  lemma Advances(key: nat, c: nat, l: nat)
    ensures !Below(key, c, l) ==> Part1(key) > c || (Part1(key) == c && Part2(key) >= l)
    ensures !Below(key, c, l) ==> forall k :: Below(k, c, l) ==> Below(k, Part1(key), Part2(key))
    ensures forall k :: Below(k, Part1(key), Part2(key) + 1) <==> Below(k, Part1(key), Part2(key)) || (Part1(k) == Part1(key) && Part2(k) == Part2(key))
  {
  }

  /** Every key yields to the one after it. */
  ghost predicate Increasing(keys: seq<nat>) {
    forall i, j :: 0 <= i < j < |keys| ==> Less(Part1(keys[i]), Part2(keys[i]), Part1(keys[j]), Part2(keys[j]))
  }

  /** PG_MAC_TABLE_FOREACH_PTR: the keys that are not skipped, each once, in order. */
  method Keys<V(0)>(tbl: Table<V>) returns (keys: seq<nat>, values: seq<V>)
    requires tbl.Valid()
    ensures Increasing(keys) && |keys| == |values|
    ensures forall k :: k in keys <==> k in tbl.contents && !Skipped(tbl.mask[..], k)
    ensures forall i :: 0 <= i < |keys| ==> keys[i] in tbl.contents && values[i] == tbl.contents[keys[i]]
  {
    hide Table.Valid, Iterator.Synced, Iterator.MovedFrom, Less, Below, FirstSub, StartEntry, Skipped, Part1, Part2, MakeKey;
    ghost var masks := tbl.mask[..];
    ghost var c: nat, l: nat := FirstSub(masks, 0), StartEntry(masks);
    keys, values := [], [];
    var it := new Iterator<V>(tbl);
    MovedKeys(it, c, l);
    forall k | k in tbl.contents ensures Below(k, c, l) <==> Skipped(masks, k) { BelowStart(tbl, k); }
    while !it.IsEnd()
      invariant c <= HALF && l <= HALF && it.tbl == tbl && tbl.Valid() && fresh(it) && it !in tbl.repr
      invariant it.MovedFrom(c, l)
      invariant Increasing(keys) && |keys| == |values|
      invariant forall k :: k in keys ==> Below(k, c, l)
      invariant forall k :: k in keys <==> k in tbl.contents && !Skipped(masks, k) && Below(k, c, l)
      invariant forall k :: k in tbl.contents && Skipped(masks, k) ==> Below(k, c, l)
      invariant forall i :: 0 <= i < |keys| ==> keys[i] in tbl.contents && values[i] == tbl.contents[keys[i]]
      decreases !it.IsEnd(), HALF - c, HALF - l
    {
      MovedKeys(it, c, l);
      var key := MakeKey(it.i * 64 + it.mi, it.j * 64 + it.mj);
      Advances(key, c, l);
      Append(keys, key, c, l);
      keys, values := keys + [key], values + [it.value.value];
      c, l := it.cur, it.lo;
      it.Next();
      OnlyThatKey(tbl, key);
    }
    MovedKeys(it, c, l);
  }

  /** Key `k` is unset after one of the moves, where `drop` says what to unset after the keys so far. */
  ghost predicate Dropped(drop: seq<nat> -> seq<nat>, keys: seq<nat>, k: nat) {
    exists n :: 0 < n <= |keys| && k in drop(keys[..n])
  }

  /**
   An iteration during which, after every move, any keys that it has already
   visited may be unset: it still visits the keys that were there at the start
   and are not skipped, each once, in order, with the value it had.
   */
  method KeysWhileUnsetting<V(0)>(tbl: Table<V>, drop: seq<nat> -> seq<nat>) returns (keys: seq<nat>, values: seq<V>)
    requires tbl.Valid() && forall seen, k :: k in drop(seen) ==> k in seen
    modifies tbl.repr
    ensures tbl.Valid() && tbl.repr == old(tbl.repr)
    ensures Increasing(keys) && |keys| == |values|
    ensures forall k :: k in keys <==> k in old(tbl.contents) && !Skipped(old(tbl.mask[..]), k)
    ensures forall i :: 0 <= i < |keys| ==> keys[i] in old(tbl.contents) && values[i] == old(tbl.contents)[keys[i]]
    ensures forall k :: k in tbl.contents <==> k in old(tbl.contents) && !Dropped(drop, keys, k)
    ensures forall k :: k in tbl.contents ==> tbl.contents[k] == old(tbl.contents)[k]
  {
    hide Table.Valid, Iterator.Synced, Iterator.MovedFrom, Less, Below, FirstSub, StartEntry, Skipped, Part1, Part2, MakeKey, Dropped, Increasing;
    ghost var was, masks := tbl.contents, tbl.mask[..];
    ghost var c: nat, l: nat := FirstSub(masks, 0), StartEntry(masks);
    keys, values := [], [];
    var it := new Iterator<V>(tbl);
    MovedKeys(it, c, l);
    forall k | k in was ensures Below(k, c, l) <==> Skipped(masks, k) { BelowStart(tbl, k); }
    NothingYet(was, masks, drop, c, l);
    KeysBounded(tbl);
    while !it.IsEnd()
      invariant c <= HALF && l <= HALF && it.tbl == tbl && tbl.Valid() && fresh(it) && it !in tbl.repr
      invariant tbl.repr == old(tbl.repr) && tbl.mask[..] == masks && it.MovedFrom(c, l)
      invariant Visited(was, masks, keys, values, c, l) && Remaining(was, tbl.contents, drop, keys)
      decreases !it.IsEnd(), HALF - c, HALF - l
    {
      MovedKeys(it, c, l);
      var key := MakeKey(it.i * 64 + it.mi, it.j * 64 + it.mj);
      ghost var before := keys;
      Advances(key, c, l);
      VisitStep(was, tbl.contents, masks, drop, keys, values, key, c, l);
      keys, values := keys + [key], values + [it.value.value];
      c, l := it.cur, it.lo;
      KeysPassed(was, masks, keys, values, c, l);
      UnsetAll(it, drop(keys));
      DropStep(drop, before, key);
      it.Next();
    }
    MovedKeys(it, c, l);
    NotDropped(was, tbl.contents, masks, drop, keys, values, c, l);
  }

  lemma KeysBounded<V(0)>(tbl: Table<V>)
    requires tbl.Valid()
    ensures forall k :: k in tbl.contents ==> k < KEYS
  {
  }

  /** The keys visited so far: those below a position that are not skipped, in order, with their first values. */
  ghost predicate Visited<V>(was: map<nat, V>, masks: seq<Word>, keys: seq<nat>, values: seq<V>, c: nat, l: nat) {
    && Increasing(keys) && |keys| == |values|
    && (forall k :: k in keys <==> k in was && !Skipped(masks, k) && Below(k, c, l))
    && (forall k :: k in was && Skipped(masks, k) ==> Below(k, c, l))
    && (forall i :: 0 <= i < |keys| ==> keys[i] in was && values[i] == was[keys[i]])
  }

  /** What is left of the table. */
  ghost predicate Remaining<V>(was: map<nat, V>, now: map<nat, V>, drop: seq<nat> -> seq<nat>, keys: seq<nat>) {
    && (forall k :: k in now <==> k in was && !Dropped(drop, keys, k))
    && (forall k :: k in now ==> now[k] == was[k])
  }

  lemma KeysPassed<V>(was: map<nat, V>, masks: seq<Word>, keys: seq<nat>, values: seq<V>, c: nat, l: nat)
    requires Visited(was, masks, keys, values, c, l)
    ensures forall k :: k in keys ==> k in was && Below(k, c, l)
  {
    hide Skipped, Below, Increasing;
  }

  lemma NothingYet<V>(was: map<nat, V>, masks: seq<Word>, drop: seq<nat> -> seq<nat>, c: nat, l: nat)
    requires forall k :: k in was ==> (Below(k, c, l) <==> Skipped(masks, k))
    ensures Visited(was, masks, [], [], c, l) && Remaining(was, was, drop, [])
  {
    hide Skipped, Below;
  }

  /** The next key of the table as it is now is the next one of the table as it was. */
  lemma VisitStep<V>(was: map<nat, V>, now: map<nat, V>, masks: seq<Word>, drop: seq<nat> -> seq<nat>,
                     keys: seq<nat>, values: seq<V>, key: nat, c: nat, l: nat)
    requires forall seen, k :: k in drop(seen) ==> k in seen
    requires Visited(was, masks, keys, values, c, l) && Remaining(was, now, drop, keys) && key in now && !Below(key, c, l)
    requires forall k :: k in now && !Below(k, c, l) ==> k == key || !Below(k, Part1(key), Part2(key) + 1)
    ensures Visited(was, masks, keys + [key], values + [now[key]], Part1(key), Part2(key) + 1)
  {
    Advances(key, c, l);
    Append(keys, key, c, l);
    hide Less, Skipped, Below, Part1, Part2, Increasing, Remaining;
    NotDropped(was, now, masks, drop, keys, values, c, l);
    assert now[key] == was[key] by { Kept(was, now, drop, keys, key); }
  }

  lemma Kept<V>(was: map<nat, V>, now: map<nat, V>, drop: seq<nat> -> seq<nat>, keys: seq<nat>, key: nat)
    requires Remaining(was, now, drop, keys) && key in now
    ensures key in was && now[key] == was[key]
  {
    hide Dropped;
  }

  /** The keys ahead are all still there. */
  lemma NotDropped<V>(was: map<nat, V>, now: map<nat, V>, masks: seq<Word>, drop: seq<nat> -> seq<nat>,
                      keys: seq<nat>, values: seq<V>, c: nat, l: nat)
    requires forall seen, k :: k in drop(seen) ==> k in seen
    requires Visited(was, masks, keys, values, c, l) && Remaining(was, now, drop, keys)
    ensures forall k :: k in was && !Below(k, c, l) ==> k in now
  {
    hide Less, Skipped, Below, Increasing;
    forall k | k in was && !Below(k, c, l) ensures k in now {
      forall n | 0 < n <= |keys| ensures k !in drop(keys[..n]) { assert k !in keys[..n]; }
    }
  }

  lemma DropStep(drop: seq<nat> -> seq<nat>, keys: seq<nat>, key: nat)
    ensures forall k :: Dropped(drop, keys + [key], k) <==> Dropped(drop, keys, k) || k in drop(keys + [key])
  {
    var more := keys + [key];
    assert more[..|more|] == more;
    forall n | 0 < n <= |keys| ensures more[..n] == keys[..n] {}
    forall k ensures Dropped(drop, more, k) <==> Dropped(drop, keys, k) || k in drop(more) {
      if Dropped(drop, keys, k) {
        var n :| 0 < n <= |keys| && k in drop(keys[..n]);
        assert k in drop(more[..n]);
      }
      if k in drop(more) {
        assert k in drop(more[..|more|]);
      }
      if Dropped(drop, more, k) && k !in drop(more) {
        var n :| 0 < n <= |more| && k in drop(more[..n]);
        assert k in drop(keys[..n]);
      }
    }
  }

  /** Unsets keys that the iterator has passed. */
  method UnsetAll<V(0)>(it: Iterator<V>, ks: seq<nat>)
    requires it.tbl.Valid() && it.Synced() && it !in it.tbl.repr
    requires forall k :: k in ks ==> k < KEYS && Below(k, it.cur, it.lo)
    modifies it.tbl.repr
    ensures it.tbl.Valid() && it.Synced() && it.tbl.repr == old(it.tbl.repr) && it.tbl.mask[..] == old(it.tbl.mask[..])
    ensures forall k :: k in it.tbl.contents <==> k in old(it.tbl.contents) && k !in ks
    ensures forall k :: k in it.tbl.contents ==> it.tbl.contents[k] == old(it.tbl.contents)[k]
  {
    hide Table.Valid, Iterator.Synced, Below, Table.OnlyBit;
    for n := 0 to |ks|
      invariant it.tbl.Valid() && it.Synced() && it.tbl.repr == old(it.tbl.repr) && it.tbl.mask[..] == old(it.tbl.mask[..])
      invariant forall k :: k in it.tbl.contents <==> k in old(it.tbl.contents) && k !in ks[..n]
      invariant forall k :: k in it.tbl.contents ==> it.tbl.contents[k] == old(it.tbl.contents)[k]
    {
      assert ks[n] in ks;
      UnsetPassed(it, ks[n]);
      assert ks[..n + 1] == ks[..n] + [ks[n]];
    }
    assert ks[..|ks|] == ks;
  }

  method UnsetPassed<V(0)>(it: Iterator<V>, key: nat)
    requires it.tbl.Valid() && it.Synced() && it !in it.tbl.repr && key < KEYS && Below(key, it.cur, it.lo)
    modifies it.tbl.repr
    ensures it.tbl.Valid() && it.Synced() && it.tbl.repr == old(it.tbl.repr) && it.tbl.mask[..] == old(it.tbl.mask[..])
    ensures it.tbl.contents == old(it.tbl.contents) - {key}
  {
    hide Table.Valid, Iterator.Synced, Less, Part1, Part2;
    var _ := it.tbl.Unset(key);
    UnsetKeepsSynced(it, Part1(key), Part2(key));
  }

  lemma Append(keys: seq<nat>, key: nat, c: nat, l: nat)
    requires Increasing(keys) && (forall k :: k in keys ==> Below(k, c, l)) && !Below(key, c, l)
    ensures Increasing(keys + [key])
    ensures forall k :: k in keys ==> Below(k, Part1(key), Part2(key) + 1)
  {
    var more := keys + [key];
    forall i, j | 0 <= i < j < |more| ensures Less(Part1(more[i]), Part2(more[i]), Part1(more[j]), Part2(more[j])) {
      if j == |keys| { assert keys[i] in keys; }
    }
  }

  /** Keys of a table are told apart by their halves. */
  lemma OnlyThatKey<V(0)>(tbl: Table<V>, key: nat)
    requires tbl.Valid() && key in tbl.contents
    ensures forall k :: k in tbl.contents && Part1(k) == Part1(key) && Part2(k) == Part2(key) ==> k == key
  {
    HalvesIdentify(key);
    forall k | k in tbl.contents && Part1(k) == Part1(key) && Part2(k) == Part2(key) ensures k == key {
      HalvesIdentify(k);
      assert k % KEYS == k && key % KEYS == key;
    }
  }

  /** An iteration is complete exactly if sub-table 0 is present or word 0 of the first sub-table is empty. */
  lemma CompleteIff<V(0)>(tbl: Table<V>)
    requires tbl.Valid()
    ensures var first := FirstSub(tbl.mask[..], 0);
            (forall k :: k in tbl.contents ==> !Skipped(tbl.mask[..], k)) <==>
            Has(tbl.mask[..], 0) || first == HALF || (tbl.SubOk(first) && Empty(tbl.subs[first].mask[0]))
  {
    var first := FirstSub(tbl.mask[..], 0);
    if first < HALF {
      assert tbl.SubOk(first);
      var w := tbl.subs[first].mask[0];
      assert tbl.subs[first].mask[..][0] == w;
      if !Has(tbl.mask[..], 0) && !Empty(w) {
        var b := Lowest(w);
        assert tbl.EntryOk(first, b);
        KeyHasHalves(first, b);
        assert Skipped(tbl.mask[..], MakeKey(first, b));
      }
      forall k | k in tbl.contents && Skipped(tbl.mask[..], k) ensures !Empty(w) {
        HalvesIdentify(k);
        assert k % KEYS == k;
        assert tbl.EntryOk(first, Part2(k));
      }
    }
  }

  /** A table whose only key is 01:00:00:00:00:00 looks empty to an iteration. */
  method SkipsOnlyKey<V(0)>(v: V) returns (it: Iterator<V>)
    ensures it.tbl.Valid() && it.tbl.contents == map[1 := v] && it.IsEnd()
  {
    var tbl := new Table<V>();
    tbl.Set(1, v);
    it := new Iterator<V>(tbl);
    ghost var masks := tbl.mask[..];
    assert Has(masks, 1) && !Has(masks, 0) && FirstSub(masks, 0) == 1;
    MovedKeys(it, FirstSub(masks, 0), StartEntry(masks));
  }
}
