/**
 The two-level table of MAC addresses.

 The low three bytes of an address select a sub-table, the next three an entry
 in it; bit masks say which sub-tables and entries are present.  A 64-bit word
 is modelled by its bits.
 */
module MacTable {

  import opened Cardinality
  import opened Options

  const HALF: nat := 0x1000000   // values of half an address
  const WORDS: nat := 0x40000    // words in a mask
  const KEYS: nat := 0x1000000000000

  type Word = w: seq<bool> | |w| == 64 witness seq(64, _ => false)

  const ZERO: Word := seq(64, _ => false)

  predicate Empty(w: Word) { forall k :: 0 <= k < 64 ==> !w[k] }

  // ----- addresses

  /** The first three bytes; addresses are read as little-endian 64-bit words. */
  function Part1(mac: nat): (r: nat)
    ensures r < HALF
  {
    mac % HALF
  }

  /** The next three bytes; whatever follows in memory is masked off. */
  function Part2(mac: nat): (r: nat)
    ensures r < HALF
  {
    mac / HALF % HALF
  }

  /** The address an iterator rebuilds from its position. */
  function MakeKey(p1: nat, p2: nat): nat { p1 + p2 * HALF }

  /** The two halves identify the first six bytes of an address, and nothing else. */
  lemma HalvesIdentify(mac: nat)
    ensures MakeKey(Part1(mac), Part2(mac)) == mac % KEYS < KEYS
  {
    var q := mac / HALF;
    assert mac == q * HALF + Part1(mac);
    assert q == q / HALF * HALF + Part2(mac);
    assert mac == (q / HALF) * KEYS + Part2(mac) * HALF + Part1(mac);
    Remainder(mac, q / HALF, Part2(mac) * HALF + Part1(mac));
  }

  lemma Remainder(n: nat, q: nat, r: nat)
    requires n == q * KEYS + r && r < KEYS
    ensures n % KEYS == r
  {
  }

  lemma KeyHasHalves(p1: nat, p2: nat)
    requires p1 < HALF && p2 < HALF
    ensures Part1(MakeKey(p1, p2)) == p1 && Part2(MakeKey(p1, p2)) == p2 && MakeKey(p1, p2) < KEYS
  {
    var k := MakeKey(p1, p2);
    assert k / HALF == p2;
  }

  // ----- masks

  predicate Has(mask: seq<Word>, p: nat) { p / 64 < |mask| && mask[p / 64][p % 64] }

  /** The position of the lowest bit of a word that has one. */
  function Lowest(w: Word): (r: nat)
    requires !Empty(w)
    ensures r < 64 && w[r] && forall k :: 0 <= k < r ==> !w[k]
  {
    LowestFrom(w, 0)
  }

  function LowestFrom(w: Word, k: nat): (r: nat)
    requires k < 64 && !Empty(w) && forall i :: 0 <= i < k ==> !w[i]
    ensures r < 64 && w[r] && forall i :: 0 <= i < r ==> !w[i]
    decreases 64 - k
  {
    if w[k] then k
    else
      assert k == 63 ==> Empty(w);
      LowestFrom(w, k + 1)
  }

  /** A bit set or cleared changes the presence of one position only. */
  lemma HasUpdate(mask: seq<Word>, p: nat, on: bool, q: nat)
    requires p / 64 < |mask|
    ensures var mask' := mask[p / 64 := mask[p / 64][p % 64 := on]];
            Has(mask', q) <==> if q == p then on else Has(mask, q)
  {
  }

  // ----- counting bits

  function PopCount(w: seq<bool>): nat {
    if w == [] then 0 else PopCount(w[..|w| - 1]) + (if w[|w| - 1] then 1 else 0)
  }

  ghost function Bits(w: seq<bool>): set<nat> { set k | 0 <= k < |w| && w[k] }

  lemma {:induction false} PopCountIsSize(w: seq<bool>)
    ensures |Bits(w)| == PopCount(w)
  {
    if w != [] {
      var n := |w| - 1;
      PopCountIsSize(w[..n]);
      assert Bits(w) == Bits(w[..n]) + if w[n] then {n} else {};
    }
  }

  /** The keys of one word of a sub-table. */
  ghost function WordKeys(p1: nat, j: nat, w: Word): set<nat> {
    set k | k in Bits(w) :: MakeKey(p1, j * 64 + k)
  }

  lemma WordKeysSize(p1: nat, j: nat, w: Word)
    requires p1 < HALF && j < WORDS
    ensures |WordKeys(p1, j, w)| == PopCount(w)
  {
    var m := map k | k in Bits(w) :: MakeKey(p1, j * 64 + k);
    forall a, b | a in m && b in m && m[a] == m[b] ensures a == b {
      KeyHasHalves(p1, j * 64 + a);
      KeyHasHalves(p1, j * 64 + b);
    }
    SameSize(m);
    assert m.Keys == Bits(w) && m.Values == WordKeys(p1, j, w);
    PopCountIsSize(w);
  }

  /** An entry of a sub-table. */
  datatype Entry<V> = Entry(value: V)

  class SubTable<V(0)> {
    const mask: array<Word>
    const entries: array<Entry<V>>

    constructor ()
      ensures fresh(mask) && fresh(entries) && mask.Length == WORDS && entries.Length == HALF
      ensures forall k :: 0 <= k < WORDS ==> mask[k] == ZERO
    {
      mask := new Word[WORDS](_ => ZERO);
      entries := new Entry<V>[HALF];
    }
  }

  class Table<V(0)> {
    const mask: array<Word>
    const subs: array<SubTable?<V>>
    ghost var contents: map<nat, V>
    ghost var repr: set<object>

    /** The sub-table at `p` is there and belongs to this table. */
    ghost predicate SubOk(p: nat)
      reads this, subs
    {
      && p < subs.Length && subs[p] != null && subs[p] in repr && subs[p].mask in repr && subs[p].entries in repr
      && subs[p].mask.Length == WORDS && subs[p].entries.Length == HALF && subs[p].mask != mask
    }

    /** Different sub-tables share nothing. */
    ghost predicate Apart(p: nat, q: nat)
      reads subs
      requires p < subs.Length && q < subs.Length && subs[p] != null && subs[q] != null
    {
      p != q ==> subs[p] != subs[q] && subs[p].mask != subs[q].mask && subs[p].entries != subs[q].entries
    }

    /** The masks and pointers are in order. */
    ghost predicate Shape()
      reads this, mask, subs
    {
      && this in repr && mask in repr && subs in repr && mask.Length == WORDS && subs.Length == HALF
      && (forall p {:trigger SubOk(p)} :: 0 <= p < HALF && Has(mask[..], p) ==> SubOk(p))
      && (forall p, q {:trigger Apart(p, q)} ::
            0 <= p < HALF && 0 <= q < HALF && Has(mask[..], p) && Has(mask[..], q) && SubOk(p) && SubOk(q) ==> Apart(p, q))
    }

    /** Whether an entry is present. */
    ghost predicate Present(p1: nat, p2: nat)
      requires Shape() && p1 < HALF
      reads this, mask, subs, repr
    {
      Has(mask[..], p1) && SubOk(p1) && Has(subs[p1].mask[..], p2)
    }

    ghost predicate EntryOk(p1: nat, p2: nat)
      requires Shape() && p1 < HALF && p2 < HALF
      reads this, mask, subs, repr
    {
      && (MakeKey(p1, p2) in contents <==> Present(p1, p2))
      && (Present(p1, p2) ==> SubOk(p1) && subs[p1].entries[p2].value == contents[MakeKey(p1, p2)])
    }

    ghost predicate Valid()
      reads this, mask, subs, repr
    {
      && Shape()
      && (forall k :: k in contents ==> k < KEYS)
      && (forall p1, p2 {:trigger EntryOk(p1, p2)} :: 0 <= p1 < HALF && 0 <= p2 < HALF ==> EntryOk(p1, p2))
    }

    constructor ()
      ensures Valid() && fresh(repr) && contents == map[] && forall p: nat :: !Has(mask[..], p)
    {
      mask := new Word[WORDS](_ => ZERO);
      subs := new SubTable?<V>[HALF](_ => null);
      contents := map[];
      new;
      repr := {this, mask, subs};
      assert forall p: nat :: !Has(mask[..], p);
    }

    /** pg_mac_table_ptr_get */
    method Get(mac: nat) returns (r: Option<V>)
      requires Valid()
      ensures r == if mac % KEYS in contents then Some(contents[mac % KEYS]) else None
    {
      HalvesIdentify(mac);
      var p1, p2 := Part1(mac), Part2(mac);
      assert EntryOk(p1, p2);
      assert mask[..][p1 / 64] == mask[p1 / 64];
      if !mask[p1 / 64][p1 % 64] {
        return None;
      }
      assert SubOk(p1);
      var sub := subs[p1];
      assert sub.mask[..][p2 / 64] == sub.mask[p2 / 64];
      if !sub.mask[p2 / 64][p2 % 64] {
        return None;
      }
      r := Some(sub.entries[p2].value);
    }

    /** Makes the sub-table at `p1` present; what was there before is dropped. */
    method AddSub(p1: nat)
      requires Valid() && p1 < HALF && !Has(mask[..], p1)
      modifies repr
      ensures Valid() && fresh(repr - old(repr)) && contents == old(contents)
      ensures forall p: nat :: Has(mask[..], p) <==> Has(old(mask[..]), p) || p == p1
    {
      ghost var mask0 := mask[..];
      ghost var repr0 := repr;
      var sub := new SubTable<V>();
      label Before:
      subs[p1] := sub;
      mask[p1 / 64] := mask[p1 / 64][p1 % 64 := true];
      repr := repr + {sub, sub.mask, sub.entries};
      assert mask[..] == mask0[p1 / 64 := mask0[p1 / 64][p1 % 64 := true]];
      forall q: nat ensures Has(mask[..], q) <==> q == p1 || Has(mask0, q) { HasUpdate(mask0, p1, true, q); }
      forall p | 0 <= p < HALF && Has(mask[..], p) ensures SubOk(p) {
        if p != p1 { assert old@Before(SubOk(p)); }
      }
      forall p, q | 0 <= p < HALF && 0 <= q < HALF && Has(mask[..], p) && Has(mask[..], q) && SubOk(p) && SubOk(q) ensures Apart(p, q) {
        if p != p1 && q != p1 { assert old@Before(Apart(p, q)); }
        if p != p1 { assert old@Before(SubOk(p)); }
        if q != p1 { assert old@Before(SubOk(q)); }
      }
      forall a, b | 0 <= a < HALF && 0 <= b < HALF ensures EntryOk(a, b) {
        assert old@Before(EntryOk(a, b));
        if a == p1 {
          assert !Has(sub.mask[..], b);
        } else if Has(mask0, a) {
          assert old@Before(SubOk(a));
        }
      }
    }

    /** One bit of one sub-table, if it is present, has been written, and no other mask. */
    twostate predicate OnlyBit(p1: nat, p2: nat, on: bool)
      reads this, mask, subs, repr
    {
      && mask[..] == old(mask[..]) && subs[..] == old(subs[..]) && p1 < HALF && p2 < HALF && Shape() && old(Shape())
      && (forall p {:trigger SubOk(p)} :: 0 <= p < HALF && Has(mask[..], p) ==>
            SubOk(p) && old(SubOk(p)) && forall k {:trigger subs[p].mask[k]} :: 0 <= k < WORDS ==>
              subs[p].mask[k] == if p == p1 && k == p2 / 64 then old(subs[p].mask[k])[p2 % 64 := on] else old(subs[p].mask[k]))
    }

    /** Writes one bit of the mask of a present sub-table, and the entry that goes with it. */
    method Write(p1: nat, p2: nat, on: bool, v: V)
      requires Valid() && p1 < HALF && p2 < HALF && Has(mask[..], p1)
      modifies repr
      ensures Valid() && repr == old(repr) && OnlyBit(p1, p2, on)
      ensures contents == if on then old(contents)[MakeKey(p1, p2) := v] else old(contents) - {MakeKey(p1, p2)}
    {
      hide Part1, Part2, MakeKey, EntryOk;
      assert SubOk(p1);
      var sub := subs[p1];
      ghost var bits := sub.mask[..];
      sub.mask[p2 / 64] := sub.mask[p2 / 64][p2 % 64 := on];
      assert sub.mask[..] == bits[p2 / 64 := bits[p2 / 64][p2 % 64 := on]];
      if on {
        sub.entries[p2] := Entry(v);
        contents := contents[MakeKey(p1, p2) := v];
      } else {
        contents := contents - {MakeKey(p1, p2)};
      }
      assert mask[..] == old(mask[..]) && subs[..] == old(subs[..]);
      ShapeKept();
      forall p | 0 <= p < HALF && Has(mask[..], p) ensures SubOk(p) && (p != p1 ==> unchanged(subs[p].mask) && unchanged(subs[p].entries)) {
        assert old(SubOk(p)) && old(Apart(p, p1));
      }
      EntriesWritten(p1, p2, on, v);
    }

    /** The entries after one bit, and the value that goes with it, have been written. */
    twostate lemma EntriesWritten(new p1: nat, new p2: nat, new on: bool, new v: V)
      requires old(Valid()) && repr == old(repr) && OnlyBit(p1, p2, on) && Has(mask[..], p1)
      requires contents == if on then old(contents)[MakeKey(p1, p2) := v] else old(contents) - {MakeKey(p1, p2)}
      requires forall p, b {:trigger subs[p].entries[b]} :: 0 <= p < HALF && Has(mask[..], p) && 0 <= b < HALF && SubOk(p) && old(SubOk(p)) ==>
                 subs[p].entries[b] == if on && p == p1 && b == p2 then Entry(v) else old(subs[p].entries[b])
      ensures Valid()
    {
      hide Part1, Part2, MakeKey;
      KeyHasHalves(p1, p2);
      forall a, b | 0 <= a < HALF && 0 <= b < HALF ensures EntryOk(a, b) {
        assert old(EntryOk(a, b));
        KeyHasHalves(a, b);
        if Has(mask[..], a) {
          assert SubOk(a) && old(SubOk(a));
          assert subs[a].mask[..][b / 64] == subs[a].mask[b / 64];
        }
      }
    }

    /** Writes inside sub-tables leave the masks and pointers in order. */
    twostate lemma ShapeKept()
      requires old(Shape()) && repr == old(repr) && mask[..] == old(mask[..]) && subs[..] == old(subs[..])
      ensures Shape()
      ensures forall p {:trigger SubOk(p)} :: 0 <= p < HALF && Has(mask[..], p) ==> SubOk(p) && subs[p] == old(subs[p])
    {
      forall p | 0 <= p < HALF ensures subs[p] == old(subs[p]) && (SubOk(p) <==> old(SubOk(p))) {
        assert subs[p] == subs[..][p] == old(subs[..])[p];
      }
      forall p | 0 <= p < HALF && Has(mask[..], p) ensures SubOk(p) { assert old(SubOk(p)); }
      forall p, q | 0 <= p < HALF && 0 <= q < HALF && Has(mask[..], p) && Has(mask[..], q) && SubOk(p) && SubOk(q) ensures Apart(p, q) {
        assert old(Apart(p, q));
      }
    }

    /** pg_mac_table_ptr_set: an update of the map. */
    method Set(mac: nat, v: V)
      requires Valid()
      modifies repr
      ensures Valid() && fresh(repr - old(repr))
      ensures contents == old(contents)[mac % KEYS := v]
      ensures forall p: nat :: Has(mask[..], p) <==> Has(old(mask[..]), p) || p == Part1(mac)
    {
      HalvesIdentify(mac);
      var p1, p2 := Part1(mac), Part2(mac);
      assert mask[..][p1 / 64] == mask[p1 / 64];
      if !mask[p1 / 64][p1 % 64] {
        AddSub(p1);
      }
      Write(p1, p2, true, v);
    }

    /** pg_mac_table_ptr_unset: removes the key, or reports that it is not there. */
    method Unset(mac: nat) returns (ok: bool)
      requires Valid()
      modifies repr
      ensures Valid() && repr == old(repr)
      ensures ok <==> mac % KEYS in old(contents)
      ensures contents == old(contents) - {mac % KEYS}
      ensures OnlyBit(Part1(mac), Part2(mac), false)
    {
      HalvesIdentify(mac);
      var p1, p2 := Part1(mac), Part2(mac);
      assert EntryOk(p1, p2);
      assert mask[..][p1 / 64] == mask[p1 / 64];
      if !mask[p1 / 64][p1 % 64] {
        return false;
      }
      assert SubOk(p1);
      assert subs[p1].mask[..][p2 / 64] == subs[p1].mask[p2 / 64];
      if !subs[p1].mask[p2 / 64][p2 % 64] {
        return false;
      }
      // the exclusive or of a bit that is set
      Write(p1, p2, !subs[p1].mask[p2 / 64][p2 % 64], subs[p1].entries[p2].value);
      ok := true;
    }

    /** Frees the sub-tables whose bits are set in one word. */
    method ClearWord(i: nat)
      requires i < WORDS && mask.Length == WORDS && subs.Length == HALF
      requires forall k :: 0 <= k < 64 && mask[i][k] ==> subs[i * 64 + k] != null
      modifies mask, subs
      ensures mask[i] == ZERO
      ensures forall k :: 0 <= k < WORDS && k != i ==> mask[k] == old(mask[k])
      ensures forall p :: 0 <= p < HALF && p / 64 != i ==> subs[p] == old(subs[p])
    {
      var rest := mask[i];
      var lo := 0;
      while !Empty(rest)
        invariant 0 <= lo <= 64 && mask[i] == old(mask[i]) && forall k :: 0 <= k < WORDS ==> mask[k] == old(mask[k])
        invariant forall k :: 0 <= k < 64 ==> rest[k] == (lo <= k && mask[i][k])
        invariant forall k :: lo <= k < 64 && mask[i][k] ==> subs[i * 64 + k] != null
        invariant forall p :: 0 <= p < HALF && p / 64 != i ==> subs[p] == old(subs[p])
        decreases 64 - lo
      {
        var bit := Lowest(rest);
        assert subs[i * 64 + bit] != null;
        subs[i * 64 + bit] := null;
        rest := rest[bit := false];
        lo := bit + 1;
      }
      mask[i] := ZERO;
    }

    /** pg_mac_table_clear */
    method Clear()
      requires Valid()
      modifies repr
      ensures Valid() && repr == old(repr) && contents == map[]
    {
      forall p | 0 <= p < HALF && Has(mask[..], p) ensures subs[p] != null { assert SubOk(p); }
      var i := 0;
      while i < WORDS
        invariant 0 <= i <= WORDS && repr == old(repr)
        invariant forall k :: 0 <= k < i ==> mask[k] == ZERO
        invariant forall p :: i * 64 <= p < HALF && mask[p / 64][p % 64] ==> subs[p] != null
      {
        if !Empty(mask[i]) {
          forall k | 0 <= k < 64 && mask[i][k] ensures subs[i * 64 + k] != null {
            var p := i * 64 + k;
            assert p / 64 == i && p % 64 == k;
          }
          ClearWord(i);
        } else {
          assert mask[i] == ZERO;
        }
        i := i + 1;
      }
      contents := map[];
      assert forall p :: 0 <= p < HALF ==> !Has(mask[..], p);
    }

    /** The keys whose sub-table comes before word `i`, or in it at a bit no longer in `rest`. */
    ghost function KeysUpTo(i: nat, rest: Word): set<nat>
      reads this
    {
      set k | k in contents && (Part1(k) / 64 < i || (Part1(k) / 64 == i && !rest[Part1(k) % 64]))
    }

    /** The keys of sub-table `p1` in words before `j`. */
    ghost function SubKeys(p1: nat, j: nat): set<nat>
      reads this
    {
      set k | k in contents && Part1(k) == p1 && Part2(k) / 64 < j
    }

    /** A word of a sub-table holds the keys that its bits say. */
    lemma SubKeysStep(p1: nat, j: nat)
      requires Valid() && p1 < HALF && j < WORDS && Has(mask[..], p1) && SubOk(p1)
      ensures |SubKeys(p1, j + 1)| == |SubKeys(p1, j)| + PopCount(subs[p1].mask[j])
    {
      var w := subs[p1].mask[j];
      WordKeysSize(p1, j, w);
      var earlier, now, more := SubKeys(p1, j), SubKeys(p1, j + 1), WordKeys(p1, j, w);
      forall k ensures k in now <==> k in earlier || k in more { KeyInWord(p1, j, k); }
      forall k | k in more ensures k !in earlier { KeyInWord(p1, j, k); }
      assert now == earlier + more;
    }

    lemma KeyInWord(p1: nat, j: nat, k: nat)
      requires Valid() && p1 < HALF && j < WORDS && Has(mask[..], p1) && SubOk(p1)
      ensures k in WordKeys(p1, j, subs[p1].mask[j]) <==> k in contents && Part1(k) == p1 && Part2(k) / 64 == j
    {
      var w := subs[p1].mask[j];
      assert subs[p1].mask[..][j] == w;
      if k in WordKeys(p1, j, w) {
        var b :| b in Bits(w) && k == MakeKey(p1, j * 64 + b);
        KeyHasHalves(p1, j * 64 + b);
        assert EntryOk(p1, j * 64 + b);
      }
      if k in contents && Part1(k) == p1 && Part2(k) / 64 == j {
        HalvesIdentify(k);
        assert k % KEYS == k;
        assert EntryOk(p1, Part2(k));
        var b := Part2(k) % 64;
        assert b in Bits(w) && k == MakeKey(p1, j * 64 + b);
      }
    }

    /** A sub-table that has been counted is done. */
    lemma SubDone(i: nat, rest: Word, bit: nat)
      requires Valid() && i < WORDS && bit < 64 && rest[bit]
      ensures |KeysUpTo(i, rest[bit := false])| == |KeysUpTo(i, rest)| + |SubKeys(i * 64 + bit, WORDS)|
    {
      var p1 := i * 64 + bit;
      var before, after, sub := KeysUpTo(i, rest), KeysUpTo(i, rest[bit := false]), SubKeys(p1, WORDS);
      forall k ensures k in after <==> k in before || k in sub {
        if k in contents && Part1(k) / 64 == i && Part1(k) % 64 == bit { assert Part1(k) == p1; }
      }
      assert after == before + sub && before !! sub;
    }

    /** pg_mac_table_compute_length: the number of keys. */
    method ComputeLength() returns (r: nat)
      requires Valid()
      ensures r == |contents|
    {
      r := 0;
      var i := 0;
      var rest := mask[0];
      NothingYet();
      while i < WORDS
        invariant 0 <= i <= WORDS && (i < WORDS ==> rest == mask[i])
        invariant i < WORDS ==> r == |KeysUpTo(i, rest)|
        invariant i == WORDS ==> r == |contents|
      {
        r := CountWord(i, r);
        WordDone(i);
        i := i + 1;
        if i < WORDS {
          rest := mask[i];
        }
      }
    }

    lemma NothingYet()
      requires Valid()
      ensures |KeysUpTo(0, mask[0])| == 0
    {
      forall k | k in KeysUpTo(0, mask[0]) ensures false { SubPresent(k); }
      assert KeysUpTo(0, mask[0]) == {};
    }

    /** The sub-table of a key is present. */
    lemma SubPresent(k: nat)
      requires Valid() && k in contents
      ensures mask[Part1(k) / 64][Part1(k) % 64]
    {
      HalvesIdentify(k);
      assert k % KEYS == k;
      assert EntryOk(Part1(k), Part2(k));
    }

    /** After all bits of a word comes the next word. */
    lemma WordDone(i: nat)
      requires Valid() && i < WORDS
      ensures i + 1 < WORDS ==> KeysUpTo(i, ZERO) == KeysUpTo(i + 1, mask[i + 1])
      ensures i + 1 == WORDS ==> KeysUpTo(i, ZERO) == contents.Keys
    {
      forall k | k in contents ensures mask[Part1(k) / 64][Part1(k) % 64] { SubPresent(k); }
    }

    /** Counts the keys of the sub-tables of one word of the mask. */
    method CountWord(i: nat, n: nat) returns (r: nat)
      requires Valid() && i < WORDS && n == |KeysUpTo(i, mask[i])|
      ensures r == |KeysUpTo(i, ZERO)|
    {
      r := n;
      var rest := mask[i];
      var lo := 0;
      while !Empty(rest)
        invariant 0 <= lo <= 64 && r == |KeysUpTo(i, rest)|
        invariant forall k :: 0 <= k < 64 ==> rest[k] == (lo <= k && mask[i][k])
        decreases 64 - lo
      {
        var bit := Lowest(rest);
        var p1 := i * 64 + bit;
        assert p1 / 64 == i && p1 % 64 == bit && mask[..][i] == mask[i];
        assert Has(mask[..], p1) && SubOk(p1);
        var sub := subs[p1];
        var j := 0;
        assert SubKeys(p1, 0) == {};
        while j < WORDS
          invariant 0 <= j <= WORDS && r == |KeysUpTo(i, rest)| + |SubKeys(p1, j)|
        {
          SubKeysStep(p1, j);
          r := r + PopCount(sub.mask[j]);
          j := j + 1;
        }
        SubDone(i, rest, bit);
        rest := rest[bit := false];
        lo := bit + 1;
      }
      assert rest == ZERO;
    }
  }
}
