/**
 The IPv4 header checksum, computed from a sum prepared for all packets of one
 source, and what section 2 of RFC 1071 and section 3.1 of RFC 791 ask of it.

 A header is its ten 16-bit words as a little-endian machine reads them.
 */
module Checksum {

  const WORD: nat := 0x10000
  const ONES: nat := 0xffff

  function Sum(words: seq<nat>): nat {
    if words == [] then 0 else Sum(words[..|words| - 1]) + words[|words| - 1]
  }

  predicate Words(words: seq<nat>) { forall i :: 0 <= i < |words| ==> words[i] < WORD }

  // ----- one's-complement arithmetic

  /** Addition with end-around carry. */
  function OnesAdd(a: nat, b: nat): nat
    requires a < WORD && b < WORD
  {
    if a + b < WORD then a + b else a + b - ONES
  }

  /** The one's-complement sum of RFC 1071. */
  function OnesSum(words: seq<nat>): (r: nat)
    requires Words(words)
    ensures r < WORD
  {
    if words == [] then 0 else OnesAdd(OnesSum(words[..|words| - 1]), words[|words| - 1])
  }

  /** The number below 2^16 that a sum amounts to modulo 2^16 - 1; only 0 amounts to 0. */
  function Canonical(n: nat): (r: nat)
    ensures r < WORD
  {
    if n == 0 then 0 else (n - 1) % ONES + 1
  }

  lemma CanonicalUnique(n: nat, r: nat, k: nat)
    requires n == r + k * ONES && r < WORD && (r == 0 ==> n == 0)
    ensures Canonical(n) == r
  {
    if n != 0 {
      assert n - 1 == (r - 1) + k * ONES;
      DivMod(n - 1, k, r - 1);
    }
  }

  lemma DivMod(n: nat, q: nat, r: nat)
    requires n == q * ONES + r && r < ONES
    ensures n % ONES == r && n / ONES == q
  {
  }

  lemma CanonicalAdd(n: nat, b: nat)
    requires b < WORD
    ensures OnesAdd(Canonical(n), b) == Canonical(n + b)
  {
    var c := Canonical(n);
    var k := if n == 0 then 0 else (n - 1) / ONES;
    assert n == c + k * ONES;
    if c + b < WORD {
      CanonicalUnique(n + b, c + b, k);
    } else {
      assert n + b == (c + b - ONES) + (k + 1) * ONES;
      CanonicalUnique(n + b, c + b - ONES, k + 1);
    }
  }

  /** End-around carries may be left to the end. */
  lemma {:induction false} OnesSumIsCanonical(words: seq<nat>)
    requires Words(words)
    ensures OnesSum(words) == Canonical(Sum(words))
  {
    if words != [] {
      var n := |words| - 1;
      OnesSumIsCanonical(words[..n]);
      CanonicalAdd(Sum(words[..n]), words[n]);
    }
  }

  /** One fold of a 32-bit sum into its halves. */
  function Fold(n: nat): nat { n / WORD + n % WORD }

  /** __rte_raw_cksum_reduce: two folds, cut to 16 bits. */
  function Reduce(n: nat): nat { Fold(Fold(n)) % WORD }

  lemma FoldKeeps(n: nat)
    ensures Canonical(Fold(n)) == Canonical(n)
  {
    var q, r := n / WORD, n % WORD;
    assert n == (q + r) + q * ONES;
    var f := q + r;
    var k := if f == 0 then 0 else (f - 1) / ONES;
    assert f == Canonical(f) + k * ONES;
    assert n == Canonical(f) + (k + q) * ONES;
    CanonicalUnique(n, Canonical(f), k + q);
  }

  /** For every 32-bit sum two folds are enough, and give the one's-complement sum. */
  lemma TwoFoldsSuffice(n: nat)
    requires n < 0x1_0000_0000
    ensures Fold(Fold(n)) < WORD && Reduce(n) == Canonical(n)
  {
    FoldKeeps(n);
    FoldKeeps(Fold(n));
    CanonicalUnique(Fold(Fold(n)), Fold(Fold(n)), 0);
  }

  // ----- the header

  function Low(ip: nat): nat { ip % WORD }

  function High(ip: nat): nat { ip / WORD % WORD }

  /** The words of a UDP header without options; length and id are as they stand in memory. */
  function Header(length: nat, id: nat, cksum: nat, src: nat, dst: nat): seq<nat> {
    [0x45, length, id, 0, 64 + 17 * 0x100, cksum, Low(src), High(src), Low(dst), High(dst)]
  }

  /** The two words of an address, low half first as in memory, give the address back. */
  lemma HeaderAddresses(length: nat, id: nat, cksum: nat, src: nat, dst: nat)
    requires src < 0x1_0000_0000 && dst < 0x1_0000_0000
    ensures var w := Header(length, id, cksum, src, dst);
            && w[6] < WORD && w[7] < WORD && w[6] + w[7] * WORD == src
            && w[8] < WORD && w[9] < WORD && w[8] + w[9] * WORD == dst
  {
    HalvesJoin(src);
    HalvesJoin(dst);
  }

  lemma HalvesJoin(ip: nat)
    requires ip < 0x1_0000_0000
    ensures Low(ip) < WORD && High(ip) < WORD && Low(ip) + High(ip) * WORD == ip
  {
    assert ip / WORD < WORD;
  }

  /** pg_ipv4_init_cksum */
  function InitCksum(src: nat): nat { Sum(Header(0, 0, 0, src, 0)) }

  /** pg_ipv4_udp_cksum, in 32-bit arithmetic. */
  function UdpCksum(base: nat, length: nat, id: nat, dst: nat): nat {
    var sum := Reduce((base + length + id + Low(dst) + High(dst)) % 0x1_0000_0000);
    if sum == ONES then ONES else ONES - sum
  }

  lemma SumTen(w: seq<nat>)
    requires |w| == 10
    ensures Sum(w) == w[0] + w[1] + w[2] + w[3] + w[4] + w[5] + w[6] + w[7] + w[8] + w[9]
  {
    SumFive(w[..5]);
    SumStep(w, 5);
    SumStep(w, 6);
    SumStep(w, 7);
    SumStep(w, 8);
    SumStep(w, 9);
    assert w[..10] == w;
  }

  lemma SumFive(w: seq<nat>)
    requires |w| == 5
    ensures Sum(w) == w[0] + w[1] + w[2] + w[3] + w[4]
  {
    assert Sum(w[..0]) == 0;
    SumStep(w, 0);
    SumStep(w, 1);
    SumStep(w, 2);
    SumStep(w, 3);
    SumStep(w, 4);
    assert w[..5] == w;
  }

  lemma SumStep(w: seq<nat>, k: nat)
    requires k < |w|
    ensures Sum(w[..k + 1]) == Sum(w[..k]) + w[k]
  {
    assert w[..k + 1][..k] == w[..k];
  }

  /** The prepared sum and the varying words make up the sum of the whole header, without overflow. */
  lemma IncrementalSum(length: nat, id: nat, src: nat, dst: nat)
    requires length < WORD && id < WORD && src < 0x1_0000_0000 && dst < 0x1_0000_0000
    ensures InitCksum(src) + length + id + Low(dst) + High(dst) == Sum(Header(length, id, 0, src, dst)) < 0x1_0000_0000
    ensures Sum(Header(length, id, 0, src, dst)) > 0
  {
    SumTen(Header(0, 0, 0, src, 0));
    SumTen(Header(length, id, 0, src, dst));
  }

  /** The checksum of a whole header: the complement of its one's-complement sum, with 0xffff for 0. */
  ghost function HeaderCksum(words: seq<nat>): nat
    requires Words(words)
  {
    if OnesSum(words) == ONES then ONES else ONES - OnesSum(words)
  }

  /** The incremental checksum is the checksum of the full header. */
  lemma IncrementalIsFull(length: nat, id: nat, src: nat, dst: nat)
    requires length < WORD && id < WORD && src < 0x1_0000_0000 && dst < 0x1_0000_0000
    ensures UdpCksum(InitCksum(src), length, id, dst) == HeaderCksum(Header(length, id, 0, src, dst)) < WORD
  {
    hide Sum, OnesSum, Canonical, Fold, Reduce, InitCksum;
    var h := Header(length, id, 0, src, dst);
    IncrementalSum(length, id, src, dst);
    TwoFoldsSuffice(Sum(h));
    OnesSumIsCanonical(h);
  }

  /** With the checksum in place the header sums to all ones, as a receiver checks, in the special case too. */
  lemma HeaderVerifies(length: nat, id: nat, src: nat, dst: nat)
    requires length < WORD && id < WORD && src < 0x1_0000_0000 && dst < 0x1_0000_0000
    ensures var c := UdpCksum(InitCksum(src), length, id, dst);
            c < WORD && OnesSum(Header(length, id, c, src, dst)) == ONES
  {
    hide Sum, OnesSum, Fold, Reduce, InitCksum, UdpCksum;
    var h := Header(length, id, 0, src, dst);
    var c := UdpCksum(InitCksum(src), length, id, dst);
    var full := Header(length, id, c, src, dst);
    IncrementalIsFull(length, id, src, dst);
    IncrementalSum(length, id, src, dst);
    OnesSumIsCanonical(h);
    OnesSumIsCanonical(full);
    SumTen(h);
    SumTen(full);
    CanonicalAdd(Sum(h), c);
    assert Sum(full) == Sum(h) + c;
  }

  /** The part of a VTEP's state that headers are built from. */
  class Vtep {
    const src: nat
    const sum: nat
    var packetId: nat

    ghost predicate Ok()
      reads this
    {
      src < 0x1_0000_0000 && sum == InitCksum(src) && packetId < WORD
    }

    constructor (src: nat)
      requires src < 0x1_0000_0000
      ensures Ok() && this.src == src
    {
      this.src, sum, packetId := src, InitCksum(src), 0;
    }

    /** ip4_build: a header under the next packet id, which wraps around. */
    method BuildHeader(dst: nat, length: nat) returns (words: seq<nat>)
      requires Ok() && dst < 0x1_0000_0000 && length < WORD
      modifies this`packetId
      ensures Ok() && packetId == (old(packetId) + 1) % WORD
      ensures Words(words) && OnesSum(words) == ONES
      ensures |words| == 10 && words == Header(length, packetId, words[5], src, dst)
      ensures words[0] == 0x45 && words[3] == 0 && words[4] % 0x100 == 64 && words[4] / 0x100 == 17
      ensures words[1] == length && words[2] == packetId && words[6] + words[7] * WORD == src && words[8] + words[9] * WORD == dst
    {
      packetId := (packetId + 1) % WORD;
      HeaderVerifies(length, packetId, src, dst);
      words := Header(length, packetId, UdpCksum(sum, length, packetId, dst), src, dst);
      HeaderAddresses(length, packetId, words[5], src, dst);
    }
  }
}
