/**
 The learning switch: bursts of up to 64 packets, forwarded port by port through
 masks that say which packets leave on which port.
 */
module Switch {

  import opened Bricks
  import opened MacTable
  import MacIterator

  /** A port of the switch, and the origin of a learned address. */
  datatype Port = Port(side: SideName, index: nat)

  /** The two addresses of a packet, as the 64-bit words read at their place. */
  datatype Packet = Packet(dst: nat, src: nat)

  /** A burst sent to a neighbour: the port it leaves on and the packets in it. */
  datatype Sent = Sent(port: Port, packets: Word)

  /** Byte `i` of an address; addresses are read little-endian. */
  function ByteAt(mac: nat, i: nat): nat
    requires i < 6
  {
    match i
    case 0 => mac % 0x100
    case 1 => mac / 0x100 % 0x100
    case 2 => mac / 0x10000 % 0x100
    case 3 => mac / 0x1000000 % 0x100
    case 4 => mac / 0x100000000 % 0x100
    case 5 => mac / 0x10000000000 % 0x100
  }

  /** Addresses reserved for bridges: 01:80:C2:00:00:00 to 01:80:C2:00:00:0F. */
  predicate Filtered(mac: nat) {
    && ByteAt(mac, 0) == 0x01 && ByteAt(mac, 1) == 0x80 && ByteAt(mac, 2) == 0xC2
    && ByteAt(mac, 3) == 0 && ByteAt(mac, 4) == 0 && ByteAt(mac, 5) <= 0x0F
  }

  predicate Multicast(mac: nat) { ByteAt(mac, 0) % 2 == 1 }

  // ----- which addresses these are

  /** An address with the six bytes `b`, followed in memory by whatever makes up `rest`. */
  function Address(b: seq<nat>, rest: nat): nat
    requires |b| == 6
  {
    b[0] + 0x100 * (b[1] + 0x100 * (b[2] + 0x100 * (b[3] + 0x100 * (b[4] + 0x100 * (b[5] + 0x100 * rest)))))
  }

  /** The bytes of an address are read back. */
  lemma AddressBytes(b: seq<nat>, rest: nat, i: nat)
    requires |b| == 6 && i < 6 && forall k :: 0 <= k < 6 ==> b[k] < 0x100
    ensures ByteAt(Address(b, rest), i) == b[i]
  {
    var mac := Address(b, rest);
    var r5 := b[5] + 0x100 * rest;
    var r4 := b[4] + 0x100 * r5;
    var r3 := b[3] + 0x100 * r4;
    var r2 := b[2] + 0x100 * r3;
    var r1 := b[1] + 0x100 * r2;
    assert mac == b[0] + 0x100 * r1;
    Shifts(mac);
    assert mac / 0x100 == r1 && r1 / 0x100 == r2 && r2 / 0x100 == r3 && r3 / 0x100 == r4 && r4 / 0x100 == r5;
  }

  /** Shifting by one byte at a time. */
  lemma Shifts(mac: nat)
    ensures mac / 0x10000 == mac / 0x100 / 0x100 && mac / 0x1000000 == mac / 0x10000 / 0x100
    ensures mac / 0x100000000 == mac / 0x1000000 / 0x100 && mac / 0x10000000000 == mac / 0x100000000 / 0x100
    ensures mac / KEYS == mac / 0x10000000000 / 0x100
  {
  }

  /** The first six bytes make up the key of an address. */
  lemma KeyBytes(mac: nat)
    ensures mac % KEYS == ByteAt(mac, 0) + 0x100 * ByteAt(mac, 1) + 0x10000 * ByteAt(mac, 2) + 0x1000000 * ByteAt(mac, 3)
                          + 0x100000000 * ByteAt(mac, 4) + 0x10000000000 * ByteAt(mac, 5)
  {
    Shifts(mac);
    var a, b, c := mac / 0x100, mac / 0x10000, mac / 0x1000000;
    var d, e, f := mac / 0x100000000, mac / 0x10000000000, mac / KEYS;
    assert mac == 0x100 * a + ByteAt(mac, 0) && a == 0x100 * b + ByteAt(mac, 1) && b == 0x100 * c + ByteAt(mac, 2);
    assert c == 0x100 * d + ByteAt(mac, 3) && d == 0x100 * e + ByteAt(mac, 4) && e == 0x100 * f + ByteAt(mac, 5);
    assert mac == KEYS * f + mac % KEYS;
  }

  /** The key of bridge address number `n`: 01:80:C2:00:00:n. */
  function BridgeKey(n: nat): nat { 0xC28001 + n * 0x10000000000 }

  /** The group bit is the lowest bit of the first byte; the filtered addresses are the sixteen of the bridge group. */
  lemma AddressKinds(mac: nat)
    ensures Multicast(mac) <==> mac % 2 == 1
    ensures Filtered(mac) <==> exists n: nat :: n < 16 && mac % KEYS == BridgeKey(n)
    ensures Filtered(mac) ==> Multicast(mac)
  {
    hide Filtered, Multicast, BridgeKey, ByteAt;
    GroupBit(mac);
    if Filtered(mac) {
      var n := BridgeNumber(mac);
    }
    if exists n: nat :: n < 16 && mac % KEYS == BridgeKey(n) {
      var n: nat :| n < 16 && mac % KEYS == BridgeKey(n);
      KeyDigits(mac, n);
    }
  }

  lemma GroupBit(mac: nat)
    ensures Multicast(mac) <==> mac % 2 == 1
    ensures Filtered(mac) ==> Multicast(mac)
  {
    hide ByteAt;
    FirstByte(mac);
  }

  lemma FirstByte(mac: nat)
    ensures ByteAt(mac, 0) % 2 == mac % 2
  {
    var q := mac / 0x100;
    assert mac == 0x100 * q + mac % 0x100;
  }

  lemma BridgeNumber(mac: nat) returns (n: nat)
    requires Filtered(mac)
    ensures n < 16 && mac % KEYS == BridgeKey(n)
  {
    hide ByteAt;
    n := ByteAt(mac, 5);
    KeyBytes(mac);
  }

  lemma KeyDigits(mac: nat, n: nat)
    requires n < 16 && mac % KEYS == BridgeKey(n)
    ensures Filtered(mac)
  {
    hide ByteAt;
    var f := mac / KEYS;
    assert mac == KEYS * f + mac % KEYS;
    var b := [0x01, 0x80, 0xC2, 0, 0, n];
    assert mac == Address(b, f);
    forall i: nat | i < 6 ensures ByteAt(mac, i) == b[i] { AddressBytes(b, f, i); }
    assert ByteAt(mac, 0) == b[0] && ByteAt(mac, 1) == b[1] && ByteAt(mac, 2) == b[2] && ByteAt(mac, 3) == b[3] && ByteAt(mac, 4) == b[4] && ByteAt(mac, 5) == b[5];
  }

  /** The packets of a burst up to `n`. */
  predicate Upto(mask: Word, n: nat, k: nat) { k < 64 && k < n && mask[k] }

  /** `now` is `was` with the sources of the packets up to `n` learned from `port`. */
  ghost predicate Learned(was: map<nat, Port>, now: map<nat, Port>, pkts: seq<Packet>, mask: Word, n: nat, port: Port)
    requires |pkts| == 64
  {
    && (forall m :: m in now <==> m in was || FromBurst(pkts, mask, n, m))
    && (forall m :: m in now ==> now[m] == if FromBurst(pkts, mask, n, m) then port else was[m])
  }

  /** A packet up to `n` comes from address `m`. */
  ghost predicate FromBurst(pkts: seq<Packet>, mask: Word, n: nat, m: nat)
    requires |pkts| == 64
  {
    exists k :: 0 <= k < 64 && Upto(mask, n, k) && pkts[k].src % KEYS == m
  }

  lemma LearnOne(was: map<nat, Port>, now: map<nat, Port>, pkts: seq<Packet>, mask: Word, n: nat, bit: nat, port: Port)
    requires |pkts| == 64 && Learned(was, now, pkts, mask, n, port) && n <= bit < 64 && mask[bit]
    requires forall k :: n <= k < bit ==> !mask[k]
    ensures Learned(was, now[pkts[bit].src % KEYS := port], pkts, mask, bit + 1, port)
  {
    forall m ensures FromBurst(pkts, mask, bit + 1, m) <==> FromBurst(pkts, mask, n, m) || m == pkts[bit].src % KEYS {
      if FromBurst(pkts, mask, bit + 1, m) {
        var k :| 0 <= k < 64 && Upto(mask, bit + 1, k) && pkts[k].src % KEYS == m;
        assert k == bit || Upto(mask, n, k);
      }
      if FromBurst(pkts, mask, n, m) {
        var k :| 0 <= k < 64 && Upto(mask, n, k) && pkts[k].src % KEYS == m;
        assert Upto(mask, bit + 1, k);
      }
      assert Upto(mask, bit + 1, bit);
    }
  }

  lemma LearnRest(was: map<nat, Port>, now: map<nat, Port>, pkts: seq<Packet>, mask: Word, n: nat, port: Port)
    requires |pkts| == 64 && Learned(was, now, pkts, mask, n, port) && n <= 64 && forall k :: n <= k < 64 ==> !mask[k]
    ensures Learned(was, now, pkts, mask, 64, port)
  {
    forall m ensures FromBurst(pkts, mask, 64, m) <==> FromBurst(pkts, mask, n, m) {
      if FromBurst(pkts, mask, 64, m) {
        var k :| 0 <= k < 64 && Upto(mask, 64, k) && pkts[k].src % KEYS == m;
        assert Upto(mask, n, k);
      }
      if FromBurst(pkts, mask, n, m) {
        var k :| 0 <= k < 64 && Upto(mask, n, k) && pkts[k].src % KEYS == m;
        assert Upto(mask, 64, k);
      }
    }
  }

  /** Bitwise or. */
  function Or(a: Word, b: Word): (r: Word)
    ensures forall k :: 0 <= k < 64 ==> r[k] == (a[k] || b[k])
  {
    seq(64, k requires 0 <= k < 64 => a[k] || b[k])
  }

  class SwitchState {
    const table: Table<Port>
    const westMasks: array<Word>
    const eastMasks: array<Word>
    const output: SideName
    /** For either side: which slots are linked, and how many are. */
    var westLinked: seq<bool>
    var eastLinked: seq<bool>
    var westNb: nat
    var eastNb: nat

    function Masks(s: SideName): array<Word> { Pick(s, westMasks, eastMasks) }

    function Linked(s: SideName): seq<bool>
      reads this
    {
      Pick(s, westLinked, eastLinked)
    }

    function Nb(s: SideName): nat
      reads this
    {
      Pick(s, westNb, eastNb)
    }

    ghost predicate Ok()
      reads this, westMasks, eastMasks, table, table.mask, table.subs, table.repr
    {
      && table.Valid() && table in table.repr && table.mask in table.repr && table.subs in table.repr
      && westMasks != eastMasks && this !in table.repr
      && westMasks !in table.repr && eastMasks !in table.repr
      && |westLinked| == westMasks.Length && |eastLinked| == eastMasks.Length
      && westNb <= westMasks.Length && eastNb <= eastMasks.Length
      && forall m :: m in table.contents ==> table.contents[m].index < Masks(table.contents[m].side).Length
    }

    /** The mask words, as a function of port and packet. */
    ghost predicate Marked(s: SideName, j: nat, k: nat)
      reads westMasks, eastMasks
    {
      j < Masks(s).Length && k < 64 && Masks(s)[j][k]
    }

    constructor (westMax: nat, eastMax: nat, output: SideName)
      ensures Ok() && table.contents == map[] && fresh(table.repr) && fresh(westMasks) && fresh(eastMasks)
      ensures westMasks.Length == westMax && eastMasks.Length == eastMax && this.output == output
      ensures westNb == eastNb == 0 && forall s, j: nat, k: nat :: !Marked(s, j, k)
    {
      table := new Table<Port>();
      westMasks := new Word[westMax](_ => ZERO);
      eastMasks := new Word[eastMax](_ => ZERO);
      this.output := output;
      westLinked := seq(westMax, _ => false);
      eastLinked := seq(eastMax, _ => false);
      westNb, eastNb := 0, 0;
    }

    /** Marks packets for every port of one side. */
    method FloodSide(s: SideName, mask: Word)
      requires westMasks != eastMasks && Nb(s) <= Masks(s).Length
      modifies Masks(s)
      ensures forall j: nat, k: nat :: Marked(s, j, k) <==> old(Marked(s, j, k)) || (k < 64 && j < Nb(s) && mask[k])
      ensures forall j: nat, k: nat :: Marked(s.Flip(), j, k) == old(Marked(s.Flip(), j, k))
    {
      var masks := Masks(s);
      var j := 0;
      while j < Nb(s)
        invariant 0 <= j <= Nb(s)
        invariant forall i :: 0 <= i < j ==> masks[i] == Or(old(masks[i]), mask)
        invariant forall i :: j <= i < masks.Length ==> masks[i] == old(masks[i])
      {
        masks[j] := Or(masks[j], mask);
        j := j + 1;
      }
    }

    /** flood: marks packets for every port. */
    method Flood(mask: Word)
      requires Ok()
      modifies westMasks, eastMasks
      ensures Ok()
      ensures forall s, j: nat, k: nat :: Marked(s, j, k) <==> old(Marked(s, j, k)) || (k < 64 && j < Nb(s) && mask[k])
    {
      if Empty(mask) {
        return;
      }
      FloodSide(West, mask);
      label Half:
      FloodSide(East, mask);
      forall s, j: nat, k: nat ensures Marked(s, j, k) <==> old(Marked(s, j, k)) || (k < 64 && j < Nb(s) && mask[k]) {
        if s.West? {
          assert Marked(East.Flip(), j, k) == old@Half(Marked(East.Flip(), j, k));
        } else {
          assert old@Half(Marked(West.Flip(), j, k)) == old(Marked(West.Flip(), j, k));
        }
      }
    }

    /**
     do_learn_filter_multicast: learns every source, floods what is sent to a
     group, drops what is sent to a bridge, and leaves the rest.
     */
    method LearnFilterMulticast(source: Port, pkts: seq<Packet>, mask: Word) returns (unicast: Word)
      requires Ok() && |pkts| == 64 && source.index < Masks(source.side).Length
      modifies table.repr, westMasks, eastMasks
      ensures Ok() && fresh(table.repr - old(table.repr))
      ensures Learned(old(table.contents), table.contents, pkts, mask, 64, source)
      ensures forall k :: 0 <= k < 64 ==> unicast[k] == (mask[k] && !Filtered(pkts[k].dst) && !Multicast(pkts[k].dst))
      ensures forall s, j: nat, k: nat :: Marked(s, j, k) <==>
                old(Marked(s, j, k)) || (k < 64 && mask[k] && j < Nb(s) && !Filtered(pkts[k].dst) && Multicast(pkts[k].dst))
    {
      var filtered, flooded, rest := ZERO, ZERO, mask;
      var n := 0;
      while !Empty(rest)
        invariant 0 <= n <= 64 && Ok() && fresh(table.repr - old(table.repr)) && unchanged(westMasks) && unchanged(eastMasks) && unchanged(this)
        invariant forall k :: 0 <= k < 64 ==> rest[k] == (n <= k && mask[k])
        invariant forall k :: 0 <= k < 64 ==> filtered[k] == (k < n && mask[k] && Filtered(pkts[k].dst))
        invariant forall k :: 0 <= k < 64 ==> flooded[k] == (k < n && mask[k] && !Filtered(pkts[k].dst) && Multicast(pkts[k].dst))
        invariant Learned(old(table.contents), table.contents, pkts, mask, n, source)
        decreases 64 - n
      {
        var bit := Lowest(rest);
        rest := rest[bit := false];
        LearnOne(old(table.contents), table.contents, pkts, mask, n, bit, source);
        table.Set(pkts[bit].src, source);
        if Filtered(pkts[bit].dst) {
          filtered := filtered[bit := true];
        } else if Multicast(pkts[bit].dst) {
          flooded := flooded[bit := true];
        }
        n := bit + 1;
      }
      LearnRest(old(table.contents), table.contents, pkts, mask, n, source);
      Flood(flooded);
      unicast := seq(64, k requires 0 <= k < 64 => mask[k] && !filtered[k] && !flooded[k]);
    }

    /** do_switch: marks each packet for the port its destination was learned on, or for all ports. */
    method DoSwitch(pkts: seq<Packet>, mask: Word)
      requires Ok() && |pkts| == 64
      modifies westMasks, eastMasks
      ensures Ok()
      ensures forall s, j: nat, k: nat :: Marked(s, j, k) <==>
                old(Marked(s, j, k)) || (k < 64 && mask[k] && Chosen(table.contents, pkts[k].dst, s, j, Nb(s)))
    {
      var flooded, rest := ZERO, mask;
      var n := 0;
      while !Empty(rest)
        invariant 0 <= n <= 64 && Ok()
        invariant forall k :: 0 <= k < 64 ==> rest[k] == (n <= k && mask[k])
        invariant forall k :: 0 <= k < 64 ==> flooded[k] == (k < n && mask[k] && pkts[k].dst % KEYS !in table.contents)
        invariant forall s, j: nat, k: nat :: Marked(s, j, k) <==>
                    old(Marked(s, j, k)) || (Upto(mask, n, k) && KnownAt(table.contents, pkts[k].dst, s, j))
        decreases 64 - n
      {
        var bit := Lowest(rest);
        rest := rest[bit := false];
        var entry := table.Get(pkts[bit].dst);
        if entry.Some? {
          var masks, at := Masks(entry.value.side), entry.value.index;
          masks[at] := masks[at][bit := true];
        } else {
          flooded := flooded[bit := true];
        }
        n := bit + 1;
      }
      Flood(flooded);
    }

    /** forward: sends the packets marked for one port, if it is linked. */
    method Forward(to: SideName, index: nat, accepts: Port -> bool, sent: seq<Sent>) returns (ok: bool, more: seq<Sent>)
      requires index < Masks(to).Length == |Linked(to)|
      modifies Masks(to)
      ensures more == sent + SendOne(old(Masks(to)[..]), Linked(to), to, index)
      ensures Masks(to)[..] == if Linked(to)[index] then old(Masks(to)[..])[index := ZERO] else old(Masks(to)[..])
      ensures ok <==> more == sent || accepts(Port(to, index))
    {
      var masks := Masks(to);
      if !Linked(to)[index] {
        return true, sent;
      }
      var mask := masks[index];
      if Empty(mask) {
        assert mask == ZERO;
        return true, sent;
      }
      masks[index] := ZERO;
      more := sent + [Sent(Port(to, index), mask)];
      ok := accepts(Port(to, index));
    }

    /** The loop of forward_bursts over one side. */
    method ForwardSide(to: SideName, accepts: Port -> bool, sent: seq<Sent>) returns (ok: bool, more: seq<Sent>, ghost n: nat)
      requires Nb(to) <= Masks(to).Length == |Linked(to)|
      modifies Masks(to)
      ensures n <= Nb(to) && (ok ==> n == Nb(to))
      ensures more == sent + SendList(old(Masks(to)[..]), Linked(to), to, n)
      ensures Masks(to)[..] == Cleared(old(Masks(to)[..]), Linked(to), n)
      ensures ok <==> forall e :: e in SendList(old(Masks(to)[..]), Linked(to), to, n) ==> accepts(e.port)
      ensures !ok ==> |more| > |sent| && !accepts(more[|more| - 1].port) && forall i :: |sent| <= i < |more| - 1 ==> accepts(more[i].port)
    {
      hide Cleared, SendOne, SendList, Masks, Linked, Nb;
      ghost var was, linked := Masks(to)[..], Linked(to);
      ServeNone(was, linked, to);
      more, n := sent, 0;
      var j := 0;
      while j < Nb(to)
        invariant 0 <= j <= Nb(to) && n == j && more == sent + SendList(was, linked, to, j)
        invariant Masks(to)[..] == Cleared(was, linked, j)
        invariant forall e :: e in SendList(was, linked, to, j) ==> accepts(e.port)
      {
        ServeOne(was, linked, to, j);
        ghost var before := more;
        ok, more := Forward(to, j, accepts, more);
        assert more == sent + (SendList(was, linked, to, j) + SendOne(was, linked, to, j));
        if !ok {
          Refused(sent, SendList(was, linked, to, j), SendOne(was, linked, to, j), accepts, Port(to, j));
          n := n + 1;
          return;
        }
        j, n := j + 1, n + 1;
      }
      ok := true;
    }

    /** switch_unlink_notify: forgets what was learned on a port, as far as the table's iterator shows it. */
    method UnlinkNotify(port: Port)
      requires Ok()
      modifies table.repr
      ensures Ok()
      ensures forall m :: m in table.contents <==>
                m in old(table.contents) && (old(table.contents)[m] != port || MacIterator.Skipped(old(table.mask[..]), m))
      ensures forall m :: m in table.contents ==> table.contents[m] == old(table.contents)[m]
    {
      hide MacIterator.Skipped;
      MacIterator.RemoveMatching(table, port);
    }

    /** The masks of a side without those of the source port. */
    ghost function MasksBut(s: SideName, source: Port): seq<Word>
      requires source.index < Masks(source.side).Length
      reads westMasks, eastMasks
    {
      if s == source.side then Masks(s)[..][source.index := ZERO] else Masks(s)[..]
    }

    /**
     forward_bursts: nothing goes back to the source port.  It stops at the first
     port that refuses its packets; `n` and `m` ports of the two sides have then
     been served, and the packets of the others stay marked.
     */
    method ForwardBursts(source: Port, accepts: Port -> bool) returns (ok: bool, sent: seq<Sent>, ghost n: nat, ghost m: nat)
      requires Ok() && source.index < Masks(source.side).Length
      modifies westMasks, eastMasks
      ensures Ok() && n <= Nb(output) && m <= Nb(output.Flip()) && (m > 0 ==> n == Nb(output))
      ensures ok ==> n == Nb(output) && m == Nb(output.Flip())
      ensures sent == SendList(old(MasksBut(output, source)), Linked(output), output, n)
                      + SendList(old(MasksBut(output.Flip(), source)), Linked(output.Flip()), output.Flip(), m)
      ensures forall s :: Masks(s)[..] == Cleared(old(MasksBut(s, source)), Linked(s), if s == output then n else m)
      ensures forall e :: e in sent ==> e.port != source
      ensures ok <==> forall e :: e in sent ==> accepts(e.port)
      ensures !ok ==> sent != [] && !accepts(sent[|sent| - 1].port) && forall i :: 0 <= i < |sent| - 1 ==> accepts(sent[i].port)
    {
      hide Cleared, SendOne, SendList, MasksBut, Table.Valid;
      ClearSource(source);
      NeverBack(this, source, output);
      NeverBack(this, source, output.Flip());
      ServeNone(Masks(output.Flip())[..], Linked(output.Flip()), output.Flip());
      m := 0;
      ok, sent, n := ForwardSide(output, accepts, []);
      if ok {
        ok, sent, m := ForwardSide(output.Flip(), accepts, sent);
      }
    }

    /** The ports in use are the first ones of each side. */
    ghost predicate Contiguous()
      reads this
    {
      forall s :: Nb(s) <= |Linked(s)| && forall j :: 0 <= j < |Linked(s)| ==> (Linked(s)[j] <==> j < Nb(s))
    }

    /** No packet is marked. */
    ghost predicate Quiet()
      reads westMasks, eastMasks
    {
      forall s, j: nat, k: nat :: !Marked(s, j, k)
    }

    /** Addresses are known on ports in use only. */
    ghost predicate KnownLinked()
      reads this, table
    {
      forall m :: m in table.contents ==> table.contents[m].index < Nb(table.contents[m].side)
    }

    /** The forwarding loops get to the port, and it is linked. */
    ghost predicate Serves(port: Port)
      reads this
    {
      InUse(westLinked, eastLinked, westNb, eastNb, port)
    }

    /**
     switch_burst.  A packet that was marked for a port before, or is meant for
     it now, is sent there or stays marked, unless the port is the source.  It is
     sent only to ports that are linked and come before the count of linked
     ports of their side, and without an error downstream to all of those.

     With the ports in use first and no error this is: a packet goes to no port
     if it is for a bridge, to all ports but its own if it is for a group or an
     unknown address, and else to the one port its destination last sent from,
     unless that is its own.
     */
    method Burst(source: Port, pkts: seq<Packet>, mask: Word, accepts: Port -> bool) returns (ok: bool, sent: seq<Sent>)
      requires Ok() && |pkts| == 64 && source.index < Masks(source.side).Length
      modifies table.repr, westMasks, eastMasks
      ensures Ok() && fresh(table.repr - old(table.repr))
      ensures Learned(old(table.contents), table.contents, pkts, mask, 64, source)
      ensures DistinctPorts(sent) && (ok <==> forall e :: e in sent ==> accepts(e.port))
      ensures forall port: Port, k: nat :: SentTo(sent, port, k) || Marked(port.side, port.index, k) <==>
                port != source && (old(Marked(port.side, port.index, k)) || Aimed(table.contents, pkts, mask, port, k, westNb, eastNb))
      ensures forall port: Port, k: nat :: SentTo(sent, port, k) ==> Serves(port) && !Marked(port.side, port.index, k)
      ensures ok ==> forall port: Port, k: nat :: Marked(port.side, port.index, k) ==> !Serves(port)
      ensures ok && old(Quiet()) ==>
                (Quiet() <==> forall port: Port, k: nat :: port != source && Aimed(table.contents, pkts, mask, port, k, westNb, eastNb) ==> Serves(port))
      ensures ok && Contiguous() && old(Quiet()) && old(KnownLinked()) && source.index < Nb(source.side) ==>
                && Quiet() && KnownLinked() && Delivered(sent, table.contents, pkts, mask, source, westNb, eastNb)
                && DeliveredByNumber(sent, table.contents, pkts, mask, source, westNb, eastNb)
    {
      hide Table.Valid, Learned, DistinctPorts, Delivered, SentTo, Serves, Marked, Aimed, DeliveredByNumber;
      MarkAll(source, pkts, mask);
      ghost var known := table.contents;
      label Marks:
      ok, sent := Serve(source, accepts);
      forall port: Port, k: nat
        ensures SentTo(sent, port, k) || Marked(port.side, port.index, k) <==>
          port != source && (old(Marked(port.side, port.index, k)) || Aimed(known, pkts, mask, port, k, westNb, eastNb))
      {
        assert port == Port(port.side, port.index);
      }
      if ok && old(Quiet()) {
        AllOrNone(this, sent, pkts, mask, source);
        if Contiguous() && old(KnownLinked()) && source.index < Nb(source.side) {
          KnownAfter(old(table.contents), known, pkts, mask, source, westNb, eastNb);
          AllInUse(this, pkts, mask);
          DeliveredNumbers(sent, known, pkts, mask, source, westNb, eastNb);
        }
      }
    }

    /** The second half of switch_burst, in terms of the marks. */
    method Serve(source: Port, accepts: Port -> bool) returns (ok: bool, sent: seq<Sent>)
      requires Ok() && source.index < Masks(source.side).Length
      modifies westMasks, eastMasks
      ensures Ok() && DistinctPorts(sent) && (ok <==> forall e :: e in sent ==> accepts(e.port))
      ensures forall port: Port, k: nat :: SentTo(sent, port, k) || Marked(port.side, port.index, k) <==>
                port != source && old(Marked(port.side, port.index, k))
      ensures forall port: Port, k: nat :: SentTo(sent, port, k) ==> Serves(port) && !Marked(port.side, port.index, k)
      ensures ok ==> forall port: Port, k: nat :: Marked(port.side, port.index, k) ==> !Serves(port)
    {
      hide Table.Valid, SendList, SendOne, Cleared, DistinctPorts, MarkedIn, SentTo, InUse;
      ghost var wm, em := westMasks[..], eastMasks[..];
      forall s, j: nat, k: nat ensures MarkedIn(wm, em, s, j, k) == Marked(s, j, k) { MarksAre(this, s, j, k); }
      ghost var n, m;
      ok, sent, n, m := ForwardBursts(source, accepts);
      BurstOutcome(wm, em, westLinked, eastLinked, n, m, output, source);
      assert westMasks[..] == Masks(West)[..] && eastMasks[..] == Masks(East)[..];
      forall port: Port, k: nat
        ensures SentTo(sent, port, k) || Marked(port.side, port.index, k) <==> port != source && old(Marked(port.side, port.index, k))
        ensures SentTo(sent, port, k) ==> Serves(port) && !Marked(port.side, port.index, k)
        ensures ok && Marked(port.side, port.index, k) ==> !Serves(port)
      {
        MarksAre(this, port.side, port.index, k);
        ServedInUse(westLinked, eastLinked, Pick(output, n, m), Pick(output, m, n), westNb, eastNb, port);
      }
    }

    /** Learns, and marks every packet for the ports it is meant for. */
    method MarkAll(source: Port, pkts: seq<Packet>, mask: Word)
      requires Ok() && |pkts| == 64 && source.index < Masks(source.side).Length
      modifies table.repr, westMasks, eastMasks
      ensures Ok() && fresh(table.repr - old(table.repr))
      ensures Learned(old(table.contents), table.contents, pkts, mask, 64, source)
      ensures forall s, j: nat, k: nat :: Marked(s, j, k) <==>
                old(Marked(s, j, k)) || Aimed(table.contents, pkts, mask, Port(s, j), k, westNb, eastNb)
    {
      hide Table.Valid, Filtered, Multicast, Learned;
      var unicast := LearnFilterMulticast(source, pkts, mask);
      DoSwitch(pkts, unicast);
    }

    method ClearSource(source: Port)
      requires Ok() && source.index < Masks(source.side).Length
      modifies westMasks, eastMasks
      ensures Ok() && Masks(source.side)[source.index] == ZERO
      ensures forall s :: Masks(s)[..] == old(MasksBut(s, source))
    {
      hide Table.Valid;
      var masks := Masks(source.side);
      masks[source.index] := ZERO;
    }
  }

  /** The ports a packet is meant for. */
  ghost predicate Meant(known: map<nat, Port>, dst: nat, port: Port, nb: nat) {
    !Filtered(dst) && if Multicast(dst) then port.index < nb else Chosen(known, dst, port.side, port.index, nb)
  }

  ghost predicate SentTo(sent: seq<Sent>, port: Port, k: nat) {
    k < 64 && exists e :: e in sent && e.port == port && e.packets[k]
  }

  function Pick<T>(s: SideName, west: T, east: T): T { if s.West? then west else east }

  lemma MarksAre(sw: SwitchState, s: SideName, j: nat, k: nat)
    ensures sw.Marked(s, j, k) == MarkedIn(sw.westMasks[..], sw.eastMasks[..], s, j, k)
  {
  }

  ghost predicate MarkedIn(wm: seq<Word>, em: seq<Word>, s: SideName, j: nat, k: nat) {
    k < 64 && j < |Pick(s, wm, em)| && Pick(s, wm, em)[j][k]
  }

  /** A port among the first ones of its side, and linked. */
  ghost predicate InUse(wl: seq<bool>, el: seq<bool>, wn: nat, en: nat, port: Port) {
    port.index < Pick(port.side, wn, en) && port.index < |Pick(port.side, wl, el)| && Pick(port.side, wl, el)[port.index]
  }

  /** Packet `k` of the burst is meant for the port. */
  ghost predicate Aimed(known: map<nat, Port>, pkts: seq<Packet>, mask: Word, port: Port, k: nat, wn: nat, en: nat)
    requires |pkts| == 64
  {
    k < 64 && mask[k] && Meant(known, pkts[k].dst, port, Pick(port.side, wn, en))
  }

  lemma ServedInUse(wl: seq<bool>, el: seq<bool>, a: nat, b: nat, wn: nat, en: nat, port: Port)
    requires a <= wn && b <= en
    ensures InUse(wl, el, a, b, port) ==> InUse(wl, el, wn, en, port)
  {
  }

  /** Serving the first `n` ports of one side and `m` of the other sends what is marked for those of them that are linked, and leaves the rest. */
  lemma BurstOutcome(wm: seq<Word>, em: seq<Word>, wl: seq<bool>, el: seq<bool>, n: nat, m: nat, output: SideName, source: Port)
    requires |wm| == |wl| && |em| == |el| && source.index < |Pick(source.side, wm, em)|
    requires n <= |Pick(output, wm, em)| && m <= |Pick(output.Flip(), wm, em)|
    ensures
      var wb := if source.side.West? then wm[source.index := ZERO] else wm;
      var eb := if source.side.East? then em[source.index := ZERO] else em;
      var wn, en := Pick(output, n, m), Pick(output, m, n);
      var sent := SendList(Pick(output, wb, eb), Pick(output, wl, el), output, n)
                  + SendList(Pick(output.Flip(), wb, eb), Pick(output.Flip(), wl, el), output.Flip(), m);
      && DistinctPorts(sent)
      && (forall port: Port, k: nat :: SentTo(sent, port, k) <==>
            port != source && InUse(wl, el, wn, en, port) && MarkedIn(wm, em, port.side, port.index, k))
      && (forall port: Port, k: nat :: MarkedIn(Cleared(wb, wl, wn), Cleared(eb, el, en), port.side, port.index, k) <==>
            port != source && !InUse(wl, el, wn, en, port) && MarkedIn(wm, em, port.side, port.index, k))
  {
    hide SendList, SendOne, SentTo, DistinctPorts, Cleared;
    var wb := if source.side.West? then wm[source.index := ZERO] else wm;
    var eb := if source.side.East? then em[source.index := ZERO] else em;
    var out, back := Pick(output, wb, eb), Pick(output.Flip(), wb, eb);
    var outl, backl := Pick(output, wl, el), Pick(output.Flip(), wl, el);
    SentExactly(out, outl, n, back, backl, m, output);
    forall port: Port, k: nat
      ensures SentTo(SendList(out, outl, output, n) + SendList(back, backl, output.Flip(), m), port, k) <==>
        port != source && InUse(wl, el, Pick(output, n, m), Pick(output, m, n), port) && MarkedIn(wm, em, port.side, port.index, k)
    {
      SentToPort(out, outl, n, back, backl, m, output, port, k);
      assert port == Port(port.side, port.index);
    }
    AllServed(wb, wl, Pick(output, n, m));
    AllServed(eb, el, Pick(output, m, n));
    var wc, ec := Cleared(wb, wl, Pick(output, n, m)), Cleared(eb, el, Pick(output, m, n));
    forall port: Port, k: nat
      ensures MarkedIn(wc, ec, port.side, port.index, k) <==>
        port != source && !InUse(wl, el, Pick(output, n, m), Pick(output, m, n), port) && MarkedIn(wm, em, port.side, port.index, k)
    {
      assert port == Port(port.side, port.index);
    }
  }

  /** Nothing stays marked exactly if every packet is meant for ports that are served. */
  lemma AllOrNone(sw: SwitchState, sent: seq<Sent>, pkts: seq<Packet>, mask: Word, source: Port)
    requires |pkts| == 64
    requires forall port: Port, k: nat :: SentTo(sent, port, k) || sw.Marked(port.side, port.index, k) <==>
               port != source && Aimed(sw.table.contents, pkts, mask, port, k, sw.westNb, sw.eastNb)
    requires forall port: Port, k: nat :: SentTo(sent, port, k) ==> sw.Serves(port)
    requires forall port: Port, k: nat :: sw.Marked(port.side, port.index, k) ==> !sw.Serves(port)
    ensures sw.Quiet() <==>
              forall port: Port, k: nat :: port != source && Aimed(sw.table.contents, pkts, mask, port, k, sw.westNb, sw.eastNb) ==> sw.Serves(port)
    ensures sw.Quiet() ==> Delivered(sent, sw.table.contents, pkts, mask, source, sw.westNb, sw.eastNb)
  {
    hide Meant, InUse, SentTo, SwitchState.Marked;
    if sw.Quiet() {
      forall port: Port, k: nat | port != source && Aimed(sw.table.contents, pkts, mask, port, k, sw.westNb, sw.eastNb) ensures sw.Serves(port) {
        assert SentTo(sent, port, k);
      }
    }
    if forall port: Port, k: nat :: port != source && Aimed(sw.table.contents, pkts, mask, port, k, sw.westNb, sw.eastNb) ==> sw.Serves(port) {
      forall s, j: nat, k: nat ensures !sw.Marked(s, j, k) {
        var port := Port(s, j);
        assert port.side == s && port.index == j;
      }
    }
  }

  /** With the ports in use first, packets are meant for ports that are served. */
  lemma AllInUse(sw: SwitchState, pkts: seq<Packet>, mask: Word)
    requires |pkts| == 64 && sw.Contiguous() && sw.KnownLinked()
    ensures forall port: Port, k: nat :: Aimed(sw.table.contents, pkts, mask, port, k, sw.westNb, sw.eastNb) ==> sw.Serves(port)
  {
    hide Meant;
    forall port: Port, k: nat | Aimed(sw.table.contents, pkts, mask, port, k, sw.westNb, sw.eastNb) ensures sw.Serves(port) {
      MeantInUse(sw.table.contents, pkts[k].dst, port, sw.westNb, sw.eastNb);
      assert port.index < sw.Nb(port.side) <= |sw.Linked(port.side)|;
    }
  }

  /** Packets are meant for ports in use. */
  lemma MeantInUse(known: map<nat, Port>, dst: nat, port: Port, wn: nat, en: nat)
    requires forall m :: m in known ==> known[m].index < Pick(known[m].side, wn, en)
    ensures Meant(known, dst, port, Pick(port.side, wn, en)) ==> port.index < Pick(port.side, wn, en)
  {
  }

  /** What is known after a burst is known on ports in use. */
  lemma KnownAfter(was: map<nat, Port>, now: map<nat, Port>, pkts: seq<Packet>, mask: Word, source: Port, westNb: nat, eastNb: nat)
    requires |pkts| == 64 && Learned(was, now, pkts, mask, 64, source)
    requires source.index < if source.side.West? then westNb else eastNb
    requires forall m :: m in was ==> was[m].index < if was[m].side.West? then westNb else eastNb
    ensures forall m :: m in now ==> now[m].index < if now[m].side.West? then westNb else eastNb
  {
    hide FromBurst;
  }

  /** The lists of both sides say for every port what is sent on it, and name no port twice. */
  lemma SentExactly(out: seq<Word>, outLinked: seq<bool>, n: nat, back: seq<Word>, backLinked: seq<bool>, m: nat, to: SideName)
    requires n <= |out| == |outLinked| && m <= |back| == |backLinked|
    ensures var sent := SendList(out, outLinked, to, n) + SendList(back, backLinked, to.Flip(), m);
            && DistinctPorts(sent)
            && (forall e :: e in sent <==> Leaves(out, outLinked, to, n, e) || Leaves(back, backLinked, to.Flip(), m, e))
  {
    var first, second := SendList(out, outLinked, to, n), SendList(back, backLinked, to.Flip(), m);
    SendListDistinct(out, outLinked, to, n);
    SendListDistinct(back, backLinked, to.Flip(), m);
    forall e: Sent ensures e in first + second <==> Leaves(out, outLinked, to, n, e) || Leaves(back, backLinked, to.Flip(), m, e) {
      SendListHas(out, outLinked, to, n, e);
      SendListHas(back, backLinked, to.Flip(), m, e);
    }
    forall e | e in first ensures e.port.side == to { SendListHas(out, outLinked, to, n, e); }
    forall e | e in second ensures e.port.side == to.Flip() { SendListHas(back, backLinked, to.Flip(), m, e); }
  }

  lemma SentToPort(out: seq<Word>, outLinked: seq<bool>, n: nat, back: seq<Word>, backLinked: seq<bool>, m: nat, to: SideName, port: Port, k: nat)
    requires n <= |out| == |outLinked| && m <= |back| == |backLinked|
    ensures var sent := SendList(out, outLinked, to, n) + SendList(back, backLinked, to.Flip(), m);
            SentTo(sent, port, k) <==>
              && k < 64
              && if port.side == to then port.index < n && outLinked[port.index] && out[port.index][k]
                 else port.index < m && backLinked[port.index] && back[port.index][k]
  {
    hide SendList;
    var sent := SendList(out, outLinked, to, n) + SendList(back, backLinked, to.Flip(), m);
    SentExactly(out, outLinked, n, back, backLinked, m, to);
    if k < 64 && port.side == to && port.index < n && outLinked[port.index] && out[port.index][k] {
      assert Leaves(out, outLinked, to, n, Sent(port, out[port.index])) && Sent(port, out[port.index]) in sent;
    }
    if k < 64 && port.side != to && port.index < m && backLinked[port.index] && back[port.index][k] {
      assert Leaves(back, backLinked, to.Flip(), m, Sent(port, back[port.index])) && Sent(port, back[port.index]) in sent;
    }
  }

  /** Serving all linked ports leaves no mark if those are all that are marked. */
  lemma AllServed(masks: seq<Word>, linked: seq<bool>, n: nat)
    requires n <= |masks| == |linked|
    ensures |Cleared(masks, linked, n)| == |masks|
    ensures forall j :: 0 <= j < |masks| ==> Cleared(masks, linked, n)[j] == if j < n && linked[j] then ZERO else masks[j]
  {
  }

  /** Every packet of the burst has been sent to the ports it is meant for but the source, and to no other. */
  ghost predicate Delivered(sent: seq<Sent>, known: map<nat, Port>, pkts: seq<Packet>, mask: Word, source: Port, wn: nat, en: nat)
    requires |pkts| == 64
  {
    forall port: Port, k: nat :: SentTo(sent, port, k) <==>
      k < 64 && mask[k] && port != source && Meant(known, pkts[k].dst, port, Pick(port.side, wn, en))
  }

  /**
   The same with addresses as numbers: nothing for the sixteen bridge addresses,
   all ports for an odd address or one that is not known, else the port it is
   known on.
   */
  ghost predicate DeliveredByNumber(sent: seq<Sent>, known: map<nat, Port>, pkts: seq<Packet>, mask: Word, source: Port, wn: nat, en: nat)
    requires |pkts| == 64
  {
    forall port: Port, k: nat :: SentTo(sent, port, k) <==>
      k < 64 && mask[k] && port != source && Wanted(known, pkts[k].dst, port, Pick(port.side, wn, en))
  }

  ghost predicate Wanted(known: map<nat, Port>, dst: nat, port: Port, nb: nat) {
    && (forall n: nat :: n < 16 ==> dst % KEYS != BridgeKey(n))
    && if dst % 2 == 1 || dst % KEYS !in known then port.index < nb else known[dst % KEYS] == port
  }

  lemma MeantIsWanted(known: map<nat, Port>, dst: nat, port: Port, nb: nat)
    ensures Meant(known, dst, port, nb) <==> Wanted(known, dst, port, nb)
  {
    hide Multicast, Filtered, BridgeKey;
    AddressKinds(dst);
  }

  lemma DeliveredNumbers(sent: seq<Sent>, known: map<nat, Port>, pkts: seq<Packet>, mask: Word, source: Port, wn: nat, en: nat)
    requires |pkts| == 64 && Delivered(sent, known, pkts, mask, source, wn, en)
    ensures DeliveredByNumber(sent, known, pkts, mask, source, wn, en)
  {
    hide SentTo, Meant, Wanted;
    forall port: Port, k: nat
      ensures SentTo(sent, port, k) <==>
        k < 64 && mask[k] && port != source && Wanted(known, pkts[k].dst, port, Pick(port.side, wn, en))
    {
      if k < 64 { MeantIsWanted(known, pkts[k].dst, port, Pick(port.side, wn, en)); }
    }
  }

  /** A cleared mask sends nothing. */
  lemma NeverBack(sw: SwitchState, source: Port, to: SideName)
    requires sw.Ok() && source.index < sw.Masks(source.side).Length && sw.Masks(source.side)[source.index] == ZERO
    ensures forall n: nat, e :: n <= |sw.Linked(to)| && e in SendList(sw.Masks(to)[..], sw.Linked(to), to, n) ==> e.port != source
  {
    forall n: nat, e | n <= |sw.Linked(to)| && e in SendList(sw.Masks(to)[..], sw.Linked(to), to, n) ensures e.port != source {
      SendListHas(sw.Masks(to)[..], sw.Linked(to), to, n, e);
    }
  }

  /** `e` is the burst of a linked port of the side with marked packets. */
  ghost predicate Leaves(masks: seq<Word>, linked: seq<bool>, to: SideName, n: nat, e: Sent)
    requires n <= |masks| == |linked|
  {
    var j := e.port.index;
    e.port.side == to && j < n && linked[j] && !Empty(masks[j]) && e.packets == masks[j]
  }

  /** The list holds exactly the linked ports with marked packets. */
  lemma {:induction false} SendListHas(masks: seq<Word>, linked: seq<bool>, to: SideName, n: nat, e: Sent)
    requires n <= |masks| == |linked|
    ensures e in SendList(masks, linked, to, n) <==> Leaves(masks, linked, to, n, e)
  {
    if n > 0 { SendListHas(masks, linked, to, n - 1, e); }
  }

  /** No port is served twice. */
  ghost predicate DistinctPorts(sent: seq<Sent>) {
    forall a, b :: 0 <= a < b < |sent| ==> sent[a].port != sent[b].port
  }

  lemma {:induction false} SendListDistinct(masks: seq<Word>, linked: seq<bool>, to: SideName, n: nat)
    requires n <= |masks| == |linked|
    ensures DistinctPorts(SendList(masks, linked, to, n))
  {
    if n > 0 {
      SendListDistinct(masks, linked, to, n - 1);
      var less := SendList(masks, linked, to, n - 1);
      forall e | e in less ensures e.port.index < n - 1 { SendListHas(masks, linked, to, n - 1, e); }
    }
  }

  lemma Refused(sent: seq<Sent>, less: seq<Sent>, one: seq<Sent>, accepts: Port -> bool, port: Port)
    requires |one| == 1 && one[0].port == port && !accepts(port) && forall e :: e in less ==> accepts(e.port)
    ensures var more := sent + (less + one);
            !accepts(more[|more| - 1].port) && forall i :: |sent| <= i < |more| - 1 ==> accepts(more[i].port)
  {
    var more := sent + (less + one);
    assert more[|more| - 1] == one[0];
    forall i | |sent| <= i < |more| - 1 ensures accepts(more[i].port) {
      assert more[i] == less[i - |sent|];
    }
  }

  lemma ServeNone(masks: seq<Word>, linked: seq<bool>, to: SideName)
    requires |masks| == |linked|
    ensures SendList(masks, linked, to, 0) == [] && Cleared(masks, linked, 0) == masks
  {
  }

  /** One more port served. */
  lemma ServeOne(masks: seq<Word>, linked: seq<bool>, to: SideName, j: nat)
    requires j < |masks| == |linked|
    ensures SendList(masks, linked, to, j + 1) == SendList(masks, linked, to, j) + SendOne(masks, linked, to, j)
    ensures |Cleared(masks, linked, j)| == |masks|
    ensures SendOne(Cleared(masks, linked, j), linked, to, j) == SendOne(masks, linked, to, j)
    ensures |SendOne(masks, linked, to, j)| <= 1
    ensures SendOne(masks, linked, to, j) == [] || forall e :: e in SendOne(masks, linked, to, j) ==> e.port == Port(to, j)
    ensures SendOne(masks, linked, to, j) != [] ==> exists e :: e in SendOne(masks, linked, to, j)
    ensures Cleared(masks, linked, j + 1) == if linked[j] then Cleared(masks, linked, j)[j := ZERO] else Cleared(masks, linked, j)
  {
    if linked[j] && !Empty(masks[j]) {
      assert Sent(Port(to, j), masks[j]) in SendOne(masks, linked, to, j);
    }
  }

  /** What leaves on one port. */
  function SendOne(masks: seq<Word>, linked: seq<bool>, to: SideName, j: nat): seq<Sent>
    requires j < |masks| == |linked|
  {
    if linked[j] && !Empty(masks[j]) then [Sent(Port(to, j), masks[j])] else []
  }

  /** What leaves on the first `n` ports of a side. */
  function SendList(masks: seq<Word>, linked: seq<bool>, to: SideName, n: nat): seq<Sent>
    requires n <= |masks| == |linked|
  {
    if n == 0 then [] else SendList(masks, linked, to, n - 1) + SendOne(masks, linked, to, n - 1)
  }

  /** The masks of a side after its first `n` ports have been served. */
  function Cleared(masks: seq<Word>, linked: seq<bool>, n: nat): seq<Word>
    requires n <= |masks| == |linked|
  {
    seq(|masks|, j requires 0 <= j < |masks| => if j < n && linked[j] then ZERO else masks[j])
  }

  /** The address was learned on that port. */
  ghost predicate KnownAt(known: map<nat, Port>, dst: nat, s: SideName, j: nat) {
    dst % KEYS in known && known[dst % KEYS] == Port(s, j)
  }

  /** The ports a packet to a single address is meant for. */
  ghost predicate Chosen(known: map<nat, Port>, dst: nat, s: SideName, j: nat, nb: nat) {
    if dst % KEYS in known then known[dst % KEYS] == Port(s, j) else j < nb
  }

  /**
   With the first of two west neighbours gone, a packet for a group does not
   reach the second one, and stays marked for the first.
   */
  method UnlinkedPortMisses(dst: nat) returns (sw: SwitchState, ok: bool, sent: seq<Sent>)
    requires Multicast(dst) && !Filtered(dst)
    ensures sw.Ok() && sw.Linked(West) == [false, true] && sw.Nb(West) == 1 && ok
    ensures !SentTo(sent, Port(West, 1), 0) && sw.Marked(West, 0, 0)
  {
    hide Table.Valid, Multicast, Filtered, SentTo, DistinctPorts, Learned, Delivered;
    sw := new SwitchState(2, 1, West);
    sw.westLinked, sw.westNb := [false, true], 1;
    sw.eastLinked, sw.eastNb := [true], 1;
    var pkts := seq(64, _ => Packet(dst, 0));
    var mask: Word := seq(64, k => k == 0);
    ok, sent := sw.Burst(Port(East, 0), pkts, mask, _ => true);
    ghost var first, second := Port(West, 0), Port(West, 1);
    assert Aimed(sw.table.contents, pkts, mask, first, 0, sw.westNb, sw.eastNb) && !sw.Serves(first) && !sw.Serves(second);
    assert sw.Marked(first.side, first.index, 0);
  }

  // ----- whole runs

  /** What happens to the table: a burst comes in, or a port is unlinked while the mask of the table is `masks`. */
  datatype Event = Heard(port: Port, pkts: seq<Packet>, mask: Word) | Unlinked(port: Port, masks: seq<Word>)

  /** Address `m` is heard on the port of the event. */
  ghost predicate Hears(e: Event, m: nat) { e.Heard? && |e.pkts| == 64 && FromBurst(e.pkts, e.mask, 64, m) }

  /** What was learned of `m` on `port` is forgotten. */
  ghost predicate Forgets(e: Event, m: nat, port: Port) {
    e.Unlinked? && e.port == port && !MacIterator.Skipped(e.masks, m)
  }

  /** The addresses known before and after an event, as SwitchState.Burst and SwitchState.UnlinkNotify have them. */
  ghost predicate Step(was: map<nat, Port>, e: Event, now: map<nat, Port>) {
    match e
    case Heard(port, pkts, mask) => |pkts| == 64 && Learned(was, now, pkts, mask, 64, port)
    case Unlinked(port, masks) =>
      && (forall m :: m in now <==> m in was && (was[m] != port || MacIterator.Skipped(masks, m)))
      && (forall m :: m in now ==> now[m] == was[m])
  }

  /** The addresses known along a run that starts with an empty table. */
  ghost predicate Run(states: seq<map<nat, Port>>, events: seq<Event>) {
    && |states| == |events| + 1 && states[0] == map[]
    && forall i :: 0 <= i < |events| ==> Step(states[i], events[i], states[i + 1])
  }

  /** Event `i` is the last that heard `m`, it came from `port`, and `port` has not been forgotten since. */
  ghost predicate StillKnown(events: seq<Event>, m: nat, port: Port, i: nat) {
    && i < |events| && Hears(events[i], m) && events[i].port == port
    && forall j :: i < j < |events| ==> !Hears(events[j], m) && !Forgets(events[j], m, port)
  }

  lemma StepKnows(was: map<nat, Port>, e: Event, now: map<nat, Port>, m: nat, port: Port)
    requires Step(was, e, now)
    ensures m in now && now[m] == port <==>
              (Hears(e, m) && e.port == port) || (!Hears(e, m) && !Forgets(e, m, port) && m in was && was[m] == port)
  {
    hide FromBurst, MacIterator.Skipped;
  }

  /** One more event. */
  lemma StillKnownMore(events: seq<Event>, e: Event, m: nat, port: Port)
    ensures (exists i: nat :: StillKnown(events + [e], m, port, i)) <==>
              || (Hears(e, m) && e.port == port)
              || (!Hears(e, m) && !Forgets(e, m, port) && exists i: nat :: StillKnown(events, m, port, i))
  {
    hide Hears, Forgets;
    var more, n := events + [e], |events|;
    assert more[n] == e && more[..n] == events;
    if Hears(e, m) && e.port == port {
      assert StillKnown(more, m, port, n);
    }
    if exists i: nat :: StillKnown(more, m, port, i) {
      var i: nat :| StillKnown(more, m, port, i);
      if i < n {
        assert StillKnown(events, m, port, i) by { assert forall j :: i <= j < n ==> events[j] == more[j]; }
        assert !Hears(more[n], m) && !Forgets(more[n], m, port);
      }
    }
    if !Hears(e, m) && !Forgets(e, m, port) && exists i: nat :: StillKnown(events, m, port, i) {
      var i: nat :| StillKnown(events, m, port, i);
      assert StillKnown(more, m, port, i) by { assert forall j :: i <= j < n ==> events[j] == more[j]; }
    }
  }

  /** After any run an address is known on a port exactly if it was last heard there and not forgotten since. */
  lemma {:induction false} LastHeard(states: seq<map<nat, Port>>, events: seq<Event>, m: nat, port: Port)
    requires Run(states, events)
    ensures m in states[|events|] && states[|events|][m] == port <==> exists i: nat :: StillKnown(events, m, port, i)
    decreases |events|
  {
    hide Step, Hears, Forgets, StillKnown;
    var n := |events|;
    if n > 0 {
      var before := events[..n - 1];
      assert Run(states[..n], before) by {
        forall i | 0 <= i < |before| ensures Step(states[..n][i], before[i], states[..n][i + 1]) {
          assert Step(states[i], events[i], states[i + 1]);
        }
      }
      LastHeard(states[..n], before, m, port);
      StepKnows(states[n - 1], events[n - 1], states[n], m, port);
      assert events == before + [events[n - 1]];
      StillKnownMore(before, events[n - 1], m, port);
    } else {
      NeverKnown(events, m, port);
    }
  }

  lemma NeverKnown(events: seq<Event>, m: nat, port: Port)
    ensures events == [] ==> forall i: nat :: !StillKnown(events, m, port, i)
  {
  }
}
