/**
 The bursts that wait in a queue brick.

 The producer looks at the length, perhaps drops the oldest burst, and then
 appends; each of these is one atomic access to the queue, and the friend that
 polls may come in between.  The methods of `Queue` are these accesses, so that
 every interleaving is a sequence of calls.
 */
module QueueBrick {

  /** What became of a burst that left the queue. */
  datatype Fate = Polled | Dropped

  /** Where the producer is: between bursts, about to drop one, or about to append one. */
  datatype Producer<T> = Ready | ToDrop(burst: T) | ToPush(burst: T)

  /** The bursts with the given fate, in order. */
  ghost function With<T>(bursts: seq<T>, fates: seq<Fate>, fate: Fate): seq<T>
    requires |bursts| == |fates|
  {
    if bursts == [] then []
    else With(bursts[..|bursts| - 1], fates[..|fates| - 1], fate)
         + if fates[|fates| - 1] == fate then [bursts[|bursts| - 1]] else []
  }

  /** Positions at which `part` is found in `whole`, in order. */
  ghost predicate Embeds<T>(part: seq<T>, whole: seq<T>, at: seq<nat>) {
    && |at| == |part| && (forall i :: 0 <= i < |part| ==> at[i] < |whole| && whole[at[i]] == part[i])
    && forall i, j :: 0 <= i < j < |at| ==> at[i] < at[j]
  }

  lemma EmbedsMore<T>(part: seq<T>, whole: seq<T>, at: seq<nat>)
    requires whole != [] && Embeds(part, whole[..|whole| - 1], at)
    ensures Embeds(part, whole, at) && Embeds(part + [whole[|whole| - 1]], whole, at + [|whole| - 1])
  {
    var n := |whole| - 1;
    forall i | 0 <= i < |part| ensures at[i] < n && whole[at[i]] == part[i] {
      assert whole[..n][at[i]] == whole[at[i]];
    }
  }

  /** The positions are exactly those with the fate. */
  ghost predicate Marks(at: seq<nat>, fates: seq<Fate>, fate: Fate) {
    forall k: nat :: k in at <==> k < |fates| && fates[k] == fate
  }

  lemma MarksMore(at: seq<nat>, fates: seq<Fate>, fate: Fate)
    requires fates != [] && Marks(at, fates[..|fates| - 1], fate)
    ensures Marks(if fates[|fates| - 1] == fate then at + [|fates| - 1] else at, fates, fate)
  {
    var n := |fates| - 1;
    var more := at + [n];
    assert forall k: nat :: k in more <==> k in at || k == n;
    assert forall k :: 0 <= k < n ==> fates[..n][k] == fates[k];
  }

  /** Bursts of one fate are an in-order selection of all bursts. */
  lemma {:induction false} WithEmbeds<T>(bursts: seq<T>, fates: seq<Fate>, fate: Fate) returns (at: seq<nat>)
    requires |bursts| == |fates|
    ensures Embeds(With(bursts, fates, fate), bursts, at) && Marks(at, fates, fate)
    decreases |bursts|
  {
    if bursts == [] {
      at := [];
    } else {
      hide Embeds, Marks;
      var n := |bursts| - 1;
      at := WithEmbeds(bursts[..n], fates[..n], fate);
      EmbedsMore(With(bursts[..n], fates[..n], fate), bursts, at);
      MarksMore(at, fates, fate);
      if fates[n] == fate {
        at := at + [n];
      } else {
        assert With(bursts, fates, fate) == With(bursts[..n], fates[..n], fate);
      }
    }
  }

  class Queue<T> {
    const max: nat
    var rx: seq<T>
    var producer: Producer<T>
    /** All bursts appended so far, and the fates of those that have left. */
    ghost var pushed: seq<T>
    ghost var fates: seq<Fate>
    ghost var polled: seq<T>

    ghost predicate Valid()
      reads this
    {
      && max >= 1 && |rx| <= max && (producer.ToPush? ==> |rx| < max)
      && |fates| <= |pushed| && pushed[|fates|..] == rx
      && polled == With(pushed[..|fates|], fates, Polled)
    }

    /** queue_init: a size of 0 stands for the default of 10. */
    constructor (size: nat)
      ensures Valid() && rx == [] && pushed == [] && polled == [] && producer.Ready? && max == if size == 0 then 10 else size
    {
      max := if size == 0 then 10 else size;
      rx, producer := [], Ready;
      pushed, fates, polled := [], [], [];
    }

    /** The oldest burst leaves the queue. */
    ghost method Leave(fate: Fate)
      requires |fates| < |pushed| && polled == With(pushed[..|fates|], fates, Polled)
      modifies this`fates, this`polled
      ensures fates == old(fates) + [fate]
      ensures polled == old(polled) + if fate.Polled? then [pushed[|old(fates)|]] else []
      ensures polled == With(pushed[..|fates|], fates, Polled)
    {
      var n := |fates|;
      polled := polled + if fate.Polled? then [pushed[n]] else [];
      fates := fates + [fate];
      assert pushed[..n + 1][..n] == pushed[..n] && fates[..n] == old(fates);
    }

    /** The producer looks at the length. */
    method Start(burst: T)
      requires Valid() && producer.Ready?
      modifies this`producer
      ensures Valid() && producer == if |rx| == max then ToDrop(burst) else ToPush(burst)
    {
      producer := if |rx| >= max then ToDrop(burst) else ToPush(burst);
    }

    /** The producer drops the oldest burst, unless the friend has emptied the queue meanwhile. */
    method Drop()
      requires Valid() && producer.ToDrop?
      modifies this
      ensures Valid() && producer == ToPush(old(producer.burst)) && pushed == old(pushed) && polled == old(polled)
      ensures rx == if old(rx) == [] then [] else old(rx)[1..]
      ensures fates == if old(rx) == [] then old(fates) else old(fates) + [Dropped]
    {
      producer := ToPush(producer.burst);
      if rx != [] {
        Leave(Dropped);
        assert pushed[|old(fates)| + 1..] == rx[1..];
        rx := rx[1..];
      }
    }

    /** The producer appends. */
    method Push()
      requires Valid() && producer.ToPush?
      modifies this
      ensures Valid() && producer.Ready? && rx == old(rx) + [old(producer.burst)]
      ensures pushed == old(pushed) + [old(producer.burst)] && polled == old(polled) && fates == old(fates)
    {
      rx, pushed := rx + [producer.burst], pushed + [producer.burst];
      producer := Ready;
      assert pushed[..|fates|] == old(pushed)[..|fates|];
    }

    /** queue_poll, called by the friend: takes the oldest burst, if there is one. */
    method Poll() returns (ok: bool, burst: seq<T>)
      requires Valid()
      modifies this
      ensures Valid() && producer == old(producer) && pushed == old(pushed)
      ensures ok <==> old(rx) != []
      ensures burst == if ok then [old(rx)[0]] else []
      ensures rx == if ok then old(rx)[1..] else old(rx)
      ensures polled == old(polled) + burst && fates == if ok then old(fates) + [Polled] else old(fates)
    {
      if rx == [] {
        return false, [];
      }
      assert rx[0] == pushed[|fates|];
      Leave(Polled);
      ok, burst := true, [rx[0]];
      assert pushed[|old(fates)| + 1..] == rx[1..];
      rx := rx[1..];
    }

    /** queue_burst without interruption: only a full queue loses a burst, its oldest. */
    method Burst(burst: T)
      requires Valid() && producer.Ready?
      modifies this
      ensures Valid() && producer.Ready? && polled == old(polled) && pushed == old(pushed) + [burst]
      ensures rx == (if old(|rx|) == max then old(rx)[1..] else old(rx)) + [burst]
      ensures fates == if old(|rx|) == max then old(fates) + [Dropped] else old(fates)
    {
      Start(burst);
      if producer.ToDrop? {
        Drop();
      }
      Push();
    }

    /**
     At any moment what has been polled is an in-order selection of what was
     pushed; what was neither polled nor dropped is still waiting, in order.
     */
    lemma PolledInOrder() returns (at: seq<nat>)
      requires Valid()
      ensures Embeds(polled, pushed, at) && |rx| <= max
      ensures forall k :: 0 <= k < |pushed| ==>
                (if k >= |fates| then pushed[k] == rx[k - |fates|] else (k in at <==> fates[k].Polled?))
    {
      at := WithEmbeds(pushed[..|fates|], fates, Polled);
      assert forall i :: 0 <= i < |at| ==> pushed[..|fates|][at[i]] == pushed[at[i]];
      forall k | |fates| <= k < |pushed| ensures pushed[k] == rx[k - |fates|] {
        assert pushed[|fates|..][k - |fates|] == pushed[k];
      }
    }
  }
}
