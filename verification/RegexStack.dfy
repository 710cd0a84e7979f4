/**
 The token stack in memory: a doubly linked chain of fixed-size fragments that
 is never shortened, with a pointer to the fragment of the top item.

 The contents are a sequence; pushing, popping and copying are proved against
 sequence operations, also for a clone that shares the fragments.
 */
module RegexStack {

  /** Items per fragment. */
  const SIZE: nat := 62

  /** The top `length` items of `s` moved up by `items` places: stack_push_copy on a sequence. */
  function Copied<T>(s: seq<T>, items: nat, length: nat): (r: seq<T>)
    requires 0 < items <= length <= |s|
    ensures |r| == |s| + items
  {
    s[..|s| - length + items] + s[|s| - length..]
  }

  /** Places `top - n + 1 .. top` of `s` copied to the places `d` further up. */
  function Shifted<T>(s: seq<T>, top: nat, d: nat, n: nat): (r: seq<T>)
    requires 0 < d && n <= top + 1 && top + d < |s|
    ensures |r| == |s|
  {
    s[..top + d - n + 1] + s[top - n + 1..top + 1] + s[top + d + 1..]
  }

  lemma ShiftOneMore<T>(s: seq<T>, top: nat, d: nat, n: nat)
    requires 0 < d && n < top + 1 && top + d < |s|
    ensures var r := Shifted(s, top, d, n);
            r[top + d - n := r[top - n]] == Shifted(s, top, d, n + 1)
  {
  }

  class Fragment<T(0)> {
    var items: seq<T>
    var next: Fragment?<T>
    var prev: Fragment?<T>

    constructor (prev: Fragment?<T>)
      ensures |items| == SIZE && next == null && this.prev == prev
    {
      var any: T := *;
      items := seq(SIZE, _ => any);
      next := null;
      this.prev := prev;
    }
  }

  class Stack<T(0)> {
    var first: Fragment?<T>
    var last: Fragment?<T>
    var index: int
    var count: nat
    /** The chain, from the first fragment on. */
    ghost var frags: seq<Fragment<T>>

    /** The fragments form a proper chain. */
    ghost predicate Linked()
      reads this`first, this`frags, frags
    {
      && (frags == [] ==> first == null)
      && (frags != [] ==> first == frags[0])
      && (forall k {:trigger frags[k].items} :: 0 <= k < |frags| ==> |frags[k].items| == SIZE)
      && (forall k {:trigger frags[k].next} :: 0 <= k < |frags| ==> frags[k].next == if k + 1 < |frags| then frags[k + 1] else null)
      && (forall k {:trigger frags[k].prev} :: 0 <= k < |frags| ==> frags[k].prev == if k > 0 then frags[k - 1] else null)
      && (forall k, j :: 0 <= k < j < |frags| ==> frags[k] != frags[j])
    }

    /** The top pointer stands at place `pos` of the chain. */
    ghost predicate PointsAt(pos: nat)
      reads this
    {
      pos < SIZE * |frags| && last == frags[pos / SIZE] && index == pos % SIZE
    }

    ghost predicate Valid()
      reads this, frags
    {
      Linked() && if count == 0 then last == null && index == SIZE - 1 else PointsAt(count - 1)
    }

    /** All places of the chain, used and unused alike. */
    ghost function Places(): (s: seq<T>)
      requires Linked()
      reads this`first, this`frags, frags
      ensures |s| == SIZE * |frags|
    {
      var fs := frags;
      seq(SIZE * |fs|, i requires 0 <= i < SIZE * |fs| && |fs[i / SIZE].items| == SIZE reads fs => fs[i / SIZE].items[i % SIZE])
    }

    ghost function Contents(): (s: seq<T>)
      requires Valid()
      reads this, frags
      ensures |s| == count
    {
      Places()[..count]
    }

    constructor ()
      ensures Valid() && Contents() == [] && frags == []
    {
      first, last, index, count, frags := null, null, SIZE - 1, 0, [];
    }

    /** stack_clone: the copy shares all fragments. */
    constructor Clone(src: Stack<T>)
      requires src.Valid()
      ensures Valid() && frags == src.frags && count == src.count
      ensures Places() == src.Places() && Contents() == src.Contents()
    {
      first, last, index, count, frags := src.first, src.last, src.index, src.count, src.frags;
    }

    /** stack_clone onto a stack that is in use. */
    method Become(src: Stack<T>)
      requires src.Valid()
      modifies this
      ensures Valid() && frags == old(src.frags) && Contents() == old(src.Contents())
    {
      first, last, index, count, frags := src.first, src.last, src.index, src.count, src.frags;
    }

    method Top() returns (x: T)
      requires Valid() && count > 0
      ensures x == Contents()[count - 1]
    {
      x := last.items[index];
    }

    /** Only the stack object changes; the fragments, and so any other stack on them, do not. */
    method Pop() returns (x: T)
      requires Valid() && count > 0
      modifies this`last, this`index, this`count
      ensures Valid()
      ensures x == old(Contents())[old(count) - 1]
      ensures Contents() == old(Contents())[..old(count) - 1] && Places() == old(Places())
    {
      x := last.items[index];
      assert Places() == old(Places());
      if index > 0 {
        index := index - 1;
      } else {
        last := last.prev;
        index := SIZE - 1;
      }
      count := count - 1;
    }

    /** Makes the fragment behind fragment `k` exist and moves `last` there. */
    method Advance(ghost k: nat)
      requires Linked() && k < |frags| && last == frags[k]
      modifies this`last, this`frags, frags
      ensures Linked() && k + 1 < |frags| && last == frags[k + 1]
      ensures k + 1 < |old(frags)| ==> frags == old(frags)
      ensures Extends(old(frags)) && old(Places()) <= Places()
    {
      if last.next == null {
        assert k == |frags| - 1;
        var f := new Fragment<T>(last);
        last.next := f;
        frags := frags + [f];
      }
      last := last.next;
    }

    /** New fragments may have been added to the chain `fs`. */
    twostate predicate Extends(fs: seq<Fragment<T>>)
      reads this
    {
      fs <= frags && forall j {:trigger frags[j]} :: |fs| <= j < |frags| ==> fresh(frags[j])
    }

    /** Moves the top pointer to the place behind the top item; `count` is left alone. */
    method MoveUp()
      requires Valid()
      modifies this`first, this`last, this`index, this`frags, frags
      ensures Linked() && PointsAt(count)
      ensures count < SIZE * |old(frags)| ==> frags == old(frags)
      ensures Extends(old(frags)) && old(Places()) <= Places()
    {
      if last != null {
        index := index + 1;
        if index >= SIZE {
          index := 0;
          Advance((count - 1) / SIZE);
        }
      } else if first == null {
        last := new Fragment<T>(null);
        first := last;
        index := 0;
        frags := [last];
      } else {
        last := first;
        index := 0;
      }
    }

    /** Stores `x` at the top pointer. */
    method Store(x: T, ghost pos: nat)
      requires Linked() && PointsAt(pos)
      modifies last`items
      ensures Linked() && Places() == old(Places())[pos := x]
    {
      last.items := last.items[index := x];
      assert forall i: nat :: i < SIZE * |frags| && i != pos ==> Places()[i] == old(Places())[i];
    }

    method Push(x: T)
      requires Valid()
      modifies this, frags
      ensures Valid() && Extends(old(frags)) && count == old(count) + 1
      ensures old(count) < SIZE * |old(frags)| ==> frags == old(frags)
      ensures Contents() == old(Contents()) + [x]
      ensures forall i :: 0 <= i < |old(Places())| && i != old(count) ==> Places()[i] == old(Places())[i]
    {
      hide Linked, Places;
      ghost var was := Places();
      MoveUp();
      assert last in frags;
      Store(x, count);
      count := count + 1;
    }

    /** Moves the top pointer up by `n` places, adding fragments as needed; `count` is left alone. */
    method Extend(n: nat)
      requires Valid() && count > 0
      modifies this`last, this`index, this`frags, frags
      ensures Linked() && PointsAt(count - 1 + n)
      ensures Extends(old(frags)) && old(Places()) <= Places()
    {
      hide Linked, Places;
      var counter := n;
      ghost var k: nat := (count - 1) / SIZE;
      while counter > 0
        invariant 0 <= counter && k < |frags| && Linked() && 0 <= index < SIZE
        invariant last == frags[k] && SIZE * k + index + counter == count - 1 + n
        invariant Extends(old(frags)) && old(Places()) <= Places()
        decreases counter
      {
        if index + counter >= SIZE {
          counter := counter - (SIZE - index - 1 + 1);
          index := 0;
          Advance(k);
          k := k + 1;
        } else {
          index := index + counter;
          counter := 0;
        }
      }
    }

    method CopyOne(f1: Fragment<T>, i1: nat, f2: Fragment<T>, i2: nat, ghost from: nat, ghost to: nat)
      requires Linked() && from < to < SIZE * |frags|
      requires f1 == frags[from / SIZE] && i1 == from % SIZE
      requires f2 == frags[to / SIZE] && i2 == to % SIZE
      modifies f2`items
      ensures Linked() && Places() == old(Places())[to := old(Places())[from]]
    {
      f2.items := f2.items[i2 := f1.items[i1]];
      assert forall i: nat :: i < SIZE * |frags| && i != to ==> Places()[i] == old(Places())[i];
    }

    /** The place below place `pos`, as a fragment and an index. */
    method Below(f: Fragment<T>, i: nat, ghost pos: nat) returns (f': Fragment?<T>, i': nat)
      requires Linked() && pos < SIZE * |frags| && f == frags[pos / SIZE] && i == pos % SIZE
      ensures pos > 0 ==> f' == frags[(pos - 1) / SIZE] && i' == (pos - 1) % SIZE
    {
      if i > 0 {
        f', i' := f, i - 1;
      } else {
        f', i' := f.prev, SIZE - 1;
      }
    }

    /** Copies `length` items, from the top down, from the places up to `p1` to the places `d` further up. */
    method CopyDown(frag1: Fragment<T>, ind1: nat, frag2: Fragment<T>, ind2: nat, length: nat, ghost p1: nat, ghost d: nat)
      requires Linked() && 0 < d && 0 < length <= p1 + 1 && p1 + d < SIZE * |frags|
      requires frag1 == frags[p1 / SIZE] && ind1 == p1 % SIZE
      requires frag2 == frags[(p1 + d) / SIZE] && ind2 == (p1 + d) % SIZE
      modifies frags
      ensures Linked() && Places() == Shifted(old(Places()), p1, d, length)
    {
      hide Linked, Places, Shifted;
      var f1: Fragment?<T>, i1: nat, f2: Fragment?<T>, i2: nat := frag1, ind1, frag2, ind2;
      var left := length;
      NoShift(Places(), p1, d);
      while left > 0
        invariant 0 <= left <= length && Linked()
        invariant left > 0 ==> var p := p1 - (length - left);
                    && f1 == frags[p / SIZE] && i1 == p % SIZE
                    && f2 == frags[(p + d) / SIZE] && i2 == (p + d) % SIZE
        invariant Places() == Shifted(old(Places()), p1, d, length - left)
      {
        ghost var p := p1 - (length - left);
        CopyOne(f1, i1, f2, i2, p, p + d);
        ShiftOneMore(old(Places()), p1, d, length - left);
        f1, i1 := Below(f1, i1, p);
        f2, i2 := Below(f2, i2, p + d);
        left := left - 1;
      }
    }

    /** stack_push_copy. */
    method PushCopy(items: nat, length: nat)
      requires Valid() && 0 < items <= length <= count
      modifies this, frags
      ensures Valid() && Extends(old(frags))
      ensures Contents() == Copied(old(Contents()), items, length)
    {
      hide Linked, Places, Shifted, Copied;
      var frag1, ind1 := last, index;
      ghost var was := Places();
      Extend(items);
      ShiftedTop(was, Places(), count, items, length);
      CopyDown(frag1, ind1, last, index, length, count - 1, items);
      count := count + items;
    }
  }

  lemma ShiftedTop<T>(was: seq<T>, now: seq<T>, count: nat, items: nat, length: nat)
    requires was <= now && 0 < items <= length <= count <= |was| && count - 1 + items < |now|
    ensures Shifted(now, count - 1, items, length)[..count + items] == Copied(was[..count], items, length)
  {
    var a, b := now[..count - length + items], now[count - length..count];
    assert Shifted(now, count - 1, items, length) == (a + b) + now[count + items..];
    assert a == was[..count][..count - length + items];
    assert b == was[..count][count - length..];
  }

  lemma NoShift<T>(s: seq<T>, top: nat, d: nat)
    requires 0 < d && top + d < |s|
    ensures Shifted(s, top, d, 0) == s
  {
  }

  /**
   The trick of iterate: the items above place `at` have been moved up by one
   and a clone, popped down to `at`, pushes into the gap; the stack sees the new
   item there and is otherwise unchanged.
   */
  method PushIntoGap<T(0)>(stack: Stack<T>, it: Stack<T>, x: T)
    requires stack != it && stack.Valid() && it.Valid() && it.frags == stack.frags
    requires it.count < stack.count
    modifies it, it.frags
    ensures stack.Valid() && it.Valid()
    ensures stack.Contents() == old(stack.Contents())[old(it.count) := x]
  {
    hide Stack<T>.Places;
    SamePlaces(stack, it);
    it.Push(x);
    SamePlaces(stack, it);
    assert it.Places()[old(it.count)] == it.Contents()[old(it.count)];
  }

  /** Puts `x` below the top `length` items, through a clone that has been popped down to them. */
  method PushBelow<T(0)>(stack: Stack<T>, it: Stack<T>, length: nat, x: T)
    requires stack != it && stack.Valid() && it.Valid() && it.frags == stack.frags
    requires 0 < length && it.count + length == stack.count
    modifies stack, it, stack.frags
    ensures stack.Valid() && stack.Extends(old(stack.frags))
    ensures stack.Contents() == old(stack.Contents())[..old(it.count)] + [x] + old(stack.Contents())[old(it.count)..]
  {
    hide Stack<T>.Places, Stack<T>.Linked, Stack<T>.PointsAt, Copied;
    ghost var was, below, fs := stack.Contents(), it.count, it.frags;
    InChain(stack, it);
    stack.PushCopy(1, length);
    it.frags := stack.frags;
    SeesChain(stack, it, fs);
    PushIntoGap(stack, it, x);
    GapFilled(was, below, x);
  }

  lemma InChain<T(0)>(stack: Stack<T>, it: Stack<T>)
    requires stack.Valid() && it.Valid() && it.frags == stack.frags && stack.count > 0
    ensures it.frags != [] && it.first == it.frags[0]
    ensures it.count > 0 ==> it.count <= SIZE * |it.frags| && it.last == it.frags[(it.count - 1) / SIZE] && it.index == (it.count - 1) % SIZE
  {
  }

  /** A stack stays on its chain when another one extends it. */
  lemma SeesChain<T(0)>(stack: Stack<T>, it: Stack<T>, fs: seq<Fragment<T>>)
    requires stack.Linked() && it.frags == stack.frags && fs <= it.frags && fs != [] && it.first == fs[0]
    requires it.count == 0 ==> it.last == null && it.index == SIZE - 1
    requires it.count > 0 ==> it.count <= SIZE * |fs| && it.last == fs[(it.count - 1) / SIZE] && it.index == (it.count - 1) % SIZE
    ensures it.Valid()
  {
  }

  lemma GapFilled<T>(s: seq<T>, below: nat, x: T)
    requires below < |s|
    ensures Copied(s, 1, |s| - below)[below := x] == s[..below] + [x] + s[below..]
  {
  }

  /** Two stacks on the same chain see the same places. */
  lemma SamePlaces<T(0)>(a: Stack<T>, b: Stack<T>)
    requires a.frags == b.frags && b.Linked() && a.first == b.first
    ensures a.Linked() && a.Places() == b.Places()
  {
  }
}
