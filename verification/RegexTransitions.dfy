/**
 generate_transitions as the program runs it: an array filled from its end
 through a moving pointer, with earlier cells patched in place.
 */
module RegexTransitions {
  import opened Options
  import opened RegexSyntax
  import opened RegexGenerator
  import opened RegexStack

  /** The state of the pass that the array, the pointer and the depth stack represent. */
  ghost function View(tr: array<Tr>, ptr: nat, depth: seq<Pending>): Gen
    requires ptr <= tr.Length
    reads tr
  {
    Gen(tr[ptr..], depth)
  }

  /** handle_iteratives: pops and completes the operators on top of the depth stack. */
  method CompleteIteratives(tr: array<Tr>, ptr: nat, depth: seq<Pending>) returns (ptr': nat, depth': seq<Pending>)
    requires ptr <= tr.Length
    requires HandleIteratives(View(tr, ptr, depth), tr.Length).Some?
    modifies tr
    ensures ptr' <= tr.Length
    ensures HandleIteratives(old(View(tr, ptr, depth)), tr.Length) == Some(View(tr, ptr', depth'))
  {
    ptr', depth' := ptr, depth;
    while depth'[|depth'| - 1].kind.Iterative()
      invariant ptr' <= tr.Length && depth' != []
      invariant HandleIteratives(View(tr, ptr', depth'), tr.Length) == HandleIteratives(old(View(tr, ptr, depth)), tr.Length)
      invariant HandleIteratives(View(tr, ptr', depth'), tr.Length).Some?
      decreases |depth'|
    {
      ptr', depth' := CompleteOne(tr, ptr', depth');
    }
  }

  /** Completes and pops one operator. */
  method CompleteOne(tr: array<Tr>, ptr: nat, depth: seq<Pending>) returns (ptr': nat, depth': seq<Pending>)
    requires ptr <= tr.Length && depth != [] && depth[|depth| - 1].kind.Iterative()
    requires CompleteTop(View(tr, ptr, depth), tr.Length).Some?
    modifies tr
    ensures ptr' <= tr.Length
    ensures CompleteTop(old(View(tr, ptr, depth)), tr.Length) == Some(View(tr, ptr', depth'))
  {
    var item := depth[|depth| - 1];
    ghost var g := View(tr, ptr, depth);
    assert item == Top(g);
    ptr', depth' := ptr, depth[..|depth| - 1];
    if item.kind.Maybe? {
      ptr' := PutTransition(tr, ptr, Branch(item.value), depth);
      assert View(tr, ptr', depth') == Pop(Put(g, Branch(item.value)));
    } else {
      PatchTransition(tr, ptr, item.value, depth);
      assert View(tr, ptr, depth') == Pop(Patch(g, tr.Length, item.value, ptr));
      if item.kind.Loop? {
        ptr' := PutTransition(tr, ptr, Branch(item.value + 1), depth');
      }
    }
  }

  /** Sets the target of the branch at `at` to the first filled cell. */
  method PatchTransition(tr: array<Tr>, ptr: nat, at: nat, ghost depth: seq<Pending>)
    requires ptr <= at < tr.Length && BranchAt(View(tr, ptr, depth), tr.Length, at)
    modifies tr
    ensures View(tr, ptr, depth) == Patch(old(View(tr, ptr, depth)), tr.Length, at, ptr)
  {
    tr[at] := Branch(ptr);
    assert tr[ptr..] == old(tr[ptr..])[at - ptr := Branch(ptr)];
  }

  /** Writes one transition in front of the filled part. */
  method PutTransition(tr: array<Tr>, ptr: nat, t: Tr, ghost depth: seq<Pending>) returns (ptr': nat)
    requires 0 < ptr <= tr.Length
    modifies tr
    ensures ptr' == ptr - 1
    ensures View(tr, ptr', depth) == Put(old(View(tr, ptr, depth)), t)
  {
    ptr' := ptr - 1;
    tr[ptr'] := t;
    assert tr[ptr'..] == [t] + old(tr[ptr..]);
  }

  /** One turn of the main loop; `bottom` says that the token stack is now empty. */
  method ProcessToken(tr: array<Tr>, ptr: nat, depth: seq<Pending>, t: Token, bottom: bool)
    returns (ptr': nat, depth': seq<Pending>)
    requires ptr <= tr.Length
    requires GenToken(View(tr, ptr, depth), t, tr.Length, bottom).Some?
    modifies tr
    ensures ptr' <= tr.Length
    ensures GenToken(old(View(tr, ptr, depth)), t, tr.Length, bottom) == Some(View(tr, ptr', depth'))
  {
    ghost var g := View(tr, ptr, depth);
    ptr', depth' := ptr, depth;
    match t {
      case Begin => ptr', depth' := ProcessOpen(tr, ptr, depth, bottom);
      case OpenBr => ptr', depth' := ProcessOpen(tr, ptr, depth, bottom);
      case CloseBr => depth' := depth + [Pending(Bracket, ptr)];
      case End =>
        ptr' := PutTransition(tr, ptr, Tok(End), depth);
        depth' := depth + [Pending(Bracket, ptr')];
        assert View(tr, ptr', depth') == Push(Put(g, Tok(End)), Bracket, ptr');
      case Select => ptr', depth' := ProcessSelect(tr, ptr, depth);
      case Asterisk =>
        ptr' := PutTransition(tr, ptr, Branch(0), depth);
        depth' := depth + [Pending(Loop, ptr')];
        assert View(tr, ptr', depth') == Push(Put(g, Branch(0)), Loop, ptr');
      case PlusSign =>
        ptr' := PutTransition(tr, ptr, Branch(0), depth);
        depth' := depth + [Pending(Again, ptr')];
        assert View(tr, ptr', depth') == Push(Put(g, Branch(0)), Again, ptr');
      case QuestionMark => depth' := depth + [Pending(Maybe, ptr)];
      case Chr(_) =>
        ptr' := PutTransition(tr, ptr, Tok(t), depth);
        ptr', depth' := CompleteIteratives(tr, ptr', depth);
      case RngStart(_) =>
        ptr' := PutTransition(tr, ptr, Tok(t), depth);
        ptr', depth' := CompleteIteratives(tr, ptr', depth);
      case Id(_) => ptr' := PutTransition(tr, ptr, Tok(t), depth);
      case RngEnd => ptr' := PutTransition(tr, ptr, Tok(t), depth);
      case RngChar(_) => ptr' := PutTransition(tr, ptr, Tok(t), depth);
      case RngLeft(_) => ptr' := PutTransition(tr, ptr, Tok(t), depth);
      case RngRight(_) => ptr' := PutTransition(tr, ptr, Tok(t), depth);
    }
  }

  method ProcessOpen(tr: array<Tr>, ptr: nat, depth: seq<Pending>, bottom: bool) returns (ptr': nat, depth': seq<Pending>)
    requires ptr <= tr.Length
    requires GenToken(View(tr, ptr, depth), OpenBr, tr.Length, bottom).Some?
    modifies tr
    ensures ptr' <= tr.Length
    ensures GenToken(old(View(tr, ptr, depth)), OpenBr, tr.Length, bottom) == Some(View(tr, ptr', depth'))
  {
    ghost var g := View(tr, ptr, depth);
    var item := depth[|depth| - 1];
    ptr', depth' := ptr, depth[..|depth| - 1];
    if item.kind.Choice? {
      ptr' := PutTransition(tr, ptr, Branch(item.value + 1), depth);
      assert View(tr, ptr', depth') == Pop(Put(g, Branch(item.value + 1)));
    } else {
      assert View(tr, ptr', depth') == Pop(g);
    }
    if bottom {
      ptr' := PutTransition(tr, ptr', Tok(Begin), depth');
    } else {
      ptr', depth' := CompleteIteratives(tr, ptr', depth');
    }
  }

  method ProcessSelect(tr: array<Tr>, ptr: nat, depth: seq<Pending>) returns (ptr': nat, depth': seq<Pending>)
    requires ptr <= tr.Length
    requires GenToken(View(tr, ptr, depth), Select, tr.Length, false).Some?
    modifies tr
    ensures ptr' <= tr.Length
    ensures GenToken(old(View(tr, ptr, depth)), Select, tr.Length, false) == Some(View(tr, ptr', depth'))
  {
    ghost var g := View(tr, ptr, depth);
    var item := depth[|depth| - 1];
    ptr' := ptr;
    ghost var h := g;
    if item.kind.Choice? {
      ptr' := PutTransition(tr, ptr', Branch(item.value + 1), depth);
      h := Put(g, Branch(item.value + 1));
    }
    ptr' := PutTransition(tr, ptr', Jump(item.value), depth);
    depth' := depth[..|depth| - 1] + [Pending(Choice, ptr')];
    assert View(tr, ptr', depth') == Push(Pop(Put(h, Jump(item.value))), Choice, ptr');
  }

  /**
   For the tokens of any pattern and the size counted while parsing it, the array
   is filled exactly to its first cell and holds the code of the pattern.
   */
  method GenerateTransitions(stack: Stack<Token>, size: nat, ghost x: Alt) returns (tr: array<Tr>)
    requires stack.Valid() && CoreAlt(x) && stack.Contents() == PatternTokens(x) && size == Weights(stack.Contents())
    modifies stack
    ensures fresh(tr) && tr[..] == EmitProgram(x, size)
    ensures stack.Valid() && stack.Contents() == []
  {
    hide Stack<Token>.Linked, Stack<Token>.Places, Stack<Token>.PointsAt, Stack<Token>.Valid, Stack<Token>.Contents;
    tr := new Tr[size](_ => Branch(0));
    var ptr: nat, depth: seq<Pending> := size, [];
    GenProgram(x);
    ghost var final := GenAll(stack.Contents(), 0, Gen([], []), size);
    assert View(tr, ptr, depth) == Gen([], []);
    while stack.count > 0
      invariant tr.Length == size && ptr <= size && fresh(tr) && stack.Valid()
      invariant GenAll(stack.Contents(), 0, View(tr, ptr, depth), size) == final
      decreases stack.count
    {
      var item := stack.Pop();
      ptr, depth := ProcessToken(tr, ptr, depth, item, stack.count == 0);
    }
    ProgramSize(x);
    assert |tr[ptr..]| == size;
    assert tr[0..] == tr[..];
  }
}
