/**
 The mailbox between clients and a worker thread: a locked array of slots that
 clients append requests to and the worker turns into answers.

 The system is a state machine.  Every access to the mailbox happens under a
 lock, which clients and worker take and release in steps of their own; the
 worker handles one slot per step.
 */
module Mailbox {

  const MAX_OP: nat := 128
  const BLOCK: nat := 126   // graphs a worker has room for
  const ERRORS: nat := 128

  datatype Op = NoOp | Answer | State | AddGraph | RmGraph | Run | PopError | ForceStart | Stop

  /** A slot: the operation, its argument or reply, and the two halves of the second reply. */
  datatype Slot = Slot(op: Op, arg: int, gid: int, len: int)

  datatype Status = Stopped | Broken | Running

  datatype Pc = Outside | Scanning(pos: nat) | Stuck

  /** The worker's own variables. */
  datatype Worker = Worker(pc: Pc, status: Status, last: nat, free: seq<nat>, graphs: seq<int>, started: seq<Status>,
                           errors: seq<int>, errorGids: seq<int>)

  datatype Holder = Nobody | ByWorker | ByClient(client: nat)

  /** Identifies one request of one client. */
  datatype Ticket = Ticket(client: nat, number: nat)

  /** A request that has been served, with the reply. */
  datatype Service = Service(op: Op, arg: int, reply: Slot)

  datatype Client =
    | Idle
    | Asking(op: Op, arg: int)
    | Enqueuing(op: Op, arg: int)
    | Waiting(slot: nat, ticket: Ticket, op: Op, arg: int)
    | Trying(slot: nat, ticket: Ticket, op: Op, arg: int)
    | Reading(slot: nat, ticket: Ticket, op: Op, arg: int)
    | Got(reply: Slot, ticket: Ticket, op: Op, arg: int)

  /**
   The whole system.  The last four fields are history: the owner of each slot,
   the requests served so far, the next ticket number, and the graphs that have
   been added and not removed, by id.
   */
  datatype World = World(lock: Holder, queue: seq<Slot>, size: nat, clients: seq<Client>, worker: Worker,
                         owners: map<nat, Ticket>, served: map<Ticket, Service>, next: nat, live: map<nat, int>)

  /** Requests that are answered, unlike `Run` and `ForceStart`. */
  predicate Answered(op: Op) { op.State? || op.AddGraph? || op.RmGraph? || op.PopError? || op.Stop? }

  predicate IsRequest(op: Op) { Answered(op) || op.Run? || op.ForceStart? }

  // ----- what the worker does with one slot

  function StatusCode(s: Status): int { match s case Stopped => 0 case Broken => 1 case Running => 2 }

  /** There is no id left for a graph. */
  predicate Full(w: Worker, slot: Slot) { slot.op.AddGraph? && w.free == [] && w.last == BLOCK }

  /** The id a graph is added under. */
  function NewId(w: Worker): nat { if w.free != [] then w.free[|w.free| - 1] else w.last }

  function BrokenToRunning(started: seq<Status>, n: nat): seq<Status> {
    seq(|started|, i requires 0 <= i < |started| => if i < n && started[i].Broken? then Running else started[i])
  }

  /** Ids and indices stay within the worker's arrays. */
  predicate ArgOk(op: Op, arg: int) { op.RmGraph? || op.ForceStart? ==> 0 <= arg < BLOCK }

  predicate WorkerShape(w: Worker) {
    |w.graphs| == BLOCK && |w.started| == BLOCK && w.last <= BLOCK && forall i :: 0 <= i < |w.free| ==> w.free[i] < BLOCK
  }

  /** The worker's variables after handling a slot. */
  function ServeWorker(w: Worker, slot: Slot): Worker
    requires WorkerShape(w) && ArgOk(slot.op, slot.arg)
  {
    match slot.op
    case PopError =>
      w.(errors := if w.errors == [] then [] else w.errors[..|w.errors| - 1],
         errorGids := if w.errorGids == [] then [] else w.errorGids[..|w.errorGids| - 1])
    case RmGraph =>
      w.(free := w.free + [slot.arg as nat], started := w.started[slot.arg := Stopped])
    case AddGraph =>
      if Full(w, slot) then w
      else
        var id := NewId(w);
        w.(free := if w.free == [] then [] else w.free[..|w.free| - 1], last := if w.free == [] then w.last + 1 else w.last,
           graphs := w.graphs[id := slot.arg], started := w.started[id := Running])
    case ForceStart =>
      var started := w.started[slot.arg := Running];
      if w.errors == [] && forall i :: 0 <= i < w.last ==> !started[i].Broken? then w.(started := started, status := Running)
      else w.(started := started)
    case Run =>
      if w.last == 0 then w else w.(started := BrokenToRunning(w.started, w.last), status := Running)
    case Stop => w.(status := Stopped)
    case _ => w
  }

  /** The slot after the worker has handled it. */
  function ServeSlot(w: Worker, slot: Slot): Slot
    requires WorkerShape(w) && ArgOk(slot.op, slot.arg)
  {
    match slot.op
    case PopError =>
      Slot(Answer, if w.errors == [] then 0 else w.errors[|w.errors| - 1],
           if w.errorGids == [] then -1 else w.errorGids[|w.errorGids| - 1], if w.errorGids == [] then 0 else |w.errorGids| - 1)
    case RmGraph => slot.(op := Answer, arg := w.graphs[slot.arg])
    case AddGraph => slot.(op := Answer, arg := if Full(w, slot) then -1 else NewId(w))
    case ForceStart => slot.(op := NoOp)
    case Run => if w.last == 0 then slot else slot.(op := NoOp)
    case Stop => slot.(op := Answer)
    case State => slot.(op := Answer, arg := StatusCode(w.status))
    case _ => slot
  }

  // ----- shrinking the queue

  /** The size without the free slots at the end. */
  function Shrunk(queue: seq<Slot>, size: nat): (n: nat)
    requires size <= |queue|
    ensures n <= size && (n > 0 ==> !queue[n - 1].op.NoOp?) && forall i :: n <= i < size ==> queue[i].op.NoOp?
  {
    if size > 0 && queue[size - 1].op.NoOp? then Shrunk(queue, size - 1) else size
  }

  /** shrink_queue */
  method ShrinkQueue(queue: seq<Slot>, size: nat) returns (n: nat)
    requires size <= |queue|
    ensures n == Shrunk(queue, size)
  {
    n := size;
    while n > 0 && queue[n - 1].op.NoOp?
      invariant n <= size && Shrunk(queue, n) == Shrunk(queue, size)
    {
      n := n - 1;
    }
  }

  // ----- the steps

  /** A client wants something; a graph is removed by id only while it is there, and once. */
  ghost predicate Ask(s: World, s': World, c: nat, op: Op, arg: int) {
    && c < |s.clients| && s.clients[c].Idle? && IsRequest(op) && ArgOk(op, arg)
    && (op.RmGraph? ==> arg >= 0 && arg in s.live && forall d :: 0 <= d < |s.clients| ==> !Removes(s, d, arg))
    && s' == s.(clients := s.clients[c := Asking(op, arg)])
  }

  /** Client `d` has asked for the removal of a graph that has not been removed yet. */
  ghost predicate Removes(s: World, d: nat, id: int)
    requires d < |s.clients|
  {
    var cl := s.clients[d];
    && (cl.Asking? || cl.Enqueuing? || cl.Waiting? || cl.Trying? || cl.Reading?) && cl.op.RmGraph? && cl.arg == id
    && (cl.Waiting? || cl.Trying? || cl.Reading? ==> cl.ticket !in s.served)
  }

  ghost predicate LockToEnqueue(s: World, s': World, c: nat) {
    && c < |s.clients| && s.clients[c].Asking? && s.lock.Nobody?
    && s' == s.(lock := ByClient(c), clients := s.clients[c := Enqueuing(s.clients[c].op, s.clients[c].arg)])
  }

  /** No room: the lock is released and the client tries again. */
  ghost predicate EnqueueFails(s: World, s': World, c: nat) {
    && c < |s.clients| && s.clients[c].Enqueuing? && s.size + 1 == MAX_OP
    && s' == s.(lock := Nobody, clients := s.clients[c := Asking(s.clients[c].op, s.clients[c].arg)])
  }

  ghost predicate Enqueue(s: World, s': World, c: nat) {
    && c < |s.clients| && s.clients[c].Enqueuing? && s.size + 1 != MAX_OP && s.size < |s.queue|
    && var cl := s.clients[c];
       var queue := s.queue[s.size := s.queue[s.size].(op := cl.op, arg := cl.arg)];
       if Answered(cl.op) then
         var t := Ticket(c, s.next);
         s' == s.(lock := Nobody, queue := queue, size := s.size + 1, next := s.next + 1, owners := s.owners[s.size := t],
                  clients := s.clients[c := Waiting(s.size, t, cl.op, cl.arg)])
       else
         s' == s.(lock := Nobody, queue := queue, size := s.size + 1, clients := s.clients[c := Idle])
  }

  ghost predicate LockToTry(s: World, s': World, c: nat) {
    && c < |s.clients| && s.clients[c].Waiting? && s.lock.Nobody?
    && var cl := s.clients[c];
       s' == s.(lock := ByClient(c), clients := s.clients[c := Trying(cl.slot, cl.ticket, cl.op, cl.arg)])
  }

  ghost predicate TryFails(s: World, s': World, c: nat) {
    && c < |s.clients| && s.clients[c].Trying? && s.clients[c].slot < |s.queue| && !s.queue[s.clients[c].slot].op.Answer?
    && var cl := s.clients[c];
       s' == s.(lock := Nobody, clients := s.clients[c := Waiting(cl.slot, cl.ticket, cl.op, cl.arg)])
  }

  ghost predicate TrySucceeds(s: World, s': World, c: nat) {
    && c < |s.clients| && s.clients[c].Trying? && s.clients[c].slot < |s.queue| && s.queue[s.clients[c].slot].op.Answer?
    && var cl := s.clients[c];
       s' == s.(clients := s.clients[c := Reading(cl.slot, cl.ticket, cl.op, cl.arg)])
  }

  /** Takes the reply, frees the slot, shrinks the queue and unlocks; `Stop` shrinks before it frees. */
  ghost predicate Finish(s: World, s': World, c: nat) {
    && c < |s.clients| && s.clients[c].Reading? && s.clients[c].slot < |s.queue| && s.size <= |s.queue|
    && var cl := s.clients[c];
       var queue := s.queue[cl.slot := s.queue[cl.slot].(op := NoOp)];
       s' == s.(lock := Nobody, queue := queue, size := Shrunk(if cl.op.Stop? then s.queue else queue, s.size),
                owners := s.owners - {cl.slot}, clients := s.clients[c := Got(s.queue[cl.slot], cl.ticket, cl.op, cl.arg)])
  }

  ghost predicate Return(s: World, s': World, c: nat) {
    c < |s.clients| && s.clients[c].Got? && s' == s.(clients := s.clients[c := Idle])
  }

  /** The worker starts at the top of the queue. */
  ghost predicate WorkerLocks(s: World, s': World) {
    && s.worker.pc.Outside? && s.lock.Nobody? && s.size > 0
    && s' == s.(lock := ByWorker, worker := s.worker.(pc := Scanning(s.size - 1)))
  }

  /** Goes down the queue; slot 0 is only looked at when it is the top.  Without room for a graph the lock is never released. */
  ghost predicate WorkerServes(s: World, s': World) {
    && s.worker.pc.Scanning? && s.worker.pc.pos < |s.queue|
    && var pos := s.worker.pc.pos;
       var slot := s.queue[pos];
       && WorkerShape(s.worker) && ArgOk(slot.op, slot.arg)
       && var reply := ServeSlot(s.worker, slot);
          var full, more := Full(s.worker, slot), pos >= 2;
          s' == s.(lock := if full || more then ByWorker else Nobody,
                   queue := s.queue[pos := reply],
                   worker := ServeWorker(s.worker, slot).(pc := if full then Stuck else if more then Scanning(pos - 1) else Outside),
                   served := if pos in s.owners && Answered(slot.op) then s.served[s.owners[pos] := Service(slot.op, slot.arg, reply)] else s.served,
                   live := if slot.op.AddGraph? && !full then s.live[NewId(s.worker) := slot.arg]
                           else if slot.op.RmGraph? then s.live - {slot.arg as nat} else s.live)
  }

  /** Polling a graph fails. */
  ghost predicate PollFails(s: World, s': World, i: nat, error: int) {
    && s.worker.pc.Outside? && !s.worker.status.Stopped? && i < s.worker.last && i < |s.worker.started| && s.worker.started[i].Running?
    && s' == s.(worker := s.worker.(status := Broken, started := s.worker.started[i := Broken],
                                    errors := Pushed(s.worker.errors, error), errorGids := Pushed(s.worker.errorGids, i)))
  }

  /** A stack with a limit drops what does not fit. */
  function Pushed(stack: seq<int>, v: int): seq<int> { if |stack| + 1 >= ERRORS then stack else stack + [v] }

  datatype Step =
    | AskStep(client: nat, op: Op, arg: int)
    | ClientStep(client: nat)
    | WorkerStep
    | PollStep(graph: nat, error: int)

  ghost predicate NextBy(s: World, s': World, step: Step) {
    match step
    case AskStep(c, op, arg) => Ask(s, s', c, op, arg)
    case ClientStep(c) =>
      || LockToEnqueue(s, s', c) || EnqueueFails(s, s', c) || Enqueue(s, s', c) || LockToTry(s, s', c)
      || TryFails(s, s', c) || TrySucceeds(s, s', c) || Finish(s, s', c) || Return(s, s', c)
    case WorkerStep => WorkerLocks(s, s') || WorkerServes(s, s')
    case PollStep(i, error) => PollFails(s, s', i, error)
  }

  ghost predicate Init(s: World) {
    && s.lock.Nobody? && |s.queue| == MAX_OP && s.size == 0 && (forall i :: 0 <= i < MAX_OP ==> s.queue[i].op.NoOp?)
    && (forall c :: 0 <= c < |s.clients| ==> s.clients[c].Idle?)
    && s.worker.pc.Outside? && s.worker.status.Stopped? && s.worker.last == 0 && s.worker.free == []
    && |s.worker.graphs| == BLOCK && |s.worker.started| == BLOCK && s.worker.errors == [] && s.worker.errorGids == []
    && s.owners == map[] && s.served == map[] && s.next == 0 && s.live == map[]
  }

  // ----- the invariant

  predicate HoldsLock(cl: Client) { cl.Enqueuing? || cl.Trying? || cl.Reading? }

  predicate OwnsSlot(cl: Client) { cl.Waiting? || cl.Trying? || cl.Reading? }

  ghost predicate LockOk(s: World) {
    && (forall c {:trigger s.clients[c]} :: 0 <= c < |s.clients| ==> (HoldsLock(s.clients[c]) <==> s.lock == ByClient(c)))
    && (s.worker.pc.Outside? <==> !s.lock.ByWorker?)
    && (s.lock.ByClient? ==> s.lock.client < |s.clients|)
  }

  /** The slot of a waiting client holds its own request, or the reply to it. */
  ghost predicate SlotMatches(s: World, slot: nat, ticket: Ticket, op: Op, arg: int) {
    && slot < |s.queue|
    && if ticket in s.served then s.queue[slot].op.Answer? && s.served[ticket] == Service(op, arg, s.queue[slot])
       else s.queue[slot].op == op && s.queue[slot].arg == arg
  }

  ghost predicate ClientOk(s: World, c: nat)
    requires c < |s.clients|
  {
    var cl := s.clients[c];
    && (!cl.Idle? ==> IsRequest(cl.op) && ArgOk(cl.op, cl.arg))
    && (OwnsSlot(cl) ==>
          && Answered(cl.op) && cl.slot < s.size && cl.slot in s.owners && s.owners[cl.slot] == cl.ticket
          && cl.ticket.client == c && cl.ticket.number < s.next && SlotMatches(s, cl.slot, cl.ticket, cl.op, cl.arg))
    && (cl.Reading? ==> cl.ticket in s.served)
    && (cl.Got? ==> cl.ticket in s.served && s.served[cl.ticket] == Service(cl.op, cl.arg, cl.reply))
  }

  /** A slot below the size is free, holds a request nobody waits for, or belongs to a client that waits for it. */
  ghost predicate SlotOk(s: World, i: nat) {
    && (i in s.owners ==>
          && i < s.size && s.owners[i].client < |s.clients| && OwnsSlot(s.clients[s.owners[i].client])
          && s.clients[s.owners[i].client].slot == i && s.clients[s.owners[i].client].ticket == s.owners[i])
    && (i < s.size && i !in s.owners && i < |s.queue| ==>
          (s.queue[i].op.NoOp? || s.queue[i].op.Run? || s.queue[i].op.ForceStart?) && ArgOk(s.queue[i].op, s.queue[i].arg))
  }

  ghost predicate GraphsOk(w: Worker, live: map<nat, int>) {
    && WorkerShape(w)
    && (forall id :: id in live ==> id < w.last && w.graphs[id] == live[id])
    && (forall k :: 0 <= k < |w.free| ==> w.free[k] < w.last && w.free[k] !in live)
    && (forall i, j :: 0 <= i < j < |w.free| ==> w.free[i] != w.free[j])
    && (forall id :: 0 <= id < w.last ==> id in live || id in w.free)
  }

  ghost predicate RemovalOk(s: World) {
    && (forall c, id {:trigger Removes(s, c, id)} :: 0 <= c < |s.clients| && Removes(s, c, id) ==> id >= 0 && id in s.live)
    && (forall c, d, id {:trigger Removes(s, c, id), Removes(s, d, id)} ::
          0 <= c < |s.clients| && 0 <= d < |s.clients| && Removes(s, c, id) && Removes(s, d, id) ==> c == d)
  }

  ghost predicate Sizes(s: World) {
    && |s.queue| == MAX_OP && s.size < MAX_OP
    && (s.worker.pc.Scanning? ==> s.worker.pc.pos < s.size)
    && (forall t :: t in s.served ==> t.number < s.next)
  }

  ghost predicate Inv(s: World) {
    && Sizes(s) && LockOk(s)
    && (forall c {:trigger ClientOk(s, c)} :: 0 <= c < |s.clients| ==> ClientOk(s, c))
    && (forall i: nat {:trigger SlotOk(s, i)} :: SlotOk(s, i))
    && GraphsOk(s.worker, s.live) && RemovalOk(s)
  }

  lemma InitInv(s: World)
    requires Init(s)
    ensures Inv(s)
  {
  }

  // ----- every step keeps it

  /** Clients that a step does not touch stay fine if their slots, replies and graphs do. */
  lemma OthersFine(s: World, s': World, c: nat)
    requires Inv(s) && c < |s.clients| && |s'.clients| == |s.clients| && s'.queue == s.queue && s'.size == s.size
    requires s'.owners == s.owners && s'.served == s.served && s'.next == s.next
    requires forall d :: 0 <= d < |s.clients| && d != c ==> s'.clients[d] == s.clients[d]
    requires ClientOk(s', c)
    requires OwnsSlot(s.clients[c]) ==> OwnsSlot(s'.clients[c]) && s'.clients[c].slot == s.clients[c].slot && s'.clients[c].ticket == s.clients[c].ticket
    ensures forall d :: 0 <= d < |s'.clients| ==> ClientOk(s', d)
    ensures forall i: nat :: SlotOk(s', i)
  {
    forall d | 0 <= d < |s'.clients| ensures ClientOk(s', d) {
      if d != c { assert ClientOk(s, d); }
    }
    forall i: nat ensures SlotOk(s', i) { assert SlotOk(s, i); }
  }

  lemma AskKeeps(s: World, s': World, c: nat, op: Op, arg: int)
    requires Inv(s) && Ask(s, s', c, op, arg)
    ensures Inv(s')
  {
    OthersFine(s, s', c);
    forall d, id | 0 <= d < |s'.clients| && Removes(s', d, id)
      ensures if d == c then op.RmGraph? && id == arg else Removes(s, d, id)
    {
    }
  }

  /** Taking or dropping the lock, or another state with the same request and slot. */
  lemma SameRemovals(s: World, s': World, c: nat)
    requires Inv(s) && c < |s.clients| && |s'.clients| == |s.clients| && s'.live == s.live && s'.served == s.served
    requires forall d :: 0 <= d < |s.clients| && d != c ==> s'.clients[d] == s.clients[d]
    requires forall id :: Removes(s', c, id) ==> Removes(s, c, id)
    ensures RemovalOk(s')
  {
    forall d, id | 0 <= d < |s'.clients| && Removes(s', d, id) ensures Removes(s, d, id) {}
  }

  lemma LockStepsKeep(s: World, s': World, c: nat)
    requires Inv(s)
    requires LockToEnqueue(s, s', c) || EnqueueFails(s, s', c) || LockToTry(s, s', c) || TryFails(s, s', c) || TrySucceeds(s, s', c) || Return(s, s', c)
    ensures Inv(s')
  {
    assert ClientOk(s, c);
    OthersFine(s, s', c);
    SameRemovals(s, s', c);
  }

  lemma EnqueueClient(s: World, s': World, c: nat, d: nat)
    requires Inv(s) && Enqueue(s, s', c) && d < |s'.clients|
    ensures ClientOk(s', d)
  {
    hide GraphsOk, RemovalOk, LockOk;
    assert ClientOk(s, c) && ClientOk(s, d);
    assert SlotOk(s, s.size);
  }

  lemma EnqueueSlot(s: World, s': World, c: nat, i: nat)
    requires Inv(s) && Enqueue(s, s', c)
    ensures SlotOk(s', i)
  {
    hide GraphsOk, RemovalOk, LockOk;
    assert ClientOk(s, c) && SlotOk(s, i);
    assert SlotOk(s, s.size);
  }

  lemma EnqueueKeeps(s: World, s': World, c: nat)
    requires Inv(s) && Enqueue(s, s', c)
    ensures Inv(s')
  {
    hide GraphsOk, ClientOk, SlotOk, RemovalOk;
    forall d | 0 <= d < |s'.clients| ensures ClientOk(s', d) { EnqueueClient(s, s', c, d); }
    forall i: nat ensures SlotOk(s', i) { EnqueueSlot(s, s', c, i); }
    SameRemovals(s, s', c);
  }

  lemma FinishKeeps(s: World, s': World, c: nat)
    requires Inv(s) && Finish(s, s', c)
    ensures Inv(s')
  {
    var cl := s.clients[c];
    assert ClientOk(s, c);
    forall d | 0 <= d < |s'.clients| ensures ClientOk(s', d) {
      if d != c {
        OtherSlotKept(s, s', c, d);
      }
    }
    forall i: nat ensures SlotOk(s', i) {
      assert SlotOk(s, i);
      if i in s'.owners {
        assert ClientOk(s, s.owners[i].client);
        OtherSlotKept(s, s', c, s.owners[i].client);
      }
    }
    SameRemovals(s, s', c);
  }

  /** Freeing a slot and shrinking the queue leaves the slots of other clients where they are. */
  lemma OtherSlotKept(s: World, s': World, c: nat, d: nat)
    requires Inv(s) && Finish(s, s', c) && d < |s.clients| && d != c
    ensures ClientOk(s', d)
  {
    assert ClientOk(s, c) && ClientOk(s, d);
    var cl := s.clients[d];
    if OwnsSlot(cl) {
      assert cl.slot != s.clients[c].slot;
      assert !s'.queue[cl.slot].op.NoOp? && s'.queue[cl.slot] == s.queue[cl.slot];
    }
  }

  lemma WorkerLocksKeeps(s: World, s': World)
    requires Inv(s) && WorkerLocks(s, s')
    ensures Inv(s')
  {
    forall d | 0 <= d < |s'.clients| ensures ClientOk(s', d) { assert ClientOk(s, d); }
    forall i: nat ensures SlotOk(s', i) { assert SlotOk(s, i); }
    forall d, id | 0 <= d < |s'.clients| && Removes(s', d, id) ensures Removes(s, d, id) {}
  }

  lemma PollKeeps(s: World, s': World, i: nat, error: int)
    requires Inv(s) && PollFails(s, s', i, error)
    ensures Inv(s')
  {
    forall d | 0 <= d < |s'.clients| ensures ClientOk(s', d) { assert ClientOk(s, d); }
    forall k: nat ensures SlotOk(s', k) { assert SlotOk(s, k); }
    forall d, id | 0 <= d < |s'.clients| && Removes(s', d, id) ensures Removes(s, d, id) {}
  }

  /** What the invariant says about the slot the worker looks at. */
  lemma ScannedSlot(s: World)
    requires Inv(s) && s.worker.pc.Scanning?
    ensures var pos := s.worker.pc.pos;
            && pos < s.size && pos < |s.queue| && ArgOk(s.queue[pos].op, s.queue[pos].arg)
            && (Answered(s.queue[pos].op) ==> pos in s.owners && s.owners[pos] !in s.served)
            && (pos in s.owners ==>
                  && s.owners[pos].client < |s.clients| && OwnsSlot(s.clients[s.owners[pos].client]) && s.owners[pos].number < s.next
                  && (if Answered(s.queue[pos].op) then
                        s.clients[s.owners[pos].client].op == s.queue[pos].op && s.clients[s.owners[pos].client].arg == s.queue[pos].arg
                      else s.queue[pos].op.Answer? && s.owners[pos] in s.served))
  {
    var pos := s.worker.pc.pos;
    assert SlotOk(s, pos);
    if pos in s.owners {
      assert ClientOk(s, s.owners[pos].client);
    }
  }

  lemma ServeClients(s: World, s': World, d: nat)
    requires Inv(s) && WorkerServes(s, s') && d < |s.clients|
    ensures ClientOk(s', d)
  {
    ScannedSlot(s);
    assert ClientOk(s, d);
    var pos := s.worker.pc.pos;
    var cl := s.clients[d];
    if pos in s.owners { assert SlotOk(s, pos) && ClientOk(s, s.owners[pos].client); }
  }

  /** Adding gives out an id that is not in use; removing takes one that is. */
  lemma ServeGraphs(s: World, s': World)
    requires Inv(s) && WorkerServes(s, s')
    ensures GraphsOk(s'.worker, s'.live)
    ensures var slot := s.queue[s.worker.pc.pos];
            slot.op.AddGraph? && !Full(s.worker, slot) ==> NewId(s.worker) !in s.live && NewId(s.worker) < BLOCK
  {
    ScannedSlot(s);
    var slot := s.queue[s.worker.pc.pos];
    var w, w' := s.worker, s'.worker;
    match slot.op
    case AddGraph =>
      if !Full(w, slot) { AddFresh(w, s.live, slot.arg); }
    case RmGraph =>
      RemovedWasLive(s);
      RemoveOld(w, s.live, slot.arg as nat);
    case _ =>
  }

  lemma AddFresh(w: Worker, live: map<nat, int>, g: int)
    requires GraphsOk(w, live) && !(w.free == [] && w.last == BLOCK)
    ensures NewId(w) < BLOCK && NewId(w) !in live
    ensures var w' := w.(free := if w.free == [] then [] else w.free[..|w.free| - 1], last := if w.free == [] then w.last + 1 else w.last,
                         graphs := w.graphs[NewId(w) := g], started := w.started[NewId(w) := Running]);
            GraphsOk(w', live[NewId(w) := g])
  {
    if w.free == [] { AddLast(w, live, g); } else { AddFreed(w, live, g); }
  }

  lemma AddLast(w: Worker, live: map<nat, int>, g: int)
    requires GraphsOk(w, live) && w.free == [] && w.last < BLOCK
    ensures w.last !in live
    ensures GraphsOk(w.(last := w.last + 1, graphs := w.graphs[w.last := g], started := w.started[w.last := Running]), live[w.last := g])
  {
  }

  lemma AddFreed(w: Worker, live: map<nat, int>, g: int)
    requires GraphsOk(w, live) && w.free != []
    ensures NewId(w) < w.last && NewId(w) !in live
    ensures GraphsOk(w.(free := w.free[..|w.free| - 1], graphs := w.graphs[NewId(w) := g], started := w.started[NewId(w) := Running]),
                     live[NewId(w) := g])
  {
    var id := NewId(w);
    var rest := w.free[..|w.free| - 1];
    assert w.free == rest + [id];
    assert forall k :: 0 <= k < |rest| ==> rest[k] == w.free[k];
    forall a | 0 <= a < w.last ensures a in live[id := g] || a in rest {
      assert a in live || a in w.free;
    }
  }

  lemma RemoveOld(w: Worker, live: map<nat, int>, id: nat)
    requires GraphsOk(w, live) && id in live
    ensures GraphsOk(w.(free := w.free + [id], started := w.started[id := Stopped]), live - {id})
  {
    var free := w.free + [id];
    assert forall k :: 0 <= k < |w.free| ==> free[k] == w.free[k];
    assert forall a :: a in w.free ==> a in free;
    assert id in free;
  }

  /** A removal that the worker is about to serve is of a graph that is there. */
  lemma RemovedWasLive(s: World)
    requires Inv(s) && s.worker.pc.Scanning? && s.worker.pc.pos < |s.queue| && s.queue[s.worker.pc.pos].op.RmGraph?
    ensures var arg := s.queue[s.worker.pc.pos].arg; arg >= 0 && arg in s.live && arg < BLOCK
  {
    ScannedSlot(s);
    var owner := s.owners[s.worker.pc.pos].client;
    assert ClientOk(s, owner) && SlotOk(s, s.worker.pc.pos);
    assert Removes(s, owner, s.queue[s.worker.pc.pos].arg);
  }

  lemma ServeRemovals(s: World, s': World, d: nat, id: int)
    requires Inv(s) && WorkerServes(s, s') && d < |s'.clients| && Removes(s', d, id)
    ensures Removes(s, d, id) && id >= 0 && id in s'.live
  {
    ScannedSlot(s);
    var pos := s.worker.pc.pos;
    var slot := s.queue[pos];
    assert Removes(s, d, id);
    if slot.op.RmGraph? {
      var owner := s.owners[pos].client;
      assert ClientOk(s, owner) && SlotOk(s, pos);
      assert Removes(s, owner, slot.arg) && !Removes(s', owner, slot.arg);
    }
  }

  lemma ServeKeeps(s: World, s': World)
    requires Inv(s) && WorkerServes(s, s')
    ensures Inv(s')
  {
    ScannedSlot(s);
    ServeGraphs(s, s');
    forall d | 0 <= d < |s'.clients| ensures ClientOk(s', d) { ServeClients(s, s', d); }
    forall i: nat ensures SlotOk(s', i) { assert SlotOk(s, i); }
    forall d, id | 0 <= d < |s'.clients| && Removes(s', d, id) ensures Removes(s, d, id) && id >= 0 && id in s'.live {
      ServeRemovals(s, s', d, id);
    }
  }

  /** Every step keeps the invariant. */
  lemma StepKeeps(s: World, s': World, step: Step)
    requires Inv(s) && NextBy(s, s', step)
    ensures Inv(s')
  {
    hide Inv, Ask, LockToEnqueue, EnqueueFails, Enqueue, LockToTry, TryFails, TrySucceeds, Finish, Return, WorkerLocks, WorkerServes, PollFails;
    match step
    case AskStep(c, op, arg) => AskKeeps(s, s', c, op, arg);
    case ClientStep(c) =>
      if Enqueue(s, s', c) { EnqueueKeeps(s, s', c); }
      else if Finish(s, s', c) { FinishKeeps(s, s', c); }
      else { LockStepsKeep(s, s', c); }
    case WorkerStep =>
      if WorkerLocks(s, s') { WorkerLocksKeeps(s, s'); } else { ServeKeeps(s, s'); }
    case PollStep(i, error) => PollKeeps(s, s', i, error);
  }

  // ----- whole runs

  ghost predicate Run(states: seq<World>, steps: seq<Step>) {
    && |states| == |steps| + 1 && Init(states[0])
    && forall i :: 0 <= i < |steps| ==> NextBy(states[i], states[i + 1], steps[i])
  }

  lemma {:induction false} RunInv(states: seq<World>, steps: seq<Step>, n: nat)
    requires Run(states, steps) && n < |states|
    ensures Inv(states[n])
  {
    hide Inv, Init, NextBy;
    if n == 0 {
      InitInv(states[0]);
    } else {
      var k := n - 1;
      RunInv(states, steps, k);
      assert NextBy(states[k], states[k + 1], steps[k]);
      StepKeeps(states[k], states[k + 1], steps[k]);
    }
  }

  /** In every run, the lock keeps clients and worker apart and no two clients share a slot. */
  lemma Exclusive(states: seq<World>, steps: seq<Step>, n: nat, c: nat, d: nat)
    requires Run(states, steps) && n < |states| && c < |states[n].clients| && d < |states[n].clients| && c != d
    ensures var s := states[n];
            && !(HoldsLock(s.clients[c]) && HoldsLock(s.clients[d]))
            && !(HoldsLock(s.clients[c]) && !s.worker.pc.Outside?)
            && (OwnsSlot(s.clients[c]) && OwnsSlot(s.clients[d]) ==> s.clients[c].slot != s.clients[d].slot)
  {
    RunInv(states, steps, n);
    var s := states[n];
    assert ClientOk(s, c) && ClientOk(s, d);
  }

  /** In every run, the answer a client reads is the worker's reply to that client's own request. */
  lemma AnswerIsOwn(states: seq<World>, steps: seq<Step>, n: nat, c: nat)
    requires Run(states, steps) && n < |states| && c < |states[n].clients|
    ensures var s := states[n]; var cl := s.clients[c];
            && (OwnsSlot(cl) ==> cl.slot < s.size < MAX_OP == |s.queue| && !s.queue[cl.slot].op.NoOp?)
            && (OwnsSlot(cl) && s.queue[cl.slot].op.Answer? ==>
                  cl.ticket.client == c && cl.ticket in s.served && s.served[cl.ticket] == Service(cl.op, cl.arg, s.queue[cl.slot]))
            && (cl.Got? ==> cl.ticket in s.served && s.served[cl.ticket] == Service(cl.op, cl.arg, cl.reply))
  {
    RunInv(states, steps, n);
    assert ClientOk(states[n], c);
  }

  /** A slot stays with its client until that client itself frees it. */
  lemma SlotIsKept(states: seq<World>, steps: seq<Step>, n: nat, c: nat)
    requires Run(states, steps) && n < |steps| && c < |states[n].clients| && OwnsSlot(states[n].clients[c])
    ensures var s, s' := states[n], states[n + 1]; var cl := s.clients[c];
            && c < |s'.clients|
            && ((steps[n] == ClientStep(c) && Finish(s, s', c) && s'.clients[c] == Got(s.queue[cl.slot], cl.ticket, cl.op, cl.arg))
                || (OwnsSlot(s'.clients[c]) && s'.clients[c].slot == cl.slot && s'.clients[c].ticket == cl.ticket
                    && s'.clients[c].op == cl.op && s'.clients[c].arg == cl.arg && cl.slot < s'.size))
  {
    hide Inv, NextBy, Init, Finish;
    RunInv(states, steps, n);
    RunInv(states, steps, n + 1);
    var s, s' := states[n], states[n + 1];
    assert NextBy(s, s', steps[n]);
    StepKeepsSlot(s, s', steps[n], c);
    SizeCovers(s', c);
  }

  lemma SizeCovers(s: World, c: nat)
    requires Inv(s) && c < |s.clients|
    ensures OwnsSlot(s.clients[c]) ==> s.clients[c].slot < s.size
  {
    assert ClientOk(s, c);
  }

  lemma StepKeepsSlot(s: World, s': World, step: Step, c: nat)
    requires NextBy(s, s', step) && c < |s.clients| && OwnsSlot(s.clients[c])
    ensures var cl := s.clients[c];
            && c < |s'.clients|
            && ((step == ClientStep(c) && Finish(s, s', c) && s'.clients[c] == Got(s.queue[cl.slot], cl.ticket, cl.op, cl.arg))
                || (OwnsSlot(s'.clients[c]) && s'.clients[c].slot == cl.slot && s'.clients[c].ticket == cl.ticket
                    && s'.clients[c].op == cl.op && s'.clients[c].arg == cl.arg))
  {
    hide ServeWorker, ServeSlot, Removes, ArgOk, WorkerShape, Full;
  }

  /** What the replies about graphs mean: a new id is one not in use, and a removed id gives back the graph added under it. */
  lemma GraphReplies(states: seq<World>, steps: seq<Step>, n: nat)
    requires Run(states, steps) && n < |steps| && WorkerServes(states[n], states[n + 1])
    ensures var s, s' := states[n], states[n + 1]; var slot, reply := s.queue[s.worker.pc.pos], s'.queue[s.worker.pc.pos];
            && (slot.op.AddGraph? && reply.arg != -1 ==>
                  0 <= reply.arg < BLOCK && reply.arg !in s.live && s'.live == s.live[reply.arg as nat := slot.arg])
            && (slot.op.AddGraph? && reply.arg == -1 ==> forall id :: 0 <= id < BLOCK ==> id in s.live)
            && (slot.op.RmGraph? ==> slot.arg >= 0 && slot.arg in s.live && reply.arg == s.live[slot.arg as nat] && s'.live == s.live - {slot.arg as nat})
            && (!slot.op.AddGraph? && !slot.op.RmGraph? ==> s'.live == s.live)
  {
    RunInv(states, steps, n);
    var s, s' := states[n], states[n + 1];
    ScannedSlot(s);
    ServeGraphs(s, s');
    if s.queue[s.worker.pc.pos].op.RmGraph? { RemovedWasLive(s); }
  }

  /** The errors and the graphs they came from are kept in step. */
  lemma {:induction false} ErrorsPaired(states: seq<World>, steps: seq<Step>, n: nat)
    requires Run(states, steps) && n < |states|
    ensures |states[n].worker.errors| == |states[n].worker.errorGids| <= ERRORS
    decreases n
  {
    if n > 0 {
      var k := n - 1;
      ErrorsPaired(states, steps, k);
      assert NextBy(states[k], states[k + 1], steps[k]);
    }
  }

  /** What starting does: all broken graphs run again, or one graph whatever its state. */
  lemma Starting(states: seq<World>, steps: seq<Step>, n: nat)
    requires Run(states, steps) && n < |steps| && WorkerServes(states[n], states[n + 1])
    ensures var w, w' := states[n].worker, states[n + 1].worker;
            var slot, slot' := states[n].queue[w.pc.pos], states[n + 1].queue[w.pc.pos];
            && |w.started| == |w'.started| == BLOCK && w.last <= BLOCK
            && (slot.op.Run? && w.last > 0 ==>
                  && slot'.op.NoOp? && w'.status.Running?
                  && forall i :: 0 <= i < BLOCK ==>
                       if i < w.last && w.started[i].Broken? then w'.started[i].Running? else w'.started[i] == w.started[i])
            && (slot.op.Run? && w.last == 0 ==> slot' == slot && w'.status == w.status && w'.started == w.started)
            && (slot.op.ForceStart? ==>
                  && slot'.op.NoOp? && 0 <= slot.arg < BLOCK && w'.started[slot.arg].Running?
                  && (forall i :: 0 <= i < BLOCK && i != slot.arg ==> w'.started[i] == w.started[i])
                  && if w.errors == [] && (forall i :: 0 <= i < w.last ==> !w'.started[i].Broken?) then w'.status.Running?
                     else w'.status == w.status)
  {
  }

  /**
   What the other replies mean: the status of the worker, and the error that came
   last with its graph and how many are left, or none.
   */
  lemma StatusReplies(states: seq<World>, steps: seq<Step>, n: nat)
    requires Run(states, steps) && n < |steps| && WorkerServes(states[n], states[n + 1])
    ensures var s, s' := states[n], states[n + 1]; var slot, reply := s.queue[s.worker.pc.pos], s'.queue[s.worker.pc.pos];
            && (slot.op.State? ==>
                  && (reply.arg == 0 <==> s.worker.status.Stopped?) && (reply.arg == 1 <==> s.worker.status.Broken?)
                  && (reply.arg == 2 <==> s.worker.status.Running?) && s'.worker.status == s.worker.status)
            && (slot.op.Stop? ==> s'.worker.status.Stopped?)
            && (slot.op.PopError? ==>
                  if s.worker.errors == [] then reply.arg == 0 && reply.gid == -1 && reply.len == 0 && s'.worker.errors == []
                  else && s.worker.errors == s'.worker.errors + [reply.arg] && s.worker.errorGids == s'.worker.errorGids + [reply.gid]
                       && reply.len == |s'.worker.errors|)
            && (!slot.op.PopError? ==> s'.worker.errors == s.worker.errors && s'.worker.errorGids == s.worker.errorGids)
  {
    ErrorsPaired(states, steps, n);
  }
}
