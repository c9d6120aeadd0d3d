/** The concurrent send-buffer pool as a state machine: any number of threads, a lock held only around the
list, a FIFO list of free objects, and the process heap.

One `Step` is one call of pop, push or clear on the list, the lock or the heap: testing the list, reading its
front and changing it are steps of their own, and any other thread's step may come between two of them.  What
HeapAlloc and HeapReAlloc answer is part of the step (0 is NULL).  `itr` is the iterator of the clear under way,
0 if there is none.  `place`, `calls` and `history` only observe: who owns each heap block, what each thread last
called, and which queue operations took effect, on whose behalf. */
module SendPoolMachine {
  import opened Options

  type Ptr = nat
  type Tid = nat

  /** sizeof(PER_IO_OPERATION_DATA) and the range of a 32-bit size. */
  const HEADER: nat := 32
  const WORD: nat := 0x1_0000_0000

  /** A heap block of `size` bytes; `nLen` is the stored length as the comparison with the unsigned request sees it. */
  datatype Obj = Obj(nLen: nat, szBuffer: Ptr, sendPosted: bool, size: nat)

  datatype Place = Pooled | Hand(t: Tid) | Client | Lost

  datatype PC =
    | Idle
    | PopEnter(n: nat) | PopLocked(n: nat)
    | PopSeen(n: nat)            // the list was not empty
    | PopFront(n: nat, p: Ptr)   // its front was read
    | PopTaken(n: nat, p: Ptr)   // and removed
    | PopReuse(n: nat, p: Ptr) | PopMiss(n: nat) | PopFresh(n: nat)
    | PushEnter(p: Ptr) | PushLocked(p: Ptr)
    | PushRoom(p: Ptr)           // the list was shorter than its bound
    | PushStored(p: Ptr) | PushFull(p: Ptr) | PushFree(p: Ptr)
    | ClearEnter | ClearFreeing
    | ClearBody                  // the iterator was not at the end
    | ClearDone                  // it was
    | ClearEmptied

  datatype QueueOp =
    | Enqueue(t: Tid, p: Ptr, accepted: bool)
    | Dequeue(t: Tid, front: Option<Ptr>)
    | Drain(t: Tid)
    | SetBound(m: nat)

  /** What a thread called last: its first statement, the length of the history then, and its releases of the
  lock since. */
  datatype Call = Call(entry: PC, since: nat, unlocks: nat)

  datatype State = State(
    list: seq<Ptr>, itr: nat, maxCount: nat, lock: Option<Tid>, heap: map<Ptr, Obj>,
    pcs: map<Tid, PC>, place: map<Ptr, Place>, allocs: nat, frees: nat,
    calls: map<Tid, Call>, history: seq<QueueOp>)
  {
    function Pc(t: Tid): PC {
      if t in pcs then pcs[t] else Idle
    }

    function Goto(t: Tid, pc: PC): State {
      this.(pcs := pcs[t := pc])
    }

    function Start(t: Tid, pc: PC): State {
      this.(pcs := pcs[t := pc], calls := calls[t := Call(pc, |history|, 0)])
    }

    function Locked(t: Tid, pc: PC): State {
      this.(pcs := pcs[t := pc], lock := Some(t))
    }

    function Unlocked(t: Tid, pc: PC): State {
      this.(pcs := pcs[t := pc], lock := None,
            calls := if t in calls then calls[t := calls[t].(unlocks := calls[t].unlocks + 1)] else calls)
    }

    function Log(op: QueueOp): State {
      this.(history := history + [op])
    }

    function Move(p: Ptr, to: Place): State {
      this.(place := place[p := to])
    }

    function HeapFree(p: Ptr): State {
      this.(heap := heap - {p}, place := place - {p}, frees := frees + 1)
    }

    /** An address the heap may answer with: not null and in nobody's use. */
    predicate Fresh(q: Ptr) {
      q != 0 && q !in heap
    }
  }

  const INITIAL := State([], 0, 0, None, map[], map[], map[], 0, 0, map[], [])

  /** The byte count handed to the heap, in 32-bit arithmetic. */
  function AllocSize(n: nat): nat {
    (HEADER + n) % WORD
  }

  /** What pop leaves in a block it has reallocated, or allocated, at `q`. */
  function Grown(n: nat, q: Ptr): Obj {
    Obj(n, q + HEADER, true, AllocSize(n))
  }

  function Made(n: nat, q: Ptr): Obj {
    Obj(n, if n > 0 then q + HEADER else 0, true, AllocSize(n))
  }

  datatype Action =
    | StartPop(t: Tid, n: nat) | StartPush(t: Tid, p: Ptr) | StartClear(t: Tid)
    | Acquire(t: Tid) | Step(t: Tid, reply: Ptr)
    | Redirect(p: Ptr, to: Ptr)   // a client stores another buffer address in an object it holds
    | SetMax(m: nat)              // the tail of init, with no operation under way and the list just cleared

  predicate NeedsGrowth(o: Obj, n: nat) {
    n > 0 && o.nLen < n
  }

  /** About to take the lock. */
  predicate AtEntry(pc: PC) {
    pc.PopEnter? || pc.PushEnter? || pc.ClearEnter?
  }

  /** A step is enabled where its call is defined: front and pop_front on a list that is not empty, the heap on
  blocks that are allocated. */
  predicate StepEnabled(s: State, t: Tid, reply: Ptr) {
    match s.Pc(t)
    case Idle | PopEnter(_) | PushEnter(_) | ClearEnter => false
    case PopSeen(_) | PopFront(_, _) => s.list != []
    case PopReuse(n, p) => p in s.heap && (NeedsGrowth(s.heap[p], n) ==> reply == 0 || reply == p || s.Fresh(reply))
    case PopFresh(n) => reply == 0 || s.Fresh(reply)
    case PushFree(p) => p in s.heap
    case ClearBody => s.itr < |s.list| && s.list[s.itr] in s.heap
    case _ => true
  }

  ghost predicate Enabled(s: State, a: Action) {
    match a
    case StartPop(t, n) => s.Pc(t) == Idle && n < WORD
    case StartPush(t, p) => s.Pc(t) == Idle && p in s.place && s.place[p] == Client
    case StartClear(t) => s.Pc(t) == Idle
    case Acquire(t) => s.lock == None && AtEntry(s.Pc(t))
    case Step(t, reply) => StepEnabled(s, t, reply)
    case Redirect(p, to) => p in s.heap && p in s.place && s.place[p] == Client
    case SetMax(m) => s.list == [] && forall t :: s.Pc(t) == Idle
  }

  predicate InPop(pc: PC) {
    pc.PopLocked? || pc.PopSeen? || pc.PopFront? || pc.PopTaken? || pc.PopReuse? || pc.PopMiss? || pc.PopFresh?
  }

  predicate InPush(pc: PC) {
    pc.PushLocked? || pc.PushRoom? || pc.PushStored? || pc.PushFull? || pc.PushFree?
  }

  predicate InClear(pc: PC) {
    pc.ClearFreeing? || pc.ClearBody? || pc.ClearDone? || pc.ClearEmptied?
  }

  function PopStep(s: State, t: Tid, reply: Ptr): State
    requires StepEnabled(s, t, reply) && InPop(s.Pc(t))
  {
    match s.Pc(t)
    case PopLocked(n) => if s.list != [] then s.Goto(t, PopSeen(n)) else s.Goto(t, PopMiss(n)).Log(Dequeue(t, None))
    case PopSeen(n) => s.Goto(t, PopFront(n, s.list[0]))
    case PopFront(n, p) =>
      s.(list := s.list[1..]).Move(p, Hand(t)).Goto(t, PopTaken(n, p)).Log(Dequeue(t, Some(p)))
    case PopTaken(n, p) => s.Unlocked(t, PopReuse(n, p))
    case PopMiss(n) => s.Unlocked(t, PopFresh(n))
    case PopReuse(n, p) =>
      if !NeedsGrowth(s.heap[p], n) then s.Move(p, Client).Goto(t, Idle)
      else if reply == 0 then s.Move(p, Lost).Goto(t, Idle)
      else
        s.(heap := (s.heap - {p})[reply := Grown(n, reply)],
           place := (s.place - {p})[reply := Client]).Goto(t, Idle)
    case PopFresh(n) =>
      if reply == 0 then s.Goto(t, Idle)
      else
        s.(heap := s.heap[reply := Made(n, reply)],
           place := s.place[reply := Client], allocs := s.allocs + 1).Goto(t, Idle)
  }

  predicate LastOfPop(s: State, t: Tid, reply: Ptr) {
    StepEnabled(s, t, reply) && (s.Pc(t).PopReuse? || s.Pc(t).PopFresh?)
  }

  /** What the last statement of a pop returns; 0 is NULL. */
  function Returned(s: State, t: Tid, reply: Ptr): Ptr
    requires LastOfPop(s, t, reply)
  {
    if s.Pc(t).PopReuse? && !NeedsGrowth(s.heap[s.Pc(t).p], s.Pc(t).n) then s.Pc(t).p else reply
  }

  function PushStep(s: State, t: Tid, reply: Ptr): State
    requires StepEnabled(s, t, reply) && InPush(s.Pc(t))
  {
    match s.Pc(t)
    case PushLocked(p) =>
      if |s.list| < s.maxCount then s.Goto(t, PushRoom(p)) else s.Goto(t, PushFull(p)).Log(Enqueue(t, p, false))
    case PushRoom(p) => s.(list := s.list + [p]).Move(p, Pooled).Goto(t, PushStored(p)).Log(Enqueue(t, p, true))
    case PushStored(_) => s.Unlocked(t, Idle)
    case PushFull(p) => s.Unlocked(t, PushFree(p))
    case PushFree(p) => s.HeapFree(p).Goto(t, Idle)
  }

  function ClearStep(s: State, t: Tid, reply: Ptr): State
    requires StepEnabled(s, t, reply) && InClear(s.Pc(t))
  {
    match s.Pc(t)
    case ClearFreeing => s.Goto(t, if s.itr < |s.list| then ClearBody else ClearDone)
    case ClearBody => s.HeapFree(s.list[s.itr]).(itr := s.itr + 1).Goto(t, ClearFreeing)
    case ClearDone => s.(list := [], itr := 0).Goto(t, ClearEmptied)
    case ClearEmptied => s.Unlocked(t, Idle)
  }

  function DoStep(s: State, t: Tid, reply: Ptr): State
    requires StepEnabled(s, t, reply)
  {
    if InPop(s.Pc(t)) then PopStep(s, t, reply)
    else if InPush(s.Pc(t)) then PushStep(s, t, reply)
    else ClearStep(s, t, reply)
  }

  function DoAcquire(s: State, t: Tid): State
    requires AtEntry(s.Pc(t))
  {
    match s.Pc(t)
    case PopEnter(n) => s.Locked(t, PopLocked(n))
    case PushEnter(p) => s.Locked(t, PushLocked(p))
    case ClearEnter => s.Locked(t, ClearFreeing).Log(Drain(t))
  }

  ghost function Next(s: State, a: Action): State
    requires Enabled(s, a)
  {
    match a
    case StartPop(t, n) => s.Start(t, PopEnter(n))
    case StartPush(t, p) => s.Move(p, Hand(t)).Start(t, PushEnter(p))
    case StartClear(t) => s.Start(t, ClearEnter)
    case Acquire(t) => DoAcquire(s, t)
    case Step(t, reply) => DoStep(s, t, reply)
    case Redirect(p, to) => s.(heap := s.heap[p := s.heap[p].(szBuffer := to)])
    case SetMax(m) => s.(maxCount := m).Log(SetBound(m))
  }

  ghost predicate Runs(s: State, run: seq<Action>)
    decreases |run|
  {
    run == [] || (Enabled(s, run[0]) && Runs(Next(s, run[0]), run[1..]))
  }

  ghost function After(s: State, run: seq<Action>): State
    requires Runs(s, run)
    decreases |run|
  {
    if run == [] then s else After(Next(s, run[0]), run[1..])
  }

  ghost predicate Leads(s: State, run: seq<Action>, s': State) {
    Runs(s, run) && After(s, run) == s'
  }

  /** One run after the other. */
  lemma {:induction false} RunConcat(s: State, run: seq<Action>, more: seq<Action>)
    requires Runs(s, run) && Runs(After(s, run), more)
    ensures Runs(s, run + more) && After(s, run + more) == After(After(s, run), more)
    decreases |run|
  {
    var longer := run + more;
    if run == [] {
      assert longer == more;
    } else {
      assert longer[0] == run[0] && longer[1..] == run[1..] + more;
      RunConcat(Next(s, run[0]), run[1..], more);
    }
  }

  /** A run grows at its end. */
  lemma RunSnoc(s: State, run: seq<Action>, a: Action)
    requires Runs(s, run) && Enabled(After(s, run), a)
    ensures Runs(s, run + [a]) && After(s, run + [a]) == Next(After(s, run), a)
  {
    var last := [a];
    assert last[0] == a && last[1..] == [];
    assert Runs(Next(After(s, run), a), []);
    RunConcat(s, run, last);
  }
}
