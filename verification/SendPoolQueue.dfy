/** Every interleaving of the send pool refines an atomic bounded FIFO queue: each pop, push and clear takes
effect at exactly one step between its first and its last, recorded in `history` with its outcome. */
module SendPoolQueue {
  import opened Options
  import opened SendPoolMachine
  import opened SendPoolProofs
  import opened Seqs

  datatype Queue = Queue(items: seq<Ptr>, bound: nat)

  /** The atomic queue; None if the recorded outcome is not the one it would have given. */
  function Apply(q: Queue, op: QueueOp): Option<Queue> {
    match op
    case Enqueue(_, p, accepted) =>
      if accepted != (|q.items| < q.bound) then None
      else if accepted then Some(q.(items := q.items + [p]))
      else Some(q)
    case Dequeue(_, front) =>
      if front != (if q.items == [] then None else Some(q.items[0])) then None
      else if q.items == [] then Some(q)
      else Some(q.(items := q.items[1..]))
    case Drain(_) => Some(q.(items := []))
    case SetBound(m) => if q.items == [] then Some(q.(bound := m)) else None
  }

  function Replay(h: seq<QueueOp>): Option<Queue> {
    if h == [] then Some(Queue([], 0))
    else match Replay(h[..|h| - 1])
      case None => None
      case Some(q) => Apply(q, h[|h| - 1])
  }

  lemma ReplayLast(h: seq<QueueOp>, op: QueueOp)
    requires Replay(h).Some?
    ensures Replay(h + [op]) == Apply(Replay(h).value, op)
  {
    assert (h + [op])[..|h|] == h;
  }

  /** The queue a pool state stands for; a clear empties it the moment it has the lock. */
  function AbsQueue(s: State): Queue {
    Queue(if Clearing(s) then [] else s.list, s.maxCount)
  }

  ghost predicate Refines(s: State) {
    Replay(s.history) == Some(AbsQueue(s))
  }

  /** A step that takes effect: the atomic queue gives the recorded outcome and moves along. */
  lemma Effective(s: State, s': State, op: QueueOp)
    requires Refines(s) && s'.history == s.history + [op] && Apply(AbsQueue(s), op) == Some(AbsQueue(s'))
    ensures Refines(s')
  {
    ReplayLast(s.history, op);
  }

  lemma PopRefines(s: State, t: Tid, reply: Ptr)
    requires LockInv(s) && SeenInv(s) && Refines(s) && StepEnabled(s, t, reply) && InPop(s.Pc(t))
    ensures Refines(PopStep(s, t, reply))
  {
    var s' := PopStep(s, t, reply);
    PopIsLocal(s, t, reply);
    assert Critical(s.Pc(t)) <==> s.lock == Some(t);
    assert StillSo(s, t);
    if s.Pc(t).PopLocked? && s.list == [] {
      Effective(s, s', Dequeue(t, None));
    } else if s.Pc(t).PopFront? {
      Effective(s, s', Dequeue(t, Some(s.list[0])));
    } else {
      assert AbsQueue(s') == AbsQueue(s);
    }
  }

  lemma PushRefines(s: State, t: Tid, reply: Ptr)
    requires LockInv(s) && SeenInv(s) && Refines(s) && StepEnabled(s, t, reply) && InPush(s.Pc(t))
    ensures Refines(PushStep(s, t, reply))
  {
    var s' := PushStep(s, t, reply);
    PushIsLocal(s, t, reply);
    assert Critical(s.Pc(t)) <==> s.lock == Some(t);
    assert StillSo(s, t);
    if s.Pc(t).PushLocked? && |s.list| >= s.maxCount {
      Effective(s, s', Enqueue(t, s.Pc(t).p, false));
    } else if s.Pc(t).PushRoom? {
      Effective(s, s', Enqueue(t, s.Pc(t).p, true));
    } else {
      assert AbsQueue(s') == AbsQueue(s);
    }
  }

  lemma ClearRefines(s: State, t: Tid, reply: Ptr)
    requires LockInv(s) && Refines(s) && StepEnabled(s, t, reply) && InClear(s.Pc(t))
    ensures Refines(ClearStep(s, t, reply))
  {
    assert Critical(s.Pc(t)) <==> s.lock == Some(t);
    assert AbsQueue(ClearStep(s, t, reply)) == AbsQueue(s);
  }

  /** An operation's first statement has no effect yet. */
  lemma StartRefines(s: State, a: Action)
    requires LockInv(s) && Refines(s) && Enabled(s, a) && (a.StartPop? || a.StartPush? || a.StartClear?)
    ensures Refines(Next(s, a))
  {
    assert Critical(s.Pc(a.t)) <==> s.lock == Some(a.t);
    assert AbsQueue(Next(s, a)) == AbsQueue(s);
  }

  lemma StepRefines(s: State, a: Action)
    requires LockInv(s) && SeenInv(s) && Refines(s) && Enabled(s, a)
    ensures Refines(Next(s, a))
  {
    match a
    case StartPop(t, n) => StartRefines(s, a);
    case StartPush(t, p) => StartRefines(s, a);
    case StartClear(t) => StartRefines(s, a);
    case Step(t, reply) =>
      if InPop(s.Pc(t)) { PopRefines(s, t, reply); }
      else if InPush(s.Pc(t)) { PushRefines(s, t, reply); }
      else { ClearRefines(s, t, reply); }
    case Acquire(t) =>
      if s.Pc(t).ClearEnter? { Effective(s, Next(s, a), Drain(t)); }
      else { assert AbsQueue(Next(s, a)) == AbsQueue(s); }
    case Redirect(p, to) =>
      assert AbsQueue(Next(s, a)) == AbsQueue(s);
    case SetMax(m) =>
      Effective(s, Next(s, a), SetBound(m));
  }

  lemma {:induction false} RunRefines(s: State, run: seq<Action>)
    requires Inv(s) && Refines(s) && Runs(s, run)
    ensures Refines(After(s, run))
    decreases |run|
  {
    if run != [] {
      StepKeepsInv(s, run[0]);
      StepRefines(s, run[0]);
      RunRefines(Next(s, run[0]), run[1..]);
    }
  }

  /** The objects accepted since the last clear, in the order of the pushes. */
  function Accepted(h: seq<QueueOp>): seq<Ptr> {
    if h == [] then [] else
      var before := Accepted(h[..|h| - 1]);
      match h[|h| - 1]
      case Enqueue(_, p, accepted) => if accepted then before + [p] else before
      case Drain(_) => []
      case _ => before
  }

  /** The objects reused since the last clear, in the order of the pops. */
  function Reused(h: seq<QueueOp>): seq<Ptr> {
    if h == [] then [] else
      var before := Reused(h[..|h| - 1]);
      match h[|h| - 1]
      case Dequeue(_, front) => if front.Some? then before + [front.value] else before
      case Drain(_) => []
      case _ => before
  }

  /** One operation keeps the order. */
  lemma FifoStep(h: seq<QueueOp>, op: QueueOp, q: Queue, q': Queue)
    requires Accepted(h) == Reused(h) + q.items && Apply(q, op) == Some(q')
    ensures Accepted(h + [op]) == Reused(h + [op]) + q'.items
  {
    assert (h + [op])[..|h|] == h;
    if op.Dequeue? && q.items != [] {
      HeadTail(q.items);
      Assoc(Reused(h), [q.items[0]], q.items[1..]);
    } else if op.Enqueue? && op.accepted {
      Assoc(Reused(h), q.items, [op.p]);
    }
  }

  /** First in, first out: what was pushed is what was popped followed by what is still queued. */
  lemma {:induction false} Fifo(h: seq<QueueOp>)
    requires Replay(h).Some?
    ensures Accepted(h) == Reused(h) + Replay(h).value.items
    decreases |h|
  {
    if h != [] {
      var before := h[..|h| - 1];
      Fifo(before);
      assert h == before + [h[|h| - 1]];
      FifoStep(before, h[|h| - 1], Replay(before).value, Replay(h).value);
    }
  }

  /** For every interleaving from the empty pool: the recorded outcomes are those of one atomic queue, whose
  content is the pool's list, and pooled objects are reused in the order of their pushes. */
  lemma EveryRunIsFifo(run: seq<Action>)
    requires Runs(INITIAL, run)
    ensures var s := After(INITIAL, run);
            Replay(s.history) == Some(AbsQueue(s)) && Accepted(s.history) == Reused(s.history) + AbsQueue(s).items
  {
    InitialInv();
    RunRefines(INITIAL, run);
    Fifo(After(INITIAL, run).history);
  }
}
