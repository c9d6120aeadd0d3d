/** Each operation takes effect once: from its first statement to its last it records exactly one queue operation,
which is the one it was called for, with the outcome it acts on. */
module SendPoolEffects {
  import opened Options
  import opened SendPoolMachine
  import opened SendPoolProofs

  predicate By(op: QueueOp, t: Tid) {
    match op
    case Enqueue(u, _, _) => u == t
    case Dequeue(u, _) => u == t
    case Drain(u) => u == t
    case SetBound(_) => false
  }

  /** What a thread has recorded from a position of the history on. */
  function EntriesOf(h: seq<QueueOp>, since: nat, t: Tid): seq<QueueOp> {
    if |h| <= since then [] else
      var before := EntriesOf(h[..|h| - 1], since, t);
      if By(h[|h| - 1], t) then before + [h[|h| - 1]] else before
  }

  lemma EntriesGrow(h: seq<QueueOp>, op: QueueOp, since: nat, t: Tid)
    requires since <= |h|
    ensures EntriesOf(h + [op], since, t) == EntriesOf(h, since, t) + if By(op, t) then [op] else []
  {
    assert (h + [op])[..|h|] == h;
  }

  /** What a thread at `pc` must have recorded. */
  function Effect(pc: PC, t: Tid): seq<QueueOp> {
    match pc
    case PopTaken(_, p) => [Dequeue(t, Some(p))]
    case PopReuse(_, p) => [Dequeue(t, Some(p))]
    case PopMiss(_) => [Dequeue(t, None)]
    case PopFresh(_) => [Dequeue(t, None)]
    case PushStored(p) => [Enqueue(t, p, true)]
    case PushFull(p) => [Enqueue(t, p, false)]
    case PushFree(p) => [Enqueue(t, p, false)]
    case _ => if InClear(pc) then [Drain(t)] else []
  }

  /** The statement belongs to the operation that began with `entry`. */
  predicate PartOf(pc: PC, entry: PC) {
    if pc.PopEnter? || InPop(pc) then entry == PopEnter(pc.n)
    else if pc.PushEnter? || InPush(pc) then entry == PushEnter(pc.p)
    else entry == ClearEnter
  }

  predicate Recorded(s: State, t: Tid) {
    s.Pc(t) != Idle ==>
      && t in s.calls
      && s.calls[t].since <= |s.history|
      && PartOf(s.Pc(t), s.calls[t].entry)
      && EntriesOf(s.history, s.calls[t].since, t) == Effect(s.Pc(t), t)
  }

  ghost predicate RecordInv(s: State) {
    forall t: Tid :: Recorded(s, t)
  }

  /** A step records nothing, or one operation of its own thread. */
  ghost predicate Logs(s: State, s': State, a: Action, op: Option<QueueOp>) {
    match op
    case None => s'.history == s.history
    case Some(o) => s'.history == s.history + [o] && forall u: Tid :: By(o, u) <==> Actor(a) == Some(u)
  }

  /** What a thread must have recorded grows by just that. */
  ghost predicate Grows(s: State, s': State, t: Tid, op: Option<QueueOp>) {
    if s'.Pc(t) == Idle then op == None
    else Effect(s'.Pc(t), t) == Effect(s.Pc(t), t) + if op.Some? then [op.value] else []
  }

  lemma PopLogs(s: State, t: Tid, reply: Ptr) returns (op: Option<QueueOp>)
    requires StepEnabled(s, t, reply) && InPop(s.Pc(t))
    ensures var s' := PopStep(s, t, reply); Logs(s, s', Step(t, reply), op) && Grows(s, s', t, op)
  {
    match s.Pc(t)
    case PopLocked(n) => op := if s.list == [] then Some(Dequeue(t, None)) else None;
    case PopFront(n, p) => op := Some(Dequeue(t, Some(p)));
    case _ => op := None;
  }

  lemma PushLogs(s: State, t: Tid, reply: Ptr) returns (op: Option<QueueOp>)
    requires StepEnabled(s, t, reply) && InPush(s.Pc(t))
    ensures var s' := PushStep(s, t, reply); Logs(s, s', Step(t, reply), op) && Grows(s, s', t, op)
  {
    match s.Pc(t)
    case PushLocked(p) => op := if |s.list| < s.maxCount then None else Some(Enqueue(t, p, false));
    case PushRoom(p) => op := Some(Enqueue(t, p, true));
    case _ => op := None;
  }

  lemma ClearLogs(s: State, t: Tid, reply: Ptr)
    requires StepEnabled(s, t, reply) && InClear(s.Pc(t))
    ensures var s' := ClearStep(s, t, reply); Logs(s, s', Step(t, reply), None) && Grows(s, s', t, None)
  {
  }

  lemma StepLogs(s: State, t: Tid, reply: Ptr) returns (op: Option<QueueOp>)
    requires StepEnabled(s, t, reply)
    ensures var s' := DoStep(s, t, reply); Logs(s, s', Step(t, reply), op) && Grows(s, s', t, op)
  {
    op := None;
    if InPop(s.Pc(t)) { op := PopLogs(s, t, reply); }
    else if InPush(s.Pc(t)) { op := PushLogs(s, t, reply); }
    else { ClearLogs(s, t, reply); }
  }

  lemma AcquireLogs(s: State, t: Tid) returns (op: Option<QueueOp>)
    requires AtEntry(s.Pc(t))
    ensures var s' := DoAcquire(s, t); Logs(s, s', Acquire(t), op) && Grows(s, s', t, op)
  {
    op := if s.Pc(t).ClearEnter? then Some(Drain(t)) else None;
  }

  lemma StartLogs(s: State, a: Action)
    requires Enabled(s, a) && (a.StartPop? || a.StartPush? || a.StartClear?)
    ensures Logs(s, Next(s, a), a, None) && Grows(s, Next(s, a), a.t, None)
  {
  }

  lemma ActionLogs(s: State, a: Action) returns (op: Option<QueueOp>)
    requires Enabled(s, a) && !a.SetMax?
    ensures Logs(s, Next(s, a), a, op)
    ensures Actor(a).Some? ==> Grows(s, Next(s, a), Actor(a).value, op)
  {
    op := None;
    match a
    case Acquire(t) => op := AcquireLogs(s, t);
    case Step(t, reply) => op := StepLogs(s, t, reply);
    case Redirect(_, _) =>
    case _ => StartLogs(s, a);
  }

  /** A thread stays in the operation it began. */
  ghost predicate SameCall(s: State, s': State, t: Tid) {
    && t in s.calls && t in s'.calls
    && s'.calls[t].since == s.calls[t].since && s'.calls[t].entry == s.calls[t].entry
    && (s'.Pc(t) != Idle ==> PartOf(s'.Pc(t), s.calls[t].entry))
  }

  lemma PopStaysInCall(s: State, t: Tid, reply: Ptr)
    requires StepEnabled(s, t, reply) && InPop(s.Pc(t)) && Recorded(s, t)
    ensures SameCall(s, PopStep(s, t, reply), t)
  {
  }

  lemma PushStaysInCall(s: State, t: Tid, reply: Ptr)
    requires StepEnabled(s, t, reply) && InPush(s.Pc(t)) && Recorded(s, t)
    ensures SameCall(s, PushStep(s, t, reply), t)
  {
  }

  lemma StaysInCall(s: State, a: Action, t: Tid)
    requires Enabled(s, a) && Actor(a) == Some(t) && Recorded(s, t) && s.Pc(t) != Idle
    ensures SameCall(s, Next(s, a), t)
  {
    if a.Step? {
      if InPop(s.Pc(t)) { PopStaysInCall(s, t, a.reply); }
      else if InPush(s.Pc(t)) { PushStaysInCall(s, t, a.reply); }
    }
  }

  lemma RecordedGrows(s: State, s': State, a: Action, t: Tid, op: Option<QueueOp>)
    requires Recorded(s, t) && s.Pc(t) != Idle && SameCall(s, s', t) && Actor(a) == Some(t)
    requires Logs(s, s', a, op) && Grows(s, s', t, op)
    ensures Recorded(s', t)
  {
    if op.Some? {
      EntriesGrow(s.history, op.value, s.calls[t].since, t);
      assert By(op.value, t) <==> Actor(a) == Some(t);
    }
  }

  lemma RecordedByActor(s: State, a: Action, t: Tid)
    requires Enabled(s, a) && Actor(a) == Some(t) && Recorded(s, t)
    ensures Recorded(Next(s, a), t)
  {
    if s.Pc(t) != Idle {
      StaysInCall(s, a, t);
      var op := ActionLogs(s, a);
      RecordedGrows(s, Next(s, a), a, t, op);
    }
  }

  lemma RecordedStays(s: State, s': State, a: Action, u: Tid, op: Option<QueueOp>)
    requires Recorded(s, u) && s.Pc(u) != Idle && Actor(a) != Some(u) && Logs(s, s', a, op)
    requires s'.Pc(u) == s.Pc(u) && u in s'.calls && s'.calls[u] == s.calls[u]
    ensures Recorded(s', u)
  {
    if op.Some? {
      EntriesGrow(s.history, op.value, s.calls[u].since, u);
      assert By(op.value, u) <==> Actor(a) == Some(u);
    }
  }

  lemma RecordedByOther(s: State, a: Action, u: Tid)
    requires Enabled(s, a) && Actor(a) != Some(u) && Recorded(s, u)
    ensures Recorded(Next(s, a), u)
  {
    OthersStay(s, a, u);
    if s.Pc(u) != Idle && !a.SetMax? {
      var op := ActionLogs(s, a);
      RecordedStays(s, Next(s, a), a, u, op);
    }
  }

  lemma RecordKept(s: State, a: Action)
    requires RecordInv(s) && Enabled(s, a)
    ensures RecordInv(Next(s, a))
  {
    forall u: Tid ensures Recorded(Next(s, a), u) {
      assert Recorded(s, u);
      if Actor(a) == Some(u) { RecordedByActor(s, a, u); } else { RecordedByOther(s, a, u); }
    }
  }

  lemma {:induction false} RunKeepsRecord(s: State, run: seq<Action>)
    requires RecordInv(s) && Runs(s, run)
    ensures RecordInv(After(s, run))
    decreases |run|
  {
    if run != [] {
      RecordKept(s, run[0]);
      RunKeepsRecord(Next(s, run[0]), run[1..]);
    }
  }

  /** The queue operation an operation begun with `entry` stands for, and what its last step does with the
  outcome: a pop returns the dequeued object, unless it is too short, and a new one if there was none; a push
  keeps or frees the very object it was called with. */
  ghost predicate Fulfils(entry: PC, op: QueueOp, s: State, t: Tid, reply: Ptr)
    requires StepEnabled(s, t, reply)
  {
    var s' := DoStep(s, t, reply);
    match entry
    case PopEnter(n) =>
      && op.Dequeue?
      && (op.front.Some? ==>
            && s.Pc(t) == PopReuse(n, op.front.value)
            && op.front.value in s.heap
            && Returned(s, t, reply) == if n > 0 && s.heap[op.front.value].nLen < n then reply else op.front.value)
      && (op.front.None? ==> s.Pc(t) == PopFresh(n) && Returned(s, t, reply) == reply && reply !in s.heap)
    case PushEnter(p) =>
      && op.Enqueue? && op.p == p
      && (if op.accepted then s'.heap == s.heap else p in s.heap && s'.heap == s.heap - {p})
    case ClearEnter => op.Drain? && s'.list == s.list && s'.heap == s.heap
    case _ => false
  }

  /** In every interleaving: an operation that ends has recorded exactly one queue operation since it began, the
  one it was called for, and ends with that operation's outcome. */
  lemma EffectOnce(run: seq<Action>, t: Tid, reply: Ptr)
    requires Runs(INITIAL, run) && StepEnabled(After(INITIAL, run), t, reply)
    requires DoStep(After(INITIAL, run), t, reply).Pc(t) == Idle
    ensures var s := After(INITIAL, run);
            && t in s.calls
            && |EntriesOf(DoStep(s, t, reply).history, s.calls[t].since, t)| == 1
            && Fulfils(s.calls[t].entry, EntriesOf(DoStep(s, t, reply).history, s.calls[t].since, t)[0], s, t, reply)
  {
    var s := After(INITIAL, run);
    InitialInv();
    EveryRunKeepsInv(INITIAL, run);
    RunKeepsRecord(INITIAL, run);
    assert Recorded(s, t);
    var op := StepLogs(s, t, reply);
    LastStep(s, t, reply);
  }

  lemma LastStep(s: State, t: Tid, reply: Ptr)
    requires Inv(s) && Recorded(s, t) && StepEnabled(s, t, reply) && DoStep(s, t, reply).Pc(t) == Idle
    ensures |Effect(s.Pc(t), t)| == 1 && Fulfils(s.calls[t].entry, Effect(s.Pc(t), t)[0], s, t, reply)
  {
    if Held(s.Pc(t)).Some? { assert HandAt(s, t, Held(s.Pc(t)).value); }
  }
}
