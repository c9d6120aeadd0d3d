/** What every interleaving of pop, push, clear and init keeps. */
module SendPoolProofs {
  import opened Options
  import opened SendPoolMachine
  import opened Seqs

  predicate Critical(pc: PC) {
    || pc.PopLocked? || pc.PopSeen? || pc.PopFront? || pc.PopTaken? || pc.PopMiss?
    || pc.PushLocked? || pc.PushRoom? || pc.PushStored? || pc.PushFull?
    || InClear(pc)
  }

  /** The object in a thread's own hands. */
  function Held(pc: PC): Option<Ptr> {
    match pc
    case PopTaken(_, p) => Some(p)
    case PopReuse(_, p) => Some(p)
    case PushEnter(p) => Some(p)
    case PushLocked(p) => Some(p)
    case PushRoom(p) => Some(p)
    case PushFull(p) => Some(p)
    case PushFree(p) => Some(p)
    case _ => None
  }

  /** The pooled objects in list order: those a clear under way has freed no longer count. */
  function PoolList(s: State): seq<Ptr> {
    if s.itr <= |s.list| then s.list[s.itr..] else []
  }

  /** Mutual exclusion: a thread is in a critical section exactly when it is the lock's holder. */
  ghost predicate LockInv(s: State) {
    forall t: Tid :: Critical(s.Pc(t)) <==> s.lock == Some(t)
  }

  predicate At(s: State, p: Ptr, place: Place) {
    p in s.place && s.place[p] == place
  }

  predicate HandAt(s: State, t: Tid, p: Ptr) {
    Held(s.Pc(t)) == Some(p) <==> At(s, p, Hand(t))
  }

  ghost predicate HandInv(s: State) {
    forall t: Tid, p: Ptr :: HandAt(s, t, p)
  }

  ghost predicate PoolInv(s: State) {
    Distinct(PoolList(s)) && forall p: Ptr :: p in PoolList(s) <==> At(s, p, Pooled)
  }

  ghost predicate HeapInv(s: State) {
    s.place.Keys == s.heap.Keys && 0 !in s.heap && |s.heap| + s.frees == s.allocs
  }

  ghost predicate BoundInv(s: State) {
    s.itr <= |s.list| <= s.maxCount
  }

  /** Who owns what: thread by thread, the pool, and the heap as a whole. */
  ghost predicate OwnInv(s: State) {
    HandInv(s) && PoolInv(s) && HeapInv(s) && BoundInv(s)
  }

  predicate InLoop(pc: PC) {
    pc.ClearFreeing? || pc.ClearBody? || pc.ClearDone?
  }

  /** The lock's holder is in the loop of clear or about to empty the list. */
  predicate Clearing(s: State) {
    s.lock.Some? && InLoop(s.Pc(s.lock.value))
  }

  /** The iterator is off the list's start only while the lock's holder is clearing. */
  ghost predicate ClearInv(s: State) {
    s.itr > 0 ==> Clearing(s)
  }

  /** What a thread has seen of the list is still so. */
  predicate StillSo(s: State, t: Tid) {
    match s.Pc(t)
    case PopSeen(_) => s.list != []
    case PopFront(_, p) => s.list != [] && s.list[0] == p
    case PushRoom(_) => |s.list| < s.maxCount
    case ClearBody => s.itr < |s.list|
    case ClearDone => s.itr == |s.list|
    case _ => true
  }

  ghost predicate SeenInv(s: State) {
    forall t: Tid :: StillSo(s, t)
  }

  /** How often a thread has released the lock since its operation began. */
  function Releases(s: State, t: Tid): nat {
    if t in s.calls then s.calls[t].unlocks else 0
  }

  /** A thread's count of releases: none up to its critical section's end, one from there on. */
  ghost predicate Counted(s: State, t: Tid) {
    && (s.Pc(t) != Idle ==>
          && t in s.calls
          && Releases(s, t) == if s.Pc(t).PopReuse? || s.Pc(t).PopFresh? || s.Pc(t).PushFree? then 1 else 0)
    && (s.Pc(t) == Idle && t in s.calls ==> Releases(s, t) == 1)
  }

  ghost predicate UnlockInv(s: State) {
    forall t: Tid :: Counted(s, t)
  }

  ghost predicate Inv(s: State) {
    LockInv(s) && ClearInv(s) && SeenInv(s) && OwnInv(s) && UnlockInv(s)
  }

  lemma InitialInv()
    ensures Inv(INITIAL)
  {
  }

  function Actor(a: Action): Option<Tid> {
    match a
    case StartPop(t, _) => Some(t)
    case StartPush(t, _) => Some(t)
    case StartClear(t) => Some(t)
    case Acquire(t) => Some(t)
    case Step(t, _) => Some(t)
    case Redirect(_, _) => None
    case SetMax(_) => None
  }

  /** A step moves the program counter and the call record of its own thread only. */
  ghost predicate Local(s: State, s': State, t: Tid) {
    && s'.pcs == s.pcs[t := s'.Pc(t)]
    && (s'.calls == s.calls || (t in s'.calls && s'.calls == s.calls[t := s'.calls[t]]))
  }

  lemma PopIsLocal(s: State, t: Tid, reply: Ptr)
    requires StepEnabled(s, t, reply) && InPop(s.Pc(t))
    ensures Local(s, PopStep(s, t, reply), t)
  {
  }

  lemma PushIsLocal(s: State, t: Tid, reply: Ptr)
    requires StepEnabled(s, t, reply) && InPush(s.Pc(t))
    ensures Local(s, PushStep(s, t, reply), t)
  {
  }

  lemma ClearIsLocal(s: State, t: Tid, reply: Ptr)
    requires StepEnabled(s, t, reply) && InClear(s.Pc(t))
    ensures Local(s, ClearStep(s, t, reply), t)
  {
  }

  lemma ActionIsLocal(s: State, a: Action, t: Tid)
    requires Enabled(s, a) && Actor(a) == Some(t)
    ensures Local(s, Next(s, a), t)
  {
    if a.Step? {
      if InPop(s.Pc(t)) { PopIsLocal(s, t, a.reply); }
      else if InPush(s.Pc(t)) { PushIsLocal(s, t, a.reply); }
      else { ClearIsLocal(s, t, a.reply); }
    }
  }

  lemma OthersStay(s: State, a: Action, u: Tid)
    requires Enabled(s, a) && Actor(a) != Some(u)
    ensures Next(s, a).Pc(u) == s.Pc(u)
    ensures u in Next(s, a).calls <==> u in s.calls
    ensures u in s.calls ==> Next(s, a).calls[u] == s.calls[u]
  {
    if Actor(a).Some? { ActionIsLocal(s, a, Actor(a).value); }
  }

  /** The lock and the acting thread's program counter move together. */
  ghost predicate LockMove(s: State, s': State, t: Tid) {
    && (Critical(s'.Pc(t)) <==> s'.lock == Some(t))
    && (s'.lock == s.lock || (s.lock == None && s'.lock == Some(t)) || (s.lock == Some(t) && s'.lock == None))
  }

  lemma PopMovesLock(s: State, t: Tid, reply: Ptr)
    requires StepEnabled(s, t, reply) && InPop(s.Pc(t)) && (Critical(s.Pc(t)) <==> s.lock == Some(t))
    ensures LockMove(s, PopStep(s, t, reply), t)
  {
  }

  lemma PushMovesLock(s: State, t: Tid, reply: Ptr)
    requires StepEnabled(s, t, reply) && InPush(s.Pc(t)) && (Critical(s.Pc(t)) <==> s.lock == Some(t))
    ensures LockMove(s, PushStep(s, t, reply), t)
  {
  }

  lemma ClearMovesLock(s: State, t: Tid, reply: Ptr)
    requires StepEnabled(s, t, reply) && InClear(s.Pc(t)) && (Critical(s.Pc(t)) <==> s.lock == Some(t))
    ensures LockMove(s, ClearStep(s, t, reply), t)
  {
  }

  lemma AcquireMovesLock(s: State, t: Tid)
    requires AtEntry(s.Pc(t)) && s.lock == None
    ensures LockMove(s, DoAcquire(s, t), t)
  {
  }

  lemma StartMovesLock(s: State, a: Action, t: Tid)
    requires Enabled(s, a) && Actor(a) == Some(t) && !a.Step? && !a.Acquire?
    requires Critical(s.Pc(t)) <==> s.lock == Some(t)
    ensures LockMove(s, Next(s, a), t)
  {
  }

  lemma LockMoves(s: State, a: Action, t: Tid)
    requires Enabled(s, a) && Actor(a) == Some(t)
    requires Critical(s.Pc(t)) <==> s.lock == Some(t)
    ensures LockMove(s, Next(s, a), t)
  {
    if a.Step? {
      if InPop(s.Pc(t)) { PopMovesLock(s, t, a.reply); }
      else if InPush(s.Pc(t)) { PushMovesLock(s, t, a.reply); }
      else { ClearMovesLock(s, t, a.reply); }
    } else if a.Acquire? {
      AcquireMovesLock(s, t);
    } else {
      StartMovesLock(s, a, t);
    }
  }

  lemma LockKept(s: State, a: Action)
    requires LockInv(s) && Enabled(s, a)
    ensures LockInv(Next(s, a))
  {
    if Actor(a).Some? { LockMoves(s, a, Actor(a).value); }
    forall u: Tid ensures Critical(Next(s, a).Pc(u)) <==> Next(s, a).lock == Some(u) {
      if Actor(a) != Some(u) { OthersStay(s, a, u); }
    }
  }

  lemma PopCounts(s: State, t: Tid, reply: Ptr)
    requires StepEnabled(s, t, reply) && InPop(s.Pc(t)) && Counted(s, t)
    ensures Counted(PopStep(s, t, reply), t)
  {
  }

  lemma PushCounts(s: State, t: Tid, reply: Ptr)
    requires StepEnabled(s, t, reply) && InPush(s.Pc(t)) && Counted(s, t)
    ensures Counted(PushStep(s, t, reply), t)
  {
  }

  lemma CountMoves(s: State, a: Action, t: Tid)
    requires Enabled(s, a) && Actor(a) == Some(t) && Counted(s, t)
    ensures Counted(Next(s, a), t)
  {
    if a.Step? {
      if InPop(s.Pc(t)) { PopCounts(s, t, a.reply); }
      else if InPush(s.Pc(t)) { PushCounts(s, t, a.reply); }
    }
  }

  lemma UnlockKept(s: State, a: Action)
    requires UnlockInv(s) && Enabled(s, a)
    ensures UnlockInv(Next(s, a))
  {
    forall u: Tid ensures Counted(Next(s, a), u) {
      assert Counted(s, u);
      if Actor(a) == Some(u) { CountMoves(s, a, u); } else { OthersStay(s, a, u); }
    }
  }

  lemma ClearKeptByClear(s: State, t: Tid, reply: Ptr)
    requires StepEnabled(s, t, reply) && InClear(s.Pc(t)) && s.lock == Some(t) && ClearInv(s)
    ensures ClearInv(ClearStep(s, t, reply))
  {
  }

  lemma PopKeepsItr(s: State, t: Tid, reply: Ptr)
    requires StepEnabled(s, t, reply) && InPop(s.Pc(t))
    ensures PopStep(s, t, reply).itr == s.itr
  {
  }

  lemma PushKeepsItr(s: State, t: Tid, reply: Ptr)
    requires StepEnabled(s, t, reply) && InPush(s.Pc(t))
    ensures PushStep(s, t, reply).itr == s.itr
  {
  }

  lemma ItrStays(s: State, a: Action)
    requires Enabled(s, a) && (a.Step? ==> !InClear(s.Pc(a.t)))
    ensures Next(s, a).itr == s.itr
  {
    if a.Step? {
      if InPop(s.Pc(a.t)) { PopKeepsItr(s, a.t, a.reply); } else { PushKeepsItr(s, a.t, a.reply); }
    }
  }

  lemma ClearKept(s: State, a: Action)
    requires LockInv(s) && ClearInv(s) && Enabled(s, a)
    ensures ClearInv(Next(s, a))
  {
    if a.Step? && InClear(s.Pc(a.t)) {
      assert Critical(s.Pc(a.t)) <==> s.lock == Some(a.t);
      ClearKeptByClear(s, a.t, a.reply);
    } else {
      ItrStays(s, a);
      if s.itr > 0 { HolderStays(s, a, s.lock.value); }
    }
  }

  /** A thread in the loop of clear keeps the lock whatever the others do. */
  lemma HolderStays(s: State, a: Action, h: Tid)
    requires LockInv(s) && Enabled(s, a) && s.lock == Some(h) && Actor(a) != Some(h)
    ensures Next(s, a).lock == Some(h) && Next(s, a).Pc(h) == s.Pc(h)
  {
    OthersStay(s, a, h);
    if Actor(a).Some? {
      assert Critical(s.Pc(Actor(a).value)) <==> s.lock == Some(Actor(a).value);
      LockMoves(s, a, Actor(a).value);
    }
  }

  predicate SameList(s: State, s': State) {
    s'.list == s.list && s'.itr == s.itr && s'.maxCount == s.maxCount
  }

  /** The list, its bound and the iterator change inside critical sections only. */
  lemma ListStays(s: State, a: Action, t: Tid)
    requires Enabled(s, a) && Actor(a) == Some(t) && !Critical(s.Pc(t))
    ensures SameList(s, Next(s, a))
  {
    if a.Step? { assert InPop(s.Pc(t)) || InPush(s.Pc(t)); }
  }

  lemma SeenByActor(s: State, a: Action, t: Tid)
    requires Enabled(s, a) && Actor(a) == Some(t) && StillSo(s, t) && s.itr <= |s.list|
    ensures StillSo(Next(s, a), t)
  {
    if a.Step? {
      if InPop(s.Pc(t)) { SeenByPop(s, t, a.reply); }
      else if InPush(s.Pc(t)) { SeenByPush(s, t, a.reply); }
    }
  }

  lemma SeenByPop(s: State, t: Tid, reply: Ptr)
    requires StepEnabled(s, t, reply) && InPop(s.Pc(t)) && StillSo(s, t)
    ensures StillSo(PopStep(s, t, reply), t)
  {
  }

  lemma SeenByPush(s: State, t: Tid, reply: Ptr)
    requires StepEnabled(s, t, reply) && InPush(s.Pc(t)) && StillSo(s, t)
    ensures StillSo(PushStep(s, t, reply), t)
  {
  }

  /** What one thread has seen of the list no other can undo: that is what the lock is for. */
  lemma SeenKept(s: State, a: Action)
    requires LockInv(s) && SeenInv(s) && BoundInv(s) && Enabled(s, a)
    ensures SeenInv(Next(s, a))
  {
    forall u: Tid ensures StillSo(Next(s, a), u) {
      assert StillSo(s, u);
      assert Critical(s.Pc(u)) <==> s.lock == Some(u);
      if Actor(a) == Some(u) {
        SeenByActor(s, a, u);
      } else {
        OthersStay(s, a, u);
        if Actor(a).Some? && Critical(s.Pc(u)) {
          assert Critical(s.Pc(Actor(a).value)) <==> s.lock == Some(Actor(a).value);
          ListStays(s, a, Actor(a).value);
        }
      }
    }
  }

  // ----- Ownership, one kind of step at a time -----

  predicate SameHeap(s: State, s': State) {
    s'.heap == s.heap && s'.allocs == s.allocs && s'.frees == s.frees
  }

  /** Nothing changes hands. */
  lemma Quiet(s: State, s': State, t: Tid)
    requires OwnInv(s) && SameList(s, s') && SameHeap(s, s') && s'.place == s.place
    requires s'.pcs == s.pcs[t := s'.Pc(t)] && Held(s'.Pc(t)) == Held(s.Pc(t))
    ensures OwnInv(s')
  {
    forall u: Tid, p: Ptr ensures HandAt(s', u, p) {
      assert HandAt(s, u, p);
    }
    assert forall p: Ptr :: At(s', p, Pooled) == At(s, p, Pooled);
  }

  /** A thread gives its object away: to the client, or for lost. */
  lemma HandedOver(s: State, s': State, t: Tid, p: Ptr, to: Place)
    requires OwnInv(s) && SameList(s, s') && SameHeap(s, s')
    requires Held(s.Pc(t)) == Some(p) && (to == Client || to == Lost)
    requires s'.place == s.place[p := to] && s'.pcs == s.pcs[t := Idle]
    ensures OwnInv(s')
  {
    assert HandAt(s, t, p);
    forall u: Tid, q: Ptr ensures HandAt(s', u, q) {
      assert HandAt(s, u, q) && HandAt(s, t, q);
    }
    assert forall q: Ptr :: At(s', q, Pooled) == At(s, q, Pooled);
  }

  /** A thread receives a client's object. */
  lemma Received(s: State, s': State, t: Tid, p: Ptr)
    requires OwnInv(s) && SameList(s, s') && SameHeap(s, s')
    requires s.Pc(t) == Idle && At(s, p, Client)
    requires s'.place == s.place[p := Hand(t)] && s'.pcs == s.pcs[t := PushEnter(p)]
    ensures OwnInv(s')
  {
    forall u: Tid, q: Ptr ensures HandAt(s', u, q) {
      assert HandAt(s, u, q) && HandAt(s, t, q) && HandAt(s, u, p);
    }
    assert forall q: Ptr :: At(s', q, Pooled) == At(s, q, Pooled);
  }

  /** The front of the list goes into a thread's hands. */
  lemma TakenFront(s: State, s': State, t: Tid)
    requires OwnInv(s) && s.itr == 0 && s.list != [] && SameHeap(s, s') && Held(s.Pc(t)) == None
    requires s'.list == s.list[1..] && s'.itr == 0 && s'.maxCount == s.maxCount
    requires s'.place == s.place[s.list[0] := Hand(t)]
    requires s'.pcs == s.pcs[t := s'.Pc(t)] && Held(s'.Pc(t)) == Some(s.list[0])
    ensures OwnInv(s')
  {
    var p := s.list[0];
    assert p in PoolList(s) && At(s, p, Pooled);
    forall u: Tid, q: Ptr ensures HandAt(s', u, q) {
      assert HandAt(s, u, q) && HandAt(s, t, q) && HandAt(s, u, p);
    }
    forall q: Ptr ensures q in PoolList(s') <==> At(s', q, Pooled) {
      assert PoolList(s) == [p] + PoolList(s');
      assert q in PoolList(s) <==> At(s, q, Pooled);
      assert q in PoolList(s) <==> q == p || q in PoolList(s');
    }
  }

  /** A thread's object goes to the back of the list. */
  lemma Appended(s: State, s': State, t: Tid, p: Ptr)
    requires OwnInv(s) && s.itr == 0 && SameHeap(s, s') && Held(s.Pc(t)) == Some(p) && |s.list| < s.maxCount
    requires s'.list == s.list + [p] && s'.itr == 0 && s'.maxCount == s.maxCount
    requires s'.place == s.place[p := Pooled] && s'.pcs == s.pcs[t := s'.Pc(t)] && Held(s'.Pc(t)) == None
    ensures OwnInv(s')
  {
    assert HandAt(s, t, p);
    forall u: Tid, q: Ptr ensures HandAt(s', u, q) {
      assert HandAt(s, u, q) && HandAt(s, t, q);
    }
    assert PoolList(s') == PoolList(s) + [p];
    assert !At(s, p, Pooled) && p !in PoolList(s);
    forall q: Ptr ensures q in PoolList(s') <==> At(s', q, Pooled) {
      assert q in PoolList(s) <==> At(s, q, Pooled);
    }
  }

  lemma CountRemoved(m: map<Ptr, Obj>, p: Ptr)
    requires p in m
    ensures |m - {p}| == |m| - 1
  {
    assert (m - {p}).Keys == m.Keys - {p};
  }

  lemma CountAdded(m: map<Ptr, Obj>, q: Ptr, o: Obj)
    requires q !in m
    ensures |m[q := o]| == |m| + 1
  {
    assert m[q := o].Keys == m.Keys + {q};
  }

  lemma CountSwapped(m: map<Ptr, Obj>, p: Ptr, q: Ptr, o: Obj)
    requires p in m && (q == p || q !in m)
    ensures |(m - {p})[q := o]| == |m|
  {
    CountRemoved(m, p);
    CountAdded(m - {p}, q, o);
  }

  /** A reallocated object, possibly moved, goes to the client. */
  lemma Regrown(s: State, s': State, t: Tid, p: Ptr, q: Ptr, o: Obj)
    requires OwnInv(s) && SameList(s, s') && Held(s.Pc(t)) == Some(p) && q != 0 && (q == p || q !in s.heap)
    requires s'.heap == (s.heap - {p})[q := o] && s'.allocs == s.allocs && s'.frees == s.frees
    requires s'.place == (s.place - {p})[q := Client] && s'.pcs == s.pcs[t := Idle]
    ensures OwnInv(s')
  {
    assert HandAt(s, t, p);
    RegrownHands(s, s', t, p, q);
    assert forall r: Ptr :: At(s', r, Pooled) == At(s, r, Pooled);
    CountSwapped(s.heap, p, q, o);
  }

  lemma RegrownHands(s: State, s': State, t: Tid, p: Ptr, q: Ptr)
    requires HandInv(s) && Held(s.Pc(t)) == Some(p) && (q == p || q !in s.place)
    requires s'.place == (s.place - {p})[q := Client] && s'.pcs == s.pcs[t := Idle]
    ensures HandInv(s')
  {
    forall u: Tid, r: Ptr ensures HandAt(s', u, r) {
      assert HandAt(s, u, r) && HandAt(s, t, r) && HandAt(s, t, p);
    }
  }

  /** A newly allocated object goes to the client. */
  lemma Obtained(s: State, s': State, t: Tid, q: Ptr, o: Obj)
    requires OwnInv(s) && SameList(s, s') && Held(s.Pc(t)) == None && s.Fresh(q)
    requires s'.heap == s.heap[q := o] && s'.allocs == s.allocs + 1 && s'.frees == s.frees
    requires s'.place == s.place[q := Client] && s'.pcs == s.pcs[t := Idle]
    ensures OwnInv(s')
  {
    forall u: Tid, r: Ptr ensures HandAt(s', u, r) {
      assert HandAt(s, u, r);
    }
    assert forall r: Ptr :: At(s', r, Pooled) == At(s, r, Pooled);
    CountAdded(s.heap, q, o);
  }

  /** A thread frees its own object. */
  lemma FreedOwn(s: State, s': State, t: Tid, p: Ptr)
    requires OwnInv(s) && SameList(s, s') && Held(s.Pc(t)) == Some(p)
    requires s'.heap == s.heap - {p} && s'.allocs == s.allocs && s'.frees == s.frees + 1
    requires s'.place == s.place - {p} && s'.pcs == s.pcs[t := Idle]
    ensures OwnInv(s')
  {
    assert HandAt(s, t, p);
    forall u: Tid, q: Ptr ensures HandAt(s', u, q) {
      assert HandAt(s, u, q) && HandAt(s, t, q);
    }
    assert forall q: Ptr :: At(s', q, Pooled) == At(s, q, Pooled);
    CountRemoved(s.heap, p);
  }

  /** A clear frees the next pooled object. */
  lemma FreedNext(s: State, s': State, t: Tid)
    requires OwnInv(s) && s.itr < |s.list|
    requires s'.pcs == s.pcs[t := s'.Pc(t)] && Held(s'.Pc(t)) == Held(s.Pc(t))
    requires s'.list == s.list && s'.itr == s.itr + 1 && s'.maxCount == s.maxCount
    requires s'.heap == s.heap - {s.list[s.itr]} && s'.allocs == s.allocs && s'.frees == s.frees + 1
    requires s'.place == s.place - {s.list[s.itr]}
    ensures s.list[s.itr] in s.heap && OwnInv(s')
  {
    var p := s.list[s.itr];
    PoolLosesFirst(s, s');
    forall u: Tid, q: Ptr ensures HandAt(s', u, q) {
      assert HandAt(s, u, q);
    }
    CountRemoved(s.heap, p);
  }

  lemma PoolLosesFirst(s: State, s': State)
    requires PoolInv(s) && s.itr < |s.list| && s'.list == s.list && s'.itr == s.itr + 1
    requires s'.place == s.place - {s.list[s.itr]}
    ensures At(s, s.list[s.itr], Pooled) && PoolInv(s')
  {
    var p := s.list[s.itr];
    assert PoolList(s) == [p] + PoolList(s');
    assert p in PoolList(s) && At(s, p, Pooled);
    forall q: Ptr ensures q in PoolList(s') <==> At(s', q, Pooled) {
      assert q in PoolList(s) <==> At(s, q, Pooled);
      assert q in PoolList(s) <==> q == p || q in PoolList(s');
    }
  }

  /** The list's nodes go when all their objects are freed. */
  lemma Emptied(s: State, s': State, t: Tid)
    requires OwnInv(s) && s.itr == |s.list| && SameHeap(s, s') && s'.place == s.place
    requires s'.list == [] && s'.itr == 0 && s'.maxCount == s.maxCount
    requires s'.pcs == s.pcs[t := s'.Pc(t)] && Held(s'.Pc(t)) == Held(s.Pc(t))
    ensures OwnInv(s')
  {
    assert PoolList(s) == [] == PoolList(s');
    forall u: Tid, p: Ptr ensures HandAt(s', u, p) {
      assert HandAt(s, u, p);
    }
    assert forall p: Ptr :: At(s', p, Pooled) == At(s, p, Pooled);
  }

  /** A client rewrites an object it holds. */
  lemma Rewritten(s: State, s': State, p: Ptr, o: Obj)
    requires OwnInv(s) && p in s.heap && s'.heap == s.heap[p := o] && s'.allocs == s.allocs && s'.frees == s.frees
    requires SameList(s, s') && s'.pcs == s.pcs && s'.place == s.place
    ensures OwnInv(s')
  {
    forall u: Tid, q: Ptr ensures HandAt(s', u, q) {
      assert HandAt(s, u, q);
    }
    assert forall q: Ptr :: At(s', q, Pooled) == At(s, q, Pooled);
    assert s'.heap.Keys == s.heap.Keys;
  }

  /** Steps of pop and push that only test, read or release. */
  predicate OnlyLooks(pc: PC) {
    pc.PopLocked? || pc.PopSeen? || pc.PopTaken? || pc.PopMiss? || pc.PushLocked? || pc.PushStored? || pc.PushFull?
  }

  ghost predicate Looked(s: State, s': State, t: Tid) {
    SameList(s, s') && SameHeap(s, s') && s'.place == s.place && Held(s'.Pc(t)) == Held(s.Pc(t))
  }

  lemma PopLooks(s: State, t: Tid, reply: Ptr)
    requires StepEnabled(s, t, reply) && InPop(s.Pc(t)) && OnlyLooks(s.Pc(t))
    ensures Looked(s, PopStep(s, t, reply), t)
  {
  }

  lemma PushLooks(s: State, t: Tid, reply: Ptr)
    requires StepEnabled(s, t, reply) && InPush(s.Pc(t)) && OnlyLooks(s.Pc(t))
    ensures Looked(s, PushStep(s, t, reply), t)
  {
  }

  lemma LookingKeepsOwn(s: State, s': State, t: Tid)
    requires OwnInv(s) && Local(s, s', t) && Looked(s, s', t)
    ensures OwnInv(s')
  {
    Quiet(s, s', t);
  }

  lemma ReuseKeepsOwn(s: State, t: Tid, reply: Ptr)
    requires OwnInv(s) && StepEnabled(s, t, reply) && s.Pc(t).PopReuse?
    ensures OwnInv(PopStep(s, t, reply))
  {
    var s', n, p := PopStep(s, t, reply), s.Pc(t).n, s.Pc(t).p;
    if !NeedsGrowth(s.heap[p], n) { HandedOver(s, s', t, p, Client); }
    else if reply == 0 { HandedOver(s, s', t, p, Lost); }
    else { Regrown(s, s', t, p, reply, Grown(n, reply)); }
  }

  lemma FreshKeepsOwn(s: State, t: Tid, reply: Ptr)
    requires OwnInv(s) && StepEnabled(s, t, reply) && s.Pc(t).PopFresh?
    ensures OwnInv(PopStep(s, t, reply))
  {
    var s', n := PopStep(s, t, reply), s.Pc(t).n;
    if reply == 0 { Quiet(s, s', t); } else { Obtained(s, s', t, reply, Made(n, reply)); }
  }

  /** A thread that holds the lock and does not clear finds the iterator at the start. */
  lemma AtStart(s: State, t: Tid)
    requires LockInv(s) && ClearInv(s) && Critical(s.Pc(t)) && !InLoop(s.Pc(t))
    ensures s.itr == 0
  {
    assert s.lock == Some(t);
  }

  lemma OwnKeptByPop(s: State, t: Tid, reply: Ptr)
    requires LockInv(s) && ClearInv(s) && SeenInv(s) && OwnInv(s) && StepEnabled(s, t, reply) && InPop(s.Pc(t))
    ensures OwnInv(PopStep(s, t, reply))
  {
    if OnlyLooks(s.Pc(t)) {
      PopIsLocal(s, t, reply);
      PopLooks(s, t, reply);
      LookingKeepsOwn(s, PopStep(s, t, reply), t);
    } else if s.Pc(t).PopFront? {
      AtStart(s, t);
      assert StillSo(s, t);
      TakenFront(s, PopStep(s, t, reply), t);
    } else if s.Pc(t).PopReuse? {
      ReuseKeepsOwn(s, t, reply);
    } else {
      FreshKeepsOwn(s, t, reply);
    }
  }

  lemma OwnKeptByPush(s: State, t: Tid, reply: Ptr)
    requires LockInv(s) && ClearInv(s) && SeenInv(s) && OwnInv(s) && StepEnabled(s, t, reply) && InPush(s.Pc(t))
    ensures OwnInv(PushStep(s, t, reply))
  {
    if OnlyLooks(s.Pc(t)) {
      PushIsLocal(s, t, reply);
      PushLooks(s, t, reply);
      LookingKeepsOwn(s, PushStep(s, t, reply), t);
    } else if s.Pc(t).PushRoom? {
      AtStart(s, t);
      assert StillSo(s, t);
      Appended(s, PushStep(s, t, reply), t, s.Pc(t).p);
    } else {
      FreedOwn(s, PushStep(s, t, reply), t, s.Pc(t).p);
    }
  }

  lemma OwnKeptByClear(s: State, t: Tid, reply: Ptr)
    requires SeenInv(s) && OwnInv(s) && StepEnabled(s, t, reply) && InClear(s.Pc(t))
    ensures OwnInv(ClearStep(s, t, reply))
  {
    var s' := ClearStep(s, t, reply);
    match s.Pc(t)
    case ClearFreeing => Quiet(s, s', t);
    case ClearBody => FreedNext(s, s', t);
    case ClearDone => assert StillSo(s, t); Emptied(s, s', t);
    case ClearEmptied => Quiet(s, s', t);
  }

  lemma OwnKeptByStep(s: State, t: Tid, reply: Ptr)
    requires LockInv(s) && ClearInv(s) && SeenInv(s) && OwnInv(s) && StepEnabled(s, t, reply)
    ensures OwnInv(DoStep(s, t, reply))
  {
    if InPop(s.Pc(t)) { OwnKeptByPop(s, t, reply); }
    else if InPush(s.Pc(t)) { OwnKeptByPush(s, t, reply); }
    else { OwnKeptByClear(s, t, reply); }
  }

  lemma AcquireKeepsOwn(s: State, t: Tid)
    requires OwnInv(s) && AtEntry(s.Pc(t))
    ensures OwnInv(DoAcquire(s, t))
  {
    Quiet(s, DoAcquire(s, t), t);
  }

  lemma StartKeepsOwn(s: State, a: Action)
    requires OwnInv(s) && Enabled(s, a) && (a.StartPop? || a.StartPush? || a.StartClear?)
    ensures OwnInv(Next(s, a))
  {
    if a.StartPush? { Received(s, Next(s, a), a.t, a.p); } else { Quiet(s, Next(s, a), a.t); }
  }

  lemma OwnKeptByOthers(s: State, a: Action)
    requires OwnInv(s) && Enabled(s, a) && !a.Step?
    ensures OwnInv(Next(s, a))
  {
    match a
    case Acquire(t) => AcquireKeepsOwn(s, t);
    case Redirect(p, to) => Rewritten(s, Next(s, a), p, Next(s, a).heap[p]);
    case SetMax(m) => NewBound(s, Next(s, a));
    case _ => StartKeepsOwn(s, a);
  }

  lemma OwnKept(s: State, a: Action)
    requires LockInv(s) && ClearInv(s) && SeenInv(s) && OwnInv(s) && Enabled(s, a)
    ensures OwnInv(Next(s, a))
  {
    if a.Step? { OwnKeptByStep(s, a.t, a.reply); } else { OwnKeptByOthers(s, a); }
  }

  lemma NewBound(s: State, s': State)
    requires OwnInv(s) && s.list == [] && s'.list == [] && s'.itr == s.itr
    requires s'.pcs == s.pcs && s'.place == s.place && SameHeap(s, s')
    ensures OwnInv(s')
  {
    forall u: Tid, p: Ptr ensures HandAt(s', u, p) {
      assert HandAt(s, u, p);
    }
    assert forall p: Ptr :: At(s', p, Pooled) == At(s, p, Pooled);
  }

  lemma StepKeepsInv(s: State, a: Action)
    requires Inv(s) && Enabled(s, a)
    ensures Inv(Next(s, a))
  {
    LockKept(s, a);
    ClearKept(s, a);
    SeenKept(s, a);
    OwnKept(s, a);
    UnlockKept(s, a);
  }

  /** Every state any interleaving reaches. */
  lemma {:induction false} EveryRunKeepsInv(s: State, run: seq<Action>)
    requires Inv(s) && Runs(s, run)
    ensures Inv(After(s, run))
    decreases |run|
  {
    if run != [] {
      StepKeepsInv(s, run[0]);
      EveryRunKeepsInv(Next(s, run[0]), run[1..]);
    }
  }

  // ----- What follows -----

  lemma FrontIsPooled(s: State)
    requires Inv(s) && s.list != []
    ensures s.itr == 0 ==> At(s, s.list[0], Pooled) && s.list[0] in s.heap
  {
    assert s.itr == 0 ==> PoolList(s)[0] in PoolList(s);
  }

  /** No step reads or removes the front of an empty list or touches a block that is not allocated, and none is
  stuck: every thread past its first statement and not waiting for the lock can go on, whatever the heap
  answers: null, an address in nobody's use, or that of the block to grow. */
  lemma NeverStuck(s: State, t: Tid, reply: Ptr)
    requires Inv(s) && !s.Pc(t).Idle? && !AtEntry(s.Pc(t))
    requires reply == 0 || s.Fresh(reply) || (s.Pc(t).PopReuse? && reply == s.Pc(t).p)
    ensures Enabled(s, Step(t, reply))
  {
    assert StillSo(s, t);
    if Held(s.Pc(t)).Some? { assert HandAt(s, t, Held(s.Pc(t)).value); }
    assert s.itr < |s.list| ==> PoolList(s)[0] in PoolList(s);
  }

  /** No deadlock: whenever an operation is under way, some thread can take a step of its operation. */
  lemma NoDeadlock(s: State, t: Tid)
    requires Inv(s) && s.Pc(t) != Idle
    ensures exists u: Tid :: Enabled(s, Acquire(u)) || Enabled(s, Step(u, 0))
  {
    if s.lock.Some? {
      var u := s.lock.value;
      assert Critical(s.Pc(u)) <==> s.lock == Some(u);
      NeverStuck(s, u, 0);
    } else if AtEntry(s.Pc(t)) {
      assert Enabled(s, Acquire(t));
    } else {
      NeverStuck(s, t, 0);
    }
  }

  /** At most one thread is in a critical section. */
  lemma MutualExclusion(s: State, t: Tid, u: Tid)
    requires Inv(s) && Critical(s.Pc(t)) && Critical(s.Pc(u))
    ensures t == u
  {
    assert s.lock == Some(t);
  }

  /** An operation that comes to its end has released the lock exactly once, on each of its paths. */
  lemma ReleasedOnce(s: State, t: Tid, reply: Ptr)
    requires Inv(s) && Enabled(s, Step(t, reply)) && Next(s, Step(t, reply)).Pc(t) == Idle
    ensures Releases(Next(s, Step(t, reply)), t) == 1
  {
    assert Counted(s, t);
    CountMoves(s, Step(t, reply), t);
    ActionIsLocal(s, Step(t, reply), t);
  }

  function Owned(s: State, place: Place): set<Ptr> {
    set p | p in s.place && s.place[p] == place
  }

  function InHands(s: State): set<Ptr> {
    set p | p in s.place && s.place[p].Hand?
  }

  lemma {:induction false} ElementsOfDistinct(q: seq<Ptr>)
    requires Distinct(q)
    ensures |Elements(q)| == |q|
    decreases |q|
  {
    if q != [] {
      var rest := q[1..];
      assert q == [q[0]] + rest;
      assert Distinct(rest) by {
        assert forall i, j :: 0 <= i < j < |rest| ==> rest[i] == q[i + 1] && rest[j] == q[j + 1];
      }
      ElementsOfDistinct(rest);
      assert Elements(q) == {q[0]} + Elements(rest);
      assert q[0] !in rest;
    }
  }

  lemma FourParts(a: set<Ptr>, b: set<Ptr>, c: set<Ptr>, d: set<Ptr>)
    requires a !! b && (a + b) !! c && (a + b + c) !! d
    ensures |a + b + c + d| == |a| + |b| + |c| + |d|
  {
  }

  lemma PooledIsList(s: State)
    requires PoolInv(s)
    ensures |Owned(s, Pooled)| == |PoolList(s)|
  {
    ElementsOfDistinct(PoolList(s));
    forall p: Ptr ensures p in Owned(s, Pooled) <==> p in Elements(PoolList(s)) {
      assert p in PoolList(s) <==> At(s, p, Pooled);
    }
    assert Owned(s, Pooled) == Elements(PoolList(s));
  }

  /** The ledger: what was allocated and not freed is pooled, in a thread's hands, with clients, or lost to a
  failed reallocation, and in only one of these; and no list outgrows its bound. */
  lemma Ledger(s: State)
    requires Inv(s)
    ensures s.heap.Keys == Owned(s, Pooled) + InHands(s) + Owned(s, Client) + Owned(s, Lost)
    ensures s.allocs - s.frees == |PoolList(s)| + |InHands(s)| + |Owned(s, Client)| + |Owned(s, Lost)|
    ensures |s.list| <= s.maxCount
  {
    AllPlaces(s);
    FourParts(Owned(s, Pooled), InHands(s), Owned(s, Client), Owned(s, Lost));
    PooledIsList(s);
    assert |s.heap| == |s.heap.Keys|;
  }

  lemma AllPlaces(s: State)
    ensures s.place.Keys == Owned(s, Pooled) + InHands(s) + Owned(s, Client) + Owned(s, Lost)
    ensures Owned(s, Pooled) !! InHands(s) && (Owned(s, Pooled) + InHands(s)) !! Owned(s, Client)
    ensures (Owned(s, Pooled) + InHands(s) + Owned(s, Client)) !! Owned(s, Lost)
  {
    assert s.place.Keys == Owned(s, Pooled) + InHands(s) + Owned(s, Client) + Owned(s, Lost);
  }

  /** An object in hands is in the hands of exactly one thread, and in none of the other places. */
  lemma OneOwner(s: State, t: Tid, u: Tid, p: Ptr)
    requires Inv(s) && Held(s.Pc(t)) == Some(p)
    ensures Held(s.Pc(u)) == Some(p) ==> u == t
    ensures p in InHands(s) && p !in PoolList(s) && p !in Owned(s, Client) && p !in Owned(s, Lost) && p in s.heap
  {
    assert HandAt(s, t, p) && HandAt(s, u, p);
    assert p in PoolList(s) <==> At(s, p, Pooled);
  }
}
